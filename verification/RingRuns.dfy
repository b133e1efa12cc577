/** The ring over whole runs: every schedule of waves, service thread and dispatcher, from the
    initial state. */
module RingRuns {
  import opened Bytes
  import opened Abi
  import opened Host
  import opened Ring
  import opened RingSafety
  import opened RingHistory
  import opened RingOrder

  const ZeroFields: Fields := Fields(0, 0, 0, 0, 0, 0, seq(PATH_SIZE, _ => 0), seq(MODE_SIZE, _ => 0),
    seq(DATA_SIZE, _ => 0))

  /** `ensure_runtime`: zeroed memory, `turn = i` in slot i, nothing launched yet. */
  function Init(c: Config, slices: seq<seq<byte>>): State {
    State(0,
          seq(NSLOTS, i requires 0 <= i < NSLOTS => Slot(i, 0, ZeroFields, 0, Asked(Fclose, ABad))),
          seq(|c.progs|, _ => Wave(Run, 0, [])),
          {}, slices, Scan(0), Fresh, [], [])
  }

  /** The state after a schedule; an actor that cannot move (a spin) leaves the state as it is. */
  function RunAll(c: Config, s: State, sched: seq<Actor>): (r: State)
    requires Shape(c, s)
    ensures Shape(c, r)
  {
    if sched == [] then s
    else
      var m := RunAll(c, s, sched[..|sched| - 1]);
      Step(c, m, sched[|sched| - 1])
  }

  ghost predicate Launch(c: Config, slices: seq<seq<byte>>) {
    c.stride > 0 && |slices| == |c.progs| && forall w :: 0 <= w < |slices| ==> |slices[w]| == c.stride
  }

  lemma {:induction false} RunConcat(c: Config, s: State, a: seq<Actor>, b: seq<Actor>)
    requires Shape(c, s)
    ensures RunAll(c, s, a + b) == RunAll(c, RunAll(c, s, a), b)
    decreases |b|
  {
    if b == [] {
      assert a + b == a;
    } else {
      assert (a + b)[..|a + b| - 1] == a + b[..|b| - 1];
      RunConcat(c, s, a, b[..|b| - 1]);
    }
  }

  lemma InitHistory(c: Config, slices: seq<seq<byte>>)
    requires c.m == 0 && Launch(c, slices)
    ensures History(c, Init(c, slices)) && Ordered(Init(c, slices))
  {
    var s := Init(c, slices);
    forall i | 0 <= i < NSLOTS ensures SlotOk(s, i) { }
  }

  /** The invariants hold in every reachable state of every interleaving. */
  lemma {:induction false} Reachable(c: Config, slices: seq<seq<byte>>, sched: seq<Actor>)
    requires c.m == 0 && Launch(c, slices)
    ensures Shape(c, Init(c, slices))
    ensures History(c, RunAll(c, Init(c, slices), sched)) && Ordered(RunAll(c, Init(c, slices), sched))
  {
    InitHistory(c, slices);
    if sched != [] {
      Reachable(c, slices, sched[..|sched| - 1]);
      var m := RunAll(c, Init(c, slices), sched[..|sched| - 1]);
      StepHistory(c, m, sched[|sched| - 1]);
      StepOrdered(c, m, sched[|sched| - 1]);
    }
  }

  // ---- main results -----------------------------------------------------------------------

  /** Wave w drew the ticket `pos`. */
  ghost predicate Drew(c: Config, s: State, w: nat, pos: nat) {
    exists q :: 0 <= q < |s.owner| && DrewAs(c, s, w, pos, q)
  }

  ghost predicate DrewAs(c: Config, s: State, w: nat, pos: nat, q: nat)
    requires q < |s.owner|
  {
    s.owner[q] == w && Wr(c.m, q) == pos
  }

  /** Wave w is between its `status = 1` and its `status = 0` in slot i, with the ticket of i's turn. */
  ghost predicate Signals(s: State, w: nat, i: nat)
    requires i < |s.slots|
  {
    && w < |s.waves|
    && var pc := s.waves[w].pc;
       (pc.Wait? || pc.Take? || pc.Clear?) && pc.pos % NSLOTS == i && s.slots[i].turn == pc.pos
  }

  ghost predicate Awaits(s: State, w: nat, i: nat)
    requires i < |s.slots|
  {
    Signals(s, w, i) && s.waves[w].pc.Wait?
  }

  ghost predicate SomeSignals(s: State, i: nat)
    requires i < |s.slots|
  {
    exists w :: Signals(s, w, i)
  }

  ghost predicate SomeAwaits(s: State, i: nat)
    requires i < |s.slots|
  {
    exists w :: Awaits(s, w, i)
  }

  /** Slot ownership, as the ABI header promises it: at most one wave is past the gate of a slot, and it
      drew the ticket the slot's turn names; `status` is nonzero only while that wave is between its
      `status = 1` and its `status = 0`; the service thread is at a slot, reading or writing it, only while
      the slot is ready and its wave waits. */
  ghost predicate OwnedSlots(c: Config, s: State)
    requires Shape(c, s)
  {
    && (forall v, w :: 0 <= v < w < |s.waves| && Past(s.waves[v]) && Past(s.waves[w]) ==>
          s.waves[v].pc.pos % NSLOTS != s.waves[w].pc.pos % NSLOTS)
    && (forall w :: 0 <= w < |s.waves| && Past(s.waves[w]) ==>
          var pos := s.waves[w].pc.pos; Drew(c, s, w, pos) && s.slots[pos % NSLOTS].turn == pos)
    && (forall i :: 0 <= i < NSLOTS && s.slots[i].status != 0 ==> SomeSignals(s, i))
    && (!s.cpu.Scan? ==> s.slots[s.cpu.i].status == 1 && SomeAwaits(s, s.cpu.i))
  }

  /** Who may change slot i in a step: the service thread only at the slot, while its wave waits; a wave
      only when it is past the gate with this slot's ticket, or passing it. */
  ghost predicate TouchedBy(c: Config, s: State, a: Actor, i: nat)
    requires Shape(c, s) && i < NSLOTS
  {
    match a
    case ACpu => s.cpu.i == i && !s.cpu.Scan? && SomeAwaits(s, i)
    case AWave(w) => w < |s.waves| && Holds(s.waves[w]) && s.waves[w].pc.pos == s.slots[i].turn &&
      s.slots[i].turn % NSLOTS == i
    case _ => false
  }

  lemma ReadySlot(c: Config, s: State, i: nat)
    requires Safe(c, s) && i < NSLOTS
    ensures s.slots[i].status != 0 ==> SomeSignals(s, i)
    ensures s.slots[i].status == 1 ==> SomeAwaits(s, i)
  {
    assert SlotOk(s, i);
    if s.slots[i].status != 0 {
      var u := s.owner[s.slots[i].turn];
      assert TicketOk(s, u);
      assert Signals(s, u, i);
      if s.slots[i].status == 1 { assert Awaits(s, u, i); }
    }
  }

  lemma SafeOwns(c: Config, s: State)
    requires Safe(c, s)
    ensures OwnedSlots(c, s)
  {
    forall v, w | 0 <= v < w < |s.waves| && Past(s.waves[v]) && Past(s.waves[w])
      ensures s.waves[v].pc.pos % NSLOTS != s.waves[w].pc.pos % NSLOTS
    {
      GateExclusive(c, s, v, w);
    }
    forall w | 0 <= w < |s.waves| && Past(s.waves[w])
      ensures var pos := s.waves[w].pc.pos; Drew(c, s, w, pos) && s.slots[pos % NSLOTS].turn == pos
    {
      assert TicketOk(s, w);
      assert DrewAs(c, s, w, s.waves[w].pc.pos, s.waves[w].pc.pos);
    }
    forall i | 0 <= i < NSLOTS
      ensures s.slots[i].status != 0 ==> SomeSignals(s, i)
      ensures s.slots[i].status == 1 ==> SomeAwaits(s, i)
    {
      ReadySlot(c, s, i);
    }
  }

  lemma SafeTouches(c: Config, s: State, a: Actor, i: nat)
    requires Safe(c, s) && i < NSLOTS
    ensures Step(c, s, a).slots[i] != s.slots[i] ==> TouchedBy(c, s, a, i)
  {
    assert SlotOk(s, i);
    ReadySlot(c, s, i);
    if a.AWave? && a.w < |s.waves| { assert TicketOk(s, a.w); }
  }

  lemma SlotDiscipline(c: Config, slices: seq<seq<byte>>, sched: seq<Actor>, a: Actor, i: nat)
    requires c.m == 0 && Launch(c, slices) && i < NSLOTS
    ensures Shape(c, Init(c, slices))
    ensures var s := RunAll(c, Init(c, slices), sched);
            OwnedSlots(c, s) && (Step(c, s, a).slots[i] != s.slots[i] ==> TouchedBy(c, s, a, i))
  {
    Reachable(c, slices, sched);
    SafeOwns(c, RunAll(c, Init(c, slices), sched));
    SafeTouches(c, RunAll(c, Init(c, slices), sched), a, i);
  }

  /** A run computes a sequential history: its log replays to the host's state, every answer is the
      one the host gives at that point of the history, and each operation is the one its own wave's
      request means. */
  ghost predicate Sequential(c: Config, s: State) {
    && s.host == Replay(c.env, Fresh, Acts(s.log))
    && forall i :: 0 <= i < |s.log| ==> EntryOk(c, s.log, i)
  }

  /** Each wave's completed calls are its part of the history, in its program order and with the
      replies it read; at most its latest request, still being answered, is further ahead. */
  ghost predicate CallsMatch(s: State, w: nat)
    requires w < |s.waves|
  {
    var calls, past := s.waves[w].calls, CallsOf(s.log, w);
    && calls <= past && |past| <= |calls| + 1
    && (|past| > |calls| ==> Holds(s.waves[w]) && past[|calls|].ask == s.waves[w].pc.ask)
  }

  lemma Linearizable(c: Config, slices: seq<seq<byte>>, sched: seq<Actor>)
    requires c.m == 0 && Launch(c, slices)
    ensures Shape(c, Init(c, slices))
    ensures var s := RunAll(c, Init(c, slices), sched);
            Sequential(c, s) && forall w :: 0 <= w < |s.waves| ==> CallsMatch(s, w)
  {
    Reachable(c, slices, sched);
    var s := RunAll(c, Init(c, slices), sched);
    forall w | 0 <= w < |s.waves| ensures CallsMatch(s, w) { assert DataOk(c, s, w); }
  }

  /** Exactly once, with `draws` naming for each entry of the history the draw it answers, counted from the
      start of the run: no draw is answered twice, each under the wave that made it, those of one slot in
      order; and a draw not yet answered is the one call its wave is still in. */
  ghost predicate ServedOnce(c: Config, s: State, draws: seq<nat>) {
    && |draws| == |s.log|
    && (forall i, j :: 0 <= i < j < |draws| ==> draws[i] != draws[j])
    && (forall i, j :: 0 <= i < j < |draws| && draws[i] % NSLOTS == draws[j] % NSLOTS ==> draws[i] < draws[j])
    && (forall i :: 0 <= i < |draws| ==> DrawOf(c, s, draws[i], s.log[i]))
    && (forall q :: 0 <= q < |s.owner| ==> q in draws || StillHeld(c, s, q))
    && (forall q, r :: 0 <= q < r < |s.owner| && q !in draws && r !in draws ==> s.owner[q] != s.owner[r])
  }

  ghost predicate DrawOf(c: Config, s: State, q: nat, e: Entry) {
    q < |s.owner| && s.owner[q] == e.w && Wr(c.m, q) == e.ticket
  }

  ghost predicate StillHeld(c: Config, s: State, q: nat)
    requires q < |s.owner|
  {
    s.owner[q] < |s.waves| && Holds(s.waves[s.owner[q]]) && s.waves[s.owner[q]].pc.pos == Wr(c.m, q)
  }

  function Tickets(log: seq<Entry>): seq<nat> { seq(|log|, i requires 0 <= i < |log| => log[i].ticket) }

  lemma ExactlyOnce(c: Config, slices: seq<seq<byte>>, sched: seq<Actor>)
    requires c.m == 0 && Launch(c, slices)
    ensures Shape(c, Init(c, slices))
    ensures var s := RunAll(c, Init(c, slices), sched); ServedOnce(c, s, Tickets(s.log))
  {
    Reachable(c, slices, sched);
    OrderedServes(c, RunAll(c, Init(c, slices), sched));
  }

  lemma OrderedServes(c: Config, s: State)
    requires Safe(c, s) && Ordered(s)
    ensures ServedOnce(c, s, Tickets(s.log))
  {
    var draws := Tickets(s.log);
    forall q | 0 <= q < |s.owner| ensures q in draws || StillHeld(c, s, q) {
      assert HeldAt(s, q);
      if Logged(s.log, q) {
        var i :| 0 <= i < |s.log| && s.log[i].ticket == q;
        assert draws[i] == q;
      } else {
        assert !Served(s, q);
      }
    }
  }
}

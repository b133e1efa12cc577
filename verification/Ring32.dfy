/** The 32-bit code refines the ideal ring: `enqueue_pos`, `turn` and every ticket wrap at 2^32,
    and the gate compares wrapped values. */
module Ring32 {
  import opened Bytes
  import opened Options
  import opened Abi
  import opened Host
  import opened Ring
  import opened RingSafety
  import opened RingHistory
  import opened RingOrder
  import opened RingRuns

  const MAX_HOLDERS: nat := 0x100_0000   // 2^24 = 2^32 / NSLOTS

  function WrapPc(pc: Pc): Pc {
    match pc
    case Run => Run
    case Gate(pos, ask) => Gate(pos % WORD, ask)
    case Fill(pos, ask, j, left) => Fill(pos % WORD, ask, j, left)
    case Wait(pos, ask) => Wait(pos % WORD, ask)
    case Take(pos, ask) => Take(pos % WORD, ask)
    case Clear(pos, ask, rep) => Clear(pos % WORD, ask, rep)
    case Load(pos, ask, rep) => Load(pos % WORD, ask, rep)
    case Publish(pos, ask, rep, t) => Publish(pos % WORD, ask, rep, t % WORD)
  }

  function WrapWave(w: Wave): Wave { w.(pc := WrapPc(w.pc)) }
  function WrapSlot(s: Slot): Slot { s.(turn := s.turn % WORD) }
  function WrapEntry(e: Entry): Entry { e.(ticket := e.ticket % WORD) }

  function WrapWaves(ws: seq<Wave>): seq<Wave> { seq(|ws|, i requires 0 <= i < |ws| => WrapWave(ws[i])) }
  function WrapSlots(ss: seq<Slot>): seq<Slot> { seq(|ss|, i requires 0 <= i < |ss| => WrapSlot(ss[i])) }
  function WrapLog(es: seq<Entry>): seq<Entry> { seq(|es|, i requires 0 <= i < |es| => WrapEntry(es[i])) }

  /** What the machine words hold in a state of the ideal ring. */
  function Wrap(s: State): State {
    s.(next := s.next % WORD, slots := WrapSlots(s.slots), waves := WrapWaves(s.waves), log := WrapLog(s.log))
  }

  function In32(c: Config): Config { c.(m := WORD) }

  lemma WrapIndex(pos: nat)
    ensures pos % WORD % NSLOTS == pos % NSLOTS
  {
  }

  lemma WrapShape(c: Config, s: State)
    requires Shape(c, s)
    ensures Shape(In32(c), Wrap(s))
  {
  }

  lemma WrapSetWave(s: State, w: nat, x: Wave)
    requires w < |s.waves|
    ensures Wrap(s.(waves := s.waves[w := x])) == Wrap(s).(waves := Wrap(s).waves[w := WrapWave(x)])
  {
    assert WrapWaves(s.waves[w := x]) == WrapWaves(s.waves)[w := WrapWave(x)];
  }

  lemma WrapSetSlot(s: State, i: nat, x: Slot)
    requires i < |s.slots|
    ensures Wrap(s.(slots := s.slots[i := x])) == Wrap(s).(slots := Wrap(s).slots[i := WrapSlot(x)])
  {
    assert WrapSlots(s.slots[i := x]) == WrapSlots(s.slots)[i := WrapSlot(x)];
  }

  /** The 32-bit gate test of wave w has the answer the ideal ring's has. */
  ghost predicate GateAgrees(s: State, w: nat)
    requires |s.slots| == NSLOTS && w < |s.waves|
  {
    var pc := s.waves[w].pc;
    pc.Gate? ==> (s.slots[pc.pos % NSLOTS].turn % WORD == pc.pos % WORD <==> s.slots[pc.pos % NSLOTS].turn == pc.pos)
  }

  /** A pointer's record is the same bytes on both rings. */
  lemma ResolveWraps(c: Config, slices: seq<seq<byte>>, op: HostOp)
    ensures Resolve(In32(c), slices, op) == Resolve(c, slices, op)
  {
  }

  lemma DrawWraps(c: Config, s: State, w: nat, req: Request)
    requires c.m == 0 && Shape(c, s) && w < |s.waves|
    ensures Shape(In32(c), Wrap(s))
    ensures TakeTicket(In32(c), Wrap(s), w, req) == Wrap(TakeTicket(c, s, w, req))
  {
    WrapShape(c, s);
    ResolveWraps(c, s.slices, Meaning(req));
    assert Wrap(s).waves[w] == WrapWave(s.waves[w]);
    WrapSetWave(s, w, TakeTicket(c, s, w, req).waves[w]);
  }

  lemma KernelWraps(c: Config, s: State, w: nat)
    requires c.m == 0 && Shape(c, s) && w < |s.waves| && s.waves[w].pc.Run?
    ensures Shape(In32(c), Wrap(s))
    ensures KernelStep(In32(c), Wrap(s), w) == Wrap(KernelStep(c, s, w))
  {
    WrapShape(c, s);
    var wave := s.waves[w];
    assert Wrap(s).waves[w] == WrapWave(wave);
    if wave.k < c.progs[w].len {
      match c.progs[w].act(wave.k, s.slices[w], wave.calls)
      case Local(sl) =>
        WrapSetWave(s, w, wave.(k := wave.k + 1));
      case Call(req) =>
        DrawWraps(c, s, w, req);
    }
  }

  /** Writing one slot and one wave commutes with wrapping. */
  lemma WrapSet(s: State, i: nat, x: Slot, w: nat, y: Wave)
    requires i < |s.slots| && w < |s.waves|
    ensures Wrap(s.(slots := s.slots[i := x], waves := s.waves[w := y])) ==
            Wrap(s).(slots := Wrap(s).slots[i := WrapSlot(x)], waves := Wrap(s).waves[w := WrapWave(y)])
  {
    assert WrapSlots(s.slots[i := x]) == WrapSlots(s.slots)[i := WrapSlot(x)];
    assert WrapWaves(s.waves[w := y]) == WrapWaves(s.waves)[w := WrapWave(y)];
  }

  /** A step inside a call writes at most the wave itself and the slot of its ticket. */
  lemma CallWrites(c: Config, s: State, w: nat)
    requires Shape(c, s) && w < |s.waves| && !s.waves[w].pc.Run? && w in s.resident
    ensures var i := s.waves[w].pc.pos % NSLOTS;
            var s' := WaveStep(c, s, w);
            s' == s.(slots := s.slots[i := s'.slots[i]], waves := s.waves[w := s'.waves[w]])
  {
  }

  lemma CallWraps(c: Config, s: State, w: nat)
    requires c.m == 0 && Shape(c, s) && w < |s.waves| && !s.waves[w].pc.Run? && !s.waves[w].pc.Publish?
    requires w in s.resident && GateAgrees(s, w)
    ensures Shape(In32(c), Wrap(s))
    ensures WaveStep(In32(c), Wrap(s), w) == Wrap(WaveStep(c, s, w))
  {
    WrapShape(c, s);
    var i := s.waves[w].pc.pos % NSLOTS;
    var s', t := WaveStep(c, s, w), Wrap(s);
    WrapIndex(s.waves[w].pc.pos);
    assert t.waves[w] == WrapWave(s.waves[w]) && t.slots[i] == WrapSlot(s.slots[i]);
    CallWrites(c, s, w);
    CallWrites(In32(c), t, w);
    WrapSet(s, i, s'.slots[i], w, s'.waves[w]);
    CallWritesWrap(c, s, w);
  }

  /** What such a step writes, it writes wrapped in the 32-bit machine. */
  lemma EnterWritesWrap(c: Config, s: State, w: nat)
    requires c.m == 0 && Shape(c, s) && w < |s.waves| && (s.waves[w].pc.Gate? || s.waves[w].pc.Fill?)
    requires w in s.resident && GateAgrees(s, w) && Shape(In32(c), Wrap(s))
    ensures var i := s.waves[w].pc.pos % NSLOTS;
            WaveStep(In32(c), Wrap(s), w).slots[i] == WrapSlot(WaveStep(c, s, w).slots[i]) &&
            WaveStep(In32(c), Wrap(s), w).waves[w] == WrapWave(WaveStep(c, s, w).waves[w])
  {
    var i := s.waves[w].pc.pos % NSLOTS;
    WrapIndex(s.waves[w].pc.pos);
    assert Wrap(s).waves[w] == WrapWave(s.waves[w]) && Wrap(s).slots[i] == WrapSlot(s.slots[i]);
  }

  lemma LeaveWritesWrap(c: Config, s: State, w: nat)
    requires c.m == 0 && Shape(c, s) && w < |s.waves| && Past(s.waves[w])
    requires !s.waves[w].pc.Fill? && !s.waves[w].pc.Publish?
    requires w in s.resident && Shape(In32(c), Wrap(s))
    ensures var i := s.waves[w].pc.pos % NSLOTS;
            WaveStep(In32(c), Wrap(s), w).slots[i] == WrapSlot(WaveStep(c, s, w).slots[i]) &&
            WaveStep(In32(c), Wrap(s), w).waves[w] == WrapWave(WaveStep(c, s, w).waves[w])
  {
    var i := s.waves[w].pc.pos % NSLOTS;
    WrapIndex(s.waves[w].pc.pos);
    assert Wrap(s).waves[w] == WrapWave(s.waves[w]) && Wrap(s).slots[i] == WrapSlot(s.slots[i]);
  }

  lemma CallWritesWrap(c: Config, s: State, w: nat)
    requires c.m == 0 && Shape(c, s) && w < |s.waves| && !s.waves[w].pc.Run? && !s.waves[w].pc.Publish?
    requires w in s.resident && GateAgrees(s, w) && Shape(In32(c), Wrap(s))
    ensures var i := s.waves[w].pc.pos % NSLOTS;
            WaveStep(In32(c), Wrap(s), w).slots[i] == WrapSlot(WaveStep(c, s, w).slots[i]) &&
            WaveStep(In32(c), Wrap(s), w).waves[w] == WrapWave(WaveStep(c, s, w).waves[w])
  {
    if s.waves[w].pc.Gate? || s.waves[w].pc.Fill? { EnterWritesWrap(c, s, w); } else { LeaveWritesWrap(c, s, w); }
  }

  lemma PublishWraps(c: Config, s: State, w: nat)
    requires c.m == 0 && Shape(c, s) && w < |s.waves| && s.waves[w].pc.Publish?
    ensures Shape(In32(c), Wrap(s))
    ensures PublishStep(In32(c), Wrap(s), w) == Wrap(PublishStep(c, s, w))
  {
    WrapShape(c, s);
    var pc := s.waves[w].pc;
    var i := pc.pos % NSLOTS;
    var s' := PublishStep(c, s, w);
    WrapIndex(pc.pos);
    assert Wrap(s).waves[w] == WrapWave(s.waves[w]) && Wrap(s).slots[i] == WrapSlot(s.slots[i]);
    WrapSetSlot(s, i, s'.slots[i]);
    WrapSetWave(s.(slots := s'.slots), w, s'.waves[w]);
  }

  lemma CpuWraps(c: Config, s: State)
    requires c.m == 0 && Shape(c, s)
    ensures Shape(In32(c), Wrap(s))
    ensures CpuStep(In32(c), Wrap(s)) == Wrap(CpuStep(c, s))
  {
    WrapShape(c, s);
    var i := s.cpu.i;
    var s' := CpuStep(c, s);
    assert Wrap(s).slots[i] == WrapSlot(s.slots[i]);
    match s.cpu
    case Scan(_) =>
    case Finish(_) => WrapSetSlot(s, i, s'.slots[i]);
    case Serve(_) =>
      WrapSetSlot(s, i, s'.slots[i]);
      var op := Decode(s.slots[i].f);
      assert Resolve(In32(c), s.slices, op) == Resolve(c, s.slices, op);
      assert WrapLog(s'.log) == WrapLog(s.log) + [WrapEntry(s'.log[|s.log|])];
  }

  lemma DispatchWraps(c: Config, s: State, w: nat)
    requires c.m == 0 && Shape(c, s) && w < |s.waves|
    ensures Shape(In32(c), Wrap(s))
    ensures Admit(In32(c), Wrap(s), w) == Wrap(Admit(c, s, w)) && Retire(In32(c), Wrap(s), w) == Wrap(Retire(c, s, w))
  {
    WrapShape(c, s);
    assert Wrap(s).waves[w] == WrapWave(s.waves[w]);
  }

  /** One step of the 32-bit machine is the wrapped image of the ideal machine's step. */
  lemma StepWraps(c: Config, s: State, a: Actor)
    requires c.m == 0 && Shape(c, s)
    requires a.AWave? && a.w < |s.waves| && a.w in s.resident ==> GateAgrees(s, a.w)
    ensures Shape(In32(c), Wrap(s))
    ensures Step(In32(c), Wrap(s), a) == Wrap(Step(c, s, a))
  {
    WrapShape(c, s);
    match a
    case ACpu => CpuWraps(c, s);
    case AWave(w) =>
      if w < |s.waves| && w in s.resident {
        if s.waves[w].pc.Run? { KernelWraps(c, s, w); }
        else if s.waves[w].pc.Publish? { PublishWraps(c, s, w); }
        else { CallWraps(c, s, w); }
      }
    case AAdmit(w) => if w < |s.waves| { DispatchWraps(c, s, w); }
    case ARetire(w) => if w < |s.waves| { DispatchWraps(c, s, w); }
  }

  // ---- how far tickets spread -------------------------------------------------------------

  ghost function Holders(s: State): set<nat> { set w: nat | w < |s.waves| && Holds(s.waves[w]) }

  /** The waves holding tickets t, t + NSLOTS, ..., t + k * NSLOTS. */
  ghost function OwnersOn(s: State, t: nat, k: nat): set<nat>
    requires t + k * NSLOTS < |s.owner|
  {
    {s.owner[t + k * NSLOTS]} + if k == 0 then {} else OwnersOn(s, t, k - 1)
  }

  lemma SameSlot(t: nat, k: nat)
    ensures (t + k * NSLOTS) % NSLOTS == t % NSLOTS
  {
  }

  lemma {:induction false} OwnersDistinct(c: Config, s: State, t: nat, k: nat)
    requires Safe(c, s) && t + k * NSLOTS < |s.owner| && s.slots[t % NSLOTS].turn <= t
    ensures |OwnersOn(s, t, k)| == k + 1 && OwnersOn(s, t, k) <= Holders(s)
    ensures forall w :: w in OwnersOn(s, t, k) ==> w < |s.waves| && Holds(s.waves[w]) &&
                                                   s.waves[w].pc.pos <= t + k * NSLOTS
  {
    var q := t + k * NSLOTS;
    SameSlot(t, k);
    assert HeldAt(s, q);
    var u := s.owner[q];
    assert u in Holders(s) && s.waves[u].pc.pos == q;
    if k > 0 {
      OwnersDistinct(c, s, t, k - 1);
      assert u !in OwnersOn(s, t, k - 1);
    }
  }

  /** An outstanding ticket is never further ahead of its slot's turn than NSLOTS tickets for every
      other wave that holds one. */
  lemma TicketSpread(c: Config, s: State, w: nat)
    requires Safe(c, s) && w < |s.waves| && Holds(s.waves[w])
    ensures var pos := s.waves[w].pc.pos;
            s.slots[pos % NSLOTS].turn <= pos < s.slots[pos % NSLOTS].turn + NSLOTS * |Holders(s)|
  {
    assert TicketOk(s, w);
    var pos := s.waves[w].pc.pos;
    var t := s.slots[pos % NSLOTS].turn;
    assert SlotOk(s, pos % NSLOTS);
    var k := (pos - t) / NSLOTS;
    assert pos == t + k * NSLOTS;
    OwnersDistinct(c, s, t, k);
    SubsetSize(OwnersOn(s, t, k), Holders(s));
  }

  lemma {:induction false} SubsetSize(a: set<nat>, b: set<nat>)
    requires a <= b
    ensures |a| <= |b|
  {
    assert b == a + (b - a);
  }

  lemma FewHoldersAgree(c: Config, s: State, w: nat)
    requires Safe(c, s) && w < |s.waves| && |Holders(s)| <= MAX_HOLDERS
    ensures GateAgrees(s, w)
  {
    if s.waves[w].pc.Gate? { TicketSpread(c, s, w); }
  }

  /** At no point of the schedule do more than 2^24 waves hold tickets. */
  ghost predicate FewHolders(c: Config, s: State, sched: seq<Actor>)
    requires Shape(c, s)
  {
    |Holders(RunAll(c, s, sched))| <= MAX_HOLDERS && (sched != [] ==> FewHolders(c, s, sched[..|sched| - 1]))
  }

  lemma InitWraps(c: Config, slices: seq<seq<byte>>)
    requires c.m == 0 && Launch(c, slices)
    ensures Wrap(Init(c, slices)) == Init(In32(c), slices)
  {
    var s := Init(c, slices);
    assert WrapSlots(s.slots) == s.slots;
    assert WrapWaves(s.waves) == s.waves;
  }

  /** Refinement across wraparound: the 32-bit machine's run is, state by state, the wrapped image of
      the ideal machine's run, as long as at most 2^24 waves hold tickets at once. */
  lemma {:induction false} Refines(c: Config, slices: seq<seq<byte>>, sched: seq<Actor>)
    requires c.m == 0 && Launch(c, slices)
    requires FewHolders(c, Init(c, slices), sched)
    ensures RunAll(In32(c), Init(In32(c), slices), sched) == Wrap(RunAll(c, Init(c, slices), sched))
  {
    InitWraps(c, slices);
    if sched != [] {
      var init := sched[..|sched| - 1];
      Refines(c, slices, init);
      Reachable(c, slices, init);
      var m := RunAll(c, Init(c, slices), init);
      var a := sched[|sched| - 1];
      if a.AWave? && a.w < |m.waves| { FewHoldersAgree(c, m, a.w); }
      StepWraps(c, m, a);
    }
  }

  // ---- what the 32-bit code inherits ------------------------------------------------------

  lemma {:induction false} ResidentBound(c: Config, slices: seq<seq<byte>>, sched: seq<Actor>)
    requires c.m == 0 && Launch(c, slices)
    ensures |RunAll(c, Init(c, slices), sched).resident| <= c.limit
    ensures Holders(RunAll(c, Init(c, slices), sched)) <= RunAll(c, Init(c, slices), sched).resident
  {
    Reachable(c, slices, sched);
    var s := RunAll(c, Init(c, slices), sched);
    forall w | w in Holders(s) ensures w in s.resident { assert TicketOk(s, w); }
    if sched != [] {
      ResidentBound(c, slices, sched[..|sched| - 1]);
      StepResident(c, RunAll(c, Init(c, slices), sched[..|sched| - 1]), sched[|sched| - 1]);
    }
  }

  lemma {:induction false} LimitGivesFewHolders(c: Config, slices: seq<seq<byte>>, sched: seq<Actor>)
    requires c.m == 0 && Launch(c, slices) && c.limit <= MAX_HOLDERS
    ensures FewHolders(c, Init(c, slices), sched)
  {
    ResidentBound(c, slices, sched);
    SubsetSize(Holders(RunAll(c, Init(c, slices), sched)), RunAll(c, Init(c, slices), sched).resident);
    if sched != [] {
      LimitGivesFewHolders(c, slices, sched[..|sched| - 1]);
    }
  }

  lemma {:induction false} WrapLogKeeps(log: seq<Entry>)
    ensures Acts(WrapLog(log)) == Acts(log)
    ensures forall w: nat :: CallsOf(WrapLog(log), w) == CallsOf(log, w)
  {
    if log != [] {
      WrapLogKeeps(log[..|log| - 1]);
      assert WrapLog(log)[..|log| - 1] == WrapLog(log[..|log| - 1]);
    }
  }

  lemma WrapSequential(c: Config, i: State)
    requires Sequential(c, i)
    ensures Sequential(c, Wrap(i))
  {
    var s := Wrap(i);
    WrapLogKeeps(i.log);
    forall k | 0 <= k < |s.log| ensures EntryOk(c, s.log, k) {
      assert EntryOk(c, i.log, k);
      assert s.log[..k] == WrapLog(i.log[..k]);
      WrapLogKeeps(i.log[..k]);
    }
  }

  lemma WrapCallsMatch(i: State, w: nat)
    requires w < |i.waves| && CallsMatch(i, w)
    ensures CallsMatch(Wrap(i), w)
  {
    WrapLogKeeps(i.log);
    assert Wrap(i).waves[w] == WrapWave(i.waves[w]);
  }

  /** The 32-bit ring itself computes a sequential history with every wave's calls in order, for any
      number of waves and any schedule, when at most 2^24 waves are resident at once. */
  lemma Linearizable32(c: Config, slices: seq<seq<byte>>, sched: seq<Actor>)
    requires c.m == 0 && Launch(c, slices) && c.limit <= MAX_HOLDERS
    ensures var s := RunAll(In32(c), Init(In32(c), slices), sched);
            Sequential(c, s) && forall w :: 0 <= w < |s.waves| ==> CallsMatch(s, w)
  {
    LimitGivesFewHolders(c, slices, sched);
    Refines(c, slices, sched);
    Linearizable(c, slices, sched);
    var i := RunAll(c, Init(c, slices), sched);
    WrapSequential(c, i);
    forall w | 0 <= w < |i.waves| ensures CallsMatch(Wrap(i), w) { WrapCallsMatch(i, w); }
  }

  lemma WrapSignals(i: State, w: nat, k: nat)
    requires k < |i.slots| && |i.slots| == NSLOTS
    ensures Signals(i, w, k) ==> Signals(Wrap(i), w, k)
    ensures Awaits(i, w, k) ==> Awaits(Wrap(i), w, k)
  {
    if w < |i.waves| && !i.waves[w].pc.Run? { WrapIndex(i.waves[w].pc.pos); }
  }

  lemma WrapReady(i: State, k: nat)
    requires k < |i.slots| && |i.slots| == NSLOTS
    ensures SomeSignals(i, k) ==> SomeSignals(Wrap(i), k)
    ensures SomeAwaits(i, k) ==> SomeAwaits(Wrap(i), k)
  {
    if w: nat :| Signals(i, w, k) { WrapSignals(i, w, k); }
    if w: nat :| Awaits(i, w, k) { WrapSignals(i, w, k); }
  }

  lemma WrapDrew(c: Config, i: State, w: nat, pos: nat)
    requires c.m == 0 && Drew(c, i, w, pos)
    ensures Drew(In32(c), Wrap(i), w, pos % WORD)
  {
    var q :| 0 <= q < |i.owner| && DrewAs(c, i, w, pos, q);
    assert DrewAs(In32(c), Wrap(i), w, pos % WORD, q);
  }

  lemma WrapOwned(c: Config, i: State)
    requires c.m == 0 && Shape(c, i) && OwnedSlots(c, i) && Shape(In32(c), Wrap(i))
    ensures OwnedSlots(In32(c), Wrap(i))
  {
    var s := Wrap(i);
    forall v, w | 0 <= v < w < |s.waves| && Past(s.waves[v]) && Past(s.waves[w])
      ensures s.waves[v].pc.pos % NSLOTS != s.waves[w].pc.pos % NSLOTS
    {
      WrapIndex(i.waves[v].pc.pos);
      WrapIndex(i.waves[w].pc.pos);
    }
    forall w | 0 <= w < |s.waves| && Past(s.waves[w])
      ensures var pos := s.waves[w].pc.pos; Drew(In32(c), s, w, pos) && s.slots[pos % NSLOTS].turn == pos
    {
      WrapIndex(i.waves[w].pc.pos);
      WrapDrew(c, i, w, i.waves[w].pc.pos);
    }
    forall k | 0 <= k < NSLOTS
      ensures s.slots[k].status != 0 ==> SomeSignals(s, k)
      ensures SomeAwaits(i, k) ==> SomeAwaits(s, k)
    {
      WrapReady(i, k);
    }
  }

  lemma WrapTouched(c: Config, i: State, a: Actor, k: nat)
    requires c.m == 0 && Shape(c, i) && Shape(In32(c), Wrap(i)) && k < NSLOTS && TouchedBy(c, i, a, k)
    ensures TouchedBy(In32(c), Wrap(i), a, k)
  {
    WrapReady(i, k);
    if a.AWave? { WrapIndex(i.waves[a.w].pc.pos); }
  }

  lemma WrapDiscipline(c: Config, m: State, a: Actor, i: nat)
    requires Safe(c, m) && |Holders(m)| <= MAX_HOLDERS && OwnedSlots(c, m) && i < NSLOTS
    requires Step(c, m, a).slots[i] != m.slots[i] ==> TouchedBy(c, m, a, i)
    ensures Shape(In32(c), Wrap(m)) && OwnedSlots(In32(c), Wrap(m))
    ensures Step(In32(c), Wrap(m), a).slots[i] != Wrap(m).slots[i] ==> TouchedBy(In32(c), Wrap(m), a, i)
  {
    WrapShape(c, m);
    WrapOwned(c, m);
    StepIs32(c, m, a);
    if Step(c, m, a).slots[i] != m.slots[i] { WrapTouched(c, m, a, i); }
  }

  /** Every step after every schedule of the 32-bit ring respects slot ownership. */
  lemma SlotDiscipline32(c: Config, slices: seq<seq<byte>>, sched: seq<Actor>, a: Actor, i: nat)
    requires c.m == 0 && Launch(c, slices) && c.limit <= MAX_HOLDERS && i < NSLOTS
    ensures var s := RunAll(In32(c), Init(In32(c), slices), sched);
            && OwnedSlots(In32(c), s)
            && (Step(In32(c), s, a).slots[i] != s.slots[i] ==> TouchedBy(In32(c), s, a, i))
  {
    LimitGivesFewHolders(c, slices, sched);
    Refines(c, slices, sched);
    SlotDiscipline(c, slices, sched, a, i);
    Reachable(c, slices, sched);
    WrapDiscipline(c, RunAll(c, Init(c, slices), sched), a, i);
  }

  lemma StepIs32(c: Config, m: State, a: Actor)
    requires Safe(c, m) && |Holders(m)| <= MAX_HOLDERS
    ensures Shape(In32(c), Wrap(m)) && Step(In32(c), Wrap(m), a) == Wrap(Step(c, m, a))
  {
    if a.AWave? && a.w < |m.waves| { FewHoldersAgree(c, m, a.w); }
    StepWraps(c, m, a);
  }

  lemma WrapServedOnce(c: Config, i: State, draws: seq<nat>)
    requires c.m == 0 && ServedOnce(c, i, draws)
    ensures ServedOnce(In32(c), Wrap(i), draws)
  {
    var s := Wrap(i);
    forall k | 0 <= k < |draws|
      ensures DrawOf(In32(c), s, draws[k], s.log[k])
    {
      assert DrawOf(c, i, draws[k], i.log[k]);
    }
    forall q | 0 <= q < |s.owner| ensures q in draws || StillHeld(In32(c), s, q) {
      if q !in draws { assert StillHeld(c, i, q); }
    }
  }

  /** On the 32-bit ring every draw is answered exactly once, for the wave that made it, and a slot's in
      order, across any number of wraparounds. */
  lemma ExactlyOnce32(c: Config, slices: seq<seq<byte>>, sched: seq<Actor>) returns (draws: seq<nat>)
    requires c.m == 0 && Launch(c, slices) && c.limit <= MAX_HOLDERS
    ensures ServedOnce(In32(c), RunAll(In32(c), Init(In32(c), slices), sched), draws)
  {
    LimitGivesFewHolders(c, slices, sched);
    Refines(c, slices, sched);
    ExactlyOnce(c, slices, sched);
    var i := RunAll(c, Init(c, slices), sched);
    draws := Tickets(i.log);
    WrapServedOnce(c, i, draws);
  }
}

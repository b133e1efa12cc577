/** The bound of 2^24 ticket holders is exact: with one more, the 32-bit ring can reach a state in which
    two waves are past the gate of one slot. */
module Overcrowd {
  import opened Bytes
  import opened Options
  import opened Abi
  import opened Host
  import opened Ring
  import opened RingSafety
  import opened RingRuns
  import opened Ring32

  /** The last wave, which draws every ticket that is not for slot 0; each other wave makes one call. */
  const BUSY: nat := MAX_HOLDERS

  function OneTooMany(env: Env): Config {
    Config(WORD, 1, 1,
           seq(BUSY + 1, w requires 0 <= w <= BUSY =>
             Program(if w == BUSY then WORD else 1, (k: nat, slice: seq<byte>, calls: seq<Called>) => Call(Fclose))),
           env, MAX_HOLDERS + 1)
  }

  function OneByteEach(): seq<seq<byte>> { seq(BUSY + 1, _ => [0]) }

  /** What the proofs need of that launch. */
  ghost predicate Closers(c: Config) {
    && c.m == WORD && c.limit == BUSY + 1 && |c.progs| == BUSY + 1
    && forall w :: 0 <= w <= BUSY ==> Closer(c.progs[w], if w == BUSY then WORD else 1)
  }

  ghost predicate Closer(p: Program, len: nat) {
    p.len == len && forall k: nat, slice, calls :: p.act(k, slice, calls) == Call(Fclose)
  }

  lemma OneTooManyCloses(env: Env)
    ensures Closers(OneTooMany(env)) && Shape(OneTooMany(env), Init(OneTooMany(env), OneByteEach()))
  {
    var c := OneTooMany(env);
    forall w | 0 <= w <= BUSY ensures Closer(c.progs[w], if w == BUSY then WORD else 1) { }
  }

  // ---- reachable states -------------------------------------------------------------------

  /** Whatever `reached` says of a state it says of the next ones. */
  ghost predicate Closed(c: Config, reached: State -> bool) {
    forall s: State, a: Actor :: Shape(c, s) ==> Carries(c, reached, s, a)
  }

  ghost predicate Carries(c: Config, reached: State -> bool, s: State, a: Actor)
    requires Shape(c, s)
  {
    reached(s) ==> reached(Step(c, s, a))
  }

  lemma Advance(c: Config, reached: State -> bool, s: State, a: Actor)
    requires Closed(c, reached) && Shape(c, s) && reached(s)
    ensures reached(Step(c, s, a))
  {
    assert Carries(c, reached, s, a);
  }

  // ---- the queue for slot 0 ---------------------------------------------------------------

  /** The waves that have drawn one of the first n tickets, all for slot 0. */
  function Drawers(n: nat): nat { (n + NSLOTS - 1) / NSLOTS }

  function Crew(d: nat): set<nat> { if d == 0 then {BUSY} else Crew(d - 1) + {d - 1} }

  lemma {:induction false} CrewSize(d: nat)
    requires d <= BUSY
    ensures |Crew(d)| == d + 1 && BUSY in Crew(d) && forall w :: w in Crew(d) ==> w == BUSY || w < d
  {
    if d > 0 { CrewSize(d - 1); }
  }

  /** Nothing is signalled, and every slot but 0 has as its turn the next ticket that maps to it. */
  ghost predicate Turns(s: State, n: nat)
    requires |s.slots| == NSLOTS
  {
    && s.slots[0].turn == 0
    && (forall i :: 0 <= i < NSLOTS ==> s.slots[i].status == 0)
    && (forall q :: n <= q < n + NSLOTS && q < WORD && q % NSLOTS != 0 ==> TurnIs(s, q))
  }

  ghost predicate TurnIs(s: State, q: nat)
    requires |s.slots| == NSLOTS
  {
    s.slots[q % NSLOTS].turn == q
  }

  /** The first wave is in slot 0, and no wave that is to queue up there later has done anything yet. */
  ghost predicate Line(s: State, d: nat)
    requires |s.waves| == BUSY + 1
  {
    && (d > 0 ==> s.waves[0].pc.Fill? && s.waves[0].pc.pos == 0)
    && (forall w :: d <= w < BUSY ==> Unused(s, w))
  }

  ghost predicate Unused(s: State, w: nat)
    requires w < |s.waves|
  {
    s.waves[w].pc.Run? && s.waves[w].k == 0
  }

  /** After n tickets, d of them drawn by waves in line, with the busy wave between calls. */
  ghost predicate Queued(c: Config, s: State, d: nat, n: nat) {
    && Shape(c, s) && |s.waves| == BUSY + 1 && d <= BUSY
    && s.next == n % WORD && s.resident == Crew(d) && s.cpu.Scan?
    && s.waves[BUSY].pc.Run? && s.waves[BUSY].k + d == n
    && Line(s, d) && Turns(s, n)
  }

  lemma Started(c: Config, slices: seq<seq<byte>>, reached: State -> bool) returns (s: State)
    requires Closers(c) && Closed(c, reached) && |slices| == BUSY + 1 && reached(Init(c, slices))
    ensures Queued(c, s, 0, 0) && reached(s)
  {
    var s0 := Init(c, slices);
    assert Shape(c, s0);
    s := Step(c, s0, AAdmit(BUSY));
    Advance(c, reached, s0, AAdmit(BUSY));
    assert Closer(c.progs[BUSY], WORD);
    assert Crew(0) == {} + {BUSY};
    InitTurns(c, slices);
  }

  lemma InitTurns(c: Config, slices: seq<seq<byte>>)
    ensures Turns(Init(c, slices), 0)
  {
    var s := Init(c, slices);
    forall q | 0 <= q < NSLOTS ensures TurnIs(s, q) { }
  }

  /** Another wave becomes resident ... */
  lemma Join(c: Config, reached: State -> bool, s: State, w: nat) returns (s': State)
    requires Closers(c) && Closed(c, reached) && reached(s)
    requires Shape(c, s) && |s.waves| == BUSY + 1 && w < BUSY && Unused(s, w) && s.resident == Crew(w)
    ensures reached(s') && s' == s.(resident := Crew(w + 1))
  {
    CrewSize(w);
    assert Closer(c.progs[w], 1);
    s' := Step(c, s, AAdmit(w));
    Advance(c, reached, s, AAdmit(w));
  }

  /** ... and draws a ticket. */
  lemma Draw(c: Config, reached: State -> bool, s: State, w: nat) returns (s': State)
    requires Closers(c) && Closed(c, reached) && reached(s)
    requires Shape(c, s) && |s.waves| == BUSY + 1 && w < BUSY && Unused(s, w) && w in s.resident
    ensures reached(s') && Shape(c, s') && |s'.waves| == |s.waves|
    ensures s'.slots == s.slots && s'.cpu == s.cpu && s'.resident == s.resident && s'.next == (s.next + 1) % WORD
    ensures s'.waves == s.waves[w := s'.waves[w]] && s'.waves[w].pc.Gate? && s'.waves[w].pc.pos == s.next
  {
    assert Closer(c.progs[w], 1);
    s' := Step(c, s, AWave(w));
    Advance(c, reached, s, AWave(w));
  }

  /** The first one goes through the gate. */
  lemma Pass(c: Config, reached: State -> bool, s: State) returns (s': State)
    requires Closers(c) && Closed(c, reached) && reached(s)
    requires Shape(c, s) && |s.waves| == BUSY + 1 && s.resident == Crew(1)
    requires s.waves[0].pc.Gate? && s.waves[0].pc.pos == 0 && s.slots[0].turn == 0
    ensures reached(s') && Shape(c, s') && |s'.waves| == |s.waves|
    ensures s'.cpu == s.cpu && s'.resident == s.resident && s'.next == s.next
    ensures s'.waves == s.waves[0 := s'.waves[0]] && s'.waves[0].pc.Fill? && s'.waves[0].pc.pos == 0
    ensures s'.slots == s.slots[0 := s'.slots[0]] && s'.slots[0].turn == 0 && s'.slots[0].status == s.slots[0].status
  {
    assert 0 in Crew(1);
    s' := Step(c, s, AWave(0));
    Advance(c, reached, s, AWave(0));
  }

  lemma TurnsZero(s: State, s': State, n: nat)
    requires |s.slots| == NSLOTS && Turns(s, n) && n % NSLOTS == 0
    requires |s'.slots| == NSLOTS && s'.slots == s.slots[0 := s'.slots[0]]
    requires s'.slots[0].turn == 0 && s'.slots[0].status == 0
    ensures Turns(s', n + 1)
  {
    forall q | n + 1 <= q < n + 1 + NSLOTS && q < WORD && q % NSLOTS != 0 ensures TurnIs(s', q) { assert TurnIs(s, q); }
  }

  lemma LineOn(s: State, s': State, d: nat)
    requires |s.waves| == |s'.waves| == BUSY + 1 && d < BUSY && Line(s, d) && s'.waves == s.waves[d := s'.waves[d]]
    requires d == 0 ==> s'.waves[0].pc.Fill? && s'.waves[0].pc.pos == 0
    ensures Line(s', d + 1)
  {
    forall v | d + 1 <= v < BUSY ensures Unused(s', v) { assert Unused(s, v); }
  }

  lemma QueuedLonger(c: Config, s: State, s': State, d: nat, n: nat)
    requires Queued(c, s, d, n) && n < WORD && n % NSLOTS == 0 && d < BUSY
    requires Shape(c, s') && |s'.waves| == |s.waves| && s'.next == (s.next + 1) % WORD
    requires s'.cpu == s.cpu && s'.resident == Crew(d + 1)
    requires s'.waves == s.waves[d := s'.waves[d]] && (d == 0 ==> s'.waves[0].pc.Fill? && s'.waves[0].pc.pos == 0)
    requires s'.slots == s.slots[0 := s'.slots[0]] && s'.slots[0].turn == 0 && s'.slots[0].status == 0
    ensures Queued(c, s', d + 1, n + 1)
  {
    LineOn(s, s', d);
    TurnsZero(s, s', n);
  }

  lemma DrawZero(c: Config, reached: State -> bool, s: State, d: nat, n: nat) returns (s': State)
    requires Closers(c) && Closed(c, reached) && reached(s)
    requires Queued(c, s, d, n) && n < WORD && n == d * NSLOTS && d < BUSY
    ensures Queued(c, s', d + 1, n + 1) && reached(s')
  {
    assert Unused(s, d) && d in Crew(d + 1);
    var s1 := Join(c, reached, s, d);
    var s2 := Draw(c, reached, s1, d);
    if d == 0 {
      s' := Pass(c, reached, s2);
    } else {
      s' := s2;
      assert s.slots == s.slots[0 := s.slots[0]];
    }
    QueuedLonger(c, s, s', d, n);
  }

  // ---- one whole call of the busy wave ----------------------------------------------------

  /** `s` differs from `a` at most in the busy wave, slot i, the service thread and the histories. */
  ghost predicate Besides(c: Config, a: State, s: State, i: nat) {
    && Shape(c, s) && i < |a.slots| == |s.slots| && BUSY < |a.waves| == |s.waves| && s.resident == a.resident
    && s.waves == a.waves[BUSY := s.waves[BUSY]] && s.slots == a.slots[i := s.slots[i]]
  }

  /** The busy wave is in a call with ticket n. */
  ghost predicate Busy(c: Config, s: State, n: nat) {
    && Shape(c, s) && |s.waves| == BUSY + 1 && BUSY in s.resident
    && !s.waves[BUSY].pc.Run? && s.waves[BUSY].pc.pos == n && s.waves[BUSY].pc.ask.req == Fclose
    && s.slots[n % NSLOTS].turn == n
  }

  lemma Enter(c: Config, reached: State -> bool, s: State, n: nat) returns (s': State)
    requires Closers(c) && Closed(c, reached) && reached(s)
    requires Shape(c, s) && |s.waves| == BUSY + 1 && BUSY in s.resident && s.waves[BUSY].pc.Run?
    requires s.waves[BUSY].k < WORD && s.next == n && s.slots[n % NSLOTS].turn == n
    ensures reached(s') && Besides(c, s, s', n % NSLOTS) && Busy(c, s', n) && s'.cpu == s.cpu
    ensures s'.waves[BUSY].pc.Fill? && s'.waves[BUSY].pc.j == 0 && s'.waves[BUSY].k == s.waves[BUSY].k
    ensures s'.slots[n % NSLOTS].status == s.slots[n % NSLOTS].status && s'.next == (n + 1) % WORD
  {
    assert Closer(c.progs[BUSY], WORD);
    var s1 := Step(c, s, AWave(BUSY));
    Advance(c, reached, s, AWave(BUSY));
    assert s1.waves[BUSY].pc.Gate? && s1.waves[BUSY].pc.pos == n;
    s' := Step(c, s1, AWave(BUSY));
    Advance(c, reached, s1, AWave(BUSY));
  }

  lemma Signal(c: Config, reached: State -> bool, s: State, n: nat) returns (s': State)
    requires Closers(c) && Closed(c, reached) && reached(s)
    requires Busy(c, s, n) && s.waves[BUSY].pc.Fill? && s.waves[BUSY].pc.j == 0
    ensures reached(s') && Besides(c, s, s', n % NSLOTS) && Busy(c, s', n) && s'.cpu == s.cpu
    ensures s'.waves[BUSY].pc.Wait? && s'.waves[BUSY].k == s.waves[BUSY].k
    ensures s'.slots[n % NSLOTS].status == 1 && s'.next == s.next
  {
    var s1 := Step(c, s, AWave(BUSY));
    Advance(c, reached, s, AWave(BUSY));
    assert s1.waves[BUSY].pc.Fill? && s1.waves[BUSY].pc.j == 1;
    s' := Step(c, s1, AWave(BUSY));
    Advance(c, reached, s1, AWave(BUSY));
  }

  /** Slots the scan still has to pass before slot i. */
  function ToGo(at: nat, i: nat): nat
    requires at < NSLOTS && i < NSLOTS
  {
    if at <= i then i - at else i + NSLOTS - at
  }

  lemma {:induction false} ScanTo(c: Config, reached: State -> bool, s: State, i: nat) returns (s': State)
    requires Closed(c, reached) && reached(s)
    requires Shape(c, s) && s.cpu.Scan? && i < NSLOTS && s.slots[i].status == 1
    requires forall j :: 0 <= j < NSLOTS && j != i ==> s.slots[j].status == 0
    ensures reached(s') && s' == s.(cpu := Serve(i))
    decreases ToGo(s.cpu.i, i)
  {
    var s1 := Step(c, s, ACpu);
    Advance(c, reached, s, ACpu);
    if s.cpu.i == i {
      s' := s1;
    } else {
      s' := ScanTo(c, reached, s1, i);
    }
  }

  lemma Service(c: Config, reached: State -> bool, s: State, n: nat) returns (s': State)
    requires Closers(c) && Closed(c, reached) && reached(s)
    requires Busy(c, s, n) && s.waves[BUSY].pc.Wait? && s.cpu.Scan? && s.slots[n % NSLOTS].status == 1
    requires forall j :: 0 <= j < NSLOTS && j != n % NSLOTS ==> s.slots[j].status == 0
    ensures reached(s') && Besides(c, s, s', n % NSLOTS) && Busy(c, s', n) && s'.cpu.Scan?
    ensures s'.waves[BUSY] == s.waves[BUSY] && s'.slots[n % NSLOTS].status == 2 && s'.next == s.next
  {
    var s1 := ScanTo(c, reached, s, n % NSLOTS);
    var s2 := Step(c, s1, ACpu);
    Advance(c, reached, s1, ACpu);
    assert s2.cpu == Finish(n % NSLOTS) && s2.waves == s.waves;
    s' := Step(c, s2, ACpu);
    Advance(c, reached, s2, ACpu);
  }

  /** The wave reads its result and clears the slot. */
  lemma Collect(c: Config, reached: State -> bool, s: State, n: nat) returns (s': State)
    requires Closers(c) && Closed(c, reached) && reached(s)
    requires Busy(c, s, n) && s.waves[BUSY].pc.Wait? && s.slots[n % NSLOTS].status == 2
    ensures reached(s') && Besides(c, s, s', n % NSLOTS) && Busy(c, s', n) && s'.cpu == s.cpu
    ensures s'.waves[BUSY].pc.Load? && s'.waves[BUSY].k == s.waves[BUSY].k
    ensures s'.slots[n % NSLOTS].status == 0 && s'.next == s.next
  {
    var s1 := Step(c, s, AWave(BUSY));
    Advance(c, reached, s, AWave(BUSY));
    assert s1.waves[BUSY].pc.Take? && s1.slots == s.slots;
    var s2 := Step(c, s1, AWave(BUSY));
    Advance(c, reached, s1, AWave(BUSY));
    assert s2.waves[BUSY].pc.Clear? && s2.slots == s.slots;
    s' := Step(c, s2, AWave(BUSY));
    Advance(c, reached, s2, AWave(BUSY));
  }

  lemma Leave(c: Config, reached: State -> bool, s: State, n: nat) returns (s': State)
    requires Closers(c) && Closed(c, reached) && reached(s)
    requires Busy(c, s, n) && s.waves[BUSY].pc.Load?
    ensures reached(s') && Besides(c, s, s', n % NSLOTS) && s'.cpu == s.cpu
    ensures s'.waves[BUSY].pc.Run? && s'.waves[BUSY].k == s.waves[BUSY].k + 1
    ensures s'.slots[n % NSLOTS].status == s.slots[n % NSLOTS].status && s'.next == s.next
    ensures s'.slots[n % NSLOTS].turn == (n + NSLOTS) % WORD
  {
    var s1 := Step(c, s, AWave(BUSY));
    Advance(c, reached, s, AWave(BUSY));
    assert s1.waves[BUSY].pc.Publish? && s1.waves[BUSY].pc.t == n && s1.slots == s.slots;
    s' := Step(c, s1, AWave(BUSY));
    Advance(c, reached, s1, AWave(BUSY));
  }

  lemma BesidesTrans(c: Config, a: State, b: State, d: State, i: nat)
    requires Besides(c, a, b, i) && Besides(c, b, d, i)
    ensures Besides(c, a, d, i)
  {
  }

  /** The busy wave draws the next ticket of another slot and completes a call with it. */
  lemma DrawOther(c: Config, reached: State -> bool, s: State, d: nat, n: nat) returns (s': State)
    requires Closers(c) && Closed(c, reached) && reached(s)
    requires Queued(c, s, d, n) && n < WORD && n % NSLOTS != 0
    ensures Queued(c, s', d, n + 1) && reached(s')
  {
    CrewSize(d);
    assert TurnIs(s, n);
    s' := WholeCall(c, reached, s, n);
    TurnsOther(s, s', n);
    LineKept(s, s', d);
  }

  lemma LineKept(s: State, s': State, d: nat)
    requires |s.waves| == |s'.waves| == BUSY + 1 && d <= BUSY && Line(s, d) &&
             s'.waves == s.waves[BUSY := s'.waves[BUSY]]
    ensures Line(s', d)
  {
    forall v | d <= v < BUSY ensures Unused(s', v) { assert Unused(s, v); }
  }

  lemma TurnsOther(s: State, s': State, n: nat)
    requires |s.slots| == NSLOTS == |s'.slots| && Turns(s, n) && n % NSLOTS != 0
    requires s'.slots == s.slots[n % NSLOTS := s'.slots[n % NSLOTS]]
    requires s'.slots[n % NSLOTS].status == 0 && s'.slots[n % NSLOTS].turn == (n + NSLOTS) % WORD
    ensures Turns(s', n + 1)
  {
    forall q | n + 1 <= q < n + 1 + NSLOTS && q < WORD && q % NSLOTS != 0 ensures TurnIs(s', q) {
      if q < n + NSLOTS { assert TurnIs(s, q); }
    }
  }

  lemma WholeCall(c: Config, reached: State -> bool, s: State, n: nat) returns (s': State)
    requires Closers(c) && Closed(c, reached) && reached(s)
    requires Shape(c, s) && |s.waves| == BUSY + 1 && BUSY in s.resident && s.waves[BUSY].pc.Run? && s.cpu.Scan?
    requires s.waves[BUSY].k < WORD && s.next == n && s.slots[n % NSLOTS].turn == n
    requires forall i :: 0 <= i < NSLOTS ==> s.slots[i].status == 0
    ensures reached(s') && Besides(c, s, s', n % NSLOTS) && s'.cpu.Scan?
    ensures s'.waves[BUSY].pc.Run? && s'.waves[BUSY].k == s.waves[BUSY].k + 1 && s'.next == (n + 1) % WORD
    ensures s'.slots[n % NSLOTS].status == 0 && s'.slots[n % NSLOTS].turn == (n + NSLOTS) % WORD
  {
    var i := n % NSLOTS;
    var s1 := Enter(c, reached, s, n);
    var s2 := Signal(c, reached, s1, n);
    var s3 := Service(c, reached, s2, n);
    var s4 := Collect(c, reached, s3, n);
    s' := Leave(c, reached, s4, n);
    BesidesTrans(c, s, s1, s2, i);
    BesidesTrans(c, s, s2, s3, i);
    BesidesTrans(c, s, s3, s4, i);
    BesidesTrans(c, s, s4, s', i);
  }

  lemma {:induction false} Queue(c: Config, reached: State -> bool, start: State, n: nat) returns (s: State)
    requires Closers(c) && Closed(c, reached) && reached(start) && Queued(c, start, 0, 0) && n <= WORD
    ensures Queued(c, s, Drawers(n), n) && reached(s)
  {
    if n == 0 {
      s := start;
    } else {
      var m := Queue(c, reached, start, n - 1);
      s := QueueOn(c, reached, m, n - 1);
    }
  }

  lemma QueueOn(c: Config, reached: State -> bool, m: State, n: nat) returns (s: State)
    requires Closers(c) && Closed(c, reached) && reached(m) && n < WORD && Queued(c, m, Drawers(n), n)
    ensures Queued(c, s, Drawers(n + 1), n + 1) && reached(s)
  {
    DrawersNext(n);
    var d := Drawers(n);
    if n % NSLOTS == 0 { s := DrawZero(c, reached, m, d, n); } else { s := DrawOther(c, reached, m, d, n); }
  }

  lemma DrawersNext(n: nat)
    ensures Drawers(n + 1) == Drawers(n) + if n % NSLOTS == 0 then 1 else 0
    ensures n % NSLOTS == 0 ==> n == Drawers(n) * NSLOTS
  {
  }

  lemma Overcrowds(c: Config, slices: seq<seq<byte>>, reached: State -> bool) returns (s: State)
    requires Closers(c) && Closed(c, reached) && |slices| == BUSY + 1 && reached(Init(c, slices))
    ensures reached(s) && |s.waves| == BUSY + 1 && Past(s.waves[0]) && Past(s.waves[BUSY])
    ensures s.waves[0].pc.pos % NSLOTS == s.waves[BUSY].pc.pos % NSLOTS
  {
    var start := Started(c, slices, reached);
    var full := Queue(c, reached, start, WORD);
    CrewSize(Drawers(WORD));
    s := Enter(c, reached, full, 0);
  }

  lemma RunsClosed(c: Config, s0: State)
    requires Shape(c, s0)
    ensures Closed(c, s => exists sched :: RunAll(c, s0, sched) == s)
  {
    var reached := s => exists sched :: RunAll(c, s0, sched) == s;
    forall s, a | Shape(c, s) ensures Carries(c, reached, s, a) {
      if sched :| RunAll(c, s0, sched) == s {
        assert (sched + [a])[..|sched|] == sched;
        assert RunAll(c, s0, sched + [a]) == Step(c, s, a);
      }
    }
  }

  /** With 2^24 + 1 waves resident there is a schedule of the 32-bit ring that puts two of them past the
      gate of slot 0 at once: after 2^32 tickets, 2^24 of them still held, the next one is 0 again. */
  lemma OneHolderTooMany(env: Env) returns (sched: seq<Actor>)
    ensures var c := OneTooMany(env);
            && c.limit == MAX_HOLDERS + 1 && Shape(c, Init(c, OneByteEach()))
            && var s := RunAll(c, Init(c, OneByteEach()), sched);
               && |s.waves| == BUSY + 1 && Past(s.waves[0]) && Past(s.waves[BUSY])
               && s.waves[0].pc.pos % NSLOTS == s.waves[BUSY].pc.pos % NSLOTS
  {
    var c := OneTooMany(env);
    OneTooManyCloses(env);
    var s0 := Init(c, OneByteEach());
    var reached := s => exists sched :: RunAll(c, s0, sched) == s;
    RunsClosed(c, s0);
    assert RunAll(c, s0, []) == s0;
    var s := Overcrowds(c, OneByteEach(), reached);
    sched :| RunAll(c, s0, sched) == s;
  }
}

/** Progress of the ring: completion under every fair schedule at any wave count and any residency
    limit of at least one, and a bound on how long a ready request waits. */
module RingProgress {
  import opened Bytes
  import opened Options
  import opened Abi
  import opened Host
  import opened Ring
  import opened RingSafety
  import opened RingHistory
  import opened RingWork
  import opened RingOrder
  import opened RingRuns
  import opened Ring32

  // ---- completion -------------------------------------------------------------------------

  function CpuCount(seg: seq<Actor>): nat {
    if seg == [] then 0 else CpuCount(seg[..|seg| - 1]) + (if seg[|seg| - 1] == ACpu then 1 else 0)
  }

  /** Slots the cursor passes before it reaches j. */
  function Gap(i: nat, j: nat): nat
    requires i < NSLOTS && j < NSLOTS
  {
    if i <= j then j - i else j + NSLOTS - i
  }

  /** Scanning steps before the service thread works, when slot j is ready. */
  function Urge(cpu: Cpu, j: nat): nat
    requires cpu.i < NSLOTS && j < NSLOTS
  {
    if cpu.Scan? then 1 + Gap(cpu.i, j) else 0
  }

  /** In one round every wave and the dispatcher get a turn for every wave, and the service thread
      gets around the ring. */
  ghost predicate Fair(c: Config, seg: seq<Actor>) {
    && CpuCount(seg) > NSLOTS
    && forall w :: 0 <= w < |c.progs| ==> AWave(w) in seg && AAdmit(w) in seg && ARetire(w) in seg
  }

  lemma {:induction false} WorkFalls(c: Config, s: State, seg: seq<Actor>)
    requires Live(c, s)
    ensures Live(c, RunAll(c, s, seg)) && TotalWork(c, RunAll(c, s, seg)) <= TotalWork(c, s)
  {
    if seg != [] {
      WorkFalls(c, s, seg[..|seg| - 1]);
      var m := RunAll(c, s, seg[..|seg| - 1]);
      StepLive(c, m, seg[|seg| - 1]);
      StepWorks(c, m, seg[|seg| - 1]);
    }
  }

  /** A step without work brings the service thread's cursor nearer to any ready slot if it is the
      thread's own, and changes nothing else. */
  lemma IdleStep(c: Config, s: State, b: Actor, j: nat)
    requires Live(c, s) && TotalWork(c, Step(c, s, b)) == TotalWork(c, s)
    ensures Spun(s, Step(c, s, b))
    ensures j < NSLOTS && s.slots[j].status == 1 ==>
            Urge(Step(c, s, b).cpu, j) + (if b == ACpu then 1 else 0) <= Urge(s.cpu, j)
  {
    match b
    case ACpu => CpuWorks(c, s);
    case AWave(w) => if w < |s.waves| { WaveWorks(c, s, w); }
    case AAdmit(w) => DispatchWorks(c, s, b);
    case ARetire(w) => DispatchWorks(c, s, b);
  }

  /** The same for a whole stretch without work. */
  lemma {:induction false} IdleScan(c: Config, s: State, seg: seq<Actor>, j: nat)
    requires Live(c, s) && TotalWork(c, RunAll(c, s, seg)) == TotalWork(c, s)
    ensures Spun(s, RunAll(c, s, seg))
    ensures j < NSLOTS && s.slots[j].status == 1 ==> Urge(RunAll(c, s, seg).cpu, j) + CpuCount(seg) <= Urge(s.cpu, j)
  {
    if seg != [] {
      var init, b := seg[..|seg| - 1], seg[|seg| - 1];
      WorkFalls(c, s, init);
      var m := RunAll(c, s, init);
      StepWorks(c, m, b);
      IdleScan(c, s, init, j);
      IdleStep(c, m, b, j);
    }
  }

  lemma SpunProductive(c: Config, s: State, m: State, a: Actor)
    requires Live(c, s) && Live(c, m) && Spun(s, m) && Productive(c, s, a)
    ensures TotalWork(c, Step(c, m, a)) < TotalWork(c, m)
  {
    if a.AWave? { WaveWorks(c, m, a.w); } else { DispatchWorks(c, m, a); }
  }

  /** ... and nobody in it was productive. */
  lemma {:induction false} IdleRun(c: Config, s: State, seg: seq<Actor>, a: Actor)
    requires Live(c, s) && TotalWork(c, RunAll(c, s, seg)) == TotalWork(c, s)
    ensures a in seg ==> !Productive(c, s, a)
  {
    if seg != [] {
      var init, b := seg[..|seg| - 1], seg[|seg| - 1];
      WorkFalls(c, s, init);
      var m := RunAll(c, s, init);
      StepWorks(c, m, b);
      IdleRun(c, s, init, a);
      IdleScan(c, s, init, 0);
      if b == a && Productive(c, s, a) { SpunProductive(c, s, m, a); }
    }
  }

  lemma ReadyWorks(c: Config, s: State, seg: seq<Actor>, j: nat)
    requires Live(c, s) && j < NSLOTS && s.slots[j].status == 1 && CpuCount(seg) > NSLOTS
    ensures TotalWork(c, RunAll(c, s, seg)) < TotalWork(c, s)
  {
    WorkFalls(c, s, seg);
    if TotalWork(c, RunAll(c, s, seg)) == TotalWork(c, s) { IdleScan(c, s, seg, j); }
  }

  lemma ProductiveWorks(c: Config, s: State, seg: seq<Actor>, a: Actor)
    requires Live(c, s) && Productive(c, s, a) && a in seg
    ensures TotalWork(c, RunAll(c, s, seg)) < TotalWork(c, s)
  {
    WorkFalls(c, s, seg);
    if TotalWork(c, RunAll(c, s, seg)) == TotalWork(c, s) { IdleRun(c, s, seg, a); }
  }

  lemma RoundWorks(c: Config, s: State, seg: seq<Actor>)
    requires Live(c, s) && c.limit >= 1 && !AllDone(c, s) && Fair(c, seg)
    ensures TotalWork(c, RunAll(c, s, seg)) < TotalWork(c, s)
  {
    var a, j := NoDeadlock(c, s);
    if Productive(c, s, a) { ProductiveWorks(c, s, seg, a); } else { ReadyWorks(c, s, seg, j); }
  }

  function Flatten(rounds: seq<seq<Actor>>): seq<Actor> {
    if rounds == [] then [] else Flatten(rounds[..|rounds| - 1]) + rounds[|rounds| - 1]
  }

  lemma DoneStays(c: Config, s: State, a: Actor)
    requires Live(c, s) && AllDone(c, s)
    ensures AllDone(c, Step(c, s, a))
  {
    if a.AWave? && a.w < |s.waves| { assert Done(c, s, a.w); }
    forall w | 0 <= w < |s.waves| ensures Done(c, Step(c, s, a), w) { assert Done(c, s, w); }
  }

  lemma {:induction false} DoneStaysRun(c: Config, s: State, seg: seq<Actor>)
    requires Live(c, s) && AllDone(c, s)
    ensures AllDone(c, RunAll(c, s, seg))
  {
    if seg != [] {
      DoneStaysRun(c, s, seg[..|seg| - 1]);
      WorkFalls(c, s, seg[..|seg| - 1]);
      DoneStays(c, RunAll(c, s, seg[..|seg| - 1]), seg[|seg| - 1]);
    }
  }

  lemma {:induction false} RoundsFinish(c: Config, s: State, rounds: seq<seq<Actor>>)
    requires Live(c, s) && c.limit >= 1
    requires forall i :: 0 <= i < |rounds| ==> Fair(c, rounds[i])
    ensures AllDone(c, RunAll(c, s, Flatten(rounds))) ||
            TotalWork(c, RunAll(c, s, Flatten(rounds))) + |rounds| <= TotalWork(c, s)
  {
    if rounds != [] {
      var init, r := rounds[..|rounds| - 1], rounds[|rounds| - 1];
      RoundsFinish(c, s, init);
      RunConcat(c, s, Flatten(init), r);
      WorkFalls(c, s, Flatten(init));
      var m := RunAll(c, s, Flatten(init));
      if AllDone(c, m) { DoneStaysRun(c, m, r); } else { RoundWorks(c, m, r); }
    }
  }

  lemma {:induction false} ReachableLive(c: Config, slices: seq<seq<byte>>, sched: seq<Actor>)
    requires c.m == 0 && Launch(c, slices)
    ensures Live(c, RunAll(c, Init(c, slices), sched))
  {
    InitHistory(c, slices);
    WorkFalls(c, Init(c, slices), sched);
  }

  /** Completion: from any reachable state of the 32-bit ring, whatever the wave count and any
      residency limit from 1 to 2^24, enough fair rounds finish every wave. */
  lemma Completes(c: Config, slices: seq<seq<byte>>, sched: seq<Actor>, rounds: seq<seq<Actor>>)
    requires c.m == 0 && Launch(c, slices) && 1 <= c.limit <= MAX_HOLDERS
    requires forall i :: 0 <= i < |rounds| ==> Fair(c, rounds[i])
    requires |rounds| > TotalWork(c, RunAll(c, Init(c, slices), sched))
    ensures Shape(In32(c), Init(In32(c), slices))
    ensures AllDone(In32(c), RunAll(In32(c), Init(In32(c), slices), sched + Flatten(rounds)))
  {
    ReachableLive(c, slices, sched);
    RoundsFinish(c, RunAll(c, Init(c, slices), sched), rounds);
    RunConcat(c, Init(c, slices), sched, Flatten(rounds));
    LimitGivesFewHolders(c, slices, sched + Flatten(rounds));
    Refines(c, slices, sched + Flatten(rounds));
    var i := RunAll(c, Init(c, slices), sched + Flatten(rounds));
    forall w | 0 <= w < |i.waves| ensures Done(In32(c), Wrap(i), w) {
      assert Wrap(i).waves[w] == WrapWave(i.waves[w]);
      assert Done(c, i, w);
    }
  }

  // ---- how long a ready request waits -----------------------------------------------------

  /** Slot j stays ready, unserviced by the service thread's final store, throughout the stretch. */
  ghost predicate Pending(c: Config, s: State, seg: seq<Actor>, j: nat)
    requires Shape(c, s) && j < NSLOTS
  {
    RunAll(c, s, seg).slots[j].status == 1 && (seg != [] ==> Pending(c, s, seg[..|seg| - 1], j))
  }

  /** History entries from position `from` on that belong to other slots than j. */
  function OthersServed(log: seq<Entry>, from: nat, j: nat): nat {
    if |log| <= from then 0
    else OthersServed(log[..|log| - 1], from, j) + (if log[|log| - 1].ticket % NSLOTS != j then 1 else 0)
  }

  function Ahead(cpu: Cpu, j: nat): nat
    requires cpu.i < NSLOTS && j < NSLOTS
  {
    var d := Gap(cpu.i, j);
    if cpu.Finish? && d > 0 then d - 1 else d
  }

  function StepsTo(cpu: Cpu, j: nat): nat
    requires cpu.i < NSLOTS && j < NSLOTS
  {
    3 * Gap(cpu.i, j) + (if cpu.Scan? then 3 else if cpu.Serve? then 2 else 1)
  }

  /** One step while slot j stays ready. */
  lemma PendingStep(c: Config, m: State, a: Actor, j: nat, from: nat)
    requires Shape(c, m) && j < NSLOTS && m.slots[j].status == 1 && Step(c, m, a).slots[j].status == 1
    requires from <= |m.log|
    requires forall i :: 0 <= i < NSLOTS ==> m.slots[i].turn % NSLOTS == i
    ensures var s' := Step(c, m, a);
            && m.log <= s'.log
            && OthersServed(s'.log, from, j) + Ahead(s'.cpu, j) <= OthersServed(m.log, from, j) + Ahead(m.cpu, j)
            && (if a == ACpu then 1 else 0) + StepsTo(s'.cpu, j) <= StepsTo(m.cpu, j)
  {
    if a == ACpu && m.cpu.Serve? {
      var s' := CpuStep(c, m);
      assert s'.log[..|s'.log| - 1] == m.log;
    }
  }

  lemma {:induction false} PendingRun(c: Config, s: State, seg: seq<Actor>, j: nat)
    requires Live(c, s) && j < NSLOTS && Pending(c, s, seg, j)
    ensures var s' := RunAll(c, s, seg);
            && s.log <= s'.log
            && OthersServed(s'.log, |s.log|, j) + Ahead(s'.cpu, j) <= Ahead(s.cpu, j)
            && CpuCount(seg) + StepsTo(s'.cpu, j) <= StepsTo(s.cpu, j)
  {
    if seg != [] {
      var init, a := seg[..|seg| - 1], seg[|seg| - 1];
      PendingRun(c, s, init, j);
      WorkFalls(c, s, init);
      var m := RunAll(c, s, init);
      forall i | 0 <= i < NSLOTS ensures m.slots[i].turn % NSLOTS == i { assert SlotOk(m, i); }
      PendingStep(c, m, a, j, |s.log|);
    }
  }

  /** Out-of-order service is still bounded: from any reachable state, while a request stays pending
      the service thread services at most 255 others and takes fewer than 768 steps. */
  lemma BoundedWait(c: Config, slices: seq<seq<byte>>, sched: seq<Actor>, seg: seq<Actor>, j: nat)
    requires c.m == 0 && Launch(c, slices) && j < NSLOTS
    requires Pending(c, RunAll(c, Init(c, slices), sched), seg, j)
    ensures var s := RunAll(c, Init(c, slices), sched);
            OthersServed(RunAll(c, s, seg).log, |s.log|, j) <= NSLOTS - 1 && CpuCount(seg) < 3 * NSLOTS
  {
    ReachableLive(c, slices, sched);
    PendingRun(c, RunAll(c, Init(c, slices), sched), seg, j);
  }

  /** Running on from a reachable state, the 32-bit ring stays the image of the ideal one. */
  lemma RunsOn(c: Config, slices: seq<seq<byte>>, sched: seq<Actor>, seg: seq<Actor>)
    requires c.m == 0 && Launch(c, slices) && c.limit <= MAX_HOLDERS
    ensures var i, s := RunAll(c, Init(c, slices), sched), RunAll(In32(c), Init(In32(c), slices), sched);
            s == Wrap(i) && RunAll(In32(c), s, seg) == Wrap(RunAll(c, i, seg))
  {
    LimitGivesFewHolders(c, slices, sched);
    Refines(c, slices, sched);
    LimitGivesFewHolders(c, slices, sched + seg);
    Refines(c, slices, sched + seg);
    RunConcat(c, Init(c, slices), sched, seg);
    RunConcat(In32(c), Init(In32(c), slices), sched, seg);
  }

  lemma {:induction false} PendingUnwraps(c: Config, slices: seq<seq<byte>>, sched: seq<Actor>, seg: seq<Actor>, j: nat)
    requires c.m == 0 && Launch(c, slices) && c.limit <= MAX_HOLDERS && j < NSLOTS
    requires Pending(In32(c), RunAll(In32(c), Init(In32(c), slices), sched), seg, j)
    ensures Pending(c, RunAll(c, Init(c, slices), sched), seg, j)
    decreases |seg|
  {
    RunsOn(c, slices, sched, seg);
    if seg != [] { PendingUnwraps(c, slices, sched, seg[..|seg| - 1], j); }
  }

  lemma {:induction false} WrapOthersServed(log: seq<Entry>, from: nat, j: nat)
    ensures OthersServed(WrapLog(log), from, j) == OthersServed(log, from, j)
  {
    if |log| > from {
      WrapOthersServed(log[..|log| - 1], from, j);
      assert WrapLog(log)[..|log| - 1] == WrapLog(log[..|log| - 1]);
      WrapIndex(log[|log| - 1].ticket);
    }
  }

  /** The same bound on the 32-bit ring. */
  lemma BoundedWait32(c: Config, slices: seq<seq<byte>>, sched: seq<Actor>, seg: seq<Actor>, j: nat)
    requires c.m == 0 && Launch(c, slices) && c.limit <= MAX_HOLDERS && j < NSLOTS
    requires Pending(In32(c), RunAll(In32(c), Init(In32(c), slices), sched), seg, j)
    ensures var s := RunAll(In32(c), Init(In32(c), slices), sched);
            OthersServed(RunAll(In32(c), s, seg).log, |s.log|, j) <= NSLOTS - 1 && CpuCount(seg) < 3 * NSLOTS
  {
    PendingUnwraps(c, slices, sched, seg, j);
    BoundedWait(c, slices, sched, seg, j);
    RunsOn(c, slices, sched, seg);
    var i := RunAll(c, Init(c, slices), sched);
    WrapOthersServed(RunAll(c, i, seg).log, |i.log|, j);
  }
}

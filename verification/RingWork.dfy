/** The work a run of the ring has left: every step lowers it or only moves the service thread's
    cursor, and while some wave is unfinished there is a step that lowers it. */
module RingWork {
  import opened Bytes
  import opened Abi
  import opened Ring
  import opened RingSafety
  import opened RingHistory

  /** How far a wave has come in its present call. */
  function Phase(s: State, w: nat): nat
    requires |s.slots| == NSLOTS && w < |s.waves|
  {
    match s.waves[w].pc
    case Run => 0
    case Gate(_, _) => 1
    case Fill(_, ask, j, _) => 2 + Min(j, 1000)
    case Wait(pos, _) =>
      if s.cpu == Finish(pos % NSLOTS) then 1011 else if s.slots[pos % NSLOTS].status == 2 then 1012 else 1010
    case Take(_, _) => 1013
    case Clear(_, _, _) => 1014
    case Load(_, _, _) => 1015
    case Publish(_, _, _, _) => 1016
  }

  /** Steps a wave still has ahead of it, its admission and departure included. */
  function Weight(c: Config, s: State, w: nat): nat
    requires Shape(c, s) && w < |s.waves|
  {
    var togo := if s.waves[w].k < c.progs[w].len then 2000 * (c.progs[w].len - s.waves[w].k) - Phase(s, w) else 0;
    togo + (if w in s.resident then 1 else if Done(c, s, w) then 0 else 2)
  }

  function Work(c: Config, s: State, n: nat): nat
    requires Shape(c, s) && n <= |s.waves|
  {
    if n == 0 then 0 else Work(c, s, n - 1) + Weight(c, s, n - 1)
  }

  function TotalWork(c: Config, s: State): nat
    requires Shape(c, s)
  {
    Work(c, s, |s.waves|)
  }

  ghost predicate Live(c: Config, s: State) {
    && History(c, s)
    && |s.resident| <= c.limit
    && forall w :: 0 <= w < |s.waves| && Holds(s.waves[w]) ==> s.waves[w].k < c.progs[w].len
  }

  lemma StepCallsLive(c: Config, s: State, a: Actor, w: nat)
    requires Shape(c, s) && w < |s.waves|
    requires Holds(s.waves[w]) ==> s.waves[w].k < c.progs[w].len
    ensures Holds(Step(c, s, a).waves[w]) ==> Step(c, s, a).waves[w].k < c.progs[w].len
  {
  }

  lemma StepLive(c: Config, s: State, a: Actor)
    requires Live(c, s)
    ensures Live(c, Step(c, s, a))
  {
    StepHistory(c, s, a);
    StepResident(c, s, a);
    var s' := Step(c, s, a);
    forall w | 0 <= w < |s'.waves| && Holds(s'.waves[w]) ensures s'.waves[w].k < c.progs[w].len {
      StepCallsLive(c, s, a, w);
    }
  }

  lemma {:induction false} WorkSame(c: Config, s: State, s': State, n: nat)
    requires Shape(c, s) && Shape(c, s') && n <= |s.waves| == |s'.waves|
    requires forall v :: 0 <= v < n ==> Weight(c, s', v) == Weight(c, s, v)
    ensures Work(c, s', n) == Work(c, s, n)
  {
    if n > 0 { WorkSame(c, s, s', n - 1); }
  }

  lemma {:induction false} WorkDrops(c: Config, s: State, s': State, n: nat, w: nat)
    requires Shape(c, s) && Shape(c, s') && w < n <= |s.waves| == |s'.waves|
    requires forall v :: 0 <= v < n && v != w ==> Weight(c, s', v) == Weight(c, s, v)
    requires Weight(c, s', w) < Weight(c, s, w)
    ensures Work(c, s', n) < Work(c, s, n)
  {
    if n - 1 == w { WorkSame(c, s, s', n - 1); } else { WorkDrops(c, s, s', n - 1, w); }
  }

  // ---- every step works or spins ----------------------------------------------------------

  /** Nothing happened but the service thread looking around. */
  ghost predicate Spun(s: State, s': State) { s' == s.(cpu := s'.cpu) }

  /** Wave w can move now. */
  ghost predicate Ready(c: Config, s: State, w: nat)
    requires Shape(c, s) && w < |s.waves|
  {
    var pc := s.waves[w].pc;
    w in s.resident &&
    (match pc
     case Run => s.waves[w].k < c.progs[w].len
     case Gate(pos, _) => s.slots[pos % NSLOTS].turn == pos
     case Wait(pos, _) => s.slots[pos % NSLOTS].status == 2
     case _ => true)
  }

  /** An actor other than the service thread whose step lowers the work left. */
  ghost predicate Productive(c: Config, s: State, a: Actor)
    requires Shape(c, s)
  {
    match a
    case ACpu => false
    case AWave(w) => w < |s.waves| && Ready(c, s, w)
    case AAdmit(w) => w < |s.waves| && w !in s.resident && |s.resident| < c.limit && !Done(c, s, w)
    case ARetire(w) => w < |s.waves| && w in s.resident && Done(c, s, w)
  }

  lemma WeightFrame(c: Config, s: State, s': State, v: nat)
    requires Shape(c, s) && Shape(c, s') && v < |s.waves| == |s'.waves|
    requires s'.waves[v] == s.waves[v] && s'.resident == s.resident && s'.cpu == s.cpu
    requires s.waves[v].pc.Wait? ==>
             s'.slots[s.waves[v].pc.pos % NSLOTS].status == s.slots[s.waves[v].pc.pos % NSLOTS].status
    ensures Weight(c, s', v) == Weight(c, s, v)
  {
  }

  lemma OthersWeight(c: Config, s: State, w: nat, v: nat)
    requires Shape(c, s) && w < |s.waves| && v < |s.waves| && v != w
    requires Past(s.waves[w]) && Past(s.waves[v]) ==> s.waves[v].pc.pos % NSLOTS != s.waves[w].pc.pos % NSLOTS
    ensures Weight(c, WaveStep(c, s, w), v) == Weight(c, s, v)
  {
    WeightFrame(c, s, WaveStep(c, s, w), v);
  }

  lemma OwnWeight(c: Config, s: State, w: nat)
    requires Shape(c, s) && w < |s.waves| && TicketOk(s, w) && Ready(c, s, w)
    requires s.waves[w].k < c.progs[w].len
    requires s.waves[w].pc.Wait? ==> s.cpu != Finish(s.waves[w].pc.pos % NSLOTS)
    ensures Weight(c, WaveStep(c, s, w), w) < Weight(c, s, w)
  {
    if s.waves[w].pc.Fill? { StoresFit(s.waves[w].pc.ask.req); }
  }

  lemma WaveWorks(c: Config, s: State, w: nat)
    requires Live(c, s) && w < |s.waves|
    ensures if Ready(c, s, w) then TotalWork(c, WaveStep(c, s, w)) < TotalWork(c, s) else WaveStep(c, s, w) == s
  {
    if Ready(c, s, w) {
      assert TicketOk(s, w) && DataOk(c, s, w);
      OwnWeight(c, s, w);
      forall v | 0 <= v < |s.waves| && v != w ensures Weight(c, WaveStep(c, s, w), v) == Weight(c, s, v) {
        if Past(s.waves[w]) && Past(s.waves[v]) { GateExclusive(c, s, w, v); }
        OthersWeight(c, s, w, v);
      }
      WorkDrops(c, s, WaveStep(c, s, w), |s.waves|, w);
    }
  }

  lemma CpuWeight(c: Config, s: State, v: nat)
    requires Shape(c, s) && v < |s.waves|
    ensures s.cpu.Scan? || (s.waves[v].pc.Wait? ==> s.waves[v].pc.pos % NSLOTS != s.cpu.i)
            ==> Weight(c, CpuStep(c, s), v) == Weight(c, s, v)
    ensures !s.cpu.Scan? && s.waves[v].pc.Wait? && s.waves[v].pc.pos % NSLOTS == s.cpu.i &&
            s.slots[s.cpu.i].status == 1 && s.waves[v].k < c.progs[v].len
            ==> Weight(c, CpuStep(c, s), v) < Weight(c, s, v)
  {
  }

  lemma CpuServes(c: Config, s: State)
    requires Live(c, s) && !s.cpu.Scan?
    ensures TotalWork(c, CpuStep(c, s)) < TotalWork(c, s)
  {
    var i := s.cpu.i;
    assert SlotOk(s, i);
    var u := s.owner[s.slots[i].turn];
    assert TicketOk(s, u);
    CpuWeight(c, s, u);
    forall v | 0 <= v < |s.waves| && v != u ensures Weight(c, CpuStep(c, s), v) == Weight(c, s, v) {
      if s.waves[v].pc.Wait? { GateExclusive(c, s, u, v); }
      CpuWeight(c, s, v);
    }
    WorkDrops(c, s, CpuStep(c, s), |s.waves|, u);
  }

  lemma CpuWorks(c: Config, s: State)
    requires Live(c, s)
    ensures if s.cpu.Scan? then Spun(s, CpuStep(c, s)) && TotalWork(c, CpuStep(c, s)) == TotalWork(c, s)
            else TotalWork(c, CpuStep(c, s)) < TotalWork(c, s)
  {
    if s.cpu.Scan? {
      forall v | 0 <= v < |s.waves| ensures Weight(c, CpuStep(c, s), v) == Weight(c, s, v) { CpuWeight(c, s, v); }
      WorkSame(c, s, CpuStep(c, s), |s.waves|);
    } else {
      CpuServes(c, s);
    }
  }

  lemma AdmitWeight(c: Config, s: State, w: nat, v: nat)
    requires Shape(c, s) && w < |s.waves| && v < |s.waves|
    ensures v != w ==> Weight(c, Admit(c, s, w), v) == Weight(c, s, v)
    ensures Admit(c, s, w) == s || Weight(c, Admit(c, s, w), w) < Weight(c, s, w)
  {
  }

  lemma RetireWeight(c: Config, s: State, w: nat, v: nat)
    requires Shape(c, s) && w < |s.waves| && v < |s.waves|
    ensures v != w ==> Weight(c, Retire(c, s, w), v) == Weight(c, s, v)
    ensures Retire(c, s, w) == s || Weight(c, Retire(c, s, w), w) < Weight(c, s, w)
  {
  }

  lemma DispatchWeight(c: Config, s: State, a: Actor, v: nat)
    requires Shape(c, s) && (a.AAdmit? || a.ARetire?) && a.w < |s.waves| && v < |s.waves|
    ensures v != a.w ==> Weight(c, Step(c, s, a), v) == Weight(c, s, v)
    ensures Step(c, s, a) == s || Weight(c, Step(c, s, a), a.w) < Weight(c, s, a.w)
  {
    if a.AAdmit? {
      AdmitWeight(c, s, a.w, v);
      AdmitWeight(c, s, a.w, a.w);
    } else {
      RetireWeight(c, s, a.w, v);
      RetireWeight(c, s, a.w, a.w);
    }
  }

  lemma DispatchWorks(c: Config, s: State, a: Actor)
    requires Shape(c, s) && (a.AAdmit? || a.ARetire?)
    ensures TotalWork(c, Step(c, s, a)) < TotalWork(c, s) || Step(c, s, a) == s
    ensures Productive(c, s, a) ==> TotalWork(c, Step(c, s, a)) < TotalWork(c, s)
  {
    if a.w < |s.waves| && Step(c, s, a) != s {
      forall v | 0 <= v < |s.waves| && v != a.w ensures Weight(c, Step(c, s, a), v) == Weight(c, s, v) {
        DispatchWeight(c, s, a, v);
      }
      DispatchWeight(c, s, a, a.w);
      WorkDrops(c, s, Step(c, s, a), |s.waves|, a.w);
    }
  }

  /** The whole-system measure: every step either lowers the work left or changes nothing but the
      service thread's cursor. */
  lemma StepWorks(c: Config, s: State, a: Actor)
    requires Live(c, s)
    ensures TotalWork(c, Step(c, s, a)) < TotalWork(c, s) ||
            (Spun(s, Step(c, s, a)) && TotalWork(c, Step(c, s, a)) == TotalWork(c, s))
  {
    match a
    case ACpu => CpuWorks(c, s);
    case AWave(w) => if w < |s.waves| { WaveWorks(c, s, w); }
    case AAdmit(w) => DispatchWorks(c, s, a);
    case ARetire(w) => DispatchWorks(c, s, a);
  }

  // ---- no deadlock ------------------------------------------------------------------------

  ghost predicate AllDone(c: Config, s: State)
    requires Shape(c, s)
  {
    forall w :: 0 <= w < |s.waves| ==> Done(c, s, w)
  }

  /** No deadlock: while some wave is unfinished, a wave or the dispatcher can move, or a request is
      ready for the service thread. */
  lemma NoDeadlock(c: Config, s: State) returns (a: Actor, j: nat)
    requires Live(c, s) && c.limit >= 1 && !AllDone(c, s)
    ensures Productive(c, s, a) || (j < NSLOTS && s.slots[j].status == 1)
  {
    j := 0;
    if w :| 0 <= w < |s.waves| && Holds(s.waves[w]) {
      assert TicketOk(s, w);
      var i := s.waves[w].pc.pos % NSLOTS;
      var t := s.slots[i].turn;
      assert SlotOk(s, i) && HeldAt(s, t);
      var u := s.owner[t];
      assert TicketOk(s, u);
      a, j := AWave(u), i;
    } else {
      var w :| 0 <= w < |s.waves| && !Done(c, s, w);
      if w in s.resident {
        a := AWave(w);
      } else if |s.resident| < c.limit {
        a := AAdmit(w);
      } else {
        assert s.resident != {};
        var v :| v in s.resident;
        a := if Done(c, s, v) then ARetire(v) else AWave(v);
      }
    }
  }
}

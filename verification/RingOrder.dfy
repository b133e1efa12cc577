/** Exactly-once service: the history holds each served ticket once, and each slot's tickets in
    increasing order. */
module RingOrder {
  import opened Bytes
  import opened Abi
  import opened Host
  import opened Ring
  import opened RingSafety
  import opened RingHistory

  ghost predicate Logged(log: seq<Entry>, q: nat) { exists i :: 0 <= i < |log| && log[i].ticket == q }

  /** Ticket q has been executed: its slot has moved on, or its holder has its answer. */
  ghost predicate Served(s: State, q: nat)
    requires |s.slots| == NSLOTS && q < |s.owner|
  {
    || q < s.slots[q % NSLOTS].turn
    || (s.owner[q] < |s.waves| && Holds(s.waves[s.owner[q]]) && s.waves[s.owner[q]].pc.pos == q &&
       Answered(s, s.owner[q]))
  }

  /** Entries of one slot appear in ticket order, so no ticket appears twice. */
  ghost predicate SlotOrdered(log: seq<Entry>) {
    forall i, j :: 0 <= i < j < |log| && log[i].ticket % NSLOTS == log[j].ticket % NSLOTS ==>
      log[i].ticket < log[j].ticket
  }

  ghost predicate Ordered(s: State)
    requires |s.slots| == NSLOTS
  {
    && SlotOrdered(s.log)
    && (forall i :: 0 <= i < |s.log| ==> s.log[i].ticket < |s.owner| && s.owner[s.log[i].ticket] == s.log[i].w)
    && (forall q :: 0 <= q < |s.owner| ==> (Logged(s.log, q) <==> Served(s, q)))
  }

  /** A step that changes neither the log nor which tickets count as served. */
  lemma OrderedFrame(s: State, s': State)
    requires |s.slots| == NSLOTS == |s'.slots|
    requires Ordered(s) && s'.log == s.log && s.owner <= s'.owner
    requires forall q :: 0 <= q < |s.owner| ==> (Served(s, q) <==> Served(s', q))
    requires forall q :: |s.owner| <= q < |s'.owner| ==> !Served(s', q)
    ensures Ordered(s')
  {
    forall q | 0 <= q < |s'.owner| ensures Logged(s'.log, q) <==> Served(s', q) {
      if q < |s.owner| {
        assert Logged(s.log, q) <==> Served(s, q);
      }
    }
  }

  lemma ServedNotAhead(c: Config, s: State, q: nat)
    requires Safe(c, s) && q < |s.owner| && Served(s, q)
    ensures q <= s.slots[q % NSLOTS].turn
  {
    if s.owner[q] < |s.waves| { assert TicketOk(s, s.owner[q]); }
  }

  lemma ServeOrdered(c: Config, s: State)
    requires Safe(c, s) && Ordered(s) && s.cpu.Serve?
    ensures Ordered(CpuStep(c, s))
  {
    var s' := CpuStep(c, s);
    var i := s.cpu.i;
    var t := s.slots[i].turn;
    assert SlotOk(s, i);
    var u := s.owner[t];
    assert TicketOk(s, u);
    assert Served(s', t) && !Served(s, t);
    assert s'.log[|s.log|].ticket == t;
    forall q | 0 <= q < |s'.owner| ensures Logged(s'.log, q) <==> Served(s', q) {
      assert Logged(s.log, q) <==> Served(s, q);
      assert HeldAt(s, q);
      if q != t {
        if s.owner[q] < |s.waves| && Past(s.waves[s.owner[q]]) { GateExclusive(c, s, u, s.owner[q]); }
        if Logged(s.log, q) {
          var k :| 0 <= k < |s.log| && s.log[k].ticket == q;
          assert s'.log[k].ticket == q;
        }
      }
    }
    forall k | 0 <= k < |s.log| && s.log[k].ticket % NSLOTS == i ensures s.log[k].ticket < t {
      var q := s.log[k].ticket;
      assert Logged(s.log, q);
      ServedNotAhead(c, s, q);
    }
  }

  /** A wave's step inside a call never changes which tickets are served: not its own answer, and
      nobody else's slot. */
  lemma InCallServed(c: Config, s: State, w: nat, q: nat)
    requires Safe(c, s) && w < |s.waves| && w in s.resident
    requires !s.waves[w].pc.Run? && !s.waves[w].pc.Publish? && q < |s.owner|
    ensures Served(s, q) <==> Served(WaveStep(c, s, w), q)
  {
    assert TicketOk(s, w) && HeldAt(s, q);
    var v := s.owner[q];
    InCallTurn(c, s, w, q % NSLOTS);
    if v < |s.waves| && v != w && Past(s.waves[v]) {
      assert TicketOk(s, v);
      InCallOthers(c, s, w, v);
    } else if v == w {
      InCallOwn(c, s, w);
    }
  }

  lemma InCallTurn(c: Config, s: State, w: nat, i: nat)
    requires Shape(c, s) && w < |s.waves| && !s.waves[w].pc.Run? && !s.waves[w].pc.Publish? && i < NSLOTS
    ensures var s' := WaveStep(c, s, w);
            && s'.slots[i].turn == s.slots[i].turn && s'.owner == s.owner && s'.cpu == s.cpu
            && (forall v :: 0 <= v < |s.waves| && v != w ==> s'.waves[v] == s.waves[v])
            && Holds(s'.waves[w]) && s'.waves[w].pc.pos == s.waves[w].pc.pos
  {
  }

  lemma InCallOthers(c: Config, s: State, w: nat, v: nat)
    requires Safe(c, s) && w < |s.waves| && w in s.resident && v < |s.waves| && v != w && Past(s.waves[v])
    requires !s.waves[w].pc.Run? && !s.waves[w].pc.Publish?
    ensures Answered(s, v) <==> Answered(WaveStep(c, s, w), v)
  {
    assert TicketOk(s, v) && TicketOk(s, w);
  }

  lemma InCallOwn(c: Config, s: State, w: nat)
    requires Safe(c, s) && w < |s.waves| && w in s.resident
    requires !s.waves[w].pc.Run? && !s.waves[w].pc.Publish?
    ensures Answered(s, w) <==> Answered(WaveStep(c, s, w), w)
  {
    assert TicketOk(s, w);
    assert SlotOk(s, s.waves[w].pc.pos % NSLOTS);
  }

  lemma PublishServed(c: Config, s: State, w: nat, q: nat)
    requires Safe(c, s) && w < |s.waves| && w in s.resident && s.waves[w].pc.Publish? && q < |s.owner|
    ensures Served(s, q) <==> Served(WaveStep(c, s, w), q)
  {
    assert TicketOk(s, w) && HeldAt(s, q);
    if s.owner[q] < |s.waves| { assert TicketOk(s, s.owner[q]); }
  }

  lemma KernelServed(c: Config, s: State, w: nat, q: nat)
    requires Safe(c, s) && w < |s.waves| && w in s.resident && s.waves[w].pc.Run?
    requires q < |WaveStep(c, s, w).owner|
    ensures if q < |s.owner| then Served(s, q) <==> Served(WaveStep(c, s, w), q) else !Served(WaveStep(c, s, w), q)
  {
    assert SlotOk(s, q % NSLOTS);
    if q < |s.owner| { assert HeldAt(s, q); }
  }

  lemma WaveOrdered(c: Config, s: State, w: nat)
    requires Safe(c, s) && Ordered(s) && w < |s.waves| && w in s.resident
    ensures Ordered(WaveStep(c, s, w))
  {
    var s' := WaveStep(c, s, w);
    forall q | 0 <= q < |s'.owner|
      ensures if q < |s.owner| then Served(s, q) <==> Served(s', q) else !Served(s', q)
    {
      if s.waves[w].pc.Run? { KernelServed(c, s, w, q); }
      else if s.waves[w].pc.Publish? { PublishServed(c, s, w, q); }
      else { InCallServed(c, s, w, q); }
    }
    OrderedFrame(s, s');
  }

  lemma StepOrdered(c: Config, s: State, a: Actor)
    requires Safe(c, s) && Ordered(s)
    ensures Ordered(Step(c, s, a))
  {
    match a
    case ACpu =>
      if s.cpu.Serve? {
        ServeOrdered(c, s);
      } else {
        var s' := CpuStep(c, s);
        OrderedFrame(s, s');
      }
    case AWave(w) => if w < |s.waves| && w in s.resident { WaveOrdered(c, s, w); }
    case AAdmit(w) => OrderedFrame(s, Step(c, s, a));
    case ARetire(w) => OrderedFrame(s, Step(c, s, a));
  }
}

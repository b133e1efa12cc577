/** Safety of the ideal ring (unbounded tickets): who owns a slot, and when. */
module RingSafety {
  import opened Bytes
  import opened Options
  import opened Abi
  import opened Host
  import opened Ring

  predicate Holds(wave: Wave) { !wave.pc.Run? }
  predicate Past(wave: Wave) { !wave.pc.Run? && !wave.pc.Gate? }

  /** The invariant of one wave's ticket and of the slot it maps to. */
  ghost predicate TicketOk(s: State, w: nat)
    requires |s.slots| == NSLOTS && w < |s.waves|
  {
    var pc := s.waves[w].pc;
    !pc.Run? ==>
      && w in s.resident
      && pc.pos < |s.owner| && s.owner[pc.pos] == w
      && s.slots[pc.pos % NSLOTS].turn <= pc.pos
      && (!pc.Gate? ==> s.slots[pc.pos % NSLOTS].turn == pc.pos && s.slots[pc.pos % NSLOTS].user == w &&
                        s.slots[pc.pos % NSLOTS].asked == pc.ask)
      && (pc.Fill? || pc.Load? || pc.Publish? ==> s.slots[pc.pos % NSLOTS].status == 0)
      && (pc.Wait? ==> s.slots[pc.pos % NSLOTS].status == 1 || s.slots[pc.pos % NSLOTS].status == 2)
      && (pc.Take? || pc.Clear? ==> s.slots[pc.pos % NSLOTS].status == 2)
      && (pc.Publish? ==> pc.t == pc.pos)
  }

  /** A ticket between its slot's turn and the cursor is held by the wave that drew it. */
  ghost predicate HeldAt(s: State, q: nat)
    requires |s.slots| == NSLOTS && q < |s.owner|
  {
    s.slots[q % NSLOTS].turn <= q ==>
      s.owner[q] < |s.waves| && Holds(s.waves[s.owner[q]]) && s.waves[s.owner[q]].pc.pos == q
  }

  /** A signalled slot is the one its turn's holder is waiting on. */
  ghost predicate SlotOk(s: State, i: nat)
    requires i < |s.slots|
  {
    var slot := s.slots[i];
    && slot.turn % NSLOTS == i && slot.turn < |s.owner| + NSLOTS
    && (slot.status == 0 || slot.status == 1 || slot.status == 2)
    && (slot.status != 0 ==>
         && slot.turn < |s.owner| && s.owner[slot.turn] < |s.waves|
         && var pc := s.waves[s.owner[slot.turn]].pc;
            (pc.Wait? || (slot.status == 2 && (pc.Take? || pc.Clear?))) && pc.pos == slot.turn)
  }

  ghost predicate Safe(c: Config, s: State) {
    && c.m == 0
    && Shape(c, s)
    && |s.owner| == s.next
    && (forall w :: 0 <= w < |s.waves| ==> TicketOk(s, w))
    && (forall q :: 0 <= q < s.next ==> HeldAt(s, q))
    && (forall i :: 0 <= i < NSLOTS ==> SlotOk(s, i))
    && (!s.cpu.Scan? ==> s.slots[s.cpu.i].status == 1)
    && (forall w :: w in s.resident ==> w < |s.waves|)
  }

  /** Two different waves past their gates are past the gates of different slots. */
  lemma GateExclusive(c: Config, s: State, v: nat, w: nat)
    requires Safe(c, s) && v < |s.waves| && w < |s.waves|
    requires Past(s.waves[v]) && Past(s.waves[w])
    ensures v != w ==> s.waves[v].pc.pos % NSLOTS != s.waves[w].pc.pos % NSLOTS
  {
    assert TicketOk(s, v) && TicketOk(s, w);
  }

  // Every step keeps Safe; one lemma per kind of step.

  /** The shared part of all wave steps: wave w moves to `x` and slot i of its ticket to `y`. */
  lemma SafeAfter(c: Config, s: State, s': State, w: nat, i: nat)
    requires Safe(c, s) && Shape(c, s') && w < |s.waves|
    requires s'.next == s.next && s'.owner == s.owner && s'.cpu == s.cpu && s'.resident == s.resident
    requires i < NSLOTS && |s'.slots| == NSLOTS && |s'.waves| == |s.waves|
    requires forall k :: 0 <= k < NSLOTS && k != i ==> s'.slots[k] == s.slots[k]
    requires forall v :: 0 <= v < |s.waves| && v != w ==> s'.waves[v] == s.waves[v]
    requires Holds(s.waves[w]) && s.waves[w].pc.pos % NSLOTS == i && s.slots[i].turn == s.waves[w].pc.pos
    requires Holds(s'.waves[w]) && s'.waves[w].pc.pos == s.waves[w].pc.pos && s'.slots[i].turn == s.slots[i].turn
    requires TicketOk(s', w) && SlotOk(s', i)
    requires !s.cpu.Scan? && s.cpu.i == i ==> s'.slots[i].status == 1
    ensures Safe(c, s')
  {
    forall v | 0 <= v < |s'.waves| ensures TicketOk(s', v) {
      assert TicketOk(s, v);
      assert TicketOk(s, w);
    }
    forall q | 0 <= q < s'.next ensures HeldAt(s', q) { assert HeldAt(s, q); }
    forall k | 0 <= k < NSLOTS ensures SlotOk(s', k) {
      assert SlotOk(s, k);
      assert TicketOk(s, w);
    }
  }

  lemma TakeTicketSafe(c: Config, s: State, w: nat, req: Request)
    requires Safe(c, s) && w < |s.waves| && s.waves[w].pc.Run? && w in s.resident
    ensures Safe(c, TakeTicket(c, s, w, req))
  {
    var s' := TakeTicket(c, s, w, req);
    assert SlotOk(s, s.next % NSLOTS);
    forall v | 0 <= v < |s'.waves| ensures TicketOk(s', v) { assert TicketOk(s, v); }
    forall q | 0 <= q < s'.next ensures HeldAt(s', q) {
      if q < s.next { assert HeldAt(s, q); }
    }
    forall i | 0 <= i < NSLOTS ensures SlotOk(s', i) { assert SlotOk(s, i); }
  }

  /** Steps that leave the tickets, the slots and every program counter alone keep Safe. */
  lemma SafeSame(c: Config, s: State, s': State)
    requires Safe(c, s) && Shape(c, s')
    requires s'.next == s.next && s'.owner == s.owner && s'.slots == s.slots && s'.cpu == s.cpu &&
             s'.resident == s.resident
    requires forall v :: 0 <= v < |s.waves| ==> s'.waves[v].pc == s.waves[v].pc
    ensures Safe(c, s')
  {
    forall v | 0 <= v < |s'.waves| ensures TicketOk(s', v) { assert TicketOk(s, v); }
    forall q | 0 <= q < s'.next ensures HeldAt(s', q) { assert HeldAt(s, q); }
    forall i | 0 <= i < NSLOTS ensures SlotOk(s', i) { assert SlotOk(s, i); }
  }

  lemma KernelStepSafe(c: Config, s: State, w: nat)
    requires Safe(c, s) && w < |s.waves| && s.waves[w].pc.Run? && w in s.resident
    ensures Safe(c, KernelStep(c, s, w))
  {
    var wave := s.waves[w];
    if wave.k < c.progs[w].len {
      match c.progs[w].act(wave.k, s.slices[w], wave.calls)
      case Local(_) => SafeSame(c, s, KernelStep(c, s, w));
      case Call(req) => TakeTicketSafe(c, s, w, req);
    }
  }

  lemma PublishStepSafe(c: Config, s: State, w: nat)
    requires Safe(c, s) && w < |s.waves| && s.waves[w].pc.Publish?
    ensures Safe(c, PublishStep(c, s, w))
  {
    var s' := PublishStep(c, s, w);
    var pos := s.waves[w].pc.pos;
    assert TicketOk(s, w);
    forall v | 0 <= v < |s'.waves| ensures TicketOk(s', v) {
      assert TicketOk(s, v);
    }
    forall q | 0 <= q < s'.next ensures HeldAt(s', q) { assert HeldAt(s, q); }
    forall i | 0 <= i < NSLOTS ensures SlotOk(s', i) { assert SlotOk(s, i); }
  }

  lemma EnterStepSafe(c: Config, s: State, w: nat)
    requires Safe(c, s) && w < |s.waves| && w in s.resident && (s.waves[w].pc.Gate? || s.waves[w].pc.Fill?)
    ensures Safe(c, WaveStep(c, s, w))
  {
    assert TicketOk(s, w);
    var pos := s.waves[w].pc.pos;
    assert SlotOk(s, pos % NSLOTS);
    if s.slots[pos % NSLOTS].turn == pos {
      SafeAfter(c, s, WaveStep(c, s, w), w, pos % NSLOTS);
    }
  }

  lemma LeaveStepSafe(c: Config, s: State, w: nat)
    requires Safe(c, s) && w < |s.waves| && w in s.resident && Past(s.waves[w])
    requires !s.waves[w].pc.Fill? && !s.waves[w].pc.Publish?
    ensures Safe(c, WaveStep(c, s, w))
  {
    assert TicketOk(s, w);
    assert SlotOk(s, s.waves[w].pc.pos % NSLOTS);
    SafeAfter(c, s, WaveStep(c, s, w), w, s.waves[w].pc.pos % NSLOTS);
  }

  lemma WaveStepSafe(c: Config, s: State, w: nat)
    requires Safe(c, s) && w < |s.waves|
    ensures Safe(c, WaveStep(c, s, w))
  {
    if w in s.resident {
      match s.waves[w].pc
      case Run => KernelStepSafe(c, s, w);
      case Publish(_, _, _, _) => PublishStepSafe(c, s, w);
      case Gate(_, _) => EnterStepSafe(c, s, w);
      case Fill(_, _, _, _) => EnterStepSafe(c, s, w);
      case _ => LeaveStepSafe(c, s, w);
    }
  }

  lemma CpuStepSafe(c: Config, s: State)
    requires Safe(c, s)
    ensures Safe(c, CpuStep(c, s))
  {
    var s' := CpuStep(c, s);
    forall v | 0 <= v < |s'.waves| ensures TicketOk(s', v) { assert TicketOk(s, v); }
    forall q | 0 <= q < s'.next ensures HeldAt(s', q) { assert HeldAt(s, q); }
    forall i | 0 <= i < NSLOTS ensures SlotOk(s', i) { assert SlotOk(s, i); }
  }

  lemma DispatchSafe(c: Config, s: State, w: nat)
    requires Safe(c, s) && w < |s.waves|
    ensures Safe(c, Admit(c, s, w)) && Safe(c, Retire(c, s, w))
  {
    var a, r := Admit(c, s, w), Retire(c, s, w);
    forall v | 0 <= v < |s.waves| ensures TicketOk(a, v) && TicketOk(r, v) { assert TicketOk(s, v); }
    forall q | 0 <= q < s.next ensures HeldAt(a, q) && HeldAt(r, q) { assert HeldAt(s, q); }
    forall i | 0 <= i < NSLOTS ensures SlotOk(a, i) && SlotOk(r, i) { assert SlotOk(s, i); }
  }

  lemma StepSafe(c: Config, s: State, a: Actor)
    requires Safe(c, s)
    ensures Safe(c, Step(c, s, a))
  {
    match a
    case ACpu => CpuStepSafe(c, s);
    case AWave(w) => if w < |s.waves| { WaveStepSafe(c, s, w); }
    case AAdmit(w) => if w < |s.waves| { DispatchSafe(c, s, w); }
    case ARetire(w) => if w < |s.waves| { DispatchSafe(c, s, w); }
  }
}

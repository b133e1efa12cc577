/** The main results on guard recovery: exactly when the effective guards describe EXEC, exactly when a
    close restores it, and code the stack machine misreads. */
module GuardSound {
  import opened Options
  import opened Sequences
  import opened Regions
  import opened RegionMeaning
  import opened ExecMask
  import opened MaskWitness

  // ---- the main results -------------------------------------------------------------------

  /** Over the whole function, for one lane: in EXEC at a listed instruction just when active on entry
      and the effective guard of the instruction's region holds. */
  ghost predicate Sound(b: seq<Stmt>, v: set<nat>, l: Lane) {
    var t, seen, active := BuildFrom(Start, EmitAll(b)), SeenBy(Start, EmitAll(b)), Active(v, l, EmitAll(b));
    && |seen| == |active|
    && forall i :: 0 <= i < |seen| ==>
         seen[i].region < |t.all| && active[i] == (l.exec && Eval(v, EffCond(t.all, seen[i].region)))
  }

  /** Every listed instruction is in a region of the finished tree that has the guard its text shows. */
  lemma WholeAnalyzed(b: seq<Stmt>)
    ensures Valid(Start) && Matches(BuildFrom(Start, EmitAll(b)).all, SeenBy(Start, EmitAll(b)), GuardsAll(b, []))
  {
    assert RegionOk(Start.all, 0);
    var t := BuildFrom(Start, EmitAll(b));
    AllKeeps(b, Start);
    AnalyzeAll(b, Start, t.all);
  }

  lemma SoundIfClear(b: seq<Stmt>, v: set<nat>, l: Lane)
    requires RegsOkAll(b, {}) && Clear(b, true)
    ensures Sound(b, v, l)
  {
    WholeAnalyzed(b);
    BlockFaithful(b, true, v, l, {}, l.exec, true, []);
  }

  lemma UnsoundIfNot(b: seq<Stmt>) returns (v: set<nat>, l: Lane)
    requires RegsOkAll(b, {}) && Distinct(EmitAll(b)) && !Clear(b, true)
    ensures !Sound(b, v, l)
  {
    WholeAnalyzed(b);
    l := Lane(true, map[]);
    v := Breaks(b, true, {}, l, {}, []);
    var active, gs := Active(v, l, EmitAll(b)), GuardsAll(b, []);
    var i :| 0 <= i < |active| && active[i] != Eval(v, gs[i]);
    assert EffCond(BuildFrom(Start, EmitAll(b)).all, SeenBy(Start, EmitAll(b))[i].region) == gs[i];
  }

  /** Guard recovery preserves meaning, for every lane, exactly when the code is clear. */
  lemma GuardsMatchExec(b: seq<Stmt>)
    requires RegsOkAll(b, {}) && Distinct(EmitAll(b))
    ensures (forall v: set<nat>, l: Lane :: Sound(b, v, l)) <==> Clear(b, true)
  {
    if Clear(b, true) {
      forall v: set<nat>, l: Lane ensures Sound(b, v, l) { SoundIfClear(b, v, l); }
    } else {
      var v, l := UnsoundIfNot(b);
      assert !Sound(b, v, l);
    }
  }

  /** A close restores EXEC in every lane exactly when the branch cannot lose one. */
  lemma CloseRestores(s: Stmt, used: set<nat>)
    requires s.Branch? && RegsOk(s, used) && Distinct(Emit(s))
    ensures (forall v: set<nat>, l: Lane :: RunLane(v, l, Emit(s)).exec == l.exec) <==> !Lossy(s)
  {
    forall v: set<nat>, l: Lane | !Lossy(s) ensures RunLane(v, l, Emit(s)).exec == l.exec { StmtRuns(s, v, l, used); }
    if Lossy(s) {
      var l := Lane(true, map[]);
      var w := Lose(s, {}, l, used);
      assert RunLane(w, l, Emit(s)).exec != l.exec;
    }
  }

  /** Code in which only first arms cut, and before anything listed in them. */
  predicate CutsLead(b: seq<Stmt>)
    decreases b
  {
    b == [] || (CutsLeadIn(b[0]) && CutsLead(b[1..]) && (Listed(Emit(b[0])) > 0 ==> Cuts(b[1..]) == []))
  }

  predicate CutsLeadIn(s: Stmt)
    decreases s
  {
    s.Branch? ==> CutsLead(s.hit) && (s.alt.Otherwise? ==> CutsLead(s.alt.arm) && Cuts(s.alt.arm) == [])
  }

  /** Such code is clear, whatever its nesting, and every close restores EXEC. */
  lemma {:induction false} LeadingCutsClear(b: seq<Stmt>, dropped: bool)
    requires CutsLead(b) && (dropped ==> Cuts(b) == [])
    ensures Clear(b, dropped) && !LossyAll(b)
    decreases b
  {
    if b != [] {
      assert Cuts(b) == CutsOf(b[0]) + Cuts(b[1..]);
      LeadingCutsClear(b[1..], dropped);
      LeadingCutsClearIn(b[0]);
    }
  }

  lemma {:induction false} LeadingCutsClearIn(s: Stmt)
    requires CutsLeadIn(s)
    ensures ClearStmt(s) && !Lossy(s)
    decreases s
  {
    if s.Branch? {
      LeadingCutsClear(s.hit, false);
      if s.alt.Otherwise? { LeadingCutsClear(s.alt.arm, true); }
    }
  }

  // Three programs that are not clear, and a lane the guards are wrong about.

  lemma Wrong(b: seq<Stmt>, v: set<nat>, l: Lane, i: nat)
    requires |GuardsAll(b, [])| == |Active(v, l, EmitAll(b))| && i < |GuardsAll(b, [])|
    requires Active(v, l, EmitAll(b))[i] != (l.exec && Eval(v, GuardsAll(b, [])[i]))
    ensures !Sound(b, v, l)
  {
    WholeAnalyzed(b);
    assert EffCond(BuildFrom(Start, EmitAll(b)).all, SeenBy(Start, EmitAll(b))[i].region) == GuardsAll(b, [])[i];
  }

  lemma BlockOfOne(s: Stmt, g: Guard)
    ensures EmitAll([s]) == Emit(s) && GuardsAll([s], g) == GuardsOf(s, g)
  {
    assert [s][1..] == [];
  }

  lemma BlockOfTwo(s: Stmt, r: Stmt, g: Guard)
    ensures EmitAll([s, r]) == Emit(s) + Emit(r) && GuardsAll([s, r], g) == GuardsOf(s, g) + GuardsOf(r, g)
    ensures Cuts([s, r]) == CutsOf(s) + CutsOf(r)
  {
    BlockOfOne(r, g);
    assert [s, r][1..] == [r] && [r][1..] == [];
    assert Cuts([r]) == CutsOf(r) + Cuts([]);
  }

  /** `if (A && B)` with a call under A alone: the guard of the call shows both. */
  lemma CallThenCutWrong(reg: nat, a: nat, c: nat, addr: nat, end: nat, l: Lane)
    requires a != c && l.exec
    ensures !Sound([Branch(reg, a, addr, 0, [Do(addr, true), Cut(c)], NoElse, end)], {a}, l)
  {
    var call, cut := Do(addr, true), Cut(c);
    var s, v := Branch(reg, a, addr, 0, [call, cut], NoElse, end), {a};
    BlockOfOne(s, []);
    BlockOfTwo(call, cut, [] + Conj(a, Cuts(s.hit)));
    ConjIs(v, [], a, Cuts(s.hit));
    assert c in Cuts(s.hit);
    BranchRun(s, v, l);
    var l1 := LaneStep(v, l, OpenOf(s));
    RunOne(v, l1, Work(addr, true));
    RunConcat(v, l1, Emit(call), Emit(cut));
    GuardCount([s], []);
    Wrong([s], v, l, 0);
  }

  /** A cut at the head of an else arm: its guard does not show it. */
  lemma CutInElseWrong(reg: nat, a: nat, c: nat, xor: bool, addr: nat, end: nat, l: Lane)
    requires l.exec
    ensures !Sound([Branch(reg, a, addr, 0, [], Otherwise(xor, addr, [Cut(c), Do(addr, true)]), end)], {}, l)
  {
    var arm, v: set<nat> := [Cut(c), Do(addr, true)], {};
    var s := Branch(reg, a, addr, 0, [], Otherwise(xor, addr, arm), end);
    BlockOfOne(s, []);
    BlockOfTwo(Cut(c), Do(addr, true), [] + [Not(Conj(a, Cuts(s.hit)))]);
    ConjIs(v, [], a, Cuts(s.hit));
    BranchRun(s, v, l);
    assert arm[1..] == [Do(addr, true)] && arm[1..][1..] == [];
    assert RegsOkAll(arm[1..], {} + {reg});
    SwitchRuns(s, v, l, {});
    CutThenCall(c, addr, v, SwitchLane(v, l, s));
    GuardCount([s], []);
    Wrong([s], v, l, 0);
  }

  lemma CutThenCall(c: nat, addr: nat, v: set<nat>, l: Lane)
    requires c !in v
    ensures Active(v, l, EmitAll([Cut(c), Do(addr, true)])) == [false]
  {
    BlockOfTwo(Cut(c), Do(addr, true), []);
    RunConcat(v, l, [Narrow(c)], [Work(addr, true)]);
    RunOne(v, l, Narrow(c));
    RunOne(v, LaneStep(v, l, Narrow(c)), Work(addr, true));
  }

  /** The same by a flip, with the call after the close: neither arm has the lane any more. */
  lemma CallAfterLossWrong(reg: nat, a: nat, c: nat, addr: nat, end: nat, l: Lane)
    requires l.exec
    ensures !Sound([Branch(reg, a, addr, 0, [], Otherwise(false, addr, [Cut(c)]), end), Do(end, true)], {}, l)
  {
    var call, v: set<nat> := Do(end, true), {};
    var s := Branch(reg, a, addr, 0, [], Otherwise(false, addr, [Cut(c)]), end);
    BlockOfTwo(s, call, []);
    BlockOfOne(Cut(c), []);
    RunConcat(v, l, Emit(s), Emit(call));
    RunOne(v, SwitchLane(v, l, s), Narrow(c));
    HitRuns(s, v, l, {});
    AltRuns(s, v, l, {});
    LoseDone(s, v, l, {});
    RunOne(v, RunLane(v, l, Emit(s)), Work(end, true));
    ListedStmt(s);
    GuardCountOf(s, []);
    GuardCount([s, call], []);
    Wrong([s, call], v, l, 0);
  }

  // ---- code the stack machine misreads ----------------------------------------------------

  /** s_or_saveexec then s_xor exec, the two-instruction else. */
  function TwoStep(save: nat): seq<Op> { [OrSave(save, 1), Xor(save, 2)] }

  lemma BuildTwo(t: Tree, a: Op, b: Op)
    requires Valid(t) && Valid(Step(t, a))
    ensures BuildFrom(t, [a, b]) == Step(Step(t, a), b)
  {
    BuildOne(t, a);
    BuildOne(Step(t, a), b);
    BuildConcat(t, [a], [b]);
    assert [a] + [b] == [a, b];
  }

  lemma TwoStepTree(t: Tree, reg: nat)
    requires Valid(t) && Top(t) != 0
    ensures var t' := BuildFrom(t, TwoStep(reg)); LocalGuard(t'.all, Top(t')) == [Not([Not(LocalGuard(t.all, Top(t)))])]
  {
    SiblingGuard(t, 1);
    SiblingGuard(Sibling(t, 1, true), 2);
    BuildTwo(t, OrSave(reg, 1), Xor(reg, 2));
  }

  lemma TwoStepLane(v: set<nat>, l: Lane, reg: nat)
    requires Saved(l, reg)
    ensures RunLane(v, l, TwoStep(reg)).exec == !l.exec
  {
    var a, b := OrSave(reg, 1), Xor(reg, 2);
    RunOne(v, l, a);
    RunOne(v, LaneStep(v, l, a), b);
    RunConcat(v, l, [a], [b]);
    assert [a] + [b] == TwoStep(reg);
  }

  /** The analysis makes two else regions of it, the second the complement of the first, so the guard
      it shows is the opposite of the lanes that run. */
  lemma TwoStepElse(t: Tree, v: set<nat>, l: Lane, reg: nat)
    requires Valid(t) && Top(t) != 0 && Saved(l, reg) && Eval(v, LocalGuard(t.all, Top(t))) == l.exec
    ensures var t', l' := BuildFrom(t, TwoStep(reg)), RunLane(v, l, TwoStep(reg));
            Eval(v, LocalGuard(t'.all, Top(t'))) == !l'.exec
  {
    TwoStepTree(t, reg);
    TwoStepLane(v, l, reg);
    var g := LocalGuard(t.all, Top(t));
    EvalOne(v, Not(g));
    EvalOne(v, Not([Not(g)]));
  }

  lemma SiblingGuard(t: Tree, addr: nat)
    requires Valid(t) && Top(t) != 0
    ensures var t' := Sibling(t, addr, true);
            Valid(t') && Top(t') == |t.all| && LocalGuard(t'.all, |t.all|) == [Not(LocalGuard(t.all, Top(t)))]
  {
    StepValid(t, Flip(0, addr));
    var t' := Sibling(t, addr, true);
    assert RegionOk(t.all, Top(t));
    forall r | 0 <= r < |t.all| ensures SameGuard(t.all, t'.all, r) { }
    LocalGuardKept(t.all, t'.all, Top(t));
  }

  /** Else regions have no reconvergence address, and the stack is in creation order. */
  ghost predicate Tidy(t: Tree) {
    && Valid(t) && (forall r :: 0 <= r < |t.all| && t.all[r].kind == Else ==> t.all[r].reconverge == 0)
    && (forall i, j :: 0 <= i < j < |t.stack| ==> t.stack[i] < t.stack[j])
  }

  lemma StepTidy(t: Tree, op: Op)
    requires Tidy(t)
    ensures Tidy(Step(t, op))
  {
    StepValid(t, op);
    assert RegionOk(t.all, Top(t));
  }

  /** A region off the stack keeps its flag. */
  lemma {:induction false} FlagKept(t: Tree, ops: seq<Op>, r: nat)
    requires Tidy(t) && r < |t.all| && r !in t.stack
    ensures Tidy(BuildFrom(t, ops)) && r < |BuildFrom(t, ops).all|
    ensures BuildFrom(t, ops).all[r].balanced == t.all[r].balanced
    decreases |ops|
  {
    if ops != [] {
      StepTidy(t, ops[0]);
      assert RegionOk(t.all, Top(t));
      FlagKept(Step(t, ops[0]), ops[1..], r);
    }
  }

  lemma {:induction false} RunTidy(t: Tree, ops: seq<Op>)
    requires Tidy(t)
    ensures Tidy(BuildFrom(t, ops))
    decreases |ops|
  {
    if ops != [] {
      StepTidy(t, ops[0]);
      RunTidy(Step(t, ops[0]), ops[1..]);
    }
  }

  /** In every function: an else or reroute region that a close takes off the stack is regular from then
      on, whatever a reroute marked it as and whatever follows. */
  lemma RerouteFlagLost(before: seq<Op>, reg: nat, addr: nat, after: seq<Op>)
    requires var t := BuildFrom(Start, before); |t.stack| > 1 && t.all[Top(t)].kind == Else
    ensures var t, t' := BuildFrom(Start, before), BuildFrom(Start, before + [Close(reg, addr)] + after);
            Top(t) < |t'.all| && t'.all[Top(t)].balanced
  {
    var t, close := BuildFrom(Start, before), Close(reg, addr);
    RunTidy(Start, before);
    StepTidy(t, close);
    BuildConcat(Start, before, [close] + after);
    BuildHead(t, close, after);
    Regroup(before, [close], after);
    FlagKept(Step(t, close), after, Top(t));
  }
}

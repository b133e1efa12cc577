/** Guards that misdescribe EXEC: for code that is not clear, conditions under which some lane is wrongly
    admitted or wrongly denied at a listed instruction. */
module MaskWitness {
  import opened Options
  import opened Sequences
  import opened Regions
  import opened RegionMeaning
  import opened ExecMask

  // ---- what conditions code tests ---------------------------------------------------------

  function Members(ns: seq<nat>): set<nat> { set a | a in ns }

  function AtomsOf(g: Guard): set<nat>
    decreases g
  {
    if g == [] then {} else AtomsOf(g[..|g| - 1]) + AtomsOfTerm(g[|g| - 1])
  }

  function AtomsOfTerm(t: Term): set<nat>
    decreases t
  {
    match t
    case Atom(a) => {a}
    case Not(g) => AtomsOf(g)
  }

  lemma {:induction false} EvalAgree(v: set<nat>, w: set<nat>, g: Guard)
    requires forall a :: a in AtomsOf(g) ==> (a in v <==> a in w)
    ensures Eval(v, g) == Eval(w, g)
    decreases g
  {
    if g != [] {
      EvalAgree(v, w, g[..|g| - 1]);
      var t := g[|g| - 1];
      assert AtomsOfTerm(t) <= AtomsOf(g);
      match t
      case Atom(_) =>
      case Not(h) => EvalAgree(v, w, h);
    }
  }

  lemma {:induction false} AtomsConcat(a: Guard, b: Guard)
    ensures AtomsOf(a + b) == AtomsOf(a) + AtomsOf(b)
    decreases |b|
  {
    if b == [] {
      assert a + b == a;
    } else {
      assert (a + b)[..|a + b| - 1] == a + b[..|b| - 1];
      AtomsConcat(a, b[..|b| - 1]);
    }
  }

  lemma {:induction false} AtomsAre(ns: seq<nat>)
    ensures AtomsOf(Atoms(ns)) == Members(ns)
  {
    if ns != [] {
      var init, c := ns[..|ns| - 1], ns[|ns| - 1];
      AtomsAre(init);
      assert Atoms(ns)[..|ns| - 1] == Atoms(init);
      assert Members(ns) == Members(init) + {c};
    }
  }

  predicate Tests(op: Op) { op.Open? || op.Narrow? }

  function Conds(ops: seq<Op>): set<nat> { set op | op in ops && Tests(op) :: op.cond }

  /** Different instructions test different conditions. */
  ghost predicate Distinct(ops: seq<Op>) {
    forall i, j :: 0 <= i < j < |ops| && Tests(ops[i]) && Tests(ops[j]) ==> ops[i].cond != ops[j].cond
  }

  lemma DistinctConcat(a: seq<Op>, b: seq<Op>)
    ensures Conds(a + b) == Conds(a) + Conds(b)
    ensures Distinct(a + b) ==> Distinct(a) && Distinct(b) && Conds(a) !! Conds(b)
  {
    if Distinct(a + b) {
      forall i, j | 0 <= i < j < |a| && Tests(a[i]) && Tests(a[j]) ensures a[i].cond != a[j].cond {
        assert (a + b)[i] == a[i] && (a + b)[j] == a[j];
      }
      forall i, j | 0 <= i < j < |b| && Tests(b[i]) && Tests(b[j]) ensures b[i].cond != b[j].cond {
        assert (a + b)[|a| + i] == b[i] && (a + b)[|a| + j] == b[j];
      }
      forall i, j | 0 <= i < |a| && 0 <= j < |b| && Tests(a[i]) && Tests(b[j]) ensures a[i].cond != b[j].cond {
        assert (a + b)[i] == a[i] && (a + b)[|a| + j] == b[j];
      }
    }
  }

  /** The conditions a block's branches test, its own cuts left out. */
  function Inner(b: seq<Stmt>): set<nat> {
    if b == [] then {} else (if b[0].Branch? then Conds(Emit(b[0])) else {}) + Inner(b[1..])
  }

  lemma {:induction false} InnerIs(b: seq<Stmt>)
    ensures Conds(EmitAll(b)) == Inner(b) + Members(Cuts(b))
    ensures Distinct(EmitAll(b)) ==> Inner(b) !! Members(Cuts(b))
    decreases b
  {
    if b != [] {
      InnerIs(b[1..]);
      DistinctConcat(Emit(b[0]), EmitAll(b[1..]));
      assert Members(Cuts(b)) == Members(CutsOf(b[0])) + Members(Cuts(b[1..]));
      if b[0].Cut? { assert Conds(Emit(b[0])) == Members(CutsOf(b[0])); }
      if b[0].Do? { assert Conds(Emit(b[0])) == {}; }
    }
  }

  /** The conditions of a branch: its own, and those of the two arms. */
  lemma BranchConds(s: Stmt)
    requires s.Branch?
    ensures Conds([OpenOf(s)] + EmitAll(s.hit)) == {s.cond} + Conds(EmitAll(s.hit))
    ensures Conds(Emit(s)) ==
            {s.cond} + Conds(EmitAll(s.hit)) + if s.alt.Otherwise? then Conds(EmitAll(s.alt.arm)) else {}
    ensures Distinct(Emit(s)) ==>
              && s.cond !in Conds(EmitAll(s.hit)) && Distinct(EmitAll(s.hit))
              && (s.alt.Otherwise? ==>
                    && s.cond !in Conds(EmitAll(s.alt.arm)) && Conds(EmitAll(s.hit)) !! Conds(EmitAll(s.alt.arm))
                    && Distinct(EmitAll(s.alt.arm)))
  {
    var first, alt := [OpenOf(s)] + EmitAll(s.hit), EmitAlt(s.reg, s.alt);
    OpenConds(s);
    AltConds(s.reg, s.alt);
    DistinctConcat(first, alt);
    DistinctConcat(first + alt, [Close(s.reg, s.end)]);
  }

  lemma OpenConds(s: Stmt)
    requires s.Branch?
    ensures var first := [OpenOf(s)] + EmitAll(s.hit);
            && Conds(first) == {s.cond} + Conds(EmitAll(s.hit))
            && (Distinct(first) ==> s.cond !in Conds(EmitAll(s.hit)) && Distinct(EmitAll(s.hit)))
  {
    DistinctConcat([OpenOf(s)], EmitAll(s.hit));
    assert Conds([OpenOf(s)]) == {s.cond} by { assert OpenOf(s) in [OpenOf(s)]; }
  }

  lemma AltConds(reg: nat, alt: Alt)
    ensures Conds(EmitAlt(reg, alt)) == if alt.Otherwise? then Conds(EmitAll(alt.arm)) else {}
    ensures alt.Otherwise? && Distinct(EmitAlt(reg, alt)) ==> Distinct(EmitAll(alt.arm))
  {
    if alt.Otherwise? { DistinctConcat([SwitchOf(reg, alt)], EmitAll(alt.arm)); }
  }

  /** `w` is `v` with some of the conditions in `c` changed. */
  ghost predicate OnlyOn(v: set<nat>, w: set<nat>, c: set<nat>) { forall a :: a !in c ==> (a in v <==> a in w) }

  lemma {:induction false} RunAgree(v: set<nat>, w: set<nat>, l: Lane, ops: seq<Op>, c: set<nat>)
    requires OnlyOn(v, w, c) && c !! Conds(ops)
    ensures RunLane(v, l, ops) == RunLane(w, l, ops) && Active(v, l, ops) == Active(w, l, ops)
    decreases |ops|
  {
    if ops != [] {
      DistinctConcat([ops[0]], ops[1..]);
      assert [ops[0]] + ops[1..] == ops;
      assert Tests(ops[0]) ==> ops[0].cond in Conds(ops);
      RunAgree(v, w, LaneStep(v, l, ops[0]), ops[1..], c);
    }
  }

  ghost predicate SomeGuard(v: set<nat>, gs: seq<Guard>) { exists i :: 0 <= i < |gs| && Eval(v, gs[i]) }
  ghost predicate SomeActive(active: seq<bool>) { exists i :: 0 <= i < |active| && active[i] }

  lemma SomeConcat(v: set<nat>, gs: seq<Guard>, hs: seq<Guard>)
    ensures SomeGuard(v, gs + hs) <==> SomeGuard(v, gs) || SomeGuard(v, hs)
  {
    if i :| 0 <= i < |gs| && Eval(v, gs[i]) { assert (gs + hs)[i] == gs[i]; }
    if i :| 0 <= i < |hs| && Eval(v, hs[i]) { assert (gs + hs)[|gs| + i] == hs[i]; }
  }

  lemma ActiveConcat(a: seq<bool>, b: seq<bool>)
    ensures SomeActive(a + b) <==> SomeActive(a) || SomeActive(b)
  {
    if i :| 0 <= i < |a| && a[i] { assert (a + b)[i] == a[i]; }
    if i :| 0 <= i < |b| && b[i] { assert (a + b)[|a| + i] == b[i]; }
  }

  /** A lane outside EXEC stays out. */
  lemma {:induction false} Dead(b: seq<Stmt>, v: set<nat>, l: Lane, used: set<nat>)
    requires RegsOkAll(b, used) && !l.exec
    ensures !SomeActive(Active(v, l, EmitAll(b)))
    decreases b
  {
    if b != [] {
      var l1 := RunLane(v, l, Emit(b[0]));
      RunConcat(v, l, Emit(b[0]), EmitAll(b[1..]));
      StmtRuns(b[0], v, l, used);
      if b[0].Branch? { DeadBranch(b[0], v, l, used); } else { RunOne(v, l, Emit(b[0])[0]); }
      Dead(b[1..], v, l1, used);
      ActiveConcat(Active(v, l, Emit(b[0])), Active(v, l1, EmitAll(b[1..])));
    }
  }

  lemma {:induction false} DeadBranch(s: Stmt, v: set<nat>, l: Lane, used: set<nat>)
    requires s.Branch? && RegsOk(s, used) && !l.exec
    ensures !SomeActive(Active(v, l, Emit(s)))
    decreases s
  {
    BranchRun(s, v, l);
    Dead(s.hit, v, LaneStep(v, l, OpenOf(s)), used + {s.reg});
    if s.alt.Otherwise? {
      AltRuns(s, v, l, used);
      Dead(s.alt.arm, v, SwitchLane(v, l, s), used + {s.reg});
    }
    ActiveConcat(Active(v, l, [OpenOf(s)] + EmitAll(s.hit)), Active(v, HitLane(v, l, s), EmitAlt(s.reg, s.alt)));
  }

  /** A guard that fails fails all the way down. */
  lemma {:induction false} GuardsFail(b: seq<Stmt>, v: set<nat>, g: Guard)
    requires !Eval(v, g)
    ensures !SomeGuard(v, GuardsAll(b, g))
    decreases b
  {
    if b != [] {
      GuardsFailIn(b[0], v, g);
      GuardsFail(b[1..], v, g);
      SomeConcat(v, GuardsOf(b[0], g), GuardsAll(b[1..], g));
    }
  }

  lemma {:induction false} GuardsFailIn(s: Stmt, v: set<nat>, g: Guard)
    requires !Eval(v, g)
    ensures !SomeGuard(v, GuardsOf(s, g))
    decreases s
  {
    if s.Branch? {
      var h := Conj(s.cond, Cuts(s.hit));
      ConjIs(v, g, s.cond, Cuts(s.hit));
      GuardsFail(s.hit, v, g + h);
      if s.alt.Otherwise? { GuardsFail(s.alt.arm, v, g + [Not(h)]); }
      SomeConcat(v, GuardsAll(s.hit, g + h), GuardsAlt(s.alt, g + [Not(h)]));
    }
  }

  // Conditions that steer a lane. Each lemma returns `w`, which is `v` but for what the code tests.

  /** The guard of a listed instruction can be made to hold. */
  lemma {:induction false} ReachGuard(b: seq<Stmt>, v: set<nat>, g: Guard) returns (w: set<nat>)
    requires Listed(EmitAll(b)) > 0 && Distinct(EmitAll(b)) && Eval(v, g) && AtomsOf(g) !! Inner(b)
    ensures OnlyOn(v, w, Inner(b)) && SomeGuard(w, GuardsAll(b, g))
    decreases b
  {
    var s, rest := b[0], b[1..];
    ListedConcat(Emit(s), EmitAll(rest));
    DistinctConcat(Emit(s), EmitAll(rest));
    if Listed(Emit(s)) > 0 {
      if s.Branch? {
        w := ReachGuardIn(s, v, g);
      } else {
        w := v;
        assert GuardsOf(s, g)[0] == g;
      }
    } else {
      w := ReachGuard(rest, v, g);
    }
    SomeConcat(w, GuardsOf(s, g), GuardsAll(rest, g));
  }

  lemma {:induction false} ReachGuardIn(s: Stmt, v: set<nat>, g: Guard) returns (w: set<nat>)
    requires s.Branch? && Listed(Emit(s)) > 0 && Distinct(Emit(s)) && Eval(v, g) && AtomsOf(g) !! Conds(Emit(s))
    ensures OnlyOn(v, w, Conds(Emit(s))) && SomeGuard(w, GuardsOf(s, g))
    decreases s
  {
    var cuts := Cuts(s.hit);
    var h := Conj(s.cond, cuts);
    BranchConds(s);
    ListedStmt(s);
    InnerIs(s.hit);
    ConjAtoms(g, s.cond, cuts);
    if Listed(EmitAll(s.hit)) > 0 {
      var v1 := v + {s.cond} + Members(cuts);
      EvalAgree(v, v1, g);
      ConjIs(v1, g, s.cond, cuts);
      w := ReachGuard(s.hit, v1, g + h);
    } else {
      var v1 := v - {s.cond};
      EvalAgree(v, v1, g);
      ConjIs(v1, g, s.cond, cuts);
      InnerIs(s.alt.arm);
      w := ReachGuard(s.alt.arm, v1, g + [Not(h)]);
    }
    SomeConcat(w, GuardsAll(s.hit, g + h), GuardsAlt(s.alt, g + [Not(h)]));
  }

  lemma ConjAtoms(g: Guard, cond: nat, ns: seq<nat>)
    ensures AtomsOf(g + Conj(cond, ns)) == AtomsOf(g) + {cond} + Members(ns)
    ensures AtomsOf(g + [Not(Conj(cond, ns))]) == AtomsOf(g) + {cond} + Members(ns)
  {
    AtomsConcat(g, Conj(cond, ns));
    AtomsConcat([Atom(cond)], Atoms(ns));
    AtomsAre(ns);
    assert [Atom(cond)][..0] == [];
    AtomsConcat(g, [Not(Conj(cond, ns))]);
    assert [Not(Conj(cond, ns))][..0] == [];
  }

  /** A lane that passes every test, nested ones included, comes back. */
  lemma {:induction false} KeepAll(b: seq<Stmt>, v: set<nat>, l: Lane, used: set<nat>)
    requires RegsOkAll(b, used) && Conds(EmitAll(b)) <= v
    ensures RunLane(v, l, EmitAll(b)).exec == l.exec
    decreases b
  {
    if b != [] {
      RunConcat(v, l, Emit(b[0]), EmitAll(b[1..]));
      DistinctConcat(Emit(b[0]), EmitAll(b[1..]));
      Keep(b[0], v, l, used);
      KeepAll(b[1..], v, RunLane(v, l, Emit(b[0])), used);
    }
  }

  lemma {:induction false} Keep(s: Stmt, v: set<nat>, l: Lane, used: set<nat>)
    requires RegsOk(s, used) && Conds(Emit(s)) <= v
    ensures RunLane(v, l, Emit(s)).exec == l.exec
    decreases s
  {
    if s.Branch? {
      BranchConds(s);
      BranchRun(s, v, l);
      HitRuns(s, v, l, used);
      RunOne(v, l, OpenOf(s));
      RunConcat(v, l, [OpenOf(s)], EmitAll(s.hit));
      KeepAll(s.hit, v, LaneStep(v, l, OpenOf(s)), used + {s.reg});
      if s.alt.Otherwise? { AltRuns(s, v, l, used); }
    } else {
      var op := Emit(s)[0];
      RunOne(v, l, op);
      assert op in Emit(s);
    }
  }

  /** Conditions that bring a lane past a statement whose cut, if it is one, it passes. */
  lemma PastHead(s: Stmt, v: set<nat>, l: Lane, used: set<nat>) returns (v1: set<nat>)
    requires RegsOk(s, used) && l.exec && (s.Cut? ==> s.cond in v)
    ensures v <= v1 && OnlyOn(v, v1, if s.Branch? then Conds(Emit(s)) else {}) && RunLane(v1, l, Emit(s)).exec
  {
    v1 := if s.Branch? then v + Conds(Emit(s)) else v;
    if s.Branch? { Keep(s, v1, l, used); } else { RunOne(v1, l, Emit(s)[0]); }
  }

  /** A lane in EXEC that passes the block's own cuts can be brought to a listed instruction. */
  lemma {:induction false} Reach(b: seq<Stmt>, v: set<nat>, l: Lane, used: set<nat>) returns (w: set<nat>)
    requires Listed(EmitAll(b)) > 0 && Distinct(EmitAll(b)) && RegsOkAll(b, used) && l.exec && Pass(v, Cuts(b))
    ensures OnlyOn(v, w, Inner(b)) && SomeActive(Active(w, l, EmitAll(b)))
    decreases b
  {
    var s, rest := b[0], b[1..];
    ListedConcat(Emit(s), EmitAll(rest));
    DistinctConcat(Emit(s), EmitAll(rest));
    InnerIs(rest);
    InnerIs(b);
    if Listed(Emit(s)) > 0 {
      if s.Branch? {
        w := ReachIn(s, v, l, used);
      } else {
        w := v;
        RunOne(v, l, Emit(s)[0]);
        assert Active(w, l, Emit(s))[0];
      }
    } else {
      var v1 := PastHead(s, v, l, used);
      w := Reach(rest, v1, RunLane(v1, l, Emit(s)), used);
      RunAgree(v1, w, l, Emit(s), Inner(rest));
    }
    RunConcat(w, l, Emit(s), EmitAll(rest));
    ActiveConcat(Active(w, l, Emit(s)), Active(w, RunLane(w, l, Emit(s)), EmitAll(rest)));
  }

  lemma {:induction false} ReachIn(s: Stmt, v: set<nat>, l: Lane, used: set<nat>) returns (w: set<nat>)
    requires s.Branch? && Listed(Emit(s)) > 0 && Distinct(Emit(s)) && RegsOk(s, used) && l.exec
    ensures OnlyOn(v, w, Conds(Emit(s))) && SomeActive(Active(w, l, Emit(s)))
    decreases s
  {
    BranchConds(s);
    ListedStmt(s);
    InnerIs(s.hit);
    if Listed(EmitAll(s.hit)) > 0 {
      var v1 := v + {s.cond} + Members(Cuts(s.hit));
      w := Reach(s.hit, v1, LaneStep(v1, l, OpenOf(s)), used + {s.reg});
      assert LaneStep(w, l, OpenOf(s)) == LaneStep(v1, l, OpenOf(s));
      BranchRun(s, w, l);
    } else {
      HitRuns(s, v - {s.cond}, l, used);
      w := ReachElse(s, v - {s.cond}, l, used);
      BranchRun(s, w, l);
    }
    ActiveConcat(Active(w, l, [OpenOf(s)] + EmitAll(s.hit)), Active(w, HitLane(w, l, s), EmitAlt(s.reg, s.alt)));
  }

  /** The same in the else arm, for a lane that the first arm does not keep. */
  lemma {:induction false} ReachElse(s: Stmt, v: set<nat>, l: Lane, used: set<nat>) returns (w: set<nat>)
    requires s.Branch? && s.alt.Otherwise? && Listed(EmitAll(s.alt.arm)) > 0 && Distinct(Emit(s)) && RegsOk(s, used)
    requires l.exec && !HitLane(v, l, s).exec
    ensures OnlyOn(v, w, Conds(EmitAll(s.alt.arm)))
    ensures SomeActive(Active(w, HitLane(w, l, s), EmitAlt(s.reg, s.alt))) && HitLane(w, l, s) == HitLane(v, l, s)
    decreases s, 0
  {
    var arm, first := s.alt.arm, [OpenOf(s)] + EmitAll(s.hit);
    var v1 := v + Members(Cuts(arm));
    BranchConds(s);
    InnerIs(arm);
    RunAgree(v, v1, l, first, Conds(EmitAll(arm)));
    AltRuns(s, v1, l, used);
    w := Reach(arm, v1, SwitchLane(v1, l, s), used + {s.reg});
    RunAgree(v1, w, l, first, Inner(arm));
    AltRuns(s, w, l, used);
  }

  /** A branch that can lose a lane does. */
  lemma {:induction false} Lose(s: Stmt, v: set<nat>, l: Lane, used: set<nat>) returns (w: set<nat>)
    requires Lossy(s) && Distinct(Emit(s)) && RegsOk(s, used)
    ensures OnlyOn(v, w, Conds(Emit(s))) && !RunLane(w, l, Emit(s)).exec
    decreases s
  {
    var arm, first, v1 := s.alt.arm, [OpenOf(s)] + EmitAll(s.hit), v - {s.cond};
    BranchConds(s);
    InnerIs(arm);
    if Cuts(arm) != [] {
      w := v1 - {Cuts(arm)[0]};
      assert Cuts(arm)[0] in Members(Cuts(arm));
    } else {
      w := LoseAll(arm, v1, SwitchLane(v1, l, s), used + {s.reg});
      RunAgree(v1, w, l, first, Inner(arm));
    }
    AltRuns(s, w, l, used);
    LoseDone(s, w, l, used);
  }

  lemma LoseDone(s: Stmt, v: set<nat>, l: Lane, used: set<nat>)
    requires s.Branch? && s.alt.Otherwise? && !s.alt.xor && RegsOk(s, used)
    requires s.cond !in v && !AltLane(v, l, s).exec
    ensures !RunLane(v, l, Emit(s)).exec
  {
    BranchRun(s, v, l);
    HitRuns(s, v, l, used);
    AltRuns(s, v, l, used);
  }

  lemma {:induction false} LoseAll(b: seq<Stmt>, v: set<nat>, l: Lane, used: set<nat>) returns (w: set<nat>)
    requires LossyAll(b) && Distinct(EmitAll(b)) && RegsOkAll(b, used)
    ensures OnlyOn(v, w, Inner(b)) && !RunLane(w, l, EmitAll(b)).exec
    decreases b
  {
    var s, rest := b[0], b[1..];
    DistinctConcat(Emit(s), EmitAll(rest));
    InnerIs(rest);
    if Lossy(s) {
      w := Lose(s, v, l, used);
    } else {
      w := LoseAll(rest, v, RunLane(v, l, Emit(s)), used);
      RunAgree(v, w, l, Emit(s), Inner(rest));
    }
    RunConcat(w, l, Emit(s), EmitAll(rest));
    AllRuns(rest, w, RunLane(w, l, Emit(s)), used);
  }

  /** At some listed instruction the guard is wrong about the lane. */
  ghost predicate Refuted(v: set<nat>, active: seq<bool>, gs: seq<Guard>) {
    |active| == |gs| && exists i :: 0 <= i < |active| && active[i] != Eval(v, gs[i])
  }

  lemma RefutedConcat(v: set<nat>, a: seq<bool>, b: seq<bool>, gs: seq<Guard>, hs: seq<Guard>)
    requires |a| == |gs| && |b| == |hs| && (Refuted(v, a, gs) || Refuted(v, b, hs))
    ensures Refuted(v, a + b, gs + hs)
  {
    if i :| 0 <= i < |a| && a[i] != Eval(v, gs[i]) {
      assert (a + b)[i] == a[i] && (gs + hs)[i] == gs[i];
    } else {
      var i :| 0 <= i < |b| && b[i] != Eval(v, hs[i]);
      assert (a + b)[|a| + i] == b[i] && (gs + hs)[|a| + i] == hs[i];
    }
  }

  lemma BlockRefuted(b: seq<Stmt>, w: set<nat>, l: Lane, g: Guard)
    requires b != []
    requires var l1 := RunLane(w, l, Emit(b[0]));
             || Refuted(w, Active(w, l, Emit(b[0])), GuardsOf(b[0], g))
             || Refuted(w, Active(w, l1, EmitAll(b[1..])), GuardsAll(b[1..], g))
    ensures Refuted(w, Active(w, l, EmitAll(b)), GuardsAll(b, g))
  {
    RunConcat(w, l, Emit(b[0]), EmitAll(b[1..]));
    GuardCountOf(b[0], g);
    GuardCount(b[1..], g);
    RefutedConcat(w, Active(w, l, Emit(b[0])), Active(w, RunLane(w, l, Emit(b[0])), EmitAll(b[1..])),
                  GuardsOf(b[0], g), GuardsAll(b[1..], g));
  }

  lemma Contrary(v: set<nat>, active: seq<bool>, gs: seq<Guard>)
    requires |active| == |gs| && SomeActive(active) != SomeGuard(v, gs)
    ensures Refuted(v, active, gs)
  {
    if SomeActive(active) {
      var i :| 0 <= i < |active| && active[i];
    } else {
      var i :| 0 <= i < |gs| && Eval(v, gs[i]);
    }
  }

  /** Nothing listed, nothing to be wrong about. */
  lemma {:induction false} UnlistedClear(b: seq<Stmt>, dropped: bool)
    requires Listed(EmitAll(b)) == 0
    ensures Clear(b, dropped)
    decreases b
  {
    if b != [] {
      ListedConcat(Emit(b[0]), EmitAll(b[1..]));
      ListedStmt(b[0]);
      UnlistedClear(b[1..], dropped);
      if b[0].Branch? {
        UnlistedClear(b[0].hit, false);
        if b[0].alt.Otherwise? { UnlistedClear(b[0].alt.arm, true); }
      }
    }
  }

  /** A cut still to come is already in the guard: a lane that will fail it is wrongly denied. */
  lemma {:induction false} TooEarly(b: seq<Stmt>, v: set<nat>, l: Lane, used: set<nat>, p: Guard) returns (w: set<nat>)
    requires b != [] && Distinct(EmitAll(b)) && RegsOkAll(b, used) && l.exec
    requires Listed(Emit(b[0])) > 0 && Cuts(b[1..]) != [] && AtomsOf(p) !! Conds(EmitAll(b))
    ensures OnlyOn(v, w, Conds(EmitAll(b)))
    ensures Refuted(w, Active(w, l, EmitAll(b)), GuardsAll(b, p + Atoms(Cuts(b))))
  {
    var s, c, g := b[0], Cuts(b[1..])[0], p + Atoms(Cuts(b));
    DistinctConcat(Emit(s), EmitAll(b[1..]));
    InnerIs(b[1..]);
    assert c in Members(Cuts(b[1..]));
    if s.Branch? {
      w := ReachIn(s, v - {c}, l, used);
    } else {
      w := v - {c};
      RunOne(w, l, Emit(s)[0]);
      assert Active(w, l, Emit(s))[0];
    }
    EvalConcat(w, p, Atoms(Cuts(b)));
    PassIs(w, Cuts(b));
    assert c in Cuts(b) && !Pass(w, Cuts(b));
    GuardsFailIn(s, w, g);
    GuardCountOf(s, g);
    Contrary(w, Active(w, l, Emit(s)), GuardsOf(s, g));
    BlockRefuted(b, w, l, g);
  }

  /** A lane lost or cut away unseen is wrongly admitted by the guards that follow. */
  lemma {:induction false} TooLate(b: seq<Stmt>, v: set<nat>, l: Lane, used: set<nat>, g: Guard) returns (w: set<nat>)
    requires b != [] && Distinct(EmitAll(b)) && RegsOkAll(b, used) && Listed(EmitAll(b[1..])) > 0
    requires Lossy(b[0]) || b[0].Cut?
    requires Eval(v, g) && AtomsOf(g) !! Conds(Emit(b[0])) + Inner(b[1..])
    ensures OnlyOn(v, w, Conds(EmitAll(b)))
    ensures Refuted(w, Active(w, l, EmitAll(b)), GuardsAll(b, g))
  {
    var s, rest := b[0], b[1..];
    var v1: set<nat>;
    DistinctConcat(Emit(s), EmitAll(rest));
    if s.Cut? {
      v1 := v - {s.cond};
      assert s.cond in Conds(Emit(s)) by { assert Narrow(s.cond) in Emit(s); }
      RunOne(v1, l, Narrow(s.cond));
    } else {
      v1 := Lose(s, v, l, used);
    }
    EvalAgree(v, v1, g);
    w := ReachGuard(rest, v1, g);
    InnerIs(rest);
    RunAgree(v1, w, l, Emit(s), Inner(rest));
    Dead(rest, w, RunLane(w, l, Emit(s)), used);
    GuardCount(rest, g);
    Contrary(w, Active(w, RunLane(w, l, Emit(s)), EmitAll(rest)), GuardsAll(rest, g));
    BlockRefuted(b, w, l, g);
  }

  function Shown(b: seq<Stmt>, dropped: bool, p: Guard): Guard { if dropped then p else p + Atoms(Cuts(b)) }

  lemma ShownAtoms(b: seq<Stmt>, dropped: bool, p: Guard)
    ensures AtomsOf(Shown(b, dropped, p)) == AtomsOf(p) + if dropped then {} else Members(Cuts(b))
  {
    AtomsConcat(p, Atoms(Cuts(b)));
    AtomsAre(Cuts(b));
  }

  /** Conditions under which the whole guard shown for a block holds. */
  lemma Admit(b: seq<Stmt>, dropped: bool, v: set<nat>, p: Guard) returns (v1: set<nat>)
    requires Eval(v, p) && AtomsOf(p) !! Conds(EmitAll(b))
    ensures OnlyOn(v, v1, Conds(EmitAll(b))) && Eval(v1, Shown(b, dropped, p)) && Eval(v1, p)
  {
    v1 := v + Members(Cuts(b));
    InnerIs(b);
    EvalAgree(v, v1, p);
    EvalConcat(v1, p, Atoms(Cuts(b)));
    PassIs(v1, Cuts(b));
  }

  /** Code that is not clear is wrong about some lane. */
  lemma {:induction false} Breaks(b: seq<Stmt>, dropped: bool, v: set<nat>, l: Lane, used: set<nat>, p: Guard)
    returns (w: set<nat>)
    requires !Clear(b, dropped) && Distinct(EmitAll(b)) && RegsOkAll(b, used)
    requires l.exec && Eval(v, p) && AtomsOf(p) !! Conds(EmitAll(b))
    ensures OnlyOn(v, w, Conds(EmitAll(b)))
    ensures Refuted(w, Active(w, l, EmitAll(b)), GuardsAll(b, Shown(b, dropped, p)))
    decreases b
  {
    var s, rest := b[0], b[1..];
    DistinctConcat(Emit(s), EmitAll(rest));
    if !dropped && Listed(Emit(s)) > 0 && Cuts(rest) != [] {
      w := TooEarly(b, v, l, used, p);
    } else if !ClearStmt(s) {
      w := BreaksNow(b, dropped, v, l, used, p);
    } else if (dropped && s.Cut?) || Lossy(s) {
      if Listed(EmitAll(rest)) == 0 { UnlistedClear(rest, dropped); }
      w := BreaksAfter(b, dropped, v, l, used, p);
    } else {
      w := BreaksLater(b, dropped, v, l, used, p);
    }
  }

  lemma {:induction false} BreaksNow(b: seq<Stmt>, dropped: bool, v: set<nat>, l: Lane, used: set<nat>, p: Guard)
    returns (w: set<nat>)
    requires b != [] && !ClearStmt(b[0]) && Distinct(EmitAll(b)) && RegsOkAll(b, used)
    requires l.exec && Eval(v, p) && AtomsOf(p) !! Conds(EmitAll(b))
    ensures OnlyOn(v, w, Conds(EmitAll(b)))
    ensures Refuted(w, Active(w, l, EmitAll(b)), GuardsAll(b, Shown(b, dropped, p)))
    decreases b, 0
  {
    var s, g := b[0], Shown(b, dropped, p);
    DistinctConcat(Emit(s), EmitAll(b[1..]));
    ShownApart(b, dropped, p);
    var v1 := Admit(b, dropped, v, p);
    w := StmtBreaks(s, v1, l, used, g);
    BlockRefuted(b, w, l, g);
  }

  /** The guard shown for a block says nothing of what its head tests, nor its later branches. */
  lemma ShownApart(b: seq<Stmt>, dropped: bool, p: Guard)
    requires b != [] && Distinct(EmitAll(b)) && AtomsOf(p) !! Conds(EmitAll(b)) && (dropped || !b[0].Cut?)
    ensures AtomsOf(Shown(b, dropped, p)) !! Conds(Emit(b[0])) + Inner(b[1..])
  {
    var s, rest := b[0], b[1..];
    DistinctConcat(Emit(s), EmitAll(rest));
    InnerIs(rest);
    ShownAtoms(b, dropped, p);
    if !dropped { assert Cuts(b) == Cuts(rest); }
  }

  lemma BreaksAfter(b: seq<Stmt>, dropped: bool, v: set<nat>, l: Lane, used: set<nat>, p: Guard)
    returns (w: set<nat>)
    requires b != [] && Distinct(EmitAll(b)) && RegsOkAll(b, used)
    requires ((dropped && b[0].Cut?) || Lossy(b[0])) && Listed(EmitAll(b[1..])) > 0
    requires Eval(v, p) && AtomsOf(p) !! Conds(EmitAll(b))
    ensures OnlyOn(v, w, Conds(EmitAll(b)))
    ensures Refuted(w, Active(w, l, EmitAll(b)), GuardsAll(b, Shown(b, dropped, p)))
  {
    ShownApart(b, dropped, p);
    var v1 := Admit(b, dropped, v, p);
    w := TooLate(b, v1, l, used, Shown(b, dropped, p));
  }

  /** Conditions under which a lane gets past the head of a block, and what holds of it then. */
  lemma PassHead(s: Stmt, v: set<nat>, l: Lane, used: set<nat>, p: Guard) returns (v1: set<nat>)
    requires RegsOk(s, used) && !Lossy(s) && l.exec && Eval(v, p) && AtomsOf(p) !! Conds(Emit(s))
    ensures OnlyOn(v, v1, Conds(Emit(s))) && RunLane(v1, l, Emit(s)).exec
    ensures Eval(v1, p + Atoms(CutsOf(s))) && AtomsOf(p + Atoms(CutsOf(s))) <= AtomsOf(p) + Conds(Emit(s))
  {
    v1 := v + Members(CutsOf(s));
    if s.Cut? { assert s.cond in Conds(Emit(s)) by { assert Narrow(s.cond) in Emit(s); } }
    EvalAgree(v, v1, p);
    EvalConcat(v1, p, Atoms(CutsOf(s)));
    PassIs(v1, CutsOf(s));
    AtomsConcat(p, Atoms(CutsOf(s)));
    AtomsAre(CutsOf(s));
    StmtRuns(s, v1, l, used);
  }

  lemma ShownNext(b: seq<Stmt>, dropped: bool, p: Guard)
    requires b != [] && !(dropped && b[0].Cut?)
    ensures Shown(b[1..], dropped, p + Atoms(CutsOf(b[0]))) == Shown(b, dropped, p)
  {
    assert p + Atoms(Cuts(b)) == p + Atoms(CutsOf(b[0])) + Atoms(Cuts(b[1..]));
    if dropped { assert p + Atoms(CutsOf(b[0])) == p; }
  }

  lemma {:induction false} BreaksLater(b: seq<Stmt>, dropped: bool, v: set<nat>, l: Lane, used: set<nat>, p: Guard)
    returns (w: set<nat>)
    requires b != [] && !Clear(b[1..], dropped) && Distinct(EmitAll(b)) && RegsOkAll(b, used)
    requires !(dropped && b[0].Cut?) && !Lossy(b[0])
    requires l.exec && Eval(v, p) && AtomsOf(p) !! Conds(EmitAll(b))
    ensures OnlyOn(v, w, Conds(EmitAll(b)))
    ensures Refuted(w, Active(w, l, EmitAll(b)), GuardsAll(b, Shown(b, dropped, p)))
    decreases b, 0
  {
    var s, rest := b[0], b[1..];
    DistinctConcat(Emit(s), EmitAll(rest));
    var v1 := PassHead(s, v, l, used, p);
    w := Breaks(rest, dropped, v1, RunLane(v1, l, Emit(s)), used, p + Atoms(CutsOf(s)));
    ShownNext(b, dropped, p);
    RunAgree(v1, w, l, Emit(s), Conds(EmitAll(rest)));
    BlockRefuted(b, w, l, Shown(b, dropped, p));
  }

  lemma BranchRefuted(s: Stmt, w: set<nat>, l: Lane, used: set<nat>, g: Guard)
    requires s.Branch? && RegsOk(s, used)
    requires var h := Conj(s.cond, Cuts(s.hit));
             || Refuted(w, Active(w, LaneStep(w, l, OpenOf(s)), EmitAll(s.hit)), GuardsAll(s.hit, g + h))
             || (s.alt.Otherwise? &&
                 Refuted(w, Active(w, SwitchLane(w, l, s), EmitAll(s.alt.arm)), GuardsAll(s.alt.arm, g + [Not(h)])))
    ensures Refuted(w, Active(w, l, Emit(s)), GuardsOf(s, g))
  {
    var h := Conj(s.cond, Cuts(s.hit));
    BranchRun(s, w, l);
    GuardCount(s.hit, g + h);
    if s.alt.Otherwise? {
      AltRuns(s, w, l, used);
      GuardCount(s.alt.arm, g + [Not(h)]);
    }
    RefutedConcat(w, Active(w, LaneStep(w, l, OpenOf(s)), EmitAll(s.hit)),
      Active(w, HitLane(w, l, s), EmitAlt(s.reg, s.alt)),
                  GuardsAll(s.hit, g + h), GuardsAlt(s.alt, g + [Not(h)]));
  }

  /** The fault lies in the first arm, in what it loses to the second, or in the second. */
  lemma {:induction false} StmtBreaks(s: Stmt, v: set<nat>, l: Lane, used: set<nat>, g: Guard) returns (w: set<nat>)
    requires !ClearStmt(s) && Distinct(Emit(s)) && RegsOk(s, used)
    requires l.exec && Eval(v, g) && AtomsOf(g) !! Conds(Emit(s))
    ensures OnlyOn(v, w, Conds(Emit(s)))
    ensures Refuted(w, Active(w, l, Emit(s)), GuardsOf(s, g))
    decreases s
  {
    BranchConds(s);
    if !Clear(s.hit, false) {
      w := HitBreaks(s, v, l, used, g);
    } else if !Clear(s.alt.arm, true) {
      w := ElseBreaks(s, v, l, used, g);
    } else {
      w := LossBreaks(s, v, l, used, g);
    }
    BranchRefuted(s, w, l, used, g);
  }

  lemma {:induction false} HitBreaks(s: Stmt, v: set<nat>, l: Lane, used: set<nat>, g: Guard) returns (w: set<nat>)
    requires s.Branch? && !Clear(s.hit, false) && Distinct(Emit(s)) && RegsOk(s, used)
    requires l.exec && Eval(v, g) && AtomsOf(g) !! Conds(Emit(s))
    ensures OnlyOn(v, w, Conds(Emit(s)))
    ensures Refuted(w, Active(w, LaneStep(w, l, OpenOf(s)), EmitAll(s.hit)),
            GuardsAll(s.hit, g + Conj(s.cond, Cuts(s.hit))))
    decreases s, 0
  {
    BranchConds(s);
    var v1, p := v + {s.cond}, g + [Atom(s.cond)];
    EvalAgree(v, v1, g);
    EvalConcat(v1, g, [Atom(s.cond)]);
    EvalOne(v1, Atom(s.cond));
    ConjAtoms(g, s.cond, []);
    assert Conj(s.cond, []) == [Atom(s.cond)];
    w := Breaks(s.hit, false, v1, LaneStep(v1, l, OpenOf(s)), used + {s.reg}, p);
    assert p + Atoms(Cuts(s.hit)) == g + Conj(s.cond, Cuts(s.hit));
  }

  /** Conditions that send a lane into the else arm. */
  lemma EnterElse(s: Stmt, v: set<nat>, l: Lane, used: set<nat>, g: Guard) returns (v1: set<nat>)
    requires s.Branch? && s.alt.Otherwise? && Distinct(Emit(s)) && RegsOk(s, used)
    requires l.exec && Eval(v, g) && AtomsOf(g) !! Conds(Emit(s))
    ensures OnlyOn(v, v1, Conds(Emit(s))) && SwitchLane(v1, l, s).exec
    ensures var g' := g + [Not(Conj(s.cond, Cuts(s.hit)))]; Eval(v1, g') && AtomsOf(g') !! Conds(EmitAll(s.alt.arm))
  {
    v1 := v - {s.cond};
    BranchConds(s);
    InnerIs(s.hit);
    EvalAgree(v, v1, g);
    ConjIs(v1, g, s.cond, Cuts(s.hit));
    ConjAtoms(g, s.cond, Cuts(s.hit));
    HitRuns(s, v1, l, used);
    AltRuns(s, v1, l, used);
  }

  lemma {:induction false} ElseBreaks(s: Stmt, v: set<nat>, l: Lane, used: set<nat>, g: Guard) returns (w: set<nat>)
    requires s.Branch? && s.alt.Otherwise? && !Clear(s.alt.arm, true) && Distinct(Emit(s)) && RegsOk(s, used)
    requires l.exec && Eval(v, g) && AtomsOf(g) !! Conds(Emit(s))
    ensures OnlyOn(v, w, Conds(Emit(s)))
    ensures Refuted(w, Active(w, SwitchLane(w, l, s), EmitAll(s.alt.arm)),
                    GuardsAll(s.alt.arm, g + [Not(Conj(s.cond, Cuts(s.hit)))]))
    decreases s, 0
  {
    var v1 := EnterElse(s, v, l, used, g);
    BranchConds(s);
    w := Breaks(s.alt.arm, true, v1, SwitchLane(v1, l, s), used + {s.reg}, g + [Not(Conj(s.cond, Cuts(s.hit)))]);
    RunAgree(v1, w, l, [OpenOf(s)] + EmitAll(s.hit), Conds(EmitAll(s.alt.arm)));
  }

  /** A lane that passes the branch's tests and is lost among the branches of the first arm. */
  lemma LoseInHit(s: Stmt, v: set<nat>, l: Lane, used: set<nat>) returns (w: set<nat>)
    requires s.Branch? && LossyAll(s.hit) && Distinct(Emit(s)) && RegsOk(s, used)
    ensures OnlyOn(v, w, {s.cond} + Conds(EmitAll(s.hit))) && !HitLane(w, l, s).exec
    ensures s.cond in w && Pass(w, Cuts(s.hit))
  {
    var v1 := v + {s.cond} + Members(Cuts(s.hit));
    BranchConds(s);
    InnerIs(s.hit);
    w := LoseAll(s.hit, v1, LaneStep(v1, l, OpenOf(s)), used + {s.reg});
    RunOne(w, l, OpenOf(s));
    RunConcat(w, l, [OpenOf(s)], EmitAll(s.hit));
  }

  /** A lane lost in the first arm turns up in the second, whose guard rules it out. */
  lemma LossBreaks(s: Stmt, v: set<nat>, l: Lane, used: set<nat>, g: Guard) returns (w: set<nat>)
    requires s.Branch? && s.alt.Otherwise? && LossyAll(s.hit) && Listed(EmitAll(s.alt.arm)) > 0
    requires Distinct(Emit(s)) && RegsOk(s, used) && l.exec && Eval(v, g) && AtomsOf(g) !! Conds(Emit(s))
    ensures OnlyOn(v, w, Conds(Emit(s)))
    ensures Refuted(w, Active(w, SwitchLane(w, l, s), EmitAll(s.alt.arm)),
                    GuardsAll(s.alt.arm, g + [Not(Conj(s.cond, Cuts(s.hit)))]))
  {
    var g' := g + [Not(Conj(s.cond, Cuts(s.hit)))];
    BranchConds(s);
    var w1 := LoseInHit(s, v, l, used);
    w := ReachElse(s, w1, l, used);
    assert s.cond in w && Pass(w, Cuts(s.hit)) by { InnerIs(s.hit); }
    ConjIs(w, g, s.cond, Cuts(s.hit));
    GuardsFail(s.alt.arm, w, g');
    AltRuns(s, w, l, used);
    GuardCount(s.alt.arm, g');
    Contrary(w, Active(w, SwitchLane(w, l, s), EmitAll(s.alt.arm)), GuardsAll(s.alt.arm, g'));
  }
}

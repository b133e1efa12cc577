/** The EXEC mask, one lane at a time: what structured code does to it, and which guards describe it. */
module ExecMask {
  import opened Options
  import opened Sequences
  import opened Regions
  import opened RegionMeaning

  /** A lane's bit in EXEC and in each save register. */
  datatype Lane = Lane(exec: bool, saves: map<nat, bool>)

  predicate Saved(l: Lane, reg: nat) { reg in l.saves && l.saves[reg] }

  /** One instruction, in a lane where exactly the conditions in `v` hold. */
  function LaneStep(v: set<nat>, l: Lane, op: Op): Lane {
    match op
    case Open(reg, cond, _, _) => Lane(l.exec && cond in v, l.saves[reg := l.exec])
    case Narrow(cond) => l.(exec := l.exec && cond in v)
    case Flip(reg, _) => Lane(Saved(l, reg) && !l.exec, l.saves[reg := l.exec])
    case Xor(reg, _) => l.(exec := l.exec != Saved(l, reg))
    case OrSave(reg, _) => Lane(Saved(l, reg) || l.exec, l.saves[reg := l.exec])
    case Reroute(dst, src, _) => Lane(Saved(l, src) && !l.exec, l.saves[dst := l.exec])
    case Close(reg, _) => l.(exec := l.exec || Saved(l, reg))
    case Work(_, _) => l
  }

  function RunLane(v: set<nat>, l: Lane, ops: seq<Op>): Lane
    decreases |ops|
  {
    if ops == [] then l else RunLane(v, LaneStep(v, l, ops[0]), ops[1..])
  }

  /** Whether the lane is in EXEC at each listed instruction. */
  function Active(v: set<nat>, l: Lane, ops: seq<Op>): (r: seq<bool>)
    ensures |r| == Listed(ops)
    decreases |ops|
  {
    if ops == [] then []
    else (if Lists(ops[0]) then [l.exec] else []) + Active(v, LaneStep(v, l, ops[0]), ops[1..])
  }

  predicate Lists(op: Op) { op.Work? && op.listed }

  function Listed(ops: seq<Op>): nat {
    if ops == [] then 0 else (if Lists(ops[0]) then 1 else 0) + Listed(ops[1..])
  }

  lemma {:induction false} ListedConcat(a: seq<Op>, b: seq<Op>)
    ensures Listed(a + b) == Listed(a) + Listed(b)
    decreases |a|
  {
    if a == [] {
      assert a + b == b;
    } else {
      assert (a + b)[1..] == a[1..] + b;
      ListedConcat(a[1..], b);
    }
  }

  lemma ListedStmt(s: Stmt)
    ensures Listed(Emit(s)) == match s
              case Do(_, listed) => if listed then 1 else 0
              case Cut(_) => 0
              case Branch(_, _, _, _, hit, alt, _) =>
                Listed(EmitAll(hit)) + if alt.Otherwise? then Listed(EmitAll(alt.arm)) else 0
  {
    if s.Branch? {
      ListedConcat([OpenOf(s)], EmitAll(s.hit));
      ListedConcat([OpenOf(s)] + EmitAll(s.hit), EmitAlt(s.reg, s.alt));
      ListedConcat([OpenOf(s)] + EmitAll(s.hit) + EmitAlt(s.reg, s.alt), [Close(s.reg, s.end)]);
      if s.alt.Otherwise? { ListedConcat([SwitchOf(s.reg, s.alt)], EmitAll(s.alt.arm)); }
    }
  }

  lemma {:induction false} GuardCount(b: seq<Stmt>, g: Guard)
    ensures |GuardsAll(b, g)| == Listed(EmitAll(b))
    decreases b
  {
    if b != [] {
      ListedConcat(Emit(b[0]), EmitAll(b[1..]));
      GuardCountOf(b[0], g);
      GuardCount(b[1..], g);
    }
  }

  lemma {:induction false} GuardCountOf(s: Stmt, g: Guard)
    ensures |GuardsOf(s, g)| == Listed(Emit(s))
    decreases s
  {
    ListedStmt(s);
    if s.Branch? {
      var h := Conj(s.cond, Cuts(s.hit));
      GuardCount(s.hit, g + h);
      if s.alt.Otherwise? { GuardCount(s.alt.arm, g + [Not(h)]); }
    }
  }

  lemma {:induction false} RunConcat(v: set<nat>, l: Lane, a: seq<Op>, b: seq<Op>)
    ensures RunLane(v, l, a + b) == RunLane(v, RunLane(v, l, a), b)
    ensures Active(v, l, a + b) == Active(v, l, a) + Active(v, RunLane(v, l, a), b)
    decreases |a|
  {
    if a == [] {
      assert a + b == b;
    } else {
      assert (a + b)[1..] == a[1..] + b;
      RunConcat(v, LaneStep(v, l, a[0]), a[1..], b);
    }
  }

  lemma RunOne(v: set<nat>, l: Lane, op: Op)
    ensures RunLane(v, l, [op]) == LaneStep(v, l, op)
    ensures Active(v, l, [op]) == if Lists(op) then [l.exec] else []
  {
    assert [op][1..] == [];
  }

  lemma {:induction false} EvalConcat(v: set<nat>, a: Guard, b: Guard)
    ensures Eval(v, a + b) == (Eval(v, a) && Eval(v, b))
    decreases |b|
  {
    if b == [] {
      assert a + b == a;
    } else {
      assert (a + b)[..|a + b| - 1] == a + b[..|b| - 1];
      EvalConcat(v, a, b[..|b| - 1]);
    }
  }

  lemma EvalOne(v: set<nat>, t: Term)
    ensures Eval(v, [t]) == EvalTerm(v, t)
  {
    assert [t][..0] == [];
  }

  /** All of the conditions hold. */
  predicate Pass(v: set<nat>, ns: seq<nat>) { forall a :: a in ns ==> a in v }

  lemma {:induction false} PassIs(v: set<nat>, ns: seq<nat>)
    ensures Eval(v, Atoms(ns)) <==> Pass(v, ns)
  {
    if ns != [] {
      var init, c := ns[..|ns| - 1], ns[|ns| - 1];
      PassIs(v, init);
      assert ns == init + [c];
      assert Atoms(ns) == Atoms(init) + [Atom(c)];
      EvalConcat(v, Atoms(init), [Atom(c)]);
      EvalOne(v, Atom(c));
    }
  }

  /** What the guards of a branch's two arms say of a lane. */
  lemma ConjIs(v: set<nat>, g: Guard, cond: nat, ns: seq<nat>)
    ensures Eval(v, g + Conj(cond, ns)) <==> Eval(v, g) && cond in v && Pass(v, ns)
    ensures Eval(v, g + [Not(Conj(cond, ns))]) <==> Eval(v, g) && !(cond in v && Pass(v, ns))
  {
    EvalConcat(v, g, Conj(cond, ns));
    EvalConcat(v, [Atom(cond)], Atoms(ns));
    EvalOne(v, Atom(cond));
    PassIs(v, ns);
    EvalConcat(v, g, [Not(Conj(cond, ns))]);
    EvalOne(v, Not(Conj(cond, ns)));
  }

  // ---- well-formed structured code --------------------------------------------------------

  /** No instruction inside a branch touches the branch's save register. */
  ghost predicate RegsOk(s: Stmt, used: set<nat>)
    decreases s
  {
    s.Branch? ==> s.reg !in used && RegsOkAll(s.hit, used + {s.reg}) &&
                  (s.alt.Otherwise? ==> RegsOkAll(s.alt.arm, used + {s.reg}))
  }

  ghost predicate RegsOkAll(b: seq<Stmt>, used: set<nat>)
    decreases b
  {
    b == [] || (RegsOk(b[0], used) && RegsOkAll(b[1..], used))
  }

  /** Lanes may be lost for good: the flip overwrites the save register with the first arm's lanes, so a
      lane that enters the else arm and fails a cut there is in neither arm when the branch closes. */
  predicate Lossy(s: Stmt)
    decreases s
  {
    s.Branch? && s.alt.Otherwise? && !s.alt.xor && (Cuts(s.alt.arm) != [] || LossyAll(s.alt.arm))
  }

  predicate LossyAll(b: seq<Stmt>)
    decreases b
  {
    b != [] && (Lossy(b[0]) || LossyAll(b[1..]))
  }

  // ---- EXEC and the save registers --------------------------------------------------------

  /** Code that hands the outer save registers back, and of EXEC at most the lanes that pass its own
      cuts, or exactly those. */
  ghost predicate Runs(v: set<nat>, l: Lane, used: set<nat>, ops: seq<Op>, ns: seq<nat>, exactly: bool) {
    var l' := RunLane(v, l, ops);
    && (forall r :: r in used ==> Saved(l', r) == Saved(l, r))
    && (l'.exec ==> l.exec && Pass(v, ns))
    && (exactly ==> l'.exec == (l.exec && Pass(v, ns)))
  }

  lemma {:induction false} AllRuns(b: seq<Stmt>, v: set<nat>, l: Lane, used: set<nat>)
    requires RegsOkAll(b, used)
    ensures Runs(v, l, used, EmitAll(b), Cuts(b), !LossyAll(b))
    decreases b
  {
    if b != [] {
      StmtRuns(b[0], v, l, used);
      AllRuns(b[1..], v, RunLane(v, l, Emit(b[0])), used);
      RunConcat(v, l, Emit(b[0]), EmitAll(b[1..]));
      assert Pass(v, Cuts(b)) <==> Pass(v, CutsOf(b[0])) && Pass(v, Cuts(b[1..]));
    }
  }

  /** The lane at the end of a branch's first arm, at the switch to the second, and at its end. */
  function HitLane(v: set<nat>, l: Lane, s: Stmt): Lane
    requires s.Branch?
  {
    RunLane(v, l, [OpenOf(s)] + EmitAll(s.hit))
  }

  function SwitchLane(v: set<nat>, l: Lane, s: Stmt): Lane
    requires s.Branch? && s.alt.Otherwise?
  {
    LaneStep(v, HitLane(v, l, s), SwitchOf(s.reg, s.alt))
  }

  function AltLane(v: set<nat>, l: Lane, s: Stmt): Lane
    requires s.Branch?
  {
    RunLane(v, HitLane(v, l, s), EmitAlt(s.reg, s.alt))
  }

  lemma {:induction false} HitRuns(s: Stmt, v: set<nat>, l: Lane, used: set<nat>)
    requires s.Branch? && RegsOk(s, used)
    ensures var l2 := HitLane(v, l, s);
            && Saved(l2, s.reg) == l.exec && (forall r :: r in used ==> Saved(l2, r) == Saved(l, r))
            && (l2.exec ==> l.exec && s.cond in v && Pass(v, Cuts(s.hit)))
            && (!LossyAll(s.hit) ==> l2.exec == (l.exec && s.cond in v && Pass(v, Cuts(s.hit))))
    decreases s, 0
  {
    RunOne(v, l, OpenOf(s));
    RunConcat(v, l, [OpenOf(s)], EmitAll(s.hit));
    var l1 := LaneStep(v, l, OpenOf(s));
    AllRuns(s.hit, v, l1, used + {s.reg});
    assert s.reg in used + {s.reg};
    forall r | r in used ensures Saved(l1, r) == Saved(l, r) { }
  }

  /** The switch turns to the entry lanes that are not in the first arm at its end. */
  lemma {:induction false} SwitchRuns(s: Stmt, v: set<nat>, l: Lane, used: set<nat>)
    requires s.Branch? && s.alt.Otherwise? && RegsOk(s, used)
    ensures var l2, l3 := HitLane(v, l, s), SwitchLane(v, l, s);
            && l3.exec == (l.exec && !l2.exec) && Saved(l3, s.reg) == (if s.alt.xor then l.exec else l2.exec)
            && (forall r :: r in used ==> Saved(l3, r) == Saved(l, r))
            && AltLane(v, l, s) == RunLane(v, l3, EmitAll(s.alt.arm))
            && Active(v, l2, EmitAlt(s.reg, s.alt)) == Active(v, l3, EmitAll(s.alt.arm))
    decreases s, 1
  {
    HitRuns(s, v, l, used);
    var l2, op := HitLane(v, l, s), SwitchOf(s.reg, s.alt);
    RunOne(v, l2, op);
    RunConcat(v, l2, [op], EmitAll(s.alt.arm));
  }

  /** The else arm gets those lanes and hands back what its own cuts leave. */
  lemma {:induction false} AltRuns(s: Stmt, v: set<nat>, l: Lane, used: set<nat>)
    requires s.Branch? && s.alt.Otherwise? && RegsOk(s, used)
    ensures var l2, l3, l4 := HitLane(v, l, s), SwitchLane(v, l, s), AltLane(v, l, s);
            && l3.exec == (l.exec && !l2.exec) && l4 == RunLane(v, l3, EmitAll(s.alt.arm))
            && Active(v, l2, EmitAlt(s.reg, s.alt)) == Active(v, l3, EmitAll(s.alt.arm))
            && Saved(l4, s.reg) == (if s.alt.xor then l.exec else l2.exec)
            && (forall r :: r in used ==> Saved(l4, r) == Saved(l, r))
            && (l4.exec ==> l3.exec && Pass(v, Cuts(s.alt.arm)))
            && (!LossyAll(s.alt.arm) ==> l4.exec == (l3.exec && Pass(v, Cuts(s.alt.arm))))
    decreases s, 2
  {
    SwitchRuns(s, v, l, used);
    AllRuns(s.alt.arm, v, SwitchLane(v, l, s), used + {s.reg});
    assert s.reg in used + {s.reg};
  }

  /** A whole branch is its two arms and the close. */
  lemma BranchRun(s: Stmt, v: set<nat>, l: Lane)
    requires s.Branch?
    ensures RunLane(v, l, Emit(s)) == LaneStep(v, AltLane(v, l, s), Close(s.reg, s.end))
    ensures Active(v, l, Emit(s)) ==
            Active(v, l, [OpenOf(s)] + EmitAll(s.hit)) + Active(v, HitLane(v, l, s), EmitAlt(s.reg, s.alt))
    ensures Active(v, l, [OpenOf(s)] + EmitAll(s.hit)) == Active(v, LaneStep(v, l, OpenOf(s)), EmitAll(s.hit))
  {
    var first, close := [OpenOf(s)] + EmitAll(s.hit), Close(s.reg, s.end);
    RunConcat(v, l, first, EmitAlt(s.reg, s.alt));
    RunConcat(v, l, first + EmitAlt(s.reg, s.alt), [close]);
    RunOne(v, AltLane(v, l, s), close);
    RunOne(v, l, OpenOf(s));
    RunConcat(v, l, [OpenOf(s)], EmitAll(s.hit));
  }

  lemma {:induction false} StmtRuns(s: Stmt, v: set<nat>, l: Lane, used: set<nat>)
    requires RegsOk(s, used)
    ensures Runs(v, l, used, Emit(s), CutsOf(s), !Lossy(s))
    decreases s, 3
  {
    if s.Branch? {
      HitRuns(s, v, l, used);
      BranchRun(s, v, l);
      if s.alt.Otherwise? { AltRuns(s, v, l, used); }
    } else {
      RunOne(v, l, Emit(s)[0]);
    }
  }

  // ---- guards that describe the mask ------------------------------------------------------

  /** The code of an arm or, with `dropped`, of a place whose cuts the analysis drops: an else arm or the
      function itself. Where cuts show, none may come after a listed instruction; where they are dropped,
      and where lanes are lost, no listed instruction may follow. */
  predicate Clear(b: seq<Stmt>, dropped: bool)
    decreases b
  {
    b == [] ||
    (&& ClearStmt(b[0]) && Clear(b[1..], dropped)
     && (!dropped && Listed(Emit(b[0])) > 0 ==> Cuts(b[1..]) == [])
     && ((dropped && b[0].Cut?) || Lossy(b[0]) ==> Listed(EmitAll(b[1..])) == 0))
  }

  predicate ClearStmt(s: Stmt)
    decreases s
  {
    s.Branch? ==>
      && Clear(s.hit, false)
      && (s.alt.Otherwise? ==>
            Clear(s.alt.arm, true) && (LossyAll(s.hit) ==> Listed(EmitAll(s.alt.arm)) == 0))
  }

  /** At every listed instruction: in EXEC just when active on entry and the guard holds. */
  ghost predicate Describes(v: set<nat>, entry: bool, active: seq<bool>, gs: seq<Guard>) {
    |active| == |gs| && forall i :: 0 <= i < |gs| ==> active[i] == (entry && Eval(v, gs[i]))
  }

  lemma DescribesConcat(v: set<nat>, entry: bool, a: seq<bool>, b: seq<bool>, gs: seq<Guard>, hs: seq<Guard>)
    requires Describes(v, entry, a, gs) && Describes(v, entry, b, hs)
    ensures Describes(v, entry, a + b, gs + hs)
  {
  }

  /** `p` says whether the lane's conditions so far hold, the guard `g` whether all that it shows do. */
  lemma {:induction false} BlockFaithful(b: seq<Stmt>, dropped: bool, v: set<nat>, l: Lane, used: set<nat>,
                                         entry: bool, p: bool, g: Guard)
    requires RegsOkAll(b, used) && Clear(b, dropped) && l.exec == (entry && p)
    requires Eval(v, g) == (p && (dropped || Pass(v, Cuts(b))))
    ensures Describes(v, entry, Active(v, l, EmitAll(b)), GuardsAll(b, g))
    decreases b
  {
    if b != [] {
      var s, rest := b[0], b[1..];
      var l1 := RunLane(v, l, Emit(s));
      RunConcat(v, l, Emit(s), EmitAll(rest));
      ListedStmt(s);
      GuardCountOf(s, g);
      GuardCount(rest, g);
      if Listed(Emit(s)) > 0 { StmtFaithful(s, v, l, used, entry, g); }
      if Listed(EmitAll(rest)) > 0 {
        StmtRuns(s, v, l, used);
        assert Pass(v, Cuts(b)) <==> Pass(v, CutsOf(s)) && Pass(v, Cuts(rest));
        BlockFaithful(rest, dropped, v, l1, used, entry, p && Pass(v, CutsOf(s)), g);
      }
      DescribesConcat(v, entry, Active(v, l, Emit(s)), Active(v, l1, EmitAll(rest)), GuardsOf(s, g),
        GuardsAll(rest, g));
    }
  }

  /** For one lane, from entry to close, the guard at each listed instruction describes EXEC there. */
  lemma {:induction false} StmtFaithful(s: Stmt, v: set<nat>, l: Lane, used: set<nat>, entry: bool, g: Guard)
    requires RegsOk(s, used) && ClearStmt(s) && l.exec == (entry && Eval(v, g))
    ensures Describes(v, entry, Active(v, l, Emit(s)), GuardsOf(s, g))
    decreases s
  {
    if s.Branch? {
      var h := Conj(s.cond, Cuts(s.hit));
      BranchRun(s, v, l);
      ConjIs(v, g, s.cond, Cuts(s.hit));
      BlockFaithful(s.hit, false, v, LaneStep(v, l, OpenOf(s)), used + {s.reg}, entry,
        Eval(v, g) && s.cond in v, g + h);
      if s.alt.Otherwise? {
        var g' := g + [Not(h)];
        AltRuns(s, v, l, used);
        GuardCount(s.alt.arm, g');
        if Listed(EmitAll(s.alt.arm)) > 0 {
          HitRuns(s, v, l, used);
          BlockFaithful(s.alt.arm, true, v, SwitchLane(v, l, s), used + {s.reg}, entry, Eval(v, g'), g');
        }
      }
    } else {
      RunOne(v, l, Emit(s)[0]);
    }
  }
}

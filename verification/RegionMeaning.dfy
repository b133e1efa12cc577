/** What the recovered guards mean: structured code, the guards its text shows, and the proof that the
    analysis gives each listed instruction exactly that guard. */
module RegionMeaning {
  import opened Options
  import opened Sequences
  import opened Regions

  // ---- structured code --------------------------------------------------------------------

  /** Code nests arbitrarily; a cut narrows EXEC anywhere in its arm, whatever stands before it. */
  datatype Alt = NoElse | Otherwise(xor: bool, addr: nat, arm: seq<Stmt>)
  datatype Stmt =
    | Do(addr: nat, listed: bool)
    | Cut(cond: nat)
    | Branch(reg: nat, cond: nat, addr: nat, reconverge: nat, hit: seq<Stmt>, alt: Alt, end: nat)

  function OpenOf(s: Stmt): Op
    requires s.Branch?
  {
    Open(s.reg, s.cond, s.addr, s.reconverge)
  }

  function SwitchOf(reg: nat, alt: Alt): Op
    requires alt.Otherwise?
  {
    if alt.xor then Xor(reg, alt.addr) else Flip(reg, alt.addr)
  }

  function Emit(s: Stmt): seq<Op>
    decreases s
  {
    match s
    case Do(addr, listed) => [Work(addr, listed)]
    case Cut(cond) => [Narrow(cond)]
    case Branch(reg, _, _, _, hit, alt, end) => [OpenOf(s)] + EmitAll(hit) + EmitAlt(reg, alt) + [Close(reg, end)]
  }

  function EmitAlt(reg: nat, alt: Alt): seq<Op>
    decreases alt
  {
    match alt
    case NoElse => []
    case Otherwise(_, _, arm) => [SwitchOf(reg, alt)] + EmitAll(arm)
  }

  function EmitAll(b: seq<Stmt>): seq<Op>
    decreases b
  {
    if b == [] then [] else Emit(b[0]) + EmitAll(b[1..])
  }

  // ---- the guards the source text shows ---------------------------------------------------

  /** The cuts of an arm, those of nested branches left out. */
  function Cuts(b: seq<Stmt>): seq<nat> {
    if b == [] then [] else CutsOf(b[0]) + Cuts(b[1..])
  }

  function CutsOf(s: Stmt): seq<nat> { if s.Cut? then [s.cond] else [] }

  function Atoms(ns: seq<nat>): Guard { seq(|ns|, i requires 0 <= i < |ns| => Atom(ns[i])) }

  function Conj(cond: nat, ns: seq<nat>): Guard { [Atom(cond)] + Atoms(ns) }

  /** The guard at each listed instruction, in stream order, of code in a region with guard `g`: an arm
      shows all its cuts everywhere, an else the complement of the first arm and none of its own. */
  function GuardsOf(s: Stmt, g: Guard): seq<Guard>
    decreases s
  {
    match s
    case Do(_, listed) => if listed then [g] else []
    case Cut(_) => []
    case Branch(_, cond, _, _, hit, alt, _) =>
      GuardsAll(hit, g + Conj(cond, Cuts(hit))) + GuardsAlt(alt, g + [Not(Conj(cond, Cuts(hit)))])
  }

  function GuardsAlt(alt: Alt, g: Guard): seq<Guard>
    decreases alt
  {
    match alt
    case NoElse => []
    case Otherwise(_, _, arm) => GuardsAll(arm, g)
  }

  function GuardsAll(b: seq<Stmt>, g: Guard): seq<Guard>
    decreases b
  {
    if b == [] then [] else GuardsOf(b[0], g) + GuardsAll(b[1..], g)
  }

  // ---- where the analysis puts each instruction -------------------------------------------

  datatype Seen = Seen(region: nat, addr: nat)

  /** The listed instructions (calls and selects) with the region on top of the stack at each. */
  function SeenBy(t: Tree, ops: seq<Op>): seq<Seen>
    requires Valid(t)
    decreases |ops|
  {
    if ops == [] then []
    else
      StepValid(t, ops[0]);
      (if ops[0].Work? && ops[0].listed then [Seen(Top(t), ops[0].addr)] else []) + SeenBy(Step(t, ops[0]), ops[1..])
  }

  lemma BuildOne(t: Tree, op: Op)
    requires Valid(t)
    ensures BuildFrom(t, [op]) == Step(t, op)
    ensures SeenBy(t, [op]) == if op.Work? && op.listed then [Seen(Top(t), op.addr)] else []
  {
    StepValid(t, op);
    assert [op][1..] == [];
  }

  lemma BuildHead(t: Tree, op: Op, rest: seq<Op>)
    requires Valid(t)
    ensures Valid(Step(t, op)) && BuildFrom(t, [op] + rest) == BuildFrom(Step(t, op), rest)
    ensures SeenBy(t, [op] + rest) == SeenBy(t, [op]) + SeenBy(Step(t, op), rest)
  {
    StepValid(t, op);
    BuildOne(t, op);
    assert ([op] + rest)[1..] == rest;
  }

  lemma {:induction false} BuildConcat(t: Tree, a: seq<Op>, b: seq<Op>)
    requires Valid(t)
    ensures BuildFrom(t, a + b) == BuildFrom(BuildFrom(t, a), b)
    ensures SeenBy(t, a + b) == SeenBy(t, a) + SeenBy(BuildFrom(t, a), b)
    decreases |a|
  {
    if a == [] {
      assert a + b == b;
    } else {
      var op, rest := a[0], a[1..];
      assert a == [op] + rest;
      Regroup([op], rest, b);
      BuildHead(t, op, rest);
      BuildHead(t, op, rest + b);
      var t1 := Step(t, op);
      BuildConcat(t1, rest, b);
      Regroup(SeenBy(t, [op]), SeenBy(t1, rest), SeenBy(BuildFrom(t1, rest), b));
    }
  }

  function BodyOf(seen: seq<Seen>, r: nat): seq<nat> {
    if seen == [] then []
    else if seen[0].region == r then [seen[0].addr] + BodyOf(seen[1..], r)
    else BodyOf(seen[1..], r)
  }

  /** What a region already lists. */
  function BodyIn(all: seq<Region>, r: nat): seq<nat> { if r < |all| then all[r].body else [] }

  lemma StepBody(t: Tree, op: Op, r: nat)
    requires Valid(t)
    ensures Valid(Step(t, op)) && |t.all| <= |Step(t, op).all|
    ensures r < |Step(t, op).all| ==> BodyIn(Step(t, op).all, r) == BodyIn(t.all, r) + BodyOf(SeenBy(t, [op]), r)
  {
    StepValid(t, op);
    assert RegionOk(t.all, Top(t));
    BuildOne(t, op);
    if op.Work? && op.listed { assert [Seen(Top(t), op.addr)][1..] == []; }
  }

  lemma BodyOfFirst(x: Seen, rest: seq<Seen>, r: nat)
    ensures BodyOf([x] + rest, r) == (if x.region == r then [x.addr] else []) + BodyOf(rest, r)
  {
    assert ([x] + rest)[1..] == rest;
  }

  lemma {:induction false} BodyOfConcat(a: seq<Seen>, b: seq<Seen>, r: nat)
    ensures BodyOf(a + b, r) == BodyOf(a, r) + BodyOf(b, r)
  {
    if a == [] {
      assert a + b == b;
    } else {
      BodyOfConcat(a[1..], b, r);
      BodyOfFirst(a[0], a[1..] + b, r);
      assert a + b == [a[0]] + (a[1..] + b);
    }
  }

  /** A region's body lists exactly the calls and selects that ran with it on top, in order. */
  lemma {:induction false} BodiesListed(t: Tree, ops: seq<Op>, r: nat)
    requires Valid(t) && r < |BuildFrom(t, ops).all|
    ensures BodyIn(BuildFrom(t, ops).all, r) == BodyIn(t.all, r) + BodyOf(SeenBy(t, ops), r)
    decreases |ops|
  {
    if ops == [] {
      assert BodyIn(t.all, r) + [] == BodyIn(t.all, r);
    } else {
      var op, rest := ops[0], ops[1..];
      StepBody(t, op, r);
      var t1 := Step(t, op);
      BodiesListed(t1, rest, r);
      assert [op] + rest == ops;
      BuildHead(t, op, rest);
      BodyOfConcat(SeenBy(t, [op]), SeenBy(t1, rest), r);
      Regroup(BodyIn(t.all, r), BodyOf(SeenBy(t, [op]), r), BodyOf(SeenBy(t1, rest), r));
    }
  }

  // ---- what structured code does to the tree ----------------------------------------------

  lemma ExtendsTrans(a: seq<Region>, b: seq<Region>, c: seq<Region>)
    requires Extends(a, b) && Extends(b, c)
    ensures Extends(a, c)
  {
    forall r | 0 <= r < |a| ensures SameGuard(a, c, r) { assert SameGuard(a, b, r) && SameGuard(b, c, r); }
  }

  /** `t` with cuts on its top region; the root takes none. */
  function CutBy(t: Tree, ns: seq<nat>): (t': Tree)
    requires Valid(t)
    ensures t'.stack == t.stack && |t'.all| == |t.all|
  {
    var top := t.all[Top(t)];
    if Top(t) == 0 then t else t.(all := t.all[Top(t) := top.(cond := top.cond + Atoms(ns))])
  }

  /** `t'` continues `t`: same stack, and of the older regions only the top one has changed, by `ns`. */
  ghost predicate Keeps(t: Tree, t': Tree, ns: seq<nat>)
    requires Valid(t)
  {
    t'.stack == t.stack && Extends(CutBy(t, ns).all, t'.all)
  }

  lemma CutNone(t: Tree)
    requires Valid(t)
    ensures CutBy(t, []) == t
  {
    assert t.all[Top(t)].cond + Atoms([]) == t.all[Top(t)].cond;
  }

  lemma KeepsConcat(t: Tree, t1: Tree, t2: Tree, a: seq<nat>, b: seq<nat>)
    requires Valid(t) && Valid(t1) && Keeps(t, t1, a) && Keeps(t1, t2, b)
    ensures Keeps(t, t2, a + b)
  {
    var top := Top(t);
    assert t.all[top].cond + Atoms(a + b) == t.all[top].cond + Atoms(a) + Atoms(b);
    forall r | 0 <= r < |t.all| ensures SameGuard(CutBy(t, a + b).all, t2.all, r) {
      assert SameGuard(CutBy(t, a).all, t1.all, r) && SameGuard(CutBy(t1, b).all, t2.all, r);
    }
  }

  lemma StepKeeps(t: Tree, s: Stmt)
    requires Valid(t) && !s.Branch?
    ensures Keeps(t, BuildFrom(t, Emit(s)), CutsOf(s))
  {
    BuildOne(t, Emit(s)[0]);
    if s.Cut? {
      assert Atoms([s.cond]) == [Atom(s.cond)];
      assert Step(t, Narrow(s.cond)) == CutBy(t, [s.cond]);
    } else {
      CutNone(t);
    }
  }

  lemma {:induction false} AllKeeps(b: seq<Stmt>, t: Tree)
    requires Valid(t)
    ensures Keeps(t, BuildFrom(t, EmitAll(b)), Cuts(b))
    decreases b
  {
    if b == [] {
      CutNone(t);
    } else {
      StmtKeeps(b[0], t);
      var t1 := BuildFrom(t, Emit(b[0]));
      AllKeeps(b[1..], t1);
      BuildConcat(t, Emit(b[0]), EmitAll(b[1..]));
      KeepsConcat(t, t1, BuildFrom(t1, EmitAll(b[1..])), CutsOf(b[0]), Cuts(b[1..]));
    }
  }

  /** The tree at the end of a branch's first arm, and at the end of its second. */
  function HitTree(t: Tree, s: Stmt): (t': Tree)
    requires Valid(t) && s.Branch?
    ensures Valid(t')
  {
    BuildFrom(t, [OpenOf(s)] + EmitAll(s.hit))
  }

  function AltTree(t: Tree, s: Stmt): (t': Tree)
    requires Valid(t) && s.Branch?
    ensures Valid(t')
  {
    BuildFrom(HitTree(t, s), EmitAlt(s.reg, s.alt))
  }

  /** The first arm leaves a new region on the stack that shows the branch's condition and all its cuts. */
  ghost predicate HitDone(t: Tree, s: Stmt, t': Tree)
    requires Valid(t) && s.Branch?
  {
    && t'.stack == t.stack + [|t.all|] && |t'.all| > |t.all| && Extends(t.all, t'.all)
    && var r := t'.all[|t.all|];
       r.kind == If && r.parent == Top(t) && r.pairedIf == None && r.cond == Conj(s.cond, Cuts(s.hit))
  }

  /** The open puts a new region on top. */
  lemma OpenStep(t: Tree, s: Stmt, ops: seq<Op>)
    requires Valid(t) && s.Branch?
    ensures var t1 := Step(t, OpenOf(s));
            && Valid(t1) && t1.stack == t.stack + [|t.all|] && Top(t1) == |t.all| && |t1.all| == |t.all| + 1
            && Extends(t.all, t1.all) && BuildFrom(t, [OpenOf(s)] + ops) == BuildFrom(t1, ops)
            && SeenBy(t, [OpenOf(s)] + ops) == SeenBy(t1, ops)
  {
    StepValid(t, OpenOf(s));
    BuildOne(t, OpenOf(s));
    BuildConcat(t, [OpenOf(s)], ops);
  }

  lemma {:induction false} HitKeeps(s: Stmt, t: Tree)
    requires Valid(t) && s.Branch?
    ensures HitDone(t, s, HitTree(t, s))
    decreases s, 0
  {
    OpenStep(t, s, EmitAll(s.hit));
    var t1 := Step(t, OpenOf(s));
    AllKeeps(s.hit, t1);
    var t2 := HitTree(t, s);
    KeepsOlder(t, t1, t2, Cuts(s.hit));
    assert SameGuard(CutBy(t1, Cuts(s.hit)).all, t2.all, |t.all|);
  }

  /** The second arm, if there is one, has replaced the first on the stack by its complement. */
  ghost predicate AltDone(t: Tree, t2: Tree, alt: Alt, t': Tree)
    requires Valid(t)
  {
    && |t'.stack| == |t.stack| + 1 && t'.stack[..|t.stack|] == t.stack && Extends(t2.all, t'.all)
    && (alt.Otherwise? ==>
          && |t'.all| > |t2.all|
          && var r := t'.all[|t2.all|]; r.kind == Else && r.parent == Top(t) && r.pairedIf == Some(|t.all|))
  }

  /** The switch puts the complement of the top region in its place. */
  lemma SwitchKeeps(t: Tree, op: Op)
    requires Valid(t) && Top(t) != 0 && (op.Flip? || op.Xor?)
    ensures var t' := Step(t, op);
            && Valid(t') && Extends(t.all, t'.all) && |t'.all| == |t.all| + 1
            && t'.stack == t.stack[|t.stack| - 1 := |t.all|]
            && var r := t'.all[|t.all|];
               r.kind == Else && r.parent == t.all[Top(t)].parent && r.pairedIf == Some(Top(t))
  {
    StepValid(t, op);
    assert RegionOk(t.all, Top(t));
  }

  /** Cutting a region made since changes nothing older. */
  lemma KeepsOlder(t: Tree, t': Tree, t'': Tree, ns: seq<nat>)
    requires Valid(t') && Extends(t.all, t'.all) && |t.all| <= Top(t') && Keeps(t', t'', ns)
    ensures Extends(t.all, t''.all)
  {
    forall r | 0 <= r < |t.all| ensures SameGuard(t.all, t''.all, r) {
      assert SameGuard(t.all, t'.all, r) && SameGuard(CutBy(t', ns).all, t''.all, r);
    }
  }

  lemma {:induction false} AltKeeps(s: Stmt, t: Tree)
    requires Valid(t) && s.Branch?
    ensures HitDone(t, s, HitTree(t, s)) && AltDone(t, HitTree(t, s), s.alt, AltTree(t, s))
    decreases s, 1
  {
    HitKeeps(s, t);
    var t2 := HitTree(t, s);
    if s.alt.Otherwise? {
      var op := SwitchOf(s.reg, s.alt);
      assert Top(t2) == |t.all|;
      SwitchKeeps(t2, op);
      BuildOne(t2, op);
      BuildConcat(t2, [op], EmitAll(s.alt.arm));
      var t3 := Step(t2, op);
      AllKeeps(s.alt.arm, t3);
      KeepsOlder(t2, t3, AltTree(t, s), Cuts(s.alt.arm));
      assert SameGuard(CutBy(t3, Cuts(s.alt.arm)).all, AltTree(t, s).all, |t2.all|);
    }
  }

  /** A close only clears the top region off the stack. */
  lemma CloseStep(t: Tree, reg: nat, end: nat)
    requires Valid(t) && |t.stack| > 1
    ensures var t' := BuildFrom(t, [Close(reg, end)]); t'.stack == t.stack[..|t.stack| - 1] && Extends(t.all, t'.all)
    ensures SeenBy(t, [Close(reg, end)]) == []
  {
    BuildOne(t, Close(reg, end));
  }

  lemma BranchBuild(s: Stmt, t: Tree)
    requires Valid(t) && s.Branch?
    ensures BuildFrom(t, Emit(s)) == BuildFrom(AltTree(t, s), [Close(s.reg, s.end)])
    ensures SeenBy(t, Emit(s)) == SeenBy(t, [OpenOf(s)] + EmitAll(s.hit)) +
                                  SeenBy(HitTree(t, s), EmitAlt(s.reg, s.alt)) +
                                    SeenBy(AltTree(t, s), [Close(s.reg, s.end)])
  {
    var first := [OpenOf(s)] + EmitAll(s.hit);
    BuildConcat(t, first, EmitAlt(s.reg, s.alt));
    BuildConcat(t, first + EmitAlt(s.reg, s.alt), [Close(s.reg, s.end)]);
  }

  lemma CloseKeeps(s: Stmt, t: Tree)
    requires Valid(t) && s.Branch? && AltDone(t, HitTree(t, s), s.alt, AltTree(t, s))
    ensures var t4, t5 := AltTree(t, s), BuildFrom(t, Emit(s)); t5.stack == t.stack && Extends(t4.all, t5.all)
    ensures SeenBy(t, Emit(s)) ==
            SeenBy(t, [OpenOf(s)] + EmitAll(s.hit)) + SeenBy(HitTree(t, s), EmitAlt(s.reg, s.alt))
  {
    BranchBuild(s, t);
    CloseStep(AltTree(t, s), s.reg, s.end);
  }

  lemma {:induction false} StmtKeeps(s: Stmt, t: Tree)
    requires Valid(t)
    ensures Keeps(t, BuildFrom(t, Emit(s)), CutsOf(s))
    decreases s, 2
  {
    if s.Branch? {
      AltKeeps(s, t);
      CloseKeeps(s, t);
      CutNone(t);
      ExtendsTrans(t.all, HitTree(t, s).all, AltTree(t, s).all);
      ExtendsTrans(t.all, AltTree(t, s).all, BuildFrom(t, Emit(s)).all);
    } else {
      StepKeeps(t, s);
    }
  }

  // ---- every listed instruction has the guard the text shows ------------------------------

  /** In the finished tree `all` every instruction sits in a region with the guard the text shows for it. */
  ghost predicate Matches(all: seq<Region>, seen: seq<Seen>, gs: seq<Guard>)
    requires WellFormed(all)
  {
    |seen| == |gs| && forall i :: 0 <= i < |seen| ==> seen[i].region < |all| && EffCond(all, seen[i].region) == gs[i]
  }

  /** `all` has every region made between `t` and `t'` as it is in `t'`; older ones may still change. */
  ghost predicate Finishes(all: seq<Region>, t: Tree, t': Tree) {
    && WellFormed(all) && |t'.all| <= |all|
    && forall r :: |t.all| <= r < |t'.all| ==> SameGuard(t'.all, all, r)
  }

  lemma MatchesConcat(all: seq<Region>, a: seq<Seen>, b: seq<Seen>, gs: seq<Guard>, hs: seq<Guard>)
    requires WellFormed(all) && Matches(all, a, gs) && Matches(all, b, hs)
    ensures Matches(all, a + b, gs + hs)
  {
  }

  lemma FinishesEarlier(all: seq<Region>, t: Tree, t1: Tree, t2: Tree, ns: seq<nat>)
    requires Valid(t) && Valid(t1) && Finishes(all, t, t2) && t1.stack == t.stack && |t.all| <= |t1.all|
    requires Keeps(t1, t2, ns)
    ensures Finishes(all, t, t1) && Finishes(all, t1, t2)
  {
    forall r | |t.all| <= r < |t1.all| ensures SameGuard(t1.all, all, r) {
      assert SameGuard(CutBy(t1, ns).all, t2.all, r) && SameGuard(t2.all, all, r);
    }
  }

  lemma FinishesHead(b: seq<Stmt>, t: Tree, all: seq<Region>)
    requires Valid(t) && b != [] && Finishes(all, t, BuildFrom(t, EmitAll(b)))
    ensures var t1 := BuildFrom(t, Emit(b[0]));
            && t1.stack == t.stack && |t.all| <= |t1.all|
            && Finishes(all, t, t1) && Finishes(all, t1, BuildFrom(t1, EmitAll(b[1..])))
  {
    var t1 := BuildFrom(t, Emit(b[0]));
    BuildConcat(t, Emit(b[0]), EmitAll(b[1..]));
    StmtKeeps(b[0], t);
    AllKeeps(b[1..], t1);
    FinishesEarlier(all, t, t1, BuildFrom(t1, EmitAll(b[1..])), Cuts(b[1..]));
  }

  lemma {:induction false} AnalyzeAll(b: seq<Stmt>, t: Tree, all: seq<Region>)
    requires Valid(t) && Finishes(all, t, BuildFrom(t, EmitAll(b))) && |t.all| <= |all|
    ensures Matches(all, SeenBy(t, EmitAll(b)), GuardsAll(b, EffCond(all, Top(t))))
    decreases b
  {
    if b != [] {
      var t1 := BuildFrom(t, Emit(b[0]));
      BuildConcat(t, Emit(b[0]), EmitAll(b[1..]));
      FinishesHead(b, t, all);
      AnalyzeStmt(b[0], t, all);
      AnalyzeAll(b[1..], t1, all);
      var g := EffCond(all, Top(t));
      MatchesConcat(all, SeenBy(t, Emit(b[0])), SeenBy(t1, EmitAll(b[1..])), GuardsOf(b[0], g), GuardsAll(b[1..], g));
    }
  }

  /** A region made between two trees is finished if it only could change between them. */
  lemma FinishesInner(all: seq<Region>, t: Tree, t1: Tree, t2: Tree, t': Tree)
    requires Finishes(all, t, t') && |t.all| <= |t1.all| && Extends(t2.all, t'.all)
    ensures Finishes(all, t1, t2)
  {
    forall r | |t1.all| <= r < |t2.all| ensures SameGuard(t2.all, all, r) {
      assert SameGuard(t2.all, t'.all, r) && SameGuard(t'.all, all, r);
    }
  }

  /** The guards of a branch's two regions in the finished tree. */
  lemma BranchGuards(s: Stmt, t: Tree, all: seq<Region>)
    requires Valid(t) && s.Branch? && Finishes(all, t, AltTree(t, s)) && |t.all| <= |all|
    requires HitDone(t, s, HitTree(t, s)) && AltDone(t, HitTree(t, s), s.alt, AltTree(t, s))
    ensures var g, h := EffCond(all, Top(t)), Conj(s.cond, Cuts(s.hit));
            && |t.all| < |all| && EffCond(all, |t.all|) == g + h
            && (s.alt.Otherwise? ==> |HitTree(t, s).all| < |all| && EffCond(all, |HitTree(t, s).all|) == g + [Not(h)])
  {
    var t2, t4 := HitTree(t, s), AltTree(t, s);
    assert SameGuard(t2.all, t4.all, |t.all|) && SameGuard(t4.all, all, |t.all|);
    assert RegionOk(all, |t.all|);
    if s.alt.Otherwise? {
      assert SameGuard(t4.all, all, |t2.all|);
      assert RegionOk(all, |t2.all|);
    }
  }

  lemma {:induction false} AnalyzeAlt(s: Stmt, t: Tree, all: seq<Region>)
    requires Valid(t) && s.Branch? && Finishes(all, t, AltTree(t, s)) && |t.all| <= |all|
    requires HitDone(t, s, HitTree(t, s)) && AltDone(t, HitTree(t, s), s.alt, AltTree(t, s))
    ensures var g := EffCond(all, Top(t)) + [Not(Conj(s.cond, Cuts(s.hit)))];
            Matches(all, SeenBy(HitTree(t, s), EmitAlt(s.reg, s.alt)), GuardsAlt(s.alt, g))
    decreases s, 0
  {
    BranchGuards(s, t, all);
    if s.alt.Otherwise? {
      SwitchStep(s, t);
      var t3 := Step(HitTree(t, s), SwitchOf(s.reg, s.alt));
      FinishesInner(all, t, t3, AltTree(t, s), AltTree(t, s));
      AnalyzeAll(s.alt.arm, t3, all);
    }
  }

  lemma SwitchStep(s: Stmt, t: Tree)
    requires Valid(t) && s.Branch? && s.alt.Otherwise? && HitDone(t, s, HitTree(t, s))
    ensures var t2, op := HitTree(t, s), SwitchOf(s.reg, s.alt);
            && Valid(Step(t2, op)) && Top(Step(t2, op)) == |t2.all| && |Step(t2, op).all| == |t2.all| + 1
            && AltTree(t, s) == BuildFrom(Step(t2, op), EmitAll(s.alt.arm))
            && SeenBy(t2, EmitAlt(s.reg, s.alt)) == SeenBy(Step(t2, op), EmitAll(s.alt.arm))
  {
    var t2, op := HitTree(t, s), SwitchOf(s.reg, s.alt);
    BuildOne(t2, op);
    BuildConcat(t2, [op], EmitAll(s.alt.arm));
    assert Top(t2) == |t.all|;
    SwitchKeeps(t2, op);
  }

  lemma {:induction false} AnalyzeHit(s: Stmt, t: Tree, all: seq<Region>)
    requires Valid(t) && s.Branch? && Finishes(all, t, AltTree(t, s)) && |t.all| <= |all|
    requires HitDone(t, s, HitTree(t, s)) && AltDone(t, HitTree(t, s), s.alt, AltTree(t, s))
    ensures var g := EffCond(all, Top(t)) + Conj(s.cond, Cuts(s.hit));
            Matches(all, SeenBy(t, [OpenOf(s)] + EmitAll(s.hit)), GuardsAll(s.hit, g))
    decreases s, 0
  {
    BranchGuards(s, t, all);
    OpenStep(t, s, EmitAll(s.hit));
    var t1 := Step(t, OpenOf(s));
    FinishesInner(all, t, t1, HitTree(t, s), AltTree(t, s));
    AnalyzeAll(s.hit, t1, all);
  }

  /** Whatever later instructions do to the regions that were there before, each listed instruction of
      the statement has the guard the text shows, relative to the region it stands in. */
  lemma {:induction false} AnalyzeStmt(s: Stmt, t: Tree, all: seq<Region>)
    requires Valid(t) && Finishes(all, t, BuildFrom(t, Emit(s))) && |t.all| <= |all|
    ensures Matches(all, SeenBy(t, Emit(s)), GuardsOf(s, EffCond(all, Top(t))))
    decreases s, 1
  {
    if s.Branch? {
      AltKeeps(s, t);
      CloseKeeps(s, t);
      var t2, t4 := HitTree(t, s), AltTree(t, s);
      FinishesInner(all, t, t, t4, BuildFrom(t, Emit(s)));
      AnalyzeHit(s, t, all);
      AnalyzeAlt(s, t, all);
      var g, h := EffCond(all, Top(t)), Conj(s.cond, Cuts(s.hit));
      MatchesConcat(all, SeenBy(t, [OpenOf(s)] + EmitAll(s.hit)), SeenBy(t2, EmitAlt(s.reg, s.alt)),
                    GuardsAll(s.hit, g + h), GuardsAlt(s.alt, g + [Not(h)]));
    } else {
      BuildOne(t, Emit(s)[0]);
    }
  }
}

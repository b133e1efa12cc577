/** Structured control flow recovered from EXEC-mask code: the region tree `StructureAnalysis::build`
    grows while it walks the instructions, and the guards it derives. */
module Regions {
  import opened Options

  datatype Kind = Root | If | Else

  /** A guard is a conjunction; the text the analysis builds joins its terms with " && " and writes a
      negation as "!(...)". An atom stands for the condition recovered at one instruction. */
  datatype Term = Atom(a: nat) | Not(g: seq<Term>)
  type Guard = seq<Term>

  datatype Region = Region(kind: Kind, cond: Guard, header: nat, reconverge: nat, parent: nat,
                           children: seq<nat>, body: seq<nat>, pairedIf: Option<nat>, balanced: bool, effCond: Guard)

  /** The instructions `classify` tells apart, with the save register each one uses. */
  datatype Op =
    | Open(reg: nat, cond: nat, addr: nat, reconverge: nat)   // s_and_saveexec
    | Narrow(cond: nat)                                       // s_and exec, exec, cond
    | Flip(reg: nat, addr: nat)                               // s_andn2_saveexec reg, reg
    | Xor(reg: nat, addr: nat)                                // s_xor exec, exec, reg
    | OrSave(reg: nat, addr: nat)                             // s_or_saveexec reg, reg
    | Reroute(dst: nat, src: nat, addr: nat)                  // s_andn2_saveexec dst, src
    | Close(reg: nat, addr: nat)                              // s_or exec, exec, reg
    | Work(addr: nat, listed: bool)                           // any other; calls and selects are listed

  // ---- the region tree --------------------------------------------------------------------

  datatype Tree = Tree(all: seq<Region>, stack: seq<nat>)

  const RootRegion: Region := Region(Root, [], 0, 0, 0, [], [], None, true, [])
  const Start: Tree := Tree([RootRegion], [0])

  /** Links point backwards in creation order, the root is region 0 and never leaves the stack. */
  ghost predicate WellFormed(all: seq<Region>) {
    && |all| > 0 && all[0].kind == Root && all[0].cond == []
    && forall r :: 0 <= r < |all| ==> RegionOk(all, r)
  }

  ghost predicate RegionOk(all: seq<Region>, r: nat)
    requires r < |all|
  {
    && (r > 0 ==> all[r].parent < r)
    && (all[r].pairedIf.Some? ==> all[r].pairedIf.value < r)
    && (forall i :: 0 <= i < |all[r].children| ==> ChildOk(all, r, all[r].children[i]))
    && (forall i, j :: 0 <= i < j < |all[r].children| ==> all[r].children[i] < all[r].children[j])
    && (r > 0 ==> r in all[all[r].parent].children)
  }

  ghost predicate ChildOk(all: seq<Region>, r: nat, c: nat) { r < c < |all| && all[c].parent == r }

  ghost predicate Valid(t: Tree) {
    && WellFormed(t.all) && |t.stack| > 0 && t.stack[0] == 0
    && (forall i :: 0 <= i < |t.stack| ==> t.stack[i] < |t.all| && (i > 0 ==> t.stack[i] != 0))
  }

  function Top(t: Tree): (r: nat)
    requires Valid(t)
    ensures r < |t.all|
  {
    t.stack[|t.stack| - 1]
  }

  function AddChild(all: seq<Region>, p: nat, r: Region): (s: seq<Region>)
    requires p < |all|
    ensures |s| == |all| + 1
  {
    all[p := all[p].(children := all[p].children + [|all|])] + [r]
  }

  /** `elseRegion` and `rerouteRegion`: a sibling that takes its place on the stack. */
  function Sibling(t: Tree, addr: nat, paired: bool): Tree
    requires Valid(t)
  {
    var cur := Top(t);
    assert RegionOk(t.all, cur);
    if cur == 0 then t
    else
      var e := Region(Else, [], addr, 0, t.all[cur].parent, [], [], if paired then Some(cur) else None, paired, []);
      Tree(AddChild(t.all, t.all[cur].parent, e), t.stack[|t.stack| - 1 := |t.all|])
  }

  /** `openRegion`. */
  function Opened(t: Tree, cond: nat, addr: nat, reconverge: nat): Tree
    requires Valid(t)
  {
    Tree(AddChild(t.all, Top(t), Region(If, [Atom(cond)], addr, reconverge, Top(t), [], [], None, true, [])),
         t.stack + [|t.all|])
  }

  /** `closeRegion`. */
  function Closed(t: Tree, addr: nat): Tree
    requires Valid(t)
  {
    var cur := Top(t);
    if |t.stack| <= 1 then t
    else Tree(t.all[cur := t.all[cur].(balanced := t.all[cur].reconverge == 0 || addr >= t.all[cur].reconverge)],
              t.stack[..|t.stack| - 1])
  }

  /** `narrowRegion`. */
  function Narrowed(t: Tree, cond: nat): Tree
    requires Valid(t)
  {
    var cur := Top(t);
    if cur == 0 then t else t.(all := t.all[cur := t.all[cur].(cond := t.all[cur].cond + [Atom(cond)])])
  }

  function Step(t: Tree, op: Op): (t': Tree)
    requires Valid(t)
  {
    match op
    case Open(_, cond, addr, reconverge) => Opened(t, cond, addr, reconverge)
    case Narrow(cond) => Narrowed(t, cond)
    case Flip(_, addr) => Sibling(t, addr, true)
    case Xor(_, addr) => Sibling(t, addr, true)
    case OrSave(_, addr) => Sibling(t, addr, true)
    case Reroute(_, _, addr) => Sibling(t, addr, false)
    case Close(_, addr) => Closed(t, addr)
    case Work(addr, listed) =>
      if listed then t.(all := t.all[Top(t) := t.all[Top(t)].(body := t.all[Top(t)].body + [addr])]) else t
  }

  lemma AddChildOk(all: seq<Region>, p: nat, r: Region)
    requires WellFormed(all) && p < |all| && r.parent == p && r.children == []
    requires r.pairedIf.Some? ==> r.pairedIf.value < |all|
    ensures WellFormed(AddChild(all, p, r))
  {
    var s := AddChild(all, p, r);
    forall k | 0 <= k < |s| ensures RegionOk(s, k) {
      if k < |all| {
        assert RegionOk(all, k);
        forall i | 0 <= i < |s[k].children| ensures ChildOk(s, k, s[k].children[i]) {
          if i < |all[k].children| { assert ChildOk(all, k, all[k].children[i]); }
        }
        forall i, j | 0 <= i < j < |s[k].children| ensures s[k].children[i] < s[k].children[j] {
          assert ChildOk(all, k, all[k].children[i]);
        }
      }
    }
  }

  /** Changing a region's own condition, body or flag leaves the links alone. */
  lemma UpdateOk(all: seq<Region>, k: nat, r: Region)
    requires WellFormed(all) && k < |all|
    requires r.kind == all[k].kind && r.parent == all[k].parent && r.children == all[k].children &&
             r.pairedIf == all[k].pairedIf
    requires k == 0 ==> r.cond == []
    ensures WellFormed(all[k := r])
  {
    var s := all[k := r];
    forall q | 0 <= q < |s| ensures RegionOk(s, q) {
      assert RegionOk(all, q);
      forall i | 0 <= i < |s[q].children| ensures ChildOk(s, q, s[q].children[i]) {
        assert ChildOk(all, q, all[q].children[i]);
      }
    }
  }

  lemma StepValid(t: Tree, op: Op)
    requires Valid(t)
    ensures Valid(Step(t, op))
  {
    var cur := Top(t);
    assert RegionOk(t.all, cur);
    match op
    case Open(_, c, a, rc) => AddChildOk(t.all, cur, Region(If, [Atom(c)], a, rc, cur, [], [], None, true, []));
    case Narrow(_) => if cur != 0 { UpdateOk(t.all, cur, Step(t, op).all[cur]); }
    case Close(_, _) => if |t.stack| > 1 { UpdateOk(t.all, cur, Step(t, op).all[cur]); }
    case Work(_, listed) => if listed { UpdateOk(t.all, cur, Step(t, op).all[cur]); }
    case Reroute(_, _, a) => if cur != 0 { AddChildOk(t.all, t.all[cur].parent, Step(t, op).all[|t.all|]); }
    case _ => if cur != 0 { AddChildOk(t.all, t.all[cur].parent, Step(t, op).all[|t.all|]); }
  }

  /** The tree after a stream of instructions. */
  function BuildFrom(t: Tree, ops: seq<Op>): (t': Tree)
    requires Valid(t)
    ensures Valid(t')
    decreases |ops|
  {
    if ops == [] then t
    else
      StepValid(t, ops[0]);
      BuildFrom(Step(t, ops[0]), ops[1..])
  }

  // ---- guards -----------------------------------------------------------------------------

  function LocalGuard(all: seq<Region>, r: nat): Guard
    requires WellFormed(all) && r < |all|
    decreases r
  {
    assert RegionOk(all, r);
    if all[r].kind == Else && all[r].pairedIf.Some? then [Not(LocalGuard(all, all[r].pairedIf.value))] else all[r].cond
  }

  /** The guard under which a region runs: its own and all its ancestors'. */
  function EffCond(all: seq<Region>, r: nat): Guard
    requires WellFormed(all) && r < |all|
    decreases r
  {
    assert RegionOk(all, r);
    if r == 0 then [] else EffCond(all, all[r].parent) + LocalGuard(all, r)
  }

  /** Whether a lane satisfies a guard, given the set of atoms that hold in it. */
  predicate Eval(v: set<nat>, g: Guard)
    decreases g
  {
    g == [] || (Eval(v, g[..|g| - 1]) && EvalTerm(v, g[|g| - 1]))
  }

  predicate EvalTerm(v: set<nat>, t: Term)
    decreases t
  {
    match t
    case Atom(a) => a in v
    case Not(g) => !Eval(v, g)
  }

  // ---- regions keep their guards ----------------------------------------------------------

  /** `b` continues `a`: what decides the guard of a region of `a` is as it was. */
  ghost predicate Extends(a: seq<Region>, b: seq<Region>) {
    |a| <= |b| && forall r :: 0 <= r < |a| ==> SameGuard(a, b, r)
  }

  ghost predicate SameGuard(a: seq<Region>, b: seq<Region>, r: nat)
    requires r < |a| && r < |b|
  {
    b[r].kind == a[r].kind && b[r].cond == a[r].cond && b[r].parent == a[r].parent && b[r].pairedIf == a[r].pairedIf
  }

  lemma {:induction false} LocalGuardKept(a: seq<Region>, b: seq<Region>, r: nat)
    requires WellFormed(a) && WellFormed(b) && Extends(a, b) && r < |a|
    ensures LocalGuard(b, r) == LocalGuard(a, r)
    decreases r
  {
    assert RegionOk(a, r) && SameGuard(a, b, r);
    if a[r].pairedIf.Some? { LocalGuardKept(a, b, a[r].pairedIf.value); }
  }

  lemma {:induction false} EffCondKept(a: seq<Region>, b: seq<Region>, r: nat)
    requires WellFormed(a) && WellFormed(b) && Extends(a, b) && r < |a|
    ensures EffCond(b, r) == EffCond(a, r)
    decreases r
  {
    assert RegionOk(a, r) && SameGuard(a, b, r);
    LocalGuardKept(a, b, r);
    if r > 0 { EffCondKept(a, b, a[r].parent); }
  }

  /** Region q is r or lies below it. */
  ghost predicate Under(all: seq<Region>, r: nat, q: nat)
    requires WellFormed(all) && q < |all|
    decreases q
  {
    assert RegionOk(all, q);
    q == r || (q > r && Under(all, r, all[q].parent))
  }

  lemma {:induction false} UnderRoot(all: seq<Region>, q: nat)
    requires WellFormed(all) && q < |all|
    ensures Under(all, 0, q)
  {
    assert RegionOk(all, q);
    if q > 0 { UnderRoot(all, all[q].parent); }
  }

  /** A region below r is below one of r's children. */
  lemma {:induction false} UnderChild(all: seq<Region>, r: nat, q: nat) returns (i: nat)
    requires WellFormed(all) && q < |all| && r < q && Under(all, r, q)
    ensures i < |all[r].children| && Under(all, all[r].children[i], q)
    decreases q
  {
    assert RegionOk(all, q) && RegionOk(all, r);
    var p := all[q].parent;
    if p == r {
      i :| 0 <= i < |all[r].children| && all[r].children[i] == q;
    } else {
      i := UnderChild(all, r, p);
      assert ChildOk(all, r, all[r].children[i]);
    }
  }

  ghost predicate Correct(all: seq<Region>, q: nat)
    requires WellFormed(all) && q < |all|
  {
    all[q].effCond == EffCond(all, q)
  }

  /** `b` differs from `a` only in stored guards. */
  ghost predicate SameTree(a: seq<Region>, b: seq<Region>) {
    |a| == |b| && forall r :: 0 <= r < |a| ==> b[r] == a[r].(effCond := b[r].effCond)
  }

  lemma SameTreeOk(a: seq<Region>, b: seq<Region>)
    requires WellFormed(a) && SameTree(a, b)
    ensures WellFormed(b) && Extends(a, b)
  {
    forall r | 0 <= r < |b| ensures RegionOk(b, r) {
      assert RegionOk(a, r);
      forall i | 0 <= i < |b[r].children|
        ensures ChildOk(b, r, b[r].children[i])
      {
        assert ChildOk(a, r, a[r].children[i]);
      }
    }
  }

  lemma SameTreeUnder(a: seq<Region>, b: seq<Region>, r: nat, q: nat)
    requires WellFormed(a) && WellFormed(b) && SameTree(a, b) && q < |a|
    ensures Under(a, r, q) == Under(b, r, q)
    decreases q
  {
    assert RegionOk(a, q) && RegionOk(b, q);
    if q > 0 { SameTreeUnder(a, b, r, a[q].parent); }
  }

  // ---- the analysis object ----------------------------------------------------------------

  class StructureAnalysis {
    var all: seq<Region>

    /** `makeRegion`. */
    method MakeRegion(r: Region) returns (k: nat)
      modifies this
      ensures k == old(|all|) && all == old(all) + [r]
    {
      k := |all|;
      all := all + [r];
    }

    method OpenRegion(cond: nat, addr: nat, reconverge: nat, stack: seq<nat>) returns (stack': seq<nat>)
      requires Valid(Tree(all, stack))
      modifies this
      ensures Tree(all, stack') == Opened(Tree(old(all), stack), cond, addr, reconverge)
    {
      var cur := stack[|stack| - 1];
      var r := MakeRegion(Region(If, [Atom(cond)], addr, reconverge, cur, [], [], None, true, []));
      all := all[cur := all[cur].(children := all[cur].children + [r])];
      stack' := stack + [r];
    }

    method ElseRegion(addr: nat, stack: seq<nat>) returns (stack': seq<nat>)
      requires Valid(Tree(all, stack))
      modifies this
      ensures Tree(all, stack') == Sibling(Tree(old(all), stack), addr, true)
    {
      var cur := stack[|stack| - 1];
      stack' := stack;
      if cur != 0 {
        assert RegionOk(all, cur);
        var p := all[cur].parent;
        var e := MakeRegion(Region(Else, [], addr, 0, p, [], [], Some(cur), true, []));
        all := all[p := all[p].(children := all[p].children + [e])];
        stack' := stack[|stack| - 1 := e];
      }
    }

    method RerouteRegion(addr: nat, stack: seq<nat>) returns (stack': seq<nat>)
      requires Valid(Tree(all, stack))
      modifies this
      ensures Tree(all, stack') == Sibling(Tree(old(all), stack), addr, false)
    {
      var cur := stack[|stack| - 1];
      stack' := stack;
      if cur != 0 {
        assert RegionOk(all, cur);
        var p := all[cur].parent;
        var e := MakeRegion(Region(Else, [], addr, 0, p, [], [], None, false, []));
        all := all[p := all[p].(children := all[p].children + [e])];
        stack' := stack[|stack| - 1 := e];
      }
    }

    method CloseRegion(addr: nat, stack: seq<nat>) returns (stack': seq<nat>)
      requires Valid(Tree(all, stack))
      modifies this
      ensures Tree(all, stack') == Closed(Tree(old(all), stack), addr)
    {
      stack' := stack;
      if |stack| > 1 {
        var cur := stack[|stack| - 1];
        all := all[cur := all[cur].(balanced := all[cur].reconverge == 0 || addr >= all[cur].reconverge)];
        stack' := stack[..|stack| - 1];
      }
    }

    method NarrowRegion(cond: nat, stack: seq<nat>)
      requires Valid(Tree(all, stack))
      modifies this
      ensures Tree(all, stack) == Narrowed(Tree(old(all), stack), cond)
    {
      var cur := stack[|stack| - 1];
      if cur != 0 {
        all := all[cur := all[cur].(cond := all[cur].cond + [Atom(cond)])];
      }
    }

    /** `localGuard`. */
    method GuardOf(r: nat) returns (g: Guard)
      requires WellFormed(all) && r < |all|
      ensures g == LocalGuard(all, r)
      decreases r
    {
      assert RegionOk(all, r);
      if all[r].kind == Else && all[r].pairedIf.Some? {
        var inner := GuardOf(all[r].pairedIf.value);
        g := [Not(inner)];
      } else {
        g := all[r].cond;
      }
    }

    /** `combineConditions`: stores the effective guard of every region of the subtree. */
    method CombineConditions(r: nat, parentEff: Guard)
      requires WellFormed(all) && r < |all|
      requires parentEff + LocalGuard(all, r) == EffCond(all, r)
      modifies this
      ensures WellFormed(all) && SameTree(old(all), all)
      ensures forall q :: 0 <= q < |all| && (Correct(old(all), q) || Under(old(all), r, q)) ==> Correct(all, q)
      decreases |all| - r
    {
      ghost var was := all;
      var self := GuardOf(r);
      all := all[r := all[r].(effCond :=
        if self == [] then parentEff else if parentEff == [] then self else parentEff + self)];
      var eff, children := all[r].effCond, all[r].children;
      OwnGuard(was, all, r);
      for i := 0 to |children|
        invariant WellFormed(all) && SameTree(was, all) && Combined(was, all, r, children, i)
      {
        ghost var before := all;
        ChildGuard(was, all, r, i);
        CombineConditions(children[i], eff);
        CombinedNext(was, before, all, r, children, i);
      }
      CombinedAll(was, all, r);
    }

    /** The switch over one classified instruction. */
    method Execute(op: Op, stack: seq<nat>) returns (stack': seq<nat>)
      requires Valid(Tree(all, stack))
      modifies this
      ensures Tree(all, stack') == Step(Tree(old(all), stack), op)
    {
      stack' := stack;
      match op
      case Open(_, cond, addr, reconverge) => stack' := OpenRegion(cond, addr, reconverge, stack);
      case Narrow(cond) => NarrowRegion(cond, stack);
      case Flip(_, addr) => stack' := ElseRegion(addr, stack);
      case Xor(_, addr) => stack' := ElseRegion(addr, stack);
      case OrSave(_, addr) => stack' := ElseRegion(addr, stack);
      case Reroute(_, _, addr) => stack' := RerouteRegion(addr, stack);
      case Close(_, addr) => stack' := CloseRegion(addr, stack);
      case Work(addr, listed) =>
        if listed {
          var cur := stack[|stack| - 1];
          all := all[cur := all[cur].(body := all[cur].body + [addr])];
        }
    }

    /** `build`: the stack machine over the instructions, then the guards. */
    constructor (ops: seq<Op>)
      ensures WellFormed(all) && SameTree(BuildFrom(Start, ops).all, all)
      ensures forall q :: 0 <= q < |all| ==> Correct(all, q)
    {
      all := [];
      new;
      var root := MakeRegion(RootRegion);
      var stack := [root];
      assert RegionOk(all, 0);
      assert Tree(all, stack) == Start && ops[0..] == ops;
      for i := 0 to |ops|
        invariant Valid(Tree(all, stack))
        invariant BuildFrom(Tree(all, stack), ops[i..]) == BuildFrom(Start, ops)
      {
        StepValid(Tree(all, stack), ops[i]);
        assert ops[i..][1..] == ops[i + 1..];
        stack := Execute(ops[i], stack);
      }
      assert ops[|ops|..] == [];
      ghost var was := all;
      CombineConditions(0, []);
      forall q | 0 <= q < |all| ensures Correct(all, q) { UnderRoot(was, q); }
    }
  }

  /** After the first n children: their subtrees, r itself and whatever was right before are right. */
  ghost predicate Combined(was: seq<Region>, all: seq<Region>, r: nat, children: seq<nat>, n: nat)
    requires WellFormed(was) && WellFormed(all) && |was| == |all| && n <= |children|
  {
    forall q :: 0 <= q < |all| && (Correct(was, q) || q == r || UnderAny(was, children, n, q)) ==> Correct(all, q)
  }

  ghost predicate UnderAny(all: seq<Region>, rs: seq<nat>, n: nat, q: nat)
    requires WellFormed(all) && q < |all| && n <= |rs|
  {
    exists i :: 0 <= i < n && Under(all, rs[i], q)
  }

  lemma OwnGuard(was: seq<Region>, all: seq<Region>, r: nat)
    requires WellFormed(was) && SameTree(was, all) && r < |all| && all[r].effCond == EffCond(was, r)
    requires forall q :: 0 <= q < |all| && q != r ==> all[q] == was[q]
    ensures WellFormed(all) && Combined(was, all, r, all[r].children, 0)
  {
    SameTreeOk(was, all);
    forall q | 0 <= q < |was| ensures EffCond(all, q) == EffCond(was, q) { EffCondKept(was, all, q); }
  }

  /** The guard handed down to a child is the one its parent ended up with. */
  lemma ChildGuard(was: seq<Region>, all: seq<Region>, r: nat, i: nat)
    requires WellFormed(was) && WellFormed(all) && SameTree(was, all) && r < |all| && i < |was[r].children|
    ensures var c := was[r].children[i]; r < c < |all| && EffCond(was, r) + LocalGuard(all, c) == EffCond(all, c)
  {
    var c := was[r].children[i];
    assert RegionOk(was, r) && ChildOk(was, r, c) && RegionOk(all, c);
    SameTreeOk(was, all);
    EffCondKept(was, all, r);
  }

  lemma CombinedNext(was: seq<Region>, before: seq<Region>, all: seq<Region>, r: nat, children: seq<nat>, i: nat)
    requires WellFormed(was) && WellFormed(before) && WellFormed(all) && SameTree(was, before) && SameTree(before, all)
    requires i < |children| && children[i] < |was| && Combined(was, before, r, children, i)
    requires forall q :: 0 <= q < |all| && (Correct(before, q) || Under(before, children[i], q)) ==> Correct(all, q)
    ensures SameTree(was, all) && Combined(was, all, r, children, i + 1)
  {
    forall q | 0 <= q < |all| && (Correct(was, q) || q == r || UnderAny(was, children, i + 1, q))
      ensures Correct(all, q)
    {
      if !Correct(was, q) && q != r && !UnderAny(was, children, i, q) {
        SameTreeUnder(was, before, children[i], q);
      }
    }
  }

  lemma CombinedAll(was: seq<Region>, all: seq<Region>, r: nat)
    requires WellFormed(was) && WellFormed(all) && |was| == |all| && r < |was|
    requires Combined(was, all, r, was[r].children, |was[r].children|)
    ensures forall q :: 0 <= q < |all| && (Correct(was, q) || Under(was, r, q)) ==> Correct(all, q)
  {
    forall q | 0 <= q < |all| && Under(was, r, q) ensures Correct(all, q) {
      if q != r {
        var i := UnderChild(was, r, q);
        assert UnderAny(was, was[r].children, |was[r].children|, q);
      }
    }
  }
}

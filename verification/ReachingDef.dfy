/** Backward reaching definitions: the depth-first search over predecessor blocks that finds where a
    register's value comes from. */
module ReachingDef {
  import opened Options
  import opened Rpo

  datatype Insn = Insn(addr: nat, writes: set<nat>)
  datatype InEdge = InEdge(kind: EdgeType, src: Option<nat>)

  /** A function's blocks with their instructions in address order, end addresses and in-edges. */
  datatype Code = Code(blocks: set<nat>, insns: nat -> seq<Insn>, end: nat -> nat, sources: nat -> seq<InEdge>)

  predicate FromBlock(e: InEdge) { Intra(e.kind) && e.src.Some? }

  /** In-edges come from the function's blocks, and a block's instructions lie before its end. */
  ghost predicate WellFormed(g: Code) {
    && (forall b, k :: b in g.blocks && 0 <= k < |g.sources(b)| && FromBlock(g.sources(b)[k]) ==>
       g.sources(b)[k].src.value in g.blocks)
    && (forall b, i :: b in g.blocks && 0 <= i < |g.insns(b)| ==> g.insns(b)[i].addr < g.end(b))
  }

  ghost predicate Pred(g: Code, b: nat, p: nat) {
    exists k :: 0 <= k < |g.sources(b)| && g.sources(b)[k].src == Some(p) && Jumps(g.sources(b)[k].kind)
  }

  /** Every edge but a call, a return and a handler. */
  predicate Jumps(kind: EdgeType) { kind != Call && kind != Ret && kind != Catch }

  /** `definesAny`. */
  ghost predicate WritesSome(x: Insn, regs: set<nat>) { exists r :: r in regs && r in x.writes }

  lemma WritesSomeIs(x: Insn, regs: set<nat>)
    ensures WritesSome(x, regs) <==> x.writes * regs != {}
  {
    if WritesSome(x, regs) {
      var r :| r in regs && r in x.writes;
      assert r in x.writes * regs;
    }
    if x.writes * regs != {} {
      var r :| r in x.writes * regs;
      assert r in regs && r in x.writes;
    }
  }

  /** Instruction i is the last one of `xs` that defines `regs` below `before`. */
  ghost predicate LastDef(xs: seq<Insn>, regs: set<nat>, before: nat, i: nat) {
    i < |xs| && xs[i].addr < before && WritesSome(xs[i], regs) && NoDefFrom(xs, regs, before, i + 1)
  }

  ghost predicate NoDefFrom(xs: seq<Insn>, regs: set<nat>, before: nat, n: nat) {
    forall j :: n <= j < |xs| && xs[j].addr < before ==> !WritesSome(xs[j], regs)
  }

  ghost predicate NoDef(g: Code, regs: set<nat>, b: nat, before: nat) { NoDefFrom(g.insns(b), regs, before, 0) }

  /** A definition: instruction i of a block. */
  datatype Def = Def(block: nat, i: nat)

  /** Up to where block k of a path is looked at: the use in the last block, its end in the others. */
  function Limit(g: Code, p: seq<nat>, k: nat, before: nat): nat
    requires k < |p|
  {
    if k == |p| - 1 then before else g.end(p[k])
  }

  /** The definition `d` reaches the use: along block path `p` nothing defines `regs` again, and the
      path keeps out of `stay`. */
  ghost predicate Reaches(g: Code, regs: set<nat>, stay: set<nat>, p: seq<nat>, before: nat, d: Def) {
    && |p| > 0 && p[0] == d.block
    && (forall k :: 0 <= k < |p| ==> p[k] in g.blocks && p[k] !in stay)
    && (forall k :: 0 <= k < |p| - 1 ==> Hop(g, p, k))
    && LastDef(g.insns(p[0]), regs, Limit(g, p, 0, before), d.i)
    && (forall k :: 0 < k < |p| ==> NoDef(g, regs, p[k], Limit(g, p, k, before)))
  }

  ghost predicate Hop(g: Code, p: seq<nat>, k: nat)
    requires k + 1 < |p|
  {
    Pred(g, p[k + 1], p[k])
  }

  /** What a search that found nothing has established about a block it visited: nothing in it defines
      `regs`, and every predecessor has been visited or is to be kept out of. */
  ghost predicate Exhausted(g: Code, regs: set<nat>, stay: set<nat>, visited: set<nat>, b: nat, before: nat) {
    NoDef(g, regs, b, before) && PredsIn(g, b, visited + stay, |g.sources(b)|)
  }

  ghost predicate PredsIn(g: Code, b: nat, s: set<nat>, n: nat)
    requires n <= |g.sources(b)|
  {
    forall k :: 0 <= k < n && FromBlock(g.sources(b)[k]) ==> g.sources(b)[k].src.value in s
  }

  function Bound(g: Code, blk: nat, before: nat, b: nat): nat { if b == blk then before else g.end(b) }

  ghost predicate NewExhausted(g: Code, regs: set<nat>, stay: set<nat>, visited: set<nat>, visited': set<nat>, blk: nat,
                               before: nat) {
    forall b :: b in visited' && b !in visited ==> b in g.blocks &&
                                                   Exhausted(g, regs, stay, visited', b, Bound(g, blk, before, b))
  }

  /** Blocks exhausted with fewer visited blocks stay exhausted. */
  lemma ExhaustedGrows(g: Code, regs: set<nat>, stay: set<nat>, small: set<nat>, large: set<nat>, b: nat, before: nat)
    requires small <= large && Exhausted(g, regs, stay, small, b, before)
    ensures Exhausted(g, regs, stay, large, b, before)
  {
  }

  lemma Extend(g: Code, regs: set<nat>, stay: set<nat>, p: seq<nat>, d: Def, src: nat, blk: nat, before: nat)
    requires Reaches(g, regs, stay, p, g.end(src), d) && p[|p| - 1] == src && Pred(g, blk, src)
    requires blk in g.blocks && blk !in stay && NoDef(g, regs, blk, before)
    ensures Reaches(g, regs, stay, p + [blk], before, d)
  {
    var q := p + [blk];
    forall k | 0 <= k < |q| - 1 ensures Hop(g, q, k) {
      if k < |p| - 1 { assert Hop(g, p, k); }
    }
    forall k | 0 < k < |q| ensures NoDef(g, regs, q[k], Limit(g, q, k, before)) {
      if k < |p| { assert NoDef(g, regs, p[k], Limit(g, p, k, g.end(src))); }
    }
  }

  /** The scan of one block, last instruction first. */
  method ScanBack(xs: seq<Insn>, regs: set<nat>, before: nat) returns (r: Option<nat>)
    ensures r.Some? ==> LastDef(xs, regs, before, r.value)
    ensures r.None? ==> NoDefFrom(xs, regs, before, 0)
  {
    var i := |xs|;
    while i > 0
      invariant 0 <= i <= |xs| && NoDefFrom(xs, regs, before, i)
    {
      i := i - 1;
      if xs[i].addr >= before { continue; }
      WritesSomeIs(xs[i], regs);
      if xs[i].writes * regs != {} { return Some(i); }
    }
    r := None;
  }

  /** `reachingDefInsn`: a definition found is one that reaches the use; a search that comes back
      empty has exhausted every block it added to `visited`. */
  method ReachingDefInsn(g: Code, regs: set<nat>, blk: nat, before: nat, visited: set<nat>, stay: set<nat>)
    returns (found: Option<Def>, visited': set<nat>, ghost p: seq<nat>)
    requires WellFormed(g) && blk in g.blocks && visited <= g.blocks
    ensures visited <= visited' <= g.blocks
    ensures found.Some? ==> Reaches(g, regs, stay, p, before, found.value) && p[|p| - 1] == blk
    ensures found.Some? ==> blk !in p[..|p| - 1] && forall k :: 0 <= k < |p| ==> p[k] !in visited
    ensures found.None? ==> NewExhausted(g, regs, stay, visited, visited', blk, before) && blk in visited' + stay
    decreases g.blocks - visited
  {
    found, visited', p := None, visited, [];
    if blk in visited || blk in stay { return; }
    visited' := visited + {blk};
    var here := ScanBack(g.insns(blk), regs, before);
    if here.Some? {
      found, p := Some(Def(blk, here.value)), [blk];
      return;
    }
    var es := g.sources(blk);
    for k := 0 to |es|
      invariant found.None? && visited + {blk} <= visited' <= g.blocks
      invariant PredsIn(g, blk, visited' + stay, k)
      invariant NewExhausted(g, regs, stay, visited + {blk}, visited', blk, before)
    {
      if Intra(es[k].kind) && es[k].src.Some? {
        ghost var seen := visited';
        assert Pred(g, blk, es[k].src.value);
        found, visited', p := ReachingDefInsn(g, regs, es[k].src.value, g.end(es[k].src.value), visited', stay);
        if found.Some? {
          Extend(g, regs, stay, p, found.value, es[k].src.value, blk, before);
          p := p + [blk];
          return;
        }
        forall b | b in visited' && b !in visited + {blk}
          ensures b in g.blocks && Exhausted(g, regs, stay, visited', b, Bound(g, blk, before, b))
        {
          if b in seen { ExhaustedGrows(g, regs, stay, seen, visited', b, g.end(b)); }
        }
      }
    }
  }

  /** Walking a reaching path backwards from the use never leaves the exhausted blocks. */
  lemma {:induction false} BackInside(g: Code, regs: set<nat>, stay: set<nat>, visited: set<nat>, use: nat, before: nat,
                                      p: seq<nat>, d: Def, k: nat)
    requires NewExhausted(g, regs, stay, {}, visited, use, before) && use in visited
    requires Reaches(g, regs, stay, p, before, d) && p[|p| - 1] == use && k < |p|
    ensures p[k] in visited
    decreases |p| - k
  {
    if k < |p| - 1 {
      BackInside(g, regs, stay, visited, use, before, p, d, k + 1);
      assert Hop(g, p, k);
    }
  }

  /** A definition in an exhausted block can only be the use's own, at or after the use. */
  lemma OnlyAtUse(g: Code, regs: set<nat>, stay: set<nat>, visited: set<nat>, use: nat, before: nat, p: seq<nat>,
                  d: Def)
    requires NewExhausted(g, regs, stay, {}, visited, use, before) && Reaches(g, regs, stay, p, before, d)
    requires p[|p| - 1] == use && p[0] in visited
    ensures |p| > 1 && d.block == use && d.i < |g.insns(use)| && g.insns(use)[d.i].addr >= before
  {
    assert Exhausted(g, regs, stay, visited, p[0], Bound(g, use, before, p[0]));
    var x := g.insns(p[0])[d.i];
    assert x.addr < Limit(g, p, 0, before) && WritesSome(x, regs);
    assert x.addr >= Bound(g, use, before, p[0]);
  }

  /** The definition reaches the use without passing the use's block on the way. */
  ghost predicate ReachesOnce(g: Code, regs: set<nat>, stay: set<nat>, p: seq<nat>, use: nat, before: nat, d: Def) {
    Reaches(g, regs, stay, p, before, d) && p[|p| - 1] == use && use !in p[..|p| - 1]
  }

  /** The search finds a definition exactly when one reaches the use without coming round through the
      use's own block; what it finds does so outside `stay`. So when it finds nothing, the only
      definitions that can reach are those of the use's block at or after the use. */
  method FindDef(g: Code, regs: set<nat>, use: nat, before: nat, stay: set<nat>) returns (found: Option<Def>)
    requires WellFormed(g) && use in g.blocks
    ensures found.Some? <==> exists p, d :: ReachesOnce(g, regs, stay, p, use, before, d)
    ensures found.Some? ==> found.value.block !in stay &&
                            exists p :: ReachesOnce(g, regs, stay, p, use, before, found.value)
    ensures found.None? ==> forall q, d :: Reaches(g, regs, stay, q, before, d) && q[|q| - 1] == use ==>
              d.block == use && d.i < |g.insns(use)| && g.insns(use)[d.i].addr >= before
  {
    var visited;
    ghost var p;
    found, visited, p := ReachingDefInsn(g, regs, use, before, {}, stay);
    if found.Some? {
      assert ReachesOnce(g, regs, stay, p, use, before, found.value);
    } else {
      forall q, d | Reaches(g, regs, stay, q, before, d) && q[|q| - 1] == use
        ensures d.block == use && d.i < |g.insns(use)| && g.insns(use)[d.i].addr >= before && use in q[..|q| - 1]
      {
        assert use in visited;
        BackInside(g, regs, stay, visited, use, before, q, d, 0);
        OnlyAtUse(g, regs, stay, visited, use, before, q, d);
        assert q[..|q| - 1][0] == use;
      }
    }
  }

  /** A loop of one block whose only definition comes after the use. */
  const LOOP: Code := Code({0}, b => [Insn(0, {}), Insn(1, {7})], b => 2, b => [InEdge(Direct, Some(0))])

  /** Its definition reaches the use, round the loop, and only so: the search does not see it. */
  lemma LoopDefinitionMissed()
    ensures WellFormed(LOOP) && Reaches(LOOP, {7}, {}, [0, 0], 0, Def(0, 1))
    ensures forall p, d :: !ReachesOnce(LOOP, {7}, {}, p, 0, 0, d)
  {
    assert LOOP.insns(0)[1].writes * {7} == {7};
    assert FromBlock(LOOP.sources(0)[0]);
    assert Hop(LOOP, [0, 0], 0);
    forall p, d ensures !ReachesOnce(LOOP, {7}, {}, p, 0, 0, d) { }
  }
}

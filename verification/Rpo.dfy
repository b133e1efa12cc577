/** Reverse post-order with an explicit work stack, the order in which the region builder reads the
    blocks of a function. */
module Rpo {
  import opened Options

  datatype EdgeType = CondTaken | CondNotTaken | Direct | Fallthrough | CallFt | Indirect | Call | Ret | Catch

  /** `intraEdge`: edges that stay inside the function. */
  predicate Intra(t: EdgeType) {
    t == CondTaken || t == CondNotTaken || t == Direct || t == Fallthrough || t == CallFt || t == Indirect
  }

  datatype Edge = Edge(kind: EdgeType, trg: Option<nat>)

  /** A function's blocks, its entry and each block's out-edges. */
  datatype Cfg = Cfg(mine: set<nat>, entry: nat, targets: nat -> seq<Edge>)

  predicate Follows(g: Cfg, e: Edge) { Intra(e.kind) && e.trg.Some? && e.trg.value in g.mine }

  /** `v` is a successor of `u` inside the function. */
  ghost predicate Succ(g: Cfg, u: nat, v: nat) {
    exists k :: 0 <= k < |g.targets(u)| && Follows(g, g.targets(u)[k]) && g.targets(u)[k].trg.value == v
  }

  // ---- reachability -----------------------------------------------------------------------

  ghost predicate Path(g: Cfg, p: seq<nat>) { |p| > 0 && forall k :: 0 <= k < |p| - 1 ==> Hop(g, p, k) }

  ghost predicate Hop(g: Cfg, p: seq<nat>, k: nat)
    requires k + 1 < |p|
  {
    Succ(g, p[k], p[k + 1])
  }

  ghost predicate PathFrom(g: Cfg, p: seq<nat>, u: nat, v: nat) { Path(g, p) && p[0] == u && p[|p| - 1] == v }

  ghost predicate Reach(g: Cfg, u: nat, v: nat) { exists p: seq<nat> :: PathFrom(g, p, u, v) }

  lemma ReachRefl(g: Cfg, u: nat)
    ensures Reach(g, u, u)
  {
    assert PathFrom(g, [u], u, u);
  }

  lemma ReachStep(g: Cfg, u: nat, v: nat)
    requires Succ(g, u, v)
    ensures Reach(g, u, v)
  {
    assert Hop(g, [u, v], 0);
    assert PathFrom(g, [u, v], u, v);
  }

  lemma ReachTrans(g: Cfg, u: nat, v: nat, w: nat)
    requires Reach(g, u, v) && Reach(g, v, w)
    ensures Reach(g, u, w)
  {
    var p :| PathFrom(g, p, u, v);
    var q :| PathFrom(g, q, v, w);
    var r := p + q[1..];
    forall k | 0 <= k < |r| - 1 ensures Hop(g, r, k) {
      if k < |p| - 1 {
        assert Hop(g, p, k) && r[k] == p[k] && r[k + 1] == p[k + 1];
      } else {
        assert Hop(g, q, k - |p| + 1) && r[k] == q[k - |p| + 1] && r[k + 1] == q[k - |p| + 2];
      }
    }
    assert PathFrom(g, r, u, w);
  }

  // ---- the work stack ---------------------------------------------------------------------

  datatype Item = Item(block: nat, expanded: bool)

  /** Where a block's marker is on the stack. */
  ghost predicate OpenAt(work: seq<Item>, i: nat, b: nat) { i < |work| && work[i] == Item(b, true) }

  ghost predicate Open(work: seq<Item>, b: nat) { exists i :: OpenAt(work, i, b) }

  /** Nothing is listed or marked twice, and exactly the listed and the marked blocks are seen. */
  ghost predicate Marks(post: seq<nat>, seen: set<nat>, work: seq<Item>) {
    && (forall i, j :: 0 <= i < j < |post| ==> post[i] != post[j])
    && (forall i, j :: 0 <= i < j < |work| && work[i].expanded && work[j].expanded ==> work[i].block != work[j].block)
    && (forall b :: b in post ==> !Open(work, b))
    && (forall b :: b in seen <==> b in post || Open(work, b))
  }

  /** Everything on the stack above a marker is reached from the marked block. */
  ghost predicate Nested(g: Cfg, work: seq<Item>) {
    forall i, j :: 0 <= i < j < |work| && work[i].expanded ==> Reach(g, work[i].block, work[j].block)
  }

  ghost predicate FromEntry(g: Cfg, post: seq<nat>, work: seq<Item>) {
    && (forall b :: b in post ==> Reach(g, g.entry, b))
    && (forall i :: 0 <= i < |work| ==> Reach(g, g.entry, work[i].block) &&
                                        (work[i].block == g.entry || work[i].block in g.mine))
    && (forall b :: b in post ==> b == g.entry || b in g.mine)
  }

  ghost predicate Waiting(work: seq<Item>, i: nat, v: nat) { exists j :: i < j < |work| && work[j].block == v }

  /** A marked block's successors are all seen or waiting above it. */
  ghost predicate Covered(g: Cfg, seen: set<nat>, work: seq<Item>) {
    forall i, v :: 0 <= i < |work| && work[i].expanded && Succ(g, work[i].block, v) ==> v in seen || Waiting(work, i, v)
  }

  ghost predicate Before(post: seq<nat>, v: nat, n: nat) { n <= |post| && v in post[..n] }

  /** A listed block's successors are seen, and each is listed before it or reaches it. */
  ghost predicate Settled(g: Cfg, post: seq<nat>, seen: set<nat>) {
    forall i, v :: 0 <= i < |post| && Succ(g, post[i], v) ==> v in seen && (Before(post, v, i) || Reach(g, v, post[i]))
  }

  /** The entry stays at the bottom until everything else is done. */
  ghost predicate EntryLast(g: Cfg, post: seq<nat>, seen: set<nat>, work: seq<Item>) {
    if work == [] then |post| > 0 && post[|post| - 1] == g.entry
    else work[0].block == g.entry && (work[0].expanded || (|work| == 1 && post == [] && seen == {}))
  }

  /** Every waiting or marked block but the lowest has a marked predecessor below it, and every listed
      block but the entry a predecessor that is still marked or listed after it. */
  ghost predicate Entered(g: Cfg, post: seq<nat>, work: seq<Item>) {
    && (forall j :: 0 < j < |work| ==> HasOpener(g, work, j))
    && (forall i :: 0 <= i < |post| && post[i] != g.entry ==> HasParent(g, post, work, i))
  }

  ghost predicate HasOpener(g: Cfg, work: seq<Item>, j: nat)
    requires j < |work|
  {
    exists i :: 0 <= i < j && work[i].expanded && Succ(g, work[i].block, work[j].block)
  }

  ghost predicate HasParent(g: Cfg, post: seq<nat>, work: seq<Item>, i: nat)
    requires i < |post|
  {
    exists u: nat :: Succ(g, u, post[i]) && (Open(work, u) || ListedAfter(post, i, u))
  }

  ghost predicate ListedAfter(post: seq<nat>, i: nat, u: nat) { exists k :: i < k < |post| && post[k] == u }

  ghost predicate Inv(g: Cfg, post: seq<nat>, seen: set<nat>, work: seq<Item>) {
    Marks(post, seen, work) && Nested(g, work) && FromEntry(g, post, work) && Covered(g, seen, work)
    && Settled(g, post, seen) && EntryLast(g, post, seen, work) && Entered(g, post, work)
  }

  /** The markers left when the top of the stack comes off. */
  lemma OpenBelow(work: seq<Item>, c: nat)
    requires |work| > 0
    ensures Open(work, c) <==> Open(work[..|work| - 1], c) || work[|work| - 1] == Item(c, true)
  {
    var n, rest := |work| - 1, work[..|work| - 1];
    if Open(work, c) {
      var i: nat :| OpenAt(work, i, c);
      if i < n { assert OpenAt(rest, i, c); }
    }
    if Open(rest, c) {
      var i: nat :| OpenAt(rest, i, c);
      assert OpenAt(work, i, c);
    }
    if work[n] == Item(c, true) { assert OpenAt(work, n, c); }
  }

  lemma PopMarks(post: seq<nat>, seen: set<nat>, work: seq<Item>)
    requires Marks(post, seen, work) && |work| > 0 && work[|work| - 1].expanded
    ensures Marks(post + [work[|work| - 1].block], seen, work[..|work| - 1])
  {
    var n := |work| - 1;
    var b, rest := work[n].block, work[..n];
    forall c: nat ensures Open(work, c) <==> Open(rest, c) || c == b { OpenBelow(work, c); }
    assert !Open(rest, b);
  }

  /** The successors of a block whose marker comes off the stack. */
  lemma PopSettles(g: Cfg, post: seq<nat>, seen: set<nat>, work: seq<Item>, v: nat)
    requires Marks(post, seen, work) && Nested(g, work) && Covered(g, seen, work)
    requires |work| > 0 && work[|work| - 1].expanded && Succ(g, work[|work| - 1].block, v)
    ensures v in seen && (v in post || Reach(g, v, work[|work| - 1].block))
  {
    var n := |work| - 1;
    assert !Waiting(work, n, v);
    if v !in post {
      var i: nat :| OpenAt(work, i, v);
      if i == n { ReachRefl(g, v); }
    }
  }

  lemma PopSettled(g: Cfg, post: seq<nat>, seen: set<nat>, work: seq<Item>)
    requires Marks(post, seen, work) && Nested(g, work) && Covered(g, seen, work) && Settled(g, post, seen)
    requires |work| > 0 && work[|work| - 1].expanded
    ensures Settled(g, post + [work[|work| - 1].block], seen)
  {
    var post' := post + [work[|work| - 1].block];
    forall i, v | 0 <= i < |post'| && Succ(g, post'[i], v)
      ensures v in seen && (Before(post', v, i) || Reach(g, v, post'[i]))
    {
      if i < |post| {
        assert post'[i] == post[i] && post'[..i] == post[..i];
      } else {
        PopSettles(g, post, seen, work, v);
        assert post'[..i] == post;
      }
    }
  }

  /** Openers lie below, so a shorter stack keeps them. */
  lemma OpenersBelow(g: Cfg, work: seq<Item>)
    requires |work| > 0 && forall j :: 0 < j < |work| ==> HasOpener(g, work, j)
    ensures var rest := work[..|work| - 1]; forall j :: 0 < j < |rest| ==> HasOpener(g, rest, j)
  {
    var rest := work[..|work| - 1];
    forall j | 0 < j < |rest| ensures HasOpener(g, rest, j) {
      assert HasOpener(g, work, j);
      var i :| 0 <= i < j && work[i].expanded && Succ(g, work[i].block, work[j].block);
      assert rest[i] == work[i] && rest[j] == work[j];
    }
  }

  lemma PopEntered(g: Cfg, post: seq<nat>, seen: set<nat>, work: seq<Item>)
    requires Entered(g, post, work) && EntryLast(g, post, seen, work) && |work| > 0 && work[|work| - 1].expanded
    ensures Entered(g, post + [work[|work| - 1].block], work[..|work| - 1])
  {
    var n := |work| - 1;
    var b, rest := work[n].block, work[..n];
    var post' := post + [b];
    OpenersBelow(g, work);
    forall i | 0 <= i < |post'| && post'[i] != g.entry ensures HasParent(g, post', rest, i) {
      if i < |post| {
        assert HasParent(g, post, work, i);
        var u: nat :| Succ(g, u, post[i]) && (Open(work, u) || ListedAfter(post, i, u));
        OpenBelow(work, u);
        if ListedAfter(post, i, u) {
          var k :| i < k < |post| && post[k] == u;
          assert post'[k] == u;
        } else if !Open(rest, u) {
          assert post'[|post|] == u;
        }
        assert Succ(g, u, post'[i]) && (Open(rest, u) || ListedAfter(post', i, u));
      } else {
        assert HasOpener(g, work, n);
        var k: nat :| k < n && work[k].expanded && Succ(g, work[k].block, b);
        assert OpenAt(rest, k, work[k].block);
      }
    }
  }

  /** Popping a marker lists its block. */
  lemma PopMarker(g: Cfg, post: seq<nat>, seen: set<nat>, work: seq<Item>)
    requires Inv(g, post, seen, work) && |work| > 0 && work[|work| - 1].expanded
    ensures Inv(g, post + [work[|work| - 1].block], seen, work[..|work| - 1])
  {
    var n := |work| - 1;
    var b, rest := work[n].block, work[..n];
    PopMarks(post, seen, work);
    PopSettled(g, post, seen, work);
    PopEntered(g, post, seen, work);
    assert OpenAt(work, n, b);
    forall i, v | 0 <= i < |rest| && rest[i].expanded && Succ(g, rest[i].block, v)
      ensures v in seen || Waiting(rest, i, v)
    {
      if v !in seen {
        var j :| i < j < |work| && work[j].block == v;
        assert j < n && rest[j].block == v;
      }
    }
  }

  /** Popping a block seen meanwhile drops it. */
  lemma PopSeen(g: Cfg, post: seq<nat>, seen: set<nat>, work: seq<Item>)
    requires Inv(g, post, seen, work) && |work| > 0 && !work[|work| - 1].expanded && work[|work| - 1].block in seen
    ensures Inv(g, post, seen, work[..|work| - 1])
  {
    var n := |work| - 1;
    var rest := work[..n];
    forall c: nat ensures Open(rest, c) <==> Open(work, c) { OpenBelow(work, c); }
    OpenersBelow(g, work);
    forall i | 0 <= i < |post| && post[i] != g.entry ensures HasParent(g, post, rest, i) {
      assert HasParent(g, post, work, i);
    }
    forall i, v | 0 <= i < |rest| && rest[i].expanded && Succ(g, rest[i].block, v)
      ensures v in seen || Waiting(rest, i, v)
    {
      if Waiting(work, i, v) && v !in seen {
        var j :| i < j < |work| && work[j].block == v;
        assert rest[j].block == v;
      }
    }
  }

  /** The unseen successors along the first n edges of `b`, in edge order. */
  function Pushed(g: Cfg, b: nat, seen: set<nat>, n: nat): seq<Item>
    requires n <= |g.targets(b)|
  {
    if n == 0 then []
    else
      var e := g.targets(b)[n - 1];
      Pushed(g, b, seen, n - 1) + (if Follows(g, e) && e.trg.value !in seen then [Item(e.trg.value, false)] else [])
  }

  lemma {:induction false} PushedAre(g: Cfg, b: nat, seen: set<nat>, n: nat)
    requires n <= |g.targets(b)|
    ensures forall i :: 0 <= i < |Pushed(g, b, seen, n)| ==> PushedItem(g, b, Pushed(g, b, seen, n)[i])
    ensures forall k :: 0 <= k < n && Follows(g, g.targets(b)[k]) && g.targets(b)[k].trg.value !in seen ==>
              Item(g.targets(b)[k].trg.value, false) in Pushed(g, b, seen, n)
  {
    if n > 0 {
      PushedAre(g, b, seen, n - 1);
      var e := g.targets(b)[n - 1];
      if Follows(g, e) { assert Succ(g, b, e.trg.value); }
    }
  }

  /** `at` are the edges that lead to the pushed blocks, in edge order: all that stay in the function, by
      whatever jump or fall-through, and go somewhere unseen; calls, returns and handlers do not. */
  ghost predicate PushedAlong(g: Cfg, b: nat, seen: set<nat>, at: seq<nat>, items: seq<Item>, n: nat) {
    && |at| == |items| && n <= |g.targets(b)|
    && (forall i :: 0 <= i < |at| ==> at[i] < n && items[i] == Item(Target(g, b, at[i]), false))
    && (forall i, j :: 0 <= i < j < |at| ==> at[i] < at[j])
    && (forall k :: 0 <= k < n ==> (k in at <==> Inside(g, b, k) && Target(g, b, k) !in seen))
  }

  function Target(g: Cfg, b: nat, k: nat): nat {
    if k < |g.targets(b)| && g.targets(b)[k].trg.Some? then g.targets(b)[k].trg.value else 0
  }

  predicate Inside(g: Cfg, b: nat, k: nat) {
    k < |g.targets(b)| && g.targets(b)[k].trg.Some? && g.targets(b)[k].trg.value in g.mine &&
    g.targets(b)[k].kind != Call && g.targets(b)[k].kind != Ret && g.targets(b)[k].kind != Catch
  }

  lemma {:induction false} PushedInOrder(g: Cfg, b: nat, seen: set<nat>, n: nat) returns (at: seq<nat>)
    requires n <= |g.targets(b)|
    ensures PushedAlong(g, b, seen, at, Pushed(g, b, seen, n), n)
  {
    if n == 0 {
      at := [];
    } else {
      at := PushedInOrder(g, b, seen, n - 1);
      if Inside(g, b, n - 1) && Target(g, b, n - 1) !in seen {
        var before := at;
        at := at + [n - 1];
        forall k | 0 <= k < n ensures k in at <==> Inside(g, b, k) && Target(g, b, k) !in seen {
          if k == n - 1 { assert at[|before|] == k; }
        }
      }
    }
  }

  ghost predicate PushedItem(g: Cfg, b: nat, x: Item) { !x.expanded && Succ(g, b, x.block) && x.block in g.mine }

  /** The stack after `b` comes off it for the first time. */
  function Expanded(g: Cfg, rest: seq<Item>, b: nat, seen: set<nat>): seq<Item> {
    rest + [Item(b, true)] + Pushed(g, b, seen + {b}, |g.targets(b)|)
  }

  lemma ExpandMarks(g: Cfg, post: seq<nat>, seen: set<nat>, work: seq<Item>)
    requires Marks(post, seen, work) && |work| > 0 && !work[|work| - 1].expanded && work[|work| - 1].block !in seen
    ensures var b := work[|work| - 1].block; Marks(post, seen + {b}, Expanded(g, work[..|work| - 1], b, seen))
  {
    var n := |work| - 1;
    var b, rest := work[n].block, work[..n];
    var work' := Expanded(g, rest, b, seen);
    PushedAre(g, b, seen + {b}, |g.targets(b)|);
    assert OpenAt(work', n, b);
    forall i | n < i < |work'| ensures !work'[i].expanded { assert PushedItem(g, b, work'[i]); }
    forall c | c != b ensures Open(work', c) <==> Open(work, c) {
      if Open(work, c) {
        var i: nat :| OpenAt(work, i, c);
        assert OpenAt(work', i, c);
      }
      if Open(work', c) {
        var i: nat :| OpenAt(work', i, c);
        assert i < n && OpenAt(work, i, c);
      }
    }
    forall i, j | 0 <= i < j < |work'| && work'[i].expanded && work'[j].expanded
      ensures work'[i].block != work'[j].block
    {
      assert j <= n && i < n;
      assert OpenAt(work, i, work[i].block);
    }
  }

  lemma ExpandNested(g: Cfg, post: seq<nat>, seen: set<nat>, work: seq<Item>)
    requires Nested(g, work) && FromEntry(g, post, work) && |work| > 0 && !work[|work| - 1].expanded
    ensures var b := work[|work| - 1].block;
            var work' := Expanded(g, work[..|work| - 1], b, seen);
            Nested(g, work') && FromEntry(g, post, work')
  {
    var n := |work| - 1;
    var b, rest := work[n].block, work[..n];
    var work' := Expanded(g, rest, b, seen);
    PushedAre(g, b, seen + {b}, |g.targets(b)|);
    forall i | n < i < |work'| ensures !work'[i].expanded { assert PushedItem(g, b, work'[i]); }
    forall i | n < i < |work'|
      ensures Reach(g, b, work'[i].block) && work'[i].block in g.mine && Reach(g, g.entry, work'[i].block)
    {
      assert PushedItem(g, b, work'[i]);
      ReachStep(g, b, work'[i].block);
      assert Reach(g, g.entry, work[n].block);
      ReachTrans(g, g.entry, b, work'[i].block);
    }
    forall i, j | 0 <= i < j < |work'| && work'[i].expanded ensures Reach(g, work'[i].block, work'[j].block) {
      if i < n && j > n {
        assert Reach(g, work[i].block, work[n].block);
        ReachTrans(g, work[i].block, b, work'[j].block);
      } else if i < n {
        assert Reach(g, work[i].block, work[j].block);
      }
    }
  }

  lemma ExpandCovered(g: Cfg, post: seq<nat>, seen: set<nat>, work: seq<Item>)
    requires Covered(g, seen, work) && |work| > 0 && !work[|work| - 1].expanded
    ensures var b := work[|work| - 1].block; Covered(g, seen + {b}, Expanded(g, work[..|work| - 1], b, seen))
  {
    var n := |work| - 1;
    var b, rest := work[n].block, work[..n];
    var work' := Expanded(g, rest, b, seen);
    PushedAre(g, b, seen + {b}, |g.targets(b)|);
    forall i | n < i < |work'| ensures !work'[i].expanded { assert PushedItem(g, b, work'[i]); }
    forall i, v | 0 <= i < |work'| && work'[i].expanded && Succ(g, work'[i].block, v)
      ensures v in seen + {b} || Waiting(work', i, v)
    {
      if i < n {
        assert work[i] == work'[i];
        if v !in seen {
          var j :| i < j < |work| && work[j].block == v;
          assert work'[j].block == v;
        }
      } else if i == n && v !in seen + {b} {
        assert Item(v, false) in Pushed(g, b, seen + {b}, |g.targets(b)|);
        var j :| 0 <= j < |Pushed(g, b, seen + {b}, |g.targets(b)|)| &&
          Pushed(g, b, seen + {b}, |g.targets(b)|)[j] == Item(v, false);
        assert work'[n + 1 + j] == Item(v, false);
      }
    }
  }

  lemma ExpandEntered(g: Cfg, post: seq<nat>, seen: set<nat>, work: seq<Item>)
    requires Entered(g, post, work) && |work| > 0 && !work[|work| - 1].expanded
    ensures var b := work[|work| - 1].block; Entered(g, post, Expanded(g, work[..|work| - 1], b, seen))
  {
    var n := |work| - 1;
    var b, rest := work[n].block, work[..n];
    var work' := Expanded(g, rest, b, seen);
    PushedAre(g, b, seen + {b}, |g.targets(b)|);
    forall j | 0 < j < |work'| ensures HasOpener(g, work', j) {
      if j <= n {
        assert HasOpener(g, work, j);
        var i :| 0 <= i < j && work[i].expanded && Succ(g, work[i].block, work[j].block);
        assert work'[i] == work[i] && work'[j].block == work[j].block;
      } else {
        assert PushedItem(g, b, work'[j]) && work'[n] == Item(b, true);
      }
    }
    forall i | 0 <= i < |post| && post[i] != g.entry ensures HasParent(g, post, work', i) {
      assert HasParent(g, post, work, i);
      var u: nat :| Succ(g, u, post[i]) && (Open(work, u) || ListedAfter(post, i, u));
      if Open(work, u) {
        var k: nat :| OpenAt(work, k, u);
        assert OpenAt(work', k, u);
      }
    }
  }

  lemma SettledGrows(g: Cfg, post: seq<nat>, seen: set<nat>, b: nat)
    requires Settled(g, post, seen)
    ensures Settled(g, post, seen + {b})
  {
  }

  /** Popping a new block marks it and pushes its unseen successors. */
  lemma PopNew(g: Cfg, post: seq<nat>, seen: set<nat>, work: seq<Item>)
    requires Inv(g, post, seen, work) && |work| > 0 && !work[|work| - 1].expanded && work[|work| - 1].block !in seen
    ensures var b := work[|work| - 1].block; Inv(g, post, seen + {b}, Expanded(g, work[..|work| - 1], b, seen))
  {
    ExpandMarks(g, post, seen, work);
    ExpandNested(g, post, seen, work);
    ExpandCovered(g, post, seen, work);
    ExpandEntered(g, post, seen, work);
    SettledGrows(g, post, seen, work[|work| - 1].block);
  }

  // ---- the listing ------------------------------------------------------------------------

  function Reversed(s: seq<nat>): (r: seq<nat>)
    ensures |r| == |s| && forall i :: 0 <= i < |s| ==> r[i] == s[|s| - 1 - i]
  {
    seq(|s|, i requires 0 <= i < |s| => s[|s| - 1 - i])
  }

  /** Exactly the reachable blocks, each once, the entry first. */
  ghost predicate Lists(g: Cfg, r: seq<nat>) {
    && |r| > 0 && r[0] == g.entry
    && (forall i, j :: 0 <= i < j < |r| ==> r[i] != r[j])
    && (forall b: nat :: b in r <==> Reach(g, g.entry, b))
  }

  /** An edge goes to a later block, or back to one that reaches its source. */
  ghost predicate Forward(g: Cfg, r: seq<nat>) {
    forall i, j :: 0 <= i < |r| && 0 <= j < |r| && Succ(g, r[i], r[j]) ==> i < j || Reach(g, r[j], r[i])
  }

  /** Every block but the entry comes after one that leads to it, so a region's opening is read before
      its body. */
  ghost predicate Led(g: Cfg, r: seq<nat>) {
    forall j :: 0 < j < |r| ==> LedTo(g, r, j)
  }

  ghost predicate LedTo(g: Cfg, r: seq<nat>, j: nat)
    requires j < |r|
  {
    exists i :: 0 <= i < j && Succ(g, r[i], r[j])
  }

  lemma {:induction false} ClosedReaches(g: Cfg, post: seq<nat>, p: seq<nat>)
    requires Path(g, p) && p[0] in post
    requires forall i, v :: 0 <= i < |post| && Succ(g, post[i], v) ==> v in post
    ensures p[|p| - 1] in post
    decreases |p|
  {
    if |p| > 1 {
      assert Hop(g, p, 0);
      var i :| 0 <= i < |post| && post[i] == p[0];
      forall k | 0 <= k < |p[1..]| - 1 ensures Hop(g, p[1..], k) { assert Hop(g, p, k + 1); }
      ClosedReaches(g, post, p[1..]);
    }
  }

  lemma InReversed(s: seq<nat>, b: nat)
    ensures b in Reversed(s) <==> b in s
  {
    if b in s {
      var i :| 0 <= i < |s| && s[i] == b;
      assert Reversed(s)[|s| - 1 - i] == b;
    }
  }

  lemma ReversedForward(g: Cfg, post: seq<nat>, seen: set<nat>)
    requires Settled(g, post, seen) && forall i, j :: 0 <= i < j < |post| ==> post[i] != post[j]
    ensures Forward(g, Reversed(post))
  {
    var r := Reversed(post);
    forall i, j | 0 <= i < |r| && 0 <= j < |r| && Succ(g, r[i], r[j]) ensures i < j || Reach(g, r[j], r[i]) {
      var u := |post| - 1 - i;
      assert post[u] == r[i];
      if Before(post, r[j], u) {
        var k :| 0 <= k < u && post[k] == r[j];
        assert k == |post| - 1 - j;
      }
    }
  }

  /** With the stack empty, a parent is listed. */
  lemma ParentListed(g: Cfg, post: seq<nat>, i: nat) returns (k: nat)
    requires i < |post| && HasParent(g, post, [], i)
    ensures i < k < |post| && Succ(g, post[k], post[i])
  {
    var u: nat :| Succ(g, u, post[i]) && (Open([], u) || ListedAfter(post, i, u));
    assert !Open([], u);
    k :| i < k < |post| && post[k] == u;
  }

  lemma ReversedLed(g: Cfg, post: seq<nat>)
    requires forall i :: 0 <= i < |post| && post[i] != g.entry ==> HasParent(g, post, [], i)
    requires |post| > 0 && post[|post| - 1] == g.entry && forall i, j :: 0 <= i < j < |post| ==> post[i] != post[j]
    ensures Led(g, Reversed(post))
  {
    var r := Reversed(post);
    forall j | 0 < j < |r| ensures LedTo(g, r, j) {
      var i := |post| - 1 - j;
      var k := ParentListed(g, post, i);
      assert r[|post| - 1 - k] == post[k] && r[j] == post[i];
    }
  }

  lemma ReversedLists(g: Cfg, post: seq<nat>, seen: set<nat>)
    requires Marks(post, seen, []) && FromEntry(g, post, []) && EntryLast(g, post, seen, [])
    requires forall i, v :: 0 <= i < |post| && Succ(g, post[i], v) ==> v in post
    ensures Lists(g, Reversed(post))
  {
    forall b: nat ensures b in Reversed(post) <==> b in post { InReversed(post, b); }
    forall b: nat | Reach(g, g.entry, b) ensures b in post {
      var p :| PathFrom(g, p, g.entry, b);
      ClosedReaches(g, post, p);
    }
  }

  lemma SettledClosed(g: Cfg, post: seq<nat>, seen: set<nat>)
    requires Marks(post, seen, []) && Settled(g, post, seen)
    ensures forall i, v :: 0 <= i < |post| && Succ(g, post[i], v) ==> v in post
  {
    forall b: nat ensures !Open([], b) { }
  }

  lemma Finished(g: Cfg, post: seq<nat>, seen: set<nat>)
    requires Inv(g, post, seen, [])
    ensures Lists(g, Reversed(post)) && Forward(g, Reversed(post)) && Led(g, Reversed(post))
  {
    SettledClosed(g, post, seen);
    ReversedLists(g, post, seen);
    ReversedForward(g, post, seen);
    ReversedLed(g, post);
  }

  lemma InvStart(g: Cfg)
    ensures Inv(g, [], {}, [Item(g.entry, false)])
  {
    ReachRefl(g, g.entry);
    var work := [Item(g.entry, false)];
    forall b ensures !Open(work, b) { }
  }

  /** Marking one more block leaves fewer unseen. */
  lemma FewerUnseen(all: set<nat>, seen: set<nat>, b: nat)
    requires b in all && b !in seen
    ensures |all - (seen + {b})| < |all - seen|
  {
    assert all - (seen + {b}) == (all - seen) - {b};
  }

  /** The inner loop: push the unseen successors of `b`. */
  method PushTargets(g: Cfg, b: nat, seen: set<nat>, work: seq<Item>) returns (work': seq<Item>)
    ensures work' == work + Pushed(g, b, seen, |g.targets(b)|)
  {
    work' := work;
    var es := g.targets(b);
    for k := 0 to |es|
      invariant work' == work + Pushed(g, b, seen, k)
    {
      if Intra(es[k].kind) && es[k].trg.Some? && es[k].trg.value in g.mine && es[k].trg.value !in seen {
        work' := work' + [Item(es[k].trg.value, false)];
      }
    }
  }

  method ReversePostOrder(g: Cfg) returns (r: seq<nat>)
    ensures Lists(g, r) && Forward(g, r) && Led(g, r)
  {
    var post: seq<nat>, seen: set<nat> := [], {};
    var work := [Item(g.entry, false)];
    InvStart(g);
    while work != []
      invariant Inv(g, post, seen, work)
      decreases |g.mine + {g.entry} - seen|, |work|
    {
      var b, expanded := work[|work| - 1].block, work[|work| - 1].expanded;
      if expanded {
        PopMarker(g, post, seen, work);
        work := work[..|work| - 1];
        post := post + [b];
      } else if b in seen {
        PopSeen(g, post, seen, work);
        work := work[..|work| - 1];
      } else {
        PopNew(g, post, seen, work);
        FewerUnseen(g.mine + {g.entry}, seen, b);
        work := work[..|work| - 1];
        seen := seen + {b};
        work := PushTargets(g, b, seen, work + [Item(b, true)]);
      }
    }
    Finished(g, post, seen);
    r := Reversed(post);
  }

  /** On a graph without cycles the listing is a topological order. */
  lemma Topological(g: Cfg, r: seq<nat>)
    requires Lists(g, r) && Forward(g, r)
    requires forall u: nat, v: nat :: Succ(g, u, v) ==> !Reach(g, v, u)
    ensures forall i, j :: 0 <= i < |r| && 0 <= j < |r| && Succ(g, r[i], r[j]) ==> i < j
  {
  }
}

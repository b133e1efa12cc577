/** What a region records besides its guard: where it begins, where its block's lanes should meet again,
    and whether its close came too early. */
module RegionFields {
  import opened Options
  import opened Sequences
  import opened Regions
  import opened RegionMeaning
  import opened ExecMask
  import opened GuardSound

  /** Where a region begins and should reconverge never changes. */
  lemma {:induction false} PlacesKept(t: Tree, ops: seq<Op>, r: nat)
    requires Valid(t) && r < |t.all|
    ensures var t' := BuildFrom(t, ops);
            r < |t'.all| && t'.all[r].header == t.all[r].header && t'.all[r].reconverge == t.all[r].reconverge &&
            t'.all[r].kind == t.all[r].kind
    decreases |ops|
  {
    if ops != [] {
      StepValid(t, ops[0]);
      assert RegionOk(t.all, Top(t));
      PlacesKept(Step(t, ops[0]), ops[1..], r);
    }
  }

  /** The flags of the regions there were are the same. */
  ghost predicate SameFlags(t: Tree, t': Tree) {
    |t.all| <= |t'.all| && forall r :: 0 <= r < |t.all| ==> t'.all[r].balanced == t.all[r].balanced
  }

  lemma OpFlags(t: Tree, op: Op)
    requires Valid(t) && !op.Close?
    ensures SameFlags(t, Step(t, op))
  {
    assert RegionOk(t.all, Top(t));
  }

  /** Structured code sets the flags of its own regions only. */
  lemma {:induction false} AllFlags(b: seq<Stmt>, t: Tree)
    requires Valid(t)
    ensures SameFlags(t, BuildFrom(t, EmitAll(b)))
    decreases b
  {
    if b != [] {
      StmtFlags(b[0], t);
      AllFlags(b[1..], BuildFrom(t, Emit(b[0])));
      BuildConcat(t, Emit(b[0]), EmitAll(b[1..]));
    }
  }

  lemma {:induction false} StmtFlags(s: Stmt, t: Tree)
    requires Valid(t)
    ensures SameFlags(t, BuildFrom(t, Emit(s)))
    decreases s, 2
  {
    if s.Branch? {
      HitFlags(s, t);
      AltFlags(s, t);
      AltKeeps(s, t);
      BranchCloses(s, t);
    } else {
      BuildOne(t, Emit(s)[0]);
      OpFlags(t, Emit(s)[0]);
    }
  }

  lemma {:induction false} HitFlags(s: Stmt, t: Tree)
    requires Valid(t) && s.Branch?
    ensures SameFlags(Step(t, OpenOf(s)), HitTree(t, s)) && SameFlags(t, HitTree(t, s))
    decreases s, 0
  {
    OpenStep(t, s, EmitAll(s.hit));
    OpFlags(t, OpenOf(s));
    AllFlags(s.hit, Step(t, OpenOf(s)));
  }

  lemma {:induction false} AltFlags(s: Stmt, t: Tree)
    requires Valid(t) && s.Branch?
    ensures SameFlags(HitTree(t, s), AltTree(t, s))
    decreases s, 1
  {
    if s.alt.Otherwise? {
      var t2, op := HitTree(t, s), SwitchOf(s.reg, s.alt);
      BuildHead(t2, op, EmitAll(s.alt.arm));
      OpFlags(t2, op);
      AllFlags(s.alt.arm, Step(t2, op));
    }
  }

  /** A branch ends with the close of the region that stands for its last arm. */
  lemma BranchCloses(s: Stmt, t: Tree)
    requires Valid(t) && s.Branch? && AltDone(t, HitTree(t, s), s.alt, AltTree(t, s)) && HitDone(t, s, HitTree(t, s))
    requires SameFlags(t, AltTree(t, s))
    ensures BuildFrom(t, Emit(s)) == Closed(AltTree(t, s), s.end)
    ensures Top(AltTree(t, s)) >= |t.all| && SameFlags(t, BuildFrom(t, Emit(s)))
    ensures BuildFrom(t, Emit(s)).stack == t.stack
  {
    var arms, close := [OpenOf(s)] + EmitAll(s.hit), Close(s.reg, s.end);
    BuildConcat(t, arms, EmitAlt(s.reg, s.alt));
    BuildConcat(t, arms + EmitAlt(s.reg, s.alt), [close]);
    BuildOne(AltTree(t, s), close);
    BranchTop(s, t);
  }

  /** The region on top at the end of a branch: its own, or that of its else. */
  lemma BranchTop(s: Stmt, t: Tree)
    requires Valid(t) && s.Branch?
    ensures Top(AltTree(t, s)) == if s.alt.Otherwise? then |HitTree(t, s).all| else |t.all|
    ensures |AltTree(t, s).stack| == |t.stack| + 1 && AltTree(t, s).stack[..|t.stack|] == t.stack
    ensures |HitTree(t, s).all| > |t.all|
  {
    AltKeeps(s, t);
    if s.alt.Otherwise? {
      SwitchStep(s, t);
      var t3 := Step(HitTree(t, s), SwitchOf(s.reg, s.alt));
      AllKeeps(s.alt.arm, t3);
    }
  }

  /** What the analysis records for a branch, whatever stands before it and follows it: its region begins
      where the open stands and expects the lanes back at the address given there; without an else it is
      regular exactly if no address was given or the close comes no earlier, with one its region and the
      else's, which begins at the switch, are regular. */
  lemma BranchRecorded(before: seq<Op>, s: Stmt, after: seq<Op>)
    requires s.Branch?
    ensures var t, t' := BuildFrom(Start, before), BuildFrom(Start, before + Emit(s) + after);
            var r, e := |t.all|, |HitTree(t, s).all|;
            && r < |t'.all| && t'.all[r].kind == If && t'.all[r].header == s.addr
            && t'.all[r].reconverge == s.reconverge
            && (s.alt.NoElse? ==> t'.all[r].balanced == (s.reconverge == 0 || s.end >= s.reconverge))
            && (s.alt.Otherwise? ==>
                  && t'.all[r].balanced
                  && e < |t'.all| && t'.all[e].kind == Else && t'.all[e].header == s.alt.addr && t'.all[e].balanced)
  {
    var t := BuildFrom(Start, before);
    RunTidy(Start, before);
    BuildConcat(Start, before + Emit(s), after);
    BuildConcat(Start, before, Emit(s));
    IfRecorded(t, s);
    if s.alt.Otherwise? { ElseRecorded(t, s); }
    RunTidy(t, Emit(s));
    var t5 := BuildFrom(t, Emit(s));
    AltKeeps(s, t);
    HitFlags(s, t);
    AltFlags(s, t);
    BranchCloses(s, t);
    PlacesKept(t5, after, |t.all|);
    FlagKept(t5, after, |t.all|);
    if s.alt.Otherwise? {
      BranchTop(s, t);
      PlacesKept(t5, after, |HitTree(t, s).all|);
      FlagKept(t5, after, |HitTree(t, s).all|);
    }
  }

  lemma IfRecorded(t: Tree, s: Stmt)
    requires Valid(t) && s.Branch?
    ensures var t5, r := BuildFrom(t, Emit(s)), |t.all|;
            && r < |t5.all| && t5.all[r].kind == If && t5.all[r].header == s.addr &&
               t5.all[r].reconverge == s.reconverge
            && (s.alt.NoElse? ==> t5.all[r].balanced == (s.reconverge == 0 || s.end >= s.reconverge))
            && (s.alt.Otherwise? ==> t5.all[r].balanced)
  {
    var t1, r := Step(t, OpenOf(s)), |t.all|;
    OpenStep(t, s, EmitAll(s.hit));
    assert t1.all[r] == Region(If, [Atom(s.cond)], s.addr, s.reconverge, Top(t), [], [], None, true, []);
    PlacesKept(t1, EmitAll(s.hit), r);
    PlacesKept(HitTree(t, s), EmitAlt(s.reg, s.alt), r);
    AltKeeps(s, t);
    HitFlags(s, t);
    AltFlags(s, t);
    BranchCloses(s, t);
    BranchTop(s, t);
  }

  lemma ElseRecorded(t: Tree, s: Stmt)
    requires Valid(t) && s.Branch? && s.alt.Otherwise?
    ensures var t5, e := BuildFrom(t, Emit(s)), |HitTree(t, s).all|;
            e < |t5.all| && t5.all[e].kind == Else && t5.all[e].header == s.alt.addr && t5.all[e].balanced
  {
    var t2, op, e := HitTree(t, s), SwitchOf(s.reg, s.alt), |HitTree(t, s).all|;
    AltKeeps(s, t);
    assert Top(t2) == |t.all| > 0;
    SwitchStep(s, t);
    var t3 := Step(t2, op);
    assert t3.all[e].header == s.alt.addr && t3.all[e].reconverge == 0 && t3.all[e].kind == Else;
    PlacesKept(t3, EmitAll(s.alt.arm), e);
    HitFlags(s, t);
    AltFlags(s, t);
    BranchCloses(s, t);
    BranchTop(s, t);
  }

  /** A reroute: unless the function's own region is on top, it puts a region in its place that shows no
      condition of its own, so that it runs under its parent's guard, and that is marked irregular. */
  lemma RerouteRecorded(before: seq<Op>, dst: nat, src: nat, addr: nat)
    ensures var t, t' := BuildFrom(Start, before), BuildFrom(Start, before + [Reroute(dst, src, addr)]);
            if Top(t) == 0 then t' == t
            else
              var e, p := |t.all|, t.all[Top(t)].parent;
              && Top(t') == e && t'.all[e].kind == Else && t'.all[e].header == addr && !t'.all[e].balanced
              && p < e && EffCond(t'.all, e) == EffCond(t.all, p)
  {
    var t, op := BuildFrom(Start, before), Reroute(dst, src, addr);
    BuildConcat(Start, before, [op]);
    BuildOne(t, op);
    StepValid(t, op);
    assert RegionOk(t.all, Top(t));
    if Top(t) != 0 {
      var t', p := Step(t, op), t.all[Top(t)].parent;
      forall r | 0 <= r < |t.all| ensures SameGuard(t.all, t'.all, r) { }
      EffCondKept(t.all, t'.all, p);
      assert EffCond(t'.all, p) + [] == EffCond(t'.all, p);
    }
  }

  /** With the function's own region on top, whatever would end, replace or narrow it changes nothing. */
  lemma RootStays(before: seq<Op>, op: Op)
    requires Top(BuildFrom(Start, before)) == 0
    requires op.Narrow? || op.Flip? || op.Xor? || op.OrSave? || op.Reroute? || op.Close?
    ensures BuildFrom(Start, before + [op]) == BuildFrom(Start, before)
  {
    BuildConcat(Start, before, [op]);
    BuildOne(BuildFrom(Start, before), op);
  }

  /** A reroute right after an open sends on the lanes that fail the condition, and only them; the guard
      shown for it holds in every lane. */
  lemma RerouteMisread(v: set<nat>, l: Lane, open: Op, dst: nat, addr: nat)
    requires open.Open?
    ensures var ops := [open, Reroute(dst, open.reg, addr)];
            var t := BuildFrom(Start, ops);
            Eval(v, EffCond(t.all, Top(t))) && RunLane(v, l, ops).exec == (l.exec && open.cond !in v)
  {
    var reroute := Reroute(dst, open.reg, addr);
    assert [open, reroute] == [open] + [reroute];
    BuildOne(Start, open);
    RerouteRecorded([open], dst, open.reg, addr);
    RunOne(v, l, open);
    RunOne(v, LaneStep(v, l, open), reroute);
    RunConcat(v, l, [open], [reroute]);
  }
}

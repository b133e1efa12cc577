/** One lane per wave makes the hostcall: the elected lane is the first active one in EXEC. */
module Election {
  /** The lanes of `exec` below `lane`, counted in its two 32-bit halves. */
  function MbcntLo(exec: set<nat>, lane: nat): nat { |set l | l in exec && l < 32 && l < lane| }

  function MbcntHi(exec: set<nat>, lane: nat, lo: nat): nat { lo + |set l | l in exec && 32 <= l && l < lane| }

  /** `hc_first_active_lane`, as lane `lane` evaluates it. */
  predicate Elected(exec: set<nat>, lane: nat) { MbcntHi(exec, lane, MbcntLo(exec, lane)) == 0 }

  /** An active lane is elected just when no active lane is below it. */
  lemma ElectedIsFirst(exec: set<nat>, lane: nat)
    ensures Elected(exec, lane) <==> forall l :: l in exec ==> l >= lane
  {
    var lo, hi := set l | l in exec && l < 32 && l < lane, set l | l in exec && 32 <= l && l < lane;
    assert |lo| == 0 <==> lo == {};
    assert |hi| == 0 <==> hi == {};
    if Elected(exec, lane) {
      forall l | l in exec ensures l >= lane {
        assert l !in lo && l !in hi;
      }
    } else if lo != {} {
      var l :| l in lo;
    } else {
      var l :| l in hi;
    }
  }

  /** Whatever lanes are active, as long as there is one, exactly one of them is elected. */
  lemma {:induction false} ElectsOne(exec: set<nat>) returns (lane: nat)
    requires exec != {}
    ensures lane in exec && Elected(exec, lane) && forall l :: l in exec && Elected(exec, l) ==> l == lane
    decreases |exec|
  {
    lane :| lane in exec;
    if exec != {lane} {
      var rest := exec - {lane};
      var other := ElectsOne(rest);
      ElectedIsFirst(rest, other);
      if other < lane { lane := other; }
    }
    ElectedIsFirst(exec, lane);
    forall l | l in exec && Elected(exec, l) ensures l == lane { ElectedIsFirst(exec, l); }
  }
}

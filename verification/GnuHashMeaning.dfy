/** What the GNU hash table is made of, in closed form: the hash as a polynomial, the Bloom word bit by
    bit, and the order of the symbols. */
module GnuHashMeaning {
  import opened Arith
  import opened Bytes
  import opened GnuHash

  // ---- the hash ---------------------------------------------------------------------------

  function Pow33(n: nat): nat { if n == 0 then 1 else 33 * Pow33(n - 1) }

  /** The sum of s[i] * 33^(|s| - 1 - i). */
  function Weighed(s: seq<byte>): nat
    decreases |s|
  {
    if s == [] then 0 else s[0] as int * Pow33(|s| - 1) + Weighed(s[1..])
  }

  lemma ModShift(x: nat, p: nat, t: nat)
    ensures (x % WORD * p + t) % WORD == (x * p + t) % WORD
  {
    var q, r := x / WORD, x % WORD;
    assert x == q * WORD + r;
    assert x * p == q * WORD * p + r * p;
    assert q * WORD * p == (q * p) * WORD;
    AddMultiple(r * p + t, q * p);
  }

  lemma AddMultiple(a: nat, k: nat)
    ensures (a + k * WORD) % WORD == a % WORD
  {
  }

  lemma OneMore(h: nat, c: nat, p: nat, t: nat)
    ensures (h * 33 + c) * p + t == h * (33 * p) + (c * p + t)
  {
    assert (h * 33 + c) * p == h * 33 * p + c * p;
    assert h * 33 * p == h * (33 * p);
  }

  lemma {:induction false} HashFromForm(h: nat, s: seq<byte>)
    requires h < WORD
    ensures HashFrom(h, s) == (h * Pow33(|s|) + Weighed(s)) % WORD
    decreases |s|
  {
    if s != [] {
      var c, p, t := s[0] as int, Pow33(|s| - 1), Weighed(s[1..]);
      HashFromForm((h * 33 + c) % WORD, s[1..]);
      ModShift(h * 33 + c, p, t);
      OneMore(h, c, p, t);
    }
  }

  /** The hash is a polynomial in 33 of the bytes, most significant first, over the start value 5381, on
      32-bit words. */
  lemma HashForm(s: seq<byte>)
    ensures Hash(s) == (5381 * Pow33(|s|) + Weighed(s)) % WORD
  {
    HashFromForm(5381, s);
  }

  // ---- the Bloom word ---------------------------------------------------------------------

  function Pow2(n: nat): (r: nat)
    ensures r > 0
  {
    if n == 0 then 1 else 2 * Pow2(n - 1)
  }

  lemma DivTwice(h: nat, p: nat)
    requires p > 0
    ensures h / 2 / p == h / (2 * p)
  {
    var a := h / 2;
    var q, r := a / p, a % p;
    assert a == q * p + r;
    assert q * (2 * p) == 2 * (q * p);
    DivUnique(q, 2 * r + h % 2, 2 * p);
  }

  lemma {:induction false} ShiftedIs(h: nat, shift: nat)
    ensures Shifted(h, shift) == h / Pow2(shift)
    decreases shift
  {
    if shift > 0 {
      ShiftedIs(h / 2, shift - 1);
      DivTwice(h, Pow2(shift - 1));
    }
  }

  ghost predicate SetsBit(h: nat, shift: nat, k: nat) { k == h % 64 || k == h / Pow2(shift) % 64 }

  /** Bit k of the Bloom word is set by the hashes whose low six bits are k, before or after the shift. */
  lemma {:induction false} BloomIs(hs: seq<nat>, shift: nat, k: nat)
    ensures k in BloomOf(hs, shift) <==> exists i :: 0 <= i < |hs| && SetsBit(hs[i], shift, k)
  {
    if hs != [] {
      var init, h := hs[..|hs| - 1], hs[|hs| - 1];
      BloomIs(init, shift, k);
      ShiftedIs(h, shift);
      assert k in Bits(h, shift) <==> SetsBit(h, shift, k);
      if i :| 0 <= i < |init| && SetsBit(init[i], shift, k) { assert SetsBit(hs[i], shift, k); }
      if i :| 0 <= i < |hs| && SetsBit(hs[i], shift, k) { assert i < |init| ==> SetsBit(init[i], shift, k); }
    }
  }

  // ---- the order of the symbols -----------------------------------------------------------

  /** Locals come first, then undefined globals, then the defined ones. */
  function Rank(x: Sym): nat { if x.local then 0 else if !x.defined then 1 else 2 }

  /** `at` are the places in `syms` that `picked` was taken from, from left to right: all that `keep`. */
  ghost predicate TakenFrom(syms: seq<Sym>, picked: seq<Sym>, at: seq<nat>, rank: nat) {
    && |at| == |picked|
    && (forall i :: 0 <= i < |at| ==> at[i] < |syms| && syms[at[i]] == picked[i])
    && (forall i, j :: 0 <= i < j < |at| ==> at[i] < at[j])
    && (forall k :: 0 <= k < |syms| ==> (Rank(syms[k]) == rank <==> k in at))
  }

  lemma TakeOne(init: seq<Sym>, x: Sym, picked: seq<Sym>, at: seq<nat>, rank: nat)
    requires TakenFrom(init, picked, at, rank) && Rank(x) == rank
    ensures TakenFrom(init + [x], picked + [x], at + [|init|], rank)
  {
    var syms, at' := init + [x], at + [|init|];
    forall k | 0 <= k < |syms| ensures Rank(syms[k]) == rank <==> k in at' {
      if k < |init| { assert syms[k] == init[k]; } else { assert at'[|at|] == k; }
    }
  }

  lemma TakeNone(init: seq<Sym>, x: Sym, picked: seq<Sym>, at: seq<nat>, rank: nat)
    requires TakenFrom(init, picked, at, rank) && Rank(x) != rank
    ensures TakenFrom(init + [x], picked, at, rank)
  {
    var syms := init + [x];
    forall k | 0 <= k < |syms| ensures Rank(syms[k]) == rank <==> k in at {
      if k < |init| { assert syms[k] == init[k]; }
    }
  }

  lemma {:induction false} SelectTakes(syms: seq<Sym>, local: bool, defined: bool) returns (at: seq<nat>)
    requires local ==> !defined
    ensures TakenFrom(syms, Select(syms, local, defined), at, if local then 0 else if defined then 2 else 1)
  {
    if syms == [] {
      at := [];
    } else {
      var init, x := syms[..|syms| - 1], syms[|syms| - 1];
      var rank := if local then 0 else if defined then 2 else 1;
      var before := SelectTakes(init, local, defined);
      assert syms == init + [x];
      if Wanted(x, local, defined) {
        at := before + [|init|];
        TakeOne(init, x, Select(init, local, defined), before, rank);
      } else {
        at := before;
        TakeNone(init, x, Select(init, local, defined), before, rank);
        assert Select(init, local, defined) + [] == Select(init, local, defined);
      }
    }
  }

  /** The reordered symbols are locals, undefined globals and defined globals; of the first two each group
      keeps the order it had, and the defined ones are sorted by bucket and, within a bucket, keep theirs. */
  lemma OrderedIs(syms: seq<Sym>) returns (locals: seq<Sym>, undefs: seq<Sym>, defs: seq<Sym>,
                                           a: seq<nat>, b: seq<nat>, c: seq<nat>)
    ensures TakenFrom(syms, locals, a, 0) && TakenFrom(syms, undefs, b, 1) && TakenFrom(syms, defs, c, 2)
    ensures Ordered(syms) == locals + undefs + Sorted(defs, if |defs| > 1 then |defs| else 1)
  {
    locals, undefs, defs := Select(syms, true, false), Select(syms, false, false), Select(syms, false, true);
    a := SelectTakes(syms, true, false);
    b := SelectTakes(syms, false, false);
    c := SelectTakes(syms, false, true);
  }
}

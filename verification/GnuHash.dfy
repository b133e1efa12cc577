/** The DT_GNU_HASH table: how it is regenerated after the dynamic symbols change, and that the
    loader's lookup and the audit library's symbol count work on what is regenerated. */
module GnuHash {
  import opened Bytes
  import opened Options

  /** A dynamic symbol; `value` is its address, 0 for none. */
  datatype Sym = Sym(name: seq<byte>, local: bool, defined: bool, value: nat)

  // ---- the hash ---------------------------------------------------------------------------

  function HashFrom(h: nat, s: seq<byte>): (r: nat)
    requires h < WORD
    ensures r < WORD
    decreases |s|
  {
    if s == [] then h else HashFrom((h * 33 + s[0] as int) % WORD, s[1..])
  }

  function Hash(s: seq<byte>): (r: nat)
    ensures r < WORD
  {
    HashFrom(5381, s)
  }

  /** `gnu_hash`. */
  method GnuHash(s: seq<byte>) returns (h: nat)
    ensures h == Hash(s)
  {
    h := 5381;
    for k := 0 to |s|
      invariant h < WORD && HashFrom(h, s[k..]) == Hash(s)
    {
      assert s[k..][0] == s[k] && s[k..][1..] == s[k + 1..];
      h := (h * 33 + s[k] as int) % WORD;
    }
    assert s[|s|..] == [];
  }

  // ---- reordering -------------------------------------------------------------------------

  /** The locals, or the globals that are defined or not. */
  predicate Wanted(x: Sym, local: bool, defined: bool) { x.local == local && (local || x.defined == defined) }

  function Select(syms: seq<Sym>, local: bool, defined: bool): (r: seq<Sym>)
    ensures |r| <= |syms|
  {
    if syms == [] then []
    else
      var x := syms[|syms| - 1];
      Select(syms[..|syms| - 1], local, defined) + (if Wanted(x, local, defined) then [x] else [])
  }

  lemma {:induction false} SelectIs(syms: seq<Sym>, local: bool, defined: bool)
    ensures forall i :: 0 <= i < |Select(syms, local, defined)| ==>
            Wanted(Select(syms, local, defined)[i], local, defined)
  {
    if syms != [] { SelectIs(syms[..|syms| - 1], local, defined); }
  }

  function Bucket(x: Sym, nb: nat): (b: nat)
    requires nb > 0
    ensures b < nb
  {
    Hash(x.name) % nb
  }

  ghost predicate ByBucket(xs: seq<Sym>, nb: nat)
    requires nb > 0
  {
    forall i, j :: 0 <= i < j < |xs| ==> Bucket(xs[i], nb) <= Bucket(xs[j], nb)
  }

  /** Insert after everything of the same or a smaller bucket. */
  function Insert(xs: seq<Sym>, x: Sym, nb: nat): (r: seq<Sym>)
    requires nb > 0
    ensures |r| == |xs| + 1
  {
    if xs == [] || Bucket(xs[|xs| - 1], nb) <= Bucket(x, nb) then xs + [x]
    else Insert(xs[..|xs| - 1], x, nb) + [xs[|xs| - 1]]
  }

  /** The stable sort by bucket. */
  function Sorted(xs: seq<Sym>, nb: nat): (r: seq<Sym>)
    requires nb > 0
    ensures |r| == |xs|
  {
    if xs == [] then [] else Insert(Sorted(xs[..|xs| - 1], nb), xs[|xs| - 1], nb)
  }

  lemma {:induction false} InsertContents(xs: seq<Sym>, x: Sym, nb: nat)
    requires nb > 0
    ensures multiset(Insert(xs, x, nb)) == multiset(xs) + multiset{x}
  {
    if xs == [] || Bucket(xs[|xs| - 1], nb) <= Bucket(x, nb) {
    } else {
      var init, z := xs[..|xs| - 1], xs[|xs| - 1];
      InsertContents(init, x, nb);
      assert xs == init + [z];
    }
  }

  ghost predicate AtMost(xs: seq<Sym>, nb: nat, b: nat)
    requires nb > 0
  {
    forall i :: 0 <= i < |xs| ==> Bucket(xs[i], nb) <= b
  }

  lemma {:induction false} InsertAtMost(xs: seq<Sym>, x: Sym, nb: nat, b: nat)
    requires nb > 0 && AtMost(xs, nb, b) && Bucket(x, nb) <= b
    ensures AtMost(Insert(xs, x, nb), nb, b)
  {
    if xs != [] && Bucket(xs[|xs| - 1], nb) > Bucket(x, nb) { InsertAtMost(xs[..|xs| - 1], x, nb, b); }
  }

  lemma {:induction false} InsertOrdered(xs: seq<Sym>, x: Sym, nb: nat)
    requires nb > 0 && ByBucket(xs, nb)
    ensures ByBucket(Insert(xs, x, nb), nb)
  {
    if xs != [] && Bucket(xs[|xs| - 1], nb) > Bucket(x, nb) {
      InsertOrdered(xs[..|xs| - 1], x, nb);
      InsertAtMost(xs[..|xs| - 1], x, nb, Bucket(xs[|xs| - 1], nb));
    }
  }

  /** The members of one bucket, in order. */
  function Members(xs: seq<Sym>, nb: nat, b: nat): seq<Sym>
    requires nb > 0
  {
    if xs == [] then []
    else Members(xs[..|xs| - 1], nb, b) + (if Bucket(xs[|xs| - 1], nb) == b then [xs[|xs| - 1]] else [])
  }

  lemma {:induction false} InsertMembers(xs: seq<Sym>, x: Sym, nb: nat, b: nat)
    requires nb > 0
    ensures Members(Insert(xs, x, nb), nb, b) == Members(xs + [x], nb, b)
  {
    if xs == [] || Bucket(xs[|xs| - 1], nb) <= Bucket(x, nb) {
    } else {
      var init, z := xs[..|xs| - 1], xs[|xs| - 1];
      InsertMembers(init, x, nb, b);
      assert Insert(xs, x, nb)[..|xs|] == Insert(init, x, nb);
      assert (xs + [x])[..|xs|] == xs && (init + [x])[..|init|] == init;
    }
  }

  lemma {:induction false} SortedMembers(xs: seq<Sym>, nb: nat, b: nat)
    requires nb > 0
    ensures Members(Sorted(xs, nb), nb, b) == Members(xs, nb, b)
  {
    if xs != [] {
      var init, x := xs[..|xs| - 1], xs[|xs| - 1];
      SortedMembers(init, nb, b);
      InsertMembers(Sorted(init, nb), x, nb, b);
      assert (Sorted(init, nb) + [x])[..|init|] == Sorted(init, nb);
    }
  }

  lemma SnocContents(s: seq<Sym>, x: Sym)
    ensures multiset(s + [x]) == multiset(s) + multiset{x}
  {
  }

  lemma {:induction false} SortedContents(xs: seq<Sym>, nb: nat)
    requires nb > 0
    ensures multiset(Sorted(xs, nb)) == multiset(xs)
  {
    if xs != [] {
      var init, x := xs[..|xs| - 1], xs[|xs| - 1];
      SortedContents(init, nb);
      InsertContents(Sorted(init, nb), x, nb);
      SnocContents(init, x);
      assert xs == init + [x];
    }
  }

  lemma {:induction false} SortedOrdered(xs: seq<Sym>, nb: nat)
    requires nb > 0
    ensures ByBucket(Sorted(xs, nb), nb)
  {
    if xs != [] {
      SortedOrdered(xs[..|xs| - 1], nb);
      InsertOrdered(Sorted(xs[..|xs| - 1], nb), xs[|xs| - 1], nb);
    }
  }

  /** The sort orders by bucket, loses and adds nothing, and keeps each bucket's own order. */
  lemma SortedIs(xs: seq<Sym>, nb: nat)
    requires nb > 0
    ensures ByBucket(Sorted(xs, nb), nb)
    ensures multiset(Sorted(xs, nb)) == multiset(xs)
    ensures forall b: nat :: Members(Sorted(xs, nb), nb, b) == Members(xs, nb, b)
  {
    SortedOrdered(xs, nb);
    SortedContents(xs, nb);
    forall b: nat ensures Members(Sorted(xs, nb), nb, b) == Members(xs, nb, b) { SortedMembers(xs, nb, b); }
  }

  function NBuckets(n: nat): (nb: nat)
    ensures nb > 0
  {
    if n == 0 then 1 else n
  }

  function Hashed(syms: seq<Sym>): seq<Sym> { Sorted(Select(syms, false, true), NBuckets(|Select(syms, false, true)|)) }

  function Unhashed(syms: seq<Sym>): seq<Sym> { Select(syms, true, false) + Select(syms, false, false) }

  /** The order the symbols end up in: locals, undefined globals, defined globals by bucket. */
  function Ordered(syms: seq<Sym>): seq<Sym> { Unhashed(syms) + Hashed(syms) }

  function Count(s: seq<Sym>, y: Sym): nat { multiset(s)[y] }

  lemma CountSnoc(s: seq<Sym>, x: Sym, y: Sym)
    ensures Count(s + [x], y) == Count(s, y) + (if x == y then 1 else 0)
  {
  }

  lemma {:induction false} SelectCount(syms: seq<Sym>, local: bool, defined: bool, y: Sym)
    ensures Count(Select(syms, local, defined), y) == if Wanted(y, local, defined) then Count(syms, y) else 0
  {
    if syms != [] {
      var init, x := syms[..|syms| - 1], syms[|syms| - 1];
      SelectCount(init, local, defined, y);
      CountSnoc(init, x, y);
      CountSnoc(Select(init, local, defined), x, y);
      assert syms == init + [x];
    }
  }

  lemma SelectSplits(syms: seq<Sym>)
    ensures multiset(syms) == multiset(Select(syms, true, false)) + multiset(Select(syms, false, false)) +
            multiset(Select(syms, false, true))
  {
    forall y
      ensures Count(syms, y) == Count(Select(syms, true, false), y) + Count(Select(syms, false, false), y) +
              Count(Select(syms, false, true), y)
    {
      SelectCount(syms, true, false, y);
      SelectCount(syms, false, false, y);
      SelectCount(syms, false, true, y);
    }
    forall y
      ensures multiset(syms)[y] == (multiset(Select(syms, true, false)) + multiset(Select(syms, false, false)) +
              multiset(Select(syms, false, true)))[y]
    {
      assert Count(syms, y) == Count(Select(syms, true, false), y) + Count(Select(syms, false, false), y) +
        Count(Select(syms, false, true), y);
    }
  }

  /** Reordering is a permutation of the dynamic symbols. */
  lemma OrderedPermutes(syms: seq<Sym>)
    ensures multiset(Ordered(syms)) == multiset(syms) && |Ordered(syms)| == |syms|
  {
    SelectSplits(syms);
    SortedIs(Select(syms, false, true), NBuckets(|Select(syms, false, true)|));
    assert |multiset(Ordered(syms))| == |Ordered(syms)|;
    assert |multiset(syms)| == |syms|;
  }

  // ---- the table, by definition -----------------------------------------------------------

  datatype Table = Table(symndx: nat, shift: nat, bloom: set<nat>, buckets: seq<nat>, values: seq<nat>)

  function Hashes(xs: seq<Sym>): (r: seq<nat>)
    ensures |r| == |xs| && forall i :: 0 <= i < |r| ==> r[i] == Hash(xs[i].name)
  {
    seq(|xs|, i requires 0 <= i < |xs| => Hash(xs[i].name))
  }

  function Shifted(h: nat, shift: nat): nat { if shift == 0 then h else Shifted(h / 2, shift - 1) }

  /** The two bits of a hash in the 64-bit Bloom word. */
  function Bits(h: nat, shift: nat): set<nat> { {h % 64, Shifted(h, shift) % 64} }

  function BloomOf(hs: seq<nat>, shift: nat): set<nat> {
    if hs == [] then {} else BloomOf(hs[..|hs| - 1], shift) + Bits(hs[|hs| - 1], shift)
  }

  ghost predicate FirstIn(hs: seq<nat>, nb: nat, b: nat, i: nat)
    requires nb > 0
  {
    i < |hs| && hs[i] % nb == b && forall j :: 0 <= j < i ==> hs[j] % nb != b
  }

  /** Nothing after position i falls into i's bucket. */
  ghost predicate LastIn(hs: seq<nat>, nb: nat, i: nat)
    requires nb > 0 && i < |hs|
  {
    forall j :: i < j < |hs| ==> hs[j] % nb != hs[i] % nb
  }

  /** A bucket holds the dynsym index of the first hash that falls into it, or 0. */
  ghost predicate BucketOk(hs: seq<nat>, nb: nat, symndx: nat, b: nat, v: nat)
    requires nb > 0
  {
    if v == 0 then forall j :: 0 <= j < |hs| ==> hs[j] % nb != b
    else v >= symndx && FirstIn(hs, nb, b, v - symndx)
  }

  /** A value is its hash with bit 0 saying whether its bucket ends here. */
  ghost predicate ValueOk(hs: seq<nat>, nb: nat, i: nat, v: nat)
    requires nb > 0 && i < |hs|
  {
    v / 2 == hs[i] / 2 && (v % 2 == 1 <==> LastIn(hs, nb, i))
  }

  /** The table for hashes `hs`, stated without saying how to compute it. */
  ghost predicate IsTable(t: Table, hs: seq<nat>, nb: nat, symndx: nat, shift: nat)
    requires nb > 0
  {
    && t.symndx == symndx && t.shift == shift && t.bloom == BloomOf(hs, shift)
    && |t.buckets| == nb && (forall b :: 0 <= b < nb ==> BucketOk(hs, nb, symndx, b, t.buckets[b]))
    && |t.values| == |hs| && (forall i :: 0 <= i < |hs| ==> ValueOk(hs, nb, i, t.values[i]))
  }

  lemma SameBucket(hs: seq<nat>, nb: nat, symndx: nat, b: nat, v: nat, w: nat)
    requires nb > 0 && symndx > 0 && BucketOk(hs, nb, symndx, b, v) && BucketOk(hs, nb, symndx, b, w)
    ensures v == w
  {
    if v != 0 { assert hs[v - symndx] % nb == b; }
    if w != 0 { assert hs[w - symndx] % nb == b; }
  }

  /** It determines the table, so any two ways of computing it agree. */
  lemma TableUnique(t: Table, u: Table, hs: seq<nat>, nb: nat, symndx: nat, shift: nat)
    requires nb > 0 && symndx > 0 && IsTable(t, hs, nb, symndx, shift) && IsTable(u, hs, nb, symndx, shift)
    ensures t == u
  {
    forall b | 0 <= b < nb ensures t.buckets[b] == u.buckets[b] {
      SameBucket(hs, nb, symndx, b, t.buckets[b], u.buckets[b]);
    }
    forall i | 0 <= i < |hs| ensures t.values[i] == u.values[i] {
      assert ValueOk(hs, nb, i, t.values[i]) && ValueOk(hs, nb, i, u.values[i]);
    }
    assert t.buckets == u.buckets && t.values == u.values;
  }

  // ---- the two ways of computing it -------------------------------------------------------

  method Bloom(hs: seq<nat>, shift: nat) returns (bloom: set<nat>)
    ensures bloom == BloomOf(hs, shift)
  {
    bloom := {};
    for i := 0 to |hs|
      invariant bloom == BloomOf(hs[..i], shift)
    {
      bloom := bloom + {hs[i] % 64, Shifted(hs[i], shift) % 64};
      assert hs[..i + 1][..i] == hs[..i];
    }
    assert hs[..|hs|] == hs;
  }

  lemma BucketsNext(hs: seq<nat>, nb: nat, symndx: nat, i: nat, b: nat, v: nat)
    requires nb > 0 && symndx > 0 && i < |hs| && BucketOk(hs[..i], nb, symndx, b, v)
    ensures BucketOk(hs[..i + 1], nb, symndx, b, if v == 0 && hs[i] % nb == b then symndx + i else v)
  {
  }

  /** Fill the buckets, keeping the lower index when a bucket is taken (`build_gnu_hash`) or whatever is
      there already (`regen_gnu_hash`). */
  method FillBuckets(hs: seq<nat>, nb: nat, symndx: nat, compare: bool) returns (buckets: seq<nat>)
    requires nb > 0 && symndx > 0
    ensures |buckets| == nb && forall b :: 0 <= b < nb ==> BucketOk(hs, nb, symndx, b, buckets[b])
  {
    buckets := seq(nb, _ => 0);
    for i := 0 to |hs|
      invariant |buckets| == nb && forall b :: 0 <= b < nb ==> BucketOk(hs[..i], nb, symndx, b, buckets[b])
    {
      ghost var was := buckets;
      var b := hs[i] % nb;
      if buckets[b] == 0 || (compare && buckets[b] > symndx + i) { buckets := buckets[b := symndx + i]; }
      forall c | 0 <= c < nb ensures BucketOk(hs[..i + 1], nb, symndx, c, buckets[c]) {
        assert BucketOk(hs[..i], nb, symndx, c, was[c]);
        BucketsNext(hs, nb, symndx, i, c, was[c]);
      }
    }
    assert hs[..|hs|] == hs;
  }

  /** `(h & ~1) | last`. */
  function Marked(h: nat, last: bool): (v: nat)
    ensures v / 2 == h / 2 && (v % 2 == 1 <==> last)
  {
    h - h % 2 + (if last then 1 else 0)
  }

  /** The form in `build_gnu_hash`: scan everything after each hash to see whether its bucket ends. */
  method BuildGnuHash(hs: seq<nat>, nb: nat, symndx: nat, shift: nat) returns (t: Table)
    requires nb > 0 && symndx > 0
    ensures IsTable(t, hs, nb, symndx, shift)
  {
    var bloom := Bloom(hs, shift);
    var buckets := FillBuckets(hs, nb, symndx, true);
    var values: seq<nat> := [];
    for i := 0 to |hs|
      invariant |values| == i && forall k :: 0 <= k < i ==> ValueOk(hs, nb, k, values[k])
    {
      var last := true;
      var j := i + 1;
      while j < |hs|
        invariant i < j <= |hs| && last && forall k :: i < k < j ==> hs[k] % nb != hs[i] % nb
      {
        if hs[j] % nb == hs[i] % nb {
          last := false;
          break;
        }
        j := j + 1;
      }
      values := values + [Marked(hs[i], last)];
    }
    t := Table(symndx, shift, bloom, buckets, values);
  }

  ghost predicate HashesByBucket(hs: seq<nat>, nb: nat)
    requires nb > 0
  {
    forall i, j :: 0 <= i < j < |hs| ==> hs[i] % nb <= hs[j] % nb
  }

  /** With the hashes in bucket order it is enough to look at the next one. */
  lemma NextDecides(hs: seq<nat>, nb: nat, i: nat)
    requires nb > 0 && HashesByBucket(hs, nb) && i < |hs|
    ensures LastIn(hs, nb, i) <==> i == |hs| - 1 || hs[i + 1] % nb != hs[i] % nb
  {
  }

  /** The form in `regen_gnu_hash`, which relies on the bucket order. */
  method Regenerate(hs: seq<nat>, nb: nat, symndx: nat) returns (t: Table)
    requires nb > 0 && symndx > 0 && HashesByBucket(hs, nb)
    ensures IsTable(t, hs, nb, symndx, 6)
  {
    var bloom := Bloom(hs, 6);
    var buckets := FillBuckets(hs, nb, symndx, false);
    var values: seq<nat> := [];
    for i := 0 to |hs|
      invariant |values| == i && forall k :: 0 <= k < i ==> ValueOk(hs, nb, k, values[k])
    {
      NextDecides(hs, nb, i);
      var last := i == |hs| - 1 || hs[i + 1] % nb != hs[i] % nb;
      values := values + [Marked(hs[i], last)];
    }
    t := Table(symndx, 6, bloom, buckets, values);
  }

  /** The symbols from dynsym index `symndx` on. */
  function From(ordered: seq<Sym>, symndx: nat): seq<Sym>
    requires 0 < symndx <= |ordered| + 1
  {
    ordered[symndx - 1..]
  }

  /** `t` is the table of `xs`, which are in bucket order. */
  ghost predicate Indexes(t: Table, xs: seq<Sym>) {
    && t.symndx > 0 && |t.buckets| == NBuckets(|xs|) && HashesByBucket(Hashes(xs), |t.buckets|)
    && IsTable(t, Hashes(xs), |t.buckets|, t.symndx, t.shift)
  }

  predicate IsHashed(x: Sym) { !x.local && x.defined }

  /** The table describes the reordered symbols: the defined globals come last, and it indexes them. */
  ghost predicate Describes(t: Table, ordered: seq<Sym>) {
    && 0 < t.symndx <= |ordered| + 1
    && Indexes(t, From(ordered, t.symndx))
    && (forall i :: 0 <= i < |ordered| ==> (i >= t.symndx - 1 <==> IsHashed(ordered[i])))
  }

  lemma SelectedAre(syms: seq<Sym>, nb: nat)
    requires nb > 0
    ensures forall i :: 0 <= i < |Select(syms, true, false)| ==> Select(syms, true, false)[i].local
    ensures forall i :: 0 <= i < |Select(syms, false, false)| ==> !Select(syms, false, false)[i].defined
    ensures forall i :: 0 <= i < |Sorted(Select(syms, false, true), nb)| ==>
            IsHashed(Sorted(Select(syms, false, true), nb)[i])
  {
    SelectIs(syms, true, false);
    SelectIs(syms, false, false);
    SelectIs(syms, false, true);
    var def := Select(syms, false, true);
    var sorted := Sorted(def, nb);
    SortedContents(def, nb);
    forall i | 0 <= i < |sorted| ensures IsHashed(sorted[i]) {
      assert sorted[i] in multiset(sorted);
      assert sorted[i] in def;
    }
  }

  lemma HashesOrdered(xs: seq<Sym>, nb: nat)
    requires nb > 0 && ByBucket(xs, nb)
    ensures HashesByBucket(Hashes(xs), nb)
  {
    var hs := Hashes(xs);
    forall i, j | 0 <= i < j < |hs| ensures hs[i] % nb <= hs[j] % nb { assert Bucket(xs[i], nb) <= Bucket(xs[j], nb); }
  }

  lemma OrderedParts(syms: seq<Sym>, i: nat)
    requires i < |Ordered(syms)|
    ensures i >= |Unhashed(syms)| <==> IsHashed(Ordered(syms)[i])
  {
    var ordered := Ordered(syms);
    var locals, undef := Select(syms, true, false), Select(syms, false, false);
    SelectedAre(syms, NBuckets(|Select(syms, false, true)|));
    if i < |locals| {
      assert ordered[i] == locals[i];
    } else if i < |locals| + |undef| {
      assert ordered[i] == undef[i - |locals|];
    } else {
      assert ordered[i] == Hashed(syms)[i - |locals| - |undef|];
    }
  }

  /** `regen_gnu_hash`. */
  method RegenGnuHash(dynsyms: seq<Sym>) returns (ordered: seq<Sym>, t: Table)
    ensures ordered == Ordered(dynsyms) && multiset(ordered) == multiset(dynsyms) && |ordered| == |dynsyms|
    ensures Describes(t, ordered)
  {
    var locals, undef, def := Select(dynsyms, true, false), Select(dynsyms, false, false), Select(dynsyms, false, true);
    var nb := if |def| > 1 then |def| else 1;
    var hashed := Sorted(def, nb);
    SortedIs(def, nb);
    OrderedPermutes(dynsyms);
    ordered := locals + undef + hashed;
    HashesOrdered(hashed, nb);
    t := Regenerate(Hashes(hashed), nb, 1 + |locals| + |undef|);
    assert From(ordered, t.symndx) == hashed;
    forall i | 0 <= i < |ordered| ensures i >= t.symndx - 1 <==> IsHashed(ordered[i]) { OrderedParts(dynsyms, i); }
  }

  // ---- the loader's lookup ----------------------------------------------------------------

  lemma {:induction false} BloomHas(hs: seq<nat>, shift: nat, i: nat)
    requires i < |hs|
    ensures Bits(hs[i], shift) <= BloomOf(hs, shift)
  {
    if i < |hs| - 1 { BloomHas(hs[..|hs| - 1], shift, i); }
  }

  /** None of `xs` before position n has the name. */
  ghost predicate NoneNamed(xs: seq<Sym>, n: nat, name: seq<byte>) {
    forall i :: 0 <= i < n && i < |xs| ==> xs[i].name != name
  }

  lemma NoBits(t: Table, xs: seq<Sym>, name: seq<byte>)
    requires Indexes(t, xs) && !(Bits(Hash(name), t.shift) <= t.bloom)
    ensures NoneNamed(xs, |xs|, name)
  {
    forall i | 0 <= i < |xs| ensures xs[i].name != name { BloomHas(Hashes(xs), t.shift, i); }
  }

  lemma EmptyBucket(t: Table, xs: seq<Sym>, name: seq<byte>)
    requires Indexes(t, xs) && t.buckets[Hash(name) % |t.buckets|] < t.symndx
    ensures NoneNamed(xs, |xs|, name)
  {
    var b := Hash(name) % |t.buckets|;
    assert BucketOk(Hashes(xs), |t.buckets|, t.symndx, b, t.buckets[b]);
    forall i | 0 <= i < |xs| ensures xs[i].name != name { assert Hashes(xs)[i] % |t.buckets| != b; }
  }

  /** Position i of `xs` lies in the name's bucket and nothing before it has the name. */
  ghost predicate OnChain(t: Table, xs: seq<Sym>, name: seq<byte>, i: nat)
    requires |t.buckets| > 0
  {
    i < |xs| && Hashes(xs)[i] % |t.buckets| == Hash(name) % |t.buckets| && NoneNamed(xs, i, name)
  }

  lemma ChainStarts(t: Table, xs: seq<Sym>, name: seq<byte>)
    requires Indexes(t, xs) && t.buckets[Hash(name) % |t.buckets|] >= t.symndx
    ensures OnChain(t, xs, name, t.buckets[Hash(name) % |t.buckets|] - t.symndx)
  {
    var b := Hash(name) % |t.buckets|;
    var hs := Hashes(xs);
    assert BucketOk(hs, |t.buckets|, t.symndx, b, t.buckets[b]);
    forall j | 0 <= j < t.buckets[b] - t.symndx ensures xs[j].name != name { assert hs[j] % |t.buckets| != b; }
  }

  lemma ChainEnds(t: Table, xs: seq<Sym>, name: seq<byte>, i: nat)
    requires Indexes(t, xs) && OnChain(t, xs, name, i) && xs[i].name != name && t.values[i] % 2 == 1
    ensures NoneNamed(xs, |xs|, name)
  {
    var hs := Hashes(xs);
    assert ValueOk(hs, |t.buckets|, i, t.values[i]);
    forall j | 0 <= j < |xs| ensures xs[j].name != name {
      if j > i { assert hs[j] % |t.buckets| != hs[i] % |t.buckets|; }
    }
  }

  /** In bucket order, a chain that does not end here goes on in the next entry. */
  lemma ChainGoesOn(t: Table, xs: seq<Sym>, i: nat)
    requires Indexes(t, xs) && i < |xs| && t.values[i] % 2 != 1
    ensures i + 1 < |xs| && Hashes(xs)[i + 1] % |t.buckets| == Hashes(xs)[i] % |t.buckets|
  {
    assert ValueOk(Hashes(xs), |t.buckets|, i, t.values[i]);
    NextDecides(Hashes(xs), |t.buckets|, i);
  }

  /** What the walk learns at one entry: a value that differs from the hash above its end bit stands
      for another name, and past another name the chain goes on or ends as the end bit says. */
  lemma ChainVisit(t: Table, xs: seq<Sym>, name: seq<byte>, i: nat)
    requires Indexes(t, xs) && OnChain(t, xs, name, i)
    ensures i < |t.values| && (t.values[i] / 2 != Hash(name) / 2 ==> xs[i].name != name)
    ensures xs[i].name == name ||
            if t.values[i] % 2 == 1 then NoneNamed(xs, |xs|, name) else OnChain(t, xs, name, i + 1)
  {
    var v := t.values[i];
    assert ValueOk(Hashes(xs), |t.buckets|, i, v);
    if xs[i].name != name {
      if v % 2 == 1 { ChainEnds(t, xs, name, i); } else { ChainGoesOn(t, xs, i); }
    }
  }

  /** Along the chain of values until its end bit. */
  method WalkChain(t: Table, ordered: seq<Sym>, name: seq<byte>, h: nat, start: nat) returns (r: Option<nat>)
    requires 0 < t.symndx <= start <= |ordered| && Indexes(t, From(ordered, t.symndx)) && h == Hash(name)
    requires OnChain(t, From(ordered, t.symndx), name, start - t.symndx)
    ensures r.Some? ==> t.symndx <= r.value <= |ordered| && ordered[r.value - 1].name == name
    ensures r.None? ==> NoneNamed(From(ordered, t.symndx), |From(ordered, t.symndx)|, name)
  {
    ghost var xs := From(ordered, t.symndx);
    var i := start;
    while true
      invariant t.symndx <= i && OnChain(t, xs, name, i - t.symndx)
      decreases t.symndx + |xs| - i
    {
      ChainVisit(t, xs, name, i - t.symndx);
      var v := t.values[i - t.symndx];
      assert xs[i - t.symndx] == ordered[i - 1];
      if v / 2 == h / 2 && ordered[i - 1].name == name { return Some(i); }
      if v % 2 == 1 { return None; }
      i := i + 1;
    }
    r := None;
  }

  /** A defined global of that name. */
  ghost predicate Exports(ordered: seq<Sym>, name: seq<byte>) {
    exists x :: x in ordered && x.name == name && IsHashed(x)
  }

  /** The standard lookup: Bloom word, bucket, chain. Every index it touches lies in the table. */
  method Lookup(t: Table, ordered: seq<Sym>, name: seq<byte>) returns (r: Option<nat>)
    requires Describes(t, ordered)
    ensures r.Some? ==> 0 < r.value <= |ordered| && ordered[r.value - 1].name == name && IsHashed(ordered[r.value - 1])
    ensures r.Some? <==> Exports(ordered, name)
  {
    ghost var xs := From(ordered, t.symndx);
    var h := GnuHash(name);
    r := None;
    if h % 64 in t.bloom && Shifted(h, t.shift) % 64 in t.bloom {
      var i := t.buckets[h % |t.buckets|];
      if i >= t.symndx {
        ChainStarts(t, xs, name);
        r := WalkChain(t, ordered, name, h, i);
      } else {
        EmptyBucket(t, xs, name);
      }
    } else {
      NoBits(t, xs, name);
    }
    if r.Some? { FoundHashed(t, ordered, r.value - 1); } else { NotHashed(t, ordered, name); }
  }

  lemma FoundHashed(t: Table, ordered: seq<Sym>, i: nat)
    requires Describes(t, ordered) && t.symndx - 1 <= i < |ordered|
    ensures IsHashed(ordered[i]) && Exports(ordered, ordered[i].name)
  {
    assert ordered[i] in ordered;
  }

  lemma NotHashed(t: Table, ordered: seq<Sym>, name: seq<byte>)
    requires Describes(t, ordered)
    requires var xs := From(ordered, t.symndx); NoneNamed(xs, |xs|, name)
    ensures !Exports(ordered, name)
  {
    var xs := From(ordered, t.symndx);
    forall i | 0 <= i < |ordered| && IsHashed(ordered[i]) ensures ordered[i].name != name {
      assert xs[i - (t.symndx - 1)] == ordered[i];
    }
  }

  // ---- the symbol count -------------------------------------------------------------------

  method LargestBucket(buckets: seq<nat>) returns (last: nat)
    ensures last == 0 || last in buckets
    ensures forall k :: 0 <= k < |buckets| ==> buckets[k] <= last
  {
    last := 0;
    for b := 0 to |buckets|
      invariant last == 0 || last in buckets
      invariant forall k :: 0 <= k < b ==> buckets[k] <= last
    {
      if buckets[b] > last { last := buckets[b]; }
    }
  }

  /** The largest bucket starts the last chain. */
  lemma LastChain(t: Table, xs: seq<Sym>, last: nat)
    requires Indexes(t, xs) && (last == 0 || last in t.buckets) &&
             forall k :: 0 <= k < |t.buckets| ==> t.buckets[k] <= last
    ensures last < t.symndx <==> xs == []
    ensures xs != [] ==> last < t.symndx + |xs| &&
                         Hashes(xs)[last - t.symndx] % |t.buckets| == Hashes(xs)[|xs| - 1] % |t.buckets|
  {
    var hs, nb := Hashes(xs), |t.buckets|;
    if xs != [] {
      var c := hs[|xs| - 1] % nb;
      assert BucketOk(hs, nb, t.symndx, c, t.buckets[c]);
    }
    if last != 0 {
      var k :| 0 <= k < nb && t.buckets[k] == last;
      assert BucketOk(hs, nb, t.symndx, k, last);
    }
  }

  /** The audit library's count from the table alone: the largest bucket, then its chain to the end.
      With at least one hashed symbol it is the full count, null symbol included, which is what
      DT_HASH's nchain gives; with none there is no count. */
  method SymbolCount(t: Table, ghost ordered: seq<Sym>) returns (n: Option<nat>)
    requires Describes(t, ordered)
    ensures n == if t.symndx <= |ordered| then Some(1 + |ordered|) else None
  {
    ghost var xs := From(ordered, t.symndx);
    ghost var hs, nb := Hashes(xs), |t.buckets|;
    var last := LargestBucket(t.buckets);
    LastChain(t, xs, last);
    if last < t.symndx { return None; }
    while t.values[last - t.symndx] % 2 != 1
      invariant t.symndx <= last < t.symndx + |xs|
      invariant hs[last - t.symndx] % nb == hs[|xs| - 1] % nb
      decreases t.symndx + |xs| - last
    {
      ChainGoesOn(t, xs, last - t.symndx);
      last := last + 1;
    }
    assert ValueOk(hs, nb, last - t.symndx, t.values[last - t.symndx]);
    n := Some(last + 1);
  }

  /** What the audit library can resolve by walking the symbol table. */
  predicate Resolves(x: Sym, name: seq<byte>) { x.name != [] && x.value != 0 && x.name == name }

  ghost predicate FirstResolved(ordered: seq<Sym>, name: seq<byte>, i: nat) {
    i < |ordered| && Resolves(ordered[i], name) && forall j :: 0 <= j < i ==> !Resolves(ordered[j], name)
  }

  /** `elf_dynsym`: the count from DT_HASH, else from DT_GNU_HASH, then a linear search from the null
      symbol on. It finds the first symbol of the name that has an address, whenever one of the tables
      gives the count. */
  method ElfDynsym(ordered: seq<Sym>, nchain: Option<nat>, gnu: Option<Table>, name: seq<byte>)
    returns (addr: Option<nat>)
    requires nchain.Some? ==> nchain.value == 1 + |ordered|
    requires gnu.Some? ==> Describes(gnu.value, ordered)
    ensures addr.Some? <==> (nchain.Some? || (gnu.Some? && gnu.value.symndx <= |ordered|)) &&
                            exists x :: x in ordered && Resolves(x, name)
    ensures addr.Some? ==> exists i: nat :: FirstResolved(ordered, name, i) && addr.value == ordered[i].value
  {
    var n := nchain;
    if nchain.None? && gnu.Some? { n := SymbolCount(gnu.value, ordered); }
    if n.None? { return None; }
    for i := 0 to n.value
      invariant forall j :: 0 <= j < i - 1 ==> !Resolves(ordered[j], name)
    {
      if i > 0 && ordered[i - 1].name != [] && ordered[i - 1].value != 0 && ordered[i - 1].name == name {
        assert FirstResolved(ordered, name, i - 1) && ordered[i - 1] in ordered;
        return Some(ordered[i - 1].value);
      }
    }
    addr := None;
  }
}

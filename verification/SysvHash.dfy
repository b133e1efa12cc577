/** The DT_HASH table: the System V hash, its buckets and its chains. */
module SysvHash {
  import opened Bytes
  import opened Options
  import opened SysvRound

  // ---- the hash ---------------------------------------------------------------------------

  function HashFrom(h: bv32, s: seq<byte>): bv32
    decreases |s|
  {
    if s == [] then h else HashFrom(Round(h, s[0] as bv32), s[1..])
  }

  lemma {:induction false} HashSmall(h: bv32, s: seq<byte>)
    requires h & 0xF000_0000 == 0
    ensures HashFrom(h, s) & 0xF000_0000 == 0
    decreases |s|
  {
    if s != [] {
      FoldSmall((h << 4) + s[0] as bv32);
      HashSmall(Round(h, s[0] as bv32), s[1..]);
    }
  }

  /** `elf_hash` stays below 2^28, so its value fits 28 bits. */
  function Hash(s: seq<byte>): (r: nat)
    ensures r < 0x1000_0000
  {
    HashSmall(0, s);
    Small(HashFrom(0, s));
    (HashFrom(0, s) as bv28) as nat
  }

  lemma {:induction false} HashFromNext(h: bv32, s: seq<byte>, c: byte)
    ensures HashFrom(h, s + [c]) == Round(HashFrom(h, s), c as bv32)
    decreases |s|
  {
    if s == [] {
      assert [] + [c] == [c];
    } else {
      assert (s + [c])[1..] == s[1..] + [c] && (s + [c])[0] == s[0];
      HashFromNext(Round(h, s[0] as bv32), s[1..], c);
    }
  }

  /** The empty name hashes to 0, and each further character takes one more round. */
  lemma HashNext(s: seq<byte>, c: byte)
    ensures HashFrom(0, []) == 0 && HashFrom(0, s + [c]) == Round(HashFrom(0, s), c as bv32)
  {
    HashFromNext(0, s, c);
  }

  method ElfHash(s: seq<byte>) returns (r: nat)
    ensures r == Hash(s)
  {
    var h: bv32 := 0;
    for k := 0 to |s|
      invariant HashFrom(h, s[k..]) == HashFrom(0, s)
    {
      assert s[k..][0] == s[k] && s[k..][1..] == s[k + 1..];
      h := Round(h, s[k] as bv32);
    }
    assert s[|s|..] == [];
    HashSmall(0, s);
    Small(h);
    r := (h as bv28) as nat;
  }

  // ---- the table, by definition -----------------------------------------------------------

  datatype Table = Table(bucket: seq<nat>, chain: seq<nat>)

  /** Whether dynsym index i is entered under bucket b; the null symbol never is, and an unnamed one
      only if the builder does not skip it. */
  predicate Entered(names: seq<seq<byte>>, skip: bool, nb: nat, b: nat, i: nat)
    requires nb > 0
  {
    0 < i <= |names| && (skip ==> names[i - 1] != []) && Hash(names[i - 1]) % nb == b
  }

  /** The last entry below index n, or 0. */
  ghost predicate Latest(names: seq<seq<byte>>, skip: bool, nb: nat, b: nat, n: nat, i: nat)
    requires nb > 0
  {
    && (i == 0 || (i < n && Entered(names, skip, nb, b, i)))
    && forall k :: i < k < n ==> !Entered(names, skip, nb, b, k)
  }

  ghost predicate ChainOk(names: seq<seq<byte>>, skip: bool, nb: nat, i: nat, v: nat)
    requires nb > 0
  {
    if i == 0 || i > |names| || (skip && names[i - 1] == []) then v == 0
    else Latest(names, skip, nb, Hash(names[i - 1]) % nb, i, v)
  }

  /** A bucket starts at the last symbol that hashes to it, and each entry points at the one before. */
  ghost predicate IsTable(t: Table, names: seq<seq<byte>>, skip: bool, nb: nat)
    requires nb > 0
  {
    && |t.bucket| == nb && (forall b :: 0 <= b < nb ==> Latest(names, skip, nb, b, |names| + 1, t.bucket[b]))
    && |t.chain| == |names| + 1 && (forall i :: 0 <= i <= |names| ==> ChainOk(names, skip, nb, i, t.chain[i]))
  }

  lemma LatestNext(names: seq<seq<byte>>, skip: bool, nb: nat, b: nat, n: nat, i: nat)
    requires nb > 0 && n > 0 && Latest(names, skip, nb, b, n, i)
    ensures Latest(names, skip, nb, b, n + 1, if Entered(names, skip, nb, b, n) then n else i)
  {
  }

  /** `regen_sysv_hash` (which skips unnamed symbols and uses as many buckets as symbols) and
      `build_elf_hash` (which does neither). */
  method Build(names: seq<seq<byte>>, skip: bool, nb: nat) returns (t: Table)
    requires nb > 0
    ensures IsTable(t, names, skip, nb)
  {
    var bucket: seq<nat>, chain: seq<nat> := seq(nb, _ => 0), seq(|names| + 1, _ => 0);
    for i := 1 to |names| + 1
      invariant |bucket| == nb && forall b :: 0 <= b < nb ==> Latest(names, skip, nb, b, i, bucket[b])
      invariant |chain| == |names| + 1 && forall k :: 0 <= k < i ==> ChainOk(names, skip, nb, k, chain[k])
      invariant forall k :: i <= k <= |names| ==> chain[k] == 0
    {
      ghost var was := bucket;
      if !(skip && names[i - 1] == []) {
        var h := ElfHash(names[i - 1]);
        var b := h % nb;
        chain := chain[i := bucket[b]];
        bucket := bucket[b := i];
      }
      forall b | 0 <= b < nb
        ensures Latest(names, skip, nb, b, i + 1, bucket[b])
      {
        LatestNext(names, skip, nb, b, i, was[b]);
      }
    }
    t := Table(bucket, chain);
  }

  /** `regen_sysv_hash` over the final dynsym order. */
  method RegenSysvHash(names: seq<seq<byte>>) returns (t: Table)
    ensures |t.bucket| == |t.chain| == 1 + |names| && IsTable(t, names, true, 1 + |names|)
  {
    t := Build(names, true, 1 + |names|);
  }

  // ---- what the table is for --------------------------------------------------------------

  /** Chains strictly decrease, so every walk ends. */
  lemma ChainFalls(t: Table, names: seq<seq<byte>>, skip: bool, nb: nat, i: nat)
    requires nb > 0 && IsTable(t, names, skip, nb) && 0 < i <= |names|
    ensures t.chain[i] < i
  {
    assert ChainOk(names, skip, nb, i, t.chain[i]);
  }

  /** The indices a walk from i visits. */
  function Walk(t: Table, names: seq<seq<byte>>, skip: bool, nb: nat, i: nat): (r: seq<nat>)
    requires nb > 0 && IsTable(t, names, skip, nb) && i <= |names|
  {
    if i == 0 then []
    else
      ChainFalls(t, names, skip, nb, i);
      [i] + Walk(t, names, skip, nb, t.chain[i])
  }

  lemma {:induction false} WalkVisits(t: Table, names: seq<seq<byte>>, skip: bool, nb: nat, b: nat, n: nat, i: nat)
    requires nb > 0 && IsTable(t, names, skip, nb) && n <= |names| + 1 && i <= |names| &&
             Latest(names, skip, nb, b, n, i)
    ensures var w := Walk(t, names, skip, nb, i);
            && (forall k: nat :: k in w <==> 0 < k < n && Entered(names, skip, nb, b, k))
            && (forall j, k :: 0 <= j < k < |w| ==> w[j] > w[k])
    decreases i
  {
    if i > 0 {
      assert ChainOk(names, skip, nb, i, t.chain[i]);
      WalkVisits(t, names, skip, nb, b, i, t.chain[i]);
      var rest := Walk(t, names, skip, nb, t.chain[i]);
      forall k | 0 <= k < |rest| ensures rest[k] < i { assert rest[k] in rest; }
    }
  }

  /** Walking bucket b visits exactly the symbols that hash to b, each once. */
  lemma BucketVisits(t: Table, names: seq<seq<byte>>, skip: bool, nb: nat, b: nat)
    requires nb > 0 && IsTable(t, names, skip, nb) && b < nb
    ensures t.bucket[b] <= |names|
    ensures var w := Walk(t, names, skip, nb, t.bucket[b]);
            && (forall k: nat :: k in w <==> Entered(names, skip, nb, b, k))
            && (forall j, k :: 0 <= j < k < |w| ==> w[j] > w[k])
  {
    assert Latest(names, skip, nb, b, |names| + 1, t.bucket[b]);
    WalkVisits(t, names, skip, nb, b, |names| + 1, t.bucket[b]);
  }

  /** The System V lookup: it finds a name exactly when some symbol has it. */
  method Lookup(t: Table, names: seq<seq<byte>>, skip: bool, nb: nat, name: seq<byte>) returns (r: Option<nat>)
    requires nb > 0 && IsTable(t, names, skip, nb) && name != []
    ensures r.Some? ==> 0 < r.value <= |names| && names[r.value - 1] == name
    ensures r.Some? <==> name in names
  {
    var h := ElfHash(name);
    var b := h % nb;
    assert Latest(names, skip, nb, b, |names| + 1, t.bucket[b]);
    var i: nat := t.bucket[b];
    ghost var n: nat := |names| + 1;
    while i != 0
      invariant n <= |names| + 1 && Latest(names, skip, nb, b, n, i)
      invariant forall k :: n <= k <= |names| && Entered(names, skip, nb, b, k) ==> names[k - 1] != name
      decreases i
    {
      if names[i - 1] == name { return Some(i); }
      assert ChainOk(names, skip, nb, i, t.chain[i]);
      n := i;
      i := t.chain[i];
    }
    forall k | 0 <= k < |names| ensures names[k] != name {
      if names[k] == name { assert Entered(names, skip, nb, b, k + 1); }
    }
    r := None;
  }
}

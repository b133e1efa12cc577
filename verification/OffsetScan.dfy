/** The host's scan for the offset of one hidden kernel argument, and when it agrees with a full parse. */
module OffsetScan {
  import opened Bytes
  import opened Options
  import opened Sequences
  import opened MsgPack
  import opened KernargNote
  import opened ByteScan
  import opened ExplicitArgs
  import opened StrayKeys

  /** `co_memfind`: the first occurrence. */
  method MemFind(hay: seq<byte>, needle: seq<byte>) returns (r: Option<nat>)
    ensures r.Some? ==> Occurs(hay, needle, r.value) && forall q: nat :: q < r.value ==> !Occurs(hay, needle, q)
    ensures r.None? ==> needle == [] || forall q: nat :: !Occurs(hay, needle, q)
  {
    if needle == [] || |hay| < |needle| { return None; }
    for i := 0 to |hay| - |needle| + 1
      invariant forall q: nat :: q < i ==> !Occurs(hay, needle, q)
    {
      if hay[i..i + |needle|] == needle { return Some(i); }
    }
    r := None;
  }

  /** The last `key` that ends at or before k. */
  ghost predicate LastBefore(s: seq<byte>, key: seq<byte>, k: nat, q: nat) {
    Occurs(s, key, q) && q + |key| <= k && forall r: nat :: q < r && r + |key| <= k ==> !Occurs(s, key, r)
  }

  method FindLast(s: seq<byte>, key: seq<byte>, k: nat) returns (last: Option<nat>)
    requires k <= |s| && key != []
    ensures last.Some? ==> LastBefore(s, key, k, last.value)
    ensures last.None? ==> forall r: nat :: r + |key| <= k ==> !Occurs(s, key, r)
  {
    last := None;
    for i := 0 to k
      invariant last.Some? ==> last.value < i && Occurs(s, key, last.value) && last.value + |key| <= k
      invariant last.Some? ==> forall r: nat :: last.value < r < i && r + |key| <= k ==> !Occurs(s, key, r)
      invariant last.None? ==> forall r: nat :: r < i && r + |key| <= k ==> !Occurs(s, key, r)
    {
      if i + |key| <= k && s[i..i + |key|] == key { last := Some(i); }
    }
  }

  /** The first occurrence of a value kind's text. */
  ghost predicate FirstText(s: seq<byte>, kind: seq<byte>, k: nat) {
    kind != [] && Occurs(s, kind, k) && forall q: nat :: q < k ==> !Occurs(s, kind, q)
  }

  /** The number the offset scan is after: the one behind the last ".offset" key before the first
      occurrence of the kind's text. */
  ghost predicate OffsetOf(s: seq<byte>, kind: seq<byte>, v: nat) {
    exists k: nat, q: nat :: FirstText(s, kind, k) && LastBefore(s, KeyFor(OFFSET), k, q) &&
      v == MpUint(s, q + |KeyFor(OFFSET)|)
  }

  lemma OffsetUnique(s: seq<byte>, kind: seq<byte>, k: nat, q: nat, v: nat)
    requires FirstText(s, kind, k) && LastBefore(s, KeyFor(OFFSET), k, q) && OffsetOf(s, kind, v)
    ensures v == MpUint(s, q + |KeyFor(OFFSET)|)
  {
    var k': nat, q': nat :| FirstText(s, kind, k') && LastBefore(s, KeyFor(OFFSET), k', q') &&
      v == MpUint(s, q' + |KeyFor(OFFSET)|);
    assert k == k';
    assert q == q';
  }

  /** `co_read_kernarg_offset` on one note section. */
  method KernargOffset(s: seq<byte>, kind: seq<byte>) returns (r: Option<nat>)
    ensures r.Some? ==> OffsetOf(s, kind, r.value)
    ensures r.None? ==> forall v :: OffsetOf(s, kind, v) ==> v == UNHANDLED
  {
    r := None;
    var first := MemFind(s, kind);
    if kind == [] || first.None? { return; }
    var k := first.value;
    assert FirstText(s, kind, k);
    var last := FindLast(s, KeyFor(OFFSET), k);
    if last.None? {
      assert forall v :: !OffsetOf(s, kind, v);
      return;
    }
    var v := MpUint(s, last.value + |KeyFor(OFFSET)|);
    assert OffsetOf(s, kind, v);
    forall u | OffsetOf(s, kind, u) ensures u == v { OffsetUnique(s, kind, k, last.value, u); }
    if v != UNHANDLED { r := Some(v); }
  }

  // ---- an argument's offset stands before its kind ----------------------------------------

  ghost predicate InRange(fs: seq<Found>, lo: nat, hi: nat) { forall f :: f in fs ==> lo <= f.at < hi }

  lemma PlacedInRange(s: seq<byte>, key: seq<byte>, fs: seq<Found>, lo: nat, hi: nat)
    requires Placed(s, key, fs, lo, hi)
    ensures InRange(fs, lo, hi)
  {
    forall f | f in fs ensures lo <= f.at < hi {
      var i :| 0 <= i < |fs| && fs[i] == f;
      assert PlacedAt(s, key, fs[i], lo, hi);
    }
  }

  /** Where the keys of one entry stand. */
  lemma EntryRanges(s: seq<byte>, key: seq<byte>, es: seq<Enc>, at: nat) returns (mid: nat, end: nat)
    requires |key| < 32 && |es| >= 2 && |es| % 2 == 0 && (forall k :: 0 <= k < |es| ==> Legal(es[k])) &&
             Stands(s, at, EncodeAll(es))
    ensures mid == at + |Encode(es[0])| && end == mid + |Encode(es[1])| &&
            end + |EncodeAll(es[2..])| == at + |EncodeAll(es)| <= |s|
    ensures Stands(s, at, Encode(es[0])) && Stands(s, mid, Encode(es[1])) && Stands(s, end, EncodeAll(es[2..]))
    ensures InRange(FoundKey(key, es[0], es[1], at), at, mid) && InRange(FoundIn(key, es[1], mid), mid, end)
    ensures InRange(FoundEntries(key, es[2..], end), end, at + |EncodeAll(es)|)
  {
    mid, end := StandsTwo(s, at, es);
    var hi := at + |EncodeAll(es)|;
    EvenTail(es);
    FoundGood(key, es[0], at, mid, s);
    PlacedInRange(s, key, FoundIn(key, es[0], at), at, mid);
    FoundGood(key, es[1], mid, end, s);
    PlacedInRange(s, key, FoundIn(key, es[1], mid), mid, end);
    FoundEntriesGood(key, es[2..], end, hi, s);
    PlacedInRange(s, key, FoundEntries(key, es[2..], end), end, hi);
  }

  /** The first `key` of a map comes before any `other`. */
  predicate Precedes(items: seq<Val>, key: seq<byte>, other: seq<byte>) {
    |items| >= 2 && items[0] != Str(other) && (items[0] == Str(key) || Precedes(items[2..], key, other))
  }

  lemma NothingFound(key: seq<byte>, e: Enc, at: nat)
    requires Legal(e) && ShortKeys(key, e) && KindsIn(key, Read(e)) == []
    ensures FoundIn(key, e, at) == []
  {
    FoundKinds(key, e, at);
    assert |Values(FoundIn(key, e, at))| == 0;
  }

  /** One entry of a flat map. */
  lemma FlatEntry(key: seq<byte>, es: seq<Enc>, at: nat, end: nat)
    requires |es| >= 2 && (forall k :: 0 <= k < |es| ==> Legal(es[k]))
    requires ShortKeysEntries(key, es) && Flat(key, ReadAll(es))
    requires end == at + |Encode(es[0])| + |Encode(es[1])|
    ensures Read(es[0]) == Str(key) ==> Found(at, es[1]) in FoundEntries(key, es, at)
    ensures Read(es[0]) != Str(key) ==> FoundEntries(key, es, at) == FoundEntries(key, es[2..], end)
  {
    var mid := at + |Encode(es[0])|;
    FlatTwo(key, es);
    NothingFound(key, es[0], at);
    NothingFound(key, es[1], mid);
    EntriesUnfold(key, es, at, mid, end);
    KeyFound(key, es[0], es[1], at);
    FirstEntry(FoundEntries(key, es, at), FoundKey(key, es[0], es[1], at), FoundEntries(key, es[2..], end));
  }

  lemma FirstEntry(fs: seq<Found>, first: seq<Found>, rest: seq<Found>)
    requires fs == first + [] + rest
    ensures |first| == 1 ==> first[0] in fs
    ensures first == [] ==> fs == rest
  {
    if |first| == 1 { assert fs[0] == first[0]; }
  }

  lemma FlatTwo(key: seq<byte>, es: seq<Enc>)
    requires |es| >= 2 && (forall k :: 0 <= k < |es| ==> Legal(es[k]))
    requires ShortKeysEntries(key, es) && Flat(key, ReadAll(es))
    ensures ShortKeys(key, es[0]) && ShortKeys(key, es[1]) && ShortKeysEntries(key, es[2..]) &&
            Flat(key, ReadAll(es[2..]))
    ensures KindsIn(key, Read(es[0])) == [] && KindsIn(key, Read(es[1])) == []
    ensures es[0].EStr? && es[0].s == key ==> es[0].f == Fix
  {
    TwoAtATime(es);
    JoinTwo(Read(es[0]), Read(es[1]), ReadAll(es[2..]));
  }

  lemma KeyFound(key: seq<byte>, k: Enc, v: Enc, at: nat)
    requires Legal(k) && (k.EStr? && k.s == key ==> k.f == Fix) && FoundIn(key, k, at) == []
    ensures FoundKey(key, k, v, at) == if Read(k) == Str(key) then [Found(at, v)] else []
  {
  }

  lemma {:induction false} EntryOrder(s: seq<byte>, es: seq<Enc>, at: nat, key: seq<byte>, other: seq<byte>)
    returns (o: Found)
    requires |key| < 32 && |other| < 32 && key != other && |es| % 2 == 0 && (forall k :: 0 <= k < |es| ==> Legal(es[k]))
    requires Stands(s, at, EncodeAll(es)) && ShortKeysEntries(key, es) && ShortKeysEntries(other, es)
    requires Flat(key, ReadAll(es)) && Flat(other, ReadAll(es)) && Precedes(ReadAll(es), key, other)
    ensures o in FoundEntries(key, es, at) && forall f :: f in FoundEntries(other, es, at) ==> o.at < f.at
    decreases es
  {
    var mid, end := EntryRanges(s, other, es, at);
    FlatEntry(key, es, at, end);
    FlatEntry(other, es, at, end);
    PrecedesTwo(es, key, other);
    if Read(es[0]) == Str(key) {
      o := Found(at, es[1]);
    } else {
      FlatTwo(key, es);
      FlatTwo(other, es);
      EvenTail(es);
      o := EntryOrder(s, es[2..], end, key, other);
    }
  }

  lemma PrecedesTwo(es: seq<Enc>, key: seq<byte>, other: seq<byte>)
    requires |es| >= 2 && (forall k :: 0 <= k < |es| ==> Legal(es[k])) && Precedes(ReadAll(es), key, other)
    ensures Read(es[0]) != Str(other)
    ensures Read(es[0]) == Str(key) || Precedes(ReadAll(es[2..]), key, other)
  {
    TwoAtATime(es);
    JoinTwo(Read(es[0]), Read(es[1]), ReadAll(es[2..]));
  }

  /** An argument's map as the compiler writes it: one offset, then one value kind, nothing nested, nothing
      else that spells the offset key. */
  ghost predicate ArgMap(a: Enc, text: seq<byte>) {
    && a.EMap? && Legal(a) && ShortKeys(OFFSET, a) && ShortKeys(KIND, a)
    && IsArg(OFFSET, Read(a)) && IsArg(KIND, Read(a)) && Precedes(Read(a).items, OFFSET, KIND)
    && Get(Read(a).items, KIND) == Some(Str(text)) && text != [] && OFFSET != [] && Proper(OFFSET, false, Read(a))
  }

  lemma OneFound(key: seq<byte>, a: Enc, p: nat) returns (f: Found)
    requires a.EMap? && Legal(a) && ShortKeys(key, a) && IsArg(key, Read(a))
    ensures FoundIn(key, a, p) == [f] && Read(f.v) == Get(Read(a).items, key).value
  {
    FoundKinds(key, a, p);
    f := FoundIn(key, a, p)[0];
    assert Values(FoundIn(key, a, p))[0] == Read(f.v);
  }

  lemma OneGood(s: seq<byte>, key: seq<byte>, a: Enc, p: nat, f: Found)
    requires |key| < 32 && Legal(a) && Stands(s, p, Encode(a)) && FoundIn(key, a, p) == [f]
    ensures PlacedAt(s, key, f, p, p + |Encode(a)|)
  {
    FoundGood(key, a, p, p + |Encode(a)|, s);
    assert PlacedAt(s, key, FoundIn(key, a, p)[0], p, p + |Encode(a)|);
  }

  lemma ArgOrder(s: seq<byte>, a: Enc, p: nat, key: seq<byte>, other: seq<byte>) returns (o: Found, f: Found)
    requires |key| < 32 && |other| < 32 && key != other && a.EMap? && Legal(a) && Stands(s, p, Encode(a))
    requires ShortKeys(key, a) && ShortKeys(other, a) && IsArg(key, Read(a)) && IsArg(other, Read(a))
    requires Precedes(Read(a).items, key, other)
    ensures FoundIn(key, a, p) == [o] && FoundIn(other, a, p) == [f] && o.at < f.at
    ensures Read(o.v) == Get(Read(a).items, key).value
  {
    StandsSplit(s, p, HeadBytes(a), EncodeAll(a.items));
    var first := EntryOrder(s, a.items, p + |HeadBytes(a)|, key, other);
    o := OneFound(key, a, p);
    f := OneFound(other, a, p);
    assert first in FoundIn(key, a, p) && f in FoundIn(other, a, p);
  }

  /** The key's bytes stand inside the map only where it has the key. */
  lemma OnlyKey(s: seq<byte>, key: seq<byte>, a: Enc, p: nat, o: Found, r: nat)
    requires KeyText(key) && Legal(a) && a.EMap? && Stands(s, p, Encode(a)) && Proper(key, false, Read(a))
    requires FoundIn(key, a, p) == [o] && p <= r && r + |KeyFor(key)| <= p + |Encode(a)| && Occurs(s, KeyFor(key), r)
    ensures r == o.at
  {
    OccursIsAt(s, Encode(a), p);
    OccursIsAt(s, KeyFor(key), r);
    assert OccursEnd(s, key, r + |key|);
    EndsIn(s, key, false, a, p, r + |key|);
  }

  /** So the last one before a position in the map, and after its key, is that key. */
  lemma NearestKey(s: seq<byte>, key: seq<byte>, a: Enc, p: nat, o: Found, k: nat)
    requires KeyText(key) && Legal(a) && a.EMap? && Stands(s, p, Encode(a)) && Proper(key, false, Read(a))
    requires FoundIn(key, a, p) == [o] && o.at + |KeyFor(key)| <= k <= p + |Encode(a)|
    ensures LastBefore(s, KeyFor(key), k, o.at) && p <= o.at
    ensures Legal(o.v) && Stands(s, o.at + |KeyFor(key)|, Encode(o.v))
  {
    OneGood(s, key, a, p, o);
    forall r: nat | o.at < r && r + |KeyFor(key)| <= k ensures !Occurs(s, KeyFor(key), r) {
      if Occurs(s, KeyFor(key), r) { OnlyKey(s, key, a, p, o, r); }
    }
  }

  lemma OffsetIsText()
    ensures KeyText(OFFSET) && |OFFSET| == 7 && |KIND| == 11
  {
    assert OFFSET[5] == 'e' as int && OFFSET[6] == 't' as int;
  }

  /** The argument `a`, written at p, is the one whose value kind's text starts at k. */
  ghost predicate TextAtKey(key: seq<byte>, a: Enc, p: nat, k: nat) {
    Legal(a) && |FoundIn(key, a, p)| == 1 &&
    var f := FoundIn(key, a, p)[0];
    f.v.EStr? && Legal(f.v) && k == f.at + |KeyFor(key)| + |HeadBytes(f.v)|
  }

  /** The key nearest before the text under another key of the same argument. */
  lemma NearestBeforeText(s: seq<byte>, a: Enc, p: nat, key: seq<byte>, other: seq<byte>, k: nat) returns (o: Found)
    requires KeyText(key) && |key| <= |other| < 32 && key != other && a.EMap? && Legal(a) && Stands(s, p, Encode(a))
    requires ShortKeys(key, a) && ShortKeys(other, a) && IsArg(key, Read(a)) && IsArg(other, Read(a))
    requires Precedes(Read(a).items, key, other) && Proper(key, false, Read(a)) && TextAtKey(other, a, p, k)
    ensures LastBefore(s, KeyFor(key), k, o.at) && Read(o.v) == Get(Read(a).items, key).value
    ensures Legal(o.v) && Stands(s, o.at + |KeyFor(key)|, Encode(o.v))
  {
    var f;
    o, f := ArgOrder(s, a, p, key, other);
    OneGood(s, other, a, p, f);
    assert |HeadBytes(f.v)| <= |Encode(f.v)|;
    NearestKey(s, key, a, p, o, k);
  }

  /** When the first occurrence of the kind's text is an argument's value kind, the number the scan reads is
      the offset a full parse finds in that argument's map, as long as it is written as an unsigned number
      of up to 32 bits; otherwise the scan reports that it cannot read it. */
  lemma OffsetAgrees(s: seq<byte>, a: Enc, p: nat, text: seq<byte>, k: nat) returns (o: Enc, v: nat)
    requires ArgMap(a, text) && Stands(s, p, Encode(a)) && TextAtKey(KIND, a, p, k) && FirstText(s, text, k)
    ensures Legal(o) && Read(o) == Get(Read(a).items, OFFSET).value && OffsetOf(s, text, v)
    ensures if SmallUint(o) then Get(Read(a).items, OFFSET) == Some(Int(v)) else v == UNHANDLED
  {
    OffsetIsText();
    var f := NearestBeforeText(s, a, p, OFFSET, KIND, k);
    o, v := f.v, MpUint(s, f.at + |KeyFor(OFFSET)|);
    MpUintAgrees(o, s, f.at + |KeyFor(OFFSET)|);
  }
}

/** Where the bytes of a map key can stand in an encoded document: only where the key is written, unless a
    string or a run of numbers of the document spells it. */
module StrayKeys {
  import opened Bytes
  import opened Options
  import opened Sequences
  import opened MsgPack
  import opened ByteScan

  // ---- documents that do not spell the key elsewhere --------------------------------------

  /** A key's text: ASCII, and its last two characters differ. */
  predicate KeyText(kind: seq<byte>) {
    && 7 <= |kind| < 32 && (forall i :: 0 <= i < |kind| ==> 0 < kind[i] < 0x80)
    && kind[|kind| - 1] != kind[|kind| - 2]
  }

  /** `t` stands at position p of `s`, byte by byte. */
  ghost predicate At(s: seq<byte>, t: seq<byte>, p: nat) {
    p + |t| <= |s| && forall j {:trigger t[j]} :: 0 <= j < |t| ==> s[p + j] == t[j]
  }

  lemma OccursIsAt(s: seq<byte>, t: seq<byte>, p: nat)
    ensures Occurs(s, t, p) <==> At(s, t, p)
    ensures Stands(s, p, t) <==> At(s, t, p)
  {
    if At(s, t, p) { assert s[p..p + |t|] == t; }
    if p + |t| <= |s| && s[p..p + |t|] == t {
      forall j | 0 <= j < |t| ensures s[p + j] == t[j] { assert s[p..p + |t|][j] == s[p + j]; }
    }
  }

  ghost predicate Contains(s: seq<byte>, t: seq<byte>) { exists p: nat :: At(s, t, p) }

  /** The text but for its last character. */
  function Stem(kind: seq<byte>): seq<byte>
    requires kind != []
  {
    kind[..|kind| - 1]
  }

  function Last(kind: seq<byte>): byte
    requires kind != []
  {
    kind[|kind| - 1]
  }

  ghost predicate Benign(kind: seq<byte>, s: seq<byte>)
    requires kind != []
  {
    |s| < 0x8000 && !Contains(s, Stem(kind))
  }

  /** Map keys are strings; no string but the key itself contains its text, not even without the last
      character, or is 32 KiB long; no number is negative; no array has the code of the text's last
      character as an item. With `texts`, what stands under the key is a string of under 256 bytes. */
  ghost predicate Proper(kind: seq<byte>, texts: bool, v: Val)
    requires kind != []
    decreases v
  {
    match v
    case Int(i) => i >= 0
    case Str(s) => Benign(kind, s)
    case Arr(items) => ProperItems(kind, texts, items)
    case Map(items) => ProperEntries(kind, texts, items)
    case _ => true
  }

  ghost predicate ProperItems(kind: seq<byte>, texts: bool, vs: seq<Val>)
    requires kind != []
    decreases vs
  {
    vs == [] || (vs[0] != Int(Last(kind) as int) && Proper(kind, texts, vs[0]) && ProperItems(kind, texts, vs[1..]))
  }

  ghost predicate ProperEntries(kind: seq<byte>, texts: bool, vs: seq<Val>)
    requires kind != []
    decreases vs
  {
    |vs| >= 2 ==>
      && vs[0].Str? && (if vs[0].s == kind then texts ==> vs[1].Str? && |vs[1].s| < 256 else Benign(kind, vs[0].s))
      && Proper(kind, texts, vs[1]) && ProperEntries(kind, texts, vs[2..])
  }

  // ---- an occurrence, by where it ends ----------------------------------------------------

  /** The key's bytes stand in `s` with the last of them at z. */
  ghost predicate OccursEnd(s: seq<byte>, kind: seq<byte>, z: nat) { z >= |kind| && At(s, KeyFor(kind), z - |kind|) }

  ghost predicate FoundAt(fs: seq<Found>, q: int) { exists i :: 0 <= i < |fs| && fs[i].at == q }

  lemma FoundConcat(a: seq<Found>, b: seq<Found>, q: int)
    ensures FoundAt(a + b, q) <==> FoundAt(a, q) || FoundAt(b, q)
  {
    if i :| 0 <= i < |a| && a[i].at == q { assert (a + b)[i] == a[i]; }
    if i :| 0 <= i < |b| && b[i].at == q { assert (a + b)[|a| + i] == b[i]; }
  }

  /** The j-th byte from the end of an occurrence. */
  lemma KeyByte(s: seq<byte>, kind: seq<byte>, z: nat, j: nat)
    requires KeyText(kind) && OccursEnd(s, kind, z) && j <= |kind|
    ensures z < |s| && s[z - j] == KeyFor(kind)[|kind| - j]
    ensures j < |kind| ==> s[z - j] == kind[|kind| - 1 - j] < 0x80
  {
  }

  lemma AtPart(s: seq<byte>, t: seq<byte>, p: nat, x: seq<byte>, at: nat)
    requires At(s, t, p) && At(s, x, at) && at <= p && p + |t| <= at + |x|
    ensures At(x, t, p - at)
  {
    forall j | 0 <= j < |t| ensures x[p - at + j] == t[j] { assert s[at + (p - at + j)] == x[p - at + j]; }
  }

  /** What ends inside a token with a first byte of 128 or more lies wholly inside it. */
  lemma TokenEnds(s: seq<byte>, at: nat, x: seq<byte>, kind: seq<byte>, z: nat)
    requires KeyText(kind) && x != [] && x[0] >= 0x80 && At(s, x, at)
    requires at <= z < at + |x| && OccursEnd(s, kind, z)
    ensures z - at >= |kind| && At(x, KeyFor(kind), z - at - |kind|)
  {
    assert s[at + 0] == x[0];
    if z - at <= |kind| { KeyByte(s, kind, z, z - at); }
    assert z - at >= |kind|;
    AtPart(s, KeyFor(kind), z - |kind|, x, at);
  }

  lemma {:induction false} LowBytes(n: nat, w: nat)
    requires n < 0x80
    ensures forall i :: 0 <= i < w ==> BeBytes(n, w)[i] < 0x80
  {
    if w > 0 { LowBytes(0, w - 1); }
  }

  /** A number below 2^15: every byte of its field but the last is below 128. */
  lemma HighBytes(n: nat, w: nat)
    requires n < 0x8000 && w > 0
    ensures forall i :: 0 <= i < w - 1 ==> BeBytes(n, w)[i] < 0x80
    ensures BeBytes(n, w)[w - 1] as int == n % 256
  {
    LowBytes(n / 256, w - 1);
  }

  /** The bytes before a string's text: the first is 128 or more, and of the others only the last can be,
      as long as the text is shorter than 32 KiB. */
  lemma StringHead(e: Enc)
    requires Legal(e) && e.EStr? && |e.s| < 0x8000
    ensures var h := HeadBytes(e);
            && 0xa0 <= h[0] < 0xdc && (h[0] < 0xc0 <==> e.f == Fix) &&
               (e.f == Fix ==> |h| == 1 && h[0] as int == 0xa0 + |e.s|)
            && (forall i :: 1 <= i < |h| - 1 ==> h[i] < 0x80) && (e.f != Fix ==> h[|h| - 1] as int == |e.s| % 256)
  {
    if e.f != Fix { HighBytes(|e.s|, if e.f == F8 then 1 else if e.f == F16 then 2 else 4); }
  }

  /** The first byte of a key can be in no number and no announcement. */
  lemma KeyStart(x: seq<byte>, kind: seq<byte>, q: nat)
    requires KeyText(kind) && At(x, KeyFor(kind), q)
    ensures x[q] as int == 0xa0 + |kind| && At(x, kind, q + 1)
  {
    assert x[q + 0] == KeyFor(kind)[0];
    forall j | 0 <= j < |kind| ensures x[q + 1 + j] == kind[j] { assert KeyFor(kind)[1 + j] == kind[j]; }
  }

  /** In a string's bytes, one that can start the key is right before the text, or in it. */
  lemma KeyInString(e: Enc, q: nat)
    requires Legal(e) && e.EStr? && |e.s| < 0x8000 && q < |Encode(e)| && 0xa0 <= Encode(e)[q] < 0xc0
    ensures |HeadBytes(e)| <= q + 1
  {
    StringHead(e);
    if q < |HeadBytes(e)| { assert Encode(e)[q] == HeadBytes(e)[q]; }
  }

  lemma AtText(e: Enc, t: seq<byte>, q: nat)
    requires Legal(e) && e.EStr? && |HeadBytes(e)| <= q && At(Encode(e), t, q)
    ensures At(e.s, t, q - |HeadBytes(e)|)
  {
    var h := HeadBytes(e);
    forall j | 0 <= j < |t| ensures e.s[q - |h| + j] == t[j] { assert Encode(e)[q + j] == e.s[q - |h| + j]; }
  }

  /** A string spells the key only if its text does, or it is the key. */
  lemma StringSpells(e: Enc, kind: seq<byte>, q: nat)
    requires KeyText(kind) && Legal(e) && e.EStr? && |e.s| < 0x8000 && At(Encode(e), KeyFor(kind), q)
    ensures q > 0 ==> Contains(e.s, kind)
    ensures q == 0 ==> e == EStr(Fix, kind)
  {
    KeyStart(Encode(e), kind, q);
    KeyInString(e, q);
    AtText(e, kind, q + 1);
    if q == 0 { ShortForm(e, kind); }
  }

  lemma ShortForm(e: Enc, kind: seq<byte>)
    requires KeyText(kind) && Legal(e) && e.EStr? && |e.s| < 0x8000 && Encode(e)[0] as int == 0xa0 + |kind|
    requires At(e.s, kind, 0)
    ensures e == EStr(Fix, kind)
  {
    StringHead(e);
    assert HeadBytes(e)[0] == Encode(e)[0];
    forall j | 0 <= j < |kind| ensures e.s[j] == kind[j] { assert e.s[0 + j] == kind[j]; }
    assert |e.s| == |kind|;
    assert e.s == kind;
  }

  lemma StemAt(s: seq<byte>, kind: seq<byte>, p: nat)
    requires kind != [] && At(s, kind, p)
    ensures At(s, Stem(kind), p)
  {
    forall j | 0 <= j < |Stem(kind)| ensures s[p + j] == Stem(kind)[j] { assert kind[j] == Stem(kind)[j]; }
  }

  lemma StemIn(s: seq<byte>, kind: seq<byte>)
    requires kind != [] && Contains(s, kind)
    ensures Contains(s, Stem(kind))
  {
    var p: nat :| At(s, kind, p);
    StemAt(s, kind, p);
  }

  lemma StringEnds(s: seq<byte>, at: nat, e: Enc, kind: seq<byte>, z: nat)
    requires KeyText(kind) && Legal(e) && e.EStr? && At(s, Encode(e), at)
    requires at <= z < at + |Encode(e)| && OccursEnd(s, kind, z) && (e.s == kind || Benign(kind, e.s))
    ensures e == EStr(Fix, kind) && z == at + |kind|
  {
    StringHead(e);
    assert Encode(e)[0] == HeadBytes(e)[0];
    TokenEnds(s, at, Encode(e), kind, z);
    if e.s == kind {
      KeyItself(e, kind, z - at - |kind|);
    } else {
      StringSpells(e, kind, z - at - |kind|);
      if Contains(e.s, kind) { StemIn(e.s, kind); }
    }
  }

  lemma LongHead(e: Enc, q: nat)
    requires Legal(e) && e.EStr? && e.f != Fix && |e.s| < 32 && q < |HeadBytes(e)|
    ensures !(0xa0 <= Encode(e)[q] < 0xc0)
  {
    StringHead(e);
    assert Encode(e)[q] == HeadBytes(e)[q];
  }

  /** The key's own text holds its key bytes only if it is written in its shortest form. */
  lemma KeyItself(e: Enc, kind: seq<byte>, q: nat)
    requires KeyText(kind) && Legal(e) && e.EStr? && e.s == kind && At(Encode(e), KeyFor(kind), q)
    ensures e == EStr(Fix, kind) && q == 0
  {
    KeyStart(Encode(e), kind, q);
    assert |Encode(e)| == |HeadBytes(e)| + |kind|;
    assert q < |HeadBytes(e)|;
    if e.f != Fix { LongHead(e, q); }
  }

  lemma {:induction false} BeTop(s: seq<byte>)
    requires s != []
    ensures Be(s) >= s[0] as int * Pow256(|s| - 1)
  {
    if |s| == 1 {
      assert s[..0] == [];
    } else {
      BeTop(s[..|s| - 1]);
      assert Pow256(|s| - 1) == 256 * Pow256(|s| - 2);
      TopScale(Be(s[..|s| - 1]), s[0] as int, Pow256(|s| - 2));
    }
  }

  lemma TopScale(b: nat, c: nat, p: nat)
    requires b >= c * p
    ensures b * 256 >= c * (256 * p)
  {
    assert c * (256 * p) == c * p * 256;
  }

  /** A number that is not negative starts its 8-byte field with less than 128. */
  lemma NumberField(e: Enc)
    requires Legal(e) && (e.EUint? || e.EInt?) && Read(e).i >= 0 && e.w == 8
    ensures Encode(e)[1] < 0x80
  {
    var field := Encode(e)[1..];
    var v := if e.EUint? then e.v else Unsigned(e.i, 8);
    assert field == BeBytes(v, 8);
    BeRoundTrip(v, 8);
    BeTop(field);
    assert Pow256(8) == 256 * Pow256(7);
    if field[0] >= 0x80 { TopHalf(field[0] as int, Pow256(7)); }
  }

  lemma TopHalf(c: nat, p: nat)
    requires c >= 128
    ensures c * p >= 256 * p / 2
  {
    assert c * p >= 128 * p;
  }

  /** Numbers, bare announcements and the other scalars are too short to spell the key. */
  lemma ScalarEnds(s: seq<byte>, at: nat, x: seq<byte>, kind: seq<byte>, z: nat)
    requires KeyText(kind) && x != [] && (|x| < 9 || x[1] < 0x80) && |x| <= 9 && 0x80 <= x[0] && !(0xa0 <= x[0] < 0xc0)
    requires At(s, x, at) && at <= z < at + |x|
    ensures !OccursEnd(s, kind, z)
  {
    if OccursEnd(s, kind, z) {
      TokenEnds(s, at, x, kind, z);
      KeyStart(x, kind, z - at - |kind|);
    }
  }

  lemma NumberEnds(s: seq<byte>, at: nat, e: Enc, kind: seq<byte>, z: nat)
    requires KeyText(kind) && Legal(e) && Read(e).Int? && Read(e).i >= 0 && At(s, Encode(e), at)
    requires e.EFix? ==> e.i != Last(kind) as int
    requires at <= z < at + |Encode(e)|
    ensures !OccursEnd(s, kind, z)
  {
    var x := Encode(e);
    if e.EFix? {
      assert s[at + 0] == x[0];
      if OccursEnd(s, kind, z) { KeyByte(s, kind, z, 0); }
    } else {
      if e.w == 8 { NumberField(e); }
      ScalarEnds(s, at, x, kind, z);
    }
  }

  lemma AtSplit(s: seq<byte>, at: nat, a: seq<byte>, b: seq<byte>)
    requires At(s, a + b, at)
    ensures At(s, a, at) && At(s, b, at + |a|)
  {
    forall j | 0 <= j < |a| ensures s[at + j] == a[j] { assert (a + b)[j] == a[j]; }
    forall j | 0 <= j < |b| ensures s[at + |a| + j] == b[j] { assert (a + b)[|a| + j] == b[j]; }
  }

  /** What ends inside an array or a map ends among its items. */
  lemma HeadOrItems(s: seq<byte>, at: nat, e: Enc, kind: seq<byte>, z: nat)
    requires KeyText(kind) && Legal(e) && (e.EArr? || e.EMap?) && At(s, Encode(e), at)
    requires at <= z < at + |Encode(e)| && OccursEnd(s, kind, z)
    ensures var mid := at + |HeadBytes(e)|;
            At(s, EncodeAll(e.items), mid) && mid <= z < mid + |EncodeAll(e.items)|
  {
    AtSplit(s, at, HeadBytes(e), EncodeAll(e.items));
    if z < at + |HeadBytes(e)| { ScalarEnds(s, at, HeadBytes(e), kind, z); }
  }

  // ---- a number under a key ---------------------------------------------------------------

  /** Bytes that end with all of the key but its last byte are not those of a string that is benign, or
      the key. */
  lemma KeyTail(k: Enc, kind: seq<byte>, q: nat)
    requires KeyText(kind) && Legal(k) && k.EStr? && (k.s == kind || Benign(kind, k.s))
    requires q + |kind| == |Encode(k)|
    ensures !At(Encode(k), KeyFor(kind)[..|kind|], q)
  {
    var h, t := HeadBytes(k), KeyFor(kind)[..|kind|];
    if At(Encode(k), t, q) {
      assert Encode(k)[q + 0] == t[0];
      StringHead(k);
      KeyInString(k, q);
      StemAfter(Encode(k), kind, q);
      var p: nat := q + 1 - |h|;
      if k.s == kind { Shifted(kind, p); }
      AtText(k, Stem(kind), q + 1);
    }
  }

  lemma StemAfter(x: seq<byte>, kind: seq<byte>, q: nat)
    requires KeyText(kind) && At(x, KeyFor(kind)[..|kind|], q)
    ensures At(x, Stem(kind), q + 1)
  {
    var t := KeyFor(kind)[..|kind|];
    forall j | 0 <= j < |Stem(kind)| ensures x[q + 1 + j] == Stem(kind)[j] { assert t[1 + j] == Stem(kind)[j]; }
  }

  /** The text does not end with its own stem: its last two characters differ. */
  lemma Shifted(kind: seq<byte>, p: nat)
    requires KeyText(kind) && p + |Stem(kind)| == |kind|
    ensures !At(kind, Stem(kind), p)
  {
    assert Stem(kind)[|kind| - 2] == kind[|kind| - 2];
  }

  lemma LastUnderKey(s: seq<byte>, at: nat, k: Enc, kind: seq<byte>, z: nat)
    requires KeyText(kind) && Legal(k) && k.EStr? && (k.s == kind || Benign(kind, k.s))
    requires At(s, Encode(k), at) && z == at + |Encode(k)|
    ensures !OccursEnd(s, kind, z)
  {
    StringHead(k);
    assert Encode(k)[0] == HeadBytes(k)[0];
    if OccursEnd(s, kind, z) {
      EndsAfter(s, at, Encode(k), kind, z);
      KeyTail(k, kind, |Encode(k)| - |kind|);
    }
  }

  /** What ends right after a token with a first byte of 128 or more has all but its end inside it. */
  lemma EndsAfter(s: seq<byte>, at: nat, x: seq<byte>, kind: seq<byte>, z: nat)
    requires KeyText(kind) && x != [] && x[0] >= 0x80 && At(s, x, at) && z == at + |x| && OccursEnd(s, kind, z)
    ensures |x| >= |kind| && At(x, KeyFor(kind)[..|kind|], |x| - |kind|)
  {
    assert s[at + 0] == x[0];
    if |x| < |kind| { KeyByte(s, kind, z, |x|); }
    assert |x| >= |kind|;
    var t := KeyFor(kind)[..|kind|];
    forall j | 0 <= j < |t| ensures s[z - |kind| + j] == t[j] { assert KeyFor(kind)[j] == t[j]; }
    AtPart(s, t, z - |kind|, x, at);
  }

  // ---- every occurrence is a key ----------------------------------------------------------

  lemma {:induction false} EndsIn(s: seq<byte>, kind: seq<byte>, texts: bool, e: Enc, at: nat, z: nat)
    requires KeyText(kind) && Legal(e) && At(s, Encode(e), at) && Proper(kind, texts, Read(e))
    requires Read(e) != Int(Last(kind) as int) && at <= z < at + |Encode(e)| && OccursEnd(s, kind, z)
    ensures FoundAt(FoundIn(kind, e, at), z - |kind|)
    decreases e, 1
  {
    match e
    case EStr(_, _) =>
      StringEnds(s, at, e, kind, z);
      StemItself(kind);
    case EArr(_, _) => EndsInside(s, kind, texts, e, at, z);
    case EMap(_, _) => EndsInside(s, kind, texts, e, at, z);
    case ENil => ScalarEnds(s, at, Encode(e), kind, z);
    case EBool(_) => ScalarEnds(s, at, Encode(e), kind, z);
    case _ => NumberEnds(s, at, e, kind, z);
  }

  lemma ProperInside(kind: seq<byte>, texts: bool, e: Enc)
    requires kind != [] && Legal(e) && (e.EArr? || e.EMap?) && Proper(kind, texts, Read(e))
    ensures e.EArr? ==> ProperItems(kind, texts, ReadAll(e.items))
    ensures e.EMap? ==> ProperEntries(kind, texts, ReadAll(e.items)) && |e.items| % 2 == 0
    ensures forall k :: 0 <= k < |e.items| ==> Legal(e.items[k])
  {
  }

  lemma {:induction false} EndsInside(s: seq<byte>, kind: seq<byte>, texts: bool, e: Enc, at: nat, z: nat)
    requires KeyText(kind) && Legal(e) && At(s, Encode(e), at) && Proper(kind, texts, Read(e)) && (e.EArr? || e.EMap?)
    requires at <= z < at + |Encode(e)| && OccursEnd(s, kind, z)
    ensures FoundAt(FoundIn(kind, e, at), z - |kind|)
    decreases e, 0
  {
    HeadOrItems(s, at, e, kind, z);
    ProperInside(kind, texts, e);
    KindsUnfold(kind, e, at);
    var mid := at + |HeadBytes(e)|;
    if e.EArr? { EndsItems(s, kind, texts, e.items, mid, z); } else { EndsEntries(s, kind, texts, e.items, mid, z); }
  }

  lemma {:induction false} EndsItems(s: seq<byte>, kind: seq<byte>, texts: bool, es: seq<Enc>, at: nat, z: nat)
    requires KeyText(kind) && (forall k :: 0 <= k < |es| ==> Legal(es[k])) && At(s, EncodeAll(es), at)
    requires ProperItems(kind, texts, ReadAll(es)) && at <= z < at + |EncodeAll(es)| && OccursEnd(s, kind, z)
    ensures FoundAt(FoundItems(kind, es, at), z - |kind|)
    decreases es
  {
    var e, rest := es[0], es[1..];
    var mid := at + |Encode(e)|;
    ConsAll(e, rest);
    assert es == [e] + rest;
    assert ReadAll(es)[0] == Read(e) && ReadAll(es)[1..] == ReadAll(rest);
    AtSplit(s, at, Encode(e), EncodeAll(rest));
    if z < mid { EndsIn(s, kind, texts, e, at, z); } else { EndsItems(s, kind, texts, rest, mid, z); }
    ItemsUnfold(kind, es, at, mid);
    FoundConcat(FoundIn(kind, e, at), FoundItems(kind, rest, mid), z - |kind|);
  }

  lemma {:induction false} EndsEntries(s: seq<byte>, kind: seq<byte>, texts: bool, es: seq<Enc>, at: nat, z: nat)
    requires KeyText(kind) && |es| % 2 == 0 && (forall k :: 0 <= k < |es| ==> Legal(es[k])) && At(s, EncodeAll(es), at)
    requires ProperEntries(kind, texts, ReadAll(es)) && at <= z < at + |EncodeAll(es)| && OccursEnd(s, kind, z)
    ensures FoundAt(FoundEntries(kind, es, at), z - |kind|)
    decreases es
  {
    var mid, end := AtTwo(s, at, es);
    ProperTwo(kind, texts, es);
    EvenTail(es);
    EndsFirst(s, kind, texts, es, at, mid, end, z);
    if z >= end { EndsEntries(s, kind, texts, es[2..], end, z); }
    EntriesFound(kind, es, at, mid, end, z - |kind|);
  }

  lemma {:induction false} EndsFirst(s: seq<byte>, kind: seq<byte>, texts: bool, es: seq<Enc>, at: nat, mid: nat,
                                     end: nat, z: nat)
    requires KeyText(kind) && |es| >= 2 && Legal(es[0]) && Legal(es[1]) && Proper(kind, texts, Read(es[1]))
    requires es[0].EStr? && (es[0].s == kind || Benign(kind, es[0].s))
    requires At(s, Encode(es[0]), at) && mid == at + |Encode(es[0])|
    requires At(s, Encode(es[1]), mid) && end == mid + |Encode(es[1])| && at <= z && OccursEnd(s, kind, z)
    ensures z < end ==> FoundAt(FoundKey(kind, es[0], es[1], at), z - |kind|) ||
                        FoundAt(FoundIn(kind, es[1], mid), z - |kind|)
    decreases es, 0
  {
    if z < end { EndsEntry(s, kind, texts, es[0], es[1], at, mid, z); }
  }

  /** One entry of a map. */
  lemma {:induction false} EndsEntry(s: seq<byte>, kind: seq<byte>, texts: bool, k: Enc, v: Enc, at: nat, mid: nat,
                                     z: nat)
    requires KeyText(kind) && Legal(k) && Legal(v) && k.EStr? && (k.s == kind || Benign(kind, k.s)) &&
             Proper(kind, texts, Read(v))
    requires At(s, Encode(k), at) && mid == at + |Encode(k)| && At(s, Encode(v), mid)
    requires at <= z < mid + |Encode(v)| && OccursEnd(s, kind, z)
    ensures FoundAt(FoundKey(kind, k, v, at), z - |kind|) || FoundAt(FoundIn(kind, v, mid), z - |kind|)
    decreases v, 2
  {
    if z < mid {
      StringEnds(s, at, k, kind, z);
      assert FoundKey(kind, k, v, at)[0].at == z - |kind|;
    } else if Read(v) != Int(Last(kind) as int) {
      EndsIn(s, kind, texts, v, mid, z);
    } else {
      LastValue(s, kind, k, v, at, mid, z);
    }
  }

  /** Where the parts of a map's first entry stand, and the other entries. */
  lemma AtTwo(s: seq<byte>, at: nat, es: seq<Enc>) returns (mid: nat, end: nat)
    requires |es| >= 2 && (forall k :: 0 <= k < |es| ==> Legal(es[k])) && At(s, EncodeAll(es), at)
    ensures mid == at + |Encode(es[0])| && end == mid + |Encode(es[1])| &&
            end + |EncodeAll(es[2..])| == at + |EncodeAll(es)| <= |s|
    ensures At(s, Encode(es[0]), at) && At(s, Encode(es[1]), mid) && At(s, EncodeAll(es[2..]), end)
  {
    var k, v, more := Encode(es[0]), Encode(es[1]), EncodeAll(es[2..]);
    TwoAtATime(es);
    AtSplit(s, at, k, v + more);
    AtSplit(s, at + |k|, v, more);
    mid, end := at + |k|, at + |k| + |v|;
  }

  lemma StemItself(kind: seq<byte>)
    requires kind != []
    ensures Contains(kind, Stem(kind))
  {
    assert At(kind, kind, 0);
    StemAt(kind, kind, 0);
  }

  /** A number with the code of the key's last character, under whatever key, ends no occurrence. */
  lemma LastValue(s: seq<byte>, kind: seq<byte>, k: Enc, v: Enc, at: nat, mid: nat, z: nat)
    requires KeyText(kind) && Legal(k) && Legal(v) && k.EStr? && (k.s == kind || Benign(kind, k.s))
    requires Read(v) == Int(Last(kind) as int) && At(s, Encode(k), at) && mid == at + |Encode(k)|
    requires At(s, Encode(v), mid) && mid <= z < mid + |Encode(v)|
    ensures !OccursEnd(s, kind, z)
  {
    if v.EFix? { LastUnderKey(s, at, k, kind, z); } else { NumberEnds(s, mid, v, kind, z); }
  }

  lemma EntriesFound(kind: seq<byte>, es: seq<Enc>, at: nat, mid: nat, end: nat, q: int)
    requires |es| >= 2 && (forall i :: 0 <= i < |es| ==> Legal(es[i]))
    requires mid == at + |Encode(es[0])| && end == mid + |Encode(es[1])|
    requires || FoundAt(FoundKey(kind, es[0], es[1], at), q) || FoundAt(FoundIn(kind, es[1], mid), q)
             || FoundAt(FoundEntries(kind, es[2..], end), q)
    ensures FoundAt(FoundEntries(kind, es, at), q)
  {
    var fk, fv := FoundKey(kind, es[0], es[1], at), FoundIn(kind, es[1], mid);
    EntriesUnfold(kind, es, at, mid, end);
    FoundConcat(fk, fv, q);
    FoundConcat(fk + fv, FoundEntries(kind, es[2..], end), q);
  }

  lemma ProperTwo(kind: seq<byte>, texts: bool, es: seq<Enc>)
    requires kind != [] && |es| >= 2 && (forall i :: 0 <= i < |es| ==> Legal(es[i])) &&
             ProperEntries(kind, texts, ReadAll(es))
    ensures es[0].EStr? && (es[0].s == kind || Benign(kind, es[0].s))
    ensures Proper(kind, texts, Read(es[1])) && ProperEntries(kind, texts, ReadAll(es[2..]))
  {
    TwoAtATime(es);
    JoinTwo(Read(es[0]), Read(es[1]), ReadAll(es[2..]));
  }

  /** In a section that holds the document, the key's bytes stand only where the document has the key, if
      they stand neither before nor after it and do not run over its end. */
  lemma OnlyInDocument(s: seq<byte>, kind: seq<byte>, texts: bool, e: Enc, at: nat)
    requires KeyText(kind) && Legal(e) && Stands(s, at, Encode(e)) && Proper(kind, texts, Read(e)) && Read(e).Map?
    requires var end := at + |Encode(e)|;
             && !Contains(s[..at], KeyFor(kind)) && !Contains(s[end..], KeyFor(kind)) && (end < |s| ==> s[end] !in kind)
    ensures OnlyAsKeys(s, kind, FoundIn(kind, e, at))
  {
    forall q: nat ensures OnlyAsKey(s, kind, FoundIn(kind, e, at), q) {
      if Occurs(s, KeyFor(kind), q) { OccursAsKey(s, kind, texts, e, at, q); }
    }
  }

  lemma OccursAsKey(s: seq<byte>, kind: seq<byte>, texts: bool, e: Enc, at: nat, q: nat)
    requires KeyText(kind) && Legal(e) && Stands(s, at, Encode(e)) && Proper(kind, texts, Read(e)) && Read(e).Map?
    requires var end := at + |Encode(e)|;
             && !Contains(s[..at], KeyFor(kind)) && !Contains(s[end..], KeyFor(kind)) && (end < |s| ==> s[end] !in kind)
    requires Occurs(s, KeyFor(kind), q)
    ensures FoundAt(FoundIn(kind, e, at), q)
  {
    OccursIsAt(s, Encode(e), at);
    OccursIsAt(s, KeyFor(kind), q);
    OccursWhere(s, kind, at, Encode(e), q);
    EndsIn(s, kind, texts, e, at, q + |kind|);
  }

  /** An occurrence that ends before the document is before it, one that ends after it is after it. */
  lemma OccursWhere(s: seq<byte>, kind: seq<byte>, at: nat, x: seq<byte>, q: nat)
    requires KeyText(kind) && At(s, x, at) && At(s, KeyFor(kind), q) && (at + |x| < |s| ==> s[at + |x|] !in kind)
    ensures OccursEnd(s, kind, q + |kind|)
    ensures q + |kind| < at ==> Contains(s[..at], KeyFor(kind))
    ensures q + |kind| >= at + |x| ==> Contains(s[at + |x|..], KeyFor(kind))
  {
    var end, k, z := at + |x|, KeyFor(kind), q + |kind|;
    if z < at { assert At(s[..at], k, q); }
    if z >= end {
      if q < end { KeyByte(s, kind, z, z - end); }
      assert q >= end;
      AfterEnd(s, k, q, end);
    }
  }

  lemma AfterEnd(s: seq<byte>, t: seq<byte>, q: nat, end: nat)
    requires At(s, t, q) && end <= q && end <= |s|
    ensures At(s[end..], t, q - end)
  {
    forall j | 0 <= j < |t| ensures s[end..][q - end + j] == t[j] { assert s[q + j] == t[j]; }
  }
}

/** No legal way of writing a document takes fewer bytes than the offline tool's. */
module PackShortest {
  import opened Bytes
  import opened MsgPack
  import opened KernargNote

  /** The bytes in front of a string, an array or a map. */
  function FormLength(f: Form): nat { match f case Fix => 1 case F8 => 2 case F16 => 3 case F32 => 5 }

  lemma HeadLength(e: Enc)
    requires Legal(e)
    ensures e.EUint? || e.EInt? ==> |HeadBytes(e)| == 1 + e.w
    ensures e.EStr? || e.EArr? || e.EMap? ==> |HeadBytes(e)| == FormLength(e.f)
    ensures e.ENil? || e.EBool? || e.EFix? ==> |HeadBytes(e)| == 1
  {
  }

  /** A form with room for n entries is no shorter than the packed one. */
  lemma FormShortest(n: nat, f: Form)
    ensures n < Room(f, 32) && n < WORD ==> FormLength(PackForm(n, 32, true)) <= FormLength(f)
    ensures n < Room(f, 16) && n < WORD && f != F8 ==> FormLength(PackForm(n, 16, false)) <= FormLength(f)
  {
  }

  lemma IntShortest(i: int, e: Enc)
    requires Packable(Int(i)) && Legal(e) && Means(e) == Int(i)
    ensures Legal(PackInt(i)) && |Encode(PackInt(i))| <= |Encode(e)|
  {
    Pows();
    PackedInt(i);
    HeadLength(e);
    HeadLength(PackInt(i));
  }

  /** The tool's encoding is a shortest one: no legal encoding of the document has fewer bytes. */
  lemma {:induction false} PackIsShortest(v: Val, e: Enc)
    requires Packable(v) && Legal(e) && Means(e) == v
    ensures Legal(Pack(v)) && |Encode(Pack(v))| <= |Encode(e)|
    decreases v
  {
    PackRoundTrip(v);
    match v
    case Int(i) => IntShortest(i, e);
    case Str(s) => LongShortest(v, e);
    case Arr(items) => ItemsShortest(items, e.items); LongShortest(v, e);
    case Map(items) => ItemsShortest(items, e.items); LongShortest(v, e);
    case _ => HeadLength(Pack(v));
  }

  lemma LongShortest(v: Val, e: Enc)
    requires (v.Str? || v.Arr? || v.Map?) && Packable(v) && Legal(e) && Means(e) == v && Legal(Pack(v))
    requires !v.Str? ==> |EncodeAll(Pack(v).items)| <= |EncodeAll(e.items)|
    ensures |Encode(Pack(v))| <= |Encode(e)|
  {
    HeadLength(e);
    HeadLength(Pack(v));
    FormShortest(if v.Str? then |v.s| else if v.Arr? then |v.items| else |v.items| / 2, e.f);
  }

  lemma {:induction false} ItemsShortest(vs: seq<Val>, es: seq<Enc>)
    requires (forall k :: 0 <= k < |vs| ==> Packable(vs[k])) && (forall k :: 0 <= k < |es| ==> Legal(es[k]))
    requires MeansAll(es) == vs
    ensures forall k :: 0 <= k < |vs| ==> Legal(PackAll(vs)[k])
    ensures |EncodeAll(PackAll(vs))| <= |EncodeAll(es)|
    decreases vs
  {
    if vs != [] {
      PackIsShortest(vs[0], es[0]);
      ItemsShortest(vs[1..], es[1..]);
      PackAllRoundTrip(vs);
    }
  }
}

/** The MessagePack subset of the kernel metadata note: what the analyser's reader makes of bytes, and
    every legal way of encoding a document. */
module MsgPack {
  import opened Bytes
  import opened Options

  /** A document as the reader stores it. A map's keys and values alternate in `items`. */
  datatype Val = Nil | Bool(b: bool) | Int(i: int) | Str(s: seq<byte>) | Arr(items: seq<Val>) | Map(items: seq<Val>)

  // ---- big-endian numbers -----------------------------------------------------------------

  function Be(s: seq<byte>): nat { if s == [] then 0 else Be(s[..|s| - 1]) * 256 + s[|s| - 1] as int }

  function BeBytes(v: nat, n: nat): (r: seq<byte>)
    ensures |r| == n
  {
    if n == 0 then [] else BeBytes(v / 256, n - 1) + [v % 256]
  }

  function Pow256(n: nat): (p: nat)
    ensures p >= 1
  {
    if n == 0 then 1 else 256 * Pow256(n - 1)
  }

  lemma {:induction false} BeRoundTrip(v: nat, n: nat)
    requires v < Pow256(n)
    ensures Be(BeBytes(v, n)) == v
  {
    if n > 0 {
      BeRoundTrip(v / 256, n - 1);
      assert BeBytes(v, n)[..n - 1] == BeBytes(v / 256, n - 1);
    }
  }

  lemma {:induction false} BeUnique(s: seq<byte>)
    ensures Be(s) < Pow256(|s|) && BeBytes(Be(s), |s|) == s
  {
    if s != [] {
      BeUnique(s[..|s| - 1]);
      assert s == s[..|s| - 1] + [s[|s| - 1]];
    }
  }

  /** The value of an unsigned number of n bytes read as two's complement. */
  function Signed(v: nat, n: nat): int { if v >= Pow256(n) / 2 then v - Pow256(n) else v }

  function Unsigned(i: int, n: nat): int { if i < 0 then i + Pow256(n) else i }

  lemma Pow256Even(n: nat)
    requires n > 0
    ensures Pow256(n) % 2 == 0
  {
  }

  lemma SignedRoundTrip(i: int, n: nat)
    requires n > 0 && -(Pow256(n) / 2) <= i < Pow256(n) / 2
    ensures 0 <= Unsigned(i, n) < Pow256(n) && Signed(Unsigned(i, n), n) == i
  {
    Pow256Even(n);
  }

  lemma UnsignedRoundTrip(v: nat, n: nat)
    requires n > 0 && v < Pow256(n)
    ensures -(Pow256(n) / 2) <= Signed(v, n) < Pow256(n) / 2 && Unsigned(Signed(v, n), n) == v
  {
    Pow256Even(n);
  }

  // ---- encodings --------------------------------------------------------------------------

  datatype Form = Fix | F8 | F16 | F32

  /** A legal way of writing a document: which format each part uses, whether or not it is the
      shortest. Number widths are in bytes. */
  datatype Enc =
    | ENil
    | EBool(b: bool)
    | EFix(i: int)
    | EUint(w: nat, v: nat)
    | EInt(w: nat, i: int)
    | EStr(f: Form, s: seq<byte>)
    | EArr(f: Form, items: seq<Enc>)
    | EMap(f: Form, items: seq<Enc>)

  predicate Width(w: nat) { w == 1 || w == 2 || w == 4 || w == 8 }

  /** How long a string, array or map a form can announce. */
  function Room(f: Form, fix: nat): nat {
    match f case Fix => fix case F8 => 256 case F16 => 65536 case F32 => WORD
  }

  ghost predicate Legal(e: Enc)
    decreases e
  {
    match e
    case ENil => true
    case EBool(_) => true
    case EFix(i) => -32 <= i < 128
    case EUint(w, v) => Width(w) && v < Pow256(w)
    case EInt(w, i) => Width(w) && -(Pow256(w) / 2) <= i < Pow256(w) / 2
    case EStr(f, s) => |s| < Room(f, 32)
    case EArr(f, items) => f != F8 && |items| < Room(f, 16) && forall k :: 0 <= k < |items| ==> Legal(items[k])
    case EMap(f, items) =>
      f != F8 && |items| % 2 == 0 && |items| / 2 < Room(f, 16) && forall k :: 0 <= k < |items| ==> Legal(items[k])
  }

  /** A length in the form's own field. */
  function Length(f: Form, n: nat, fix: byte, code: byte): seq<byte>
    requires f == Fix ==> fix as int + n < 256
    requires code < 253
  {
    match f
    case Fix => [fix as int + n]
    case F8 => [code] + BeBytes(n, 1)
    case F16 => [code + 1] + BeBytes(n, 2)
    case F32 => [code + 2] + BeBytes(n, 4)
  }

  function WidthIndex(w: nat): byte { if w == 1 then 0 else if w == 2 then 1 else if w == 4 then 2 else 3 }

  /** The bytes that announce a value: all of it for the scalars. */
  function HeadBytes(e: Enc): (r: seq<byte>)
    requires Legal(e)
    ensures |r| >= 1
  {
    match e
    case ENil => [0xc0]
    case EBool(b) => [if b then 0xc3 else 0xc2]
    case EFix(i) => [if i < 0 then 256 + i else i]
    case EUint(w, v) => [0xcc + WidthIndex(w)] + BeBytes(v, w)
    case EInt(w, i) => SignedRoundTrip(i, w); [0xd0 + WidthIndex(w)] + BeBytes(Unsigned(i, w), w)
    case EStr(f, s) => Length(f, |s|, 0xa0, 0xd9)
    case EArr(f, items) => Length(f, |items|, 0x90, 0xdb)
    case EMap(f, items) => Length(f, |items| / 2, 0x80, 0xdd)
  }

  function Encode(e: Enc): (r: seq<byte>)
    requires Legal(e)
    ensures |r| >= 1
    decreases e
  {
    match e
    case EStr(_, s) => HeadBytes(e) + s
    case EArr(_, items) => HeadBytes(e) + EncodeAll(items)
    case EMap(_, items) => HeadBytes(e) + EncodeAll(items)
    case _ => HeadBytes(e)
  }

  function EncodeAll(es: seq<Enc>): (r: seq<byte>)
    requires forall k :: 0 <= k < |es| ==> Legal(es[k])
    decreases es
  {
    if es == [] then [] else Encode(es[0]) + EncodeAll(es[1..])
  }

  /** What an encoding says, by the MessagePack specification. */
  function Means(e: Enc): Val
    decreases e
  {
    match e
    case ENil => Nil
    case EBool(b) => Bool(b)
    case EFix(i) => Int(i)
    case EUint(_, v) => Int(v)
    case EInt(_, i) => Int(i)
    case EStr(_, s) => Str(s)
    case EArr(_, items) => Arr(MeansAll(items))
    case EMap(_, items) => Map(MeansAll(items))
  }

  function MeansAll(es: seq<Enc>): (r: seq<Val>)
    ensures |r| == |es|
    decreases es
  {
    if es == [] then [] else [Means(es[0])] + MeansAll(es[1..])
  }

  /** What the reader stores for it: a 64-bit unsigned number goes through a signed 64-bit field. */
  function Read(e: Enc): Val
    decreases e
  {
    match e
    case EUint(w, v) => if w == 8 then Int(Signed(v, 8)) else Int(v)
    case EArr(_, items) => Arr(ReadAll(items))
    case EMap(_, items) => Map(ReadAll(items))
    case _ => Means(e)
  }

  function ReadAll(es: seq<Enc>): (r: seq<Val>)
    ensures |r| == |es|
    decreases es
  {
    if es == [] then [] else [Read(es[0])] + ReadAll(es[1..])
  }

  /** No unsigned number of 2^63 or more anywhere in it. */
  ghost predicate NoHuge(e: Enc)
    decreases e
  {
    match e
    case EUint(w, v) => w == 8 ==> v < Pow256(8) / 2
    case EArr(_, items) => NoHugeAll(items)
    case EMap(_, items) => NoHugeAll(items)
    case _ => true
  }

  ghost predicate NoHugeAll(es: seq<Enc>)
    decreases es
  {
    es == [] || (NoHuge(es[0]) && NoHugeAll(es[1..]))
  }

  /** The reader's value is the document exactly when nothing in it is that large. */
  lemma {:induction false} ReadsMeaning(e: Enc)
    ensures Read(e) == Means(e) <==> NoHuge(e)
    decreases e
  {
    match e
    case EArr(_, items) => ReadsMeanings(items);
    case EMap(_, items) => ReadsMeanings(items);
    case EUint(w, v) => assert Pow256(8) > 0;
    case _ =>
  }

  /** Every unsigned number from 2^63 on comes back negative. */
  lemma HugeReadsNegative(v: nat)
    requires 0x8000_0000_0000_0000 <= v < 0x1_0000_0000_0000_0000
    ensures Legal(EUint(8, v)) && Means(EUint(8, v)) == Int(v)
    ensures Read(EUint(8, v)) == Int(v - 0x1_0000_0000_0000_0000)
  {
    Pow8();
  }

  lemma Pow8()
    ensures Pow256(8) == 0x1_0000_0000_0000_0000
  {
    assert Pow256(2) == 0x1_0000;
    assert Pow256(4) == 0x1_0000_0000 by { assert Pow256(3) == 0x100_0000; }
    assert Pow256(6) == 0x1_0000_0000_0000 by { assert Pow256(5) == 0x100_0000_0000; }
    assert Pow256(7) == 0x100_0000_0000_0000;
  }

  lemma {:induction false} ReadsMeanings(es: seq<Enc>)
    ensures ReadAll(es) == MeansAll(es) <==> NoHugeAll(es)
    decreases es
  {
    if es != [] {
      ReadsMeaning(es[0]);
      ReadsMeanings(es[1..]);
      assert ReadAll(es)[0] == Read(es[0]) && ReadAll(es)[1..] == ReadAll(es[1..]);
      assert MeansAll(es)[0] == Means(es[0]) && MeansAll(es)[1..] == MeansAll(es[1..]);
    }
  }

  // ---- the reader -------------------------------------------------------------------------

  datatype Head = HVal(v: Val) | HStr(n: nat) | HArr(n: nat) | HMap(n: nat)

  /** The number in the n bytes after the first one. */
  function Field(s: seq<byte>, n: nat): nat
    requires |s| > n
  {
    Be(s[1..1 + n])
  }

  /** How many bytes after the first one the announcement takes. */
  function Extra(c: byte): nat {
    if c == 0xcc || c == 0xd0 || c == 0xd9 then 1
    else if c == 0xcd || c == 0xd1 || c == 0xda || c == 0xdc || c == 0xde then 2
    else if c == 0xce || c == 0xd2 || c == 0xdb || c == 0xdd || c == 0xdf then 4
    else if c == 0xcf || c == 0xd3 then 8
    else 0
  }

  /** The first byte and its length or value field. */
  function ParseHead(s: seq<byte>): Option<Head> {
    if s == [] then None
    else
      var c, n := s[0], Extra(s[0]);
      if c <= 0x7f then Some(HVal(Int(c)))
      else if c >= 0xe0 then Some(HVal(Int(c as int - 256)))
      else if 0xa0 <= c < 0xc0 then Some(HStr(c as int - 0xa0))
      else if 0x90 <= c < 0xa0 then Some(HArr(c as int - 0x90))
      else if 0x80 <= c < 0x90 then Some(HMap(c as int - 0x80))
      else if c == 0xc0 then Some(HVal(Nil))
      else if c == 0xc2 then Some(HVal(Bool(false)))
      else if c == 0xc3 then Some(HVal(Bool(true)))
      else if n == 0 || |s| <= n then None
      else if c < 0xcf then Some(HVal(Int(Field(s, n))))
      else if c <= 0xd3 then Some(HVal(Int(Signed(Field(s, n), n))))
      else if c <= 0xdb then Some(HStr(Field(s, n)))
      else if c <= 0xdd then Some(HArr(Field(s, n)))
      else Some(HMap(Field(s, n)))
  }

  /** The value at the front of `s` and what follows it. */
  function Parse(s: seq<byte>): (r: Option<(Val, seq<byte>)>)
    ensures r.Some? ==> |r.value.1| < |s|
    decreases |s|, 0
  {
    match ParseHead(s)
    case None => None
    case Some(h) =>
      var k := 1 + Extra(s[0]);
      if k > |s| then None
      else
        match h
        case HVal(v) => Some((v, s[k..]))
        case HStr(n) => if k + n > |s| then None else Some((Str(s[k..k + n]), s[k + n..]))
        case HArr(n) =>
          (match ParseMany(s[k..], n)
           case None => None
           case Some((vs, rest)) => Some((Arr(vs), rest)))
        case HMap(n) =>
          match ParseMany(s[k..], 2 * n)
          case None => None
          case Some((vs, rest)) => Some((Map(vs), rest))
  }

  function ParseMany(s: seq<byte>, n: nat): (r: Option<(seq<Val>, seq<byte>)>)
    ensures r.Some? ==> |r.value.0| == n && |r.value.1| <= |s|
    decreases |s|, 1
  {
    if n == 0 then Some(([], s))
    else
      match Parse(s)
      case None => None
      case Some((v, rest)) =>
        match ParseMany(rest, n - 1)
        case None => None
        case Some((vs, end)) => Some(([v] + vs, end))
  }

  /** What a value's announcement tells the reader. */
  function HeadOf(e: Enc): Head {
    match e
    case EStr(_, s) => HStr(|s|)
    case EArr(_, items) => HArr(|items|)
    case EMap(_, items) => HMap(|items| / 2)
    case _ => HVal(Read(e))
  }

  lemma FieldIs(c: byte, v: nat, n: nat, rest: seq<byte>)
    requires v < Pow256(n)
    ensures Field([c] + BeBytes(v, n) + rest, n) == v
  {
    var s := [c] + BeBytes(v, n) + rest;
    assert s[1..1 + n] == BeBytes(v, n);
    BeRoundTrip(v, n);
  }

  lemma Pows()
    ensures Pow256(1) == 256 && Pow256(2) == 65536 && Pow256(4) == WORD
  {
    assert Pow256(3) == 16777216;
  }

  lemma LengthRoundTrip(f: Form, n: nat, fix: byte, code: byte, rest: seq<byte>)
    requires n < Room(f, 256 - fix as int) && code < 253
    ensures var s := Length(f, n, fix, code) + rest;
            match f
            case Fix => s[0] as int == fix as int + n
            case F8 => s[0] == code && Field(s, 1) == n
            case F16 => s[0] == code + 1 && Field(s, 2) == n
            case F32 => s[0] == code + 2 && Field(s, 4) == n
  {
    Pows();
    match f
    case Fix =>
    case F8 => FieldIs(code, n, 1, rest);
    case F16 => FieldIs(code + 1, n, 2, rest);
    case F32 => FieldIs(code + 2, n, 4, rest);
  }

  ghost predicate HeadOk(e: Enc, rest: seq<byte>)
    requires Legal(e)
  {
    var s := HeadBytes(e) + rest;
    ParseHead(s) == Some(HeadOf(e)) && 1 + Extra(s[0]) == |HeadBytes(e)|
  }

  lemma NumberHead(c: byte, v: nat, w: nat, rest: seq<byte>)
    requires 0xcc <= c <= 0xd3 && Extra(c) == w && v < Pow256(w)
    ensures ParseHead([c] + BeBytes(v, w) + rest) == Some(HVal(Int(if c < 0xcf then v else Signed(v, w))))
  {
    FieldIs(c, v, w, rest);
  }

  lemma StrHead(f: Form, n: nat, rest: seq<byte>)
    requires n < Room(f, 32)
    ensures var h := Length(f, n, 0xa0, 0xd9);
            ParseHead(h + rest) == Some(HStr(n)) && 1 + Extra((h + rest)[0]) == |h|
  {
    LengthRoundTrip(f, n, 0xa0, 0xd9, rest);
  }

  lemma ArrHead(f: Form, n: nat, rest: seq<byte>)
    requires f != F8 && n < Room(f, 16)
    ensures var h := Length(f, n, 0x90, 0xdb);
            ParseHead(h + rest) == Some(HArr(n)) && 1 + Extra((h + rest)[0]) == |h|
  {
    LengthRoundTrip(f, n, 0x90, 0xdb, rest);
  }

  lemma MapHead(f: Form, n: nat, rest: seq<byte>)
    requires f != F8 && n < Room(f, 16)
    ensures var h := Length(f, n, 0x80, 0xdd);
            ParseHead(h + rest) == Some(HMap(n)) && 1 + Extra((h + rest)[0]) == |h|
  {
    LengthRoundTrip(f, n, 0x80, 0xdd, rest);
  }

  lemma HeadRoundTrip(e: Enc, rest: seq<byte>)
    requires Legal(e)
    ensures HeadOk(e, rest)
  {
    match e
    case EUint(w, v) => NumberHead(0xcc + WidthIndex(w), v, w, rest);
    case EInt(w, i) =>
      SignedRoundTrip(i, w);
      NumberHead(0xd0 + WidthIndex(w), Unsigned(i, w), w, rest);
    case EStr(f, s) => StrHead(f, |s|, rest);
    case EArr(f, items) => ArrHead(f, |items|, rest);
    case EMap(f, items) => MapHead(f, |items| / 2, rest);
    case _ =>
  }

  /** A value that ends with its announcement or the string after it. */
  lemma ParseFlat(e: Enc, rest: seq<byte>)
    requires Legal(e) && !e.EArr? && !e.EMap?
    ensures Parse(Encode(e) + rest) == Some((Read(e), rest))
  {
    var head, str := HeadBytes(e), if e.EStr? then e.s else [];
    var tail := str + rest;
    var s := head + tail;
    assert Encode(e) + rest == s && s[|head|..] == tail;
    HeadRoundTrip(e, tail);
    if e.EStr? { assert s[|head|..|head| + |str|] == str && s[|head| + |str|..] == rest; }
  }

  lemma ParseArr(s: seq<byte>, n: nat, vs: seq<Val>, rest: seq<byte>)
    requires ParseHead(s) == Some(HArr(n)) && 1 + Extra(s[0]) <= |s|
    requires ParseMany(s[1 + Extra(s[0])..], n) == Some((vs, rest))
    ensures Parse(s) == Some((Arr(vs), rest))
  {
  }

  lemma ParseMap(s: seq<byte>, n: nat, vs: seq<Val>, rest: seq<byte>)
    requires ParseHead(s) == Some(HMap(n)) && 1 + Extra(s[0]) <= |s|
    requires ParseMany(s[1 + Extra(s[0])..], 2 * n) == Some((vs, rest))
    ensures Parse(s) == Some((Map(vs), rest))
  {
  }

  lemma HalfTwice(n: nat)
    requires n % 2 == 0
    ensures 2 * (n / 2) == n
  {
  }

  /** An array or map, once its items parse. */
  lemma ParseNested(e: Enc, rest: seq<byte>)
    requires Legal(e) && (e.EArr? || e.EMap?)
    requires ParseMany(EncodeAll(e.items) + rest, |e.items|) == Some((ReadAll(e.items), rest))
    ensures Parse(Encode(e) + rest) == Some((Read(e), rest))
  {
    var head, tail := HeadBytes(e), EncodeAll(e.items) + rest;
    var s := head + tail;
    Assoc(head, EncodeAll(e.items), rest);
    HeadRoundTrip(e, tail);
    assert s[|head|..] == tail;
    if e.EArr? {
      ParseArr(s, |e.items|, ReadAll(e.items), rest);
    } else {
      HalfTwice(|e.items|);
      ParseMap(s, |e.items| / 2, ReadAll(e.items), rest);
    }
  }

  /** The reader inverts every legal encoding, whatever bytes follow. */
  lemma {:induction false} ParseRoundTrip(e: Enc, rest: seq<byte>)
    requires Legal(e)
    ensures Parse(Encode(e) + rest) == Some((Read(e), rest))
    decreases e
  {
    if e.EArr? || e.EMap? {
      ParseManyRoundTrip(e.items, rest);
      ParseNested(e, rest);
    } else {
      ParseFlat(e, rest);
    }
  }

  lemma Assoc(a: seq<byte>, b: seq<byte>, c: seq<byte>)
    ensures (a + b) + c == a + (b + c)
  {
  }

  lemma {:induction false} ParseManyRoundTrip(es: seq<Enc>, rest: seq<byte>)
    requires forall k :: 0 <= k < |es| ==> Legal(es[k])
    ensures ParseMany(EncodeAll(es) + rest, |es|) == Some((ReadAll(es), rest))
    decreases es
  {
    if es == [] {
      assert EncodeAll(es) + rest == rest;
    } else {
      var first, more := Encode(es[0]), EncodeAll(es[1..]);
      ParseRoundTrip(es[0], more + rest);
      ParseManyRoundTrip(es[1..], rest);
      Assoc(first, more, rest);
    }
  }

  // ---- only legal encodings are accepted --------------------------------------------------

  /** The first byte of an 8-, 16- or 32-bit length whose 8-bit form starts with `code`. */
  predicate IsLengthCode(c: byte, code: byte) {
    (Extra(c) == 1 && c == code) || (Extra(c) == 2 && c as int == code as int + 1) ||
      (Extra(c) == 4 && c as int == code as int + 2)
  }

  /** A length field read back names the form it was written in. */
  lemma LengthParsed(s: seq<byte>, n: nat, fix: byte, code: byte) returns (f: Form)
    requires s != [] && code < 253 && (Extra(s[0]) > 0 ==> |s| > Extra(s[0]))
    requires if Extra(s[0]) == 0 then fix <= s[0] && n == s[0] as int - fix as int
             else IsLengthCode(s[0], code) && n == Field(s, Extra(s[0]))
    ensures n < Room(f, 256 - fix as int) && s[..1 + Extra(s[0])] == Length(f, n, fix, code)
    ensures f == F8 <==> Extra(s[0]) == 1
    ensures f == Fix <==> Extra(s[0]) == 0
  {
    var k := Extra(s[0]);
    Pows();
    f := if k == 0 then Fix else if k == 1 then F8 else if k == 2 then F16 else F32;
    if k > 0 {
      BeUnique(s[1..1 + k]);
      assert s[..1 + k] == [s[0]] + s[1..1 + k];
    }
  }

  lemma UintParsed(c: byte, field: seq<byte>) returns (e: Enc)
    requires 0xcc <= c <= 0xcf && Extra(c) == |field|
    ensures e.EUint? && Legal(e) && HeadBytes(e) == [c] + field && e.w == |field| && e.v == Be(field)
  {
    BeUnique(field);
    e := EUint(|field|, Be(field));
  }

  lemma IntParsed(c: byte, field: seq<byte>) returns (e: Enc)
    requires 0xd0 <= c <= 0xd3 && Extra(c) == |field|
    ensures e.EInt? && Legal(e) && HeadBytes(e) == [c] + field && e.i == Signed(Be(field), |field|)
  {
    BeUnique(field);
    UnsignedRoundTrip(Be(field), |field|);
    e := EInt(|field|, Signed(Be(field), |field|));
  }

  /** A scalar at the front of `s` is one of the legal encodings of what the reader makes of it. */
  lemma ScalarParsed(s: seq<byte>) returns (e: Enc)
    requires ParseHead(s).Some? && ParseHead(s).value.HVal?
    ensures Legal(e) && !e.EStr? && !e.EArr? && !e.EMap?
    ensures |s| > Extra(s[0]) && HeadBytes(e) == s[..1 + Extra(s[0])] && Read(e) == ParseHead(s).value.v
  {
    var c, n := s[0], Extra(s[0]);
    if n == 0 {
      e := if c <= 0x7f then EFix(c) else if c >= 0xe0 then EFix(c as int - 256)
           else if c == 0xc0 then ENil else EBool(c == 0xc3);
    } else {
      var field := s[1..1 + n];
      assert s[..1 + n] == [c] + field;
      if c <= 0xcf { e := UintParsed(c, field); } else { e := IntParsed(c, field); }
    }
  }

  lemma StrAccepts(s: seq<byte>, n: nat) returns (e: Enc)
    requires ParseHead(s) == Some(HStr(n)) && 1 + Extra(s[0]) + n <= |s|
    ensures var k := 1 + Extra(s[0]); Legal(e) && Encode(e) == s[..k + n] && Read(e) == Str(s[k..k + n])
  {
    var k := 1 + Extra(s[0]);
    var f := LengthParsed(s, n, 0xa0, 0xd9);
    e := EStr(f, s[k..k + n]);
    assert s[..k + n] == s[..k] + s[k..k + n];
  }

  lemma ArrAccepts(s: seq<byte>, n: nat, es: seq<Enc>) returns (e: Enc)
    requires ParseHead(s) == Some(HArr(n)) && Extra(s[0]) < |s|
    requires |es| == n && forall i :: 0 <= i < n ==> Legal(es[i])
    ensures Legal(e) && Encode(e) == s[..1 + Extra(s[0])] + EncodeAll(es) && Read(e) == Arr(ReadAll(es))
  {
    var f := LengthParsed(s, n, 0x90, 0xdb);
    e := EArr(f, es);
  }

  lemma MapAccepts(s: seq<byte>, n: nat, es: seq<Enc>) returns (e: Enc)
    requires ParseHead(s) == Some(HMap(n)) && Extra(s[0]) < |s|
    requires |es| == 2 * n && forall i :: 0 <= i < 2 * n ==> Legal(es[i])
    ensures Legal(e) && Encode(e) == s[..1 + Extra(s[0])] + EncodeAll(es) && Read(e) == Map(ReadAll(es))
  {
    var f := LengthParsed(s, n, 0x80, 0xdd);
    e := EMap(f, es);
  }

  lemma Reassemble(s: seq<byte>, k: nat, mid: seq<byte>, rest: seq<byte>)
    requires k <= |s| && s[k..] == mid + rest
    ensures s == s[..k] + mid + rest
  {
  }

  /** Whatever the reader accepts is a legal encoding of the value it returns, followed by the rest. */
  lemma {:induction false} ParseAccepts(s: seq<byte>) returns (e: Enc)
    requires Parse(s).Some?
    ensures Legal(e) && Encode(e) + Parse(s).value.1 == s && Read(e) == Parse(s).value.0
    decreases |s|, 0
  {
    var rest := Parse(s).value.1;
    var k := 1 + Extra(s[0]);
    match ParseHead(s).value
    case HVal(v) =>
      e := ScalarParsed(s);
      Reassemble(s, k, [], rest);
    case HStr(n) =>
      e := StrAccepts(s, n);
      Reassemble(s, k + n, [], rest);
    case HArr(n) =>
      var es := ParseManyAccepts(s[k..], n);
      e := ArrAccepts(s, n, es);
      Reassemble(s, k, EncodeAll(es), rest);
    case HMap(n) =>
      var es := ParseManyAccepts(s[k..], 2 * n);
      e := MapAccepts(s, n, es);
      Reassemble(s, k, EncodeAll(es), rest);
  }

  lemma ConsAll(e: Enc, es: seq<Enc>)
    requires Legal(e) && forall i :: 0 <= i < |es| ==> Legal(es[i])
    ensures forall i :: 0 <= i < |[e] + es| ==> Legal(([e] + es)[i])
    ensures EncodeAll([e] + es) == Encode(e) + EncodeAll(es) && ReadAll([e] + es) == [Read(e)] + ReadAll(es)
  {
    assert ([e] + es)[1..] == es;
  }

  lemma {:induction false} ParseManyAccepts(s: seq<byte>, n: nat) returns (es: seq<Enc>)
    requires ParseMany(s, n).Some?
    ensures |es| == n && forall i :: 0 <= i < n ==> Legal(es[i])
    ensures EncodeAll(es) + ParseMany(s, n).value.1 == s && ReadAll(es) == ParseMany(s, n).value.0
    decreases |s|, 1
  {
    if n == 0 {
      es := [];
    } else {
      var e := ParseAccepts(s);
      var rest := Parse(s).value.1;
      var more := ParseManyAccepts(rest, n - 1);
      var end := ParseMany(rest, n - 1).value.1;
      es := [e] + more;
      ConsAll(e, more);
      Assoc(Encode(e), EncodeAll(more), end);
    }
  }

  // ---- the reader as the program writes it ------------------------------------------------

  method ReadBe(buf: seq<byte>, p: nat, n: nat) returns (v: nat)
    requires p + n <= |buf|
    ensures v == Be(buf[p..p + n])
  {
    v := 0;
    for k := 0 to n
      invariant v == Be(buf[p..p + k])
    {
      v := v * 256 + buf[p + k] as int;
      assert buf[p..p + k + 1][..k] == buf[p..p + k];
    }
  }

  /** The switch on the first byte. */
  method MpHead(buf: seq<byte>, p: nat) returns (h: Option<Head>, q: nat)
    requires p < |buf|
    ensures h == if p + Extra(buf[p]) < |buf| then ParseHead(buf[p..]) else None
    ensures h.Some? ==> q == p + 1 + Extra(buf[p]) <= |buf|
  {
    var c, s := buf[p], buf[p..];
    q := p + 1;
    if c <= 0x7f { return Some(HVal(Int(c))), q; }
    if c >= 0xe0 { return Some(HVal(Int(c as int - 256))), q; }
    if 0xa0 <= c < 0xc0 { return Some(HStr(c as int - 0xa0)), q; }
    if 0x90 <= c < 0xa0 { return Some(HArr(c as int - 0x90)), q; }
    if 0x80 <= c < 0x90 { return Some(HMap(c as int - 0x80)), q; }
    if c == 0xc0 { return Some(HVal(Nil)), q; }
    if c == 0xc2 { return Some(HVal(Bool(false))), q; }
    if c == 0xc3 { return Some(HVal(Bool(true))), q; }
    var n := Extra(c);
    if n == 0 || q + n > |buf| { return None, q; }
    var v := ReadBe(buf, q, n);
    assert s[1..1 + n] == buf[q..q + n];
    q := q + n;
    if c < 0xcf { h := Some(HVal(Int(v))); }
    else if c <= 0xd3 { h := Some(HVal(Int(Signed(v, n)))); }
    else if c <= 0xdb { h := Some(HStr(v)); }
    else if c <= 0xdd { h := Some(HArr(v)); }
    else { h := Some(HMap(v)); }
  }

  lemma TailSlices(buf: seq<byte>, p: nat, k: nat, n: nat)
    requires p + k + n <= |buf|
    ensures buf[p..][k..k + n] == buf[p + k..p + k + n]
    ensures buf[p..][k + n..] == buf[p + k + n..]
  {
    var s := buf[p..];
    assert forall i :: 0 <= i < |s| ==> s[i] == buf[p + i];
  }

  /** `mpParse`: a value and the position after it, or failure. */
  method MpParse(buf: seq<byte>, p: nat) returns (out: Val, end: Option<nat>)
    requires p <= |buf|
    ensures end.Some? ==> p < end.value <= |buf|
    ensures Parse(buf[p..]) == if end.Some? then Some((out, buf[end.value..])) else None
    decreases |buf| - p, 0
  {
    out, end := Nil, None;
    if p >= |buf| { return; }
    var h, q := MpHead(buf, p);
    ghost var s := buf[p..];
    if h.None? { return; }
    TailSlices(buf, p, q - p, 0);
    match h.value
    case HVal(v) => out, end := v, Some(q);
    case HStr(n) =>
      if q + n <= |buf| {
        out, end := Str(buf[q..q + n]), Some(q + n);
        TailSlices(buf, p, q - p, n);
      }
    case HArr(n) =>
      var items;
      items, end := MpParseMany(buf, q, n);
      out := Arr(items);
    case HMap(n) =>
      var items;
      items, end := MpParseMany(buf, q, 2 * n);
      out := Map(items);
  }

  /** The reader's loop over the items of an array, or over the keys and values of a map. */
  method MpParseMany(buf: seq<byte>, p: nat, n: nat) returns (items: seq<Val>, end: Option<nat>)
    requires p <= |buf|
    ensures end.Some? ==> p <= end.value <= |buf|
    ensures ParseMany(buf[p..], n) == if end.Some? then Some((items, buf[end.value..])) else None
    decreases |buf| - p, 1
  {
    items := [];
    var q := p;
    PrependNone(ParseMany(buf[p..], n));
    for k := 0 to n
      invariant p <= q <= |buf| && (k > 0 ==> p < q)
      invariant |items| == k && ParseMany(buf[p..], n) == Prepend(items, ParseMany(buf[q..], n - k))
    {
      var v, next := MpParse(buf, q);
      if next.None? { return items, None; }
      PrependMore(items, v, ParseMany(buf[next.value..], n - k - 1));
      items := items + [v];
      q := next.value;
    }
    end := Some(q);
    PrependDone(items, buf[q..]);
  }

  lemma PrependNone(r: Option<(seq<Val>, seq<byte>)>)
    ensures Prepend([], r) == r
  {
    if r.Some? { assert [] + r.value.0 == r.value.0; }
  }

  function Prepend(items: seq<Val>, r: Option<(seq<Val>, seq<byte>)>): Option<(seq<Val>, seq<byte>)> {
    match r
    case None => None
    case Some((vs, rest)) => Some((items + vs, rest))
  }

  lemma PrependDone(items: seq<Val>, rest: seq<byte>)
    ensures Prepend(items, ParseMany(rest, 0)) == Some((items, rest))
  {
    assert items + [] == items;
  }

  lemma PrependMore(items: seq<Val>, v: Val, r: Option<(seq<Val>, seq<byte>)>)
    ensures Prepend(items, Prepend([v], r)) == Prepend(items + [v], r)
  {
    if r.Some? { assert items + ([v] + r.value.0) == items + [v] + r.value.0; }
  }
}

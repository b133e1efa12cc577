/** The host's targeted byte scan for the number of explicit kernel arguments, and when it agrees with a
    full parse of the metadata. */
module ByteScan {
  import opened Bytes
  import opened Options
  import opened Sequences
  import opened Decimal
  import opened MsgPack
  import opened KernargNote

  /** A short string as a map key is written: its length in the first byte, then its text. */
  function KeyFor(kind: seq<byte>): (r: seq<byte>)
    ensures |r| == |kind| + 1
  {
    [0xa0 + Min(|kind|, 31)] + kind
  }

  const HIDDEN: seq<byte> := Ascii("hidden_")

  predicate Occurs(s: seq<byte>, key: seq<byte>, p: nat) { p + |key| <= |s| && s[p..p + |key|] == key }

  /** Where a short string at v has its text: the start and the length. */
  function TextAt(s: seq<byte>, v: nat): Option<(nat, nat)> {
    if v < |s| && 0xa0 <= s[v] <= 0xbf then Some((v + 1, s[v] as int - 0xa0))
    else if v + 1 < |s| && s[v] == 0xd9 then Some((v + 2, s[v + 1] as int))
    else None
  }

  /** The scan from position p: the count, or None when no key is seen. */
  function Scan(s: seq<byte>, kind: seq<byte>, hid: seq<byte>, p: nat, count: nat, found: bool): Option<nat>
    decreases |s| - p
  {
    if p + |KeyFor(kind)| > |s| then (if found then Some(count) else None)
    else if !Occurs(s, KeyFor(kind), p) then Scan(s, kind, hid, p + 1, count, found)
    else
      match TextAt(s, p + |KeyFor(kind)|)
      case None => Scan(s, kind, hid, p + |KeyFor(kind)|, count, true)
      case Some((str, len)) =>
        if str + len > |s| || (len >= |hid| && s[str..str + |hid|] == hid) then Some(count)
        else Scan(s, kind, hid, str + len, count + 1, true)
  }

  lemma ScanMiss(s: seq<byte>, kind: seq<byte>, hid: seq<byte>, p: nat, count: nat, found: bool)
    requires p + |KeyFor(kind)| <= |s| && s[p..p + |KeyFor(kind)|] != KeyFor(kind)
    ensures Scan(s, kind, hid, p, count, found) == Scan(s, kind, hid, p + 1, count, found)
  {
  }

  lemma ScanNoText(s: seq<byte>, kind: seq<byte>, hid: seq<byte>, p: nat, count: nat, found: bool)
    requires Occurs(s, KeyFor(kind), p) && TextAt(s, p + |KeyFor(kind)|) == None
    ensures Scan(s, kind, hid, p, count, found) == Scan(s, kind, hid, p + |KeyFor(kind)|, count, true)
  {
  }

  lemma ScanText(s: seq<byte>, kind: seq<byte>, hid: seq<byte>, p: nat, count: nat, found: bool, str: nat, len: nat)
    requires Occurs(s, KeyFor(kind), p) && TextAt(s, p + |KeyFor(kind)|) == Some((str, len))
    ensures Scan(s, kind, hid, p, count, found) ==
            if str + len > |s| || (len >= |hid| && s[str..str + |hid|] == hid) then Some(count)
            else Scan(s, kind, hid, str + len, count + 1, true)
  {
  }

  /** `co_read_explicit_arg_count` on one note section. */
  method CountExplicitArgs(s: seq<byte>) returns (r: Option<nat>)
    ensures r == Scan(s, KIND, HIDDEN, 0, 0, false)
  {
    var key := KeyFor(KIND);
    var p, count, found := 0, 0, false;
    ghost var answer := Scan(s, KIND, HIDDEN, p, count, found);
    while p + |key| <= |s|
      invariant Scan(s, KIND, HIDDEN, p, count, found) == answer
      decreases |s| - p
    {
      if s[p..p + |key|] != key {
        ScanMiss(s, KIND, HIDDEN, p, count, found);
        p := p + 1;
        continue;
      }
      ghost var was := found;
      found := true;
      var v := p + |key|;
      var str, len;
      if v < |s| && 0xa0 <= s[v] <= 0xbf { str, len := v + 1, s[v] as int - 0xa0; }
      else if v + 1 < |s| && s[v] == 0xd9 { str, len := v + 2, s[v + 1] as int; }
      else {
        ScanNoText(s, KIND, HIDDEN, p, count, was);
        p := p + |key|;
        continue;
      }
      ScanText(s, KIND, HIDDEN, p, count, was, str, len);
      if str + len > |s| { break; }
      if len >= |HIDDEN| && s[str..str + |HIDDEN|] == HIDDEN { return Some(count); }
      count := count + 1;
      p := str + len;
    }
    r := if found then Some(count) else None;
  }

  // ---- a scan that meets the keys one after another ---------------------------------------

  /** A key in the bytes. What follows is a short string that starts with `head` bytes of length and goes on
      with its text; or no short string; or one that the section ends in the middle of. */
  datatype Key = Key(at: nat, head: nat, kind: seq<byte>) | NoText(at: nat) | CutOff(at: nat)

  function KeyEnd(kind: seq<byte>, k: Key): nat {
    k.at + |KeyFor(kind)| + if k.Key? then k.head + |k.kind| else 0
  }

  ghost predicate KeyOk(s: seq<byte>, kind: seq<byte>, k: Key) {
    var v := k.at + |KeyFor(kind)|;
    && KeyEnd(kind, k) <= |s| && Occurs(s, KeyFor(kind), k.at)
    && match k
       case Key(_, head, text) => TextAt(s, v) == Some((v + head, |text|)) && s[v + head..KeyEnd(kind, k)] == text
       case NoText(_) => TextAt(s, v) == None
       case CutOff(_) => TextAt(s, v).Some? && TextAt(s, v).value.0 + TextAt(s, v).value.1 > |s|
  }

  /** From p on, the key bytes occur at exactly these keys, one after another. */
  ghost predicate Keyed(s: seq<byte>, kind: seq<byte>, keys: seq<Key>, p: nat) {
    && (forall i :: 0 <= i < |keys| ==> IthKey(s, kind, keys, p, i))
    && (forall q: nat :: NoOther(s, kind, keys, p, q))
  }

  ghost predicate IthKey(s: seq<byte>, kind: seq<byte>, keys: seq<Key>, p: nat, i: nat)
    requires i < |keys|
  {
    KeyOk(s, kind, keys[i]) && (if i == 0 then p else KeyEnd(kind, keys[i - 1])) <= keys[i].at
  }

  ghost predicate NoOther(s: seq<byte>, kind: seq<byte>, keys: seq<Key>, p: nat, q: nat) {
    p <= q && Occurs(s, KeyFor(kind), q) ==> exists i :: 0 <= i < |keys| && keys[i].at == q
  }

  /** The texts the scan gets to see: those of the short strings, as long as none is cut off. */
  function Texts(keys: seq<Key>): seq<Val> {
    if keys == [] then []
    else
      match keys[0]
      case Key(_, _, text) => [Str(text)] + Texts(keys[1..])
      case NoText(_) => Texts(keys[1..])
      case CutOff(_) => []
  }

  predicate IsHidden(hid: seq<byte>, v: Val) { v.Str? && hid <= v.s }

  /** How many kinds come before the first hidden one. */
  function BeforeHidden(hid: seq<byte>, kinds: seq<Val>): (n: nat)
    ensures n <= |kinds|
  {
    if kinds == [] || IsHidden(hid, kinds[0]) then 0 else 1 + BeforeHidden(hid, kinds[1..])
  }

  /** At this key the scan is over. */
  predicate Ends(hid: seq<byte>, k: Key) { k.CutOff? || (k.Key? && IsHidden(hid, Str(k.kind))) }

  function Counts(k: Key): nat { if k.Key? then 1 else 0 }

  /** What the scan does at a key: a text is counted unless it is hidden, which ends the scan, and anything
      but a whole short string is passed over or ends it. */
  lemma ScanAtKey(s: seq<byte>, kind: seq<byte>, hid: seq<byte>, k: Key, count: nat, found: bool)
    requires KeyOk(s, kind, k)
    ensures Scan(s, kind, hid, k.at, count, found) ==
            if Ends(hid, k) then Some(count) else Scan(s, kind, hid, KeyEnd(kind, k), count + Counts(k), true)
  {
    if k.Key? && |k.kind| >= |hid| {
      var str := KeyEnd(kind, k) - |k.kind|;
      assert s[str..str + |hid|] == s[str..KeyEnd(kind, k)][..|hid|];
    }
  }

  /** Without a key in between, the scan gets from p to q unchanged. */
  lemma {:induction false} ScanTo(s: seq<byte>, kind: seq<byte>, hid: seq<byte>, p: nat, q: nat, count: nat,
                                  found: bool)
    requires p <= q && q + |KeyFor(kind)| <= |s| + 1
    requires forall i :: p <= i < q ==> !Occurs(s, KeyFor(kind), i)
    ensures Scan(s, kind, hid, p, count, found) == Scan(s, kind, hid, q, count, found)
    decreases q - p
  {
    if p < q { ScanTo(s, kind, hid, p + 1, q, count, found); }
  }

  lemma ScanOut(s: seq<byte>, kind: seq<byte>, hid: seq<byte>, p: nat, count: nat, found: bool)
    requires forall i: nat :: p <= i ==> !Occurs(s, KeyFor(kind), i)
    ensures Scan(s, kind, hid, p, count, found) == if found then Some(count) else None
  {
    if p + |KeyFor(kind)| <= |s| { ScanTo(s, kind, hid, p, |s| - |KeyFor(kind)| + 1, count, found); }
  }

  lemma {:induction false} KeysRise(s: seq<byte>, kind: seq<byte>, keys: seq<Key>, p: nat, j: nat)
    requires Keyed(s, kind, keys, p) && j < |keys|
    ensures keys[0].at <= keys[j].at && (j > 0 ==> KeyEnd(kind, keys[0]) <= keys[j].at)
  {
    assert IthKey(s, kind, keys, p, j);
    if j > 0 { KeysRise(s, kind, keys, p, j - 1); }
  }

  lemma NoKeyBefore(s: seq<byte>, kind: seq<byte>, keys: seq<Key>, p: nat)
    requires Keyed(s, kind, keys, p) && keys != []
    ensures forall i :: p <= i < keys[0].at ==> !Occurs(s, KeyFor(kind), i)
    ensures KeyOk(s, kind, keys[0]) && p <= keys[0].at && keys[0].at + |KeyFor(kind)| <= |s|
  {
    assert IthKey(s, kind, keys, p, 0);
    forall i | p <= i < keys[0].at ensures !Occurs(s, KeyFor(kind), i) {
      assert NoOther(s, kind, keys, p, i);
      forall j | 0 <= j < |keys| ensures keys[j].at != i { KeysRise(s, kind, keys, p, j); }
    }
  }

  lemma NoKeys(s: seq<byte>, kind: seq<byte>, p: nat)
    requires Keyed(s, kind, [], p)
    ensures forall i: nat :: p <= i ==> !Occurs(s, KeyFor(kind), i)
  {
    forall i: nat | p <= i ensures !Occurs(s, KeyFor(kind), i) { assert NoOther(s, kind, [], p, i); }
  }

  lemma KeyedRest(s: seq<byte>, kind: seq<byte>, keys: seq<Key>, p: nat)
    requires Keyed(s, kind, keys, p) && keys != []
    ensures Keyed(s, kind, keys[1..], KeyEnd(kind, keys[0]))
  {
    var rest, end := keys[1..], KeyEnd(kind, keys[0]);
    assert IthKey(s, kind, keys, p, 0);
    forall i | 0 <= i < |rest| ensures IthKey(s, kind, rest, end, i) { assert IthKey(s, kind, keys, p, i + 1); }
    forall q: nat ensures NoOther(s, kind, rest, end, q) {
      assert NoOther(s, kind, keys, p, q);
      if end <= q && Occurs(s, KeyFor(kind), q) {
        var i :| 0 <= i < |keys| && keys[i].at == q;
        assert rest[i - 1].at == q;
      }
    }
  }

  lemma CountTexts(hid: seq<byte>, keys: seq<Key>)
    requires keys != []
    ensures BeforeHidden(hid, Texts(keys)) ==
            if Ends(hid, keys[0]) then 0 else Counts(keys[0]) + BeforeHidden(hid, Texts(keys[1..]))
  {
    if keys[0].Key? { assert ([Str(keys[0].kind)] + Texts(keys[1..]))[1..] == Texts(keys[1..]); }
  }

  /** From p on, the scan does what it does at the first key. */
  lemma ScanToKey(s: seq<byte>, kind: seq<byte>, hid: seq<byte>, keys: seq<Key>, p: nat, count: nat, found: bool)
    requires Keyed(s, kind, keys, p) && keys != []
    ensures Scan(s, kind, hid, p, count, found) ==
            if Ends(hid, keys[0]) then Some(count)
            else Scan(s, kind, hid, KeyEnd(kind, keys[0]), count + Counts(keys[0]), true)
  {
    NoKeyBefore(s, kind, keys, p);
    ScanTo(s, kind, hid, p, keys[0].at, count, found);
    ScanAtKey(s, kind, hid, keys[0], count, found);
  }

  lemma ScanNoKeys(s: seq<byte>, kind: seq<byte>, hid: seq<byte>, p: nat, count: nat, found: bool)
    requires Keyed(s, kind, [], p)
    ensures Scan(s, kind, hid, p, count, found) == if found then Some(count) else None
  {
    NoKeys(s, kind, p);
    ScanOut(s, kind, hid, p, count, found);
  }

  /** The scan of a section whose keys are known counts the texts it gets to see before the first hidden
      one; it answers nothing only if there is no key at all. */
  lemma {:induction false} ScanKeyed(s: seq<byte>, kind: seq<byte>, hid: seq<byte>, keys: seq<Key>, p: nat, count: nat,
                                     found: bool)
    requires Keyed(s, kind, keys, p)
    ensures Scan(s, kind, hid, p, count, found) ==
            if keys == [] && !found then None else Some(count + BeforeHidden(hid, Texts(keys)))
    decreases |keys|
  {
    if keys == [] {
      ScanNoKeys(s, kind, hid, p, count, found);
    } else {
      ScanToKey(s, kind, hid, keys, p, count, found);
      CountTexts(hid, keys);
      if !Ends(hid, keys[0]) {
        KeyedRest(s, kind, keys, p);
        ScanKeyed(s, kind, hid, keys[1..], KeyEnd(kind, keys[0]), count + Counts(keys[0]), true);
      }
    }
  }

  // ---- the keys of an encoded document ----------------------------------------------------

  /** A value_kind key at a position, with the value encoded after it. */
  datatype Found = Found(at: nat, v: Enc)

  function FoundIn(kind: seq<byte>, e: Enc, at: nat): seq<Found>
    requires Legal(e)
    decreases e, 0
  {
    match e
    case EArr(_, items) => FoundItems(kind, items, at + |HeadBytes(e)|)
    case EMap(_, items) => FoundEntries(kind, items, at + |HeadBytes(e)|)
    case _ => []
  }

  function FoundItems(kind: seq<byte>, es: seq<Enc>, at: nat): seq<Found>
    requires forall k :: 0 <= k < |es| ==> Legal(es[k])
    decreases es
  {
    if es == [] then [] else FoundIn(kind, es[0], at) + FoundItems(kind, es[1..], at + |Encode(es[0])|)
  }

  function FoundEntries(kind: seq<byte>, es: seq<Enc>, at: nat): seq<Found>
    requires forall k :: 0 <= k < |es| ==> Legal(es[k])
    decreases es
  {
    if |es| < 2 then []
    else
      var mid := at + |Encode(es[0])|;
      var end := mid + |Encode(es[1])|;
      FoundKey(kind, es[0], es[1], at) + FoundIn(kind, es[1], mid) + FoundEntries(kind, es[2..], end)
  }

  /** Where the keys in a map's first entry, and in the other entries, are found. */
  lemma EntriesUnfold(kind: seq<byte>, es: seq<Enc>, at: nat, mid: nat, end: nat)
    requires |es| >= 2 && (forall k :: 0 <= k < |es| ==> Legal(es[k]))
    requires mid == at + |Encode(es[0])| && end == mid + |Encode(es[1])|
    ensures FoundEntries(kind, es, at) ==
            FoundKey(kind, es[0], es[1], at) + FoundIn(kind, es[1], mid) + FoundEntries(kind, es[2..], end)
  {
  }

  lemma ItemsUnfold(kind: seq<byte>, es: seq<Enc>, at: nat, mid: nat)
    requires es != [] && (forall k :: 0 <= k < |es| ==> Legal(es[k])) && mid == at + |Encode(es[0])|
    ensures FoundItems(kind, es, at) == FoundIn(kind, es[0], at) + FoundItems(kind, es[1..], mid)
  {
  }

  /** A map's key: the one looked for, or something with keys inside. */
  function FoundKey(kind: seq<byte>, k: Enc, v: Enc, at: nat): seq<Found>
    requires Legal(k)
    decreases k, 1
  {
    if k == EStr(Fix, kind) then [Found(at, v)] else FoundIn(kind, k, at)
  }

  /** The bytes of `e` stand at position `at` of `s`. */
  ghost predicate Stands(s: seq<byte>, at: nat, bytes: seq<byte>) {
    at + |bytes| <= |s| && s[at..at + |bytes|] == bytes
  }

  /** Each found key is really there, inside the stretch from `lo` to `hi`. */
  ghost predicate Placed(s: seq<byte>, kind: seq<byte>, fs: seq<Found>, lo: nat, hi: nat) {
    forall i {:trigger PlacedAt(s, kind, fs[i], lo, hi)} :: 0 <= i < |fs| ==> PlacedAt(s, kind, fs[i], lo, hi)
  }

  ghost predicate PlacedAt(s: seq<byte>, kind: seq<byte>, f: Found, lo: nat, hi: nat) {
    && Legal(f.v) && lo <= f.at && f.at + |KeyFor(kind)| + |Encode(f.v)| <= hi <= |s|
    && Occurs(s, KeyFor(kind), f.at) && Stands(s, f.at + |KeyFor(kind)|, Encode(f.v))
  }

  /** The value kinds are short strings. */
  ghost predicate ShortKinds(fs: seq<Found>) {
    forall i {:trigger IsShort(fs[i])} :: 0 <= i < |fs| ==> IsShort(fs[i])
  }

  predicate IsShort(f: Found) { f.v.EStr? && (f.v.f == Fix || f.v.f == F8) }

  /** Each key ends before the next one begins, and so does its value if it is a short string. */
  ghost predicate Apart(kind: seq<byte>, fs: seq<Found>) {
    forall i, j :: 0 <= i < j < |fs| ==> Before(kind, fs, i, j)
  }

  ghost predicate Before(kind: seq<byte>, fs: seq<Found>, i: nat, j: nat)
    requires i < j < |fs|
  {
    Legal(fs[i].v) &&
    fs[i].at + |KeyFor(kind)| + (if IsShort(fs[i]) then |Encode(fs[i].v)| else 0) <= fs[j].at
  }

  /** The found keys are really there, one after another. */
  ghost predicate Good(s: seq<byte>, kind: seq<byte>, fs: seq<Found>, lo: nat, hi: nat) {
    Placed(s, kind, fs, lo, hi) && Apart(kind, fs)
  }

  lemma PlacedConcat(s: seq<byte>, kind: seq<byte>, a: seq<Found>, b: seq<Found>, lo: nat, mid: nat, hi: nat)
    requires lo <= mid <= hi <= |s| && Placed(s, kind, a, lo, mid) && Placed(s, kind, b, mid, hi)
    ensures Placed(s, kind, a + b, lo, hi)
  {
    forall i | 0 <= i < |a + b| ensures PlacedAt(s, kind, (a + b)[i], lo, hi) {
      if i < |a| { assert PlacedAt(s, kind, a[i], lo, mid); } else { assert PlacedAt(s, kind, b[i - |a|], mid, hi); }
    }
  }

  lemma ApartConcat(s: seq<byte>, kind: seq<byte>, a: seq<Found>, b: seq<Found>, lo: nat, mid: nat, hi: nat)
    requires Placed(s, kind, a, lo, mid) && Placed(s, kind, b, mid, hi) && Apart(kind, a) && Apart(kind, b)
    ensures Apart(kind, a + b)
  {
    var c := a + b;
    forall i, j | 0 <= i < j < |c| ensures Before(kind, c, i, j) {
      if j < |a| {
        assert Before(kind, a, i, j);
      } else if i >= |a| {
        assert Before(kind, b, i - |a|, j - |a|);
      } else {
        assert PlacedAt(s, kind, a[i], lo, mid) && PlacedAt(s, kind, b[j - |a|], mid, hi);
      }
    }
  }

  lemma GoodConcat(s: seq<byte>, kind: seq<byte>, a: seq<Found>, b: seq<Found>, lo: nat, mid: nat, hi: nat)
    requires lo <= mid <= hi <= |s| && Good(s, kind, a, lo, mid) && Good(s, kind, b, mid, hi)
    ensures Good(s, kind, a + b, lo, hi)
  {
    PlacedConcat(s, kind, a, b, lo, mid, hi);
    ApartConcat(s, kind, a, b, lo, mid, hi);
  }

  lemma GoodWiden(s: seq<byte>, kind: seq<byte>, fs: seq<Found>, lo: nat, hi: nat, lo': nat)
    requires Good(s, kind, fs, lo, hi) && lo' <= lo
    ensures Good(s, kind, fs, lo', hi)
  {
    forall i | 0 <= i < |fs| ensures PlacedAt(s, kind, fs[i], lo', hi) { assert PlacedAt(s, kind, fs[i], lo, hi); }
  }

  lemma StandsSplit(s: seq<byte>, at: nat, a: seq<byte>, b: seq<byte>)
    requires Stands(s, at, a + b)
    ensures Stands(s, at, a) && Stands(s, at + |a|, b)
  {
    assert (a + b)[..|a|] == a && (a + b)[|a|..] == b;
    assert s[at..at + |a|] == s[at..at + |a + b|][..|a|];
    assert s[at + |a|..at + |a| + |b|] == s[at..at + |a + b|][|a|..];
  }

  lemma KeyBytes(kind: seq<byte>, k: Enc)
    requires |kind| < 32 && k == EStr(Fix, kind)
    ensures Legal(k) && Encode(k) == KeyFor(kind)
  {
  }

  /** A key with its value; a short string has no keys inside. */
  lemma GoodKey(s: seq<byte>, kind: seq<byte>, v: Enc, at: nat, mid: nat, hi: nat)
    requires Legal(v) && mid == at + |KeyFor(kind)| && Stands(s, at, KeyFor(kind)) && Stands(s, mid, Encode(v))
    requires hi == mid + |Encode(v)| && Good(s, kind, FoundIn(kind, v, mid), mid, hi)
    ensures Good(s, kind, [Found(at, v)] + FoundIn(kind, v, mid), at, hi)
  {
    var inner := FoundIn(kind, v, mid);
    var fs := [Found(at, v)] + inner;
    forall i | 0 <= i < |fs| ensures PlacedAt(s, kind, fs[i], at, hi) {
      if i > 0 { assert PlacedAt(s, kind, inner[i - 1], mid, hi); }
    }
    forall i, j | 0 <= i < j < |fs| ensures Before(kind, fs, i, j) {
      assert PlacedAt(s, kind, inner[j - 1], mid, hi);
      if i > 0 { assert Before(kind, inner, i - 1, j - 1); }
    }
  }

  /** The keys found inside `e`, which stands at `at`, are good. */
  ghost predicate GoodEnc(s: seq<byte>, kind: seq<byte>, e: Enc, at: nat, hi: nat) {
    Legal(e) && Good(s, kind, FoundIn(kind, e, at), at, hi)
  }

  /** The contents of an array or a map stand right after its head. */
  lemma HeadStands(s: seq<byte>, at: nat, e: Enc)
    requires Legal(e) && (e.EArr? || e.EMap?) && Stands(s, at, Encode(e))
    ensures Stands(s, at + |HeadBytes(e)|, EncodeAll(e.items))
    ensures |Encode(e)| == |HeadBytes(e)| + |EncodeAll(e.items)|
    ensures (forall k :: 0 <= k < |e.items| ==> Legal(e.items[k])) && (e.EMap? ==> |e.items| % 2 == 0)
  {
    StandsSplit(s, at, HeadBytes(e), EncodeAll(e.items));
  }

  lemma {:induction false} FoundGood(kind: seq<byte>, e: Enc, at: nat, hi: nat, s: seq<byte>)
    requires |kind| < 32
    requires Legal(e) && Stands(s, at, Encode(e)) && hi == at + |Encode(e)|
    ensures GoodEnc(s, kind, e, at, hi)
    decreases e
  {
    if e.EArr? || e.EMap? {
      var mid := at + |HeadBytes(e)|;
      HeadStands(s, at, e);
      if e.EArr? { FoundItemsGood(kind, e.items, mid, hi, s); } else { FoundEntriesGood(kind, e.items, mid, hi, s); }
      GoodWiden(s, kind, FoundIn(kind, e, at), mid, hi, at);
    }
  }

  lemma {:induction false} FoundItemsGood(kind: seq<byte>, es: seq<Enc>, at: nat, hi: nat, s: seq<byte>)
    requires |kind| < 32
    requires (forall k :: 0 <= k < |es| ==> Legal(es[k])) && Stands(s, at, EncodeAll(es)) && hi == at + |EncodeAll(es)|
    ensures Good(s, kind, FoundItems(kind, es, at), at, hi)
    decreases es
  {
    if es != [] {
      var first, more := Encode(es[0]), EncodeAll(es[1..]);
      var mid := at + |first|;
      StandsSplit(s, at, first, more);
      FoundGood(kind, es[0], at, mid, s);
      FoundItemsGood(kind, es[1..], mid, hi, s);
      ItemsUnfold(kind, es, at, mid);
      GoodConcat(s, kind, FoundIn(kind, es[0], at), FoundItems(kind, es[1..], mid), at, mid, hi);
    }
  }

  /** One entry of a map: its key, then its value. */
  lemma EntryGood(kind: seq<byte>, k: Enc, v: Enc, at: nat, mid: nat, hi: nat, s: seq<byte>)
    requires GoodEnc(s, kind, k, at, mid) && GoodEnc(s, kind, v, mid, hi) && at <= mid <= hi <= |s|
    requires k == EStr(Fix, kind) ==> Good(s, kind, [Found(at, v)] + FoundIn(kind, v, mid), at, hi)
    ensures Good(s, kind, FoundKey(kind, k, v, at) + FoundIn(kind, v, mid), at, hi)
  {
    if k != EStr(Fix, kind) {
      GoodConcat(s, kind, FoundIn(kind, k, at), FoundIn(kind, v, mid), at, mid, hi);
    }
  }

  lemma TwoItems(a: Enc, b: Enc, rest: seq<Enc>)
    requires Legal(a) && Legal(b) && forall k :: 0 <= k < |rest| ==> Legal(rest[k])
    ensures var es := [a] + ([b] + rest);
            && (forall k :: 0 <= k < |es| ==> Legal(es[k]))
            && EncodeAll(es) == Encode(a) + (Encode(b) + EncodeAll(rest)) &&
               ReadAll(es) == [Read(a)] + ([Read(b)] + ReadAll(rest))
  {
    ConsAll(b, rest);
    ConsAll(a, [b] + rest);
  }

  lemma EvenTail(es: seq<Enc>)
    requires |es| % 2 == 0 && |es| >= 2
    ensures |es[2..]| % 2 == 0
  {
  }

  /** Items two at a time. */
  lemma TwoAtATime(es: seq<Enc>)
    requires |es| >= 2 && forall k :: 0 <= k < |es| ==> Legal(es[k])
    ensures EncodeAll(es) == Encode(es[0]) + (Encode(es[1]) + EncodeAll(es[2..]))
    ensures ReadAll(es) == [Read(es[0])] + ([Read(es[1])] + ReadAll(es[2..]))
  {
    SplitTwo(es);
    TwoItems(es[0], es[1], es[2..]);
  }

  /** Where the parts of a map's first entry stand, and the other entries. */
  lemma StandsThree(s: seq<byte>, at: nat, k: seq<byte>, v: seq<byte>, more: seq<byte>)
    requires Stands(s, at, k + (v + more))
    ensures Stands(s, at, k) && Stands(s, at + |k|, v) && Stands(s, at + |k| + |v|, more)
    ensures at + |k| + |v| + |more| == at + |k + (v + more)| <= |s|
  {
    StandsSplit(s, at, k, v + more);
    StandsSplit(s, at + |k|, v, more);
  }

  lemma StandsTwo(s: seq<byte>, at: nat, es: seq<Enc>) returns (mid: nat, end: nat)
    requires |es| >= 2 && (forall k :: 0 <= k < |es| ==> Legal(es[k])) && Stands(s, at, EncodeAll(es))
    ensures mid == at + |Encode(es[0])| && end == mid + |Encode(es[1])| &&
            end + |EncodeAll(es[2..])| == at + |EncodeAll(es)| <= |s|
    ensures Stands(s, at, Encode(es[0])) && Stands(s, mid, Encode(es[1])) && Stands(s, end, EncodeAll(es[2..]))
  {
    TwoAtATime(es);
    StandsThree(s, at, Encode(es[0]), Encode(es[1]), EncodeAll(es[2..]));
    mid := at + |Encode(es[0])|;
    end := mid + |Encode(es[1])|;
  }

  /** The value under the key looked for. */
  lemma KeyedValueGood(kind: seq<byte>, k: Enc, v: Enc, at: nat, mid: nat, hi: nat, s: seq<byte>)
    requires |kind| < 32 && k == EStr(Fix, kind) && Legal(k) && Legal(v)
    requires Stands(s, at, Encode(k)) && mid == at + |Encode(k)| && Stands(s, mid, Encode(v)) && hi == mid + |Encode(v)|
    requires GoodEnc(s, kind, v, mid, hi)
    ensures Good(s, kind, [Found(at, v)] + FoundIn(kind, v, mid), at, hi)
  {
    KeyBytes(kind, k);
    GoodKey(s, kind, v, at, mid, hi);
  }

  lemma {:induction false} FoundEntriesGood(kind: seq<byte>, es: seq<Enc>, at: nat, hi: nat, s: seq<byte>)
    requires |kind| < 32
    requires |es| % 2 == 0 && (forall k :: 0 <= k < |es| ==> Legal(es[k])) && Stands(s, at, EncodeAll(es)) &&
             hi == at + |EncodeAll(es)|
    ensures Good(s, kind, FoundEntries(kind, es, at), at, hi)
    decreases es
  {
    if |es| >= 2 {
      var k, v, rest := es[0], es[1], es[2..];
      var mid, end := StandsTwo(s, at, es);
      EvenTail(es);
      FoundGood(kind, k, at, mid, s);
      FoundGood(kind, v, mid, end, s);
      FoundEntriesGood(kind, rest, end, hi, s);
      if k == EStr(Fix, kind) { KeyedValueGood(kind, k, v, at, mid, end, s); }
      EntryGood(kind, k, v, at, mid, end, s);
      EntriesUnfold(kind, es, at, mid, end);
      GoodConcat(s, kind, FoundKey(kind, k, v, at) + FoundIn(kind, v, mid), FoundEntries(kind, rest, end), at, end, hi);
    }
  }

  // ---- the kinds of a document ------------------------------------------------------------

  /** The values under every ".value_kind" key of a document, in the order they are written. */
  function KindsIn(kind: seq<byte>, v: Val): seq<Val>
    decreases v
  {
    match v
    case Arr(items) => KindsOfItems(kind, items)
    case Map(items) => KindsOfEntries(kind, items)
    case _ => []
  }

  function KindsOfItems(kind: seq<byte>, vs: seq<Val>): seq<Val>
    decreases vs
  {
    if vs == [] then [] else KindsIn(kind, vs[0]) + KindsOfItems(kind, vs[1..])
  }

  function KindsOfEntries(kind: seq<byte>, vs: seq<Val>): seq<Val>
    decreases vs
  {
    if |vs| < 2 then []
    else
      (if vs[0] == Str(kind) then [vs[1]] else KindsIn(kind, vs[0])) +
      KindsIn(kind, vs[1]) + KindsOfEntries(kind, vs[2..])
  }

  /** The key ".value_kind" is always written in its shortest form. */
  ghost predicate ShortKeys(kind: seq<byte>, e: Enc)
    decreases e
  {
    match e
    case EArr(_, items) => ShortKeysItems(kind, items)
    case EMap(_, items) => ShortKeysEntries(kind, items)
    case _ => true
  }

  ghost predicate ShortKeysItems(kind: seq<byte>, es: seq<Enc>)
    decreases es
  {
    es == [] || (ShortKeys(kind, es[0]) && ShortKeysItems(kind, es[1..]))
  }

  ghost predicate ShortKeysEntries(kind: seq<byte>, es: seq<Enc>)
    decreases es
  {
    |es| >= 2 ==>
      (es[0].EStr? && es[0].s == kind ==> es[0].f == Fix) && ShortKeys(kind, es[0]) && ShortKeys(kind, es[1]) &&
        ShortKeysEntries(kind, es[2..])
  }

  function Values(fs: seq<Found>): (r: seq<Val>)
    ensures |r| == |fs| && forall i :: 0 <= i < |r| ==> r[i] == Read(fs[i].v)
  {
    seq(|fs|, i requires 0 <= i < |fs| => Read(fs[i].v))
  }

  lemma KindsUnfold(kind: seq<byte>, e: Enc, at: nat)
    requires Legal(e)
    ensures e.EArr? ==> FoundIn(kind, e, at) == FoundItems(kind, e.items, at + |HeadBytes(e)|) &&
                        KindsIn(kind, Read(e)) == KindsOfItems(kind, ReadAll(e.items))
    ensures e.EMap? ==> FoundIn(kind, e, at) == FoundEntries(kind, e.items, at + |HeadBytes(e)|) &&
                        KindsIn(kind, Read(e)) == KindsOfEntries(kind, ReadAll(e.items))
    ensures !e.EArr? && !e.EMap? ==> FoundIn(kind, e, at) == [] && KindsIn(kind, Read(e)) == []
  {
  }

  lemma {:induction false} FoundKinds(kind: seq<byte>, e: Enc, at: nat)
    requires Legal(e) && ShortKeys(kind, e)
    ensures Values(FoundIn(kind, e, at)) == KindsIn(kind, Read(e))
    decreases e
  {
    KindsUnfold(kind, e, at);
    match e
    case EArr(_, items) => FoundItemsKinds(kind, items, at + |HeadBytes(e)|);
    case EMap(_, items) => FoundEntriesKinds(kind, items, at + |HeadBytes(e)|);
    case _ => assert Values([]) == [];
  }

  lemma ValuesConcat(a: seq<Found>, b: seq<Found>)
    ensures Values(a + b) == Values(a) + Values(b)
  {
  }

  lemma KindsOfOne(kind: seq<byte>, a: Val, rest: seq<Val>)
    ensures KindsOfItems(kind, [a] + rest) == KindsIn(kind, a) + KindsOfItems(kind, rest)
  {
    assert ([a] + rest)[1..] == rest;
  }

  lemma {:induction false} FoundItemsKinds(kind: seq<byte>, es: seq<Enc>, at: nat)
    requires (forall k :: 0 <= k < |es| ==> Legal(es[k])) && ShortKeysItems(kind, es)
    ensures Values(FoundItems(kind, es, at)) == KindsOfItems(kind, ReadAll(es))
    decreases es
  {
    if es != [] {
      var e, rest := es[0], es[1..];
      var mid := at + |Encode(e)|;
      FoundKinds(kind, e, at);
      FoundItemsKinds(kind, rest, mid);
      ValuesConcat(FoundIn(kind, e, at), FoundItems(kind, rest, mid));
      KindsOfOne(kind, Read(e), ReadAll(rest));
    }
  }

  lemma EntryKinds(kind: seq<byte>, k: Enc, v: Enc, at: nat, mid: nat)
    requires Legal(k) && Legal(v) && (k.EStr? && k.s == kind ==> k.f == Fix)
    requires Values(FoundIn(kind, k, at)) == KindsIn(kind, Read(k)) &&
             Values(FoundIn(kind, v, mid)) == KindsIn(kind, Read(v))
    ensures Values(FoundKey(kind, k, v, at) + FoundIn(kind, v, mid)) ==
            (if Read(k) == Str(kind) then [Read(v)] else KindsIn(kind, Read(k))) + KindsIn(kind, Read(v))
  {
    ValuesConcat(FoundKey(kind, k, v, at), FoundIn(kind, v, mid));
    assert Read(k) == Str(kind) <==> k == EStr(Fix, kind);
  }

  lemma KindsOfTwo(kind: seq<byte>, a: Val, b: Val, rest: seq<Val>)
    ensures KindsOfEntries(kind, [a] + ([b] + rest)) ==
            (if a == Str(kind) then [b] else KindsIn(kind, a)) + KindsIn(kind, b) + KindsOfEntries(kind, rest)
  {
    JoinTwo(a, b, rest);
  }

  lemma KindsOfFirstTwo(kind: seq<byte>, es: seq<Enc>)
    requires |es| >= 2 && forall k :: 0 <= k < |es| ==> Legal(es[k])
    ensures KindsOfEntries(kind, ReadAll(es)) ==
            (if Read(es[0]) == Str(kind) then [Read(es[1])] else KindsIn(kind, Read(es[0]))) +
              KindsIn(kind, Read(es[1])) + KindsOfEntries(kind, ReadAll(es[2..]))
  {
    TwoAtATime(es);
    KindsOfTwo(kind, Read(es[0]), Read(es[1]), ReadAll(es[2..]));
  }

  lemma {:induction false} FoundEntriesKinds(kind: seq<byte>, es: seq<Enc>, at: nat)
    requires |es| % 2 == 0 && (forall k :: 0 <= k < |es| ==> Legal(es[k])) && ShortKeysEntries(kind, es)
    ensures Values(FoundEntries(kind, es, at)) == KindsOfEntries(kind, ReadAll(es))
    decreases es
  {
    if |es| >= 2 {
      var k, v, rest := es[0], es[1], es[2..];
      var mid := at + |Encode(k)|;
      var end := mid + |Encode(v)|;
      EvenTail(es);
      FoundKinds(kind, k, at);
      FoundKinds(kind, v, mid);
      FoundEntriesKinds(kind, rest, end);
      EntryKinds(kind, k, v, at, mid);
      EntriesUnfold(kind, es, at, mid, end);
      KindsOfFirstTwo(kind, es);
      ValuesSum(FoundKey(kind, k, v, at) + FoundIn(kind, v, mid), FoundEntries(kind, rest, end),
        FoundEntries(kind, es, at));
    } else {
      assert Values([]) == [];
    }
  }

  lemma ValuesSum(a: seq<Found>, b: seq<Found>, c: seq<Found>)
    requires c == a + b
    ensures Values(c) == Values(a) + Values(b)
  {
  }

  // ---- agreement --------------------------------------------------------------------------

  function KeysOf(fs: seq<Found>): (r: seq<Key>)
    ensures |r| == |fs| && forall i :: 0 <= i < |r| ==> r[i] == KeyAt(fs[i])
  {
    seq(|fs|, i requires 0 <= i < |fs| => KeyAt(fs[i]))
  }

  function KeyAt(f: Found): Key {
    if IsShort(f) then Key(f.at, if f.v.f == Fix then 1 else 2, f.v.s) else NoText(f.at)
  }

  /** The key bytes occur in `s` only where a key of the document is written. */
  ghost predicate OnlyAsKeys(s: seq<byte>, kind: seq<byte>, fs: seq<Found>) {
    forall q: nat :: OnlyAsKey(s, kind, fs, q)
  }

  ghost predicate OnlyAsKey(s: seq<byte>, kind: seq<byte>, fs: seq<Found>, q: nat) {
    Occurs(s, KeyFor(kind), q) ==> exists i :: 0 <= i < |fs| && fs[i].at == q
  }

  lemma BeOne(n: nat)
    requires n < 256
    ensures BeBytes(n, 1) == [n]
  {
    assert BeBytes(n / 256, 0) == [];
  }

  /** A short string, as it is encoded. */
  lemma ShortBytes(f: Form, text: seq<byte>)
    requires Legal(EStr(f, text)) && (f == Fix || f == F8)
    ensures Encode(EStr(f, text)) == (if f == Fix then [0xa0 + |text|] else [0xd9, |text|]) + text
  {
    if f == F8 { BeOne(|text|); }
  }

  lemma TextOf(s: seq<byte>, v: nat, head: seq<byte>, text: seq<byte>)
    requires Stands(s, v, head + text)
    requires (|text| < 32 && head == [0xa0 + |text|]) || (|text| < 256 && head == [0xd9, |text|])
    ensures TextAt(s, v) == Some((v + |head|, |text|)) && s[v + |head|..v + |head| + |text|] == text
  {
    StandsSplit(s, v, head, text);
    assert s[v..v + |head|] == head;
    assert s[v] == head[0] && (|head| == 2 ==> s[v + 1] == head[1]);
  }

  lemma NoShortByte(e: Enc)
    requires Legal(e) && !(e.EStr? && (e.f == Fix || e.f == F8))
    ensures var c := Encode(e)[0]; !(0xa0 <= c <= 0xbf) && c != 0xd9
  {
  }

  lemma PlacedKey(s: seq<byte>, kind: seq<byte>, f: Found, lo: nat, hi: nat)
    requires PlacedAt(s, kind, f, lo, hi)
    ensures KeyOk(s, kind, KeyAt(f))
    ensures KeyEnd(kind, KeyAt(f)) == f.at + |KeyFor(kind)| + if IsShort(f) then |Encode(f.v)| else 0
  {
    var v := f.at + |KeyFor(kind)|;
    if IsShort(f) {
      ShortBytes(f.v.f, f.v.s);
      TextOf(s, v, if f.v.f == Fix then [0xa0 + |f.v.s|] else [0xd9, |f.v.s|], f.v.s);
    } else {
      NoShortByte(f.v);
      assert s[v] == s[v..v + |Encode(f.v)|][0];
    }
  }

  lemma IthPlaced(s: seq<byte>, kind: seq<byte>, fs: seq<Found>, lo: nat, hi: nat, i: nat)
    requires Placed(s, kind, fs, lo, hi) && Apart(kind, fs) && i < |fs|
    ensures IthKey(s, kind, KeysOf(fs), 0, i)
  {
    assert PlacedAt(s, kind, fs[i], lo, hi);
    PlacedKey(s, kind, fs[i], lo, hi);
    if i > 0 {
      assert PlacedAt(s, kind, fs[i - 1], lo, hi) && Before(kind, fs, i - 1, i);
      PlacedKey(s, kind, fs[i - 1], lo, hi);
    }
  }

  lemma PlacedKeyed(s: seq<byte>, kind: seq<byte>, fs: seq<Found>, lo: nat, hi: nat)
    requires Placed(s, kind, fs, lo, hi) && Apart(kind, fs) && OnlyAsKeys(s, kind, fs)
    ensures Keyed(s, kind, KeysOf(fs), 0)
  {
    var keys := KeysOf(fs);
    forall i | 0 <= i < |keys| ensures IthKey(s, kind, keys, 0, i) { IthPlaced(s, kind, fs, lo, hi, i); }
    forall q: nat ensures NoOther(s, kind, keys, 0, q) {
      assert OnlyAsKey(s, kind, fs, q);
      if Occurs(s, KeyFor(kind), q) {
        var i :| 0 <= i < |fs| && fs[i].at == q;
        assert keys[i].at == q;
      }
    }
  }

  /** The kinds that are written as short strings. */
  function TextKinds(fs: seq<Found>): seq<Val> {
    if fs == [] then [] else (if IsShort(fs[0]) then [Read(fs[0].v)] else []) + TextKinds(fs[1..])
  }

  lemma {:induction false} TextsAre(fs: seq<Found>)
    ensures Texts(KeysOf(fs)) == TextKinds(fs)
  {
    if fs != [] {
      TextsAre(fs[1..]);
      assert KeysOf(fs)[0] == KeyAt(fs[0]) && KeysOf(fs)[1..] == KeysOf(fs[1..]);
    }
  }

  lemma {:induction false} AllTexts(fs: seq<Found>)
    requires ShortKinds(fs)
    ensures TextKinds(fs) == Values(fs)
  {
    if fs != [] {
      assert IsShort(fs[0]);
      forall i | 0 <= i < |fs[1..]| ensures IsShort(fs[1..][i]) { assert IsShort(fs[i + 1]); }
      AllTexts(fs[1..]);
      assert Values(fs) == [Read(fs[0].v)] + Values(fs[1..]);
    }
  }

  /** A document encoded at position `at` of a section, all of whose ".value_kind" keys are short strings,
      and outside of which the key's bytes do not occur. */
  ghost predicate Located(s: seq<byte>, kind: seq<byte>, e: Enc, at: nat) {
    && |kind| < 32 && Legal(e) && Stands(s, at, Encode(e))
    && ShortKeys(kind, e) && OnlyAsKeys(s, kind, FoundIn(kind, e, at))
  }

  /** ... all of whose value kinds are short strings too. */
  ghost predicate Scannable(s: seq<byte>, kind: seq<byte>, e: Enc, at: nat) {
    Located(s, kind, e, at) && ShortKinds(FoundIn(kind, e, at))
  }

  /** The scan counts the kinds written as short strings before the first hidden one of them; whatever else
      stands under a key is passed over. It answers nothing only if a full parse finds no key. */
  lemma ScanCounts(s: seq<byte>, kind: seq<byte>, hid: seq<byte>, e: Enc, at: nat)
    requires Located(s, kind, e, at)
    ensures Scan(s, kind, hid, 0, 0, false) ==
            if KindsIn(kind, Read(e)) == [] then None else Some(BeforeHidden(hid, TextKinds(FoundIn(kind, e, at))))
  {
    var fs := FoundIn(kind, e, at);
    FoundGood(kind, e, at, at + |Encode(e)|, s);
    PlacedKeyed(s, kind, fs, at, at + |Encode(e)|);
    ScanKeyed(s, kind, hid, KeysOf(fs), 0, 0, false);
    TextsAre(fs);
    FoundKinds(kind, e, at);
    assert |Values(fs)| == |KeysOf(fs)|;
  }

  /** So when all of them are, it counts what a full parse would: the kinds before the first hidden one. */
  lemma ScanAgrees(s: seq<byte>, kind: seq<byte>, hid: seq<byte>, e: Enc, at: nat)
    requires Scannable(s, kind, e, at)
    ensures Scan(s, kind, hid, 0, 0, false) ==
            if KindsIn(kind, Read(e)) == [] then None else Some(BeforeHidden(hid, KindsIn(kind, Read(e))))
  {
    ScanCounts(s, kind, hid, e, at);
    AllTexts(FoundIn(kind, e, at));
    FoundKinds(kind, e, at);
  }

  // ---- reading one number in place --------------------------------------------------------

  const UNHANDLED: nat := 0xffff_ffff

  /** `co_mp_uint`. */
  function MpUint(s: seq<byte>, p: nat): nat {
    if p >= |s| then UNHANDLED
    else if s[p] < 0x80 then s[p] as int
    else if s[p] == 0xcc && p + 1 < |s| then s[p + 1] as int
    else if s[p] == 0xcd && p + 2 < |s| then s[p + 1] as int * 256 + s[p + 2] as int
    else if s[p] == 0xce && p + 4 < |s| then
      s[p + 1] as int * 16777216 + s[p + 2] as int * 65536 + s[p + 3] as int * 256 + s[p + 4] as int
    else UNHANDLED
  }

  /** The unsigned formats of up to 32 bits. */
  predicate SmallUint(e: Enc) { (e.EFix? && e.i >= 0) || (e.EUint? && e.w <= 4) }

  lemma BeFour(s: seq<byte>)
    requires |s| == 1 || |s| == 2 || |s| == 4
    ensures |s| == 1 ==> Be(s) == s[0] as int
    ensures |s| == 2 ==> Be(s) == s[0] as int * 256 + s[1] as int
    ensures |s| == 4 ==> Be(s) == s[0] as int * 16777216 + s[1] as int * 65536 + s[2] as int * 256 + s[3] as int
  {
    assert |s| == 2 ==> s[..1][..0] == [];
    if |s| == 4 {
      var t := s[..3];
      assert Be(s) == Be(t) * 256 + s[3] as int && Be(t) == Be(t[..2]) * 256 + s[2] as int;
      assert t[..2] == s[..2];
      BeFour(s[..2]);
    }
  }

  lemma FieldBytes(s: seq<byte>, at: nat, c: byte, field: seq<byte>)
    requires Stands(s, at, [c] + field)
    ensures at + |field| < |s| && s[at] == c
    ensures forall i :: 0 <= i < |field| ==> s[at + 1 + i] == field[i]
  {
    var t := s[at..at + |[c] + field|];
    assert t[0] == s[at];
    forall i | 0 <= i < |field| ensures s[at + 1 + i] == field[i] {
      assert s[at + 1 + i] == t[i + 1];
    }
  }

  lemma MpUintField(s: seq<byte>, at: nat, c: byte, field: seq<byte>)
    requires Stands(s, at, [c] + field)
    requires (c == 0xcc && |field| == 1) || (c == 0xcd && |field| == 2) || (c == 0xce && |field| == 4)
    ensures MpUint(s, at) == Be(field)
  {
    FieldBytes(s, at, c, field);
    BeFour(field);
  }

  lemma SmallUintBytes(e: Enc, s: seq<byte>, at: nat)
    requires Legal(e) && e.EUint? && e.w <= 4 && Stands(s, at, Encode(e))
    ensures MpUint(s, at) == e.v
  {
    MpUintField(s, at, 0xcc + WidthIndex(e.w), BeBytes(e.v, e.w));
    BeRoundTrip(e.v, e.w);
  }

  /** The in-place reader agrees with the full one on exactly the unsigned formats of up to 32 bits; on
      every other value it reports that it cannot read it. */
  lemma MpUintAgrees(e: Enc, s: seq<byte>, at: nat)
    requires Legal(e) && Stands(s, at, Encode(e))
    ensures if SmallUint(e) then Read(e) == Int(MpUint(s, at)) else MpUint(s, at) == UNHANDLED
  {
    if e.EUint? && e.w <= 4 {
      SmallUintBytes(e, s, at);
    } else {
      assert s[at] == Encode(e)[0] by { assert s[at..at + |Encode(e)|][0] == s[at]; }
      FirstByte(e);
    }
  }

  lemma FirstByte(e: Enc)
    requires Legal(e)
    ensures var c := Encode(e)[0];
            if e.EFix? && e.i >= 0 then c as int == e.i
            else if e.EUint? && e.w <= 4 then 0xcc <= c <= 0xce
            else 0x80 <= c < 0xcc || c > 0xce
  {
  }
}

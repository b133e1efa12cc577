/** The byte scan over a note that the offline tool has written: it gives the same answer as before. */
module GrownScan {
  import opened Bytes
  import opened Options
  import opened Sequences
  import opened Decimal
  import opened MsgPack
  import opened KernargNote
  import opened ByteScan
  import opened StrayKeys
  import opened ExplicitArgs

  // ---- growing a proper document leaves it proper -----------------------------------------

  lemma {:induction false} SetProper(kind: seq<byte>, items: seq<Val>, key: seq<byte>, v: Val)
    requires kind != [] && key != kind && ProperEntries(kind, true, items) && Benign(kind, key) && Proper(kind, true, v)
    ensures ProperEntries(kind, true, Set(items, key, v))
  {
    var s := Set(items, key, v);
    if |items| < 2 {
      assert s[2..] == [];
    } else if items[0] == Str(key) {
      assert s[2..] == items[2..];
    } else {
      SetProper(kind, items[2..], key, v);
      assert s[2..] == Set(items[2..], key, v);
    }
  }

  lemma {:induction false} GetProper(kind: seq<byte>, items: seq<Val>, key: seq<byte>)
    requires kind != [] && ProperEntries(kind, true, items) && Get(items, key).Some?
    ensures Proper(kind, true, Get(items, key).value)
  {
    if items[0] != Str(key) { GetProper(kind, items[2..], key); }
  }

  /** An item that may stand in an array. */
  ghost predicate ProperItem(kind: seq<byte>, v: Val)
    requires kind != []
  {
    v != Int(Last(kind) as int) && Proper(kind, true, v)
  }

  lemma {:induction false} ItemsProper(kind: seq<byte>, vs: seq<Val>)
    requires kind != []
    ensures ProperItems(kind, true, vs) <==> forall i :: 0 <= i < |vs| ==> ProperItem(kind, vs[i])
  {
    if vs != [] {
      ItemsProper(kind, vs[1..]);
      forall i | 0 <= i < |vs[1..]| ensures vs[1..][i] == vs[i + 1] { }
      if ProperItems(kind, true, vs) {
        forall i | 0 <= i < |vs|
          ensures ProperItem(kind, vs[i])
        {
          if i > 0 { assert ProperItem(kind, vs[1..][i - 1]); }
        }
      }
      if forall i :: 0 <= i < |vs| ==> ProperItem(kind, vs[i]) {
        assert ProperItem(kind, vs[0]);
        forall i | 0 <= i < |vs[1..]| ensures ProperItem(kind, vs[1..][i]) { assert ProperItem(kind, vs[i + 1]); }
      }
    }
  }

  lemma KindIsText()
    ensures KeyText(KIND) && |KIND| == 11 && KIND[0] == '.' as int && KIND[1] == 'v' as int && Last(KIND) == 'd' as int
  {
    assert KIND[9] == 'n' as int;
  }

  lemma StartsWith(s: seq<byte>, t: seq<byte>, p: nat)
    requires At(s, t, p) && |t| >= 2
    ensures s[p] == t[0] && s[p + 1] == t[1]
  {
    assert s[p + 0] == t[0] && s[p + 1] == t[1];
  }

  /** A short text is benign if the key's text cannot start in it. */
  lemma NoKind(s: seq<byte>)
    requires |s| < 0x8000
    requires forall p :: 0 <= p && p + 10 <= |s| ==> s[p] != '.' as int || s[p + 1] != 'v' as int
    ensures KIND != [] && Benign(KIND, s)
  {
    KindIsText();
    var stem := Stem(KIND);
    assert stem[0] == '.' as int && stem[1] == 'v' as int;
    forall p: nat ensures !At(s, stem, p) {
      if At(s, stem, p) { StartsWith(s, stem, p); }
    }
  }

  lemma BenignNames()
    ensures KIND != [] && Benign(KIND, ARGS) && Benign(KIND, OFFSET) && Benign(KIND, SIZE) && Benign(KIND, NAME)
    ensures Benign(KIND, KSIZE) && Benign(KIND, KERNELS)
  {
    NoKind(ARGS);
    NoKind(OFFSET);
    NoKind(SIZE);
    NoKind(NAME);
    assert KSIZE[1] == 'k' as int;
    NoKind(KSIZE);
    NoKind(KERNELS);
  }

  lemma BenignExtra(i: nat)
    requires i < WORD
    ensures KIND != [] && Benign(KIND, EXTRA + Dec(i))
  {
    var s := EXTRA + Dec(i);
    assert Pow10(10) > WORD by {
      assert Pow10(3) == 1000 && Pow10(6) == 1000000 && Pow10(9) == 1000000000;
    }
    DecLength(i, 10);
    forall p | 0 <= p < |s| ensures s[p] != '.' as int {
      if p >= |EXTRA| { assert s[p] == Dec(i)[p - |EXTRA|]; }
    }
    NoKind(s);
  }

  lemma ExtraProper(proto: Val, offset: int, i: nat)
    requires proto.Map? && KIND != [] && Proper(KIND, true, proto) && offset >= 0 && i < WORD
    ensures ProperItem(KIND, ExtraArg(proto, offset, i))
  {
    KeysDiffer();
    BenignNames();
    BenignExtra(i);
    SetProper(KIND, proto.items, OFFSET, Int(offset));
    var a := Set(proto.items, OFFSET, Int(offset));
    SetProper(KIND, a, SIZE, Int(8));
    SetProper(KIND, Set(a, SIZE, Int(8)), NAME, Str(EXTRA + Dec(i)));
  }

  lemma ArgsProper(args: seq<Val>, proto: Val, ksize: int, count: nat)
    requires KIND != [] && ProperItems(KIND, true, args) && FindProto(args) == Some(Some(proto)) && ksize >= 0 &&
             count < WORD
    ensures Proper(KIND, true, Arr(args + Extras(proto, ksize, count)))
  {
    var extras := Extras(proto, ksize, count);
    ItemsProper(KIND, args);
    var j :| 0 <= j < |args| && args[j] == proto;
    assert ProperItem(KIND, args[j]);
    forall i | 0 <= i < |args + extras| ensures ProperItem(KIND, (args + extras)[i]) {
      if i < |args| {
        assert ProperItem(KIND, args[i]);
      } else {
        ExtraProper(proto, Align8(ksize) + 8 * (i - |args|), i - |args|);
      }
    }
    ItemsProper(KIND, args + extras);
  }

  lemma {:induction false} PackableGet(items: seq<Val>, key: seq<byte>)
    requires (forall k :: 0 <= k < |items| ==> Packable(items[k])) && Get(items, key).Some?
    ensures Packable(Get(items, key).value)
  {
    if items[0] != Str(key) { PackableGet(items[2..], key); }
  }

  /** A grown kernel that can still be encoded has fewer than 2^32 arguments. */
  lemma FewExtras(k: Val, count: nat)
    requires HasBuffer(k) && IntAt(k.items, KSIZE).Some? && Packable(GrowOne(k, count))
    ensures count < WORD
  {
    var args, ksize := ArrayAt(k.items, ARGS).value, IntAt(k.items, KSIZE).value;
    var args' := args + Extras(FindProto(args).value.value, ksize, count);
    var withArgs := Set(k.items, ARGS, Arr(args'));
    KeysDiffer();
    GetSet(k.items, ARGS, Arr(args'), ARGS);
    GetSet(withArgs, KSIZE, Int(GrownSize(ksize, count)), ARGS);
    PackableGet(GrowOne(k, count).items, ARGS);
  }

  lemma GrowOneProper(k: Val, count: nat)
    requires KIND != [] && HasBuffer(k) && IntAt(k.items, KSIZE).Some? && Proper(KIND, true, k) &&
             Packable(GrowOne(k, count))
    ensures ProperItem(KIND, GrowOne(k, count))
  {
    var args, ksize := ArrayAt(k.items, ARGS).value, IntAt(k.items, KSIZE).value;
    var args' := args + Extras(FindProto(args).value.value, ksize, count);
    KeysDiffer();
    KindKey();
    BenignNames();
    FewExtras(k, count);
    if Get(k.items, ARGS).Some? { GetProper(KIND, k.items, ARGS); }
    if Get(k.items, KSIZE).Some? { GetProper(KIND, k.items, KSIZE); }
    ArgsProper(args, FindProto(args).value.value, ksize, count);
    SetProper(KIND, k.items, ARGS, Arr(args'));
    assert |KSIZE| == 21 && |KIND| == 11;
    SetProper(KIND, Set(k.items, ARGS, Arr(args')), KSIZE, Int(GrownSize(ksize, count)));
  }

  /** Growing a proper document leaves it proper. */
  lemma GrowRootProper(doc: Val, target: seq<byte>, count: nat)
    requires KIND != [] && WellTypedDoc(doc, target) && Proper(KIND, true, doc) &&
             Packable(GrowRoot(doc, target, count))
    ensures Proper(KIND, true, GrowRoot(doc, target, count))
  {
    if Get(doc.items, KERNELS).Some? {
      var ks, ks' := ArrayAt(doc.items, KERNELS).value, GrowKernels(doc, target, count);
      KindKey();
      BenignNames();
      GetProper(KIND, doc.items, KERNELS);
      ItemsProper(KIND, ks);
      GetSet(doc.items, KERNELS, Arr(ks'), KERNELS);
      PackableGet(GrowRoot(doc, target, count).items, KERNELS);
      forall i | 0 <= i < |ks'| ensures ProperItem(KIND, ks'[i]) {
        assert ProperItem(KIND, ks[i]) && Packable(ks'[i]);
        if Targeted(ks[i], target) && HasBuffer(ks[i]) { GrowOneProper(ks[i], count); }
      }
      ItemsProper(KIND, ks');
      SetProper(KIND, doc.items, KERNELS, Arr(ks'));
    }
  }

  // ---- what the tool writes can be scanned ------------------------------------------------

  lemma {:induction false} PackShortKeys(kind: seq<byte>, v: Val)
    requires |kind| < 32
    ensures ShortKeys(kind, Pack(v))
    decreases v
  {
    match v
    case Arr(items) => PackShortItems(kind, items);
    case Map(items) => PackShortEntries(kind, items);
    case _ =>
  }

  lemma {:induction false} PackShortItems(kind: seq<byte>, vs: seq<Val>)
    requires |kind| < 32
    ensures ShortKeysItems(kind, PackAll(vs))
    decreases vs
  {
    if vs != [] {
      PackShortKeys(kind, vs[0]);
      PackShortItems(kind, vs[1..]);
      assert PackAll(vs)[1..] == PackAll(vs[1..]);
    }
  }

  lemma {:induction false} PackShortEntries(kind: seq<byte>, vs: seq<Val>)
    requires |kind| < 32
    ensures ShortKeysEntries(kind, PackAll(vs))
    decreases vs
  {
    if |vs| >= 2 {
      PackShortKeys(kind, vs[0]);
      PackShortKeys(kind, vs[1]);
      PackShortEntries(kind, vs[2..]);
      PackTwo(vs);
    }
  }

  lemma PackTwo(vs: seq<Val>)
    requires |vs| >= 2
    ensures var es := PackAll(vs); es[0] == Pack(vs[0]) && es[1] == Pack(vs[1]) && es[2..] == PackAll(vs[2..])
  {
    SplitTwo(vs);
    assert PackAll(vs[1..]) == [Pack(vs[1])] + PackAll(vs[2..]);
    JoinTwo(Pack(vs[0]), Pack(vs[1]), PackAll(vs[2..]));
  }

  /** The values found are short strings in their shortest form. */
  lemma {:induction false} FoundShort(kind: seq<byte>, v: Val, at: nat)
    requires kind != [] && Proper(kind, true, v) && Legal(Pack(v))
    ensures ShortKinds(FoundIn(kind, Pack(v), at))
    decreases v
  {
    match v
    case Arr(items) => FoundShortItems(kind, items, at + |HeadBytes(Pack(v))|);
    case Map(items) => FoundShortEntries(kind, items, at + |HeadBytes(Pack(v))|);
    case _ =>
  }

  lemma ShortConcat(a: seq<Found>, b: seq<Found>)
    requires ShortKinds(a) && ShortKinds(b)
    ensures ShortKinds(a + b)
  {
    forall i | 0 <= i < |a + b| ensures IsShort((a + b)[i]) {
      if i < |a| { assert IsShort(a[i]); } else { assert IsShort(b[i - |a|]); }
    }
  }

  lemma ShortThree(a: seq<Found>, b: seq<Found>, c: seq<Found>)
    requires ShortKinds(a) && ShortKinds(b) && ShortKinds(c)
    ensures ShortKinds(a + b + c)
  {
    ShortConcat(a, b);
    ShortConcat(a + b, c);
  }

  lemma {:induction false} FoundShortItems(kind: seq<byte>, vs: seq<Val>, at: nat)
    requires kind != [] && ProperItems(kind, true, vs) && forall k :: 0 <= k < |vs| ==> Legal(PackAll(vs)[k])
    ensures ShortKinds(FoundItems(kind, PackAll(vs), at))
    decreases vs
  {
    if vs != [] {
      var es := PackAll(vs);
      assert es[1..] == PackAll(vs[1..]);
      forall k | 0 <= k < |vs[1..]| ensures Legal(PackAll(vs[1..])[k]) { assert es[1..][k] == es[k + 1]; }
      var mid := at + |Encode(es[0])|;
      FoundShort(kind, vs[0], at);
      FoundShortItems(kind, vs[1..], mid);
      ShortConcat(FoundIn(kind, es[0], at), FoundItems(kind, es[1..], mid));
    }
  }

  lemma FoundShortKey(kind: seq<byte>, k: Val, v: Val, at: nat)
    requires k.Str? && (k.s == kind ==> v.Str? && |v.s| < 256) && Legal(Pack(k))
    ensures ShortKinds(FoundKey(kind, Pack(k), Pack(v), at))
  {
    assert Pack(k) == EStr(PackForm(|k.s|, 32, true), k.s);
    if Pack(k) == EStr(Fix, kind) { assert Pack(v) == EStr(PackForm(|v.s|, 32, true), v.s); }
  }

  lemma {:induction false} FoundShortEntries(kind: seq<byte>, vs: seq<Val>, at: nat)
    requires kind != [] && ProperEntries(kind, true, vs) && forall k :: 0 <= k < |vs| ==> Legal(PackAll(vs)[k])
    ensures ShortKinds(FoundEntries(kind, PackAll(vs), at))
    decreases vs
  {
    if |vs| >= 2 {
      var es := PackAll(vs);
      PackTwo(vs);
      forall k | 0 <= k < |vs[2..]| ensures Legal(PackAll(vs[2..])[k]) { assert es[2..][k] == es[k + 2]; }
      var mid := at + |Encode(es[0])|;
      var end := mid + |Encode(es[1])|;
      FoundShort(kind, vs[1], mid);
      FoundShortEntries(kind, vs[2..], end);
      EntriesUnfold(kind, es, at, mid, end);
      FoundShortKey(kind, vs[0], vs[1], at);
      ShortThree(FoundKey(kind, es[0], es[1], at), FoundIn(kind, es[1], mid), FoundEntries(kind, es[2..], end));
    }
  }

  // ---- the note around the document -------------------------------------------------------

  function DocAt(name: seq<byte>): nat { 12 + Align4(|name|) }

  lemma FrameStands(name: seq<byte>, desc: seq<byte>, more: seq<byte>)
    ensures var s, at := Frame(name, NT_METADATA, desc) + more, DocAt(name);
            && Stands(s, at, desc)
            && s[..at] == U32Bytes(|name|) + U32Bytes(|desc|) + U32Bytes(NT_METADATA) + name + Pad(|name|)
            && s[at + |desc|..] == Pad(|desc|) + more
  {
  }

  /** Nothing that contains a zero byte can be part of a key. */
  lemma KeyNoZero(s: seq<byte>, kind: seq<byte>, p: nat, z: nat)
    requires KeyText(kind) && At(s, KeyFor(kind), p) && p <= z <= p + |kind|
    ensures s[z] != 0
  {
    assert s[p + (z - p)] == KeyFor(kind)[z - p];
  }

  /** The header is free of the key because of the zero bytes of the note's type, the padding because of
      its own. */
  lemma HeaderFree(name: seq<byte>, desc: seq<byte>)
    requires KeyText(KIND) && |KIND| == 11 && !Contains(name, KeyFor(KIND))
    ensures !Contains(U32Bytes(|name|) + U32Bytes(|desc|) + U32Bytes(NT_METADATA) + name + Pad(|name|), KeyFor(KIND))
  {
    var k, words := KeyFor(KIND), U32Bytes(|name|) + U32Bytes(|desc|) + U32Bytes(NT_METADATA);
    var s := words + name + Pad(|name|);
    assert s[9] == U32Bytes(NT_METADATA)[1] == 0 && s[10] == 0 && s[11] == 0;
    forall p: nat ensures !At(s, k, p) {
      if At(s, k, p) {
        if p <= 9 { KeyNoZero(s, KIND, p, 9); }
        assert p > 9;
        if p < 12 { KeyNoZero(s, KIND, p, p); }
        assert p >= 12;
        if p + |k| > 12 + |name| { InPadding(s, p, 12 + |name|); }
        AtPart(s, k, p, name, 12) by { assert forall j {:trigger name[j]} :: 0 <= j < |name| ==> s[12 + j] == name[j]; }
      }
    }
  }

  lemma InPadding(s: seq<byte>, p: nat, pad: nat)
    requires KeyText(KIND) && pad <= |s| && (forall z :: pad <= z < |s| ==> s[z] == 0) && p + |KIND| >= pad
    ensures !At(s, KeyFor(KIND), p)
  {
    if At(s, KeyFor(KIND), p) { KeyNoZero(s, KIND, p, if p >= pad then p else pad); }
  }

  lemma PadFree(n: nat, more: seq<byte>)
    requires KeyText(KIND) && !Contains(more, KeyFor(KIND))
    ensures !Contains(Pad(n) + more, KeyFor(KIND))
  {
    var s, pad := Pad(n) + more, |Pad(n)|;
    assert s[pad..] == more;
    forall p: nat ensures !At(s, KeyFor(KIND), p) {
      if At(s, KeyFor(KIND), p) {
        if p < pad { KeyNoZero(s, KIND, p, p); }
        assert p >= pad;
        AfterEnd(s, KeyFor(KIND), p, pad);
      }
    }
  }

  /** A name and what follows the note, neither of which brings the key with it. */
  ghost predicate Quiet(name: seq<byte>, more: seq<byte>) {
    !Contains(name, KeyFor(KIND)) && !Contains(more, KeyFor(KIND)) && (more != [] ==> more[0] !in KIND)
  }

  /** A packed proper document in a note can be scanned. */
  lemma FramedScannable(name: seq<byte>, doc: Val, more: seq<byte>)
    requires doc.Map? && KIND != [] && Proper(KIND, true, doc) && Fits(doc) && Quiet(name, more)
    ensures Scannable(Frame(name, NT_METADATA, Encode(Pack(doc))) + more, KIND, Pack(doc), DocAt(name))
  {
    var desc, at := Encode(Pack(doc)), DocAt(name);
    var s := Frame(name, NT_METADATA, desc) + more;
    KindIsText();
    FrameStands(name, desc, more);
    HeaderFree(name, desc);
    PadFree(|desc|, more);
    AfterDoc(|desc|, more);
    PackRoundTrip(doc);
    OnlyInDocument(s, KIND, true, Pack(doc), at);
    PackShortKeys(KIND, doc);
    FoundShort(KIND, doc, at);
  }

  lemma AfterDoc(n: nat, more: seq<byte>)
    requires KeyText(KIND) && (more != [] ==> more[0] !in KIND)
    ensures var rest := Pad(n) + more; rest != [] ==> rest[0] !in KIND
  {
    forall i | 0 <= i < |KIND| ensures KIND[i] != 0 { }
  }

  /** The scan of a note after the tool has grown it, whatever the offline tool was asked to grow and however
      often: the count is still that of the first kernel's original explicit arguments. The document scanned
      before may be in any legal encoding; the note scanned now is the one `RewriteNote` returns. */
  lemma ScanUnchanged(s: seq<byte>, e: Enc, at: nat, note: seq<byte>, more: seq<byte>, target: seq<byte>, count: nat)
    requires Scannable(s, KIND, e, at) && Plain(KIND, Read(e)) && HasHidden(HIDDEN, FirstKinds(Read(e)))
    requires KIND != [] && Proper(KIND, true, Read(e)) && Rewritable(note, Read(e), target, count) && IsNote(note)
    requires Quiet(NoteName(note), more)
    ensures Scan(Rewritten(note, Read(e), target, count) + more, KIND, HIDDEN, 0, 0, false) ==
            Scan(s, KIND, HIDDEN, 0, 0, false)
  {
    var doc, grown := Read(e), GrowRoot(Read(e), target, count);
    GrowRootProper(doc, target, count);
    FramedScannable(NoteName(note), grown, more);
    PackRoundTrip(grown);
    GrownPlain(doc, target, count);
    CountKept(FirstKinds(doc), Appended(FirstKernel(doc), target, count));
    DocCount(s, e, at);
    DocCount(Rewritten(note, doc, target, count) + more, Pack(grown), DocAt(NoteName(note)));
  }

  // ---- a first kernel without hidden arguments --------------------------------------------

  /** An argument, a kernel with one argument, a document with two kernels. */
  function ArgWith(text: seq<byte>): Val { Map([Str(KIND), Str(text)]) }
  function KernelWith(text: seq<byte>): Val { Map([Str(ARGS), Arr([ArgWith(text)])]) }
  function TwoKernels(a: seq<byte>, b: seq<byte>): Val { Map([Str(KERNELS), Arr([KernelWith(a), KernelWith(b)])]) }

  lemma OneEntry(kind: seq<byte>, key: seq<byte>, v: Val)
    ensures KindsOfEntries(kind, [Str(key), v]) == (if key == kind then [v] else []) + KindsIn(kind, v)
    ensures kind != [] ==> (ProperEntries(kind, true, [Str(key), v]) <==>
              (if key == kind then v.Str? && |v.s| < 256 else Benign(kind, key)) && Proper(kind, true, v))
    ensures Get([Str(key), v], key) == Some(v)
  {
    assert [Str(key), v][2..] == [];
  }

  /** A map whose one field is an array of maps, each with one kind. */
  lemma KindsOfField(kind: seq<byte>, key: seq<byte>, item: Val)
    requires key != kind
    ensures KindsIn(kind, Map([Str(key), Arr([item])])) == KindsIn(kind, item)
    ensures kind != [] && Benign(kind, key) && item.Map? && Proper(kind, true, item) ==>
              Proper(kind, true, Map([Str(key), Arr([item])]))
  {
    OneEntry(kind, key, Arr([item]));
    assert [item][1..] == [];
    assert KindsOfItems(kind, [item]) == KindsIn(kind, item) + [];
    if kind != [] && item.Map? && Proper(kind, true, item) { assert ProperItems(kind, true, [item]); }
  }

  lemma KernelKindsOf(text: seq<byte>)
    ensures KindsIn(KIND, KernelWith(text)) == [Str(text)]
    ensures KIND != [] && (|text| < 256 && Benign(KIND, text) ==> ProperItem(KIND, KernelWith(text)))
  {
    KindKey();
    BenignNames();
    OneEntry(KIND, KIND, Str(text));
    KindsOfField(KIND, ARGS, ArgWith(text));
  }

  lemma KindsOfPair(kind: seq<byte>, x: Val, y: Val)
    ensures KindsOfItems(kind, [x, y]) == KindsIn(kind, x) + KindsIn(kind, y)
    ensures kind != [] && ProperItem(kind, x) && ProperItem(kind, y) ==> ProperItems(kind, true, [x, y])
  {
    assert [x, y][1..] == [y] && [y][1..] == [];
    assert KindsOfItems(kind, [y]) == KindsIn(kind, y) + [];
    if kind != [] && ProperItem(kind, y) { assert ProperItems(kind, true, [y]); }
  }

  /** Two kernels of one argument each, none of them hidden: the scan counts both arguments as the first
      kernel's. */
  lemma FirstKernelMiscounted(a: seq<byte>, b: seq<byte>, name: seq<byte>)
    requires |a| < 256 && |b| < 256 && KIND != [] && Benign(KIND, a) && Benign(KIND, b)
    requires !(HIDDEN <= a) && !(HIDDEN <= b) && Quiet(name, []) && Fits(TwoKernels(a, b))
    ensures FirstKinds(TwoKernels(a, b)) == [Str(a)]
    ensures Scan(Frame(name, NT_METADATA, Encode(Pack(TwoKernels(a, b)))) + [], KIND, HIDDEN, 0, 0, false) == Some(2)
  {
    var doc, ks := TwoKernels(a, b), [KernelWith(a), KernelWith(b)];
    KindKey();
    BenignNames();
    KernelKindsOf(a);
    KernelKindsOf(b);
    OneEntry(KIND, KERNELS, Arr(ks));
    FirstArg(a, b);
    KindsOfPair(KIND, KernelWith(a), KernelWith(b));
    assert KindsIn(KIND, doc) == [Str(a)] + [Str(b)] == [Str(a), Str(b)];
    FramedScannable(name, doc, []);
    PackRoundTrip(doc);
    ScanAgrees(Frame(name, NT_METADATA, Encode(Pack(doc))) + [], KIND, HIDDEN, Pack(doc), DocAt(name));
    TwoShown(HIDDEN, a, b);
  }

  lemma TwoShown(hid: seq<byte>, a: seq<byte>, b: seq<byte>)
    requires !(hid <= a) && !(hid <= b)
    ensures BeforeHidden(hid, [Str(a), Str(b)]) == 2
  {
    assert [Str(a), Str(b)][1..] == [Str(b)] && [Str(b)][1..] == [];
  }

  lemma FirstArg(a: seq<byte>, b: seq<byte>)
    ensures FirstKinds(TwoKernels(a, b)) == [Str(a)]
  {
    var ks := [KernelWith(a), KernelWith(b)];
    OneEntry(KIND, KERNELS, Arr(ks));
    OneEntry(KIND, ARGS, Arr([ArgWith(a)]));
    OneEntry(KIND, KIND, Str(a));
    assert FirstKernel(TwoKernels(a, b)) == ks[0] && ArgsOf(ks[0]) == [ArgWith(a)];
  }
}

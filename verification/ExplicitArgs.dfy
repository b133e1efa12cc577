/** The explicit-argument count of a kernel: what the byte scan finds, and why appending buffers to the
    metadata does not change it. */
module ExplicitArgs {
  import opened Bytes
  import opened Options
  import opened Sequences
  import opened Decimal
  import opened MsgPack
  import opened KernargNote
  import opened ByteScan

  // ---- the first kernel's kinds come first ------------------------------------------------

  /** The kinds in a map's entries before its first `key`. */
  function KindsBefore(kind: seq<byte>, items: seq<Val>, key: seq<byte>): seq<Val> {
    if |items| < 2 || items[0] == Str(key) then []
    else
      (if items[0] == Str(kind) then [items[1]] else KindsIn(kind, items[0])) +
      KindsIn(kind, items[1]) + KindsBefore(kind, items[2..], key)
  }

  /** A map has `key`, and no value_kind is written before it. */
  predicate Leads(kind: seq<byte>, items: seq<Val>, key: seq<byte>) {
    Get(items, key).Some? && KindsBefore(kind, items, key) == []
  }

  lemma {:induction false} LeadsKinds(kind: seq<byte>, items: seq<Val>, key: seq<byte>) returns (more: seq<Val>)
    requires Leads(kind, items, key) && key != kind
    ensures KindsOfEntries(kind, items) == KindsIn(kind, Get(items, key).value) + more
  {
    if items[0] == Str(key) {
      more := KindsOfEntries(kind, items[2..]);
    } else {
      more := LeadsKinds(kind, items[2..], key);
    }
  }

  lemma {:induction false} LeadsSet(kind: seq<byte>, items: seq<Val>, key: seq<byte>, v: Val)
    requires Leads(kind, items, key)
    ensures Leads(kind, Set(items, key, v), key)
  {
    if items[0] != Str(key) {
      LeadsSet(kind, items[2..], key, v);
      assert Set(items, key, v)[2..] == Set(items[2..], key, v);
    }
  }

  /** Setting another field to something without kinds does not put one in front. */
  lemma {:induction false} LeadsSetOther(kind: seq<byte>, items: seq<Val>, key: seq<byte>, other: seq<byte>, v: Val)
    requires Leads(kind, items, key) && other != key && other != kind && KindsIn(kind, v) == []
    ensures Leads(kind, Set(items, other, v), key)
  {
    var s := Set(items, other, v);
    if items[0] == Str(key) {
    } else if items[0] == Str(other) {
      assert s[2..] == items[2..];
    } else {
      LeadsSetOther(kind, items[2..], key, other, v);
      assert s[2..] == Set(items[2..], other, v);
    }
  }

  // ---- argument maps ----------------------------------------------------------------------

  /** No kinds nested in a map's keys or values. */
  predicate Flat(kind: seq<byte>, items: seq<Val>) {
    |items| >= 2 ==> KindsIn(kind, items[0]) == [] && KindsIn(kind, items[1]) == [] && Flat(kind, items[2..])
  }

  /** An argument's map: flat, with one value kind. */
  predicate IsArg(kind: seq<byte>, a: Val) {
    a.Map? && Flat(kind, a.items) && Get(a.items, kind).Some? &&
      KindsOfEntries(kind, a.items) == [Get(a.items, kind).value]
  }

  lemma {:induction false} SetFlat(kind: seq<byte>, items: seq<Val>, key: seq<byte>, v: Val)
    requires Flat(kind, items) && key != kind && KindsIn(kind, v) == []
    ensures Flat(kind, Set(items, key, v)) && KindsOfEntries(kind, Set(items, key, v)) == KindsOfEntries(kind, items)
  {
    var s := Set(items, key, v);
    if |items| < 2 {
      assert s[2..] == [];
    } else if items[0] == Str(key) {
      assert s[2..] == items[2..];
    } else {
      SetFlat(kind, items[2..], key, v);
      assert s[2..] == Set(items[2..], key, v);
    }
  }

  lemma SetArg(kind: seq<byte>, a: Val, key: seq<byte>, v: Val)
    requires IsArg(kind, a) && key != kind && KindsIn(kind, v) == []
    ensures var b := Map(Set(a.items, key, v)); IsArg(kind, b) && Get(b.items, kind) == Get(a.items, kind)
  {
    SetFlat(kind, a.items, key, v);
    GetSet(a.items, key, v, kind);
  }

  /** An extra argument is one more global buffer. */
  lemma ExtraIsArg(proto: Val, offset: int, i: nat)
    requires IsArg(KIND, proto) && Get(proto.items, KIND) == Some(Str(BUFFER))
    ensures IsArg(KIND, ExtraArg(proto, offset, i)) && Get(ExtraArg(proto, offset, i).items, KIND) == Some(Str(BUFFER))
  {
    KeysDiffer();
    var a := Map(Set(proto.items, OFFSET, Int(offset)));
    var b := Map(Set(a.items, SIZE, Int(8)));
    SetArg(KIND, proto, OFFSET, Int(offset));
    SetArg(KIND, a, SIZE, Int(8));
    SetArg(KIND, b, NAME, Str(EXTRA + Dec(i)));
  }

  ghost predicate AllArgs(kind: seq<byte>, args: seq<Val>) { forall i :: 0 <= i < |args| ==> IsArg(kind, args[i]) }

  function ArgKind(kind: seq<byte>, a: Val): Val {
    if a.Map? && Get(a.items, kind).Some? then Get(a.items, kind).value else Nil
  }

  function ArgKinds(kind: seq<byte>, args: seq<Val>): (r: seq<Val>)
    ensures |r| == |args| && forall i :: 0 <= i < |r| ==> r[i] == ArgKind(kind, args[i])
  {
    seq(|args|, i requires 0 <= i < |args| => ArgKind(kind, args[i]))
  }

  lemma {:induction false} ArgKindsIn(kind: seq<byte>, args: seq<Val>)
    requires AllArgs(kind, args)
    ensures KindsOfItems(kind, args) == ArgKinds(kind, args)
    decreases |args|
  {
    if args != [] {
      assert IsArg(kind, args[0]);
      forall i | 0 <= i < |args[1..]| ensures IsArg(kind, args[1..][i]) { assert IsArg(kind, args[i + 1]); }
      ArgKindsIn(kind, args[1..]);
      assert ArgKinds(kind, args) == [ArgKind(kind, args[0])] + ArgKinds(kind, args[1..]);
    }
  }

  // ---- the document -----------------------------------------------------------------------

  /** The arguments of a kernel. */
  function ArgsOf(k: Val): seq<Val> {
    if k.Map? && ArrayAt(k.items, ARGS).Some? then ArrayAt(k.items, ARGS).value else []
  }

  /** A kernel whose arguments are proper and come before any other kind in it. */
  ghost predicate PlainKernel(kind: seq<byte>, k: Val) {
    k.Map? && Leads(kind, k.items, ARGS) && Get(k.items, ARGS).value.Arr? && AllArgs(kind, ArgsOf(k))
  }

  /** A document whose first kernel's arguments are the first value kinds in it. */
  ghost predicate Plain(kind: seq<byte>, doc: Val) {
    && doc.Map? && Leads(kind, doc.items, KERNELS) && Get(doc.items, KERNELS).value.Arr?
    && var ks := Get(doc.items, KERNELS).value.items; |ks| > 0 && PlainKernel(kind, ks[0])
  }

  function FirstKernel(doc: Val): Val {
    if doc.Map? && ArrayAt(doc.items, KERNELS).Some? && |ArrayAt(doc.items, KERNELS).value| > 0
    then ArrayAt(doc.items, KERNELS).value[0]
    else Nil
  }

  lemma KernelKinds(kind: seq<byte>, k: Val) returns (more: seq<Val>)
    requires PlainKernel(kind, k) && kind != ARGS
    ensures KindsIn(kind, k) == ArgKinds(kind, ArgsOf(k)) + more
  {
    more := LeadsKinds(kind, k.items, ARGS);
    ArgKindsIn(kind, ArgsOf(k));
  }

  lemma KernelsKinds(kind: seq<byte>, ks: seq<Val>) returns (more: seq<Val>)
    requires |ks| > 0 && PlainKernel(kind, ks[0]) && kind != ARGS
    ensures KindsOfItems(kind, ks) == ArgKinds(kind, ArgsOf(ks[0])) + more
  {
    var a := KernelKinds(kind, ks[0]);
    more := a + KindsOfItems(kind, ks[1..]);
    Regroup(ArgKinds(kind, ArgsOf(ks[0])), a, KindsOfItems(kind, ks[1..]));
  }

  lemma DocKinds(kind: seq<byte>, doc: Val) returns (more: seq<Val>)
    requires Plain(kind, doc) && kind != ARGS && kind != KERNELS
    ensures KindsIn(kind, doc) == ArgKinds(kind, ArgsOf(FirstKernel(doc))) + more
  {
    var ks := Get(doc.items, KERNELS).value;
    var first := ArgKinds(kind, ArgsOf(ks.items[0]));
    var a := KernelsKinds(kind, ks.items);
    assert KindsIn(kind, ks) == first + a;
    var b := LeadsKinds(kind, doc.items, KERNELS);
    more := a + b;
    Regroup(first, a, b);
  }

  // ---- counting ---------------------------------------------------------------------------

  /** How many kinds are not hidden. */
  function Explicit(hid: seq<byte>, kinds: seq<Val>): nat {
    if kinds == [] then 0
    else Explicit(hid, kinds[..|kinds| - 1]) + (if IsHidden(hid, kinds[|kinds| - 1]) then 0 else 1)
  }

  /** The explicit arguments come first. */
  ghost predicate ExplicitFirst(hid: seq<byte>, kinds: seq<Val>) {
    forall i, j :: 0 <= i < j < |kinds| && IsHidden(hid, kinds[i]) ==> IsHidden(hid, kinds[j])
  }

  lemma {:induction false} BeforeHiddenAt(hid: seq<byte>, kinds: seq<Val>)
    ensures var n := BeforeHidden(hid, kinds);
            && (forall i :: 0 <= i < n ==> !IsHidden(hid, kinds[i])) && (n < |kinds| ==> IsHidden(hid, kinds[n]))
  {
    if kinds != [] && !IsHidden(hid, kinds[0]) {
      BeforeHiddenAt(hid, kinds[1..]);
      var m := BeforeHidden(hid, kinds[1..]);
      forall i | 0 <= i < m + 1 ensures !IsHidden(hid, kinds[i]) {
        if i > 0 { assert kinds[1..][i - 1] == kinds[i]; }
      }
    }
  }

  lemma {:induction false} BeforeHiddenAppend(hid: seq<byte>, a: seq<Val>, b: seq<Val>)
    requires BeforeHidden(hid, a) < |a|
    ensures BeforeHidden(hid, a + b) == BeforeHidden(hid, a)
  {
    if !IsHidden(hid, a[0]) {
      assert (a + b)[1..] == a[1..] + b;
      BeforeHiddenAppend(hid, a[1..], b);
    }
  }

  lemma {:induction false} ExplicitUpTo(hid: seq<byte>, kinds: seq<Val>, n: nat, m: nat)
    requires n <= m <= |kinds| && (forall i :: 0 <= i < n ==> !IsHidden(hid, kinds[i])) &&
             forall i :: n <= i < m ==> IsHidden(hid, kinds[i])
    ensures Explicit(hid, kinds[..m]) == n
    decreases m
  {
    if m > 0 {
      assert kinds[..m][..m - 1] == kinds[..m - 1];
      ExplicitUpTo(hid, kinds, if n == m then n - 1 else n, m - 1);
    }
  }

  /** With the explicit arguments first, the count up to the first hidden one is all of them. */
  lemma CountsExplicit(hid: seq<byte>, kinds: seq<Val>)
    requires ExplicitFirst(hid, kinds)
    ensures BeforeHidden(hid, kinds) == Explicit(hid, kinds)
  {
    BeforeHiddenAt(hid, kinds);
    var n := BeforeHidden(hid, kinds);
    ExplicitUpTo(hid, kinds, n, |kinds|);
    assert kinds[..|kinds|] == kinds;
  }

  // ---- the scan and the full parse agree --------------------------------------------------

  lemma KindKey()
    ensures |KIND| < 32 && KIND != ARGS && KIND != KERNELS
  {
    assert |KIND| == 11 && |ARGS| == 5 && |KERNELS| == 14;
  }

  ghost predicate HasHidden(hid: seq<byte>, kinds: seq<Val>) { exists i :: 0 <= i < |kinds| && IsHidden(hid, kinds[i]) }

  function FirstKinds(doc: Val): seq<Val> { ArgKinds(KIND, ArgsOf(FirstKernel(doc))) }

  lemma DocCount(s: seq<byte>, e: Enc, at: nat)
    requires Scannable(s, KIND, e, at) && Plain(KIND, Read(e)) && HasHidden(HIDDEN, FirstKinds(Read(e)))
    ensures Scan(s, KIND, HIDDEN, 0, 0, false) == Some(BeforeHidden(HIDDEN, FirstKinds(Read(e))))
  {
    var kinds := FirstKinds(Read(e));
    KindKey();
    ScanAgrees(s, KIND, HIDDEN, e, at);
    var more := DocKinds(KIND, Read(e));
    BeforeHiddenAt(HIDDEN, kinds);
    BeforeHiddenAppend(HIDDEN, kinds, more);
  }

  /** On a note whose first kernel has its explicit arguments before at least one hidden one, the byte
      scan returns that kernel's explicit-argument count. */
  lemma ScanCountsExplicit(s: seq<byte>, e: Enc, at: nat)
    requires Scannable(s, KIND, e, at) && Plain(KIND, Read(e))
    requires HasHidden(HIDDEN, FirstKinds(Read(e))) && ExplicitFirst(HIDDEN, FirstKinds(Read(e)))
    ensures Scan(s, KIND, HIDDEN, 0, 0, false) == Some(Explicit(HIDDEN, FirstKinds(Read(e))))
  {
    DocCount(s, e, at);
    CountsExplicit(HIDDEN, FirstKinds(Read(e)));
  }

  lemma {:induction false} BeforeHiddenThrough(hid: seq<byte>, a: seq<Val>, b: seq<Val>)
    requires BeforeHidden(hid, a) == |a|
    ensures BeforeHidden(hid, a + b) == |a| + BeforeHidden(hid, b)
  {
    if a == [] {
      assert a + b == b;
    } else {
      assert (a + b)[1..] == a[1..] + b;
      BeforeHiddenThrough(hid, a[1..], b);
    }
  }

  /** Without a hidden argument in the first kernel the scan runs on into whatever kinds follow. So it
      stays with the first kernel exactly when that kernel has a hidden argument, or a hidden one (or
      nothing) comes right after it. */
  lemma ScanStaysIff(s: seq<byte>, e: Enc, at: nat) returns (more: seq<Val>)
    requires Scannable(s, KIND, e, at) && Plain(KIND, Read(e))
    ensures KindsIn(KIND, Read(e)) == FirstKinds(Read(e)) + more
    ensures KindsIn(KIND, Read(e)) != [] ==>
              (Scan(s, KIND, HIDDEN, 0, 0, false) == Some(BeforeHidden(HIDDEN, FirstKinds(Read(e)))) <==>
               HasHidden(HIDDEN, FirstKinds(Read(e))) || BeforeHidden(HIDDEN, more) == 0)
  {
    var kinds := FirstKinds(Read(e));
    KindKey();
    ScanAgrees(s, KIND, HIDDEN, e, at);
    more := DocKinds(KIND, Read(e));
    BeforeHiddenAt(HIDDEN, kinds);
    if BeforeHidden(HIDDEN, kinds) < |kinds| {
      BeforeHiddenAppend(HIDDEN, kinds, more);
    } else {
      BeforeHiddenThrough(HIDDEN, kinds, more);
    }
  }

  // ---- after the metadata has grown -------------------------------------------------------

  function Buffers(n: nat): seq<Val> { seq(n, _ => Str(BUFFER)) }

  /** How many arguments growing appends to a kernel. */
  function Appended(k: Val, target: seq<byte>, count: nat): nat {
    if Targeted(k, target) && HasBuffer(k) then count else 0
  }

  ghost predicate IsBuffer(a: Val) { IsArg(KIND, a) && ArgKind(KIND, a) == Str(BUFFER) }

  lemma AllExtras(proto: Val, ksize: int, count: nat)
    requires IsArg(KIND, proto) && Get(proto.items, KIND) == Some(Str(BUFFER))
    ensures forall i :: 0 <= i < count ==> IsBuffer(Extras(proto, ksize, count)[i])
  {
    forall i | 0 <= i < count ensures IsBuffer(Extras(proto, ksize, count)[i]) {
      ExtraIsArg(proto, Align8(ksize) + 8 * i, i);
    }
  }

  lemma GrownArgs(args: seq<Val>, proto: Val, ksize: int, count: nat)
    requires AllArgs(KIND, args) && FindProto(args) == Some(Some(proto))
    ensures AllArgs(KIND, args + Extras(proto, ksize, count))
    ensures ArgKinds(KIND, args + Extras(proto, ksize, count)) == ArgKinds(KIND, args) + Buffers(count)
  {
    var grown, extras := args + Extras(proto, ksize, count), Extras(proto, ksize, count);
    var j :| 0 <= j < |args| && args[j] == proto;
    assert IsArg(KIND, args[j]);
    AllExtras(proto, ksize, count);
    forall i | 0 <= i < |grown|
      ensures IsArg(KIND, grown[i]) && ArgKind(KIND, grown[i]) == (ArgKinds(KIND, args) + Buffers(count))[i]
    {
      if i < |args| { assert IsArg(KIND, args[i]); } else { assert IsBuffer(extras[i - |args|]); }
    }
  }

  lemma GrownKernelPlain(k: Val, count: nat)
    requires PlainKernel(KIND, k) && HasBuffer(k) && IntAt(k.items, KSIZE).Some?
    ensures PlainKernel(KIND, GrowOne(k, count))
    ensures ArgKinds(KIND, ArgsOf(GrowOne(k, count))) == ArgKinds(KIND, ArgsOf(k)) + Buffers(count)
  {
    var args, ksize := ArgsOf(k), IntAt(k.items, KSIZE).value;
    var args' := args + Extras(FindProto(args).value.value, ksize, count);
    var withArgs := Set(k.items, ARGS, Arr(args'));
    KeysDiffer();
    KindKey();
    LeadsSet(KIND, k.items, ARGS, Arr(args'));
    LeadsSetOther(KIND, withArgs, ARGS, KSIZE, Int(GrownSize(ksize, count))) by {
      assert |KSIZE| == 21 && |KIND| == 11;
    }
    GetSet(k.items, ARGS, Arr(args'), ARGS);
    GetSet(withArgs, KSIZE, Int(GrownSize(ksize, count)), ARGS);
    GrownArgs(args, FindProto(args).value.value, ksize, count);
  }

  /** Growing keeps the first kernel's arguments in front, and appends global buffers to them. */
  lemma GrownPlain(doc: Val, target: seq<byte>, count: nat)
    requires Plain(KIND, doc) && WellTypedDoc(doc, target)
    ensures Plain(KIND, GrowRoot(doc, target, count))
    ensures FirstKinds(GrowRoot(doc, target, count)) == FirstKinds(doc) +
            Buffers(Appended(FirstKernel(doc), target, count))
  {
    var ks, ks' := ArrayAt(doc.items, KERNELS).value, GrowKernels(doc, target, count);
    LeadsSet(KIND, doc.items, KERNELS, Arr(ks'));
    GetSet(doc.items, KERNELS, Arr(ks'), KERNELS);
    assert ks'[0] == GrowTargeted(ks[0], target, count);
    if Targeted(ks[0], target) && HasBuffer(ks[0]) {
      GrownKernelPlain(ks[0], count);
    } else {
      assert ArgKinds(KIND, ArgsOf(ks[0])) + Buffers(0) == ArgKinds(KIND, ArgsOf(ks[0]));
    }
  }

  lemma CountKept(kinds: seq<Val>, n: nat)
    requires HasHidden(HIDDEN, kinds)
    ensures HasHidden(HIDDEN, kinds + Buffers(n)) &&
            BeforeHidden(HIDDEN, kinds + Buffers(n)) == BeforeHidden(HIDDEN, kinds)
  {
    var i :| 0 <= i < |kinds| && IsHidden(HIDDEN, kinds[i]);
    assert IsHidden(HIDDEN, (kinds + Buffers(n))[i]);
    BeforeHiddenAt(HIDDEN, kinds);
    BeforeHiddenAppend(HIDDEN, kinds, Buffers(n));
  }

  lemma {:induction false} ExplicitBuffers(kinds: seq<Val>, n: nat)
    ensures Explicit(HIDDEN, kinds + Buffers(n)) == Explicit(HIDDEN, kinds) + n
  {
    var all := kinds + Buffers(n);
    if n == 0 {
      assert all == kinds;
    } else {
      ExplicitBuffers(kinds, n - 1);
      assert all[..|all| - 1] == kinds + Buffers(n - 1);
      BufferShown();
    }
  }

  lemma BufferShown()
    ensures !IsHidden(HIDDEN, Str(BUFFER))
  {
    assert BUFFER[0] == 'g' as int && HIDDEN[0] == 'h' as int;
  }

  lemma BufferAt(kinds: seq<Val>, n: nat, i: nat)
    requires i < n && ExplicitFirst(HIDDEN, kinds)
    ensures (kinds + Buffers(n))[|kinds| + i] == Str(BUFFER)
    ensures Explicit(HIDDEN, (kinds + Buffers(n))[..|kinds| + i]) == BeforeHidden(HIDDEN, kinds) + i
  {
    CountsExplicit(HIDDEN, kinds);
    ExplicitBuffers(kinds, i);
    BuffersCut(kinds, n, i);
  }

  lemma BuffersCut(kinds: seq<Val>, n: nat, i: nat)
    requires i < n
    ensures (kinds + Buffers(n))[|kinds| + i] == Buffers(n)[i] == Str(BUFFER)
    ensures (kinds + Buffers(n))[..|kinds| + i] == kinds + Buffers(i)
  {
  }

  /** Where the launch hook appends the per-wave buffer is where HIP looks for it: among the grown
      kernel's explicit arguments, the i-th appended one has exactly the scanned count + i before it. */
  lemma BufferIndex(doc: Val, target: seq<byte>, count: nat, i: nat)
    requires Plain(KIND, doc) && WellTypedDoc(doc, target) && i < Appended(FirstKernel(doc), target, count)
    requires ExplicitFirst(HIDDEN, FirstKinds(doc))
    ensures var kinds, n := FirstKinds(GrowRoot(doc, target, count)), |FirstKinds(doc)|;
            && n + i < |kinds| && kinds[n + i] == Str(BUFFER)
            && Explicit(HIDDEN, kinds[..n + i]) == BeforeHidden(HIDDEN, FirstKinds(doc)) + i
  {
    GrownPlain(doc, target, count);
    BufferAt(FirstKinds(doc), Appended(FirstKernel(doc), target, count), i);
  }
}

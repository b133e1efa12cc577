/** The kernel metadata note: growing each kernel's argument list offline, and finding the grown
    document again when the note is read. */
module KernargNote {
  import opened Bytes
  import opened Options
  import opened Decimal
  import opened MsgPack

  // ---- the shortest encoding, as the offline tool writes it -------------------------------

  function PackInt(i: int): Enc {
    if -32 <= i < 128 then EFix(i)
    else if i >= 0 then
      EUint(if i < 256 then 1 else if i < 65536 then 2 else if i < WORD then 4 else 8, i)
    else
      EInt(if i >= -128 then 1 else if i >= -32768 then 2 else if i >= -0x8000_0000 then 4 else 8, i)
  }

  function PackForm(n: nat, fix: nat, short: bool): Form {
    if n < fix then Fix else if short && n < 256 then F8 else if n < 65536 then F16 else F32
  }

  /** Lengths that fit their 32-bit fields and numbers that fit 63 bits and a sign. */
  predicate Packable(v: Val)
    decreases v
  {
    match v
    case Int(i) => -0x8000_0000_0000_0000 <= i < 0x8000_0000_0000_0000
    case Str(s) => |s| < WORD
    case Arr(items) => |items| < WORD && forall k :: 0 <= k < |items| ==> Packable(items[k])
    case Map(items) => |items| % 2 == 0 && |items| / 2 < WORD && forall k :: 0 <= k < |items| ==> Packable(items[k])
    case _ => true
  }

  function Pack(v: Val): Enc
    decreases v
  {
    match v
    case Nil => ENil
    case Bool(b) => EBool(b)
    case Int(i) => PackInt(i)
    case Str(s) => EStr(PackForm(|s|, 32, true), s)
    case Arr(items) => EArr(PackForm(|items|, 16, false), PackAll(items))
    case Map(items) => EMap(PackForm(|items| / 2, 16, false), PackAll(items))
  }

  function PackAll(vs: seq<Val>): (r: seq<Enc>)
    ensures |r| == |vs|
    decreases vs
  {
    if vs == [] then [] else [Pack(vs[0])] + PackAll(vs[1..])
  }

  lemma PackedInt(i: int)
    requires Packable(Int(i))
    ensures Legal(PackInt(i)) && Read(PackInt(i)) == Int(i)
  {
    Pows();
    assert Pow256(8) == 0x1_0000_0000_0000_0000 by {
      assert Pow256(5) == 0x100_0000_0000;
      assert Pow256(6) == 0x1_0000_0000_0000;
      assert Pow256(7) == 0x100_0000_0000_0000;
    }
  }

  /** The shortest encoding is a legal one, and the reader gets the document back from it. */
  lemma {:induction false} PackRoundTrip(v: Val)
    requires Packable(v)
    ensures Legal(Pack(v)) && Read(Pack(v)) == v
    decreases v
  {
    match v
    case Int(i) => PackedInt(i);
    case Arr(items) => PackAllRoundTrip(items);
    case Map(items) => PackAllRoundTrip(items);
    case _ =>
  }

  lemma {:induction false} PackAllRoundTrip(vs: seq<Val>)
    requires forall k :: 0 <= k < |vs| ==> Packable(vs[k])
    ensures (forall k :: 0 <= k < |vs| ==> Legal(PackAll(vs)[k])) && ReadAll(PackAll(vs)) == vs
    decreases vs
  {
    if vs != [] {
      PackRoundTrip(vs[0]);
      PackAllRoundTrip(vs[1..]);
      ConsAll(Pack(vs[0]), PackAll(vs[1..]));
      assert vs == [vs[0]] + vs[1..];
    }
  }

  // ---- maps -------------------------------------------------------------------------------

  /** `mpGet`: the value of the first entry with this string key. */
  function Get(items: seq<Val>, key: seq<byte>): Option<Val> {
    if |items| < 2 then None
    else if items[0] == Str(key) then Some(items[1])
    else Get(items[2..], key)
  }

  /** The first entry whose key is the string `key`. */
  ghost predicate FirstEntry(items: seq<Val>, key: seq<byte>, i: nat) {
    2 * i + 1 < |items| && items[2 * i] == Str(key) && forall j :: 0 <= j < i ==> items[2 * j] != Str(key)
  }

  /** A lookup gives what stands under the first entry of the key, and nothing if there is none. */
  lemma {:induction false} GetFirst(items: seq<Val>, key: seq<byte>)
    ensures Get(items, key).Some? <==> exists i: nat :: FirstEntry(items, key, i)
    ensures forall i: nat :: FirstEntry(items, key, i) ==> Get(items, key) == Some(items[2 * i + 1])
    decreases |items|
  {
    if |items| >= 2 && items[0] != Str(key) {
      var rest := items[2..];
      GetFirst(rest, key);
      forall i: nat ensures FirstEntry(items, key, i + 1) <==> FirstEntry(rest, key, i) { EntryBehind(items, key, i); }
      forall i: nat | FirstEntry(items, key, i) ensures Get(items, key) == Some(items[2 * i + 1]) {
        assert i > 0 && FirstEntry(items, key, i - 1 + 1) && FirstEntry(rest, key, i - 1);
      }
      if Get(items, key).Some? {
        var i: nat :| FirstEntry(rest, key, i);
        assert FirstEntry(items, key, i + 1);
      }
    } else if |items| >= 2 {
      assert FirstEntry(items, key, 0);
    }
  }

  lemma EntryBehind(items: seq<Val>, key: seq<byte>, i: nat)
    requires |items| >= 2 && items[0] != Str(key)
    ensures FirstEntry(items, key, i + 1) <==> FirstEntry(items[2..], key, i)
  {
    var rest := items[2..];
    if FirstEntry(items, key, i + 1) {
      forall j | 0 <= j < i ensures rest[2 * j] != Str(key) { assert rest[2 * j] == items[2 * (j + 1)]; }
    }
    if FirstEntry(rest, key, i) {
      forall j | 0 <= j < i + 1 ensures items[2 * j] != Str(key) {
        if j > 0 { assert items[2 * j] == rest[2 * (j - 1)]; }
      }
    }
  }

  /** Assignment to a key: in place, or at the end. */
  function Set(items: seq<Val>, key: seq<byte>, v: Val): (r: seq<Val>)
    ensures |r| >= 2
  {
    if |items| < 2 then [Str(key), v]
    else if items[0] == Str(key) then [items[0], v] + items[2..]
    else items[..2] + Set(items[2..], key, v)
  }

  lemma {:induction false} GetSet(items: seq<Val>, key: seq<byte>, v: Val, k: seq<byte>)
    ensures Get(Set(items, key, v), k) == if k == key then Some(v) else Get(items, k)
  {
    if |items| >= 2 && items[0] != Str(key) {
      GetSet(items[2..], key, v, k);
      assert Set(items, key, v)[2..] == Set(items[2..], key, v);
    } else if |items| >= 2 {
      assert Set(items, key, v)[2..] == items[2..];
    }
  }

  const KERNELS: seq<byte> := Ascii("amdhsa.kernels")
  const NAME: seq<byte> := Ascii(".name")
  const ARGS: seq<byte> := Ascii(".args")
  const KIND: seq<byte> := Ascii(".value_kind")
  const OFFSET: seq<byte> := Ascii(".offset")
  const SIZE: seq<byte> := Ascii(".size")
  const KSIZE: seq<byte> := Ascii(".kernarg_segment_size")
  const BUFFER: seq<byte> := Ascii("global_buffer")
  const EXTRA: seq<byte> := Ascii("__pw_extra")

  // ---- growing one kernel -----------------------------------------------------------------

  /** `_align`. */
  function Align8(x: int): (r: int)
    ensures x <= r < x + 8 && r % 8 == 0
  {
    x + 7 - (x + 7) % 8
  }

  /** A copy of `proto` as extra argument i at an offset. */
  function ExtraArg(proto: Val, offset: int, i: nat): Val
    requires proto.Map?
  {
    Map(Set(Set(Set(proto.items, OFFSET, Int(offset)), SIZE, Int(8)), NAME, Str(EXTRA + Dec(i))))
  }

  function Extras(proto: Val, ksize: int, count: nat): (r: seq<Val>)
    requires proto.Map?
    ensures |r| == count && forall i :: 0 <= i < count ==> r[i] == ExtraArg(proto, Align8(ksize) + 8 * i, i)
  {
    seq(count, i requires 0 <= i < count => ExtraArg(proto, Align8(ksize) + 8 * i, i))
  }

  /** Where the segment ends with the extra arguments. */
  function GrownSize(ksize: int, count: nat): int { if count == 0 then ksize else Align8(ksize) + 8 * count }

  /** What an extra argument says: its own place, size and name, and for the rest its prototype. */
  ghost predicate IsExtra(a: Val, proto: Val, offset: int, i: nat) {
    && a.Map? && proto.Map?
    && Get(a.items, OFFSET) == Some(Int(offset)) && Get(a.items, SIZE) == Some(Int(8))
    && Get(a.items, NAME) == Some(Str(EXTRA + Dec(i)))
    && forall k: seq<byte> :: k != OFFSET && k != SIZE && k != NAME ==> Get(a.items, k) == Get(proto.items, k)
  }

  lemma KeysDiffer()
    ensures OFFSET != SIZE && OFFSET != NAME && SIZE != NAME && ARGS != KSIZE && KIND != OFFSET && KIND != SIZE &&
            KIND != NAME
  {
    assert |OFFSET| == 7 && |SIZE| == 5 && |NAME| == 5 && |ARGS| == 5 && |KSIZE| == 21 && |KIND| == 11;
    assert SIZE[1] == 's' as int && NAME[1] == 'n' as int;
  }

  lemma ExtraIs(proto: Val, offset: int, i: nat)
    requires proto.Map?
    ensures IsExtra(ExtraArg(proto, offset, i), proto, offset, i)
  {
    KeysDiffer();
    var a := Set(proto.items, OFFSET, Int(offset));
    var b := Set(a, SIZE, Int(8));
    forall k: seq<byte> ensures Get(Set(b, NAME, Str(EXTRA + Dec(i))), k) ==
      if k == NAME then Some(Str(EXTRA + Dec(i))) else if k == SIZE then Some(Int(8))
      else if k == OFFSET then Some(Int(offset)) else Get(proto.items, k)
    {
      GetSet(b, NAME, Str(EXTRA + Dec(i)), k);
      GetSet(a, SIZE, Int(8), k);
      GetSet(proto.items, OFFSET, Int(offset), k);
    }
  }

  /** The appended arguments' offsets are 8-aligned, start no earlier than the old segment ended, do not
      overlap, and the last one ends where the new segment does. */
  lemma ExtrasLayOut(ksize: int, count: nat, i: nat, j: nat)
    requires i < j < count || (i == j && i == count - 1)
    ensures var at := Align8(ksize) + 8 * i;
            && at % 8 == 0 && ksize <= at && at + 8 <= GrownSize(ksize, count)
            && (i < j ==> at + 8 <= Align8(ksize) + 8 * j)
            && (i == count - 1 ==> at + 8 == GrownSize(ksize, count))
  {
    assert (Align8(ksize) + 8 * i) % 8 == 0;
  }

  /** The loop that appends the arguments. */
  method AppendArgs(args: seq<Val>, proto: Val, ksize: int, count: nat) returns (args': seq<Val>, ksize': int)
    requires proto.Map?
    ensures args' == args + Extras(proto, ksize, count) && ksize' == GrownSize(ksize, count)
  {
    args', ksize' := args, ksize;
    for i := 0 to count
      invariant args' == args + Extras(proto, ksize, i) && ksize' == GrownSize(ksize, i)
    {
      var newoff := Align8(ksize');
      args' := args' + [ExtraArg(proto, newoff, i)];
      ksize' := newoff + 8;
    }
  }

  /** An argument of kind "global_buffer". */
  predicate IsBufferArg(a: Val) { a.Map? && Get(a.items, KIND) == Some(Str(BUFFER)) }

  /** Argument i is a buffer or no map at all, and the ones before it are neither. */
  ghost predicate Stops(args: seq<Val>, i: nat) {
    i < |args| && (IsBufferArg(args[i]) || !args[i].Map?) &&
    forall j :: 0 <= j < i ==> args[j].Map? && !IsBufferArg(args[j])
  }

  /** The first argument of kind "global_buffer"; Some(None) if there is none, None if an argument that
      is no map comes first. */
  function FindProto(args: seq<Val>): (r: Option<Option<Val>>)
    ensures r.Some? && r.value.Some? ==> r.value.value in args && IsBufferArg(r.value.value)
    ensures r == Some(None) ==> forall a :: a in args ==> a.Map? && !IsBufferArg(a)
  {
    if args == [] then Some(None)
    else if !args[0].Map? then None
    else if Get(args[0].items, KIND) == Some(Str(BUFFER)) then Some(Some(args[0]))
    else FindProto(args[1..])
  }

  /** The prototype is the first buffer of all; the search fails at an argument that is no map. */
  lemma {:induction false} ProtoIsFirst(args: seq<Val>, i: nat)
    requires Stops(args, i)
    ensures FindProto(args) == if args[i].Map? then Some(Some(args[i])) else None
  {
    if i > 0 {
      assert args[0].Map? && !IsBufferArg(args[0]);
      forall j | 0 <= j < i - 1 ensures args[1..][j].Map? && !IsBufferArg(args[1..][j]) {
        assert args[1..][j] == args[j + 1];
      }
      ProtoIsFirst(args[1..], i - 1);
    }
  }

  /** A field that must be an array, or absent. */
  function ArrayAt(items: seq<Val>, key: seq<byte>): Option<seq<Val>> {
    match Get(items, key)
    case None => Some([])
    case Some(v) => if v.Arr? then Some(v.items) else None
  }

  function IntAt(items: seq<Val>, key: seq<byte>): Option<int> {
    match Get(items, key)
    case None => Some(0)
    case Some(v) => if v.Int? then Some(v.i) else None
  }

  /** What the tool may do to one kernel: leave it, or append `count` arguments and grow the segment.
      Every other field stays. */
  ghost predicate Grown(k: Val, k': Val, count: nat) {
    && k.Map? && k'.Map?
    && exists args, i: nat, ksize: int ::
         && Get(k.items, ARGS) == Some(Arr(args)) && Stops(args, i) && IsBufferArg(args[i])
         && (if Get(k.items, KSIZE).Some? then Get(k.items, KSIZE).value == Int(ksize) else ksize == 0)
         && GrownBy(k, k', args + Extras(args[i], ksize, count), GrownSize(ksize, count))
  }

  lemma {:induction false} ProtoStops(args: seq<Val>) returns (i: nat)
    requires FindProto(args).Some? && FindProto(args).value.Some?
    ensures Stops(args, i) && IsBufferArg(args[i]) && FindProto(args).value.value == args[i]
  {
    if IsBufferArg(args[0]) {
      i := 0;
    } else {
      var j := ProtoStops(args[1..]);
      i := j + 1;
      forall l | 0 <= l < i ensures args[l].Map? && !IsBufferArg(args[l]) {
        if l > 0 { assert args[l] == args[1..][l - 1]; }
      }
    }
  }

  ghost predicate GrownBy(k: Val, k': Val, args: seq<Val>, ksize: int)
    requires k.Map? && k'.Map?
  {
    && Get(k'.items, ARGS) == Some(Arr(args)) && Get(k'.items, KSIZE) == Some(Int(ksize))
    && forall key: seq<byte> :: key != ARGS && key != KSIZE ==> Get(k'.items, key) == Get(k.items, key)
  }

  /** The kernels the tool was asked to grow: all, or the one with the given name. */
  predicate Targeted(k: Val, target: seq<byte>) { k.Map? && (target == [] || Get(k.items, NAME) == Some(Str(target))) }

  predicate HasBuffer(k: Val) {
    k.Map? && ArrayAt(k.items, ARGS).Some? && var p := FindProto(ArrayAt(k.items, ARGS).value); p.Some? && p.value.Some?
  }

  /** A kernel is grown just when it is one of those asked for, by name or all, and has a buffer argument. */
  ghost predicate KernelOk(k: Val, k': Val, target: seq<byte>, count: nat) {
    if k.Map? && (target == [] || Get(k.items, NAME) == Some(Str(target))) && SomeBuffer(k)
    then Grown(k, k', count) else k' == k
  }

  ghost predicate SomeBuffer(k: Val)
    requires k.Map?
  {
    exists i :: 0 <= i < |ArgsUnder(k)| && IsBufferArg(ArgsUnder(k)[i])
  }

  ghost function ArgsUnder(k: Val): seq<Val>
    requires k.Map?
  {
    if Get(k.items, ARGS).Some? && Get(k.items, ARGS).value.Arr? then Get(k.items, ARGS).value.items else []
  }

  /** A kernel the tool can handle: its arguments are maps as far as they are looked at, and its segment
      size is a number if it is needed. */
  predicate WellTyped(k: Val, target: seq<byte>) {
    k.Map? && (Targeted(k, target) ==>
      && ArrayAt(k.items, ARGS).Some? && FindProto(ArrayAt(k.items, ARGS).value).Some?
      && (HasBuffer(k) ==> IntAt(k.items, KSIZE).Some?))
  }

  /** A kernel with `count` extra arguments. */
  function GrowOne(k: Val, count: nat): Val
    requires HasBuffer(k) && IntAt(k.items, KSIZE).Some?
  {
    var args, ksize := ArrayAt(k.items, ARGS).value, IntAt(k.items, KSIZE).value;
    Map(Set(Set(k.items, ARGS, Arr(args + Extras(FindProto(args).value.value, ksize, count))), KSIZE,
      Int(GrownSize(ksize, count))))
  }

  lemma GrowOneGrows(k: Val, count: nat)
    requires HasBuffer(k) && IntAt(k.items, KSIZE).Some?
    ensures Grown(k, GrowOne(k, count), count)
  {
    var args, ksize := ArrayAt(k.items, ARGS).value, IntAt(k.items, KSIZE).value;
    var proto := FindProto(args).value.value;
    var args', ksize' := args + Extras(proto, ksize, count), GrownSize(ksize, count);
    var withArgs := Set(k.items, ARGS, Arr(args'));
    var k' := GrowOne(k, count);
    KeysDiffer();
    forall key: seq<byte>
      ensures Get(k'.items, key) ==
              if key == KSIZE then Some(Int(ksize')) else if key == ARGS then Some(Arr(args')) else Get(k.items, key)
    {
      GetSet(withArgs, KSIZE, Int(ksize'), key);
      GetSet(k.items, ARGS, Arr(args'), key);
    }
    var i := ProtoStops(args);
    assert GrownBy(k, k', args + Extras(args[i], ksize, count), GrownSize(ksize, count));
  }

  function GrowTargeted(k: Val, target: seq<byte>, count: nat): Val
    requires WellTyped(k, target)
  {
    if Targeted(k, target) && HasBuffer(k) then GrowOne(k, count) else k
  }

  /** The loop body over kernels; None stands for a raised exception. */
  method GrowKernel(k: Val, target: seq<byte>, count: nat) returns (r: Option<Val>)
    ensures r == if WellTyped(k, target) then Some(GrowTargeted(k, target, count)) else None
  {
    if !k.Map? { return None; }
    if target != [] && Get(k.items, NAME) != Some(Str(target)) { return Some(k); }
    var args := ArrayAt(k.items, ARGS);
    if args.None? { return None; }
    var proto := FindProto(args.value);
    if proto.None? { return None; }
    if proto.value.None? { return Some(k); }
    var ksize := IntAt(k.items, KSIZE);
    if ksize.None? { return None; }
    var args', ksize' := AppendArgs(args.value, proto.value.value, ksize.value, count);
    var withArgs := Set(k.items, ARGS, Arr(args'));
    r := Some(Map(Set(withArgs, KSIZE, Int(ksize'))));
  }

  // ---- growing the document ---------------------------------------------------------------

  predicate WellTypedDoc(root: Val, target: seq<byte>) {
    && root.Map? && ArrayAt(root.items, KERNELS).Some?
    && var ks := ArrayAt(root.items, KERNELS).value; forall i :: 0 <= i < |ks| ==> WellTyped(ks[i], target)
  }

  /** The new document: the same but for the targeted kernels, each of which has grown. */
  ghost predicate GrownDoc(root: Val, root': Val, target: seq<byte>, count: nat) {
    && root.Map? && root'.Map? && ArrayAt(root.items, KERNELS).Some? && ArrayAt(root'.items, KERNELS).Some?
    && (forall key: seq<byte> :: key != KERNELS ==> Get(root'.items, key) == Get(root.items, key))
    && (Get(root.items, KERNELS).None? ==> root' == root)
    && var ks, ks' := ArrayAt(root.items, KERNELS).value, ArrayAt(root'.items, KERNELS).value;
       |ks'| == |ks| && forall i :: 0 <= i < |ks| ==> KernelOk(ks[i], ks'[i], target, count)
  }

  function GrowKernels(root: Val, target: seq<byte>, count: nat): (r: seq<Val>)
    requires WellTypedDoc(root, target)
    ensures |r| == |ArrayAt(root.items, KERNELS).value|
  {
    var ks := ArrayAt(root.items, KERNELS).value;
    seq(|ks|, i requires 0 <= i < |ks| => GrowTargeted(ks[i], target, count))
  }

  /** The document with its targeted kernels grown. */
  function GrowRoot(root: Val, target: seq<byte>, count: nat): Val
    requires WellTypedDoc(root, target)
  {
    if Get(root.items, KERNELS).None? then root
    else Map(Set(root.items, KERNELS, Arr(GrowKernels(root, target, count))))
  }

  /** Growing touches nothing but the targeted kernels' arguments and segment sizes. */
  lemma GrowRootGrows(root: Val, target: seq<byte>, count: nat)
    requires WellTypedDoc(root, target)
    ensures GrownDoc(root, GrowRoot(root, target, count), target, count)
  {
    var ks, ks' := ArrayAt(root.items, KERNELS).value, GrowKernels(root, target, count);
    forall i | 0 <= i < |ks| ensures KernelOk(ks[i], ks'[i], target, count) {
      var k := ks[i];
      if Targeted(k, target) {
        var args := ArrayAt(k.items, ARGS).value;
        assert ArgsUnder(k) == args;
        if HasBuffer(k) {
          GrowOneGrows(k, count);
          var j :| 0 <= j < |args| && args[j] == FindProto(args).value.value;
          assert IsBufferArg(ArgsUnder(k)[j]);
        }
      }
    }
    forall key: seq<byte>
      ensures Get(Set(root.items, KERNELS, Arr(ks')), key) ==
              if key == KERNELS then Some(Arr(ks')) else Get(root.items, key)
    {
      GetSet(root.items, KERNELS, Arr(ks'), key);
    }
  }

  /** The loop over kernels. */
  method GrowDoc(root: Val, target: seq<byte>, count: nat) returns (r: Option<Val>)
    ensures r == if WellTypedDoc(root, target) then Some(GrowRoot(root, target, count)) else None
  {
    if !root.Map? { return None; }
    var ks := ArrayAt(root.items, KERNELS);
    if ks.None? { return None; }
    var ks': seq<Val> := [];
    for i := 0 to |ks.value|
      invariant |ks'| == i && forall j :: 0 <= j < i ==> WellTyped(ks.value[j], target) &&
                                                         ks'[j] == GrowTargeted(ks.value[j], target, count)
    {
      var k := GrowKernel(ks.value[i], target, count);
      if k.None? { return None; }
      ks' := ks' + [k.value];
    }
    assert ks' == GrowKernels(root, target, count);
    r := Some(if Get(root.items, KERNELS).None? then root else Map(Set(root.items, KERNELS, Arr(ks'))));
  }

  // ---- the note around it -----------------------------------------------------------------

  const NT_METADATA: nat := 32
  const VENDOR: seq<byte> := Ascii("AMDGPU")

  function Align4(n: nat): (r: nat)
    ensures n <= r < n + 4 && r % 4 == 0
  {
    (n + 3) / 4 * 4
  }

  function Pad(n: nat): (r: seq<byte>)
    ensures n + |r| == Align4(n)
  {
    seq<byte>(Align4(n) - n, _ => 0)
  }

  /** A note: three little-endian words, the name, the descriptor, each padded to four bytes. */
  function Frame(name: seq<byte>, ntype: nat, desc: seq<byte>): seq<byte> {
    U32Bytes(|name|) + U32Bytes(|desc|) + U32Bytes(ntype) + (name + Pad(|name|)) + (desc + Pad(|desc|))
  }

  /** The scanner's `(n + 3) & ~3u`, on 32-bit words. */
  function Round4(n: nat): (r: nat)
    ensures n + 3 < WORD ==> r == Align4(n)
  {
    (n + 3) % WORD / 4 * 4
  }

  /** The note at p is the metadata note. */
  predicate IsMetadata(s: seq<byte>, p: nat)
    requires p + 12 <= |s|
  {
    GetU32(s, p + 8) == NT_METADATA && GetU32(s, p) >= 6 && p + 18 <= |s| && s[p + 12..p + 18] == VENDOR
  }

  /** Where the descriptor of the note at p starts, and where the next note does. */
  function DescAt(s: seq<byte>, p: nat): nat
    requires p + 12 <= |s|
  {
    p + 12 + Round4(GetU32(s, p))
  }

  function NextNote(s: seq<byte>, p: nat): nat
    requires p + 12 <= |s|
  {
    DescAt(s, p) + Round4(GetU32(s, p + 4))
  }

  /** The descriptor, cut off where the section ends. */
  function DescOf(s: seq<byte>, p: nat): seq<byte>
    requires p + 12 <= |s| && DescAt(s, p) <= |s|
  {
    s[DescAt(s, p)..Min(DescAt(s, p) + GetU32(s, p + 4), |s|)]
  }

  /** The descriptor of the first metadata note from p on. */
  function FindDesc(s: seq<byte>, p: nat): Option<seq<byte>>
    decreases |s| - p
  {
    if p + 12 > |s| || DescAt(s, p) > |s| then None
    else if IsMetadata(s, p) then Some(DescOf(s, p))
    else FindDesc(s, NextNote(s, p))
  }

  /** The loop over the notes of a section. */
  method ScanNotes(s: seq<byte>) returns (desc: Option<seq<byte>>)
    ensures desc == FindDesc(s, 0)
  {
    var p := 0;
    while p + 12 <= |s|
      invariant FindDesc(s, p) == FindDesc(s, 0)
      decreases |s| - p
    {
      if DescAt(s, p) > |s| { return None; }
      if IsMetadata(s, p) { return Some(DescOf(s, p)); }
      p := NextNote(s, p);
    }
    desc := None;
  }

  lemma HeaderWords(a: nat, b: nat, c: nat, rest: seq<byte>)
    requires a < WORD && b < WORD && c < WORD
    ensures var s := U32Bytes(a) + U32Bytes(b) + U32Bytes(c) + rest;
            GetU32(s, 0) == a && GetU32(s, 4) == b && GetU32(s, 8) == c
  {
    U32Digits(a);
    U32Digits(b);
    U32Digits(c);
  }

  /** A metadata note is found again by the scan, whatever notes follow it. */
  lemma FrameFound(name: seq<byte>, desc: seq<byte>, more: seq<byte>)
    requires VENDOR <= name && |name| + 3 < WORD && |desc| < WORD
    ensures FindDesc(Frame(name, NT_METADATA, desc) + more, 0) == Some(desc)
  {
    var head := U32Bytes(|name|) + U32Bytes(|desc|) + U32Bytes(NT_METADATA);
    var named, rest := name + Pad(|name|), desc + Pad(|desc|) + more;
    var s := Frame(name, NT_METADATA, desc) + more;
    assert s == head + (named + rest);
    HeaderWords(|name|, |desc|, NT_METADATA, named + rest);
    assert s[12..18] == name[..6] == VENDOR;
    var d := 12 + |named|;
    assert s[d..d + |desc|] == desc;
  }

  /** The bytes `s` hold a metadata note, and the reader makes `doc` of it. */
  ghost predicate Holds(s: seq<byte>, doc: Val) {
    FindDesc(s, 0).Some? && Parse(FindDesc(s, 0).value) == Some((doc, []))
  }

  lemma FrameHolds(name: seq<byte>, doc: Val, more: seq<byte>)
    requires VENDOR <= name && |name| + 3 < WORD && Fits(doc)
    ensures Holds(Frame(name, NT_METADATA, Encode(Pack(doc))) + more, doc)
  {
    var packed := Encode(Pack(doc));
    PackRoundTrip(doc);
    ParseRoundTrip(Pack(doc), []);
    assert packed + [] == packed;
    FrameFound(name, packed, more);
  }

  /** A document whose descriptor fits the note's 32-bit size. */
  ghost predicate Fits(doc: Val) { Packable(doc) && Legal(Pack(doc)) && |Encode(Pack(doc))| < WORD }

  /** A metadata note with its name, in a file of under 4 GiB. */
  ghost predicate IsNote(note: seq<byte>) {
    12 <= |note| < WORD && IsMetadata(note, 0) && 12 + GetU32(note, 0) <= |note|
  }

  /** The note's document is well typed, and fits a note again once grown. */
  ghost predicate Rewritable(note: seq<byte>, doc: Val, target: seq<byte>, count: nat) {
    Holds(note, doc) && WellTypedDoc(doc, target) && Fits(GrowRoot(doc, target, count))
  }

  /** The name in a note. */
  function NoteName(note: seq<byte>): seq<byte>
    requires 12 <= |note|
  {
    note[12..Min(12 + GetU32(note, 0), |note|)]
  }

  /** The bytes of the new note: the old name around the document grown. */
  ghost function Rewritten(note: seq<byte>, doc: Val, target: seq<byte>, count: nat): seq<byte>
    requires IsNote(note) && Rewritable(note, doc, target, count)
  {
    Frame(NoteName(note), NT_METADATA, Encode(Pack(GrowRoot(doc, target, count))))
  }

  /** The descriptor the tool takes out of a note is the one the reader finds. */
  lemma NoteDesc(note: seq<byte>, off: nat)
    requires IsNote(note) && off == 12 + Align4(GetU32(note, 0))
    ensures if off > |note| then FindDesc(note, 0) == None
            else FindDesc(note, 0) == Some(note[off..Min(off + GetU32(note, 4), |note|)])
  {
    assert DescAt(note, 0) == off;
  }

  lemma HoldsOne(note: seq<byte>, doc: Val)
    requires Holds(note, doc)
    ensures forall other :: Holds(note, other) ==> other == doc
  {
  }

  /** The note rewritten around a grown document that fits holds that document, whatever follows it. */
  lemma RewrittenHolds(note: seq<byte>, doc: Val, target: seq<byte>, count: nat)
    requires IsNote(note) && Rewritable(note, doc, target, count)
    ensures GrownDoc(doc, GrowRoot(doc, target, count), target, count)
    ensures forall more :: Holds(Rewritten(note, doc, target, count) + more, GrowRoot(doc, target, count))
  {
    GrowRootGrows(doc, target, count);
    var name := NoteName(note);
    assert VENDOR == note[12..18] <= name;
    forall more ensures Holds(Rewritten(note, doc, target, count) + more, GrowRoot(doc, target, count)) {
      FrameHolds(name, GrowRoot(doc, target, count), more);
    }
  }

  /** What the reader makes of a note. */
  ghost predicate ReadsAs(note: seq<byte>, root: Option<Val>) {
    match root
    case Some(doc) => Holds(note, doc)
    case None => forall doc :: !Holds(note, doc)
  }

  /** A document that ends where the descriptor ends is the one the note holds. */
  lemma ReadsDesc(note: seq<byte>, desc: seq<byte>, doc: Val, end: Option<nat>)
    requires FindDesc(note, 0) == Some(desc) && (end.Some? ==> end.value <= |desc|)
    requires Parse(desc) == if end.Some? then Some((doc, desc[end.value..])) else None
    ensures ReadsAs(note, if end == Some(|desc|) then Some(doc) else None)
  {
  }

  lemma Refused(note: seq<byte>, root: Option<Val>, target: seq<byte>, count: nat)
    requires ReadsAs(note, root)
    requires root.Some? && WellTypedDoc(root.value, target) ==> !Fits(GrowRoot(root.value, target, count))
    ensures !exists doc :: Rewritable(note, doc, target, count)
  {
    if root.Some? { HoldsOne(note, root.value); }
  }

  /** Everything that holds of the new note. */
  ghost predicate Grows(note: seq<byte>, target: seq<byte>, count: nat, out: seq<byte>)
    requires IsNote(note)
  {
    forall doc :: Holds(note, doc) ==>
      && Rewritable(note, doc, target, count) && GrownDoc(doc, GrowRoot(doc, target, count), target, count)
      && out == Rewritten(note, doc, target, count)
      && forall more :: Holds(out + more, GrowRoot(doc, target, count))
  }

  lemma RewrittenGrows(note: seq<byte>, doc: Val, target: seq<byte>, count: nat)
    requires IsNote(note) && Rewritable(note, doc, target, count)
    ensures Grows(note, target, count, Rewritten(note, doc, target, count))
    ensures exists d :: Rewritable(note, d, target, count)
  {
    RewrittenHolds(note, doc, target, count);
    HoldsOne(note, doc);
  }

  /** The parts of a note: its name, its type and the document in it, or None if it does not parse. */
  method ReadNote(note: seq<byte>) returns (name: seq<byte>, ntype: nat, root: Option<Val>)
    ensures IsNote(note) ==> name == NoteName(note) && ntype == NT_METADATA
    ensures IsNote(note) ==> ReadsAs(note, root)
    ensures root.Some? ==> |name| < WORD && ntype < WORD
  {
    name, ntype, root := [], 0, None;
    if |note| < 12 { return; }
    var namesz, descsz := GetU32(note, 0), GetU32(note, 4);
    var off := 12 + Align4(namesz);
    name, ntype := note[12..Min(12 + namesz, |note|)], GetU32(note, 8);
    if IsNote(note) { NoteDesc(note, off); }
    if off > |note| { return; }
    var desc := note[off..Min(off + descsz, |note|)];
    var doc, end := MpParse(desc, 0);
    assert desc[0..] == desc;
    if end == Some(|desc|) { root := Some(doc); }
    if IsNote(note) { ReadsDesc(note, desc, doc, end); }
  }

  /** The bytes of a note around a document, or None if it does not fit. */
  method PackNote(name: seq<byte>, ntype: nat, doc: Val) returns (out: Option<seq<byte>>)
    ensures out.Some? <==> Fits(doc)
    ensures out.Some? ==> Legal(Pack(doc)) && out.value == Frame(name, ntype, Encode(Pack(doc)))
  {
    out := None;
    if !Packable(doc) { return; }
    PackRoundTrip(doc);
    var packed := Encode(Pack(doc));
    if |packed| < WORD { out := Some(Frame(name, ntype, packed)); }
  }

  /** `rewrite_note`: None stands for a raised exception. What the scan and the reader later make of the
      result, whatever notes follow it, is the document grown. */
  method RewriteNote(note: seq<byte>, target: seq<byte>, count: nat) returns (out: Option<seq<byte>>)
    ensures IsNote(note) ==> (out.Some? <==> exists doc :: Rewritable(note, doc, target, count))
    ensures IsNote(note) && out.Some? ==> Grows(note, target, count, out.value)
  {
    out := None;
    var name, ntype, root := ReadNote(note);
    var grown := None;
    if root.Some? { grown := GrowDoc(root.value, target, count); }
    if grown.Some? { out := PackNote(name, ntype, grown.value); }
    if IsNote(note) {
      if out.Some? { RewrittenGrows(note, root.value, target, count); } else { Refused(note, root, target, count); }
    }
  }
}

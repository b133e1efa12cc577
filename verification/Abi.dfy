/** The mailbox slot and the wrappers' marshalling: which stores each device wrapper makes
    before it signals, and which host operation the service loop reads out of the slot. */
module Abi {
  import opened Bytes

  const NSLOTS: nat := 256
  const PATH_SIZE: nat := 128
  const MODE_SIZE: nat := 8
  const DATA_SIZE: nat := 512

  const OP_FOPEN: int := 1
  const OP_FREAD: int := 2
  const OP_FWRITE: int := 3
  const OP_FCLOSE: int := 4
  const OP_WRITE_ID: int := 5
  const OP_FWRITE_PTR: int := 6

  /** The request and result fields of one slot (`turn` and `status` are kept apart, in Ring). */
  datatype Fields = Fields(opcode: int, handle: int, bufptr: int, size: int, retval: int, arg: int,
                           path: seq<byte>, mode: seq<byte>, data: seq<byte>)
  {
    predicate Valid() { |path| == PATH_SIZE && |mode| == MODE_SIZE && |data| == DATA_SIZE }
  }

  /** One device store into a slot. */
  datatype Store =
    | PathByte(i: nat, c: byte) | ModeByte(i: nat, c: byte) | DataByte(i: nat, c: byte)
    | SetHandle(v: int) | SetBufptr(v: int) | SetSize(v: int) | SetArg(v: int) | SetOpcode(v: int)
  {
    predicate Fits() {
      && (PathByte? ==> i < PATH_SIZE)
      && (ModeByte? ==> i < MODE_SIZE)
      && (DataByte? ==> i < DATA_SIZE)
    }
  }

  function Apply(f: Fields, st: Store): (r: Fields)
    requires f.Valid() && st.Fits()
    ensures r.Valid()
  {
    match st
    case PathByte(i, c) => f.(path := f.path[i := c])
    case ModeByte(i, c) => f.(mode := f.mode[i := c])
    case DataByte(i, c) => f.(data := f.data[i := c])
    case SetHandle(v) => f.(handle := v)
    case SetBufptr(v) => f.(bufptr := v)
    case SetSize(v) => f.(size := v)
    case SetArg(v) => f.(arg := v)
    case SetOpcode(v) => f.(opcode := v)
  }

  ghost predicate AllFit(sts: seq<Store>) { forall k :: 0 <= k < |sts| ==> sts[k].Fits() }

  /** The slot after all of `sts`, in order. */
  function ApplyAll(f: Fields, sts: seq<Store>): (r: Fields)
    requires f.Valid() && AllFit(sts)
    ensures r.Valid()
  {
    if sts == [] then f else Apply(ApplyAll(f, sts[..|sts| - 1]), sts[|sts| - 1])
  }

  /** A device wrapper's call, with its arguments as the caller passed them. */
  datatype Request =
    | Fopen(path: seq<byte>, mode: seq<byte>)        // gpu_fopen (and hc_open, with its fixed strings)
    | FwriteValue(handle: int, data: seq<byte>)      // gpu_fwrite_256; `data` is the caller's first `size` bytes
    | FwritePtr(handle: int, ptr: int, size: nat)    // gpu_fwrite
    | Fread(handle: int, size: nat)                  // gpu_fread
    | WriteId(id: int)                               // hc_write_id and its hc_write_* siblings
    | Fclose                                         // hc_close

  /** What the host is asked to do, in the host's terms. */
  datatype HostOp =
    | HOpen(name: seq<byte>, mode: seq<byte>)
    | HWrite(handle: int, bytes: seq<byte>)
    | HWritePtr(handle: int, ptr: int, size: nat)
    | HRead(handle: int, size: nat)
    | HClose
    | HId(id: int)
    | HBad

  function PathStores(p: seq<byte>): seq<Store> { seq(|p|, k requires 0 <= k < |p| => PathByte(k, p[k])) }
  function ModeStores(p: seq<byte>): seq<Store> { seq(|p|, k requires 0 <= k < |p| => ModeByte(k, p[k])) }
  function DataStores(p: seq<byte>): seq<Store> { seq(|p|, k requires 0 <= k < |p| => DataByte(k, p[k])) }

  /** A copy loop bounded by `cap` that stops at the terminator. */
  function Clip(s: seq<byte>, cap: nat): (r: seq<byte>)
    ensures r <= s && |r| <= cap && 0 !in r
    ensures |r| == cap || |r| == |s| || s[|r|] == 0
  {
    var c := CStr(s);
    c[..Min(|c|, cap)]
  }

  /** The stores a wrapper makes between the gate and `status = 1`, in program order. */
  function Stores(q: Request): seq<Store> {
    match q
    case Fopen(p, m) => PathStores(Clip(p, PATH_SIZE - 1) + [0]) + ModeStores(Clip(m, MODE_SIZE - 1) + [0]) +
      [SetOpcode(OP_FOPEN)]
    case FwriteValue(h, d) =>
      var n := Min(|d|, DATA_SIZE);
      DataStores(d[..n]) + [SetHandle(h), SetSize(n), SetOpcode(OP_FWRITE)]
    case FwritePtr(h, p, n) => [SetHandle(h), SetBufptr(p), SetSize(n), SetOpcode(OP_FWRITE_PTR)]
    case Fread(h, n) => [SetHandle(h), SetSize(Min(n, DATA_SIZE)), SetOpcode(OP_FREAD)]
    case WriteId(id) => [SetArg(id), SetOpcode(OP_WRITE_ID)]
    case Fclose => [SetOpcode(OP_FCLOSE)]
  }

  /** What the caller meant, with the wrapper's documented caps. */
  function Meaning(q: Request): HostOp {
    match q
    case Fopen(p, m) => HOpen(Clip(p, PATH_SIZE - 1), Clip(m, MODE_SIZE - 1))
    case FwriteValue(h, d) => HWrite(h, d[..Min(|d|, DATA_SIZE)])
    case FwritePtr(h, p, n) => HWritePtr(h, p, n)
    case Fread(h, n) => HRead(h, Min(n, DATA_SIZE))
    case WriteId(id) => HId(id)
    case Fclose => HClose
  }

  /** The operation `service_slot` reads from the slot: a switch on the opcode. Sizes outside the
      slot's own buffer have no meaning in C and are read as a bad request. */
  function Decode(f: Fields): HostOp
    requires f.Valid()
  {
    if f.opcode == OP_FOPEN then HOpen(CStr(f.path), CStr(f.mode))
    else if f.opcode == OP_FWRITE then (if 0 <= f.size <= DATA_SIZE then HWrite(f.handle, f.data[..f.size]) else HBad)
    else if f.opcode == OP_FWRITE_PTR then (if 0 <= f.size then HWritePtr(f.handle, f.bufptr, f.size) else HBad)
    else if f.opcode == OP_FREAD then (if 0 <= f.size <= DATA_SIZE then HRead(f.handle, f.size) else HBad)
    else if f.opcode == OP_FCLOSE then HClose
    else if f.opcode == OP_WRITE_ID then HId(f.arg)
    else HBad
  }

  /** What one host operation answers: the values it may leave in `handle`, `retval` and `data`. */
  datatype Result = Result(handle: int, retval: int, data: seq<byte>)

  /** The fields `service_slot` writes back for `op`; `turn` and `status` are not among them. */
  function WriteBack(f: Fields, op: HostOp, res: Result): (r: Fields)
    requires f.Valid() && |res.data| <= DATA_SIZE
    ensures r.Valid()
  {
    match op
    case HOpen(_, _) => f.(handle := res.handle, retval := res.retval)
    case HRead(_, _) => f.(retval := res.retval, data := res.data + f.data[|res.data|..])
    case _ => f.(retval := res.retval)
  }

  /** What a wrapper hands back to its caller. */
  datatype Reply = Reply(value: int, data: seq<byte>)

  /** The wrapper's loads after it has seen `status == 2`. */
  function ReadReply(q: Request, f: Fields): Reply
    requires f.Valid()
  {
    match q
    case Fopen(_, _) => Reply(f.handle, [])
    case FwriteValue(_, _) => Reply(f.retval, [])
    case FwritePtr(_, _, _) => Reply(f.retval, [])
    case Fread(_, n) => Reply(f.retval, f.data[..if f.retval < 0 then 0 else Min(f.retval, Min(n, DATA_SIZE))])
    case _ => Reply(0, [])
  }

  /** The reply a result stands for, independently of the slot it travelled through. */
  function ReplyOf(q: Request, res: Result): Reply {
    match q
    case Fopen(_, _) => Reply(res.handle, [])
    case FwriteValue(_, _) => Reply(res.retval, [])
    case FwritePtr(_, _, _) => Reply(res.retval, [])
    case Fread(_, _) => Reply(res.retval, res.data)
    case _ => Reply(0, [])
  }

  lemma StoresFit(q: Request)
    ensures AllFit(Stores(q))
    ensures |Stores(q)| <= 1000
  {
  }

  lemma {:induction false} ApplyAllConcat(f: Fields, a: seq<Store>, b: seq<Store>)
    requires f.Valid() && AllFit(a) && AllFit(b)
    ensures AllFit(a + b)
    ensures ApplyAll(f, a + b) == ApplyAll(ApplyAll(f, a), b)
    decreases |b|
  {
    if b == [] {
      assert a + b == a;
    } else {
      var b' := b[..|b| - 1];
      assert (a + b)[..|a + b| - 1] == a + b';
      ApplyAllConcat(f, a, b');
    }
  }

  lemma {:induction false} PathStoresEffect(f: Fields, p: seq<byte>)
    requires f.Valid() && |p| <= PATH_SIZE
    ensures AllFit(PathStores(p))
    ensures ApplyAll(f, PathStores(p)) == f.(path := p + f.path[|p|..])
  {
    if p == [] {
      assert f.path[0..] == f.path;
    } else {
      var p' := p[..|p| - 1];
      PathStoresEffect(f, p');
      assert PathStores(p)[..|p| - 1] == PathStores(p');
      assert (p' + f.path[|p'|..])[|p'| := p[|p'|]] == p + f.path[|p|..];
    }
  }

  lemma {:induction false} ModeStoresEffect(f: Fields, p: seq<byte>)
    requires f.Valid() && |p| <= MODE_SIZE
    ensures AllFit(ModeStores(p))
    ensures ApplyAll(f, ModeStores(p)) == f.(mode := p + f.mode[|p|..])
  {
    if p == [] {
      assert f.mode[0..] == f.mode;
    } else {
      var p' := p[..|p| - 1];
      ModeStoresEffect(f, p');
      assert ModeStores(p)[..|p| - 1] == ModeStores(p');
      assert (p' + f.mode[|p'|..])[|p'| := p[|p'|]] == p + f.mode[|p|..];
    }
  }

  lemma {:induction false} DataStoresEffect(f: Fields, p: seq<byte>)
    requires f.Valid() && |p| <= DATA_SIZE
    ensures AllFit(DataStores(p))
    ensures ApplyAll(f, DataStores(p)) == f.(data := p + f.data[|p|..])
  {
    if p == [] {
      assert f.data[0..] == f.data;
    } else {
      var p' := p[..|p| - 1];
      DataStoresEffect(f, p');
      assert DataStores(p)[..|p| - 1] == DataStores(p');
      assert (p' + f.data[|p'|..])[|p'| := p[|p'|]] == p + f.data[|p|..];
    }
  }

  lemma ApplyLast(f: Fields, sts: seq<Store>, st: Store)
    requires f.Valid() && AllFit(sts) && st.Fits()
    ensures AllFit(sts + [st])
    ensures ApplyAll(f, sts + [st]) == Apply(ApplyAll(f, sts), st)
  {
    assert (sts + [st])[..|sts|] == sts;
  }

  lemma ApplyOne(f: Fields, a: Store)
    requires f.Valid() && a.Fits()
    ensures AllFit([a])
    ensures ApplyAll(f, [a]) == Apply(f, a)
  {
    ApplyLast(f, [], a);
    assert [] + [a] == [a];
  }

  lemma ApplyTwo(f: Fields, a: Store, b: Store)
    requires f.Valid() && a.Fits() && b.Fits()
    ensures AllFit([a, b])
    ensures ApplyAll(f, [a, b]) == Apply(Apply(f, a), b)
  {
    ApplyOne(f, a);
    ApplyLast(f, [a], b);
    assert [a] + [b] == [a, b];
  }

  lemma ApplyThree(f: Fields, a: Store, b: Store, c: Store)
    requires f.Valid() && a.Fits() && b.Fits() && c.Fits()
    ensures AllFit([a, b, c])
    ensures ApplyAll(f, [a, b, c]) == Apply(Apply(Apply(f, a), b), c)
  {
    ApplyTwo(f, a, b);
    ApplyLast(f, [a, b], c);
    assert [a, b] + [c] == [a, b, c];
  }

  lemma OpenEffect(p: seq<byte>, m: seq<byte>, last: Store, left: Fields)
    requires left.Valid() && |p| <= PATH_SIZE && |m| <= MODE_SIZE && last.Fits()
    ensures AllFit(PathStores(p) + ModeStores(m) + [last])
    ensures ApplyAll(left, PathStores(p) + ModeStores(m) + [last])
         == Apply(left.(path := p + left.path[|p|..], mode := m + left.mode[|m|..]), last)
  {
    PathStoresEffect(left, p);
    ModeStoresEffect(left.(path := p + left.path[|p|..]), m);
    ApplyAllConcat(left, PathStores(p), ModeStores(m));
    ApplyLast(left, PathStores(p) + ModeStores(m), last);
  }

  lemma Terminated(p: seq<byte>, rest: seq<byte>)
    requires 0 !in p
    ensures CStr(p + [0] + rest) == p
  {
    CStrIs(p + [0] + rest, p);
  }

  lemma OpenDecodes(p: seq<byte>, m: seq<byte>, left: Fields)
    requires left.Valid() && |p| < PATH_SIZE && |m| < MODE_SIZE && 0 !in p && 0 !in m
    ensures AllFit(PathStores(p + [0]) + ModeStores(m + [0]) + [SetOpcode(OP_FOPEN)])
    ensures Decode(ApplyAll(left, PathStores(p + [0]) + ModeStores(m + [0]) + [SetOpcode(OP_FOPEN)])) == HOpen(p, m)
  {
    OpenEffect(p + [0], m + [0], SetOpcode(OP_FOPEN), left);
    Terminated(p, left.path[|p + [0]|..]);
    Terminated(m, left.mode[|m + [0]|..]);
  }

  lemma WriteEffect(d: seq<byte>, a: Store, b: Store, c: Store, left: Fields)
    requires left.Valid() && |d| <= DATA_SIZE && a.Fits() && b.Fits() && c.Fits()
    ensures AllFit(DataStores(d) + [a, b, c])
    ensures ApplyAll(left, DataStores(d) + [a, b, c])
         == Apply(Apply(Apply(left.(data := d + left.data[|d|..]), a), b), c)
  {
    DataStoresEffect(left, d);
    ApplyThree(left.(data := d + left.data[|d|..]), a, b, c);
    ApplyAllConcat(left, DataStores(d), [a, b, c]);
  }

  lemma WriteDecodes(handle: int, d: seq<byte>, left: Fields)
    requires left.Valid() && |d| <= DATA_SIZE
    ensures AllFit(DataStores(d) + [SetHandle(handle), SetSize(|d|), SetOpcode(OP_FWRITE)])
    ensures Decode(ApplyAll(left, DataStores(d) + [SetHandle(handle), SetSize(|d|), SetOpcode(OP_FWRITE)]))
         == HWrite(handle, d)
  {
    WriteEffect(d, SetHandle(handle), SetSize(|d|), SetOpcode(OP_FWRITE), left);
    assert (d + left.data[|d|..])[..|d|] == d;
  }

  /** Marshalling survives slot reuse: whatever an earlier occupant left in the slot, once a
      wrapper's stores are done the host decodes exactly the call the wrapper was given. */
  lemma {:induction false} MarshalRoundTrip(q: Request, left: Fields)
    requires left.Valid()
    ensures AllFit(Stores(q))
    ensures Decode(ApplyAll(left, Stores(q))) == Meaning(q)
  {
    match q
    case Fopen(p, m) =>
      OpenDecodes(Clip(p, PATH_SIZE - 1), Clip(m, MODE_SIZE - 1), left);
    case FwriteValue(h, d) =>
      WriteDecodes(h, d[..Min(|d|, DATA_SIZE)], left);
    case FwritePtr(h, ptr, n) =>
      ApplyThree(left, SetHandle(h), SetBufptr(ptr), SetSize(n));
      assert Stores(q)[..3] == [SetHandle(h), SetBufptr(ptr), SetSize(n)];
    case Fread(h, n) =>
      ApplyThree(left, SetHandle(h), SetSize(Min(n, DATA_SIZE)), SetOpcode(OP_FREAD));
    case WriteId(id) =>
      ApplyTwo(left, SetArg(id), SetOpcode(OP_WRITE_ID));
    case Fclose =>
      ApplyOne(left, SetOpcode(OP_FCLOSE));
  }

  /** The reply a wrapper loads is the reply its own operation's result stands for, whatever else
      is in the slot. */
  lemma ReplyRoundTrip(q: Request, f: Fields, res: Result)
    requires f.Valid()
    requires q.Fread? ==> |res.data| <= Min(q.size, DATA_SIZE) &&
                          (res.retval == |res.data| || (res.retval < 0 && res.data == []))
    requires |res.data| <= DATA_SIZE
    ensures ReadReply(q, WriteBack(f, Meaning(q), res)) == ReplyOf(q, res)
  {
    if q.Fread? {
      var g := WriteBack(f, Meaning(q), res);
      assert g.data[..|res.data|] == res.data;
    }
  }

  /** `hc_write` stores the payload, the size and the opcode, but no handle. */
  function HcWriteStores(msg: seq<byte>): seq<Store>
    requires |msg| <= DATA_SIZE
  {
    DataStores(msg) + [SetSize(|msg|), SetOpcode(OP_FWRITE)]
  }

  /** So it reaches the stream the caller has in mind exactly when the slot's previous occupant
      happened to leave that handle behind. */
  lemma HcWriteTargetsLeftover(msg: seq<byte>, left: Fields, intended: int)
    requires left.Valid() && |msg| <= DATA_SIZE
    ensures AllFit(HcWriteStores(msg))
    ensures Decode(ApplyAll(left, HcWriteStores(msg))) == HWrite(intended, msg) <==> left.handle == intended
  {
    DataStoresEffect(left, msg);
    var f := ApplyAll(left, DataStores(msg));
    assert f.data[..|msg|] == msg;
    ApplyTwo(f, SetSize(|msg|), SetOpcode(OP_FWRITE));
    ApplyAllConcat(left, DataStores(msg), [SetSize(|msg|), SetOpcode(OP_FWRITE)]);
  }
}

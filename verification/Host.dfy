/** The host's half of a call: `service_slot` over the file map, as a function of the operations
    it has serviced. */
module Host {
  import opened Bytes
  import opened Options
  import opened Decimal
  import opened Abi

  /** A mode that opens for writing. */
  predicate Writes(mode: seq<byte>) { mode != [] && (mode[0] == 'w' as int || mode[0] == 'a' as int) }

  /** An open FILE: an appending or a reading stream, according to the first mode character. */
  datatype Stream = Stream(name: seq<byte>, mode: seq<byte>, contents: seq<byte>, pos: nat)
  {
    predicate Writable() { Writes(mode) }
  }

  /** The service loop's locals: file map, primary stream, counters. `attempts` numbers the calls
      to `fopen`; a successful attempt k yields the non-null handle k + 1. */
  datatype Host = Host(files: map<seq<byte>, int>, streams: map<int, Stream>, primary: int,
                       attempts: nat, opens: nat, writes: nat, closes: nat)

  const Fresh: Host := Host(map[], map[], 0, 0, 0, 0, 0)

  /** What the file system answers: whether the k-th `fopen` succeeds, and what a file holds
      beforehand. */
  datatype Env = Env(opens: nat -> bool, disk: seq<byte> -> seq<byte>)

  /** A decoded operation with the record behind a device address already read (None for a null
      or unmapped address). */
  datatype Act =
    | AOpen(name: seq<byte>, mode: seq<byte>)
    | AWrite(handle: int, payload: Option<seq<byte>>)
    | ARead(handle: int, size: nat)
    | AClose
    | AId(id: int)
    | ABad

  function InitialContents(env: Env, name: seq<byte>, mode: seq<byte>): seq<byte> {
    if mode != [] && mode[0] == 'w' as int then [] else env.disk(name)
  }

  predicate Opened(h: Host, name: seq<byte>) { name in h.files && h.files[name] != 0 }

  function IdLine(id: int): seq<byte> { Ascii("[gpu] site ") + SignedDec(id) + [10] }

  function Append(h: Host, f: int, bytes: seq<byte>): (r: Host)
    requires f in h.streams
    ensures r.streams.Keys == h.streams.Keys && r.files == h.files && r.primary == h.primary && r.attempts == h.attempts
  {
    var s := h.streams[f];
    if s.Writable() then h.(streams := h.streams[f := s.(contents := s.contents + bytes)]) else h
  }

  function Exec(env: Env, h: Host, a: Act): (Host, Result)
  {
    match a
    case AOpen(name, mode) =>
      if Opened(h, name) then (h.(opens := h.opens + 1), Result(h.files[name], 0, []))
      else if env.opens(h.attempts) then
        var f := h.attempts + 1;
        (h.(files := h.files[name := f],
            streams := h.streams[f := Stream(name, mode, InitialContents(env, name, mode), 0)],
            primary := if h.primary == 0 then f else h.primary,
            attempts := h.attempts + 1,
            opens := h.opens + 1),
         Result(f, 0, []))
      else
        (h.(files := h.files[name := 0], attempts := h.attempts + 1, opens := h.opens + 1), Result(0, -1, []))
    case AWrite(f, payload) =>
      if f in h.streams && payload.Some? then
        (Append(h, f, payload.value).(writes := h.writes + 1),
         Result(0, if h.streams[f].Writable() then |payload.value| else 0, []))
      else (h.(writes := h.writes + 1), Result(0, -1, []))
    case ARead(f, n) =>
      if f in h.streams then
        var s := h.streams[f];
        if s.Writable() || s.pos > |s.contents| then (h, Result(0, 0, []))
        else
          var k := Min(Min(n, DATA_SIZE), |s.contents| - s.pos);
          (h.(streams := h.streams[f := s.(pos := s.pos + k)]), Result(0, k, s.contents[s.pos..s.pos + k]))
      else (h, Result(0, -1, []))
    case AClose => (h.(closes := h.closes + 1), Result(0, 0, []))
    case AId(id) =>
      ((if h.primary in h.streams then Append(h, h.primary, IdLine(id)) else h).(writes := h.writes + 1),
        Result(0, 0, []))
    case ABad => (h, Result(0, -1, []))
  }

  /** The host after a sequential history of operations, starting from `h`. */
  function Replay(env: Env, h: Host, acts: seq<Act>): Host {
    if acts == [] then h else Exec(env, Replay(env, h, acts[..|acts| - 1]), acts[|acts| - 1]).0
  }

  /** The file map and the stream table describe each other. */
  ghost predicate Consistent(h: Host) {
    && (forall f :: f in h.streams ==> 0 < f <= h.attempts && Opened(h, h.streams[f].name) &&
                                       h.files[h.streams[f].name] == f)
    && (forall n :: Opened(h, n) ==> h.files[n] in h.streams && h.streams[h.files[n]].name == n)
    && (h.primary == 0 || h.primary in h.streams)
    && (h.streams.Keys != {} ==> h.primary != 0)
  }

  lemma OpenConsistent(env: Env, h: Host, name: seq<byte>, mode: seq<byte>)
    requires Consistent(h)
    ensures Consistent(Exec(env, h, AOpen(name, mode)).0)
  {
    if !Opened(h, name) && env.opens(h.attempts) {
      var h' := Exec(env, h, AOpen(name, mode)).0;
      forall f | f in h'.streams
        ensures 0 < f <= h'.attempts && Opened(h', h'.streams[f].name) && h'.files[h'.streams[f].name] == f
      {
      }
    }
  }

  /** Operations that touch one open stream and neither its name nor the file map. */
  lemma StreamConsistent(h: Host, f: int, s: Stream)
    requires Consistent(h) && f in h.streams && s.name == h.streams[f].name
    ensures Consistent(h.(streams := h.streams[f := s]))
  {
  }

  lemma ExecConsistent(env: Env, h: Host, a: Act)
    requires Consistent(h)
    ensures Consistent(Exec(env, h, a).0)
  {
    match a
    case AOpen(name, mode) => OpenConsistent(env, h, name, mode);
    case AWrite(f, payload) =>
      if f in h.streams && payload.Some? { StreamConsistent(h, f, Append(h, f, payload.value).streams[f]); }
    case ARead(f, n) =>
      if f in h.streams { StreamConsistent(h, f, Exec(env, h, a).0.streams[f]); }
    case AId(id) =>
      if h.primary in h.streams { StreamConsistent(h, h.primary, Append(h, h.primary, IdLine(id)).streams[h.primary]); }
    case _ =>
  }

  lemma {:induction false} ReplayConsistent(env: Env, h: Host, acts: seq<Act>)
    requires Consistent(h)
    ensures Consistent(Replay(env, h, acts))
  {
    if acts != [] {
      ReplayConsistent(env, h, acts[..|acts| - 1]);
      ExecConsistent(env, Replay(env, h, acts[..|acts| - 1]), acts[|acts| - 1]);
    }
  }

  /** What later operations can do to a stream that is already open: extend it. It keeps its name
      and mode, its name stays mapped to it, and nothing already in it is lost. */
  ghost predicate Extends(h: Host, h': Host) {
    && (forall f :: f in h.streams ==>
         && f in h'.streams
         && h'.streams[f].name == h.streams[f].name
         && h'.streams[f].mode == h.streams[f].mode
         && h.streams[f].contents <= h'.streams[f].contents)
    && (forall n :: Opened(h, n) ==> n in h'.files && h'.files[n] == h.files[n])
    && (h.primary != 0 ==> h'.primary == h.primary)
  }

  lemma OpenExtends(env: Env, h: Host, name: seq<byte>, mode: seq<byte>)
    requires Consistent(h)
    ensures Extends(h, Exec(env, h, AOpen(name, mode)).0)
  {
  }

  lemma AppendExtends(h: Host, f: int, payload: seq<byte>)
    requires f in h.streams
    ensures Extends(h, Append(h, f, payload))
  {
  }

  lemma ReadExtends(env: Env, h: Host, f: int, n: nat)
    ensures Extends(h, Exec(env, h, ARead(f, n)).0)
  {
  }

  lemma ExecExtends(env: Env, h: Host, a: Act)
    requires Consistent(h)
    ensures Extends(h, Exec(env, h, a).0)
  {
    match a
    case AOpen(name, mode) => OpenExtends(env, h, name, mode);
    case AWrite(f, payload) => if f in h.streams && payload.Some? { AppendExtends(h, f, payload.value); }
    case ARead(f, n) => ReadExtends(env, h, f, n);
    case AId(id) => if h.primary in h.streams { AppendExtends(h, h.primary, IdLine(id)); }
    case _ =>
  }

  /** A distinct name is opened at most once, so no later open ever truncates it: however a
      history goes on, every open stream survives with its contents as a prefix, under the
      handle its name is mapped to. */
  lemma {:induction false} OpenedOnce(env: Env, h: Host, acts: seq<Act>)
    requires Consistent(h)
    ensures Extends(h, Replay(env, h, acts))
  {
    if acts != [] {
      var init, a := acts[..|acts| - 1], acts[|acts| - 1];
      OpenedOnce(env, h, init);
      ReplayConsistent(env, h, init);
      var m := Replay(env, h, init);
      ExecExtends(env, m, a);
      ExtendsTrans(h, m, Exec(env, m, a).0);
    }
  }

  lemma ExtendsTrans(a: Host, b: Host, c: Host)
    requires Extends(a, b) && Extends(b, c)
    ensures Extends(a, c)
  {
  }

  /** The bytes an operation sends to stream `f`, by the handle it names; an id goes to whichever
      stream is primary. */
  function Sent(a: Act, f: int, primary: int): seq<byte> {
    match a
    case AWrite(g, payload) => if g == f && payload.Some? then payload.value else []
    case AId(id) => if primary == f then IdLine(id) else []
    case _ => []
  }

  /** Everything `acts` send to `f`, in history order, when they run from `h`. */
  function AllSent(env: Env, h: Host, acts: seq<Act>, f: int): seq<byte> {
    if acts == [] then []
    else AllSent(env, h, acts[..|acts| - 1], f) + Sent(acts[|acts| - 1], f, Replay(env, h, acts[..|acts| - 1]).primary)
  }

  lemma ExecAppends(env: Env, h: Host, a: Act, f: int)
    requires Consistent(h) && f in h.streams && h.streams[f].Writable()
    ensures var h' := Exec(env, h, a).0;
            f in h'.streams && h'.streams[f].Writable() &&
            h'.streams[f].contents == h.streams[f].contents + Sent(a, f, h.primary)
  {
  }

  /** Conservation: a writable stream ends up holding what it held before, followed by exactly the
      payloads sent to its handle, whole and in history order. */
  lemma {:induction false} Conservation(env: Env, h: Host, acts: seq<Act>, f: int)
    requires Consistent(h) && f in h.streams && h.streams[f].Writable()
    ensures var h' := Replay(env, h, acts);
            f in h'.streams && h'.streams[f].Writable() &&
            h'.streams[f].contents == h.streams[f].contents + AllSent(env, h, acts, f)
  {
    if acts != [] {
      var init, a := acts[..|acts| - 1], acts[|acts| - 1];
      Conservation(env, h, init, f);
      ReplayConsistent(env, h, init);
      ExecAppends(env, Replay(env, h, init), a, f);
    }
  }
}

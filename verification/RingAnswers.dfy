/** What the waves get back over the 32-bit ring: the operation each request is carried out as, the
    handles that opens in different waves return, and the bytes that reads return. */
module RingAnswers {
  import opened Bytes
  import opened Options
  import opened Abi
  import opened Host
  import opened Ring
  import opened RingHistory
  import opened RingRuns
  import opened Ring32
  import opened FileLog
  import opened HostAnswers
  import opened RingFiles

  /** `act` is what the request asks of the host, with the wrappers' caps on texts and sizes. */
  ghost predicate Asks(req: Request, act: Act) {
    match req
    case Fopen(path, mode) => act == AOpen(Clip(path, PATH_SIZE - 1), Clip(mode, MODE_SIZE - 1))
    case FwriteValue(handle, data) =>
      act == AWrite(handle, Some(if |data| <= DATA_SIZE then data else data[..DATA_SIZE]))
    case FwritePtr(handle, _, _) => act.AWrite? && act.handle == handle
    case Fread(handle, size) => act == ARead(handle, if size <= DATA_SIZE then size else DATA_SIZE)
    case WriteId(id) => act == AId(id)
    case Fclose => act == AClose
  }

  /** A wave's call is carried out as the operation it asks for. */
  lemma EntryAsks(c: Config, log: seq<Entry>, i: nat)
    requires i < |log| && EntryOk(c, log, i)
    ensures Asks(log[i].ask.req, log[i].act)
  {
    var req := log[i].ask.req;
    if req.FwriteValue? && |req.data| <= DATA_SIZE { assert req.data[..|req.data|] == req.data; }
  }

  lemma EntryAnswer(c: Config, log: seq<Entry>, i: nat)
    requires i < |log| && EntryOk(c, log, i)
    ensures log[i].res == AnswerAt(c.env, Acts(log), i) && Acts(log)[i] == log[i].act
  {
    ActsAt(log, i);
    HostAtIs(c.env, Acts(log), i);
  }

  /** A completed call of a wave, and where the history has it. */
  lemma CallEntry(c: Config, s: State, w: nat, m: nat) returns (i: nat)
    requires Sequential(c, s) && w < |s.waves| && CallsMatch(s, w) && m < |s.waves[w].calls|
    ensures i < |s.log| && s.log[i].w == w
    ensures s.waves[w].calls[m] == Called(s.log[i].ask, ReplyOf(s.log[i].ask.req, AnswerAt(c.env, Acts(s.log), i)))
    ensures Asks(s.log[i].ask.req, Acts(s.log)[i])
  {
    i := CallIndex(s.log, w, m);
    assert EntryOk(c, s.log, i);
    EntryAsks(c, s.log, i);
    EntryAnswer(c, s.log, i);
  }

  // ---- handles ----------------------------------------------------------------------------

  /** The m-th call of wave w is an open of the file `name` that has returned the handle `f`. */
  ghost predicate GotHandle(s: State, w: nat, m: nat, name: seq<byte>, f: int) {
    && w < |s.waves| && m < |s.waves[w].calls|
    && var call := s.waves[w].calls[m];
       call.ask.req.Fopen? && Clip(call.ask.req.path, PATH_SIZE - 1) == name && call.reply.value == f != 0
  }

  lemma GotIs(c: Config, s: State, w: nat, m: nat, name: seq<byte>, f: int) returns (i: nat)
    requires Sequential(c, s) && GotHandle(s, w, m, name, f) && CallsMatch(s, w)
    ensures i < |Acts(s.log)| && OpensName(c.env, Acts(s.log), i, name) && AnswerAt(c.env, Acts(s.log), i).handle == f
  {
    i := CallEntry(c, s, w, m);
  }

  /** Over the 32-bit ring: a handle that an open returned to a wave is that of the file it named, and two
      opens, of the same wave or of two, return the same handle exactly when they name the same file. */
  lemma HandlesAgree(c: Config, slices: seq<seq<byte>>, sched: seq<Actor>, v: nat, m: nat, a: seq<byte>, f: int,
                     w: nat, n: nat, b: seq<byte>, g: int)
    requires c.m == 0 && Launch(c, slices) && c.limit <= MAX_HOLDERS
    requires var s := RunAll(In32(c), Init(In32(c), slices), sched);
             GotHandle(s, v, m, a, f) && GotHandle(s, w, n, b, g)
    ensures HandleOf(RunAll(In32(c), Init(In32(c), slices), sched).host, a, f)
    ensures f == g <==> a == b
  {
    Linearizable32(c, slices, sched);
    var s := RunAll(In32(c), Init(In32(c), slices), sched);
    var acts := Acts(s.log);
    var i := GotIs(c, s, v, m, a, f);
    var j := GotIs(c, s, w, n, b, g);
    SameNameSameHandle(c.env, acts, i, j);
    HandleStays(c.env, acts, i, |acts|);
    HostAtIs(c.env, acts, |acts|);
    assert acts[..|acts|] == acts;
  }

  // ---- reads ------------------------------------------------------------------------------

  predicate ReadOf(e: Entry, f: int) { e.ask.req.Fread? && e.ask.req.handle == f }

  /** The bytes the replies to reads of `f` hand to their waves, in history order, from entry i on. */
  function RepliedData(log: seq<Entry>, f: int, i: nat, n: nat): seq<byte>
    requires i <= n <= |log|
  {
    if n == i then []
    else
      var e := log[n - 1];
      RepliedData(log, f, i, n - 1) + if ReadOf(e, f) then ReplyOf(e.ask.req, e.res).data else []
  }

  /** What those calls asked for, each at most the slot's data buffer. */
  function RequestedSize(log: seq<Entry>, f: int, i: nat, n: nat): nat
    requires i <= n <= |log|
  {
    if n == i then 0
    else
      var e := log[n - 1];
      RequestedSize(log, f, i, n - 1) +
      if !ReadOf(e, f) then 0 else if e.ask.req.size <= DATA_SIZE then e.ask.req.size else DATA_SIZE
  }

  lemma OneRead(c: Config, log: seq<Entry>, f: int, i: nat)
    requires i < |log| && EntryOk(c, log, i)
    ensures Acts(log)[i] == log[i].act && (ReadsFile(log[i].act, f) <==> ReadOf(log[i], f))
    ensures ReadOf(log[i], f) ==>
              && ReplyOf(log[i].ask.req, log[i].res).data == AnswerAt(c.env, Acts(log), i).data
              && log[i].act.size == Min(log[i].ask.req.size, DATA_SIZE)
  {
    EntryAsks(c, log, i);
    EntryAnswer(c, log, i);
  }

  lemma {:induction false} RepliesAre(c: Config, log: seq<Entry>, f: int, i: nat, n: nat)
    requires i <= n <= |log| && forall j :: 0 <= j < |log| ==> EntryOk(c, log, j)
    ensures RepliedData(log, f, i, n) == DataRead(c.env, Acts(log), f, i, n)
    ensures RequestedSize(log, f, i, n) == SizesAsked(Acts(log), f, i, n)
  {
    if n > i {
      RepliesAre(c, log, f, i, n - 1);
      OneRead(c, log, f, n - 1);
    }
  }

  /** Over the 32-bit ring: the bytes handed to all the waves that read from a file opened for reading, put
      together in history order, are the beginning of what the file held: all they asked for, or all of it. */
  lemma ReadsDeliver(c: Config, slices: seq<seq<byte>>, sched: seq<Actor>, k: nat, f: int)
    requires c.m == 0 && Launch(c, slices) && c.limit <= MAX_HOLDERS
    requires var acts := Acts(RunAll(In32(c), Init(In32(c), slices), sched).log);
             OpensAs(c.env, acts, k, f) && !Writes(acts[k].mode)
    ensures var log := RunAll(In32(c), Init(In32(c), slices), sched).log;
            k < |log| && log[k].act.AOpen? &&
            var all := InitialContents(c.env, log[k].act.name, log[k].act.mode);
            RepliedData(log, f, k + 1, |log|) == all[..Min(|all|, RequestedSize(log, f, k + 1, |log|))]
  {
    Linearizable32(c, slices, sched);
    var log := RunAll(In32(c), Init(In32(c), slices), sched).log;
    ActsAt(log, k);
    ReadsInOrder(c.env, Acts(log), k, f, |log|);
    RepliesAre(c, log, f, k + 1, |log|);
  }

  // ---- writes -----------------------------------------------------------------------------

  predicate IsWrite(req: Request) { req.FwriteValue? || req.FwritePtr? }

  /** Over the 32-bit ring: what a write's reply hands to its wave is by how many bytes the file of its handle
      grew when the host carried it out, or -1 if there was no such file or no record to read. */
  lemma WriteReplies(c: Config, slices: seq<seq<byte>>, sched: seq<Actor>, w: nat, m: nat) returns (i: nat)
    requires c.m == 0 && Launch(c, slices) && c.limit <= MAX_HOLDERS
    requires var s := RunAll(In32(c), Init(In32(c), slices), sched);
             w < |s.waves| && m < |s.waves[w].calls| && IsWrite(s.waves[w].calls[m].ask.req)
    ensures var s := RunAll(In32(c), Init(In32(c), slices), sched);
            var acts, call := Acts(s.log), s.waves[w].calls[m];
            && i < |acts| && s.log[i].w == w && acts[i].AWrite? && acts[i].handle == call.ask.req.handle
            && var h, h', f := HostAt(c.env, acts, i), HostAt(c.env, acts, i + 1), acts[i].handle;
               if f in h.streams && acts[i].payload.Some?
               then f in h'.streams && call.reply.value == |h'.streams[f].contents| - |h.streams[f].contents|
               else call.reply.value == -1 && h'.streams == h.streams
  {
    Linearizable32(c, slices, sched);
    var s := RunAll(In32(c), Init(In32(c), slices), sched);
    i := CallEntry(c, s, w, m);
    WriteAnswers(c.env, Acts(s.log), i);
  }

  // ---- ids --------------------------------------------------------------------------------

  /** The ids the waves passed to their calls, in history order. */
  function IdsAsked(log: seq<Entry>): seq<int> {
    if log == [] then []
    else IdsAsked(log[..|log| - 1]) + if log[|log| - 1].ask.req.WriteId? then [log[|log| - 1].ask.req.id] else []
  }

  /** The ids the host writes are the ones the waves asked for. */
  lemma {:induction false} IdsAreAsked(c: Config, log: seq<Entry>)
    requires forall j :: 0 <= j < |log| ==> EntryOk(c, log, j)
    ensures IdsWritten(Acts(log)) == IdsAsked(log)
  {
    if log != [] {
      var init := log[..|log| - 1];
      forall j | 0 <= j < |init| ensures EntryOk(c, init, j) {
        assert EntryOk(c, log, j) && init[..j] == log[..j];
      }
      IdsAreAsked(c, init);
      assert EntryOk(c, log, |log| - 1);
      EntryAsks(c, log, |log| - 1);
      assert (Acts(init) + [log[|log| - 1].act])[..|init|] == Acts(init);
    }
  }

  /** So the primary gives back, line by line, every id a wave asked to have written, each once, in history
      order, under the conditions of `PrimaryReadsBack`. */
  lemma AskedIdsReadBack(c: Config, slices: seq<seq<byte>>, sched: seq<Actor>) returns (k: nat)
    requires c.m == 0 && Launch(c, slices) && c.limit <= MAX_HOLDERS
    requires var s := RunAll(In32(c), Init(In32(c), slices), sched);
             && IdsAsked(s.log) != [] && (forall w: nat :: OpensFirst(CallsOf(s.log, w)))
             && forall a :: a in Acts(s.log) && a.AWrite? && a.handle == s.host.primary && a.payload.Some? ==>
                  Foreign(Payload(a.payload.value))
    ensures var s := RunAll(In32(c), Init(In32(c), slices), sched);
            FirstOpens(c.env, Acts(s.log), k) &&
            var open := Acts(s.log)[k];
            var before := InitialContents(c.env, open.name, open.mode);
            Writes(open.mode) && Whole(before) ==>
              s.host.primary in s.host.streams &&
              ReadIds(s.host.streams[s.host.primary].contents) == ReadIds(before) + IdsAsked(s.log)
  {
    Linearizable32(c, slices, sched);
    IdsAreAsked(c, RunAll(In32(c), Init(In32(c), slices), sched).log);
    k := PrimaryReadsBack(c, slices, sched);
  }
}

/** What the ideal ring computes: a sequential history of the requests, in which every wave's calls
    appear once, in its own order, with the replies it reads. */
module RingHistory {
  import opened Bytes
  import opened Arith
  import opened Options
  import opened Abi
  import opened Host
  import opened Ring
  import opened RingSafety

  function Acts(log: seq<Entry>): (r: seq<Act>)
    ensures |r| == |log|
  {
    if log == [] then [] else Acts(log[..|log| - 1]) + [log[|log| - 1].act]
  }

  /** Wave w's part of the history: what it asked and what the answer stands for. */
  function CallsOf(log: seq<Entry>, w: nat): seq<Called> {
    if log == [] then []
    else
      var e := log[|log| - 1];
      CallsOf(log[..|log| - 1], w) + (if e.w == w then [Called(e.ask, ReplyOf(e.ask.req, e.res))] else [])
  }

  lemma HistoryAppend(log: seq<Entry>, e: Entry)
    ensures Acts(log + [e]) == Acts(log) + [e.act]
    ensures forall w: nat :: CallsOf(log + [e], w) == CallsOf(log, w) +
                             (if e.w == w then [Called(e.ask, ReplyOf(e.ask.req, e.res))] else [])
  {
    assert (log + [e])[..|log + [e]| - 1] == log;
  }

  lemma {:induction false} CallsPrefix(log: seq<Entry>, i: nat, w: nat)
    requires i <= |log|
    ensures CallsOf(log[..i], w) <= CallsOf(log, w)
  {
    if i < |log| {
      CallsPrefix(log[..|log| - 1], i, w);
      assert log[..|log| - 1][..i] == log[..i];
    } else {
      assert log[..i] == log;
    }
  }

  /** The service thread has executed the request wave w is waiting for. */
  ghost predicate Answered(s: State, w: nat)
    requires |s.slots| == NSLOTS && w < |s.waves|
  {
    var pc := s.waves[w].pc;
    || (pc.Wait? && (s.slots[pc.pos % NSLOTS].status == 2 || s.cpu == Finish(pc.pos % NSLOTS)))
    || pc.Take? || pc.Clear? || pc.Load? || pc.Publish?
  }

  /** A request whose record, if it names one, lies in its own wave's slice. */
  ghost predicate SelfContained(c: Config, w: nat, req: Request) {
    req.FwritePtr? ==> c.base > 0 && c.base + w * c.stride <= req.ptr &&
                       req.ptr + req.size <= c.base + w * c.stride + c.stride
  }

  /** The contents of wave w's slot and its history, at each point of a call. */
  ghost predicate DataOk(c: Config, s: State, w: nat)
    requires Shape(c, s) && w < |s.waves|
  {
    var wave := s.waves[w];
    var pc := wave.pc;
    var past := CallsOf(s.log, w);
    && (!Answered(s, w) ==> past == wave.calls)
    && (pc.Fill? ==>
         && pc.left.Valid() && pc.j <= |Stores(pc.ask.req)| && AllFit(Stores(pc.ask.req))
         && s.slots[pc.pos % NSLOTS].f == ApplyAll(pc.left, Stores(pc.ask.req)[..pc.j]))
    && (pc.Wait? && !Answered(s, w) ==> Decode(s.slots[pc.pos % NSLOTS].f) == Meaning(pc.ask.req))
    && ((pc.Wait? && Answered(s, w)) || pc.Take? ==>
         past == wave.calls + [Called(pc.ask, ReadReply(pc.ask.req, s.slots[pc.pos % NSLOTS].f))])
    && (pc.Clear? || pc.Load? || pc.Publish? ==> past == wave.calls + [Called(pc.ask, pc.rep)])
  }

  /** What an operation recorded with a request has to do with it, whatever memory holds. */
  ghost predicate Means(c: Config, ask: Asked) {
    if ask.req.FwritePtr? then
      ask.want.AWrite? && ask.want.handle == ask.req.handle &&
        (ask.want.payload.Some? ==> |ask.want.payload.value| == ask.req.size)
    else ask.want == Resolve(c, [], Meaning(ask.req))
  }

  /** The host performs what was asked; of a write by address, memory only decides the bytes. */
  ghost predicate Performs(ask: Asked, act: Act) {
    if ask.req.FwritePtr? then act.AWrite? && act.handle == ask.req.handle else act == ask.want
  }

  /** While a self-contained call is under way, the record it names is the one it was made with. */
  ghost predicate WantOk(c: Config, s: State, w: nat)
    requires w < |s.waves|
  {
    var pc := s.waves[w].pc;
    !pc.Run? ==>
      && Means(c, pc.ask)
      && (SelfContained(c, w, pc.ask.req) ==> pc.ask.want == Resolve(c, s.slices, Meaning(pc.ask.req)))
  }

  /** The log is a legal sequential execution of the host, ending in its present state. */
  ghost predicate LogOk(c: Config, s: State) {
    && s.host == Replay(c.env, Fresh, Acts(s.log))
    && (forall i :: 0 <= i < |s.log| ==> EntryOk(c, s.log, i))
  }

  /** `res` is the host's answer to `a` after the operations `acts`. */
  ghost predicate Answers(env: Env, acts: seq<Act>, a: Act, res: Result) {
    res == Exec(env, Replay(env, Fresh, acts), a).1
  }

  ghost predicate EntryOk(c: Config, log: seq<Entry>, i: nat)
    requires i < |log|
  {
    Follows(c, log[..i], log[i])
  }

  /** `e` is a legal next entry after the history `log`. */
  ghost predicate Follows(c: Config, log: seq<Entry>, e: Entry) {
    && Answers(c.env, Acts(log), e.act, e.res)
    && Means(c, e.ask) && Performs(e.ask, e.act)
    && (SelfContained(c, e.w, e.ask.req) ==> e.act == e.ask.want)
  }

  ghost predicate SlicesOk(c: Config, s: State) {
    c.stride > 0 && (forall w :: 0 <= w < |s.slices| ==> |s.slices[w]| == c.stride)
  }

  ghost predicate History(c: Config, s: State) {
    && Safe(c, s)
    && SlicesOk(c, s)
    && (forall w :: 0 <= w < |s.waves| ==> DataOk(c, s, w) && WantOk(c, s, w))
    && LogOk(c, s)
  }

  // ---- memory -----------------------------------------------------------------------------

  lemma OwnByte(c: Config, slices: seq<seq<byte>>, w: nat, a: nat)
    requires w < |slices| && |slices[w]| == c.stride && c.stride > 0
    requires w * c.stride <= a < w * c.stride + c.stride
    ensures ByteAt(c.stride, slices, a) == slices[w][a - w * c.stride]
  {
    DivUnique(w, a - w * c.stride, c.stride);
  }

  /** Reading a record inside slice w reads that slice and nothing else. */
  lemma ReadOwn(c: Config, slices: seq<seq<byte>>, w: nat, p: int, n: nat)
    requires w < |slices| && |slices[w]| == c.stride && c.stride > 0 && c.base > 0
    requires c.base + w * c.stride <= p && p + n <= c.base + w * c.stride + c.stride
    ensures var off := p - c.base - w * c.stride;
            ReadMem(c, slices, p, n) == Some(slices[w][off..off + n])
  {
    MulMono(w + 1, |slices|, c.stride);
    BytesOwn(c, slices, w, p - c.base, n);
  }

  lemma BytesOwn(c: Config, slices: seq<seq<byte>>, w: nat, a: nat, n: nat)
    requires w < |slices| && |slices[w]| == c.stride && c.stride > 0
    requires w * c.stride <= a && a + n <= w * c.stride + c.stride
    ensures BytesFrom(c.stride, slices, a, n) == slices[w][a - w * c.stride..a - w * c.stride + n]
  {
    var r := BytesFrom(c.stride, slices, a, n);
    forall k | 0 <= k < n ensures r[k] == slices[w][a - w * c.stride + k] {
      OwnByte(c, slices, w, a + k);
    }
  }

  lemma ResolveOwn(c: Config, a: seq<seq<byte>>, b: seq<seq<byte>>, w: nat, req: Request)
    requires w < |a| == |b| && |a[w]| == c.stride && c.stride > 0 && a[w] == b[w]
    requires SelfContained(c, w, req)
    ensures Resolve(c, a, Meaning(req)) == Resolve(c, b, Meaning(req))
  {
    if req.FwritePtr? {
      ReadOwn(c, a, w, req.ptr, req.size);
      ReadOwn(c, b, w, req.ptr, req.size);
    }
  }

  // ---- preservation -----------------------------------------------------------------------

  /** A wave untouched by a step, whose slot (if it is past the gate) is untouched too. */
  lemma DataFrame(c: Config, s: State, s': State, v: nat)
    requires Shape(c, s) && Shape(c, s') && v < |s.waves| == |s'.waves|
    requires DataOk(c, s, v)
    requires s'.log == s.log && s'.cpu == s.cpu && s'.waves[v] == s.waves[v]
    requires Past(s.waves[v]) ==> s'.slots[s.waves[v].pc.pos % NSLOTS] == s.slots[s.waves[v].pc.pos % NSLOTS]
    ensures DataOk(c, s', v)
  {
  }

  /** A wave step past the gate touches nobody else's data. */
  lemma OthersKeep(c: Config, s: State, w: nat, v: nat)
    requires History(c, s) && w < |s.waves| && v < |s.waves| && v != w
    requires w in s.resident && !s.waves[w].pc.Run?
    ensures DataOk(c, WaveStep(c, s, w), v) && WantOk(c, WaveStep(c, s, w), v)
  {
    var s' := WaveStep(c, s, w);
    assert DataOk(c, s, v) && WantOk(c, s, v) && TicketOk(s, v) && TicketOk(s, w);
    assert SlotOk(s, s.waves[w].pc.pos % NSLOTS);
    DataFrame(c, s, s', v);
  }

  lemma StoreKeeps(c: Config, s: State, w: nat)
    requires Shape(c, s) && w < |s.waves| && DataOk(c, s, w) && w in s.resident
    requires s.waves[w].pc.Fill? && s.waves[w].pc.j < |Stores(s.waves[w].pc.ask.req)|
    ensures DataOk(c, WaveStep(c, s, w), w)
  {
    var pc := s.waves[w].pc;
    var sts := Stores(pc.ask.req);
    assert sts[..pc.j + 1][..pc.j] == sts[..pc.j];
  }

  lemma FillKeeps(c: Config, s: State, w: nat)
    requires History(c, s) && w < |s.waves| && w in s.resident && s.waves[w].pc.Fill?
    ensures DataOk(c, WaveStep(c, s, w), w)
  {
    assert DataOk(c, s, w) && TicketOk(s, w);
    var pc := s.waves[w].pc;
    var sts := Stores(pc.ask.req);
    if pc.j < |sts| {
      StoreKeeps(c, s, w);
    } else {
      assert sts[..pc.j] == sts;
      MarshalRoundTrip(pc.ask.req, pc.left);
      assert s.cpu != Finish(pc.pos % NSLOTS);
    }
  }

  lemma GateKeeps(c: Config, s: State, w: nat)
    requires Shape(c, s) && w < |s.waves| && DataOk(c, s, w) && w in s.resident && s.waves[w].pc.Gate?
    ensures DataOk(c, WaveStep(c, s, w), w)
  {
    StoresFit(s.waves[w].pc.ask.req);
    assert Stores(s.waves[w].pc.ask.req)[..0] == [];
  }

  lemma PublishKeeps(c: Config, s: State, w: nat)
    requires Shape(c, s) && w < |s.waves| && DataOk(c, s, w) && w in s.resident && s.waves[w].pc.Publish?
    ensures DataOk(c, WaveStep(c, s, w), w)
  {
  }

  lemma AnswerKeeps(c: Config, s: State, w: nat)
    requires Shape(c, s) && w < |s.waves| && DataOk(c, s, w) && w in s.resident
    requires s.waves[w].pc.Wait? || s.waves[w].pc.Take? || s.waves[w].pc.Clear? || s.waves[w].pc.Load?
    ensures DataOk(c, WaveStep(c, s, w), w)
  {
  }

  /** A step inside a call leaves memory, host, log and service thread alone. */
  lemma CallStepFrame(c: Config, s: State, w: nat)
    requires Shape(c, s) && w < |s.waves| && !s.waves[w].pc.Run?
    ensures var s' := WaveStep(c, s, w);
            s'.slices == s.slices && s'.host == s.host && s'.log == s.log && s'.cpu == s.cpu
  {
  }

  lemma OwnKeeps(c: Config, s: State, w: nat)
    requires History(c, s) && w < |s.waves| && w in s.resident && !s.waves[w].pc.Run?
    ensures DataOk(c, WaveStep(c, s, w), w) && WantOk(c, WaveStep(c, s, w), w)
  {
    assert WantOk(c, s, w);
    assert DataOk(c, s, w);
    match s.waves[w].pc
    case Gate(_, _) => GateKeeps(c, s, w);
    case Fill(_, _, _, _) => FillKeeps(c, s, w);
    case Publish(_, _, _, _) => PublishKeeps(c, s, w);
    case _ => AnswerKeeps(c, s, w);
  }

  lemma CallStepKeeps(c: Config, s: State, w: nat)
    requires History(c, s) && w < |s.waves| && w in s.resident && !s.waves[w].pc.Run?
    ensures History(c, WaveStep(c, s, w))
  {
    var s' := WaveStep(c, s, w);
    StepSafe(c, s, AWave(w));
    CallStepFrame(c, s, w);
    forall v | 0 <= v < |s'.waves| ensures DataOk(c, s', v) && WantOk(c, s', v) {
      if v != w { OthersKeep(c, s, w, v); } else { OwnKeeps(c, s, w); }
    }
  }

  lemma KernelKeeps(c: Config, s: State, w: nat)
    requires History(c, s) && w < |s.waves| && w in s.resident && s.waves[w].pc.Run?
    ensures History(c, WaveStep(c, s, w))
  {
    var s' := WaveStep(c, s, w);
    StepSafe(c, s, AWave(w));
    forall v | 0 <= v < |s'.waves| ensures DataOk(c, s', v) && WantOk(c, s', v) {
      assert DataOk(c, s, v) && WantOk(c, s, v);
      if v != w {
        DataFrame(c, s, s', v);
        var pc := s.waves[v].pc;
        if !pc.Run? && SelfContained(c, v, pc.ask.req) {
          ResolveOwn(c, s.slices, s'.slices, v, pc.ask.req);
        }
      }
    }
  }

  lemma ServeKeeps(c: Config, s: State)
    requires History(c, s) && s.cpu.Serve?
    ensures History(c, CpuStep(c, s))
  {
    var s' := CpuStep(c, s);
    var i := s.cpu.i;
    StepSafe(c, s, ACpu);
    assert SlotOk(s, i);
    var u := s.owner[s.slots[i].turn];
    assert TicketOk(s, u) && DataOk(c, s, u) && WantOk(c, s, u);
    ServeEntry(c, s, u);
    forall v | 0 <= v < |s'.waves| ensures DataOk(c, s', v) && WantOk(c, s', v) {
      assert DataOk(c, s, v) && WantOk(c, s, v) && TicketOk(s, v);
      if v == u {
        ServedData(c, s, u);
      } else if Past(s.waves[v]) {
        GateExclusive(c, s, u, v);
      }
    }
  }

  /** The wave being served sees its own reply in its slot. */
  lemma ServedData(c: Config, s: State, u: nat)
    requires Safe(c, s) && s.cpu.Serve? && u < |s.waves| && DataOk(c, s, u)
    requires s.waves[u].pc.Wait? && s.waves[u].pc.pos % NSLOTS == s.cpu.i && s.slots[s.cpu.i].status == 1
    requires s.slots[s.cpu.i].user == u && s.slots[s.cpu.i].asked == s.waves[u].pc.ask
    requires s.waves[u].pc.pos == s.slots[s.cpu.i].turn
    ensures DataOk(c, CpuStep(c, s), u)
  {
    var slot := s.slots[s.cpu.i];
    var req := s.waves[u].pc.ask.req;
    var act := Resolve(c, s.slices, Decode(slot.f));
    var (host, res) := Exec(c.env, s.host, act);
    HistoryAppend(s.log, Entry(slot.user, slot.turn, slot.asked, act, res));
    assert !Answered(s, u);
    ReplyRoundTrip(req, slot.f, res);
  }

  lemma OldEntry(c: Config, log: seq<Entry>, e: Entry, k: nat)
    requires k < |log| && EntryOk(c, log, k)
    ensures EntryOk(c, log + [e], k)
  {
    assert (log + [e])[..k] == log[..k];
  }

  /** Appending a legal next entry keeps the history legal. */
  lemma LogAppend(c: Config, log: seq<Entry>, e: Entry)
    requires forall i :: 0 <= i < |log| ==> EntryOk(c, log, i)
    requires Follows(c, log, e)
    ensures forall i :: 0 <= i < |log| + 1 ==> EntryOk(c, log + [e], i)
  {
    assert (log + [e])[..|log|] == log;
    forall k | 0 <= k < |log| ensures EntryOk(c, log + [e], k) { OldEntry(c, log, e, k); }
  }

  lemma ReplayAppend(c: Config, log: seq<Entry>, e: Entry)
    ensures Replay(c.env, Fresh, Acts(log + [e])) == Exec(c.env, Replay(c.env, Fresh, Acts(log)), e.act).0
  {
    HistoryAppend(log, e);
    assert (Acts(log) + [e.act])[..|Acts(log)|] == Acts(log);
  }

  lemma ServeEntry(c: Config, s: State, u: nat)
    requires Safe(c, s) && s.cpu.Serve? && u < |s.waves| && DataOk(c, s, u) && WantOk(c, s, u) && LogOk(c, s)
    requires s.waves[u].pc.Wait? && s.waves[u].pc.pos % NSLOTS == s.cpu.i && s.slots[s.cpu.i].status == 1
    requires s.slots[s.cpu.i].user == u && s.slots[s.cpu.i].asked == s.waves[u].pc.ask
    ensures LogOk(c, CpuStep(c, s))
    ensures forall v: nat :: v != u ==> CallsOf(CpuStep(c, s).log, v) == CallsOf(s.log, v)
  {
    var s' := CpuStep(c, s);
    var e := s'.log[|s.log|];
    assert s'.log == s.log + [e];
    HistoryAppend(s.log, e);
    assert !Answered(s, u);
    LogAppend(c, s.log, e);
    ReplayAppend(c, s.log, e);
  }

  lemma ScanKeeps(c: Config, s: State)
    requires History(c, s) && !s.cpu.Serve?
    ensures History(c, CpuStep(c, s))
  {
    var s' := CpuStep(c, s);
    StepSafe(c, s, ACpu);
    forall v | 0 <= v < |s'.waves| ensures DataOk(c, s', v) && WantOk(c, s', v) {
      assert DataOk(c, s, v) && WantOk(c, s, v) && TicketOk(s, v);
    }
  }

  lemma DispatchKeeps(c: Config, s: State, w: nat)
    requires History(c, s) && w < |s.waves|
    ensures History(c, Admit(c, s, w)) && History(c, Retire(c, s, w))
  {
    StepSafe(c, s, AAdmit(w));
    StepSafe(c, s, ARetire(w));
    forall v | 0 <= v < |s.waves|
      ensures DataOk(c, Admit(c, s, w), v) && WantOk(c, Admit(c, s, w), v) && DataOk(c, Retire(c, s, w), v) &&
              WantOk(c, Retire(c, s, w), v)
    {
      assert DataOk(c, s, v) && WantOk(c, s, v);
    }
  }

  lemma CpuKeeps(c: Config, s: State)
    requires History(c, s)
    ensures History(c, CpuStep(c, s))
  {
    if s.cpu.Serve? { ServeKeeps(c, s); } else { ScanKeeps(c, s); }
  }

  lemma WaveKeeps(c: Config, s: State, w: nat)
    requires History(c, s) && w < |s.waves|
    ensures History(c, WaveStep(c, s, w))
  {
    if w in s.resident {
      if s.waves[w].pc.Run? { KernelKeeps(c, s, w); } else { CallStepKeeps(c, s, w); }
    }
  }

  lemma StepHistory(c: Config, s: State, a: Actor)
    requires History(c, s)
    ensures History(c, Step(c, s, a))
  {
    if a == ACpu {
      CpuKeeps(c, s);
    } else if a.w >= |s.waves| {
      assert Step(c, s, a) == s;
    } else if a.AWave? {
      WaveKeeps(c, s, a.w);
    } else {
      DispatchKeeps(c, s, a.w);
    }
  }
}

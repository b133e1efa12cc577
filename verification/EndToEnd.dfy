/** From basic-block increments on the device to per-wave files on the host, through the ring. */
module EndToEnd {
  import opened Bytes
  import opened Options
  import opened Abi
  import opened Host
  import opened Ring
  import opened RingSafety
  import opened RingHistory
  import opened RingRuns
  import opened Ring32
  import opened RingWork
  import opened RingProgress
  import opened Report
  import opened BbCounter
  import opened WaveId

  /** A counting run: the layout, each wave's device id and the blocks it enters. */
  datatype Job = Job(l: Layout, ids: seq<nat>, incs: seq<seq<nat>>)
  {
    predicate Valid(n: nat, stride: nat) {
      && Fits(l, stride) && |ids| == n && |incs| == n
      && (forall w :: 0 <= w < n ==> ids[w] == w && w < WORD)
      && (forall w, i :: 0 <= w < n && 0 <= i < |incs[w]| ==> incs[w][i] < l.nbb)
    }
  }

  ghost predicate Counts(c: Config, j: Job) {
    && c.base > 0 && c.stride > 0 && j.Valid(|c.progs|, c.stride)
    && (forall w :: 0 <= w < |c.progs| ==> Counter(c, j, w))
    && (forall k: nat :: c.env.opens(k))
  }

  /** Wave w runs the counting probes. */
  ghost predicate Counter(c: Config, j: Job, w: nat)
    requires w < |c.progs| && w < |j.ids| && w < |j.incs|
  {
    && c.progs[w].len == |j.incs[w]| + 4
    && forall k: nat, s: seq<byte>, calls: seq<Called> ::
         c.progs[w].act(k, s, calls) == BbAct(j.l, c.base + j.ids[w] * c.stride, j.ids[w], j.incs[w], k, s, calls)
  }

  ghost predicate WaveProgress(c: Config, j: Job, s: State, w: nat)
    requires w < |s.waves| && w < |s.slices| && w < |j.ids| && w < |j.incs|
  {
    Progress(j.l, c.base + w * c.stride, j.ids[w], j.incs[w], s.slices[w], s.waves[w])
  }

  ghost predicate AllProgress(c: Config, j: Job, s: State) {
    |s.waves| == |s.slices| == |c.progs| && |j.ids| == |j.incs| == |c.progs| &&
    forall w :: 0 <= w < |s.waves| ==> WaveProgress(c, j, s, w)
  }

  // ---- every step keeps every wave on its program -----------------------------------------

  lemma KernelProgress(c: Config, j: Job, s: State, w: nat)
    requires Counts(c, j) && Shape(c, s) && SlicesOk(c, s) && w < |s.waves| && s.waves[w].pc.Run?
    requires WaveProgress(c, j, s, w)
    ensures WaveProgress(c, j, KernelStep(c, s, w), w)
  {
    var wave := s.waves[w];
    var at, id, incs := c.base + w * c.stride, j.ids[w], j.incs[w];
    assert Counter(c, j, w);
    if wave.k < |incs| + 4 {
      var a := BbAct(j.l, at, id, incs, wave.k, s.slices[w], wave.calls);
      assert c.progs[w].act(wave.k, s.slices[w], wave.calls) == a;
      if a.Local? {
        LocalProgress(j.l, at, id, incs, s.slices[w], wave);
      } else {
        CallProgress(c, j.l, w, id, incs, s.slices, wave, TakeTicket(c, s, w, a.req).waves[w].pc);
      }
    }
  }

  /** Inside a call only the program counter moves; at its end the call is recorded. */
  lemma InCallProgress(c: Config, j: Job, s: State, w: nat)
    requires Shape(c, s) && w < |s.waves| && w < |j.ids| && w < |j.incs| && !s.waves[w].pc.Run? && w in s.resident
    requires WaveProgress(c, j, s, w)
    ensures WaveProgress(c, j, WaveStep(c, s, w), w)
  {
    var incs, k := j.incs[w], s.waves[w].k;
    if k >= |incs| {
      assert incs[..Min(k, |incs|)] == incs[..Min(k + 1, |incs|)];
    }
  }

  lemma OthersProgress(c: Config, j: Job, s: State, a: Actor, v: nat)
    requires Shape(c, s) && v < |s.waves| && v < |j.ids| && v < |j.incs| && WaveProgress(c, j, s, v)
    requires a != AWave(v)
    ensures WaveProgress(c, j, Step(c, s, a), v)
  {
    assert Step(c, s, a).waves[v] == s.waves[v] && Step(c, s, a).slices[v] == s.slices[v];
  }

  lemma StepProgress(c: Config, j: Job, s: State, a: Actor)
    requires Counts(c, j) && History(c, s) && AllProgress(c, j, s)
    ensures AllProgress(c, j, Step(c, s, a))
  {
    StepHistory(c, s, a);
    forall v | 0 <= v < |s.waves| ensures WaveProgress(c, j, Step(c, s, a), v) {
      assert WaveProgress(c, j, s, v);
      if a != AWave(v) {
        OthersProgress(c, j, s, a, v);
      } else if v in s.resident {
        if s.waves[v].pc.Run? { KernelProgress(c, j, s, v); } else { InCallProgress(c, j, s, v); }
      }
    }
  }

  ghost predicate Zeroed(slices: seq<seq<byte>>) {
    forall w, i :: 0 <= w < |slices| && 0 <= i < |slices[w]| ==> slices[w][i] == 0
  }

  lemma InitProgress(c: Config, j: Job, slices: seq<seq<byte>>)
    requires Counts(c, j) && Launch(c, slices) && Zeroed(slices)
    ensures AllProgress(c, j, Init(c, slices))
  {
    forall w | 0 <= w < |c.progs| ensures WaveProgress(c, j, Init(c, slices), w) {
      assert j.incs[w][..Min(0, |j.incs[w]|)] == [];
    }
  }

  lemma {:induction false} RunProgress(c: Config, j: Job, slices: seq<seq<byte>>, sched: seq<Actor>)
    requires c.m == 0 && Counts(c, j) && Launch(c, slices) && Zeroed(slices)
    ensures AllProgress(c, j, RunAll(c, Init(c, slices), sched))
  {
    InitProgress(c, j, slices);
    if sched != [] {
      var init := sched[..|sched| - 1];
      RunProgress(c, j, slices, init);
      Reachable(c, slices, init);
      StepProgress(c, j, RunAll(c, Init(c, slices), init), sched[|sched| - 1]);
    }
  }

  // ---- reading the files off the history --------------------------------------------------

  /** A finished wave's part of the history: its open, then its write to the handle the open
      returned. */
  ghost predicate WaveLog(c: Config, j: Job, log: seq<Entry>, w: nat)
    requires w < |j.ids| && w < |j.incs|
  {
    var past := CallsOf(log, w);
    && |past| == 2
    && IsOpenAsk(past[0].ask, j.ids[w])
    && past[1].ask == WriteAsk(j.l, c.base + w * c.stride, j.incs[w], past[0].reply.value)
  }

  ghost predicate FullLog(c: Config, j: Job, log: seq<Entry>) {
    && Counts(c, j)
    && (forall w :: 0 <= w < |c.progs| ==> WaveLog(c, j, log, w))
    && (forall i :: 0 <= i < |log| ==> EntryOk(c, log, i) && log[i].w < |c.progs|)
  }

  ghost function HostAt(c: Config, log: seq<Entry>, i: nat): Host
    requires i <= |log|
  {
    Replay(c.env, Fresh, Acts(log[..i]))
  }

  /** What the host holds for wave w after the first i entries. */
  ghost predicate FileAt(c: Config, j: Job, log: seq<Entry>, i: nat, w: nat)
    requires i <= |log| && w < |j.ids| && w < |j.incs|
  {
    var m := |CallsOf(log[..i], w)|;
    var h := HostAt(c, log, i);
    var past := CallsOf(log, w);
    var name := FileName(j.ids[w]);
    && m <= 2 <= |past|
    && (m == 0 ==> name !in h.files)
    && (m >= 1 ==>
         && name in h.files && h.files[name] == past[0].reply.value
         && h.files[name] in h.streams
         && h.streams[h.files[name]] ==
            Stream(name, ['w' as int], if m == 1 then [] else Text(FinalCounts(j.l, j.incs[w])), 0))
  }

  /** The host knows no other files than the waves'. */
  ghost predicate OnlyWaves(j: Job, h: Host) {
    forall name :: name in h.files ==> OfWave(j, name)
  }

  ghost predicate OfWave(j: Job, name: seq<byte>) { exists w :: 0 <= w < |j.ids| && name == FileName(j.ids[w]) }

  ghost predicate FilesAt(c: Config, j: Job, log: seq<Entry>, i: nat)
    requires i <= |log| && |j.ids| == |j.incs| == |c.progs|
  {
    && Consistent(HostAt(c, log, i)) && OnlyWaves(j, HostAt(c, log, i))
    && (forall w :: 0 <= w < |c.progs| ==> FileAt(c, j, log, i, w))
  }

  lemma HostNext(c: Config, log: seq<Entry>, i: nat)
    requires i < |log|
    ensures HostAt(c, log, i + 1) == Exec(c.env, HostAt(c, log, i), log[i].act).0
    ensures EntryOk(c, log, i) ==> log[i].res == Exec(c.env, HostAt(c, log, i), log[i].act).1
    ensures forall w: nat :: CallsOf(log[..i + 1], w) == CallsOf(log[..i], w) +
                             (if log[i].w == w then [Called(log[i].ask, ReplyOf(log[i].ask.req, log[i].res))] else [])
  {
    assert log[..i + 1] == log[..i] + [log[i]];
    HistoryAppend(log[..i], log[i]);
    ReplayAppend(c, log[..i], log[i]);
  }

  /** Entry i belongs to wave w: it is w's next call, and its operation is the one w asked for. */
  lemma NextEntry(c: Config, j: Job, log: seq<Entry>, i: nat)
    requires FullLog(c, j, log) && i < |log|
    ensures var e := log[i];
            var past, m := CallsOf(log, e.w), |CallsOf(log[..i], e.w)|;
            && m < 2 && WaveLog(c, j, log, e.w)
            && e.ask == past[m].ask && ReplyOf(e.ask.req, e.res) == past[m].reply
            && e.act == e.ask.want
  {
    var e := log[i];
    var w := e.w;
    assert WaveLog(c, j, log, w) && EntryOk(c, log, i);
    HostNext(c, log, i);
    CallsPrefix(log, i + 1, w);
    CallsPrefix(log, i, w);
    var past, m := CallsOf(log, w), |CallsOf(log[..i], w)|;
    assert CallsOf(log[..i + 1], w)[m] == past[m];
    assert SelfContained(c, w, e.ask.req) by {
      if m == 1 { TextFits(FinalCounts(j.l, j.incs[w])); }
    }
  }

  lemma OpenExec(env: Env, h: Host, name: seq<byte>, req: Request)
    requires Consistent(h) && name !in h.files && env.opens(h.attempts) && req.Fopen?
    ensures var (h', res) := Exec(env, h, AOpen(name, ['w' as int]));
            var f := ReplyOf(req, res).value;
            && f !in h.streams && h'.files == h.files[name := f]
            && h'.streams == h.streams[f := Stream(name, ['w' as int], [], 0)]
  {
  }

  lemma OpenEntryHost(c: Config, j: Job, log: seq<Entry>, i: nat)
    requires FullLog(c, j, log) && i < |log| && FilesAt(c, j, log, i)
    requires |CallsOf(log[..i], log[i].w)| == 0
    ensures |CallsOf(log, log[i].w)| == 2
    ensures var name, f := FileName(j.ids[log[i].w]), CallsOf(log, log[i].w)[0].reply.value;
            && f !in HostAt(c, log, i).streams && HostAt(c, log, i + 1).files == HostAt(c, log, i).files[name := f]
            && HostAt(c, log, i + 1).streams == HostAt(c, log, i).streams[f := Stream(name, ['w' as int], [], 0)]
  {
    HostNext(c, log, i);
    NextEntry(c, j, log, i);
    assert FileAt(c, j, log, i, log[i].w) && EntryOk(c, log, i);
    OpenExec(c.env, HostAt(c, log, i), FileName(j.ids[log[i].w]), log[i].ask.req);
  }

  lemma OpenEntry(c: Config, j: Job, log: seq<Entry>, i: nat, v: nat)
    requires FullLog(c, j, log) && i < |log| && FilesAt(c, j, log, i) && v < |c.progs|
    requires |CallsOf(log[..i], log[i].w)| == 0
    ensures FileAt(c, j, log, i + 1, v)
  {
    var w := log[i].w;
    HostNext(c, log, i);
    OpenEntryHost(c, j, log, i);
    assert FileAt(c, j, log, i, v) && FileAt(c, j, log, i, w);
    if v != w && FileName(j.ids[v]) == FileName(j.ids[w]) { FileNameInjective(j.ids[v], j.ids[w]); }
  }

  /** The host's step for the write of wave w's report. */
  lemma WriteExec(env: Env, h: Host, f: int, name: seq<byte>, text: seq<byte>)
    requires f in h.streams && h.streams[f] == Stream(name, ['w' as int], [], 0)
    ensures var h' := Exec(env, h, AWrite(f, Some(text))).0;
            h'.files == h.files && h'.streams == h.streams[f := Stream(name, ['w' as int], text, 0)]
  {
    assert [] + text == text;
  }

  lemma WriteEntryHost(c: Config, j: Job, log: seq<Entry>, i: nat)
    requires FullLog(c, j, log) && i < |log| && FilesAt(c, j, log, i)
    requires |CallsOf(log[..i], log[i].w)| == 1
    ensures |CallsOf(log, log[i].w)| == 2
    ensures var w := log[i].w;
            var f := CallsOf(log, w)[0].reply.value;
            && HostAt(c, log, i + 1).files == HostAt(c, log, i).files && f in HostAt(c, log, i).streams
            && HostAt(c, log, i + 1).streams ==
               HostAt(c, log, i).streams[f := Stream(FileName(j.ids[w]), ['w' as int],
                 Text(FinalCounts(j.l, j.incs[w])), 0)]
  {
    var w := log[i].w;
    HostNext(c, log, i);
    NextEntry(c, j, log, i);
    assert FileAt(c, j, log, i, w);
    WriteExec(c.env, HostAt(c, log, i), CallsOf(log, w)[0].reply.value, FileName(j.ids[w]),
      Text(FinalCounts(j.l, j.incs[w])));
  }

  lemma WriteEntry(c: Config, j: Job, log: seq<Entry>, i: nat, v: nat)
    requires FullLog(c, j, log) && i < |log| && FilesAt(c, j, log, i) && v < |c.progs|
    requires |CallsOf(log[..i], log[i].w)| == 1
    ensures FileAt(c, j, log, i + 1, v)
  {
    var w := log[i].w;
    HostNext(c, log, i);
    WriteEntryHost(c, j, log, i);
    assert FileAt(c, j, log, i, v) && FileAt(c, j, log, i, w);
    if v != w && FileName(j.ids[v]) == FileName(j.ids[w]) { FileNameInjective(j.ids[v], j.ids[w]); }
  }

  /** An open adds at most its own name, and a write none. */
  lemma ExecNames(env: Env, h: Host, a: Act)
    requires a.AOpen? || a.AWrite?
    ensures Exec(env, h, a).0.files.Keys <= h.files.Keys + (if a.AOpen? then {a.name} else {})
  {
  }

  lemma NamesNext(c: Config, j: Job, log: seq<Entry>, i: nat)
    requires FullLog(c, j, log) && i < |log| && FilesAt(c, j, log, i)
    ensures OnlyWaves(j, HostAt(c, log, i + 1))
  {
    var e, h := log[i], HostAt(c, log, i);
    HostNext(c, log, i);
    NextEntry(c, j, log, i);
    ExecNames(c.env, h, e.act);
    forall name | name in HostAt(c, log, i + 1).files ensures OfWave(j, name) {
      if name !in h.files { assert name == FileName(j.ids[e.w]); }
    }
  }

  lemma {:induction false} FilesBuilt(c: Config, j: Job, log: seq<Entry>, i: nat)
    requires FullLog(c, j, log) && i <= |log|
    ensures FilesAt(c, j, log, i)
  {
    if i == 0 {
      forall w | 0 <= w < |c.progs| ensures FileAt(c, j, log, 0, w) { assert WaveLog(c, j, log, w); }
    } else {
      FilesBuilt(c, j, log, i - 1);
      HostNext(c, log, i - 1);
      NextEntry(c, j, log, i - 1);
      ExecConsistent(c.env, HostAt(c, log, i - 1), log[i - 1].act);
      NamesNext(c, j, log, i - 1);
      forall w | 0 <= w < |c.progs| ensures FileAt(c, j, log, i, w) {
        if |CallsOf(log[..i - 1], log[i - 1].w)| == 0 {
          OpenEntry(c, j, log, i - 1, w);
        } else {
          WriteEntry(c, j, log, i - 1, w);
        }
      }
    }
  }

  // ---- the main result --------------------------------------------------------------------

  /** Each wave of the launch holds the id its threads compute. */
  ghost predicate DeviceIds(grid: Dim3, block: Dim3, ids: seq<nat>) {
    && |ids| == Waves(grid, block)
    && forall b: Dim3, t: Dim3 :: b.Below(grid) && t.Below(block) ==>
         var w := WaveOf(grid, block, b, t); w < |ids| && ids[w] == DeviceWaveId(grid, block, b, t)
  }

  /** A counting launch: blocks small enough for the device's 32-bit rounding, at most 2^32 waves, one
      zeroed slice for each, every open answered. */
  ghost predicate CountingLaunch(c: Config, j: Job, grid: Dim3, block: Dim3, slices: seq<seq<byte>>) {
    && grid.Positive() && block.Positive() && block.Volume() + 63 < WORD
    && |c.progs| == Waves(grid, block) <= WORD
    && DeviceIds(grid, block, j.ids) && |j.incs| == |c.progs|
    && (forall w, i :: 0 <= w < |j.incs| && 0 <= i < |j.incs[w]| ==> j.incs[w][i] < j.l.nbb)
    && (forall w :: 0 <= w < |c.progs| ==> Counter(c, j, w))
    && (forall k: nat :: c.env.opens(k))
    && c.m == 0 && c.base > 0 && Fits(j.l, c.stride) && Launch(c, slices) && Zeroed(slices)
  }

  lemma LaunchCounts(c: Config, j: Job, grid: Dim3, block: Dim3, slices: seq<seq<byte>>)
    requires CountingLaunch(c, j, grid, block, slices)
    ensures Counts(c, j)
  {
    forall w | 0 <= w < |c.progs| ensures j.ids[w] == w {
      var b, t := WaveSurjective(grid, block, w);
      DeviceExact(grid, block, b, t);
    }
  }

  ghost predicate OwnersKnown(s: State) { forall q :: 0 <= q < |s.owner| ==> s.owner[q] < |s.waves| }

  lemma StepOwners(c: Config, s: State, a: Actor)
    requires Shape(c, s) && OwnersKnown(s)
    ensures OwnersKnown(Step(c, s, a))
  {
    if a.AWave? && a.w < |s.waves| && a.w in s.resident && s.waves[a.w].pc.Run? {
      assert KernelStep(c, s, a.w).owner == s.owner || KernelStep(c, s, a.w).owner == s.owner + [a.w];
    } else {
      assert Step(c, s, a).owner == s.owner;
    }
  }

  lemma {:induction false} RunOwners(c: Config, s: State, sched: seq<Actor>)
    requires Shape(c, s) && OwnersKnown(s)
    ensures OwnersKnown(RunAll(c, s, sched))
  {
    if sched != [] {
      RunOwners(c, s, sched[..|sched| - 1]);
      StepOwners(c, RunAll(c, s, sched[..|sched| - 1]), sched[|sched| - 1]);
    }
  }

  lemma FinishedWave(c: Config, j: Job, s: State, w: nat)
    requires Counts(c, j) && Shape(c, s) && w < |s.waves|
    requires Done(c, s, w) && DataOk(c, s, w) && WaveProgress(c, j, s, w)
    ensures WaveLog(c, j, s.log, w)
  {
    assert Counter(c, j, w);
  }

  /** When every wave has finished, the history is complete. */
  lemma FinishedLog(c: Config, j: Job, slices: seq<seq<byte>>, sched: seq<Actor>)
    requires c.m == 0 && Counts(c, j) && Launch(c, slices) && Zeroed(slices)
    requires AllDone(c, RunAll(c, Init(c, slices), sched))
    ensures FullLog(c, j, RunAll(c, Init(c, slices), sched).log)
  {
    var s := RunAll(c, Init(c, slices), sched);
    RunProgress(c, j, slices, sched);
    Reachable(c, slices, sched);
    RunOwners(c, Init(c, slices), sched);
    forall w | 0 <= w < |c.progs| ensures WaveLog(c, j, s.log, w) { FinishedWave(c, j, s, w); }
    forall i | 0 <= i < |s.log| ensures EntryOk(c, s.log, i) && s.log[i].w < |c.progs| {
      assert s.owner[s.log[i].ticket] == s.log[i].w;
    }
  }

  /** The host holds wave w's report and nothing else in its file. */
  ghost predicate Delivered(h: Host, l: Layout, incs: seq<nat>, w: nat) {
    && FileName(w) in h.files && h.files[FileName(w)] in h.streams
    && var st := h.streams[h.files[FileName(w)]];
       && st.name == FileName(w) && st.contents == Text(FinalCounts(l, incs))
       && ReadFrom(st.contents, 0) == Good(FinalCounts(l, incs))
  }

  function Image(f: nat -> seq<byte>, n: nat): set<seq<byte>> {
    if n == 0 then {} else Image(f, n - 1) + {f(n - 1)}
  }

  lemma {:induction false} ImageIs(f: nat -> seq<byte>, n: nat, name: seq<byte>)
    ensures name in Image(f, n) <==> exists w: nat :: w < n && name == f(w)
  {
    if n > 0 { ImageIs(f, n - 1, name); }
  }

  lemma OneMore(a: set<seq<byte>>, x: seq<byte>)
    requires x !in a
    ensures |a + {x}| == |a| + 1
  {
  }

  lemma {:induction false} ImageCount(f: nat -> seq<byte>, n: nat)
    requires forall v: nat, w: nat :: v < w < n ==> f(v) != f(w)
    ensures |Image(f, n)| == n
  {
    if n > 0 {
      ImageCount(f, n - 1);
      ImageIs(f, n - 1, f(n - 1));
      OneMore(Image(f, n - 1), f(n - 1));
    }
  }

  /** The file names of waves 0 to n - 1. */
  function Names(n: nat): set<seq<byte>> { Image(FileName, n) }

  lemma NamesCount(n: nat)
    ensures |Names(n)| == n
  {
    forall v: nat, w: nat | v < w < n ensures FileName(v) != FileName(w) {
      if FileName(v) == FileName(w) { FileNameInjective(v, w); }
    }
    ImageCount(FileName, n);
  }

  lemma WaveDelivered(c: Config, j: Job, log: seq<Entry>, w: nat)
    requires FullLog(c, j, log) && w < |c.progs| && FileAt(c, j, log, |log|, w)
    ensures Delivered(HostAt(c, log, |log|), j.l, j.incs[w], w)
  {
    assert log[..|log|] == log;
    assert WaveLog(c, j, log, w);
    ReportRoundTrip(FinalCounts(j.l, j.incs[w]));
  }

  lemma FilesDelivered(c: Config, j: Job, s: State)
    requires FullLog(c, j, s.log) && LogOk(c, s)
    ensures forall w :: 0 <= w < |c.progs| ==> Delivered(s.host, j.l, j.incs[w], w)
    ensures s.host.files.Keys == Names(|c.progs|)
  {
    FilesBuilt(c, j, s.log, |s.log|);
    assert s.log[..|s.log|] == s.log;
    forall w | 0 <= w < |c.progs| ensures Delivered(s.host, j.l, j.incs[w], w) { WaveDelivered(c, j, s.log, w); }
    forall w | 0 <= w < |c.progs| ensures FileName(w) in s.host.files { assert Delivered(s.host, j.l, j.incs[w], w); }
    NamesExact(j, s.host, |c.progs|);
  }

  lemma NamesExact(j: Job, h: Host, n: nat)
    requires |j.ids| == n && forall w :: 0 <= w < n ==> j.ids[w] == w
    requires OnlyWaves(j, h) && forall w :: 0 <= w < n ==> FileName(w) in h.files
    ensures h.files.Keys == Names(n)
  {
    forall name ensures name in h.files <==> name in Names(n) {
      ImageIs(FileName, n, name);
      if name in h.files { assert OfWave(j, name); }
    }
  }

  lemma DoneUnwraps(c: Config, s: State)
    requires Shape(c, s) && Shape(In32(c), Wrap(s)) && AllDone(In32(c), Wrap(s))
    ensures AllDone(c, s)
  {
    forall w | 0 <= w < |s.waves| ensures Done(c, s, w) {
      assert Done(In32(c), Wrap(s), w) && Wrap(s).waves[w] == WrapWave(s.waves[w]);
    }
  }

  /** End to end, on the 32-bit ring and for every schedule: once every wave has run its increments
      and its flush, the host holds exactly one file per wave of the launch, named by the wave's id,
      and file w parses back to wave w's own counts modulo 2^32. */
  lemma EveryWaveReports(c: Config, j: Job, grid: Dim3, block: Dim3, slices: seq<seq<byte>>, sched: seq<Actor>)
    requires CountingLaunch(c, j, grid, block, slices) && c.limit <= MAX_HOLDERS
    requires Shape(In32(c), Init(In32(c), slices)) && AllDone(In32(c), RunAll(In32(c), Init(In32(c), slices), sched))
    ensures var h := RunAll(In32(c), Init(In32(c), slices), sched).host;
            && |h.files| == Waves(grid, block) && h.files.Keys == Names(Waves(grid, block))
            && forall w :: 0 <= w < Waves(grid, block) ==> Delivered(h, j.l, j.incs[w], w)
  {
    LaunchCounts(c, j, grid, block, slices);
    LimitGivesFewHolders(c, slices, sched);
    Refines(c, slices, sched);
    Reachable(c, slices, sched);
    DoneUnwraps(c, RunAll(c, Init(c, slices), sched));
    FinishedLog(c, j, slices, sched);
    FilesDelivered(c, j, RunAll(c, Init(c, slices), sched));
    NamesCount(|c.progs|);
  }

  /** And it gets there: with room for at least one resident wave, enough fair rounds deliver every
      report, whatever happened before. */
  lemma EveryWaveGetsToReport(c: Config, j: Job, grid: Dim3, block: Dim3, slices: seq<seq<byte>>,
                              sched: seq<Actor>, rounds: seq<seq<Actor>>)
    requires CountingLaunch(c, j, grid, block, slices) && 1 <= c.limit <= MAX_HOLDERS
    requires forall i :: 0 <= i < |rounds| ==> Fair(c, rounds[i])
    requires |rounds| > TotalWork(c, RunAll(c, Init(c, slices), sched))
    ensures Shape(In32(c), Init(In32(c), slices))
    ensures var h := RunAll(In32(c), Init(In32(c), slices), sched + Flatten(rounds)).host;
            |h.files| == Waves(grid, block) && forall w :: 0 <= w < Waves(grid, block) ==>
              Delivered(h, j.l, j.incs[w], w)
  {
    Completes(c, slices, sched, rounds);
    EveryWaveReports(c, j, grid, block, slices, sched + Flatten(rounds));
  }
}

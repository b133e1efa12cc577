/** The basic-block counter probes as a wave's program: `bb_inc` on the wave's slice, then
    `bb_flush_pw`'s file name, open, report and write. */
module BbCounter {
  import opened Bytes
  import opened Options
  import opened Abi
  import opened Host
  import opened Ring
  import opened RingHistory
  import opened Report

  /** Where the mutator put the three per-wave variables in a slice. */
  datatype Layout = Layout(counts: nat, name: nat, report: nat, nbb: nat)

  const NAME_ROOM: nat := 23   // "bbcount_", ten digits, ".txt", NUL
  const LINE_ROOM: nat := 26   // "bb ", ten digits, ": ", ten digits, newline

  predicate Apart(a: nat, la: nat, b: nat, lb: nat) { a + la <= b || b + lb <= a }

  /** The variables lie in the slice and do not overlap. */
  predicate Fits(l: Layout, stride: nat) {
    && l.counts + 4 * l.nbb <= stride && l.name + NAME_ROOM <= stride && l.report + LINE_ROOM * l.nbb <= stride
    && Apart(l.counts, 4 * l.nbb, l.name, NAME_ROOM)
    && Apart(l.counts, 4 * l.nbb, l.report, LINE_ROOM * l.nbb)
    && Apart(l.name, NAME_ROOM, l.report, LINE_ROOM * l.nbb)
    && l.nbb < WORD
  }

  // ---- 32-bit counters in memory ----------------------------------------------------------

  lemma GetSplicedU32(s: seq<byte>, off: nat, v: nat)
    requires off + 4 <= |s| && v < WORD
    ensures GetU32(Splice(s, off, U32Bytes(v)), off) == v
  {
    var t := Splice(s, off, U32Bytes(v));
    assert t[off] == v % 256 && t[off + 1] == v / 256 % 256 && t[off + 2] == v / 65536 % 256 &&
      t[off + 3] == v / 16777216 % 256;
    U32Digits(v);
  }

  /** A counter outside the spliced bytes keeps its value. */
  lemma GetOutsideSplice(s: seq<byte>, at: nat, bytes: seq<byte>, off: nat)
    requires off + 4 <= |s| && at + |bytes| <= |s| && Apart(at, |bytes|, off, 4)
    ensures GetU32(Splice(s, at, bytes), off) == GetU32(s, off)
  {
  }

  lemma KeepOutsideSplice(s: seq<byte>, at: nat, bytes: seq<byte>, off: nat, n: nat)
    requires off + n <= |s| && at + |bytes| <= |s| && Apart(at, |bytes|, off, n)
    ensures Splice(s, at, bytes)[off..off + n] == s[off..off + n]
  {
    var kept, was := Splice(s, at, bytes)[off..off + n], s[off..off + n];
    forall k | 0 <= k < n ensures kept[k] == was[k] { assert Splice(s, at, bytes)[off + k] == s[off + k]; }
    assert kept == was;
  }

  /** `counts[bbid] += 1u`. */
  function BbInc(l: Layout, s: seq<byte>, bbid: nat): (r: seq<byte>)
    requires Fits(l, |s|) && bbid < l.nbb
    ensures |r| == |s|
  {
    Splice(s, l.counts + 4 * bbid, U32Bytes((GetU32(s, l.counts + 4 * bbid) + 1) % WORD))
  }

  function ReadCounts(l: Layout, s: seq<byte>): (r: seq<nat>)
    requires Fits(l, |s|)
    ensures |r| == l.nbb && forall b :: 0 <= b < l.nbb ==> r[b] == GetU32(s, l.counts + 4 * b) < WORD
  {
    seq(l.nbb, b requires 0 <= b < l.nbb => GetU32(s, l.counts + 4 * b))
  }

  // ---- report size ------------------------------------------------------------------------

  lemma LineFits(k: nat, count: nat)
    requires k < WORD && count < WORD
    ensures |Line(k, count)| <= LINE_ROOM
  {
    FileNameFits(k);
    FileNameFits(count);
  }

  lemma {:induction false} ConcatFits(xs: seq<seq<byte>>, room: nat)
    requires forall k :: 0 <= k < |xs| ==> |xs[k]| <= room
    ensures |Concat(xs)| <= room * |xs|
  {
    if xs != [] {
      ConcatFits(xs[1..], room);
      assert room * |xs| == room + room * |xs[1..]|;
    }
  }

  lemma TextFits(counts: seq<nat>)
    requires |counts| < WORD && forall k :: 0 <= k < |counts| ==> counts[k] < WORD
    ensures |Text(counts)| <= LINE_ROOM * |counts|
  {
    forall k | 0 <= k < |counts| ensures |Lines(counts)[k]| <= LINE_ROOM { LineFits(k, counts[k]); }
    ConcatFits(Lines(counts), LINE_ROOM);
  }

  // ---- the program ------------------------------------------------------------------------

  /** Action k of a wave: its increments first, then the flush. `id` is the wave id the device
      computes, `at` the address of the wave's slice. */
  function BbAct(l: Layout, at: nat, id: nat, incs: seq<nat>, k: nat, s: seq<byte>, calls: seq<Called>): Action {
    var n := |incs|;
    if !Fits(l, |s|) || id >= WORD then Local(s)
    else if k < n then (if incs[k] < l.nbb then Local(BbInc(l, s, incs[k])) else Local(s))
    else if k == n then
      FileNameFits(id);
      Local(Splice(s, l.name, FileName(id) + [0]))
    else if k == n + 1 then Call(Fopen(s[l.name..], ['w' as int]))
    else if k == n + 2 then
      TextFits(ReadCounts(l, s));
      Local(Splice(s, l.report, Text(ReadCounts(l, s))))
    else Call(FwritePtr(if calls == [] then 0 else calls[0].reply.value, at + l.report, |Text(ReadCounts(l, s))|))
  }

  /** How often block b is entered. */
  function Hits(incs: seq<nat>, b: nat): nat {
    if incs == [] then 0 else Hits(incs[..|incs| - 1], b) + (if incs[|incs| - 1] == b then 1 else 0)
  }

  function FinalCounts(l: Layout, incs: seq<nat>): (r: seq<nat>)
    ensures |r| == l.nbb && forall b :: 0 <= b < l.nbb ==> r[b] == Hits(incs, b) % WORD
  {
    seq(l.nbb, b requires 0 <= b < l.nbb => Hits(incs, b) % WORD)
  }

  function OpenAsk(path: seq<byte>, id: nat): Asked {
    Asked(Fopen(path, ['w' as int]), AOpen(FileName(id), ['w' as int]))
  }

  function WriteAsk(l: Layout, at: nat, incs: seq<nat>, h: int): Asked {
    var text := Text(FinalCounts(l, incs));
    Asked(FwritePtr(h, at + l.report, |text|), AWrite(h, Some(text)))
  }

  // ---- what a wave's slice and calls look like along the way ------------------------------

  ghost predicate CountsOk(l: Layout, s: seq<byte>, incs: seq<nat>, k: nat) {
    Fits(l, |s|) && forall b :: 0 <= b < l.nbb ==> GetU32(s, l.counts + 4 * b) == Hits(incs[..Min(k, |incs|)], b) % WORD
  }

  ghost predicate NameOk(l: Layout, s: seq<byte>, id: nat) {
    Fits(l, |s|) && |FileName(id)| < NAME_ROOM && s[l.name..l.name + |FileName(id)| + 1] == FileName(id) + [0]
  }

  ghost predicate ReportOk(l: Layout, s: seq<byte>, incs: seq<nat>) {
    var text := Text(FinalCounts(l, incs));
    Fits(l, |s|) && |text| <= LINE_ROOM * l.nbb && s[l.report..l.report + |text|] == text
  }

  ghost predicate IsOpenAsk(a: Asked, id: nat) { a.req.Fopen? && a == OpenAsk(a.req.path, id) }

  ghost predicate Progress(l: Layout, at: nat, id: nat, incs: seq<nat>, s: seq<byte>, wave: Wave) {
    var n, k := |incs|, wave.k;
    && id < WORD && (forall i :: 0 <= i < n ==> incs[i] < l.nbb)
    && k <= n + 4
    && CountsOk(l, s, incs, k)
    && (k >= n + 1 ==> NameOk(l, s, id))
    && (k >= n + 3 ==> ReportOk(l, s, incs))
    && |wave.calls| == (if k <= n + 1 then 0 else if k <= n + 3 then 1 else 2)
    && (k >= n + 2 ==> IsOpenAsk(wave.calls[0].ask, id))
    && (k >= n + 4 ==> wave.calls[1].ask == WriteAsk(l, at, incs, wave.calls[0].reply.value))
    && (!wave.pc.Run? ==>
         || (k == n + 1 && IsOpenAsk(wave.pc.ask, id))
         || (k == n + 3 && wave.pc.ask == WriteAsk(l, at, incs, wave.calls[0].reply.value)))
  }

  lemma IncWord(h: nat)
    ensures (h % WORD + 1) % WORD == (h + 1) % WORD
  {
  }

  lemma HitsNext(incs: seq<nat>, k: nat, b: nat)
    requires k < |incs|
    ensures Hits(incs[..k + 1], b) == Hits(incs[..k], b) + (if incs[k] == b then 1 else 0)
  {
    assert incs[..k + 1][..k] == incs[..k];
  }

  lemma IncAt(l: Layout, s: seq<byte>, incs: seq<nat>, k: nat, b: nat)
    requires k < |incs| && incs[k] < l.nbb && Fits(l, |s|) && b < l.nbb
    requires GetU32(s, l.counts + 4 * b) == Hits(incs[..k], b) % WORD
    ensures GetU32(BbInc(l, s, incs[k]), l.counts + 4 * b) == Hits(incs[..k + 1], b) % WORD
  {
    var off := l.counts + 4 * incs[k];
    var v := (GetU32(s, off) + 1) % WORD;
    HitsNext(incs, k, b);
    if b == incs[k] {
      GetSplicedU32(s, off, v);
      IncWord(Hits(incs[..k], b));
    } else {
      GetOutsideSplice(s, off, U32Bytes(v), l.counts + 4 * b);
    }
  }

  lemma IncProgress(l: Layout, s: seq<byte>, incs: seq<nat>, k: nat)
    requires k < |incs| && incs[k] < l.nbb && CountsOk(l, s, incs, k)
    ensures CountsOk(l, BbInc(l, s, incs[k]), incs, k + 1)
  {
    assert incs[..Min(k, |incs|)] == incs[..k] && incs[..Min(k + 1, |incs|)] == incs[..k + 1];
    forall b | 0 <= b < l.nbb ensures GetU32(BbInc(l, s, incs[k]), l.counts + 4 * b) == Hits(incs[..k + 1], b) % WORD {
      IncAt(l, s, incs, k, b);
    }
  }

  lemma CountsOutsideSplice(l: Layout, s: seq<byte>, incs: seq<nat>, k: nat, at: nat, bytes: seq<byte>)
    requires CountsOk(l, s, incs, k) && k >= |incs| && at + |bytes| <= |s| && Apart(l.counts, 4 * l.nbb, at, |bytes|)
    ensures CountsOk(l, Splice(s, at, bytes), incs, k + 1)
  {
    assert incs[..Min(k, |incs|)] == incs[..Min(k + 1, |incs|)];
    forall b | 0 <= b < l.nbb ensures GetU32(Splice(s, at, bytes), l.counts + 4 * b) == GetU32(s, l.counts + 4 * b) {
      GetOutsideSplice(s, at, bytes, l.counts + 4 * b);
    }
  }

  /** Once the increments are done, reading the counters yields the final counts. */
  lemma CountsFinal(l: Layout, s: seq<byte>, incs: seq<nat>, k: nat)
    requires CountsOk(l, s, incs, k) && k >= |incs|
    ensures ReadCounts(l, s) == FinalCounts(l, incs)
  {
    assert incs[..Min(k, |incs|)] == incs;
  }

  lemma NameProgress(l: Layout, s: seq<byte>, id: nat)
    requires Fits(l, |s|) && id < WORD
    ensures |FileName(id)| < NAME_ROOM && NameOk(l, Splice(s, l.name, FileName(id) + [0]), id)
  {
    FileNameFits(id);
  }

  lemma ReportProgress(l: Layout, s: seq<byte>, id: nat, incs: seq<nat>)
    requires Fits(l, |s|) && NameOk(l, s, id)
    ensures var text := Text(FinalCounts(l, incs));
            |text| <= LINE_ROOM * l.nbb && ReportOk(l, Splice(s, l.report, text), incs) &&
              NameOk(l, Splice(s, l.report, text), id)
  {
    TextFits(FinalCounts(l, incs));
    KeepOutsideSplice(s, l.report, Text(FinalCounts(l, incs)), l.name, |FileName(id)| + 1);
  }

  /** The local actions keep Progress. */
  lemma LocalProgress(l: Layout, at: nat, id: nat, incs: seq<nat>, s: seq<byte>, wave: Wave)
    requires Progress(l, at, id, incs, s, wave) && wave.pc.Run? && wave.k < |incs| + 4
    requires BbAct(l, at, id, incs, wave.k, s, wave.calls).Local?
    ensures var s' := BbAct(l, at, id, incs, wave.k, s, wave.calls).slice;
            |s'| == |s| && Progress(l, at, id, incs, s', wave.(k := wave.k + 1))
  {
    var k := wave.k;
    if k < |incs| {
      IncProgress(l, s, incs, k);
    } else if k == |incs| {
      NameProgress(l, s, id);
      CountsOutsideSplice(l, s, incs, k, l.name, FileName(id) + [0]);
    } else {
      CountsFinal(l, s, incs, k);
      TextFits(FinalCounts(l, incs));
      ReportProgress(l, s, id, incs);
      CountsOutsideSplice(l, s, incs, k, l.report, Text(FinalCounts(l, incs)));
    }
  }

  /** The path the open reads from the slice is the wave's file name. */
  lemma OpenMeans(c: Config, l: Layout, id: nat, s: seq<byte>, slices: seq<seq<byte>>)
    requires NameOk(l, s, id)
    ensures IsOpenAsk(Asked(Fopen(s[l.name..], ['w' as int]),
            Resolve(c, slices, Meaning(Fopen(s[l.name..], ['w' as int])))), id)
  {
    var p := s[l.name..];
    assert p[..|FileName(id)| + 1] == FileName(id) + [0];
    assert FileName(id) <= p && p[|FileName(id)|] == 0;
    CStrIs(p, FileName(id));
    assert Clip(p, PATH_SIZE - 1) == FileName(id);
    assert CStr(['w' as int]) == ['w' as int] + CStr([]);
    assert Clip(['w' as int], MODE_SIZE - 1) == ['w' as int];
  }

  /** The record the write names is the report. */
  lemma WriteMeans(c: Config, l: Layout, w: nat, incs: seq<nat>, s: seq<byte>, slices: seq<seq<byte>>, h: int)
    requires w < |slices| && slices[w] == s && |s| == c.stride && c.stride > 0 && c.base > 0 && ReportOk(l, s, incs)
    ensures var ask := WriteAsk(l, c.base + w * c.stride, incs, h);
            Resolve(c, slices, Meaning(ask.req)) == ask.want && SelfContained(c, w, ask.req)
  {
    var text := Text(FinalCounts(l, incs));
    ReadOwn(c, slices, w, c.base + w * c.stride + l.report, |text|);
  }

  /** So do the calls. */
  lemma CallProgress(c: Config, l: Layout, w: nat, id: nat, incs: seq<nat>, slices: seq<seq<byte>>, wave: Wave, pc: Pc)
    requires w < |slices| && |slices[w]| == c.stride && c.stride > 0 && c.base > 0
    requires Progress(l, c.base + w * c.stride, id, incs, slices[w], wave) && wave.pc.Run? && wave.k < |incs| + 4
    requires BbAct(l, c.base + w * c.stride, id, incs, wave.k, slices[w], wave.calls).Call?
    requires var req := BbAct(l, c.base + w * c.stride, id, incs, wave.k, slices[w], wave.calls).req;
             !pc.Run? && pc.ask == Asked(req, Resolve(c, slices, Meaning(req)))
    ensures Progress(l, c.base + w * c.stride, id, incs, slices[w], wave.(pc := pc))
  {
    var s := slices[w];
    if wave.k == |incs| + 1 {
      OpenMeans(c, l, id, s, slices);
    } else {
      CountsFinal(l, s, incs, wave.k);
      WriteMeans(c, l, w, incs, s, slices, wave.calls[0].reply.value);
    }
  }
}

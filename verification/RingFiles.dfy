/** The files after a run of the 32-bit ring: what each holds, who sent it, and the primary's ids. */
module RingFiles {
  import opened Bytes
  import opened Options
  import opened Abi
  import opened Host
  import opened Ring
  import opened RingSafety
  import opened RingHistory
  import opened RingRuns
  import opened Ring32
  import opened FileLog

  lemma {:induction false} ActsAt(log: seq<Entry>, i: nat)
    requires i <= |log|
    ensures Acts(log)[..i] == Acts(log[..i]) && (i < |log| ==> Acts(log)[i] == log[i].act)
  {
    if i < |log| - 1 {
      ActsAt(log[..|log| - 1], i);
      assert log[..|log| - 1][..i] == log[..i];
    } else if i == |log| {
      assert log[..i] == log;
    } else {
      assert log[..i] == log[..|log| - 1];
    }
  }

  lemma {:induction false} ActsFrom(log: seq<Entry>, i: nat)
    requires i <= |log|
    ensures Acts(log)[i..] == Acts(log[i..])
    decreases |log|
  {
    if i < |log| {
      var init := log[..|log| - 1];
      ActsFrom(init, i);
      assert log[i..][..|log| - i - 1] == init[i..];
    }
  }

  // ---- who sent what ----------------------------------------------------------------------

  /** A post with the wave that made it. */
  datatype Mail = Mail(w: nat, post: Post)

  function MailOf(e: Entry, f: int, primary: bool): seq<Mail> {
    var posts := PostOf(e.act, f, primary);
    if posts == [] then [] else [Mail(e.w, posts[0])]
  }

  /** Everything the entries send to `f`, in history order. */
  function Mails(log: seq<Entry>, f: int, primary: bool): seq<Mail> {
    if log == [] then [] else Mails(log[..|log| - 1], f, primary) + MailOf(log[|log| - 1], f, primary)
  }

  function Bodies(mails: seq<Mail>): seq<Post> { seq(|mails|, i requires 0 <= i < |mails| => mails[i].post) }

  /** Wave w's own posts among them, in order. */
  function From(mails: seq<Mail>, w: nat): seq<Post> {
    if mails == [] then []
    else From(mails[..|mails| - 1], w) + (if mails[|mails| - 1].w == w then [mails[|mails| - 1].post] else [])
  }

  /** What a wave's calls send to `f`, in program order. */
  function CallPosts(calls: seq<Called>, f: int, primary: bool): seq<Post> {
    if calls == [] then []
    else CallPosts(calls[..|calls| - 1], f, primary) + PostOf(calls[|calls| - 1].ask.want, f, primary)
  }

  lemma BodiesConcat(a: seq<Mail>, b: seq<Mail>)
    ensures Bodies(a + b) == Bodies(a) + Bodies(b)
  {
  }

  lemma OneMail(e: Entry, f: int, primary: bool)
    ensures Bodies(MailOf(e, f, primary)) == PostOf(e.act, f, primary)
  {
  }

  lemma {:induction false} MailBodies(log: seq<Entry>, f: int, primary: bool)
    ensures Bodies(Mails(log, f, primary)) == Posts(Acts(log), f, primary)
  {
    if log != [] {
      var init := log[..|log| - 1];
      var e := log[|log| - 1];
      MailBodies(init, f, primary);
      OneMail(e, f, primary);
      BodiesConcat(Mails(init, f, primary), MailOf(e, f, primary));
      assert (Acts(init) + [e.act])[..|init|] == Acts(init);
    }
  }

  lemma FromMail(mails: seq<Mail>, e: Entry, f: int, primary: bool, w: nat)
    ensures From(mails + MailOf(e, f, primary), w) ==
            From(mails, w) + if e.w == w then PostOf(e.act, f, primary) else []
  {
    var posts := PostOf(e.act, f, primary);
    if posts == [] {
      assert mails + [] == mails;
    } else {
      assert (mails + [Mail(e.w, posts[0])])[..|mails|] == mails;
    }
  }

  /** Every record wave w has written by address lies in its own slice. */
  ghost predicate OwnRecords(c: Config, w: nat, log: seq<Entry>) {
    forall i :: 0 <= i < |log| && log[i].w == w ==> SelfContained(c, w, log[i].ask.req)
  }

  ghost predicate Legal(c: Config, log: seq<Entry>) {
    forall i :: 0 <= i < |log| ==>
      Performs(log[i].ask, log[i].act) && (SelfContained(c, log[i].w, log[i].ask.req) ==> log[i].act == log[i].ask.want)
  }

  /** Wave w's posts are, in order, the ones of its calls. */
  lemma {:induction false} FromCalls(c: Config, log: seq<Entry>, f: int, primary: bool, w: nat)
    requires Legal(c, log) && OwnRecords(c, w, log)
    ensures From(Mails(log, f, primary), w) == CallPosts(CallsOf(log, w), f, primary)
  {
    if log != [] {
      var init, e := log[..|log| - 1], log[|log| - 1];
      FromCalls(c, init, f, primary, w);
      FromMail(Mails(init, f, primary), e, f, primary, w);
      var past, call := CallsOf(init, w), Called(e.ask, ReplyOf(e.ask.req, e.res));
      assert log[|init|] == e;
      if e.w == w {
        assert (past + [call])[..|past|] == past;
      } else {
        assert past + [] == past;
      }
    }
  }

  lemma {:induction false} CallsSplit(log: seq<Entry>, i: nat, w: nat)
    requires i <= |log|
    ensures CallsOf(log, w) == CallsOf(log[..i], w) + CallsOf(log[i..], w)
    decreases |log|
  {
    if i == |log| {
      assert log[..i] == log;
    } else {
      var init := log[..|log| - 1];
      CallsSplit(init, i, w);
      assert init[..i] == log[..i] && log[i..][..|log| - i - 1] == init[i..];
    }
  }

  // ---- every file, at quiescence ----------------------------------------------------------

  /** No wave holds a ticket: every call made has been answered and released. */
  ghost predicate Quiet(s: State) { forall w :: 0 <= w < |s.waves| ==> !Holds(s.waves[w]) }

  /** Entry k opened the stream `f`, and the stream holds what its file held then followed by everything
      mailed to it since. Each wave's share of the mail is, in the wave's program order, exactly what its
      calls since then sent to `f`. */
  ghost predicate FileConserved(c: Config, s: State, k: nat, f: int)
    requires k < |s.log|
  {
    var open, since := s.log[k].act, s.log[k + 1..];
    var primary := s.host.primary == f;
    && open.AOpen? && f in s.host.streams
    && s.host.streams[f].name == open.name && s.host.streams[f].mode == open.mode
    && s.host.streams[f].contents == Kept(c.env, open, Bodies(Mails(since, f, primary)))
    && forall w :: 0 <= w < |s.waves| && OwnRecords(c, w, s.log) ==> ShareKept(s, k, f, w)
  }

  ghost predicate ShareKept(s: State, k: nat, f: int, w: nat)
    requires k < |s.log| && w < |s.waves|
  {
    var before, calls := |CallsOf(s.log[..k + 1], w)|, s.waves[w].calls;
    var primary := s.host.primary == f;
    before <= |calls| && From(Mails(s.log[k + 1..], f, primary), w) == CallPosts(calls[before..], f, primary)
  }

  lemma ShareFollows(c: Config, s: State, k: nat, f: int, w: nat)
    requires Sequential(c, s) && k < |s.log| && w < |s.waves| && CallsMatch(s, w) && !Holds(s.waves[w])
    requires OwnRecords(c, w, s.log)
    ensures ShareKept(s, k, f, w)
  {
    SinceLegal(c, s, k, w);
    FromCalls(c, s.log[k + 1..], f, s.host.primary == f, w);
    CallsSplit(s.log, k + 1, w);
    var before, calls := CallsOf(s.log[..k + 1], w), s.waves[w].calls;
    assert calls == CallsOf(s.log, w);
    assert calls[|before|..] == CallsOf(s.log[k + 1..], w);
  }

  lemma SinceLegal(c: Config, s: State, k: nat, w: nat)
    requires Sequential(c, s) && k < |s.log| && OwnRecords(c, w, s.log)
    ensures Legal(c, s.log[k + 1..]) && OwnRecords(c, w, s.log[k + 1..])
  {
    var since := s.log[k + 1..];
    forall i | 0 <= i < |since|
      ensures Performs(since[i].ask, since[i].act)
      ensures SelfContained(c, since[i].w, since[i].ask.req) ==> since[i].act == since[i].ask.want
    {
      assert EntryOk(c, s.log, k + 1 + i);
    }
  }

  /** File conservation on the 32-bit ring: whatever the waves, the interleaving and the files, once no
      call is under way every file is its initial contents followed by an interleaving of everything the
      waves sent to its handle that keeps each wave's program order. */
  lemma FilesConserved(c: Config, slices: seq<seq<byte>>, sched: seq<Actor>, f: int) returns (k: nat)
    requires c.m == 0 && Launch(c, slices) && c.limit <= MAX_HOLDERS
    requires var s := RunAll(In32(c), Init(In32(c), slices), sched); Quiet(s) && f in s.host.streams
    ensures var s := RunAll(In32(c), Init(In32(c), slices), sched); k < |s.log| && FileConserved(c, s, k, f)
  {
    Linearizable32(c, slices, sched);
    var s := RunAll(In32(c), Init(In32(c), slices), sched);
    k := OpenedAt(c.env, Acts(s.log), f);
    FileKept(c.env, Acts(s.log), k, f);
    ActsAt(s.log, k);
    ActsFrom(s.log, k + 1);
    MailBodies(s.log[k + 1..], f, s.host.primary == f);
    forall w | 0 <= w < |s.waves| && OwnRecords(c, w, s.log) ensures ShareKept(s, k, f, w) {
      ShareFollows(c, s, k, f, w);
    }
  }

  // ---- the primary's ids ------------------------------------------------------------------

  /** A wave's calls, in order: before it writes an id, one of its opens has returned a handle. */
  ghost predicate OpensFirst(calls: seq<Called>) {
    forall m :: 0 <= m < |calls| && calls[m].ask.req.WriteId? ==> OpenBefore(calls, m)
  }

  ghost predicate OpenBefore(calls: seq<Called>, m: nat) {
    exists l :: 0 <= l < m && l < |calls| && calls[l].ask.req.Fopen? && calls[l].reply.value != 0
  }

  /** Where in the history wave w's m-th call is. */
  lemma {:induction false} CallIndex(log: seq<Entry>, w: nat, m: nat) returns (i: nat)
    requires m < |CallsOf(log, w)|
    ensures i < |log| && log[i].w == w && CallsOf(log, w)[m] == Called(log[i].ask, ReplyOf(log[i].ask.req, log[i].res))
    ensures |CallsOf(log[..i], w)| == m
  {
    var init := log[..|log| - 1];
    if m < |CallsOf(init, w)| {
      i := CallIndex(init, w, m);
      assert init[..i] == log[..i];
    } else {
      i := |log| - 1;
    }
  }

  lemma CallsGrow(log: seq<Entry>, i: nat, j: nat, w: nat)
    requires i <= j <= |log|
    ensures |CallsOf(log[..i], w)| <= |CallsOf(log[..j], w)| && CallsOf(log[..j], w) <= CallsOf(log, w)
  {
    CallsPrefix(log[..j], i, w);
    assert log[..j][..i] == log[..i];
    CallsPrefix(log, j, w);
  }

  /** Entry i's own call is the next one of its wave. */
  lemma OwnCall(log: seq<Entry>, i: nat)
    requires i < |log|
    ensures var e := log[i];
            var m := |CallsOf(log[..i], e.w)|;
            m < |CallsOf(log, e.w)| && CallsOf(log, e.w)[m] == Called(e.ask, ReplyOf(e.ask.req, e.res))
  {
    assert log[..i + 1] == log[..i] + [log[i]];
    HistoryAppend(log[..i], log[i]);
    CallsPrefix(log, i + 1, log[i].w);
  }

  /** An id in the history has a successful open before it. */
  lemma IdAfterOpen(c: Config, log: seq<Entry>, i: nat) returns (k: nat)
    requires (forall j :: 0 <= j < |log| ==> EntryOk(c, log, j)) && i < |log| && log[i].act.AId?
    requires OpensFirst(CallsOf(log, log[i].w))
    ensures k < i && Opens(c.env, Acts(log), k)
  {
    var w := log[i].w;
    var m := |CallsOf(log[..i], w)|;
    assert EntryOk(c, log, i);
    OwnCall(log, i);
    assert log[i].ask.req.WriteId?;
    assert OpenBefore(CallsOf(log, w), m);
    var l :| 0 <= l < m && l < |CallsOf(log, w)| && CallsOf(log, w)[l].ask.req.Fopen? &&
      CallsOf(log, w)[l].reply.value != 0;
    k := CallIndex(log, w, l);
    assert EntryOk(c, log, k);
    ActsAt(log, k);
    if k >= i { CallsGrow(log, i, k, w); }
  }

  lemma {:induction false} FirstOf(env: Env, acts: seq<Act>, n: nat) returns (k: nat)
    requires Opens(env, acts, n)
    ensures k <= n && FirstOpens(env, acts, k)
  {
    if j :| 0 <= j < n && Opens(env, acts, j) { k := FirstOf(env, acts, j); } else { k := n; }
  }

  lemma {:induction false} NoIdsBefore(acts: seq<Act>, k: nat)
    requires k < |acts| && forall i :: 0 <= i <= k ==> !acts[i].AId?
    ensures IdsWritten(acts[k + 1..]) == IdsWritten(acts)
    decreases |acts|
  {
    var init := acts[..|acts| - 1];
    if k == |acts| - 1 {
      if k > 0 { NoIdsBefore(init, k - 1); }
    } else {
      NoIdsBefore(init, k);
      assert acts[k + 1..][..|acts| - k - 2] == init[k + 1..];
    }
  }

  lemma {:induction false} SomeId(acts: seq<Act>) returns (i: nat)
    requires IdsWritten(acts) != []
    ensures i < |acts| && acts[i].AId?
  {
    if acts[|acts| - 1].AId? { i := |acts| - 1; } else { i := SomeId(acts[..|acts| - 1]); }
  }

  /** Operation k opened the primary first of all, and every id ever written is one of the posts to it. */
  ghost predicate IdsReach(env: Env, acts: seq<Act>, k: nat) {
    && FirstOpens(env, acts, k)
    && Ids(Posts(acts[k + 1..], Replay(env, Fresh, acts).primary, true)) == IdsWritten(acts[k + 1..])
    && IdsWritten(acts[k + 1..]) == IdsWritten(acts)
  }

  lemma LogIdsReach(c: Config, log: seq<Entry>) returns (k: nat)
    requires (forall j :: 0 <= j < |log| ==> EntryOk(c, log, j)) && forall w: nat :: OpensFirst(CallsOf(log, w))
    requires IdsWritten(Acts(log)) != []
    ensures IdsReach(c.env, Acts(log), k)
  {
    var acts := Acts(log);
    var i := SomeId(acts);
    ActsAt(log, i);
    var n := IdAfterOpen(c, log, i);
    k := FirstOf(c.env, acts, n);
    IdsPosted(acts[k + 1..], Replay(c.env, Fresh, acts).primary);
    forall j | 0 <= j <= k ensures !acts[j].AId? {
      ActsAt(log, j);
      if acts[j].AId? { var q := IdAfterOpen(c, log, j); }
    }
    NoIdsBefore(acts, k);
  }

  /** What a host's primary file began with, and the posts to it since operation k opened it. */
  ghost predicate PrimaryHolds(env: Env, acts: seq<Act>, k: nat, h: Host) {
    && k < |acts| && acts[k].AOpen? && h.primary in h.streams
    && h.streams[h.primary].contents ==
       InitialContents(env, acts[k].name, acts[k].mode) + PostText(Posts(acts[k + 1..], h.primary, true))
  }

  /** On the 32-bit ring, for every schedule in which some id is written and every wave opens a file
      successfully before its first: every id is one post to the primary, and the file holds the posts if
      and only if the first successful open was for writing. */
  lemma PrimaryHoldsIds(c: Config, slices: seq<seq<byte>>, sched: seq<Actor>) returns (k: nat)
    requires c.m == 0 && Launch(c, slices) && c.limit <= MAX_HOLDERS
    requires var s := RunAll(In32(c), Init(In32(c), slices), sched);
             IdsWritten(Acts(s.log)) != [] && forall w: nat :: OpensFirst(CallsOf(s.log, w))
    ensures var s := RunAll(In32(c), Init(In32(c), slices), sched);
            var acts := Acts(s.log);
            && s.host == Replay(c.env, Fresh, acts) && IdsReach(c.env, acts, k)
            && (PrimaryHolds(c.env, acts, k, s.host) <==> Writes(acts[k].mode))
  {
    Linearizable32(c, slices, sched);
    var acts := Acts(RunAll(In32(c), Init(In32(c), slices), sched).log);
    k := LogIdsReach(c, RunAll(In32(c), Init(In32(c), slices), sched).log);
    PrimaryKept(c.env, acts, k);
    IdsMakeText(Posts(acts[k + 1..], Replay(c.env, Fresh, acts).primary, true));
  }

  /** ... and then, if the file began with whole lines and the waves write it nothing but whole lines of
      their own, reading it line by line gives every id ever written exactly once, in history order. */
  lemma PrimaryReadsBack(c: Config, slices: seq<seq<byte>>, sched: seq<Actor>) returns (k: nat)
    requires c.m == 0 && Launch(c, slices) && c.limit <= MAX_HOLDERS
    requires var s := RunAll(In32(c), Init(In32(c), slices), sched);
             && IdsWritten(Acts(s.log)) != [] && (forall w: nat :: OpensFirst(CallsOf(s.log, w)))
             && forall a :: a in Acts(s.log) && a.AWrite? && a.handle == s.host.primary && a.payload.Some? ==>
                  Foreign(Payload(a.payload.value))
    ensures var s := RunAll(In32(c), Init(In32(c), slices), sched);
            var acts := Acts(s.log);
            IdsReach(c.env, acts, k) &&
            var before := InitialContents(c.env, acts[k].name, acts[k].mode);
            Writes(acts[k].mode) && Whole(before) ==>
              s.host.primary in s.host.streams &&
              ReadIds(s.host.streams[s.host.primary].contents) == ReadIds(before) + IdsWritten(acts)
  {
    k := PrimaryHoldsIds(c, slices, sched);
    var s := RunAll(In32(c), Init(In32(c), slices), sched);
    var acts := Acts(s.log);
    PostsForeign(acts[k + 1..], s.host.primary);
    if Writes(acts[k].mode) && Whole(InitialContents(c.env, acts[k].name, acts[k].mode)) {
      IdsReadBack(c.env, acts, k);
    }
  }

  lemma {:induction false} PostsForeign(acts: seq<Act>, p: int)
    requires forall a :: a in acts && a.AWrite? && a.handle == p && a.payload.Some? ==>
             Foreign(Payload(a.payload.value))
    ensures forall i :: 0 <= i < |Posts(acts, p, true)| ==> Foreign(Posts(acts, p, true)[i])
  {
    if acts != [] {
      PostsForeign(acts[..|acts| - 1], p);
      assert acts[|acts| - 1] in acts;
    }
  }
}

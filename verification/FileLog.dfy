/** What a sequential history leaves in each file: everything sent to the file's handle since it was
    opened, and for the primary file every id, unless it was opened for reading. */
module FileLog {
  import opened Bytes
  import opened Options
  import opened Sequences
  import opened Decimal
  import opened Abi
  import opened Host

  lemma {:induction false} ReplayConcat(env: Env, h: Host, a: seq<Act>, b: seq<Act>)
    ensures Replay(env, h, a + b) == Replay(env, Replay(env, h, a), b)
    decreases |b|
  {
    if b == [] {
      assert a + b == a;
    } else {
      assert (a + b)[..|a + b| - 1] == a + b[..|b| - 1];
      ReplayConcat(env, h, a, b[..|b| - 1]);
    }
  }

  lemma ReplaySplit(env: Env, acts: seq<Act>, k: nat)
    requires k <= |acts|
    ensures Replay(env, Fresh, acts) == Replay(env, Replay(env, Fresh, acts[..k]), acts[k..])
  {
    ReplayConcat(env, Fresh, acts[..k], acts[k..]);
    assert acts == acts[..k] + acts[k..];
  }

  // ---- what is sent to a handle -----------------------------------------------------------

  /** What reaches a handle: the payloads of writes and, at the primary, the lines of ids. */
  datatype Post = Line(id: int) | Payload(bytes: seq<byte>)

  function PostBytes(p: Post): seq<byte> { match p case Line(id) => IdLine(id) case Payload(b) => b }

  /** What an operation sends to `f`, which is the primary or not. */
  function PostOf(a: Act, f: int, primary: bool): seq<Post> {
    match a
    case AId(id) => if primary then [Line(id)] else []
    case AWrite(g, payload) => if g == f && payload.Some? then [Payload(payload.value)] else []
    case _ => []
  }

  function Posts(acts: seq<Act>, f: int, primary: bool): seq<Post> {
    if acts == [] then [] else Posts(acts[..|acts| - 1], f, primary) + PostOf(acts[|acts| - 1], f, primary)
  }

  function PostText(posts: seq<Post>): seq<byte> {
    if posts == [] then [] else PostText(posts[..|posts| - 1]) + PostBytes(posts[|posts| - 1])
  }

  lemma OnePost(posts: seq<Post>, a: Act, f: int, p: int)
    ensures PostText(posts + PostOf(a, f, p == f)) == PostText(posts) + Sent(a, f, p)
  {
    if PostOf(a, f, p == f) == [] {
      assert posts + [] == posts;
    } else {
      assert (posts + PostOf(a, f, p == f))[..|posts|] == posts;
    }
  }

  /** Once there is a primary it stays, so the ids since then all go to one handle. */
  lemma {:induction false} SentIsPosted(env: Env, h: Host, acts: seq<Act>, f: int)
    requires Consistent(h) && h.primary != 0
    ensures Replay(env, h, acts).primary == h.primary
    ensures AllSent(env, h, acts, f) == PostText(Posts(acts, f, h.primary == f))
  {
    OpenedOnce(env, h, acts);
    if acts != [] {
      var init := acts[..|acts| - 1];
      SentIsPosted(env, h, init, f);
      OnePost(Posts(init, f, h.primary == f), acts[|acts| - 1], f, h.primary);
    }
  }

  // ---- from an open on --------------------------------------------------------------------

  /** What a file opened as operation `a` holds after `posts` have been sent to it. */
  function Kept(env: Env, a: Act, posts: seq<Post>): seq<byte>
    requires a.AOpen?
  {
    InitialContents(env, a.name, a.mode) + if Writes(a.mode) then PostText(posts) else []
  }

  lemma ReadOnlyStep(env: Env, h: Host, a: Act, f: int)
    requires Consistent(h) && f in h.streams && !h.streams[f].Writable()
    ensures var h' := Exec(env, h, a).0; f in h'.streams && h'.streams[f].(pos := h.streams[f].pos) == h.streams[f]
  {
  }

  /** Nothing is ever written to a file opened for reading. */
  lemma {:induction false} ReadOnlyKept(env: Env, h: Host, acts: seq<Act>, f: int)
    requires Consistent(h) && f in h.streams && !h.streams[f].Writable()
    ensures var h' := Replay(env, h, acts); f in h'.streams && h'.streams[f].(pos := h.streams[f].pos) == h.streams[f]
  {
    if acts != [] {
      var init := acts[..|acts| - 1];
      ReadOnlyKept(env, h, init, f);
      ReplayConsistent(env, h, init);
      ReadOnlyStep(env, Replay(env, h, init), acts[|acts| - 1], f);
    }
  }

  lemma StreamFrom(env: Env, h: Host, rest: seq<Act>, f: int, a: Act)
    requires Consistent(h) && f in h.streams && a.AOpen?
    requires h.streams[f] == Stream(a.name, a.mode, InitialContents(env, a.name, a.mode), 0)
    ensures var h' := Replay(env, h, rest);
            && h'.primary == h.primary && f in h'.streams && h'.streams[f].name == a.name &&
               h'.streams[f].mode == a.mode
            && h'.streams[f].contents == Kept(env, a, Posts(rest, f, h.primary == f))
  {
    OpenedOnce(env, h, rest);
    SentIsPosted(env, h, rest, f);
    if h.streams[f].Writable() { Conservation(env, h, rest, f); } else { ReadOnlyKept(env, h, rest, f); }
  }

  /** Operation k opens the stream `f`: there is none by that handle before. */
  ghost predicate OpensAs(env: Env, acts: seq<Act>, k: nat, f: int) {
    && k < |acts| && acts[k].AOpen?
    && f !in Replay(env, Fresh, acts[..k]).streams
    && f in Replay(env, Fresh, acts[..k + 1]).streams
  }

  lemma OpenStep(env: Env, h: Host, a: Act, f: int)
    requires f !in h.streams && f in Exec(env, h, a).0.streams
    ensures a.AOpen?
    ensures Exec(env, h, a).0.streams[f] == Stream(a.name, a.mode, InitialContents(env, a.name, a.mode), 0)
  {
  }

  /** Every stream was opened by one operation of the history. */
  lemma {:induction false} OpenedAt(env: Env, acts: seq<Act>, f: int) returns (k: nat)
    requires f in Replay(env, Fresh, acts).streams
    ensures OpensAs(env, acts, k, f)
  {
    var init := acts[..|acts| - 1];
    if f in Replay(env, Fresh, init).streams {
      k := OpenedAt(env, init, f);
      assert init[..k] == acts[..k] && init[..k + 1] == acts[..k + 1];
    } else {
      k := |init|;
      assert acts[..k + 1] == acts;
      OpenStep(env, Replay(env, Fresh, init), acts[k], f);
    }
  }

  /** A file holds what it held when it was opened, followed by everything sent to its handle since,
      each payload whole and in history order; opened for reading, it holds what it held. */
  lemma FileKept(env: Env, acts: seq<Act>, k: nat, f: int)
    requires OpensAs(env, acts, k, f)
    ensures var h := Replay(env, Fresh, acts);
            && f in h.streams && h.streams[f].name == acts[k].name && h.streams[f].mode == acts[k].mode
            && h.streams[f].contents == Kept(env, acts[k], Posts(acts[k + 1..], f, h.primary == f))
  {
    var h := Replay(env, Fresh, acts[..k + 1]);
    assert acts[..k + 1][..k] == acts[..k];
    OpenStep(env, Replay(env, Fresh, acts[..k]), acts[k], f);
    ReplayConsistent(env, Fresh, acts[..k + 1]);
    ReplaySplit(env, acts, k + 1);
    StreamFrom(env, h, acts[k + 1..], f, acts[k]);
  }

  // ---- the primary ------------------------------------------------------------------------

  /** Operation k opens a file successfully. */
  ghost predicate Opens(env: Env, acts: seq<Act>, k: nat) {
    k < |acts| && acts[k].AOpen? && Exec(env, Replay(env, Fresh, acts[..k]), acts[k]).1.handle != 0
  }

  ghost predicate FirstOpens(env: Env, acts: seq<Act>, k: nat) {
    Opens(env, acts, k) && forall i :: 0 <= i < k ==> !Opens(env, acts, i)
  }

  ghost predicate NoneOpen(h: Host) { h.streams == map[] && h.primary == 0 && forall n :: !Opened(h, n) }

  lemma StaysNoneOpen(env: Env, h: Host, a: Act)
    requires NoneOpen(h) && (a.AOpen? ==> Exec(env, h, a).1.handle == 0)
    ensures NoneOpen(Exec(env, h, a).0)
  {
    var h' := Exec(env, h, a).0;
    forall n ensures !Opened(h', n) { assert !Opened(h, n); }
  }

  /** Until an open succeeds there is no stream and no primary. */
  lemma {:induction false} BeforeFirstOpen(env: Env, acts: seq<Act>, k: nat)
    requires k <= |acts| && forall i :: 0 <= i < k ==> !Opens(env, acts, i)
    ensures NoneOpen(Replay(env, Fresh, acts[..k]))
  {
    if k > 0 {
      BeforeFirstOpen(env, acts, k - 1);
      assert acts[..k][..k - 1] == acts[..k - 1];
      assert !Opens(env, acts, k - 1);
      StaysNoneOpen(env, Replay(env, Fresh, acts[..k - 1]), acts[k - 1]);
    }
  }

  lemma FirstStream(env: Env, h: Host, a: Act)
    requires NoneOpen(h) && a.AOpen? && Exec(env, h, a).1.handle != 0
    ensures var h' := Exec(env, h, a).0; h'.primary != 0 && h'.primary in h'.streams && h'.primary !in h.streams
  {
  }

  lemma PrimaryStays(env: Env, h: Host, rest: seq<Act>)
    requires Consistent(h) && h.primary != 0
    ensures Replay(env, h, rest).primary == h.primary
  {
    OpenedOnce(env, h, rest);
  }

  lemma FirstHost(env: Env, acts: seq<Act>, k: nat)
    requires FirstOpens(env, acts, k)
    ensures var h := Replay(env, Fresh, acts[..k + 1]);
            && Consistent(h) && h.primary != 0 && h.primary in h.streams
            && h.primary !in Replay(env, Fresh, acts[..k]).streams
  {
    BeforeFirstOpen(env, acts, k);
    assert acts[..k + 1][..k] == acts[..k];
    FirstStream(env, Replay(env, Fresh, acts[..k]), acts[k]);
    ReplayConsistent(env, Fresh, acts[..k + 1]);
  }

  /** The first open that succeeds makes its stream the primary. */
  lemma FirstIsPrimary(env: Env, acts: seq<Act>, k: nat)
    requires FirstOpens(env, acts, k)
    ensures OpensAs(env, acts, k, Replay(env, Fresh, acts).primary)
  {
    FirstHost(env, acts, k);
    PrimaryStays(env, Replay(env, Fresh, acts[..k + 1]), acts[k + 1..]);
    ReplaySplit(env, acts, k + 1);
  }

  /** The primary is what the first successful open opened, and keeps everything posted to it since if
      and only if that open was for writing or nothing to write was posted. */
  lemma PrimaryKept(env: Env, acts: seq<Act>, k: nat)
    requires FirstOpens(env, acts, k)
    ensures var h := Replay(env, Fresh, acts);
            var p, posts := h.primary, Posts(acts[k + 1..], h.primary, true);
            && p in h.streams && h.streams[p].name == acts[k].name && h.streams[p].mode == acts[k].mode
            && (h.streams[p].contents == InitialContents(env, acts[k].name, acts[k].mode) + PostText(posts) <==>
                Writes(acts[k].mode) || PostText(posts) == [])
  {
    FirstIsPrimary(env, acts, k);
    FileKept(env, acts, k, Replay(env, Fresh, acts).primary);
  }

  function Ids(posts: seq<Post>): seq<int> {
    if posts == [] then []
    else Ids(posts[..|posts| - 1]) + (if posts[|posts| - 1].Line? then [posts[|posts| - 1].id] else [])
  }

  /** The ids a history writes, in order. */
  function IdsWritten(acts: seq<Act>): seq<int> {
    if acts == [] then []
    else IdsWritten(acts[..|acts| - 1]) + (if acts[|acts| - 1].AId? then [acts[|acts| - 1].id] else [])
  }

  lemma OneId(posts: seq<Post>, a: Act, p: int)
    ensures Ids(posts + PostOf(a, p, true)) == Ids(posts) + (if a.AId? then [a.id] else [])
  {
    if PostOf(a, p, true) == [] {
      assert posts + [] == posts;
    } else {
      assert (posts + PostOf(a, p, true))[..|posts|] == posts;
    }
  }

  /** Each id written is one line among the posts, no more and no less, in order. */
  lemma {:induction false} IdsPosted(acts: seq<Act>, p: int)
    ensures Ids(Posts(acts, p, true)) == IdsWritten(acts)
  {
    if acts != [] {
      IdsPosted(acts[..|acts| - 1], p);
      OneId(Posts(acts[..|acts| - 1], p, true), acts[|acts| - 1], p);
    }
  }

  lemma {:induction false} IdsMakeText(posts: seq<Post>)
    requires Ids(posts) != []
    ensures PostText(posts) != []
  {
    if posts[|posts| - 1].Payload? { IdsMakeText(posts[..|posts| - 1]); }
  }

  /** Opened for reading, the primary loses every id: the operations succeed and the file is as it was. */
  lemma ReadPrimaryLoses(env: Env, name: seq<byte>, id: int)
    requires env.opens(0)
    ensures var acts := [AOpen(name, ['r' as int]), AId(id)];
            var h := Replay(env, Fresh, acts);
            && FirstOpens(env, acts, 0) && IdsWritten(acts) == [id]
            && h.primary in h.streams && h.streams[h.primary].contents == env.disk(name)
  {
    var open, write := AOpen(name, ['r' as int]), AId(id);
    var acts := [open, write];
    assert acts[..1] == [open] && [open][..0] == [] && acts[..0] == [];
    assert IdsWritten([open]) == IdsWritten([]) + [];
    assert Opens(env, acts, 0);
    FirstIsPrimary(env, acts, 0);
    FileKept(env, acts, 0, Replay(env, Fresh, acts).primary);
  }

  // ---- reading the ids back ---------------------------------------------------------------

  const NEWLINE: byte := 10

  /** No newline among the first n bytes. */
  predicate OneLine(text: seq<byte>, n: nat)
    requires n <= |text|
  {
    forall k :: 0 <= k < n ==> text[k] != NEWLINE
  }

  /** The position of the first newline. */
  function LineEnd(text: seq<byte>): (n: nat)
    ensures n <= |text| && OneLine(text, n) && (n < |text| ==> text[n] == NEWLINE)
  {
    if text == [] || text[0] == NEWLINE then 0 else 1 + LineEnd(text[1..])
  }

  lemma LineEndIs(text: seq<byte>, n: nat)
    requires n < |text| && text[n] == NEWLINE && OneLine(text, n)
    ensures LineEnd(text) == n
  {
    assert LineEnd(text) >= n;
    assert LineEnd(text) <= n;
  }

  /** Text made of whole lines. */
  predicate Whole(text: seq<byte>) { text == [] || text[|text| - 1] == NEWLINE }

  const SITE: seq<byte> := Ascii("[gpu] site ")

  /** What stands on an id line between its text and the newline. */
  function Middle(line: seq<byte>): seq<byte>
    requires |line| > |SITE|
  {
    line[|SITE|..|line| - 1]
  }

  predicate IsIdLine(line: seq<byte>) {
    |line| > |SITE| && SITE <= line && line[|line| - 1] == NEWLINE && IsSigned(Middle(line))
  }

  function IdsIn(line: seq<byte>): seq<int> { if IsIdLine(line) then [ParseSigned(Middle(line))] else [] }

  /** The ids on the id lines of a text, other lines skipped. */
  function ReadIds(text: seq<byte>): seq<int> {
    var n := LineEnd(text);
    if n == |text| then [] else IdsIn(text[..n + 1]) + ReadIds(text[n + 1..])
  }

  /** A text that starts with a whole line. */
  lemma ReadHead(line: seq<byte>, rest: seq<byte>)
    requires line != [] && line[|line| - 1] == NEWLINE && OneLine(line, |line| - 1)
    ensures ReadIds(line + rest) == IdsIn(line) + ReadIds(rest)
  {
    var text := line + rest;
    LineEndIs(text, |line| - 1);
    assert text[..|line|] == line && text[|line|..] == rest;
  }

  lemma {:induction false} ReadConcat(a: seq<byte>, b: seq<byte>)
    requires Whole(a)
    ensures ReadIds(a + b) == ReadIds(a) + ReadIds(b)
    decreases |a|
  {
    if a == [] {
      assert a + b == b;
    } else {
      var n := LineEnd(a);
      assert n < |a|;
      var line, rest := a[..n + 1], a[n + 1..];
      assert a == line + rest && a + b == line + (rest + b);
      ReadHead(line, rest);
      ReadHead(line, rest + b);
      ReadConcat(rest, b);
      Regroup(IdsIn(line), ReadIds(rest), ReadIds(b));
    }
  }

  lemma IdLineShape(id: int)
    ensures var line := IdLine(id); |line| > 0 && OneLine(line, |line| - 1) && line[|line| - 1] == NEWLINE
  {
    var line, prefix := IdLine(id), Ascii("[gpu] site ");
    assert line[..|line| - 1] == prefix + SignedDec(id);
    assert OneLine(prefix, |prefix|);
    forall k | 0 <= k < |SignedDec(id)| ensures SignedDec(id)[k] != NEWLINE {
      if id < 0 && k > 0 { assert SignedDec(id)[k] == Dec(-id)[k - 1]; }
    }
    forall k | 0 <= k < |line| - 1 ensures line[k] != NEWLINE {
      if k >= |prefix| { assert line[k] == SignedDec(id)[k - |prefix|]; }
    }
  }

  /** The printed line reads back as its id. */
  lemma ReadLine(id: int)
    ensures Whole(IdLine(id)) && ReadIds(IdLine(id)) == [id]
  {
    var line := IdLine(id);
    IdLineShape(id);
    ReadHead(line, []);
    assert line + [] == line;
    SignedDecRoundTrip(id);
    assert Middle(line) == SignedDec(id);
  }

  /** A payload of whole lines none of which is an id line. */
  ghost predicate Foreign(p: Post) { p.Payload? ==> Whole(p.bytes) && ReadIds(p.bytes) == [] }

  lemma WholeConcat(a: seq<byte>, b: seq<byte>)
    requires Whole(a) && Whole(b)
    ensures Whole(a + b)
  {
  }

  lemma {:induction false} ReadPosts(posts: seq<Post>)
    requires forall i :: 0 <= i < |posts| ==> Foreign(posts[i])
    ensures Whole(PostText(posts)) && ReadIds(PostText(posts)) == Ids(posts)
  {
    if posts != [] {
      var init, p := posts[..|posts| - 1], posts[|posts| - 1];
      ReadPosts(init);
      if p.Line? { ReadLine(p.id); }
      ReadConcat(PostText(init), PostBytes(p));
      WholeConcat(PostText(init), PostBytes(p));
    }
  }

  /** Read line by line, the primary opened for writing gives back exactly the ids written since, each
      once and in order, after those the file began with. */
  lemma IdsReadBack(env: Env, acts: seq<Act>, k: nat)
    requires FirstOpens(env, acts, k) && Writes(acts[k].mode) && Whole(InitialContents(env, acts[k].name, acts[k].mode))
    requires var posts := Posts(acts[k + 1..], Replay(env, Fresh, acts).primary, true);
             forall i :: 0 <= i < |posts| ==> Foreign(posts[i])
    ensures var h := Replay(env, Fresh, acts);
            h.primary in h.streams &&
            ReadIds(h.streams[h.primary].contents) ==
            ReadIds(InitialContents(env, acts[k].name, acts[k].mode)) + IdsWritten(acts[k + 1..])
  {
    var p := Replay(env, Fresh, acts).primary;
    PrimaryKept(env, acts, k);
    ReadPosts(Posts(acts[k + 1..], p, true));
    IdsPosted(acts[k + 1..], p);
    ReadConcat(InitialContents(env, acts[k].name, acts[k].mode), PostText(Posts(acts[k + 1..], p, true)));
  }
}

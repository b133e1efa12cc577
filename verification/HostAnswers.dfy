/** What the host answers to the operations of a history: which handle an open returns, which bytes a
    read returns, and how much a write wrote. */
module HostAnswers {
  import opened Bytes
  import opened Options
  import opened Abi
  import opened Host
  import opened FileLog

  /** The host when the first k operations of a history have been done. */
  function HostAt(env: Env, acts: seq<Act>, k: nat): Host
    requires k <= |acts|
  {
    if k == 0 then Fresh else Exec(env, HostAt(env, acts, k - 1), acts[k - 1]).0
  }

  /** The host's answer to operation k. */
  function AnswerAt(env: Env, acts: seq<Act>, k: nat): Result
    requires k < |acts|
  {
    Exec(env, HostAt(env, acts, k), acts[k]).1
  }

  lemma {:induction false} HostAtIs(env: Env, acts: seq<Act>, k: nat)
    requires k <= |acts|
    ensures HostAt(env, acts, k) == Replay(env, Fresh, acts[..k])
  {
    if k > 0 {
      HostAtIs(env, acts, k - 1);
      assert acts[..k][..k - 1] == acts[..k - 1];
    }
  }

  lemma {:induction false} HostConsistent(env: Env, acts: seq<Act>, k: nat)
    requires k <= |acts|
    ensures Consistent(HostAt(env, acts, k))
  {
    if k > 0 {
      HostConsistent(env, acts, k - 1);
      ExecConsistent(env, HostAt(env, acts, k - 1), acts[k - 1]);
    }
  }

  // ---- opens ------------------------------------------------------------------------------

  /** `f` is the handle of the open file `name`: its stream has the name and the file map gives it. */
  ghost predicate HandleOf(h: Host, name: seq<byte>, f: int) {
    && f in h.streams && h.streams[f].name == name
    && name in h.files && h.files[name] == f
  }

  lemma OpenExec(env: Env, h: Host, name: seq<byte>, mode: seq<byte>)
    requires Consistent(h)
    ensures var (h', res) := Exec(env, h, AOpen(name, mode));
            && (res.handle != 0 ==> HandleOf(h', name, res.handle))
            && (res.handle == 0 ==> !Opened(h', name))
            && res.retval == (if res.handle != 0 then 0 else -1)
  {
  }

  /** An open that answers a handle answers the handle of the file it names; one that answers none
      leaves the file unopened, to be tried again. It reports success exactly with a handle. */
  lemma OpenAnswers(env: Env, acts: seq<Act>, k: nat)
    requires k < |acts| && acts[k].AOpen?
    ensures var res, h := AnswerAt(env, acts, k), HostAt(env, acts, k + 1);
            && (res.handle != 0 ==> HandleOf(h, acts[k].name, res.handle))
            && (res.handle == 0 ==> !Opened(h, acts[k].name))
            && (res.retval == 0 <==> res.handle != 0) && (res.retval != 0 ==> res.retval == -1)
  {
    HostConsistent(env, acts, k);
    OpenExec(env, HostAt(env, acts, k), acts[k].name, acts[k].mode);
  }

  lemma HandleExtends(h: Host, h': Host, name: seq<byte>, f: int)
    requires HandleOf(h, name, f) && f != 0 && Extends(h, h')
    ensures HandleOf(h', name, f)
  {
    assert Opened(h, name);
  }

  /** The handle stays the file's, however the history goes on. */
  lemma {:induction false} HandleStays(env: Env, acts: seq<Act>, k: nat, n: nat)
    requires k < n <= |acts| && acts[k].AOpen? && AnswerAt(env, acts, k).handle != 0
    ensures HandleOf(HostAt(env, acts, n), acts[k].name, AnswerAt(env, acts, k).handle)
  {
    if n == k + 1 {
      OpenAnswers(env, acts, k);
    } else {
      HandleStays(env, acts, k, n - 1);
      var h := HostAt(env, acts, n - 1);
      HostConsistent(env, acts, n - 1);
      ExecExtends(env, h, acts[n - 1]);
      HandleExtends(h, Exec(env, h, acts[n - 1]).0, acts[k].name, AnswerAt(env, acts, k).handle);
    }
  }

  /** Two successful opens of a history answer the same handle exactly when they name the same file. */
  lemma SameNameSameHandle(env: Env, acts: seq<Act>, i: nat, j: nat)
    requires i < |acts| && j < |acts| && acts[i].AOpen? && acts[j].AOpen?
    requires AnswerAt(env, acts, i).handle != 0 && AnswerAt(env, acts, j).handle != 0
    ensures AnswerAt(env, acts, i).handle == AnswerAt(env, acts, j).handle <==> acts[i].name == acts[j].name
  {
    HandleStays(env, acts, i, |acts|);
    HandleStays(env, acts, j, |acts|);
  }

  ghost predicate OpensName(env: Env, acts: seq<Act>, i: nat, name: seq<byte>) {
    i < |acts| && acts[i].AOpen? && acts[i].name == name && AnswerAt(env, acts, i).handle != 0
  }

  /** Some open before operation k has opened `name`. */
  ghost predicate OpenedBefore(env: Env, acts: seq<Act>, k: nat, name: seq<byte>) {
    exists i :: 0 <= i < k && OpensName(env, acts, i, name)
  }

  /** Operation k makes the host call `fopen`: it opens a file that no open has opened yet. */
  ghost predicate CallsFopen(env: Env, acts: seq<Act>, k: nat)
    requires k < |acts|
  {
    acts[k].AOpen? && !OpenedBefore(env, acts, k, acts[k].name)
  }

  /** The calls to `fopen` before operation k. */
  ghost function Tries(env: Env, acts: seq<Act>, k: nat): nat
    requires k <= |acts|
  {
    if k == 0 then 0 else Tries(env, acts, k - 1) + if CallsFopen(env, acts, k - 1) then 1 else 0
  }

  lemma BeforeNext(env: Env, acts: seq<Act>, k: nat, name: seq<byte>)
    ensures OpenedBefore(env, acts, k + 1, name) <==>
            OpenedBefore(env, acts, k, name) || OpensName(env, acts, k, name)
  {
    if i :| 0 <= i < k + 1 && OpensName(env, acts, i, name) { assert i < k ==> OpenedBefore(env, acts, k, name); }
  }

  lemma OpenedMeans(env: Env, h: Host, a: Act, name: seq<byte>)
    requires Consistent(h)
    ensures var (h', res) := Exec(env, h, a);
            Opened(h', name) <==> Opened(h, name) || (a.AOpen? && a.name == name && res.handle != 0)
  {
  }

  /** The file map is open for a name once an open of it has succeeded. */
  lemma {:induction false} OpenedIs(env: Env, acts: seq<Act>, k: nat, name: seq<byte>)
    requires k <= |acts|
    ensures Opened(HostAt(env, acts, k), name) <==> OpenedBefore(env, acts, k, name)
  {
    if k > 0 {
      OpenedIs(env, acts, k - 1, name);
      HostConsistent(env, acts, k - 1);
      OpenedMeans(env, HostAt(env, acts, k - 1), acts[k - 1], name);
      BeforeNext(env, acts, k - 1, name);
    }
  }

  lemma AttemptsStep(env: Env, h: Host, a: Act)
    ensures Exec(env, h, a).0.attempts == h.attempts + (if a.AOpen? && !Opened(h, a.name) then 1 else 0)
  {
  }

  lemma {:induction false} TriesAre(env: Env, acts: seq<Act>, k: nat)
    requires k <= |acts|
    ensures HostAt(env, acts, k).attempts == Tries(env, acts, k)
  {
    if k > 0 {
      TriesAre(env, acts, k - 1);
      AttemptsStep(env, HostAt(env, acts, k - 1), acts[k - 1]);
      if acts[k - 1].AOpen? { OpenedIs(env, acts, k - 1, acts[k - 1].name); }
    }
  }

  /** An open succeeds exactly when its file is open already or the `fopen` it makes succeeds. */
  lemma OpenSucceedsIff(env: Env, acts: seq<Act>, k: nat)
    requires k < |acts| && acts[k].AOpen?
    ensures AnswerAt(env, acts, k).handle != 0 <==>
            OpenedBefore(env, acts, k, acts[k].name) || env.opens(Tries(env, acts, k))
  {
    TriesAre(env, acts, k);
    OpenedIs(env, acts, k, acts[k].name);
  }

  // ---- reads ------------------------------------------------------------------------------

  predicate ReadsFile(a: Act, f: int) { a.ARead? && a.handle == f }

  /** The bytes the reads of `f` return from operation i on until before operation n, in history order. */
  function DataRead(env: Env, acts: seq<Act>, f: int, i: nat, n: nat): seq<byte>
    requires i <= n <= |acts|
  {
    if n == i then []
    else DataRead(env, acts, f, i, n - 1) + if ReadsFile(acts[n - 1], f) then AnswerAt(env, acts, n - 1).data else []
  }

  /** The sizes those reads ask for, each cut off at the slot's data buffer. */
  function SizesAsked(acts: seq<Act>, f: int, i: nat, n: nat): nat
    requires i <= n <= |acts|
  {
    if n == i then 0
    else SizesAsked(acts, f, i, n - 1) + if ReadsFile(acts[n - 1], f) then Min(acts[n - 1].size, DATA_SIZE) else 0
  }

  lemma ReadExec(env: Env, h: Host, f: int, n: nat)
    requires f in h.streams && !h.streams[f].Writable() && h.streams[f].pos <= |h.streams[f].contents|
    ensures var (h', res) := Exec(env, h, ARead(f, n));
            var s := h.streams[f];
            && f in h'.streams && h'.streams[f] == s.(pos := Min(|s.contents|, s.pos + Min(n, DATA_SIZE)))
            && res.data == s.contents[s.pos..h'.streams[f].pos]
  {
  }

  lemma NotRead(env: Env, h: Host, a: Act, f: int)
    requires Consistent(h) && f in h.streams && !h.streams[f].Writable() && !ReadsFile(a, f)
    ensures var h' := Exec(env, h, a).0; f in h'.streams && h'.streams[f] == h.streams[f]
  {
  }

  lemma SliceJoin(s: seq<byte>, i: nat, j: nat, k: nat)
    requires i <= j <= k <= |s|
    ensures s[i..j] + s[j..k] == s[i..k]
  {
  }

  /** Stream `s` has been read up to byte n of it, or to its end, and `data` is what has come out. */
  ghost predicate ReadUpTo(s: Stream, all: seq<byte>, n: nat, data: seq<byte>) {
    !s.Writable() && s.contents == all && s.pos == Min(|all|, n) && data == all[..s.pos]
  }

  lemma ReadMore(env: Env, h: Host, f: int, size: nat, all: seq<byte>, n: nat, data: seq<byte>)
    requires f in h.streams && ReadUpTo(h.streams[f], all, n, data)
    ensures var (h', res) := Exec(env, h, ARead(f, size));
            f in h'.streams && ReadUpTo(h'.streams[f], all, n + Min(size, DATA_SIZE), data + res.data)
  {
    ReadExec(env, h, f, size);
    SliceJoin(all, 0, h.streams[f].pos, Exec(env, h, ARead(f, size)).0.streams[f].pos);
  }

  lemma ReadStep(env: Env, h: Host, a: Act, f: int, all: seq<byte>, n: nat, data: seq<byte>)
    requires Consistent(h) && f in h.streams && ReadUpTo(h.streams[f], all, n, data)
    ensures var (h', res) := Exec(env, h, a);
            && f in h'.streams
            && ReadUpTo(h'.streams[f], all, n + (if ReadsFile(a, f) then Min(a.size, DATA_SIZE) else 0),
                        data + if ReadsFile(a, f) then res.data else [])
  {
    if ReadsFile(a, f) {
      ReadMore(env, h, f, a.size, all, n, data);
    } else {
      NotRead(env, h, a, f);
      assert data + [] == data;
    }
  }

  /** Before operation n, the reads of `f` since operation i have gone through `all` from its beginning. */
  ghost predicate ReadAt(env: Env, acts: seq<Act>, f: int, all: seq<byte>, i: nat, n: nat)
    requires i <= n <= |acts|
  {
    var h := HostAt(env, acts, n);
    f in h.streams && ReadUpTo(h.streams[f], all, SizesAsked(acts, f, i, n), DataRead(env, acts, f, i, n))
  }

  lemma ReadNext(env: Env, acts: seq<Act>, f: int, all: seq<byte>, i: nat, n: nat)
    requires i <= n < |acts| && ReadAt(env, acts, f, all, i, n)
    ensures ReadAt(env, acts, f, all, i, n + 1)
  {
    HostConsistent(env, acts, n);
    ReadStep(env, HostAt(env, acts, n), acts[n], f, all, SizesAsked(acts, f, i, n), DataRead(env, acts, f, i, n));
  }

  lemma {:induction false} ReadsFrom(env: Env, acts: seq<Act>, f: int, all: seq<byte>, i: nat, n: nat)
    requires i <= n <= |acts| && ReadAt(env, acts, f, all, i, i)
    ensures ReadAt(env, acts, f, all, i, n)
  {
    if n > i {
      ReadsFrom(env, acts, f, all, i, n - 1);
      ReadNext(env, acts, f, all, i, n - 1);
    }
  }

  lemma OpensFirstAt(env: Env, acts: seq<Act>, k: nat, f: int)
    requires OpensAs(env, acts, k, f)
    ensures f in HostAt(env, acts, k + 1).streams
    ensures HostAt(env, acts, k + 1).streams[f] ==
            Stream(acts[k].name, acts[k].mode, InitialContents(env, acts[k].name, acts[k].mode), 0)
  {
    HostAtIs(env, acts, k);
    HostAtIs(env, acts, k + 1);
    OpenStep(env, HostAt(env, acts, k), acts[k], f);
  }

  /** Up to any point of a history, the reads of a file opened for reading have returned, put together in
      order, the beginning of what the file held when it was opened: all they asked for, or the whole file. */
  lemma ReadsInOrder(env: Env, acts: seq<Act>, k: nat, f: int, n: nat)
    requires OpensAs(env, acts, k, f) && !Writes(acts[k].mode) && k < n <= |acts|
    ensures var all := InitialContents(env, acts[k].name, acts[k].mode);
            DataRead(env, acts, f, k + 1, n) == all[..Min(|all|, SizesAsked(acts, f, k + 1, n))]
  {
    OpensFirstAt(env, acts, k, f);
    ReadsFrom(env, acts, f, InitialContents(env, acts[k].name, acts[k].mode), k + 1, n);
  }

  /** A read answers the number of bytes it returns, or -1 when its handle is not open; a file opened
      for writing reads as empty. */
  lemma ReadAnswers(env: Env, acts: seq<Act>, k: nat)
    requires k < |acts| && acts[k].ARead?
    ensures var h, res, f := HostAt(env, acts, k), AnswerAt(env, acts, k), acts[k].handle;
            && (f in h.streams ==> res.retval == |res.data| <= Min(acts[k].size, DATA_SIZE))
            && (f !in h.streams ==> res.retval == -1 && res.data == [])
            && (f in h.streams && Writes(h.streams[f].mode) ==> res.data == [])
  {
  }

  // ---- writes and the rest ----------------------------------------------------------------

  /** A write answers by how many bytes the file has grown, all of the record or, if the file was opened
      for reading, none; without an open file or a readable record it answers -1 and changes no file. */
  lemma WriteAnswers(env: Env, acts: seq<Act>, k: nat)
    requires k < |acts| && acts[k].AWrite?
    ensures var h, h', res := HostAt(env, acts, k), HostAt(env, acts, k + 1), AnswerAt(env, acts, k);
            var f, payload := acts[k].handle, acts[k].payload;
            if f in h.streams && payload.Some? then
              && f in h'.streams && res.retval == |h'.streams[f].contents| - |h.streams[f].contents|
              && res.retval == (if Writes(h.streams[f].mode) then |payload.value| else 0)
            else res.retval == -1 && h'.streams == h.streams
  {
  }

  /** An id and a close are answered with success and an unknown operation with failure, and of the three
      only an id touches a file. */
  lemma OthersAnswer(env: Env, acts: seq<Act>, k: nat)
    requires k < |acts| && (acts[k].AId? || acts[k].AClose? || acts[k].ABad?)
    ensures AnswerAt(env, acts, k).retval == if acts[k].ABad? then -1 else 0
    ensures !acts[k].AId? ==> HostAt(env, acts, k + 1).streams == HostAt(env, acts, k).streams
  {
  }

  function CountOf(acts: seq<Act>, p: Act -> bool, k: nat): nat
    requires k <= |acts|
  {
    if k == 0 then 0 else CountOf(acts, p, k - 1) + if p(acts[k - 1]) then 1 else 0
  }

  /** The counters the service loop reports at its end count the operations. */
  lemma {:induction false} CountersCount(env: Env, acts: seq<Act>, k: nat)
    requires k <= |acts|
    ensures var h := HostAt(env, acts, k);
            && h.opens == CountOf(acts, (a: Act) => a.AOpen?, k)
            && h.writes == CountOf(acts, (a: Act) => a.AWrite? || a.AId?, k)
            && h.closes == CountOf(acts, (a: Act) => a.AClose?, k)
  {
    if k > 0 { CountersCount(env, acts, k - 1); }
  }

  /** What the first character of the mode decides: a file opened with "w" begins empty, with "a" it
      begins with what was there, and both take what is sent to them; any other is only read. */
  lemma ModesMean(env: Env, acts: seq<Act>, k: nat, f: int)
    requires OpensAs(env, acts, k, f)
    ensures var h, mode, there := Replay(env, Fresh, acts), acts[k].mode, env.disk(acts[k].name);
            var sent := PostText(Posts(acts[k + 1..], f, h.primary == f));
            && f in h.streams
            && (mode != [] && mode[0] == 'w' as int ==> h.streams[f].contents == sent)
            && (mode != [] && mode[0] == 'a' as int ==> h.streams[f].contents == there + sent)
            && (mode == [] || (mode[0] != 'w' as int && mode[0] != 'a' as int) ==> h.streams[f].contents == there)
  {
    FileKept(env, acts, k, f);
  }
}

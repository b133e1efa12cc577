/** The per-wave report: the probe's decimal printer over its staging buffers, and the reader that
    recovers the counts. */
module Report {
  import opened Bytes
  import opened Options
  import opened Decimal

  // ---- what is printed --------------------------------------------------------------------

  const BB: seq<byte> := Ascii("bb ")
  const SEP: seq<byte> := Ascii(": ")
  const NL: byte := 10

  /** A literal and the number after it. */
  function Field(lead: seq<byte>, v: nat): seq<byte> { lead + Dec(v) }

  function Line(k: nat, count: nat): seq<byte> { Field(BB, k) + Field(SEP, count) + [NL] }

  function Lines(counts: seq<nat>): (r: seq<seq<byte>>)
    ensures |r| == |counts| && forall k :: 0 <= k < |r| ==> r[k] == Line(k, counts[k])
  {
    seq(|counts|, k requires 0 <= k < |counts| => Line(k, counts[k]))
  }

  function Concat(xs: seq<seq<byte>>): seq<byte> {
    if xs == [] then [] else xs[0] + Concat(xs[1..])
  }

  /** The report: one line per block, "bb <k>: <count>". */
  function Text(counts: seq<nat>): seq<byte> { Concat(Lines(counts)) }

  lemma {:induction false} ConcatSnoc(xs: seq<seq<byte>>, x: seq<byte>)
    ensures Concat(xs + [x]) == Concat(xs) + x
  {
    if xs == [] {
      assert Concat([x]) == x + Concat([]);
    } else {
      assert (xs + [x])[1..] == xs[1..] + [x];
      ConcatSnoc(xs[1..], x);
    }
  }

  lemma {:induction false} ConcatPrefix(xs: seq<seq<byte>>, n: nat)
    requires n <= |xs|
    ensures |Concat(xs[..n])| <= |Concat(xs)|
  {
    if n > 0 {
      assert xs[..n][1..] == xs[1..][..n - 1];
      ConcatPrefix(xs[1..], n - 1);
    }
  }

  /** The file name of a wave, "bbcount_<wid>.txt". */
  function FileName(wid: nat): (r: seq<byte>)
    ensures |r| == 12 + |Dec(wid)|
    ensures 0 !in r
  {
    Field(STEM, wid) + SUFFIX
  }

  const STEM: seq<byte> := Ascii("bbcount_")
  const SUFFIX: seq<byte> := Ascii(".txt")

  /** The wave id in a file name of that form, if it is one. */
  function NameId(name: seq<byte>): Option<nat> {
    if |name| > 12 && name[..8] == Ascii("bbcount_") && name[|name| - 4..] == Ascii(".txt") &&
       forall k :: 8 <= k < |name| - 4 ==> IsDigit(name[k])
    then Some(ParseDec(name[8..|name| - 4]))
    else None
  }

  /** A file name gives its wave id back. */
  lemma FileNameReads(wid: nat)
    ensures NameId(FileName(wid)) == Some(wid)
  {
    var name := FileName(wid);
    assert name[..8] == STEM && name[|name| - 4..] == SUFFIX && name[8..|name| - 4] == Dec(wid);
    forall k | 8 <= k < |name| - 4 ensures IsDigit(name[k]) { assert name[k] == Dec(wid)[k - 8]; }
    DecRoundTrip(wid);
  }

  lemma FileNameInjective(a: nat, b: nat)
    requires FileName(a) == FileName(b)
    ensures a == b
  {
    FileNameReads(a);
    FileNameReads(b);
  }

  /** A 32-bit wave id fits the mailbox's path field, terminator included. */
  lemma FileNameFits(wid: nat)
    requires wid < WORD
    ensures |FileName(wid)| <= 22
  {
    assert Pow10(10) == 10_000_000_000 by {
      assert Pow10(1) == 10 && Pow10(2) == 100 && Pow10(3) == 1000 && Pow10(4) == 10000 && Pow10(5) == 100000;
      assert Pow10(6) == 1000000 && Pow10(7) == 10000000 && Pow10(8) == 100000000 && Pow10(9) == 1000000000;
    }
    DecLength(wid, 10);
  }

  // ---- reading it back --------------------------------------------------------------------

  datatype Parsed = Failed | Number(v: nat, rest: seq<byte>)

  function DigitRun(s: seq<byte>): (n: nat)
    ensures n <= |s| && forall k :: 0 <= k < n ==> IsDigit(s[k])
  {
    if s == [] || !IsDigit(s[0]) then 0 else 1 + DigitRun(s[1..])
  }

  /** A number followed by exactly the separator `sep`. */
  function ReadNumber(s: seq<byte>, sep: seq<byte>): (r: Parsed)
    ensures r.Number? ==> |r.rest| < |s|
  {
    var n := DigitRun(s);
    if n > 0 && sep <= s[n..] then Number(ParseDec(s[..n]), s[n + |sep|..]) else Failed
  }

  /** The line of block k: its count, and what follows the line. */
  function ReadLine(s: seq<byte>, k: nat): (r: Parsed)
    ensures r.Number? ==> |r.rest| < |s|
  {
    if !(BB <= s) then Failed
    else
      match ReadNumber(s[|BB|..], SEP)
      case Failed => Failed
      case Number(i, rest) => if i == k then ReadNumber(rest, [NL]) else Failed
  }

  datatype Counts = Bad | Good(counts: seq<nat>)

  function Push(count: nat, more: Counts): Counts {
    match more
    case Bad => Bad
    case Good(counts) => Good([count] + counts)
  }

  /** Lines k, k + 1, ... of a report. */
  function ReadFrom(s: seq<byte>, k: nat): Counts
    decreases |s|
  {
    if s == [] then Good([])
    else
      match ReadLine(s, k)
      case Failed => Bad
      case Number(count, rest) => Push(count, ReadFrom(rest, k + 1))
  }

  lemma {:induction false} DigitRunOf(d: seq<byte>, rest: seq<byte>)
    requires forall k :: 0 <= k < |d| ==> IsDigit(d[k])
    requires rest == [] || !IsDigit(rest[0])
    ensures DigitRun(d + rest) == |d|
  {
    if d == [] {
      assert d + rest == rest;
    } else {
      DigitRunOf(d[1..], rest);
      assert (d + rest)[1..] == d[1..] + rest;
    }
  }

  lemma ReadNumberOf(v: nat, sep: seq<byte>, rest: seq<byte>)
    requires sep != [] && !IsDigit(sep[0])
    ensures ReadNumber(Dec(v) + sep + rest, sep) == Number(v, rest)
  {
    var s := Dec(v) + sep + rest;
    assert s == Dec(v) + (sep + rest);
    DigitRunOf(Dec(v), sep + rest);
    DecRoundTrip(v);
    assert s[..|Dec(v)|] == Dec(v);
    assert s[|Dec(v)|..] == sep + rest;
  }

  lemma ReadLineOf(k: nat, count: nat, rest: seq<byte>)
    ensures ReadLine(Line(k, count) + rest, k) == Number(count, rest)
  {
    var s := Line(k, count) + rest;
    assert BB <= s && s[|BB|..] == Dec(k) + SEP + (Dec(count) + [NL] + rest);
    ReadNumberOf(k, SEP, Dec(count) + [NL] + rest);
    ReadNumberOf(count, [NL], rest);
  }

  lemma LinesFrom(counts: seq<nat>, from: nat)
    requires from < |counts|
    ensures Concat(Lines(counts)[from..]) == Line(from, counts[from]) + Concat(Lines(counts)[from + 1..])
  {
    var xs := Lines(counts)[from..];
    assert xs[1..] == Lines(counts)[from + 1..] && xs[0] == Line(from, counts[from]);
  }

  lemma ReadFromLine(k: nat, count: nat, more: seq<byte>, counts: seq<nat>)
    requires ReadFrom(more, k + 1) == Good(counts)
    ensures ReadFrom(Line(k, count) + more, k) == Good([count] + counts)
  {
    ReadLineOf(k, count, more);
  }

  lemma {:induction false} ReadLines(counts: seq<nat>, from: nat)
    requires from <= |counts|
    ensures ReadFrom(Concat(Lines(counts)[from..]), from) == Good(counts[from..])
    decreases |counts| - from
  {
    if from < |counts| {
      ReadLines(counts, from + 1);
      LinesFrom(counts, from);
      ReadFromLine(from, counts[from], Concat(Lines(counts)[from + 1..]), counts[from + 1..]);
      assert [counts[from]] + counts[from + 1..] == counts[from..];
    }
  }

  /** A report parses back to exactly the counts it was printed from. */
  lemma ReportRoundTrip(counts: seq<nat>)
    ensures ReadFrom(Text(counts), 0) == Good(counts)
  {
    ReadLines(counts, 0);
    assert Lines(counts)[0..] == Lines(counts) && counts[0..] == counts;
  }

  // ---- the printers -----------------------------------------------------------------------

  /** `buf` with `bytes` written at offset i. */
  function Splice(buf: seq<byte>, i: nat, bytes: seq<byte>): (r: seq<byte>)
    requires i + |bytes| <= |buf|
    ensures |r| == |buf|
  {
    buf[..i] + bytes + buf[i + |bytes|..]
  }

  lemma SpliceTwice(buf: seq<byte>, i: nat, a: seq<byte>, b: seq<byte>)
    requires i + |a| + |b| <= |buf|
    ensures Splice(Splice(buf, i, a), i + |a|, b) == Splice(buf, i, a + b)
  {
  }

  /** `put_str`. */
  method PutStr(b: array<byte>, i: nat, s: seq<byte>) returns (j: nat)
    requires i + |s| <= b.Length
    modifies b
    ensures j == i + |s| && b[..] == Splice(old(b[..]), i, s)
  {
    j := i;
    while j < i + |s|
      invariant i <= j <= i + |s|
      invariant b[..] == Splice(old(b[..]), i, s[..j - i])
    {
      b[j] := s[j - i];
      j := j + 1;
      assert s[..j - i] == s[..j - 1 - i] + [s[j - 1 - i]];
    }
    assert s[..|s|] == s;
  }

  /** The digits still to be taken off a number: none of 0. */
  ghost function Left(u: nat): seq<byte> {
    if u == 0 then [] else Dec(u)
  }

  lemma LeftStep(d: seq<byte>, m: nat, u: nat)
    requires u > 0 && m <= |d| && d[..m] == Left(u)
    ensures m >= 1 && d[..m - 1] == Left(u / 10) && d[m - 1] == '0' as int + u % 10
  {
    assert Dec(u) == Left(u / 10) + ['0' as int + u % 10];
    assert d[..m - 1] == d[..m][..m - 1];
    assert d[m - 1] == d[..m][m - 1];
  }

  /** The first loops of `put_uint`: the digits, least significant first, in a ten-character array. */
  method Digits(v: nat) returns (t: array<byte>, n: nat)
    requires v < WORD
    ensures fresh(t) && n == |Dec(v)| <= t.Length
    ensures forall k :: 0 <= k < n ==> t[k] == Dec(v)[n - 1 - k]
  {
    FileNameFits(v);
    ghost var d := Dec(v);
    t := new byte[10](_ => 0);
    n := 0;
    if v == 0 {
      t[0] := '0' as int;
      n := 1;
    }
    var u: nat := v;
    while u != 0
      invariant n <= |d| && d[..|d| - n] == Left(u)
      invariant forall k :: 0 <= k < n ==> t[k] == d[|d| - 1 - k]
      decreases u
    {
      LeftStep(d, |d| - n, u);
      t[n] := '0' as int + u % 10;
      n := n + 1;
      u := u / 10;
    }
  }

  /** `put_uint`: the digits go out in reverse. */
  method PutUint(b: array<byte>, i: nat, v: nat) returns (j: nat)
    requires v < WORD && i + |Dec(v)| <= b.Length
    modifies b
    ensures j == i + |Dec(v)| && b[..] == Splice(old(b[..]), i, Dec(v))
  {
    var t, n := Digits(v);
    ghost var d, was := Dec(v), b[..];
    j := i;
    while n != 0
      invariant 0 <= n <= |d| && j == i + |d| - n
      invariant forall k :: 0 <= k < n ==> t[k] == d[|d| - 1 - k]
      invariant forall k :: 0 <= k < b.Length ==> b[k] == if i <= k < j then d[k - i] else was[k]
    {
      n := n - 1;
      b[j] := t[n];
      j := j + 1;
    }
  }

  lemma SpliceOne(buf: seq<byte>, i: nat, c: byte)
    requires i < |buf|
    ensures Splice(buf, i, [c]) == buf[i := c]
  {
  }

  method PutField(t: array<byte>, i: nat, lead: seq<byte>, v: nat) returns (j: nat)
    requires v < WORD && i + |Field(lead, v)| <= t.Length
    modifies t
    ensures j == i + |Field(lead, v)| && t[..] == Splice(old(t[..]), i, Field(lead, v))
  {
    j := PutStr(t, i, lead);
    j := PutUint(t, j, v);
    SpliceTwice(old(t[..]), i, lead, Dec(v));
  }

  /** The file-name half of `bb_flush_pw`. */
  method FormatName(nm: array<byte>, wid: nat) returns (fi: nat)
    requires wid < WORD && |FileName(wid)| < nm.Length
    modifies nm
    ensures fi == |FileName(wid)| && nm[..] == Splice(old(nm[..]), 0, FileName(wid) + [0])
  {
    ghost var was := nm[..];
    fi := PutField(nm, 0, STEM, wid);
    fi := PutStr(nm, fi, SUFFIX);
    SpliceTwice(was, 0, Field(STEM, wid), SUFFIX);
    SpliceOne(nm[..], fi, 0);
    nm[fi] := 0;
    SpliceTwice(was, 0, FileName(wid), [0]);
  }

  method PutLine(t: array<byte>, i: nat, k: nat, count: nat) returns (j: nat)
    requires k < WORD && count < WORD && i + |Line(k, count)| <= t.Length
    modifies t
    ensures j == i + |Line(k, count)| && t[..] == Splice(old(t[..]), i, Line(k, count))
  {
    ghost var was, a, b := t[..], Field(BB, k), Field(SEP, count);
    j := PutField(t, i, BB, k);
    j := PutField(t, j, SEP, count);
    SpliceTwice(was, i, a, b);
    SpliceOne(t[..], j, NL);
    t[j] := NL;
    j := j + 1;
    SpliceTwice(was, i, a + b, [NL]);
  }

  lemma SpliceNext(was: seq<byte>, xs: seq<seq<byte>>, k: nat)
    requires k < |xs| && |Concat(xs)| <= |was|
    ensures var a, b := Concat(xs[..k]), Concat(xs[..k + 1]);
            |a| + |xs[k]| == |b| <= |was| && Splice(Splice(was, 0, a), |a|, xs[k]) == Splice(was, 0, b)
  {
    assert xs[..k + 1] == xs[..k] + [xs[k]];
    ConcatSnoc(xs[..k], xs[k]);
    ConcatPrefix(xs, k + 1);
    SpliceTwice(was, 0, Concat(xs[..k]), xs[k]);
  }

  /** The report half of `bb_flush_pw`: one line per block. */
  method FormatReport(t: array<byte>, counts: seq<nat>) returns (i: nat)
    requires forall k :: 0 <= k < |counts| ==> counts[k] < WORD
    requires |counts| <= WORD && |Text(counts)| <= t.Length
    modifies t
    ensures i == |Text(counts)| && t[..] == Splice(old(t[..]), 0, Text(counts))
  {
    i := 0;
    ghost var was, xs := t[..], Lines(counts);
    for k := 0 to |counts|
      invariant i == |Concat(xs[..k])| <= t.Length && t[..] == Splice(was, 0, Concat(xs[..k]))
    {
      SpliceNext(was, xs, k);
      i := PutLine(t, i, k, counts[k]);
    }
    assert xs[..|counts|] == xs;
  }
}

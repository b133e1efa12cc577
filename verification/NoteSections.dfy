/** A section of several notes: the scan for the metadata steps over every other note, whole. */
module NoteSections {
  import opened Bytes
  import opened Options
  import opened MsgPack
  import opened KernargNote

  datatype Note = Note(name: seq<byte>, ntype: nat, desc: seq<byte>)

  /** Sizes and type fit their 32-bit fields, the sizes even when rounded up. */
  predicate FitsWords(n: Note) { |n.name| + 3 < WORD && |n.desc| + 3 < WORD && n.ntype < WORD }

  /** The vendor's note of the metadata type. */
  predicate IsTheOne(n: Note) { n.ntype == NT_METADATA && VENDOR <= n.name }

  function Framed(n: Note): seq<byte> { Frame(n.name, n.ntype, n.desc) }

  /** The notes of a section, one after another. */
  function Section(notes: seq<Note>): seq<byte> {
    if notes == [] then [] else Framed(notes[0]) + Section(notes[1..])
  }

  // ---- reading in the middle of a section -------------------------------------------------

  lemma WordBehind(a: seq<byte>, s: seq<byte>, p: nat)
    requires p + 4 <= |s|
    ensures GetU32(a + s, |a| + p) == GetU32(s, p)
  {
  }

  lemma NoteBehind(a: seq<byte>, s: seq<byte>, p: nat)
    requires p + 12 <= |s|
    ensures GetU32(a + s, |a| + p) == GetU32(s, p) && GetU32(a + s, |a| + p + 4) == GetU32(s, p + 4)
    ensures IsMetadata(a + s, |a| + p) <==> IsMetadata(s, p)
    ensures DescAt(a + s, |a| + p) == |a| + DescAt(s, p) && NextNote(a + s, |a| + p) == |a| + NextNote(s, p)
  {
    WordBehind(a, s, p);
    WordBehind(a, s, p + 4);
    WordBehind(a, s, p + 8);
    if p + 18 <= |s| { assert (a + s)[|a| + p + 12..|a| + p + 18] == s[p + 12..p + 18]; }
  }

  /** What stands before the scan's position does not matter. */
  lemma {:induction false} FindBehind(a: seq<byte>, s: seq<byte>, p: nat)
    ensures FindDesc(a + s, |a| + p) == FindDesc(s, p)
    decreases |s| - p
  {
    if p + 12 <= |s| {
      NoteBehind(a, s, p);
      if DescAt(s, p) <= |s| {
        if IsMetadata(s, p) {
          var end := Min(DescAt(s, p) + GetU32(s, p + 4), |s|);
          assert (a + s)[|a| + DescAt(s, p)..|a| + end] == s[DescAt(s, p)..end];
        } else {
          FindBehind(a, s, NextNote(s, p));
        }
      }
    }
  }

  // ---- stepping over a note ---------------------------------------------------------------

  /** The header of a framed note, and where it and its descriptor end. */
  lemma FrameHead(n: Note, rest: seq<byte>)
    requires FitsWords(n)
    ensures var s := Framed(n) + rest;
            && |s| >= 12 && GetU32(s, 0) == |n.name| && GetU32(s, 4) == |n.desc| && GetU32(s, 8) == n.ntype
            && DescAt(s, 0) <= NextNote(s, 0) == |Framed(n)|
  {
    var padded := n.name + Pad(|n.name|) + (n.desc + Pad(|n.desc|)) + rest;
    var head := U32Bytes(|n.name|) + U32Bytes(|n.desc|) + U32Bytes(n.ntype);
    assert Framed(n) + rest == head + padded;
    HeaderWords(|n.name|, |n.desc|, n.ntype, padded);
  }

  /** A framed note is taken for the metadata one exactly when it is. */
  lemma FrameIsTheOne(n: Note, rest: seq<byte>)
    requires FitsWords(n)
    ensures |Framed(n) + rest| >= 12 && (IsMetadata(Framed(n) + rest, 0) <==> IsTheOne(n))
  {
    var s := Framed(n) + rest;
    FrameHead(n, rest);
    if |n.name| >= 6 {
      assert s[12..18] == n.name[..6];
    }
  }

  lemma StepOver(n: Note, rest: seq<byte>)
    requires FitsWords(n) && !IsTheOne(n)
    ensures FindDesc(Framed(n) + rest, 0) == FindDesc(rest, 0)
  {
    FrameHead(n, rest);
    FrameIsTheOne(n, rest);
    FindBehind(Framed(n), rest, 0);
  }

  /** Whatever other notes come first and whatever follows, the scan finds the metadata note's descriptor;
      among other notes alone it finds nothing. */
  lemma {:induction false} FoundAmongNotes(notes: seq<Note>, name: seq<byte>, desc: seq<byte>, more: seq<byte>)
    requires forall i :: 0 <= i < |notes| ==> FitsWords(notes[i]) && !IsTheOne(notes[i])
    requires VENDOR <= name && |name| + 3 < WORD && |desc| < WORD
    ensures FindDesc(Section(notes) + (Frame(name, NT_METADATA, desc) + more), 0) == Some(desc)
    ensures FindDesc(Section(notes), 0) == None
  {
    var last := Frame(name, NT_METADATA, desc) + more;
    if notes == [] {
      FrameFound(name, desc, more);
      assert Section(notes) + last == last;
    } else {
      FoundAmongNotes(notes[1..], name, desc, more);
      assert Section(notes) + last == Framed(notes[0]) + (Section(notes[1..]) + last);
      StepOver(notes[0], Section(notes[1..]) + last);
      StepOver(notes[0], Section(notes[1..]));
    }
  }

  /** So a document in the metadata note is read back wherever in the section the note stands. */
  lemma HoldsAmongNotes(notes: seq<Note>, name: seq<byte>, doc: Val, more: seq<byte>)
    requires forall i :: 0 <= i < |notes| ==> FitsWords(notes[i]) && !IsTheOne(notes[i])
    requires VENDOR <= name && |name| + 3 < WORD && Fits(doc)
    ensures Holds(Section(notes) + (Frame(name, NT_METADATA, Encode(Pack(doc))) + more), doc)
  {
    var packed := Encode(Pack(doc));
    PackRoundTrip(doc);
    ParseRoundTrip(Pack(doc), []);
    assert packed + [] == packed;
    FoundAmongNotes(notes, name, packed, more);
  }
}

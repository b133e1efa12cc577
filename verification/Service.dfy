/** The service thread as the program writes it: one object holding the file map, the primary
    stream and the counters, which scans the slot array and rewrites slots in place. */
module Service {
  import opened Bytes
  import opened Options
  import opened Abi
  import opened Host
  import opened Ring
  import opened RingRuns

  class HostcallService {
    const c: Config
    const slots: array<Slot>
    var files: map<seq<byte>, int>
    var streams: map<int, Stream>
    var primary: int
    var attempts: nat
    var opens: nat
    var writes: nat
    var closes: nat

    ghost predicate Valid()
      reads this, slots
    {
      slots.Length == NSLOTS && forall i :: 0 <= i < NSLOTS ==> slots[i].f.Valid()
    }

    function Abs(): Host
      reads this
    {
      Host(files, streams, primary, attempts, opens, writes, closes)
    }

    /** `ensure_runtime` and the locals of the service loop: zeroed slots, slot i's turn set to i. */
    constructor (c: Config)
      ensures Valid() && fresh(slots) && this.c == c
      ensures slots[..] == Init(c, []).slots && Abs() == Fresh
    {
      this.c := c;
      var q := new Slot[NSLOTS](_ => Slot(0, 0, ZeroFields, 0, Asked(Fclose, ABad)));
      for i := 0 to NSLOTS
        invariant forall k :: 0 <= k < NSLOTS ==>
                  q[k] == Slot(if k < i then k else 0, 0, ZeroFields, 0, Asked(Fclose, ABad))
      {
        q[i] := q[i].(turn := i);
      }
      slots := q;
      files, streams, primary := map[], map[], 0;
      attempts, opens, writes, closes := 0, 0, 0, 0;
    }

    method Write(f: int, bytes: seq<byte>) returns (n: int)
      requires f in streams
      modifies this`streams
      ensures Abs() == Append(old(Abs()), f, bytes)
      ensures n == if old(streams)[f].Writable() then |bytes| else 0
    {
      var st := streams[f];
      n := 0;
      if st.Writable() {
        streams := streams[f := st.(contents := st.contents + bytes)];
        n := |bytes|;
      }
    }

    /** The FOPEN case: open a distinct name once. */
    method Open(name: seq<byte>, mode: seq<byte>) returns (handle: int, retval: int)
      modifies this
      ensures (Abs(), Result(handle, retval, [])) == Exec(c.env, old(Abs()), AOpen(name, mode))
    {
      var f := if name in files then files[name] else 0;
      if f == 0 {
        if c.env.opens(attempts) {
          f := attempts + 1;
          streams := streams[f := Stream(name, mode, InitialContents(c.env, name, mode), 0)];
        }
        attempts := attempts + 1;
        files := files[name := f];
        if primary == 0 { primary := f; }
      }
      opens := opens + 1;
      handle := f;
      retval := if f != 0 then 0 else -1;
    }

    method Read(f: int, size: nat) returns (n: int, bytes: seq<byte>)
      requires f in streams && size <= DATA_SIZE
      modifies this`streams
      ensures (Abs(), Result(0, n, bytes)) == Exec(c.env, old(Abs()), ARead(f, size)) && |bytes| == n
    {
      var st := streams[f];
      n, bytes := 0, [];
      if !st.Writable() && st.pos <= |st.contents| {
        n := Min(size, |st.contents| - st.pos);
        bytes := st.contents[st.pos..st.pos + n];
        streams := streams[f := st.(pos := st.pos + n)];
      }
    }

    /** `service_slot`: the switch on the opcode, writing its results into the slot. */
    method ServiceSlot(i: nat, slices: seq<seq<byte>>)
      requires Valid() && i < NSLOTS
      modifies this, slots
      ensures Valid()
      ensures var op := Decode(old(slots[i]).f);
              var (host, res) := Exec(c.env, old(Abs()), Resolve(c, slices, op));
              Abs() == host && slots[..] ==
                old(slots[..])[i := old(slots[i]).(f := WriteBack(old(slots[i]).f, op, res))]
    {
      var s := slots[i];
      var f := s.f;
      if f.opcode == OP_FOPEN {
        var handle, retval := Open(CStr(f.path), CStr(f.mode));
        f := f.(handle := handle, retval := retval);
      } else if f.opcode == OP_FWRITE && 0 <= f.size <= DATA_SIZE {
        var n := -1;
        if f.handle in streams { n := Write(f.handle, f.data[..f.size]); }
        writes := writes + 1;
        f := f.(retval := n);
      } else if f.opcode == OP_FWRITE_PTR && 0 <= f.size {
        var n := -1;
        var record := ReadMem(c, slices, f.bufptr, f.size);
        if f.handle in streams && record.Some? { n := Write(f.handle, record.value); }
        writes := writes + 1;
        f := f.(retval := n);
      } else if f.opcode == OP_FREAD && 0 <= f.size <= DATA_SIZE {
        var n: int, bytes: seq<byte> := -1, [];
        if f.handle in streams { n, bytes := Read(f.handle, f.size); }
        f := f.(retval := n, data := bytes + f.data[|bytes|..]);
      } else if f.opcode == OP_FCLOSE {
        closes := closes + 1;
        f := f.(retval := 0);
      } else if f.opcode == OP_WRITE_ID {
        if primary in streams { var _ := Write(primary, IdLine(f.arg)); }
        writes := writes + 1;
        f := f.(retval := 0);
      } else {
        f := f.(retval := -1);
      }
      slots[i] := s.(f := f);
    }

    /** This object's slots and host are those of the machine state `m`. */
    ghost predicate Mirrors(m: State)
      reads this, slots
    {
      m.slots == slots[..] && m.host == Abs()
    }

    /** The loop body at slot i: skip it, or service it and store `status = 2`. */
    method Visit(i: nat, slices: seq<seq<byte>>, ghost m: State) returns (ready: bool)
      requires Valid() && Shape(c, m) && m.cpu == Scan(i) && Mirrors(m) && m.slices == slices
      modifies this, slots
      ensures Valid() && ready == (m.slots[i].status == 1)
      ensures Mirrors(if ready then PastReady(c, m, []) else m)
    {
      ready := slots[i].status == 1;
      if ready {
        ServiceSlot(i, slices);
        slots[i] := slots[i].(status := 2);
        assert slots[..] == m.slots[i := Completed(c, m, i)];
      }
    }

    /** One pass of the service loop over the ring, with the waves standing still. It does exactly
        what the step machine's service thread does between two visits to slot 0. */
    method ScanPass(slices: seq<seq<byte>>, ghost s: State) returns (any: bool, ghost steps: nat)
      requires Valid() && Shape(c, s) && s.cpu == Scan(0) && Mirrors(s) && s.slices == slices
      modifies this, slots
      ensures Valid()
      ensures var m := RunAll(c, s, CpuSteps(steps));
              Mirrors(m) && m == s.(slots := m.slots, host := m.host, log := m.log)
      ensures Visited(s, RunAll(c, s, CpuSteps(steps)), NSLOTS) && (any <==> AnyReady(s, NSLOTS))
    {
      any := false;
      steps := 0;
      ghost var m := s;
      for i := 0 to NSLOTS
        invariant Valid() && Shape(c, m) && Mirrors(m) && m == RunAll(c, s, CpuSteps(steps))
        invariant m == s.(slots := m.slots, host := m.host, log := m.log, cpu := Scan(if i < NSLOTS then i else 0))
        invariant Visited(s, m, i) && (any <==> AnyReady(s, i))
      {
        var ready := Visit(i, slices, m);
        ghost var k', m' := PassOver(c, s, steps, m);
        VisitedNext(c, s, m, m', i);
        steps, m := k', m';
        any := any || ready;
      }
    }
  }

  /** Below slot n every ready request has been answered and nothing else has moved. */
  ghost predicate Visited(s: State, m: State, n: nat)
    requires |s.slots| == |m.slots| == NSLOTS && n <= NSLOTS
  {
    && (forall k :: 0 <= k < n ==> m.slots[k].status == if s.slots[k].status == 1 then 2 else s.slots[k].status)
    && (forall k :: 0 <= k < n && s.slots[k].status != 1 ==> m.slots[k] == s.slots[k])
    && (forall k :: n <= k < NSLOTS ==> m.slots[k] == s.slots[k])
  }

  ghost predicate AnyReady(s: State, n: nat)
    requires n <= |s.slots|
  {
    exists k :: 0 <= k < n && s.slots[k].status == 1
  }

  lemma VisitedNext(c: Config, s: State, m: State, m': State, i: nat)
    requires Shape(c, s) && Shape(c, m) && i < NSLOTS && m.cpu == Scan(i) && Visited(s, m, i)
    requires m' == if m.slots[i].status == 1 then PastReady(c, m, m'.log) else m.(cpu := Scan(Next(i)))
    ensures |m'.slots| == NSLOTS && Visited(s, m', i + 1)
    ensures AnyReady(s, i + 1) <==> AnyReady(s, i) || m.slots[i].status == 1
    ensures m' == m.(slots := m'.slots, host := m'.host, log := m'.log, cpu := Scan(Next(i)))
  {
  }

  /** Slot i after its request has been serviced and marked done. */
  function Completed(c: Config, s: State, i: nat): Slot
    requires Shape(c, s) && i < NSLOTS
  {
    var op := Decode(s.slots[i].f);
    s.slots[i].(f := WriteBack(s.slots[i].f, op, Exec(c.env, s.host, Resolve(c, s.slices, op)).1), status := 2)
  }

  function CpuSteps(k: nat): seq<Actor> { seq(k, _ => ACpu) }

  lemma CpuStepsOne(c: Config, s: State, k: nat)
    requires Shape(c, s)
    ensures RunAll(c, s, CpuSteps(k + 1)) == CpuStep(c, RunAll(c, s, CpuSteps(k)))
  {
    assert CpuSteps(k + 1)[..|CpuSteps(k + 1)| - 1] == CpuSteps(k);
  }

  lemma ThreeSteps(c: Config, m: State)
    requires Shape(c, m) && m.cpu.Scan? && m.slots[m.cpu.i].status == 1
    ensures var m' := CpuStep(c, CpuStep(c, CpuStep(c, m)));
            m' == PastReady(c, m, m'.log)
  {
  }

  /** `m` with its scanned slot serviced and the scan at the next slot. */
  function PastReady(c: Config, m: State, log: seq<Entry>): State
    requires Shape(c, m)
  {
    var i := m.cpu.i;
    m.(slots := m.slots[i := Completed(c, m, i)], cpu := Scan(Next(i)), log := log,
       host := Exec(c.env, m.host, Resolve(c, m.slices, Decode(m.slots[i].f))).0)
  }

  /** What the scan does at slot i: one step over an idle slot, three over a ready one. */
  lemma PassOver(c: Config, s: State, k: nat, m: State) returns (k': nat, m': State)
    requires Shape(c, s) && m == RunAll(c, s, CpuSteps(k)) && m.cpu.Scan?
    ensures m' == RunAll(c, s, CpuSteps(k'))
    ensures m' == if m.slots[m.cpu.i].status == 1 then PastReady(c, m, m'.log) else m.(cpu := Scan(Next(m.cpu.i)))
  {
    CpuStepsOne(c, s, k);
    if m.slots[m.cpu.i].status == 1 {
      CpuStepsOne(c, s, k + 1);
      CpuStepsOne(c, s, k + 2);
      ThreeSteps(c, m);
      k', m' := k + 3, CpuStep(c, CpuStep(c, CpuStep(c, m)));
    } else {
      k', m' := k + 1, CpuStep(c, m);
    }
  }
}

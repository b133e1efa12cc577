/** The GPU-to-CPU hostcall ring as a step machine: every wave and the one service thread advance
    one load, store or atomic at a time, in any order. Each modelled access is one sequentially
    consistent step.

    Tickets and turns are taken modulo `c.m`; `c.m == 0` is the ideal ring with unbounded tickets
    and `c.m == WORD` is the 32-bit code. Fields named `owner`, `user`, `asked`, `left` and `log`
    are history: no step reads them to decide what to do. */
module Ring {
  import opened Bytes
  import opened Options
  import opened Abi
  import opened Host

  /** What a kernel's own code does next in one wave: rewrite the wave's slice of the arena, or
      make a hostcall. */
  datatype Action = Local(slice: seq<byte>) | Call(req: Request)

  /** A request together with the operation it denotes when it is made. */
  datatype Asked = Asked(req: Request, want: Act)
  datatype Called = Called(ask: Asked, reply: Reply)

  /** One wave's code: `len` actions, each a function of the wave's slice and its past calls. */
  datatype Program = Program(len: nat, act: (nat, seq<byte>, seq<Called>) -> Action)

  datatype Config = Config(m: nat, base: nat, stride: nat, progs: seq<Program>, env: Env, limit: nat)

  datatype Pc =
    | Run                                                                // in the kernel's own code
    | Gate(pos: nat, ask: Asked)                                         // spinning on turn
    | Fill(pos: nat, ask: Asked, j: nat, left: Fields)                   // past the gate, j stores made
    | Wait(pos: nat, ask: Asked)                                         // status = 1 stored, spinning on 2
    | Take(pos: nat, ask: Asked)                                         // saw status == 2
    | Clear(pos: nat, ask: Asked, rep: Reply)                            // result loaded
    | Load(pos: nat, ask: Asked, rep: Reply)                             // status = 0 stored
    | Publish(pos: nat, ask: Asked, rep: Reply, t: nat)                  // turn loaded into t

  datatype Wave = Wave(pc: Pc, k: nat, calls: seq<Called>)
  datatype Slot = Slot(turn: nat, status: int, f: Fields, user: nat, asked: Asked)
  datatype Cpu = Scan(i: nat) | Serve(i: nat) | Finish(i: nat)
  datatype Entry = Entry(w: nat, ticket: nat, ask: Asked, act: Act, res: Result)

  datatype State = State(next: nat, slots: seq<Slot>, waves: seq<Wave>, resident: set<nat>,
                         slices: seq<seq<byte>>, cpu: Cpu, host: Host,
                         owner: seq<nat>, log: seq<Entry>)

  datatype Actor = AWave(w: nat) | ACpu | AAdmit(w: nat) | ARetire(w: nat)

  function Wr(m: nat, x: nat): nat { if m == 0 then x else x % m }

  // ---- memory -----------------------------------------------------------------------------

  /** The byte at offset `a` of the flat per-wave arena. */
  function ByteAt(stride: nat, slices: seq<seq<byte>>, a: nat): byte {
    if stride > 0 && a / stride < |slices| && a % stride < |slices[a / stride]|
    then slices[a / stride][a % stride] else 0
  }

  function BytesFrom(stride: nat, slices: seq<seq<byte>>, a: nat, n: nat): (r: seq<byte>)
    ensures |r| == n
  {
    seq<byte>(n, k requires 0 <= k < n => ByteAt(stride, slices, a + k))
  }

  /** The host's read of `n` bytes at device address `p`; None when they are not in the arena. */
  function ReadMem(c: Config, slices: seq<seq<byte>>, p: int, n: nat): Option<seq<byte>> {
    if c.base > 0 && c.base <= p && p - c.base + n <= |slices| * c.stride
    then Some(BytesFrom(c.stride, slices, p - c.base, n))
    else None
  }

  /** `service_slot`'s operation with the record behind a pointer read in place. */
  function Resolve(c: Config, slices: seq<seq<byte>>, op: HostOp): Act {
    match op
    case HOpen(n, m) => AOpen(n, m)
    case HWrite(h, b) => AWrite(h, Some(b))
    case HWritePtr(h, p, n) => AWrite(h, ReadMem(c, slices, p, n))
    case HRead(h, n) => ARead(h, n)
    case HClose => AClose
    case HId(id) => AId(id)
    case HBad => ABad
  }

  // ---- steps ------------------------------------------------------------------------------

  ghost predicate Shape(c: Config, s: State) {
    && |s.slots| == NSLOTS
    && |s.waves| == |s.slices| == |c.progs|
    && (forall i :: 0 <= i < NSLOTS ==> s.slots[i].f.Valid())
    && s.cpu.i < NSLOTS
  }

  predicate Done(c: Config, s: State, w: nat)
    requires w < |s.waves| && w < |c.progs|
  {
    s.waves[w].pc.Run? && s.waves[w].k >= c.progs[w].len
  }

  function SetWave(s: State, w: nat, pc: Pc): State
    requires w < |s.waves|
  {
    s.(waves := s.waves[w := s.waves[w].(pc := pc)])
  }

  function SetSlot(s: State, i: nat, slot: Slot): State
    requires i < |s.slots|
  {
    s.(slots := s.slots[i := slot])
  }

  /** `hc_acquire`: the ticket. */
  function TakeTicket(c: Config, s: State, w: nat, req: Request): (r: State)
    requires Shape(c, s) && w < |s.waves|
    ensures Shape(c, r) && |r.waves| == |s.waves|
  {
    SetWave(s, w, Gate(s.next, Asked(req, Resolve(c, s.slices, Meaning(req))))).(next := Wr(c.m, s.next + 1),
      owner := s.owner + [w])
  }

  /** One step of the kernel's own code. */
  function KernelStep(c: Config, s: State, w: nat): (r: State)
    requires Shape(c, s) && w < |s.waves|
    ensures Shape(c, r) && |r.waves| == |s.waves|
  {
    var wave := s.waves[w];
    if wave.k >= c.progs[w].len then s
    else
      match c.progs[w].act(wave.k, s.slices[w], wave.calls)
      case Local(sl) =>
        s.(waves := s.waves[w := wave.(k := wave.k + 1)],
           slices := if |sl| == |s.slices[w]| then s.slices[w := sl] else s.slices)
      case Call(req) => TakeTicket(c, s, w, req)
  }

  /** `hc_release`'s exchange on `turn`; the wrapper returns. */
  function PublishStep(c: Config, s: State, w: nat): (r: State)
    requires Shape(c, s) && w < |s.waves| && s.waves[w].pc.Publish?
    ensures Shape(c, r) && |r.waves| == |s.waves|
  {
    var wave := s.waves[w];
    var i := wave.pc.pos % NSLOTS;
    SetSlot(s, i, s.slots[i].(turn := Wr(c.m, wave.pc.t + NSLOTS)))
      .(waves := s.waves[w := Wave(Run, wave.k + 1, wave.calls + [Called(wave.pc.ask, wave.pc.rep)])])
  }

  function WaveStep(c: Config, s: State, w: nat): (r: State)
    requires Shape(c, s) && w < |s.waves|
    ensures Shape(c, r) && |r.waves| == |s.waves|
  {
    if w !in s.resident then s
    else
      match s.waves[w].pc
      case Run => KernelStep(c, s, w)
      case Gate(pos, ask) =>
        var slot := s.slots[pos % NSLOTS];
        if slot.turn != pos then s
        else SetWave(SetSlot(s, pos % NSLOTS, slot.(user := w, asked := ask)), w, Fill(pos, ask, 0, slot.f))
      case Fill(pos, ask, j, left) =>
        var slot := s.slots[pos % NSLOTS];
        StoresFit(ask.req);
        if j < |Stores(ask.req)| then
          SetWave(SetSlot(s, pos % NSLOTS, slot.(f := Apply(slot.f, Stores(ask.req)[j]))), w,
            Fill(pos, ask, j + 1, left))
        else
          SetWave(SetSlot(s, pos % NSLOTS, slot.(status := 1)), w, Wait(pos, ask))
      case Wait(pos, ask) =>
        if s.slots[pos % NSLOTS].status != 2 then s else SetWave(s, w, Take(pos, ask))
      case Take(pos, ask) => SetWave(s, w, Clear(pos, ask, ReadReply(ask.req, s.slots[pos % NSLOTS].f)))
      case Clear(pos, ask, rep) =>
        SetWave(SetSlot(s, pos % NSLOTS, s.slots[pos % NSLOTS].(status := 0)), w, Load(pos, ask, rep))
      case Load(pos, ask, rep) => SetWave(s, w, Publish(pos, ask, rep, s.slots[pos % NSLOTS].turn))
      case Publish(_, _, _, _) => PublishStep(c, s, w)
  }

  function Next(i: nat): nat { if i + 1 < NSLOTS then i + 1 else 0 }

  /** `service_slot` on slot i: decode, execute against the file map, write the result back. */
  function ServeStep(c: Config, s: State, i: nat): (r: State)
    requires Shape(c, s) && i < NSLOTS
    ensures Shape(c, r) && |r.waves| == |s.waves|
  {
    var slot := s.slots[i];
    var op := Decode(slot.f);
    var act := Resolve(c, s.slices, op);
    var (host, res) := Exec(c.env, s.host, act);
    SetSlot(s, i, slot.(f := WriteBack(slot.f, op, res)))
      .(cpu := Finish(i), host := host, log := s.log + [Entry(slot.user, slot.turn, slot.asked, act, res)])
  }

  function CpuStep(c: Config, s: State): (r: State)
    requires Shape(c, s)
    ensures Shape(c, r) && |r.waves| == |s.waves|
  {
    match s.cpu
    case Scan(i) => if s.slots[i].status == 1 then s.(cpu := Serve(i)) else s.(cpu := Scan(Next(i)))
    case Serve(i) => ServeStep(c, s, i)
    case Finish(i) => SetSlot(s, i, s.slots[i].(status := 2)).(cpu := Scan(Next(i)))
  }

  /** The dispatcher: an unfinished wave becomes resident while there is room, a finished one leaves. */
  function Admit(c: Config, s: State, w: nat): (r: State)
    requires Shape(c, s) && w < |s.waves|
    ensures Shape(c, r) && |r.waves| == |s.waves|
  {
    if w !in s.resident && |s.resident| < c.limit && !Done(c, s, w) then s.(resident := s.resident + {w}) else s
  }

  function Retire(c: Config, s: State, w: nat): (r: State)
    requires Shape(c, s) && w < |s.waves|
    ensures Shape(c, r) && |r.waves| == |s.waves|
  {
    if w in s.resident && Done(c, s, w) then s.(resident := s.resident - {w}) else s
  }

  function Step(c: Config, s: State, a: Actor): (r: State)
    requires Shape(c, s)
    ensures Shape(c, r) && |r.waves| == |s.waves|
  {
    match a
    case ACpu => CpuStep(c, s)
    case AWave(w) => if w < |s.waves| then WaveStep(c, s, w) else s
    case AAdmit(w) => if w < |s.waves| then Admit(c, s, w) else s
    case ARetire(w) => if w < |s.waves| then Retire(c, s, w) else s
  }

  /** Only the dispatcher changes who is resident, and it respects the residency limit. */
  lemma StepResident(c: Config, s: State, a: Actor)
    requires Shape(c, s) && |s.resident| <= c.limit
    ensures |Step(c, s, a).resident| <= c.limit
  {
  }
}

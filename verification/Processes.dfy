/** Processes, their contexts and the round-robin scheduler, as a machine whose steps are
    create, timer tick, terminate and kill. */
module Processes {
  import P = Paging

  const SLOTS := 16
  const PAGES_MAX := 8

  datatype State = New | Waiting | Ready | Running | Terminated

  /** Registers in the order edi, esi, ebp, esp, ebx, edx, ecx, eax, gs, fs, es, ds. */
  datatype Context = Context(regs: seq<nat>, eip: nat, eflags: nat, dir: nat)

  datatype Pcb = Pcb(pid: nat, name: seq<nat>, state: State, ctx: Context, addresses: seq<nat>, frames: nat)

  const NO_REGISTERS: seq<nat> := [0, 0, 0, 0, 0, 0, 0, 0, 0, 0, 0, 0]

  /** A process control block of zeros. */
  function Cleared(): Pcb {
    Pcb(0, [0, 0, 0, 0, 0, 0, 0, 0], New, Context(NO_REGISTERS, 0, 0, 0), [0, 0, 0, 0, 0, 0, 0, 0], 0)
  }

  /** What a new process starts with. */
  function Initial(dir: nat): Context {
    var stack, segment := 0x40_0000 - 4, 35;
    Context([0, 0, stack, stack, 0, 0, 0, 0, segment, segment, segment, segment], 0, 0x202, dir)
  }

  /** `base` is where the directory list lies, `cr3` the register. */
  datatype Kernel = Kernel(base: nat, procs: seq<Pcb>, running: int, active: int, cr3: nat, pages: P.Pages)

  /** What a scheduling step makes the processor load. */
  datatype Resume = Stay | Go(slot: nat, ctx: Context)

  // ---- Scheduling ----

  /** The slot c steps behind the one after `running`, going round. */
  function Following(running: int, c: nat): (next: nat)
    requires -1 <= running < SLOTS && c <= SLOTS
    ensures next < SLOTS && next == (running + 1 + c) % SLOTS
  {
    var x := running + 1 + c;
    if x >= 2 * SLOTS then x - 2 * SLOTS else if x >= SLOTS then x - SLOTS else x
  }

  /** How many slots the search passes before it comes to i. */
  function Hops(running: int, i: nat): (c: nat)
    requires -1 <= running < SLOTS && i < SLOTS
    ensures c < SLOTS && Following(running, c) == i
  {
    if i > running then i - running - 1 else i - running - 1 + SLOTS
  }

  /** Where the circular search stops: at a ready slot, back at the running one, or after a
      whole round. */
  function Scan(procs: seq<Pcb>, running: int, c: nat): (stop: nat)
    requires |procs| == SLOTS && -1 <= running < SLOTS && c <= SLOTS
    ensures c <= stop <= SLOTS
    ensures forall i :: c <= i < stop ==> procs[Following(running, i)].state != Ready && Following(running, i) != running
    ensures stop < SLOTS && Following(running, stop) != running ==> procs[Following(running, stop)].state == Ready
    decreases SLOTS - c
  {
    if c == SLOTS || Following(running, c) == running || procs[Following(running, c)].state == Ready then c
    else Scan(procs, running, c + 1)
  }

  function SetState(procs: seq<Pcb>, i: nat, state: State): seq<Pcb>
    requires i < |procs|
  {
    procs[i := procs[i].(state := state)]
  }

  /** The processor on slot `next`, with its directory loaded. */
  function Resumed(k: Kernel, next: nat): Kernel
    requires next < |k.procs|
  {
    k.(procs := SetState(k.procs, next, Running), running := next, cr3 := P.Use(k.procs[next].ctx.dir))
  }

  function Switch(k: Kernel): (Kernel, Resume)
    requires |k.procs| == SLOTS && -1 <= k.running < SLOTS
  {
    var c := Scan(k.procs, k.running, 0);
    var next := Following(k.running, c);
    if next == k.running then (k.(procs := SetState(k.procs, next, Running)), Stay)
    else if c == SLOTS then (k, Stay)
    else (Resumed(k, next), Go(next, k.procs[next].ctx))
  }

  function Save(k: Kernel, ctx: Context): Kernel
    requires |k.procs| == SLOTS && -1 <= k.running < SLOTS
  {
    if k.running == -1 then k
    else k.(procs := k.procs[k.running := k.procs[k.running].(ctx := ctx, state := Ready)])
  }

  /** The context the timer interrupt captures. */
  function Captured(k: Kernel, regs: seq<nat>, eip: nat, eflags: nat): Context {
    Context(regs, eip, eflags, P.Current(k.cr3))
  }

  function Tick(k: Kernel, regs: seq<nat>, eip: nat, eflags: nat): (Kernel, Resume)
    requires |k.procs| == SLOTS && -1 <= k.running < SLOTS
  {
    Switch(Save(k, Captured(k, regs, eip, eflags)))
  }

  function Clear(k: Kernel, i: nat): Kernel
    requires i < |k.procs|
  {
    k.(procs := k.procs[i := Cleared()])
  }

  function Terminate(k: Kernel): (Kernel, Resume)
    requires |k.procs| == SLOTS && 0 <= k.running < SLOTS
  {
    Switch(Clear(k, k.running))
  }

  /** First slot at or after i with this pid, or SLOTS. */
  function FindPid(procs: seq<Pcb>, pid: nat, i: nat): (j: nat)
    requires |procs| == SLOTS && i <= SLOTS
    ensures i <= j <= SLOTS && (j < SLOTS ==> procs[j].pid == pid)
    ensures forall k :: i <= k < j ==> procs[k].pid != pid
    decreases SLOTS - i
  {
    if i == SLOTS || procs[i].pid == pid then i else FindPid(procs, pid, i + 1)
  }

  /** The slot a kill clears, or SLOTS. */
  function KillTarget(k: Kernel, pid: nat): nat
    requires |k.procs| == SLOTS && 0 <= k.running < SLOTS
  {
    if k.procs[k.running].pid == pid then k.running else FindPid(k.procs, pid, 0)
  }

  function Kill(k: Kernel, pid: nat): (Kernel, Resume)
    requires |k.procs| == SLOTS && 0 <= k.running < SLOTS
  {
    var i := KillTarget(k, pid);
    if i == k.running then Terminate(k)
    else if i == SLOTS then (k, Stay)
    else (Clear(k, i), Stay)
  }

  // ---- Creation ----

  /** A creation request: the program's name, entry address and size, and whether the file
      system can read it. */
  datatype Program = Program(name: seq<nat>, entry: nat, size: nat, readable: bool)

  function CeilDiv(a: nat, b: nat): (r: nat)
    requires b > 0
    ensures b * r >= a && b * r < a + b
  {
    if a % b != 0 then a / b + 1 else a / b
  }

  /** Frames asked for: the program and one for its stack, in 32-bit arithmetic. */
  function Needed(size: nat): nat { CeilDiv((size + P.FRAME_SIZE) % P.WORD, P.FRAME_SIZE) }

  function FirstNew(procs: seq<Pcb>, i: nat): (j: nat)
    requires i <= |procs|
    ensures i <= j <= |procs| && (j < |procs| ==> procs[j].state == New)
    ensures forall k :: i <= k < j ==> procs[k].state != New
    decreases |procs| - i
  {
    if i == |procs| || procs[i].state == New then i else FirstNew(procs, i + 1)
  }

  predicate PidUsed(procs: seq<Pcb>, pid: nat) { exists i :: 0 <= i < |procs| && procs[i].pid == pid }

  /** The least unused pid from p on; the search gives up past SLOTS + 1. */
  function PidFrom(procs: seq<Pcb>, p: nat): (q: nat)
    requires p <= SLOTS + 1
    ensures p <= q <= SLOTS + 1 && (q <= SLOTS ==> !PidUsed(procs, q))
    ensures forall r :: p <= r < q ==> PidUsed(procs, r)
    decreases SLOTS + 1 - p
  {
    if p == SLOTS + 1 || !PidUsed(procs, p) then p else PidFrom(procs, p + 1)
  }

  /** Frames for the first n pages of directory d; an allocation that fails is skipped. */
  function AllocateFrom(p: P.Pages, d: nat, i: nat, n: nat): P.Pages
    requires d < |p.dirs| && i <= n
    decreases n - i
  {
    if i == n then p
    else AllocateFrom(P.Allocate(p, d, i * P.FRAME_SIZE), d, i + 1, n)
  }

  function PageAddresses(n: nat): seq<nat> { seq(n, i => i * P.FRAME_SIZE) }

  function NewAddresses(before: seq<nat>, n: nat): seq<nat> {
    PageAddresses(n) + if n <= |before| then before[n..] else []
  }

  const SUCCESS := 0
  const MAX_PROCESS_EXCEEDED := 1
  const INVALID_ENTRYPOINT := 2
  const NOT_ENOUGH_MEMORY := 3
  const READ_FAILURE := 4

  function CreateCode(k: Kernel, q: Program): nat
    requires |k.pages.used| == |k.pages.dirs|
  {
    if k.active >= SLOTS then MAX_PROCESS_EXCEEDED
    else if q.entry >= P.KERNEL_BASE then INVALID_ENTRYPOINT
    else if !P.AllocateCheck(k.pages, Needed(q.size)) || Needed(q.size) > PAGES_MAX then NOT_ENOUGH_MEMORY
    else if P.FirstUnused(k.pages) == |k.pages.used| then NOT_ENOUGH_MEMORY
    else if !q.readable then READ_FAILURE
    else SUCCESS
  }

  /** The directories after a creation got as far as loading the program. */
  function LoadedPages(k: Kernel, q: Program): P.Pages
    requires |k.pages.used| == |k.pages.dirs| && P.FirstUnused(k.pages) < |k.pages.used|
  {
    AllocateFrom(P.Create(k.pages), P.FirstUnused(k.pages), 0, Needed(q.size))
  }

  /** The slot of a creation once it has its pages. */
  function Placed(p: Pcb, q: Program): Pcb {
    p.(addresses := NewAddresses(p.addresses, Needed(q.size)), frames := Needed(q.size))
  }

  /** The slot once the process can be scheduled. */
  function Started(p: Pcb, q: Program, home: nat, pid: nat): Pcb {
    p.(name := q.name, ctx := Initial(home), pid := pid, state := Ready)
  }

  function Created(k: Kernel, q: Program): Kernel
    requires |k.procs| == SLOTS && |k.pages.used| == |k.pages.dirs|
  {
    var code, slot := CreateCode(k, q), FirstNew(k.procs, 0);
    if (code != READ_FAILURE && code != SUCCESS) || slot == SLOTS then k
    else
      var p, cr3 := Placed(k.procs[slot], q), P.Use(P.Current(k.cr3));
      if code == READ_FAILURE then k.(procs := k.procs[slot := p], cr3 := cr3, pages := LoadedPages(k, q))
      else
        var started := Started(p, q, P.DirectoryAddress(k.base, P.FirstUnused(k.pages)), PidFrom(k.procs, 1));
        k.(procs := k.procs[slot := started], active := k.active + 1, cr3 := cr3, pages := LoadedPages(k, q))
  }

  // ---- Steps ----

  datatype Event = Create(q: Program) | TimerTick(regs: seq<nat>, eip: nat, eflags: nat) | Exit | KillPid(pid: nat)

  /** Termination and kill need a running process to start from. */
  predicate Legal(k: Kernel, e: Event) { e.Exit? || e.KillPid? ==> k.running >= 0 }

  predicate Sizes(k: Kernel) { |k.procs| == SLOTS && -1 <= k.running < SLOTS && |k.pages.used| == |k.pages.dirs| }

  function Step(k: Kernel, e: Event): (Kernel, Resume)
    requires Sizes(k) && Legal(k, e)
  {
    match e
    case Create(q) => (Created(k, q), Stay)
    case TimerTick(regs, eip, eflags) => Tick(k, regs, eip, eflags)
    case Exit => Terminate(k)
    case KillPid(pid) => Kill(k, pid)
  }
}

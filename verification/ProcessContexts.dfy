/** Where a process goes on when it gets the processor back. */
module ProcessContexts {
  import opened Processes
  import opened ProcessRuns
  import P = Paging

  // ---- What a tick stores ----

  /** A tick stores each part of what it interrupts in its own field of the slot that was running,
      with the slot's own directory, and leaves the rest of the slot as it was. */
  lemma TickStores(k: Kernel, g: Ledger, regs: seq<nat>, eip: nat, eflags: nat)
    requires Inv(k, g) && k.running >= 0
    ensures var (t, r) := Step(k, TimerTick(regs, eip, eflags));
      |t.procs| == SLOTS && t.procs[k.running] == k.procs[k.running].(
        ctx := Context(regs, eip, eflags, HomeAddress(k, g, k.running)), state := if r.Go? then Ready else Running)
  {
    UseInRange(k, g, k.running);
    SwitchCases(Save(k, Captured(k, regs, eip, eflags)));
  }

  // ---- While a process waits ----

  /** Process j waits all through the run: it is ready before each event and after the last one, and
      no event kills it. */
  predicate Waits(k: Kernel, g: Ledger, es: seq<Event>, j: nat)
    requires Inv(k, g) && LegalRun(k, g, es)
    decreases |es|
  {
    && j < SLOTS && k.procs[j].state == Ready
    && (es == [] || (Killed(k, es[0]) != j && (StepKeepsInv(k, g, es[0]); Waits(Step(k, es[0]).0, Record(k, g, es[0]), es[1..], j))))
  }

  lemma WaitingStep(k: Kernel, g: Ledger, e: Event, j: nat)
    requires Inv(k, g) && Legal(k, e) && j < SLOTS && k.procs[j].state == Ready && Killed(k, e) != j
    requires |Step(k, e).0.procs| == SLOTS && Step(k, e).0.procs[j].state == Ready
    ensures Step(k, e).0.procs[j] == k.procs[j]
  {
    WaitingIsUntouched(k, g, e, j);
  }

  /** Its control block stays as it is. */
  lemma {:induction false} WaitingKeeps(k: Kernel, g: Ledger, es: seq<Event>, j: nat)
    requires Inv(k, g) && LegalRun(k, g, es) && Waits(k, g, es, j)
    ensures |Run(k, g, es).0.procs| == SLOTS && Run(k, g, es).0.procs[j] == k.procs[j]
    decreases |es|
  {
    if es != [] {
      StepKeepsInv(k, g, es[0]);
      WaitingKeeps(Step(k, es[0]).0, Record(k, g, es[0]), es[1..], j);
      WaitingStep(k, g, es[0], j);
    }
  }

  /** Resuming it loads what is in its control block. */
  lemma ResumeLoads(t: Kernel, e: Event, j: nat)
    requires Sizes(t) && Legal(t, e) && Step(t, e).1.Go? && Step(t, e).1.slot == j && j < SLOTS
    requires t.procs[j].state == Ready && j != t.running && Killed(t, e) != j
    ensures Step(t, e).1.ctx == t.procs[j].ctx && Step(t, e).0.running == j
    ensures Step(t, e).0.cr3 == P.Use(t.procs[j].ctx.dir)
  {
    match e
    case Create(q) =>
    case TimerTick(regs, eip, eflags) => SwitchCases(Save(t, Captured(t, regs, eip, eflags)));
    case Exit => SwitchCases(Clear(t, t.running));
    case KillPid(_) => SwitchCases(Clear(t, t.running));
  }

  // ---- Back where it was ----

  /** A process taken off the processor by a tick that interrupted it at `eip` with `regs` and `eflags`,
      and put back after any run in which it waits, goes on exactly there, in its own directory. */
  lemma ResumesWhereItStopped(k: Kernel, g: Ledger, regs: seq<nat>, eip: nat, eflags: nat, es: seq<Event>, e: Event)
    requires Inv(k, g) && k.running >= 0
    requires var (k1, g1) := (Step(k, TimerTick(regs, eip, eflags)).0, Record(k, g, TimerTick(regs, eip, eflags)));
      && Inv(k1, g1) && LegalRun(k1, g1, es) && Waits(k1, g1, es, k.running)
      && var t := Run(k1, g1, es).0;
         Sizes(t) && Legal(t, e) && Killed(t, e) != k.running && Step(t, e).1.Go? && Step(t, e).1.slot == k.running
    ensures var (k1, g1) := (Step(k, TimerTick(regs, eip, eflags)).0, Record(k, g, TimerTick(regs, eip, eflags)));
      Step(Run(k1, g1, es).0, e).1.ctx == Context(regs, eip, eflags, HomeAddress(k, g, k.running))
  {
    var k1, g1 := Step(k, TimerTick(regs, eip, eflags)).0, Record(k, g, TimerTick(regs, eip, eflags));
    TickStores(k, g, regs, eip, eflags);
    WaitingKeeps(k1, g1, es, k.running);
    RunKeepsInv(k1, g1, es);
    ResumeLoads(Run(k1, g1, es).0, e, k.running);
  }

  // ---- From the beginning ----

  /** A new process starts at address 0 with interrupts on, in the directory it was given: its stack
      ends four bytes below the end of its first page, its segments are the user's data segment. */
  predicate Begins(c: Context, dir: nat) {
    && c.eip == 0 && c.eflags == 0x200 + 0x2 && c.dir == dir && |c.regs| == 12
    && c.regs[2] == c.regs[3] == P.FRAME_SIZE - 4
    && (forall i :: 8 <= i < 12 ==> c.regs[i] == 8 * 4 + 3)
    && forall i :: 0 <= i < 8 && i != 2 && i != 3 ==> c.regs[i] == 0
  }

  lemma CreatedBegins(k: Kernel, g: Ledger, q: Program)
    requires Inv(k, g) && CreateCode(k, q) == SUCCESS
    ensures var t, slot := Step(k, Create(q)).0, FirstNew(k.procs, 0);
      slot < SLOTS == |t.procs| && Begins(t.procs[slot].ctx, P.DirectoryAddress(k.base, P.FirstUnused(k.pages)))
  {
    AdmittedHasSlot(k, g);
  }

  /** And does so whenever it first gets the processor. */
  lemma StartsAtItsBeginning(k: Kernel, g: Ledger, q: Program, es: seq<Event>, e: Event)
    requires Inv(k, g) && CreateCode(k, q) == SUCCESS
    requires var (k1, g1, j) := (Step(k, Create(q)).0, Record(k, g, Create(q)), FirstNew(k.procs, 0));
      && Inv(k1, g1) && LegalRun(k1, g1, es) && Waits(k1, g1, es, j)
      && var t := Run(k1, g1, es).0; Sizes(t) && Legal(t, e) && Killed(t, e) != j && Step(t, e).1.Go? && Step(t, e).1.slot == j
    ensures var (k1, g1) := (Step(k, Create(q)).0, Record(k, g, Create(q)));
      Begins(Step(Run(k1, g1, es).0, e).1.ctx, P.DirectoryAddress(k.base, P.FirstUnused(k.pages)))
  {
    var k1, g1, j := Step(k, Create(q)).0, Record(k, g, Create(q)), FirstNew(k.procs, 0);
    CreatedBegins(k, g, q);
    WaitingKeeps(k1, g1, es, j);
    RunKeepsInv(k1, g1, es);
    ResumeLoads(Run(k1, g1, es).0, e, j);
  }
}

/** Who has a pid: what a creation leaves in its slot, and the processes that go on without one. */
module ProcessPids {
  import opened Counting
  import opened Processes
  import opened ProcessRuns
  import P = Paging

  // ---- A new process ----

  /** With a slot free no more pids than the other slots can be in use. */
  lemma NewPidIsSmall(procs: seq<Pcb>, slot: nat)
    requires slot < |procs| == SLOTS && procs[slot].pid == 0
    ensures PidFrom(procs, 1) <= SLOTS
  {
    if PidFrom(procs, 1) == SLOTS + 1 {
      var slots := seq(SLOTS + 1, p requires 0 <= p < SLOTS + 1 => if p == 0 then slot else SlotOf(procs, p));
      forall p | 0 <= p < SLOTS + 1
        ensures slots[p] < SLOTS && procs[slots[p]].pid == p
      {
        assert p >= 1 ==> PidUsed(procs, p);
      }
      Pigeonhole(slots, 0, SLOTS);
    }
  }

  /** The pages asked for hold the program and one more, the fewest that do, unless adding the one
      wraps around: then it is at most one. */
  lemma NeededHolds(size: nat)
    requires size < P.WORD
    ensures if size < P.WORD - P.FRAME_SIZE then
        P.FRAME_SIZE * Needed(size) >= size + P.FRAME_SIZE && P.FRAME_SIZE * Needed(size) < size + 2 * P.FRAME_SIZE
      else Needed(size) <= 1
  {
  }

  /** The slot of a process just created. */
  predicate Fresh(k: Kernel, q: Program, p: Pcb)
    requires |k.procs| == SLOTS
  {
    && 1 <= p.pid <= SLOTS && !PidUsed(k.procs, p.pid) && (forall r :: 1 <= r < p.pid ==> PidUsed(k.procs, r))
    && p.name == q.name && p.state == Ready && p.frames == Needed(q.size)
    && p.frames <= |p.addresses| && forall j :: 0 <= j < p.frames ==> p.addresses[j] == j * P.FRAME_SIZE
  }

  /** A creation fills the first free slot with a ready process that has the least pid nobody has,
      its name and the addresses of its pages, and leaves every other slot as it was. */
  lemma CreatedProcess(k: Kernel, g: Ledger, q: Program)
    requires Inv(k, g) && CreateCode(k, q) == SUCCESS
    ensures var t, slot := Step(k, Create(q)).0, FirstNew(k.procs, 0);
      && slot < SLOTS == |t.procs| && k.procs[slot].state == New && (forall i :: 0 <= i < slot ==> k.procs[i].state != New)
      && Fresh(k, q, t.procs[slot]) && t.procs == k.procs[slot := t.procs[slot]]
  {
    AdmittedHasSlot(k, g);
    NewPidIsFree(k.procs);
    NewPidIsSmall(k.procs, FirstNew(k.procs, 0));
  }

  /** A creation whose program cannot be read leaves a free slot, of which only the pages are filled in. */
  lemma FailedProcess(k: Kernel, g: Ledger, q: Program)
    requires Inv(k, g) && CreateCode(k, q) == READ_FAILURE
    ensures var t, slot := Step(k, Create(q)).0, FirstNew(k.procs, 0);
      && slot < SLOTS == |t.procs| && t.active == k.active && t.procs == k.procs[slot := t.procs[slot]]
      && k.procs[slot].state == New && t.procs[slot].(addresses := [], frames := 0) == k.procs[slot].(addresses := [], frames := 0)
  {
    AdmittedHasSlot(k, g);
  }

  /** A creation that is not admitted, or finds no directory, changes nothing. */
  lemma RefusedProcess(k: Kernel, q: Program)
    requires Sizes(k) && CreateCode(k, q) in {MAX_PROCESS_EXCEEDED, INVALID_ENTRYPOINT, NOT_ENOUGH_MEMORY}
    ensures Step(k, Create(q)) == (k, Stay)
  {
  }

  lemma KillsAt(t: Kernel, slot: nat)
    requires Sizes(t) && PidsOk(t) && t.running >= 0 && slot < SLOTS && slot != t.running && t.procs[slot].pid != 0
    ensures Step(t, KillPid(t.procs[slot].pid)) == (Clear(t, slot), Stay)
  {
    KillFinds(t, slot);
  }

  /** Its pid is good for killing it, and nothing else, once some process runs. */
  lemma NewPidKills(k: Kernel, g: Ledger, q: Program)
    requires Inv(k, g) && CreateCode(k, q) == SUCCESS && k.running >= 0
    ensures var t, slot := Step(k, Create(q)).0, FirstNew(k.procs, 0);
      && slot < SLOTS == |t.procs| && Sizes(t) && t.running >= 0 && slot != t.running
      && Step(t, KillPid(t.procs[slot].pid)) == (Clear(t, slot), Stay)
  {
    CreatedProcess(k, g, q);
    StepKeepsInv(k, g, Create(q));
    KillsAt(Step(k, Create(q)).0, FirstNew(k.procs, 0));
  }

  /** Nothing but zeros, apart from the state. */
  predicate Zeroed(p: Pcb) {
    && p.pid == 0 && p.frames == 0 && p.ctx.eip == 0 && p.ctx.eflags == 0 && p.ctx.dir == 0
    && (forall i :: 0 <= i < |p.name| ==> p.name[i] == 0) && (forall i :: 0 <= i < |p.ctx.regs| ==> p.ctx.regs[i] == 0)
    && forall i :: 0 <= i < |p.addresses| ==> p.addresses[i] == 0
  }

  lemma ClearedIsZeroed(p: Pcb)
    requires p.(state := New) == Cleared()
    ensures Zeroed(p)
  {
  }

  /** Killing a process by its pid leaves zeros in its slot. */
  lemma KilledIsZeroed(k: Kernel, g: Ledger, i: nat)
    requires Inv(k, g) && k.running >= 0 && i < SLOTS && k.procs[i].pid != 0
    ensures var t := Step(k, KillPid(k.procs[i].pid)).0; |t.procs| == SLOTS && Zeroed(t.procs[i])
  {
    KillClearsExactly(k, g, i);
    ClearedIsZeroed(Step(k, KillPid(k.procs[i].pid)).0.procs[i]);
  }

  /** A pid that nobody has kills nobody. */
  lemma UnknownPid(k: Kernel, pid: nat)
    requires Sizes(k) && k.running >= 0 && !PidUsed(k.procs, pid)
    ensures KillTarget(k, pid) == SLOTS && Step(k, KillPid(pid)) == (k, Stay)
  {
  }

  /** Free slots have pid 0, so killing 0 finds one of them. */
  lemma ZeroIsFound(k: Kernel, g: Ledger)
    requires Inv(k, g) && k.running >= 0 && exists i :: 0 <= i < SLOTS && k.procs[i].state == New
    ensures KillTarget(k, 0) < SLOTS
  {
  }

  // ---- Processes without a pid ----

  predicate OthersReady(k: Kernel)
    requires Sizes(k)
  {
    exists i :: 0 <= i < SLOTS && i != k.running && k.procs[i].state == Ready
  }

  /** Which slots were cleared while the processor stayed on them, and not filled since. */
  function Mark(k: Kernel, ended: seq<bool>, e: Event): seq<bool>
    requires Sizes(k) && Legal(k, e) && |ended| == SLOTS
  {
    match e
    case Create(q) =>
      var slot := FirstNew(k.procs, 0);
      if CreateCode(k, q) == SUCCESS && slot < SLOTS then ended[slot := false] else ended
    case TimerTick(_, _, _) => ended
    case Exit => ended[k.running := !OthersReady(k)]
    case KillPid(pid) => if KillTarget(k, pid) == k.running then ended[k.running := !OthersReady(k)] else ended
  }

  /** A process has no pid exactly when its slot was cleared under it, and there is at most one such. */
  predicate Marked(k: Kernel, ended: seq<bool>)
    requires Sizes(k) && |ended| == SLOTS
  {
    && (forall i :: 0 <= i < SLOTS && Live(k, i) ==> (k.procs[i].pid == 0 <==> ended[i]))
    && forall i, j :: 0 <= i < j < SLOTS && Live(k, i) && Live(k, j) ==> !(ended[i] && ended[j])
  }

  /** The same processes with the same pids. */
  lemma SameMarks(k: Kernel, t: Kernel, ended: seq<bool>)
    requires Sizes(k) && Sizes(t) && |ended| == SLOTS && Marked(k, ended)
    requires forall i :: 0 <= i < SLOTS && Live(t, i) ==> Live(k, i) && t.procs[i].pid == k.procs[i].pid
    ensures Marked(t, ended)
  {
  }

  lemma OneMoreMark(k: Kernel, t: Kernel, ended: seq<bool>, slot: nat)
    requires Sizes(k) && Sizes(t) && |ended| == SLOTS && Marked(k, ended) && slot < SLOTS
    requires t.procs == k.procs[slot := t.procs[slot]] && t.procs[slot].pid != 0
    ensures Marked(t, ended[slot := false])
  {
    forall i | 0 <= i < SLOTS && i != slot
      ensures t.procs[i] == k.procs[i]
    {
    }
  }

  lemma CreationMarks(k: Kernel, g: Ledger, ended: seq<bool>, q: Program)
    requires Inv(k, g) && |ended| == SLOTS && Marked(k, ended)
    ensures Sizes(Created(k, q)) && Marked(Created(k, q), Mark(k, ended, Create(q)))
  {
    StepKeepsInv(k, g, Create(q));
    if CreateCode(k, q) == SUCCESS {
      CreatedProcess(k, g, q);
      OneMoreMark(k, Created(k, q), ended, FirstNew(k.procs, 0));
    } else {
      SameMarks(k, Created(k, q), ended);
    }
  }

  lemma SwitchMarks(k: Kernel, ended: seq<bool>)
    requires Sizes(k) && |ended| == SLOTS && Marked(k, ended) && (k.running >= 0 ==> Live(k, k.running))
    ensures Sizes(Switch(k).0) && Marked(Switch(k).0, ended)
  {
    SwitchCases(k);
    SameMarks(k, Switch(k).0, ended);
  }

  lemma TickMarks(k: Kernel, ended: seq<bool>, regs: seq<nat>, eip: nat, eflags: nat)
    requires Sizes(k) && OneRuns(k) && |ended| == SLOTS && Marked(k, ended)
    ensures var t := Step(k, TimerTick(regs, eip, eflags)).0; Sizes(t) && Marked(t, ended)
  {
    var m := Save(k, Captured(k, regs, eip, eflags));
    SameMarks(k, m, ended);
    SwitchMarks(m, ended);
  }

  lemma OneLess(k: Kernel, t: Kernel, ended: seq<bool>, j: nat, b: bool)
    requires Sizes(k) && Sizes(t) && |ended| == SLOTS && Marked(k, ended) && j < SLOTS && !Live(t, j)
    requires forall i :: 0 <= i < SLOTS && i != j && Live(t, i) ==> Live(k, i) && t.procs[i].pid == k.procs[i].pid
    ensures Marked(t, ended[j := b])
  {
  }

  /** With somebody ready the slot is free afterwards. */
  lemma ExitFrees(k: Kernel, ended: seq<bool>, b: bool)
    requires Sizes(k) && k.running >= 0 && OthersReady(k) && |ended| == SLOTS && Marked(k, ended)
    ensures Sizes(Terminate(k).0) && Marked(Terminate(k).0, ended[k.running := b])
  {
    var c := Clear(k, k.running);
    var i :| 0 <= i < SLOTS && i != k.running && k.procs[i].state == Ready;
    assert c.procs[i].state == Ready;
    SwitchStaysWhen(c);
    SwitchCases(c);
    assert Terminate(k).0 == Resumed(c, Switch(c).1.slot);
    OneLess(k, Resumed(c, Switch(c).1.slot), ended, k.running, b);
  }

  lemma OnlyOneLives(t: Kernel, ended: seq<bool>, j: nat)
    requires Sizes(t) && |ended| == SLOTS && j < SLOTS && t.procs[j].pid == 0 && ended[j]
    requires forall i :: 0 <= i < SLOTS && i != j ==> t.procs[i].state == New
    ensures Marked(t, ended)
  {
  }

  lemma NobodyElseLives(k: Kernel)
    requires Sizes(k) && OneRuns(k) && k.running >= 0 && !OthersReady(k)
    ensures forall i :: 0 <= i < SLOTS && i != k.running ==> k.procs[i].state == New
  {
  }

  /** With nobody ready it is the only live one, and has no pid. */
  lemma ExitStays(k: Kernel, ended: seq<bool>)
    requires Sizes(k) && OneRuns(k) && k.running >= 0 && !OthersReady(k) && |ended| == SLOTS
    ensures Sizes(Terminate(k).0) && Marked(Terminate(k).0, ended[k.running := true])
  {
    var c, t := Clear(k, k.running), Terminate(k).0;
    NobodyElseLives(k);
    SwitchStaysWhen(c);
    SwitchCases(c);
    assert t == c.(procs := SetState(c.procs, k.running, Running));
    OnlyOneLives(t, ended[k.running := true], k.running);
  }

  lemma ExitMarks(k: Kernel, ended: seq<bool>)
    requires Sizes(k) && OneRuns(k) && k.running >= 0 && |ended| == SLOTS && Marked(k, ended)
    ensures Sizes(Terminate(k).0) && Marked(Terminate(k).0, ended[k.running := !OthersReady(k)])
  {
    if OthersReady(k) {
      ExitFrees(k, ended, false);
    } else {
      ExitStays(k, ended);
    }
  }

  lemma KillMarks(k: Kernel, ended: seq<bool>, pid: nat)
    requires Sizes(k) && OneRuns(k) && k.running >= 0 && |ended| == SLOTS && Marked(k, ended)
    ensures Sizes(Kill(k, pid).0) && Marked(Kill(k, pid).0, Mark(k, ended, KillPid(pid)))
  {
    if KillTarget(k, pid) == k.running {
      ExitMarks(k, ended);
    } else {
      SameMarks(k, Kill(k, pid).0, ended);
    }
  }

  lemma StepKeepsMarks(k: Kernel, g: Ledger, ended: seq<bool>, e: Event)
    requires Inv(k, g) && Legal(k, e) && |ended| == SLOTS && Marked(k, ended)
    ensures Sizes(Step(k, e).0) && Marked(Step(k, e).0, Mark(k, ended, e))
  {
    match e
    case Create(q) => CreationMarks(k, g, ended, q);
    case TimerTick(regs, eip, eflags) => TickMarks(k, ended, regs, eip, eflags);
    case Exit => ExitMarks(k, ended);
    case KillPid(pid) => KillMarks(k, ended, pid);
  }

  ghost function MarkAll(k: Kernel, g: Ledger, ended: seq<bool>, es: seq<Event>): (marks: seq<bool>)
    requires Inv(k, g) && LegalRun(k, g, es) && |ended| == SLOTS
    ensures |marks| == SLOTS
    decreases |es|
  {
    if es == [] then ended
    else
      StepKeepsInv(k, g, es[0]);
      MarkAll(Step(k, es[0]).0, Record(k, g, es[0]), Mark(k, ended, es[0]), es[1..])
  }

  /** All through every run a process has a pid unless its slot was cleared while nobody else was ready,
      and there is never more than one without. */
  lemma {:induction false} RunKeepsMarks(k: Kernel, g: Ledger, ended: seq<bool>, es: seq<Event>)
    requires Inv(k, g) && LegalRun(k, g, es) && |ended| == SLOTS && Marked(k, ended)
    ensures Sizes(Run(k, g, es).0) && Marked(Run(k, g, es).0, MarkAll(k, g, ended, es))
    decreases |es|
  {
    if es != [] {
      StepKeepsInv(k, g, es[0]);
      StepKeepsMarks(k, g, ended, es[0]);
      RunKeepsMarks(Step(k, es[0]).0, Record(k, g, es[0]), Mark(k, ended, es[0]), es[1..]);
    }
  }

  function NoMarks(): (m: seq<bool>)
    ensures |m| == SLOTS && forall i :: 0 <= i < SLOTS ==> !m[i]
  {
    seq(SLOTS, _ => false)
  }

  lemma BootIsMarked(k: Kernel)
    requires Booted(k)
    ensures Sizes(k) && Marked(k, NoMarks())
  {
  }
}

/** The process manager itself: the list of control blocks, the running index and CR3 changed in
    place, each routine proved to do what its value-level description says. */
module ProcessManager {
  import opened Processes
  import opened ProcessRuns
  import P = Paging

  lemma OneMoreAddress(before: seq<nat>, i: nat)
    requires i < |before|
    ensures NewAddresses(before, i)[i := i * P.FRAME_SIZE] == NewAddresses(before, i + 1)
  {
  }

  lemma NextFollowing(running: int, c: nat, next: nat)
    requires -1 <= running < SLOTS && c < SLOTS && next == Following(running, c)
    ensures (next + 1) % SLOTS == Following(running, c + 1)
  {
    assert (next + 1) % SLOTS == if next + 1 == SLOTS then 0 else next + 1;
  }

  /** A creation whose read failed. */
  lemma FailureAssembles(k: Kernel, q: Program, slot: nat, t: Kernel)
    requires Sizes(k) && CreateCode(k, q) == READ_FAILURE && slot == FirstNew(k.procs, 0) < SLOTS
    requires t == k.(procs := k.procs[slot := Placed(k.procs[slot], q)], cr3 := P.Use(P.Current(k.cr3)), pages := LoadedPages(k, q))
    ensures t == Created(k, q)
  {
  }

  /** The search for a pid looks at pids only. */
  lemma {:induction false} PidsAlike(procs: seq<Pcb>, other: seq<Pcb>, p: nat)
    requires |procs| == |other| && p <= SLOTS + 1 && forall i :: 0 <= i < |procs| ==> procs[i].pid == other[i].pid
    ensures PidFrom(procs, p) == PidFrom(other, p)
    decreases SLOTS + 1 - p
  {
    assert PidUsed(procs, p) <==> PidUsed(other, p);
    if p <= SLOTS {
      PidsAlike(procs, other, p + 1);
    }
  }

  lemma PlacingKeepsPids(procs: seq<Pcb>, slot: nat, p: Pcb, started: Pcb)
    requires slot < |procs| == SLOTS && p.pid == procs[slot].pid
    ensures PidFrom(procs[slot := p], 1) == PidFrom(procs, 1)
    ensures procs[slot := p][slot := started] == procs[slot := started]
  {
    PidsAlike(procs, procs[slot := p], 1);
  }

  /** A creation that succeeded, from the list `mid` in which the slot has its pages. */
  lemma SuccessAssembles(k: Kernel, q: Program, slot: nat, mid: seq<Pcb>, procs: seq<Pcb>)
    requires Sizes(k) && slot < SLOTS && mid == k.procs[slot := Placed(k.procs[slot], q)]
    requires procs == mid[slot := Started(mid[slot], q, P.DirectoryAddress(k.base, P.FirstUnused(k.pages)), PidFrom(mid, 1))]
    requires CreateCode(k, q) == SUCCESS && slot == FirstNew(k.procs, 0)
    ensures Created(k, q) == k.(procs := procs, active := k.active + 1, cr3 := P.Use(P.Current(k.cr3)), pages := LoadedPages(k, q))
  {
    PlacingKeepsPids(k.procs, slot, Placed(k.procs[slot], q), procs[slot]);
  }

  class Manager {
    const list: array<Pcb>
    var running: int
    var active: int
    var cr3: nat
    const pager: P.PageManager

    ghost predicate Shape()
      reads this, list
    {
      && list.Length == SLOTS && -1 <= running < SLOTS
      && forall i :: 0 <= i < SLOTS ==> |list[i].addresses| == PAGES_MAX
    }

    ghost predicate Valid()
      reads this, list, pager, pager.marks, pager.dirs, pager.used
    {
      Shape() && pager.Valid()
    }

    ghost function State(): Kernel
      reads this, list, pager, pager.marks, pager.dirs, pager.used
    {
      Kernel(pager.base, list[..], running, active, cr3, pager.State())
    }

    constructor (pager: P.PageManager, cr3: nat)
      requires pager.Valid()
      ensures Valid() && fresh(list) && this.pager == pager
      ensures State() == Kernel(pager.base, seq(SLOTS, _ => Cleared()), -1, 0, cr3, old(pager.State()))
    {
      this.pager := pager;
      this.cr3 := cr3;
      running, active := -1, 0;
      list := new Pcb[SLOTS](_ => Cleared());
      new;
      assert list[..] == seq(SLOTS, _ => Cleared());
    }

    // ---- CR3 ----

    method UsePageDirectory(address: nat)
      modifies this`cr3
      ensures cr3 == P.Use(address)
    {
      var physical := address;
      if address > P.KERNEL_BASE {
        physical := physical - P.KERNEL_BASE;
      }
      cr3 := physical;
    }

    method GetCurrentPageDirectory() returns (address: nat)
      ensures address == P.Current(cr3)
    {
      address := (cr3 + P.KERNEL_BASE) % P.WORD;
    }

    // ---- Scheduler ----

    /** The circular search: one round at most, starting behind the running slot. */
    method NextReady() returns (counter: nat, next: nat)
      requires Shape()
      ensures counter == Scan(list[..], running, 0) && next == Following(running, counter)
    {
      counter := 0;
      next := (running + 1) % SLOTS;
      while next != running && counter != SLOTS
        invariant counter <= SLOTS && next == Following(running, counter)
        invariant Scan(list[..], running, 0) == Scan(list[..], running, counter)
        decreases SLOTS - counter
      {
        if list[next].state == Ready {
          break;
        }
        NextFollowing(running, counter, next);
        next := (next + 1) % SLOTS;
        counter := counter + 1;
      }
    }

    /** scheduler_switch_to_next_process. */
    method SwitchToNextProcess() returns (r: Resume)
      requires Shape()
      modifies this`running, this`cr3, list
      ensures Shape() && (State(), r) == Switch(old(State()))
    {
      var counter, next := NextReady();
      if next == running {
        list[running] := list[running].(state := Running);
        return Stay;
      } else if counter == SLOTS {
        return Stay;
      }
      list[next] := list[next].(state := Running);
      running := next;
      UsePageDirectory(list[next].ctx.dir);
      return Go(next, list[next].ctx);
    }

    method SaveContext(ctx: Context)
      requires Shape()
      modifies list
      ensures Shape() && State() == Save(old(State()), ctx)
    {
      if running == -1 {
        return;
      }
      list[running] := list[running].(ctx := ctx);
      list[running] := list[running].(state := Ready);
    }

    /** The timer branch of the interrupt handler. */
    method TimerInterrupt(regs: seq<nat>, eip: nat, eflags: nat) returns (r: Resume)
      requires Shape()
      modifies this`running, this`cr3, list
      ensures Shape() && (State(), r) == Tick(old(State()), regs, eip, eflags)
    {
      var dir := GetCurrentPageDirectory();
      SaveContext(Context(regs, eip, eflags, dir));
      r := SwitchToNextProcess();
    }

    // ---- Ending processes ----

    method TerminateCurrentProcess() returns (r: Resume)
      requires Shape() && running >= 0
      modifies this`running, this`cr3, list
      ensures Shape() && (State(), r) == Terminate(old(State()))
    {
      list[running] := Cleared();
      r := SwitchToNextProcess();
    }

    method IndexOf(pid: nat) returns (i: nat)
      requires Shape()
      ensures i == FindPid(list[..], pid, 0)
    {
      i := 0;
      while i < SLOTS && list[i].pid != pid
        invariant i <= SLOTS && FindPid(list[..], pid, 0) == FindPid(list[..], pid, i)
      {
        i := i + 1;
      }
    }

    /** kill_process: 0 when a slot with that pid was cleared, -1 when there is none. */
    method KillProcess(pid: nat) returns (code: int, r: Resume)
      requires Shape() && running >= 0
      modifies this`running, this`cr3, list
      ensures Shape() && (State(), r) == Kill(old(State()), pid)
      ensures code == if PidUsed(old(list[..]), pid) then 0 else -1
    {
      if list[running].pid == pid {
        r := TerminateCurrentProcess();
        return 0, r;
      }
      var i := IndexOf(pid);
      if i == SLOTS {
        return -1, Stay;
      }
      list[i] := Cleared();
      return 0, Stay;
    }

    // ---- Creation ----

    /** process_generate_new_pid. The outer loop has no bound of its own: it ends because there
        are more candidates than slots. */
    method GenerateNewPid() returns (pid: nat)
      requires Valid()
      ensures pid == PidFrom(list[..], 1)
    {
      NewPidIsFree(list[..]);
      pid := 1;
      var found := false;
      while !found
        invariant 1 <= pid <= SLOTS + 1 && PidFrom(list[..], 1) == PidFrom(list[..], pid)
        invariant found ==> !PidUsed(list[..], pid)
        decreases SLOTS + 1 - pid, !found
      {
        var idx := IndexOf(pid);
        if idx == SLOTS {
          found := true;
        } else {
          assert list[..][idx].pid == pid;
          pid := pid + 1;
        }
      }
    }

    /** process_list_get_inactive_index: the loop has no bound, so a free slot has to exist. */
    method GetInactiveIndex() returns (i: nat)
      requires Valid() && FirstNew(list[..], 0) < SLOTS
      ensures i == FirstNew(list[..], 0)
    {
      i := 0;
      while list[i].state != New
        invariant i < SLOTS && FirstNew(list[..], i) == FirstNew(list[..], 0)
        decreases SLOTS - i
      {
        i := i + 1;
      }
    }

    /** Give the new process its pages; an allocation that fails goes unnoticed. */
    method AllocatePages(slot: nat, d: nat, n: nat)
      requires Valid() && slot < SLOTS && d < P.DIRECTORIES && pager.used[d] && n <= PAGES_MAX
      modifies list, pager`free, pager.marks, pager.dirs
      ensures Valid() && pager.State() == AllocateFrom(old(pager.State()), d, 0, n)
      ensures list[..] == old(list[..])[slot :=
        old(list[slot]).(addresses := NewAddresses(old(list[slot]).addresses, n), frames := n)]
    {
      ghost var p, before := pager.State(), list[slot];
      var i := 0;
      while i < n
        invariant i <= n && Valid() && pager.used[d]
        invariant AllocateFrom(p, d, 0, n) == AllocateFrom(pager.State(), d, i, n)
        invariant list[slot] == before.(addresses := NewAddresses(before.addresses, i))
        invariant forall j :: 0 <= j < SLOTS && j != slot ==> list[j] == old(list[j])
      {
        SmallAddress(i);
        var ok := pager.AllocateUserPageFrame(d, i * P.FRAME_SIZE);
        OneMoreAddress(before.addresses, i);
        list[slot] := list[slot].(addresses := list[slot].addresses[i := i * P.FRAME_SIZE]);
        i := i + 1;
      }
      list[slot] := list[slot].(frames := n);
    }

    /** process_create_user_process. */
    method CreateUserProcess(q: Program, ghost g: Ledger) returns (code: nat)
      requires Valid() && Inv(State(), g)
      modifies this`active, this`cr3, list, pager`free, pager.marks, pager.dirs, pager.used
      ensures Valid() && code == CreateCode(old(State()), q) && State() == Created(old(State()), q)
    {
      ghost var k := State();
      if active >= SLOTS {
        return MAX_PROCESS_EXCEEDED;
      }
      if q.entry >= P.KERNEL_BASE {
        return INVALID_ENTRYPOINT;
      }
      var needed := CeilDiv((q.size + P.FRAME_SIZE) % P.WORD, P.FRAME_SIZE);
      var enough := pager.Check(needed);
      if !enough || needed > PAGES_MAX {
        return NOT_ENOUGH_MEMORY;
      }
      AdmittedHasSlot(k, g);
      code := CreateAdmitted(q, needed, k);
    }

    /** A creation that passed the first three checks. */
    method CreateAdmitted(q: Program, needed: nat, ghost k: Kernel) returns (code: nat)
      requires Valid() && State() == k && FirstNew(k.procs, 0) < SLOTS
      requires k.active < SLOTS && q.entry < P.KERNEL_BASE && needed == Needed(q.size) <= PAGES_MAX && P.AllocateCheck(k.pages, needed)
      requires k.procs[FirstNew(k.procs, 0)].pid == 0
      modifies this`active, this`cr3, list, pager`free, pager.marks, pager.dirs, pager.used
      ensures Valid() && code == CreateCode(k, q) && State() == Created(k, q)
    {
      var slot := GetInactiveIndex();
      var d := pager.CreateNewPageDirectory();
      if d == P.DIRECTORIES {
        return NOT_ENOUGH_MEMORY;
      }
      AllocatePages(slot, d, needed);
      ghost var mid := list[..];
      code := Load(q, slot, d);
      if code == SUCCESS {
        SuccessAssembles(k, q, slot, mid, list[..]);
      } else {
        FailureAssembles(k, q, slot, State());
      }
    }

    /** The rest of a creation, with the program's directory loaded while it is read. */
    method Load(q: Program, slot: nat, d: nat) returns (code: nat)
      requires Valid() && slot < SLOTS && list[slot].pid == 0
      modifies this`active, this`cr3, list
      ensures Valid() && pager.State() == old(pager.State()) && running == old(running)
      ensures cr3 == P.Use(P.Current(old(cr3))) && code == if q.readable then SUCCESS else READ_FAILURE
      ensures active == old(active) + if q.readable then 1 else 0
      ensures list[..] == if !q.readable then old(list[..]) else old(list[..])[slot :=
        Started(old(list[slot]), q, P.DirectoryAddress(pager.base, d), PidFrom(old(list[..]), 1))]
    {
      var home := P.DirectoryAddress(pager.base, d);
      var before := GetCurrentPageDirectory();
      UsePageDirectory(home);
      if !q.readable {
        UsePageDirectory(before);
        return READ_FAILURE;
      }
      list[slot] := list[slot].(name := q.name);
      UsePageDirectory(before);
      list[slot] := list[slot].(ctx := Initial(home));
      PidsAlike(old(list[..]), list[..], 1);
      var pid := GenerateNewPid();
      list[slot] := list[slot].(pid := pid);
      list[slot] := list[slot].(state := Ready);
      active := active + 1;
      return SUCCESS;
    }
  }
}

/** What holds over every run of the process machine. */
module ProcessRuns {
  import opened Counting
  import opened Processes
  import P = Paging

  /** Per slot: the context last saved for the process in it, or its initial one, and the
      directory it was created with. */
  datatype Ledger = Ledger(saved: seq<Context>, home: seq<nat>)

  // ---- Invariant ----

  function CountLive(procs: seq<Pcb>): nat {
    if procs == [] then 0 else (if procs[0].state == New then 0 else 1) + CountLive(procs[1..])
  }

  predicate Live(k: Kernel, i: nat) { i < |k.procs| && k.procs[i].state != New }

  /** At most one process runs, and it is the one at the running index. */
  predicate OneRuns(k: Kernel)
    requires Sizes(k)
  {
    && (forall i :: 0 <= i < SLOTS ==> k.procs[i].state in {New, Ready, Running})
    && (forall i :: 0 <= i < SLOTS && k.procs[i].state == Running ==> i == k.running)
    && (k.running >= 0 ==> k.procs[k.running].state == Running)
  }

  /** Pids in use are distinct, and free slots have none. */
  predicate PidsOk(k: Kernel)
    requires Sizes(k)
  {
    && (forall i :: 0 <= i < SLOTS && k.procs[i].state == New ==> k.procs[i].pid == 0)
    && (forall i, j :: 0 <= i < j < SLOTS && k.procs[i].pid != 0 ==> k.procs[i].pid != k.procs[j].pid)
  }

  function HomeAddress(k: Kernel, g: Ledger, i: nat): nat
    requires i < |g.home|
  {
    P.DirectoryAddress(k.base, g.home[i])
  }

  /** Live, or the one the processor is still on. */
  predicate Housed(k: Kernel, i: nat)
    requires Sizes(k) && i < SLOTS
  {
    k.procs[i].state != New || i == k.running
  }

  /** Every such process has a directory of its own. */
  predicate HomesOk(k: Kernel, g: Ledger)
    requires Sizes(k) && |g.saved| == |g.home| == SLOTS
  {
    && (forall i :: 0 <= i < SLOTS && Housed(k, i) ==> g.home[i] < |k.pages.used| && k.pages.used[g.home[i]])
    && (forall i, j :: 0 <= i < j < SLOTS && Housed(k, i) && Housed(k, j) ==> g.home[i] != g.home[j])
  }

  /** A waiting process holds the context last saved for it, in its own directory; the running
      one has its own directory loaded. */
  predicate ContextsOk(k: Kernel, g: Ledger)
    requires Sizes(k) && |g.saved| == |g.home| == SLOTS
  {
    && (forall i :: 0 <= i < SLOTS && k.procs[i].state == Ready ==>
          k.procs[i].ctx == g.saved[i] && g.saved[i].dir == HomeAddress(k, g, i))
    && (k.running >= 0 ==> k.cr3 == P.Use(HomeAddress(k, g, k.running)))
  }

  /** The directory list lies above the kernel's base, and CR3 holds a kernel address. */
  predicate AddressesOk(k: Kernel) {
    && P.KERNEL_BASE < k.base && P.DirectoryAddress(k.base, P.DIRECTORIES) <= P.WORD
    && 0 < k.cr3 < P.WORD - P.KERNEL_BASE && |k.pages.used| == P.DIRECTORIES
  }

  predicate Orderly(k: Kernel, g: Ledger) {
    && Sizes(k) && |g.saved| == |g.home| == SLOTS
    && OneRuns(k) && PidsOk(k) && HomesOk(k, g) && ContextsOk(k, g) && AddressesOk(k)
    && CountLive(k.procs) <= k.active <= SLOTS
  }

  ghost predicate Inv(k: Kernel, g: Ledger) { Orderly(k, g) && P.Sound(k.pages) }

  /** Between giving up the processor and the next choice: nobody is marked as running. */
  predicate Between(k: Kernel, g: Ledger) {
    && Sizes(k) && |g.saved| == |g.home| == SLOTS
    && (forall i :: 0 <= i < SLOTS ==> k.procs[i].state in {New, Ready})
    && PidsOk(k) && HomesOk(k, g) && ContextsOk(k, g) && AddressesOk(k)
    && CountLive(k.procs) + (if k.running >= 0 && k.procs[k.running].state == New then 1 else 0) <= k.active <= SLOTS
  }

  // ---- The ledger ----

  /** How a step changes the ledger, told from the event alone: a tick records what was interrupted, a
      creation where the program starts. */
  function Record(k: Kernel, g: Ledger, e: Event): Ledger
    requires Sizes(k) && |g.saved| == |g.home| == SLOTS
  {
    match e
    case Create(q) =>
      var slot, d := FirstNew(k.procs, 0), P.FirstUnused(k.pages);
      if CreateCode(k, q) == SUCCESS && slot < SLOTS then
        Ledger(g.saved[slot := Initial(P.DirectoryAddress(k.base, d))], g.home[slot := d])
      else g
    case TimerTick(regs, eip, eflags) =>
      if k.running >= 0 then g.(saved := g.saved[k.running := Context(regs, eip, eflags, HomeAddress(k, g, k.running))]) else g
    case Exit => g
    case KillPid(_) => g
  }

  // ---- Counting ----

  lemma {:induction false} CountAfterState(procs: seq<Pcb>, i: nat, p: Pcb)
    requires i < |procs|
    ensures CountLive(procs[i := p]) ==
      CountLive(procs) - (if procs[i].state == New then 0 else 1) + if p.state == New then 0 else 1
  {
    if i > 0 {
      CountAfterState(procs[1..], i - 1, p);
      assert procs[i := p][1..] == procs[1..][i - 1 := p];
    } else {
      assert procs[i := p][1..] == procs[1..];
    }
  }

  lemma {:induction false} CountBounded(procs: seq<Pcb>)
    ensures CountLive(procs) <= |procs|
  {
    if procs != [] {
      CountBounded(procs[1..]);
    }
  }

  /** If fewer slots are live than there are, the search for a free one stops inside the list. */
  lemma {:induction false} FreeSlotExists(procs: seq<Pcb>, i: nat)
    requires i <= |procs|
    ensures FirstNew(procs, i) < |procs| <==> CountLive(procs[i..]) < |procs| - i
    decreases |procs| - i
  {
    if i < |procs| {
      FreeSlotExists(procs, i + 1);
      assert procs[i..][1..] == procs[i + 1..];
      CountBounded(procs[i + 1..]);
    }
  }

  /** When a creation is admitted there is a free slot for it. */
  lemma AdmittedHasSlot(k: Kernel, g: Ledger)
    requires Inv(k, g) && k.active < SLOTS
    ensures FirstNew(k.procs, 0) < SLOTS
  {
    FreeSlotExists(k.procs, 0);
    assert k.procs[0..] == k.procs;
  }

  // ---- Pids ----

  /** A slot that holds pid p. */
  function SlotOf(procs: seq<Pcb>, p: nat): nat
    requires |procs| == SLOTS
  {
    FindPid(procs, p, 0)
  }

  /** More pids than slots cannot all be in use. */
  lemma SomePidIsFree(procs: seq<Pcb>)
    requires |procs| == SLOTS
    ensures exists p :: 1 <= p <= SLOTS + 1 && !PidUsed(procs, p)
  {
    if forall p :: 1 <= p <= SLOTS + 1 ==> PidUsed(procs, p) {
      var slots := seq(SLOTS + 1, i requires 0 <= i < SLOTS + 1 => SlotOf(procs, i + 1));
      forall i | 0 <= i < SLOTS + 1
        ensures slots[i] < SLOTS && procs[slots[i]].pid == i + 1
      {
        assert PidUsed(procs, i + 1);
      }
      Pigeonhole(slots, 0, SLOTS);
    }
  }

  /** The search for a new pid ends with a positive one that nobody has, the least such, and at
      most one more than there are slots. */
  lemma NewPidIsFree(procs: seq<Pcb>)
    requires |procs| == SLOTS
    ensures var q := PidFrom(procs, 1);
      1 <= q <= SLOTS + 1 && !PidUsed(procs, q) && forall r :: 1 <= r < q ==> PidUsed(procs, r)
  {
    SomePidIsFree(procs);
  }

  // ---- Scheduling steps ----

  /** Starting from a running process the search always stops within a round. */
  lemma ScanStops(procs: seq<Pcb>, running: int)
    requires |procs| == SLOTS && 0 <= running < SLOTS
    ensures Scan(procs, running, 0) < SLOTS
  {
    assert Following(running, SLOTS - 1) == running;
  }

  /** The search stops no later than at the first ready slot. */
  lemma ScanReaches(procs: seq<Pcb>, running: int, i: nat)
    requires |procs| == SLOTS && -1 <= running < SLOTS && i < SLOTS && i != running && procs[i].state == Ready
    ensures Scan(procs, running, 0) <= Hops(running, i) && Following(running, Scan(procs, running, 0)) != running
  {
    var c := Scan(procs, running, 0);
    assert Following(running, Hops(running, i)) == i;
  }

  /** The choice stays exactly when no other slot is ready. */
  lemma SwitchStaysWhen(k: Kernel)
    requires Sizes(k) && k.running >= 0
    ensures Switch(k).1.Stay? <==> forall i :: 0 <= i < SLOTS && i != k.running ==> k.procs[i].state != Ready
  {
    ScanStops(k.procs, k.running);
    if i :| 0 <= i < SLOTS && i != k.running && k.procs[i].state == Ready {
      ScanReaches(k.procs, k.running, i);
    }
  }

  /** Otherwise it picks the cyclically first ready slot after the running one. */
  lemma SwitchPicksFirst(k: Kernel)
    requires Sizes(k) && Switch(k).1.Go?
    ensures var i := Switch(k).1.slot;
      && i < SLOTS && i != k.running && k.procs[i].state == Ready && Switch(k).1.ctx == k.procs[i].ctx
      && forall j :: 0 <= j < SLOTS && j != k.running && k.procs[j].state == Ready ==> Hops(k.running, i) <= Hops(k.running, j)
  {
    var i := Switch(k).1.slot;
    forall j | 0 <= j < SLOTS && j != k.running && k.procs[j].state == Ready
      ensures Hops(k.running, i) <= Hops(k.running, j)
    {
      ScanReaches(k.procs, k.running, j);
    }
  }

  /** Pids that stay stay distinct. */
  lemma PidsStay(k: Kernel, t: Kernel)
    requires Sizes(k) && Sizes(t) && PidsOk(k)
    requires forall i :: 0 <= i < SLOTS ==> t.procs[i].pid == k.procs[i].pid && (t.procs[i].state == New ==> k.procs[i].state == New)
    ensures PidsOk(t)
  {
  }

  /** Directories of their own stay so, if no slot gets housed. */
  lemma HomesStay(k: Kernel, t: Kernel, g: Ledger)
    requires Sizes(k) && Sizes(t) && |g.saved| == |g.home| == SLOTS && HomesOk(k, g)
    requires forall i :: 0 <= i < SLOTS && Housed(t, i) ==> Housed(k, i)
    requires |t.pages.used| == |k.pages.used| && forall d :: 0 <= d < |k.pages.used| && k.pages.used[d] ==> t.pages.used[d]
    ensures HomesOk(t, g)
  {
  }

  /** CR3 for a live process's directory is a kernel address, and reads back as that directory. */
  lemma UseInRange(k: Kernel, g: Ledger, i: nat)
    requires Sizes(k) && |g.saved| == |g.home| == SLOTS && HomesOk(k, g) && AddressesOk(k)
    requires i < SLOTS && Housed(k, i)
    ensures 0 < P.Use(HomeAddress(k, g, i)) < P.WORD - P.KERNEL_BASE
    ensures P.Current(P.Use(HomeAddress(k, g, i))) == HomeAddress(k, g, i)
  {
  }

  lemma ResumeKeepsInv(k: Kernel, g: Ledger, next: nat)
    requires Between(k, g) && next < SLOTS && next != k.running && k.procs[next].state == Ready
    ensures Orderly(Resumed(k, next), g)
  {
    CountAfterState(k.procs, next, k.procs[next].(state := Running));
    UseInRange(k, g, next);
    PidsStay(k, Resumed(k, next));
    HomesStay(k, Resumed(k, next), g);
  }

  lemma StayKeepsInv(k: Kernel, g: Ledger)
    requires Between(k, g) && k.running >= 0
    ensures Orderly(k.(procs := SetState(k.procs, k.running, Running)), g)
  {
    var t := k.(procs := SetState(k.procs, k.running, Running));
    CountAfterState(k.procs, k.running, k.procs[k.running].(state := Running));
    PidsStay(k, t);
    HomesStay(k, t, g);
  }

  /** The two ways a switch ends. */
  lemma SwitchCases(k: Kernel)
    requires Sizes(k)
    ensures var (t, r) := Switch(k);
      if r.Go? then r.slot < SLOTS && r.slot != k.running && k.procs[r.slot].state == Ready && t == Resumed(k, r.slot)
      else t == if k.running >= 0 then k.(procs := SetState(k.procs, k.running, Running)) else k
  {
    if k.running >= 0 {
      ScanStops(k.procs, k.running);
    }
  }

  lemma NobodyKeepsInv(k: Kernel, g: Ledger)
    requires Between(k, g) && k.running < 0
    ensures Orderly(k, g)
  {
  }

  lemma SwitchKeepsInv(k: Kernel, g: Ledger)
    requires Between(k, g)
    ensures Orderly(Switch(k).0, g) && Switch(k).0.pages == k.pages
  {
    SwitchCases(k);
    if Switch(k).1.Go? {
      ResumeKeepsInv(k, g, Switch(k).1.slot);
    } else if k.running >= 0 {
      StayKeepsInv(k, g);
    } else {
      NobodyKeepsInv(k, g);
    }
  }

  lemma SaveGivesUp(k: Kernel, g: Ledger, regs: seq<nat>, eip: nat, eflags: nat)
    requires Orderly(k, g)
    ensures Between(Save(k, Captured(k, regs, eip, eflags)), Record(k, g, TimerTick(regs, eip, eflags)))
  {
    if k.running >= 0 {
      var ctx := Captured(k, regs, eip, eflags);
      CountAfterState(k.procs, k.running, k.procs[k.running].(ctx := ctx, state := Ready));
      UseInRange(k, g, k.running);
      PidsStay(k, Save(k, ctx));
      HomesStay(k, Save(k, ctx), Record(k, g, TimerTick(regs, eip, eflags)));
    }
  }

  lemma ClearGivesUp(k: Kernel, g: Ledger)
    requires Orderly(k, g) && k.running >= 0
    ensures Between(Clear(k, k.running), g)
  {
    CountAfterState(k.procs, k.running, Cleared());
  }

  lemma ClearKeepsPids(k: Kernel, i: nat)
    requires Sizes(k) && PidsOk(k) && i < SLOTS
    ensures PidsOk(Clear(k, i))
  {
  }

  lemma ClearOther(k: Kernel, g: Ledger, i: nat)
    requires Orderly(k, g) && i < SLOTS && i != k.running
    ensures Orderly(Clear(k, i), g)
  {
    CountAfterState(k.procs, i, Cleared());
    ClearKeepsPids(k, i);
    HomesStay(k, Clear(k, i), g);
  }

  // ---- Creation ----

  lemma SmallAddress(i: nat)
    requires i < PAGES_MAX
    ensures i * P.FRAME_SIZE < P.KERNEL_BASE && P.PageIndex(i * P.FRAME_SIZE) == i
  {
  }

  lemma {:induction false} AllocateFromIsSound(p: P.Pages, d: nat, i: nat, n: nat)
    requires P.Sound(p) && d < P.DIRECTORIES && p.used[d] && i <= n <= PAGES_MAX
    ensures P.Sound(AllocateFrom(p, d, i, n)) && AllocateFrom(p, d, i, n).used == p.used
    decreases n - i
  {
    if i < n {
      SmallAddress(i);
      P.AllocateKeepsSound(p, d, i * P.FRAME_SIZE);
      AllocateFromIsSound(P.Allocate(p, d, i * P.FRAME_SIZE), d, i + 1, n);
    }
  }

  /** Of the pages asked for in an empty directory, exactly the first ones get a frame, as many
      as were free. */
  lemma {:induction false} AllocateFromMaps(p: P.Pages, d: nat, i: nat, n: nat, j: nat)
    requires P.Sound(p) && d < P.DIRECTORIES && p.used[d] && i <= n <= PAGES_MAX && j < n
    requires forall x :: i <= x < n ==> !P.Maps(p, d, x)
    ensures j >= i ==> (P.Maps(AllocateFrom(p, d, i, n), d, j) <==> j - i < p.free)
    ensures j < i ==> (P.Maps(AllocateFrom(p, d, i, n), d, j) <==> P.Maps(p, d, j))
    decreases n - i
  {
    if i < n {
      var q := P.Allocate(p, d, i * P.FRAME_SIZE);
      SmallAddress(i);
      P.CheckMeansFrame(p);
      P.AllocateKeepsSound(p, d, i * P.FRAME_SIZE);
      forall x | 0 <= x < n
        ensures P.Maps(q, d, x) <==> P.Maps(p, d, x) || (x == i && p.free > 0)
      {
        if P.CanAllocate(p) {
          P.AllocateMaps(p, d, i * P.FRAME_SIZE, d, x);
        }
      }
      AllocateFromMaps(q, d, i + 1, n, j);
    }
  }

  /** As many frames go as are asked for and free. */
  lemma {:induction false} AllocateFromCount(p: P.Pages, d: nat, i: nat, n: nat)
    requires P.Sound(p) && d < P.DIRECTORIES && p.used[d] && i <= n <= PAGES_MAX
    ensures AllocateFrom(p, d, i, n).free == if p.free >= n - i then p.free - (n - i) else 0
    decreases n - i
  {
    if i < n {
      SmallAddress(i);
      P.CheckMeansFrame(p);
      P.AllocateKeepsSound(p, d, i * P.FRAME_SIZE);
      AllocateFromCount(P.Allocate(p, d, i * P.FRAME_SIZE), d, i + 1, n);
    }
  }

  /** The directory of an admitted creation. */
  lemma LoadedIsSound(k: Kernel, q: Program)
    requires Sizes(k) && P.Sound(k.pages) && CreateCode(k, q) in {SUCCESS, READ_FAILURE}
    ensures P.Sound(LoadedPages(k, q)) && LoadedPages(k, q).used == k.pages.used[P.FirstUnused(k.pages) := true]
    ensures !k.pages.used[P.FirstUnused(k.pages)]
  {
    P.CreateKeepsSound(k.pages);
    P.CreatedMapsOnlyKernel(k.pages);
    AllocateFromIsSound(P.Create(k.pages), P.FirstUnused(k.pages), 0, Needed(q.size));
  }

  /** The admission check takes a count for a size in bytes: a created process has all its
      pages if and only if that many frames were free. */
  lemma CreationHasPagesWhen(k: Kernel, g: Ledger, q: Program)
    requires Inv(k, g) && CreateCode(k, q) == SUCCESS
    ensures var d := P.FirstUnused(k.pages);
      (forall j :: 0 <= j < Needed(q.size) ==> P.Maps(Created(k, q).pages, d, j)) <==> k.pages.free >= Needed(q.size)
  {
    var d, n := P.FirstUnused(k.pages), Needed(q.size);
    AdmittedHasSlot(k, g);
    P.CreateKeepsSound(k.pages);
    P.CreatedMapsOnlyKernel(k.pages);
    forall j | 0 <= j < n
      ensures P.Maps(LoadedPages(k, q), d, j) <==> j < k.pages.free
    {
      AllocateFromMaps(P.Create(k.pages), d, 0, n, j);
    }
    var pages := Created(k, q).pages;
    assert pages == LoadedPages(k, q);
    assert n > 0 ==> (P.Maps(pages, d, n - 1) <==> n - 1 < k.pages.free);
  }

  /** Creation puts the page directory back that was loaded before it, whatever its outcome. */
  lemma CreationRestoresDirectory(k: Kernel, g: Ledger, q: Program)
    requires Inv(k, g)
    ensures Created(k, q).cr3 == k.cr3 && Created(k, q).running == k.running
  {
    P.UseOfCurrent(k.cr3);
  }

  /** Filling in the memory part of a free slot and taking a directory keeps everything in order. */
  lemma FailedLoadKeepsOrder(k: Kernel, g: Ledger, slot: nat, t: Kernel)
    requires Orderly(k, g) && slot < SLOTS && k.procs[slot].state == New && Sizes(t)
    requires t == k.(procs := t.procs, pages := t.pages) && t.procs == k.procs[slot := t.procs[slot]]
    requires t.procs[slot] == k.procs[slot].(addresses := t.procs[slot].addresses, frames := t.procs[slot].frames)
    requires |t.pages.used| == P.DIRECTORIES && forall d :: 0 <= d < P.DIRECTORIES && k.pages.used[d] ==> t.pages.used[d]
    ensures Orderly(t, g)
  {
    CountAfterState(k.procs, slot, t.procs[slot]);
    PidsStay(k, t);
    HomesStay(k, t, g);
  }

  lemma FailedLoadKeepsInv(k: Kernel, g: Ledger, q: Program)
    requires Inv(k, g) && CreateCode(k, q) == READ_FAILURE
    ensures Inv(Created(k, q), g)
  {
    AdmittedHasSlot(k, g);
    LoadedIsSound(k, q);
    CreationRestoresDirectory(k, g, q);
    FailedLoadKeepsOrder(k, g, FirstNew(k.procs, 0), Created(k, q));
  }

  /** A newly housed process gets a directory that nobody had. */
  lemma HomesGrow(k: Kernel, t: Kernel, g: Ledger, h: Ledger, slot: nat, d: nat)
    requires Sizes(k) && Sizes(t) && |g.saved| == |g.home| == |h.saved| == SLOTS && slot < SLOTS && HomesOk(k, g)
    requires d < |k.pages.used| && !k.pages.used[d] && t.pages.used == k.pages.used[d := true]
    requires h.home == g.home[slot := d] && forall i :: 0 <= i < SLOTS && i != slot && Housed(t, i) ==> Housed(k, i)
    ensures HomesOk(t, h)
  {
  }

  lemma SuccessHomes(k: Kernel, g: Ledger, q: Program)
    requires Orderly(k, g) && CreateCode(k, q) == SUCCESS && FirstNew(k.procs, 0) < SLOTS
    requires LoadedPages(k, q).used == k.pages.used[P.FirstUnused(k.pages) := true] && !k.pages.used[P.FirstUnused(k.pages)]
    requires |LoadedPages(k, q).dirs| == |k.pages.dirs|
    ensures Sizes(Created(k, q)) && HomesOk(Created(k, q), Record(k, g, Create(q)))
  {
    HomesGrow(k, Created(k, q), g, Record(k, g, Create(q)), FirstNew(k.procs, 0), P.FirstUnused(k.pages));
  }

  lemma SuccessContexts(k: Kernel, g: Ledger, q: Program)
    requires Orderly(k, g) && CreateCode(k, q) == SUCCESS && FirstNew(k.procs, 0) < SLOTS && Sizes(Created(k, q))
    ensures ContextsOk(Created(k, q), Record(k, g, Create(q)))
  {
    P.UseOfCurrent(k.cr3);
  }

  lemma SuccessPids(k: Kernel, g: Ledger, q: Program)
    requires Orderly(k, g) && CreateCode(k, q) == SUCCESS && FirstNew(k.procs, 0) < SLOTS && Sizes(Created(k, q))
    ensures OneRuns(Created(k, q)) && PidsOk(Created(k, q))
  {
    NewPidIsFree(k.procs);
  }

  lemma SuccessKeepsInv(k: Kernel, g: Ledger, q: Program)
    requires Inv(k, g) && CreateCode(k, q) == SUCCESS
    ensures Inv(Created(k, q), Record(k, g, Create(q)))
  {
    AdmittedHasSlot(k, g);
    LoadedIsSound(k, q);
    CreationRestoresDirectory(k, g, q);
    SuccessHomes(k, g, q);
    SuccessContexts(k, g, q);
    SuccessPids(k, g, q);
    CountAfterState(k.procs, FirstNew(k.procs, 0), Created(k, q).procs[FirstNew(k.procs, 0)]);
  }

  // ---- Every step ----

  lemma StepKeepsInv(k: Kernel, g: Ledger, e: Event)
    requires Inv(k, g) && Legal(k, e)
    ensures Inv(Step(k, e).0, Record(k, g, e))
  {
    match e
    case Create(q) =>
      if CreateCode(k, q) == SUCCESS {
        SuccessKeepsInv(k, g, q);
      } else if CreateCode(k, q) == READ_FAILURE {
        FailedLoadKeepsInv(k, g, q);
      }
    case TimerTick(regs, eip, eflags) =>
      SaveGivesUp(k, g, regs, eip, eflags);
      SwitchKeepsInv(Save(k, Captured(k, regs, eip, eflags)), Record(k, g, e));
    case Exit =>
      ClearGivesUp(k, g);
      SwitchKeepsInv(Clear(k, k.running), g);
    case KillPid(pid) =>
      var i := KillTarget(k, pid);
      if i == k.running {
        ClearGivesUp(k, g);
        SwitchKeepsInv(Clear(k, k.running), g);
      } else if i < SLOTS {
        ClearOther(k, g, i);
      }
  }

  // ---- Contexts ----

  /** Resuming with r, in state t, loads what g holds for the slot, and its directory in machine k. */
  predicate LoadsSaved(k: Kernel, g: Ledger, t: Kernel, r: Resume)
    requires r.Go? && |g.saved| == |g.home| == SLOTS
  {
    && r.slot < SLOTS && t.running == r.slot && r.ctx == g.saved[r.slot]
    && P.Current(t.cr3) == r.ctx.dir == HomeAddress(k, g, r.slot)
  }

  lemma ResumeLoadsHome(k: Kernel, g: Ledger)
    requires Between(k, g) && Switch(k).1.Go?
    ensures LoadsSaved(k, g, Switch(k).0, Switch(k).1)
  {
    SwitchPicksFirst(k);
    UseInRange(k, g, Switch(k).1.slot);
  }

  lemma TerminateLoads(k: Kernel, g: Ledger)
    requires Inv(k, g) && k.running >= 0 && Terminate(k).1.Go?
    ensures LoadsSaved(k, g, Terminate(k).0, Terminate(k).1)
  {
    ClearGivesUp(k, g);
    ResumeLoadsHome(Clear(k, k.running), g);
  }

  /** Whenever a step resumes a process, what the processor loads is the context last saved for
      it, or its initial one, and CR3 names that process's own directory. */
  lemma ResumedIsSaved(k: Kernel, g: Ledger, e: Event)
    requires Inv(k, g) && Legal(k, e) && Step(k, e).1.Go?
    ensures LoadsSaved(k, Record(k, g, e), Step(k, e).0, Step(k, e).1)
  {
    match e
    case Create(q) =>
    case TimerTick(regs, eip, eflags) =>
      SaveGivesUp(k, g, regs, eip, eflags);
      ResumeLoadsHome(Save(k, Captured(k, regs, eip, eflags)), Record(k, g, e));
    case Exit => TerminateLoads(k, g);
    case KillPid(_) => TerminateLoads(k, g);
  }

  /** The slot an event kills, or SLOTS. */
  function Killed(k: Kernel, e: Event): nat
    requires Sizes(k) && Legal(k, e)
  {
    if e.KillPid? then KillTarget(k, e.pid) else SLOTS
  }

  /** Slot j is as in k, or put on the processor. */
  predicate Touched(k: Kernel, t: Kernel, j: nat)
    requires j < |k.procs| == SLOTS
  {
    |t.procs| == SLOTS && t.procs[j] == if t.running == j then k.procs[j].(state := Running) else k.procs[j]
  }

  lemma SwitchTouches(k: Kernel, j: nat)
    requires Sizes(k) && j < SLOTS && j != k.running
    ensures Touched(k, Switch(k).0, j)
  {
  }

  lemma TickTouches(k: Kernel, regs: seq<nat>, eip: nat, eflags: nat, j: nat)
    requires Sizes(k) && j < SLOTS && j != k.running
    ensures Touched(k, Tick(k, regs, eip, eflags).0, j)
  {
    var m := Save(k, Captured(k, regs, eip, eflags));
    assert m.procs[j] == k.procs[j];
    SwitchTouches(m, j);
  }

  lemma ClearedTouches(k: Kernel, j: nat)
    requires Sizes(k) && j < SLOTS && 0 <= k.running != j
    ensures Touched(k, Terminate(k).0, j)
  {
    assert Clear(k, k.running).procs[j] == k.procs[j];
    SwitchTouches(Clear(k, k.running), j);
  }

  lemma KillTouches(k: Kernel, pid: nat, j: nat)
    requires Sizes(k) && k.running >= 0 && j < SLOTS && j != k.running && KillTarget(k, pid) != j
    ensures Touched(k, Kill(k, pid).0, j)
  {
    ClearedTouches(k, j);
  }

  lemma StepTouches(k: Kernel, e: Event, j: nat)
    requires Sizes(k) && Legal(k, e) && j < SLOTS && j != k.running && k.procs[j].state == Ready && Killed(k, e) != j
    ensures Touched(k, Step(k, e).0, j)
  {
    match e
    case Create(q) =>
    case TimerTick(regs, eip, eflags) => TickTouches(k, regs, eip, eflags, j);
    case Exit => ClearedTouches(k, j);
    case KillPid(pid) => KillTouches(k, pid, j);
  }

  /** No step touches a waiting process, unless it kills it or puts it on the processor. */
  lemma WaitingIsUntouched(k: Kernel, g: Ledger, e: Event, j: nat)
    requires Inv(k, g) && Legal(k, e) && j < SLOTS && k.procs[j].state == Ready && Killed(k, e) != j
    ensures var t := Step(k, e).0;
      && |t.procs| == SLOTS
      && t.procs[j] == if t.running == j then k.procs[j].(state := Running) else k.procs[j]
  {
    StepTouches(k, e, j);
  }

  // ---- Address spaces ----

  lemma {:induction false} AllocateFromFrame(p: P.Pages, d: nat, i: nat, n: nat, e: nat)
    requires d < |p.dirs| && e < |p.dirs| && e != d && i <= n
    ensures |AllocateFrom(p, d, i, n).dirs| == |p.dirs| && AllocateFrom(p, d, i, n).dirs[e] == p.dirs[e]
    decreases n - i
  {
    if i < n {
      AllocateFromFrame(P.Allocate(p, d, i * P.FRAME_SIZE), d, i + 1, n, e);
    }
  }

  lemma CreationLeavesOthers(k: Kernel, q: Program, d: nat)
    requires Sizes(k) && d < |k.pages.dirs| && k.pages.used[d]
    ensures |Created(k, q).pages.dirs| == |k.pages.dirs| && Created(k, q).pages.dirs[d] == k.pages.dirs[d]
  {
    if CreateCode(k, q) in {SUCCESS, READ_FAILURE} && FirstNew(k.procs, 0) < SLOTS {
      AllocateFromFrame(P.Create(k.pages), P.FirstUnused(k.pages), 0, Needed(q.size), d);
      assert Created(k, q).pages == LoadedPages(k, q);
    }
  }

  /** No step changes what a live process's directory maps. */
  lemma AddressSpaceIsUntouched(k: Kernel, g: Ledger, e: Event, j: nat)
    requires Inv(k, g) && Legal(k, e) && j < SLOTS && Housed(k, j)
    ensures g.home[j] < |Step(k, e).0.pages.dirs| && Step(k, e).0.pages.dirs[g.home[j]] == k.pages.dirs[g.home[j]]
  {
    match e
    case Create(q) => CreationLeavesOthers(k, q, g.home[j]);
    case TimerTick(regs, eip, eflags) => SwitchCases(Save(k, Captured(k, regs, eip, eflags)));
    case Exit => SwitchCases(Clear(k, k.running));
    case KillPid(_) => SwitchCases(Clear(k, k.running));
  }

  /** Two live processes never share a frame. */
  lemma AddressSpacesAreDisjoint(k: Kernel, g: Ledger, i: nat, j: nat, x: nat, y: nat)
    requires Inv(k, g) && i < SLOTS && j < SLOTS && i != j && Housed(k, i) && Housed(k, j)
    requires P.Maps(k.pages, g.home[i], x) && P.Maps(k.pages, g.home[j], y)
    ensures k.pages.dirs[g.home[i]][x].frame != k.pages.dirs[g.home[j]][y].frame
  {
    assert g.home[i] != g.home[j] by {
      if i < j {
        assert Housed(k, i) && Housed(k, j);
      } else {
        assert Housed(k, j) && Housed(k, i);
      }
    }
  }

  // ---- Ending a process ----

  /** Terminating leaves the slot free if and only if another process is ready; otherwise the
      cleared slot is marked as running. */
  lemma TerminateFreesWhen(k: Kernel)
    requires Sizes(k) && k.running >= 0
    ensures var t := Step(k, Exit).0;
      && |t.procs| == SLOTS && t.procs[k.running].(state := New) == Cleared()
      && (t.procs[k.running].state == New <==> exists i :: 0 <= i < SLOTS && i != k.running && k.procs[i].state == Ready)
  {
    var c := Clear(k, k.running);
    SwitchStaysWhen(c);
    ScanStops(c.procs, c.running);
    if Switch(c).1.Go? {
      SwitchPicksFirst(c);
      var i := Switch(c).1.slot;
      assert i != k.running && k.procs[i].state == Ready;
    } else {
      forall i | 0 <= i < SLOTS && i != k.running
        ensures k.procs[i].state != Ready
      {
        assert c.procs[i] == k.procs[i];
      }
    }
  }

  lemma KillFinds(k: Kernel, i: nat)
    requires Sizes(k) && PidsOk(k) && k.running >= 0 && i < SLOTS && k.procs[i].pid != 0
    ensures KillTarget(k, k.procs[i].pid) == i
  {
  }

  lemma KillClearsTarget(k: Kernel, pid: nat, i: nat)
    requires Sizes(k) && k.running >= 0 && i < SLOTS && KillTarget(k, pid) == i
    ensures var t := Kill(k, pid).0;
      && |t.procs| == SLOTS && t.procs[i].(state := New) == Cleared()
      && (i != k.running ==> t == Clear(k, i))
      && forall j :: 0 <= j < SLOTS && j != i ==>
           t.procs[j] == k.procs[j] || (t.running == j && t.procs[j] == k.procs[j].(state := Running))
  {
    if i == k.running {
      var t := Switch(Clear(k, i)).0;
      forall j | 0 <= j < SLOTS && j != i
        ensures |t.procs| == SLOTS
        ensures t.procs[j] == if t.running == j then k.procs[j].(state := Running) else k.procs[j]
      {
        SwitchTouches(Clear(k, i), j);
      }
      TerminateFreesWhen(k);
    }
  }

  /** Killing the pid of a live process clears that slot and no other. */
  lemma KillClearsExactly(k: Kernel, g: Ledger, i: nat)
    requires Inv(k, g) && k.running >= 0 && i < SLOTS && k.procs[i].pid != 0
    ensures var t := Step(k, KillPid(k.procs[i].pid)).0;
      && KillTarget(k, k.procs[i].pid) == i
      && |t.procs| == SLOTS && t.procs[i].(state := New) == Cleared()
      && (i != k.running ==> t == Clear(k, i))
      && forall j :: 0 <= j < SLOTS && j != i ==>
           t.procs[j] == k.procs[j] || (t.running == j && t.procs[j] == k.procs[j].(state := Running))
  {
    KillFinds(k, i);
    KillClearsTarget(k, k.procs[i].pid, i);
  }

  // ---- Bounded waiting ----

  /** The event makes the scheduler choose. */
  predicate Chooses(k: Kernel, e: Event)
    requires Sizes(k) && Legal(k, e)
  {
    e.TimerTick? || e.Exit? || (e.KillPid? && KillTarget(k, e.pid) == k.running)
  }

  /** A choice either takes the waiting process or moves strictly closer to it. */
  lemma ChoiceMovesCloser(k: Kernel, i: nat)
    requires Sizes(k) && i < SLOTS && i != k.running && k.procs[i].state == Ready
    ensures var t := Switch(k).0;
      Sizes(t) && (t.running == i || Hops(t.running, i) < Hops(k.running, i))
  {
    ScanReaches(k.procs, k.running, i);
  }

  lemma StepMovesCloser(k: Kernel, g: Ledger, e: Event, i: nat)
    requires Inv(k, g) && Legal(k, e) && i < SLOTS && k.procs[i].state == Ready && Killed(k, e) != i
    ensures var t := Step(k, e).0;
      && Sizes(t)
      && (Chooses(k, e) ==> t.running == i || Hops(t.running, i) < Hops(k.running, i))
      && (!Chooses(k, e) ==> t.running == k.running)
  {
    StepKeepsInv(k, g, e);
    match e
    case Create(q) =>
    case TimerTick(regs, eip, eflags) => ChoiceMovesCloser(Save(k, Captured(k, regs, eip, eflags)), i);
    case Exit => ChoiceMovesCloser(Clear(k, k.running), i);
    case KillPid(pid) =>
      if KillTarget(k, pid) == k.running {
        ChoiceMovesCloser(Clear(k, k.running), i);
      }
  }

  /** All events of a run are legal when they happen, and none kills slot i. */
  ghost predicate Spares(k: Kernel, g: Ledger, es: seq<Event>, i: nat)
    requires Inv(k, g)
    decreases |es|
  {
    es == [] || (Legal(k, es[0]) && Killed(k, es[0]) != i
                 && (StepKeepsInv(k, g, es[0]); Spares(Step(k, es[0]).0, Record(k, g, es[0]), es[1..], i)))
  }

  /** How often the scheduler chooses in a run. */
  ghost function Choices(k: Kernel, g: Ledger, es: seq<Event>, i: nat): nat
    requires Inv(k, g) && Spares(k, g, es, i)
    decreases |es|
  {
    if es == [] then 0
    else
      StepKeepsInv(k, g, es[0]);
      (if Chooses(k, es[0]) then 1 else 0) + Choices(Step(k, es[0]).0, Record(k, g, es[0]), es[1..], i)
  }

  /** Slot i is on the processor at some point of a run. */
  ghost predicate GetsProcessor(k: Kernel, g: Ledger, es: seq<Event>, i: nat)
    requires Inv(k, g) && Spares(k, g, es, i)
    decreases |es|
  {
    k.running == i
    || (es != [] && (StepKeepsInv(k, g, es[0]); GetsProcessor(Step(k, es[0]).0, Record(k, g, es[0]), es[1..], i)))
  }

  /** Bounded waiting: whatever is created, killed or terminated meanwhile, a ready process that
      is not killed itself gets the processor once the scheduler has chosen more often than
      there are slots between it and the running one. */
  lemma {:induction false} BoundedWaiting(k: Kernel, g: Ledger, es: seq<Event>, i: nat)
    requires Inv(k, g) && Spares(k, g, es, i) && i < SLOTS && k.procs[i].state == Ready
    requires Choices(k, g, es, i) > Hops(k.running, i)
    ensures GetsProcessor(k, g, es, i)
    decreases |es|
  {
    if es != [] {
      var t, h := Step(k, es[0]).0, Record(k, g, es[0]);
      StepKeepsInv(k, g, es[0]);
      StepMovesCloser(k, g, es[0], i);
      WaitingIsUntouched(k, g, es[0], i);
      if t.running != i {
        BoundedWaiting(t, h, es[1..], i);
      }
    }
  }

  /** So fifteen choices are always enough once some process runs. */
  lemma FifteenChoices(k: Kernel, g: Ledger, es: seq<Event>, i: nat)
    requires Inv(k, g) && Spares(k, g, es, i) && i < SLOTS && k.procs[i].state == Ready && k.running >= 0
    requires Choices(k, g, es, i) >= SLOTS - 1
    ensures GetsProcessor(k, g, es, i)
  {
    BoundedWaiting(k, g, es, i);
  }

  // ---- Runs ----

  /** The machine after boot, before anything is created. */
  predicate Booted(k: Kernel) {
    && k.procs == seq(SLOTS, _ => Cleared()) && k.running == -1 && k.active == 0 && k.pages == P.Boot() && AddressesOk(k)
  }

  lemma {:induction false} NobodyLives(procs: seq<Pcb>)
    requires forall i :: 0 <= i < |procs| ==> procs[i].state == New
    ensures CountLive(procs) == 0
  {
    if procs != [] {
      NobodyLives(procs[1..]);
    }
  }

  lemma BootKeepsInv(k: Kernel, g: Ledger)
    requires Booted(k) && |g.saved| == |g.home| == SLOTS
    ensures Inv(k, g)
  {
    P.BootIsSound();
    NobodyLives(k.procs);
  }

  ghost predicate LegalRun(k: Kernel, g: Ledger, es: seq<Event>)
    requires Inv(k, g)
    decreases |es|
  {
    es == [] || (Legal(k, es[0]) && (StepKeepsInv(k, g, es[0]); LegalRun(Step(k, es[0]).0, Record(k, g, es[0]), es[1..])))
  }

  ghost function Run(k: Kernel, g: Ledger, es: seq<Event>): (Kernel, Ledger)
    requires Inv(k, g) && LegalRun(k, g, es)
    decreases |es|
  {
    if es == [] then (k, g)
    else
      StepKeepsInv(k, g, es[0]);
      Run(Step(k, es[0]).0, Record(k, g, es[0]), es[1..])
  }

  /** Every state of every run satisfies the invariant. */
  lemma {:induction false} RunKeepsInv(k: Kernel, g: Ledger, es: seq<Event>)
    requires Inv(k, g) && LegalRun(k, g, es)
    ensures Inv(Run(k, g, es).0, Run(k, g, es).1)
    decreases |es|
  {
    if es != [] {
      StepKeepsInv(k, g, es[0]);
      RunKeepsInv(Step(k, es[0]).0, Record(k, g, es[0]), es[1..]);
    }
  }

  /** How many creations of a run succeed. */
  ghost function Successes(k: Kernel, g: Ledger, es: seq<Event>): nat
    requires Inv(k, g) && LegalRun(k, g, es)
    decreases |es|
  {
    if es == [] then 0
    else
      StepKeepsInv(k, g, es[0]);
      (if es[0].Create? && CreateCode(k, es[0].q) == SUCCESS then 1 else 0)
        + Successes(Step(k, es[0]).0, Record(k, g, es[0]), es[1..])
  }

  lemma StepCounts(k: Kernel, g: Ledger, e: Event)
    requires Inv(k, g) && Legal(k, e)
    ensures Step(k, e).0.active == k.active + if e.Create? && CreateCode(k, e.q) == SUCCESS then 1 else 0
  {
    if e.Create? && k.active < SLOTS {
      AdmittedHasSlot(k, g);
    }
  }

  /** Ending a process never makes room for another: the count grows by one with every success
      and never shrinks, so a boot sees at most sixteen of them, whatever ends in between. */
  lemma {:induction false} CreationsAreRationed(k: Kernel, g: Ledger, es: seq<Event>)
    requires Inv(k, g) && LegalRun(k, g, es)
    ensures Run(k, g, es).0.active == k.active + Successes(k, g, es) <= SLOTS
    decreases |es|
  {
    if es != [] {
      StepKeepsInv(k, g, es[0]);
      StepCounts(k, g, es[0]);
      CreationsAreRationed(Step(k, es[0]).0, Record(k, g, es[0]), es[1..]);
    }
  }

  // ---- Directories that are never given back ----

  /** The creation takes a page directory, whether or not the program can be read. */
  predicate TakesDirectory(k: Kernel, e: Event)
    requires Sizes(k)
  {
    e.Create? && CreateCode(k, e.q) in {SUCCESS, READ_FAILURE}
  }

  /** How many creations of a run do. */
  ghost function Taken(k: Kernel, g: Ledger, es: seq<Event>): nat
    requires Inv(k, g) && LegalRun(k, g, es)
    decreases |es|
  {
    if es == [] then 0
    else
      StepKeepsInv(k, g, es[0]);
      (if TakesDirectory(k, es[0]) then 1 else 0) + Taken(Step(k, es[0]).0, Record(k, g, es[0]), es[1..])
  }

  lemma StepTakes(k: Kernel, g: Ledger, e: Event)
    requires Inv(k, g) && Legal(k, e)
    ensures P.CountUnmarked(Step(k, e).0.pages.used)
         == P.CountUnmarked(k.pages.used) - if TakesDirectory(k, e) then 1 else 0
  {
    match e
    case Create(q) =>
      if TakesDirectory(k, e) {
        AdmittedHasSlot(k, g);
        LoadedIsSound(k, q);
        P.CountAfterChange(k.pages.used, P.FirstUnused(k.pages), true);
      }
    case TimerTick(regs, eip, eflags) => SwitchCases(Save(k, Captured(k, regs, eip, eflags)));
    case Exit => SwitchCases(Clear(k, k.running));
    case KillPid(_) => SwitchCases(Clear(k, k.running));
  }

  /** Every creation that gets as far as reading its program, read or not, uses up a directory for
      good: those left at the end of a run are those at its start less these creations. */
  lemma {:induction false} DirectoriesAreRationed(k: Kernel, g: Ledger, es: seq<Event>)
    requires Inv(k, g) && LegalRun(k, g, es)
    ensures P.CountUnmarked(Run(k, g, es).0.pages.used) == P.CountUnmarked(k.pages.used) - Taken(k, g, es)
    decreases |es|
  {
    if es != [] {
      StepKeepsInv(k, g, es[0]);
      StepTakes(k, g, es[0]);
      DirectoriesAreRationed(Step(k, es[0]).0, Record(k, g, es[0]), es[1..]);
    }
  }

  /** No creation gets as far as reading its program any more. */
  ghost predicate Exhausted(k: Kernel) {
    |k.pages.used| == |k.pages.dirs| && forall q :: CreateCode(k, q) !in {SUCCESS, READ_FAILURE}
  }

  lemma NoDirectoryNoCreation(k: Kernel)
    requires P.Sizes(k.pages) && P.CountUnmarked(k.pages.used) == 0
    ensures Exhausted(k)
  {
    P.FirstFitFinds(k.pages.used, 0);
    assert k.pages.used[0..] == k.pages.used;
  }

  /** So a boot sees at most 32 such creations, and after them none. */
  lemma ThirtyTwoDirectories(k: Kernel, g: Ledger, es: seq<Event>)
    requires Booted(k) && |g.saved| == |g.home| == SLOTS && Inv(k, g) && LegalRun(k, g, es)
    ensures Taken(k, g, es) <= P.DIRECTORIES
    ensures Taken(k, g, es) == P.DIRECTORIES ==> Exhausted(Run(k, g, es).0)
  {
    P.AllUnmarked(k.pages.used);
    DirectoriesAreRationed(k, g, es);
    RunKeepsInv(k, g, es);
    if Taken(k, g, es) == P.DIRECTORIES {
      NoDirectoryNoCreation(Run(k, g, es).0);
    }
  }

  // ---- Frames that are never given back ----

  /** How many frames a step asks for. */
  function Asks(k: Kernel, e: Event): nat
    requires Sizes(k)
  {
    if TakesDirectory(k, e) then Needed(e.q.size) else 0
  }

  /** How many frames the creations of a run ask for, whether or not their programs can be read. */
  ghost function Demand(k: Kernel, g: Ledger, es: seq<Event>): nat
    requires Inv(k, g) && LegalRun(k, g, es)
    decreases |es|
  {
    if es == [] then 0
    else
      StepKeepsInv(k, g, es[0]);
      Asks(k, es[0]) + Demand(Step(k, es[0]).0, Record(k, g, es[0]), es[1..])
  }

  /** What is left of `free` once n are taken, or nothing. */
  function Left(free: nat, n: nat): nat { if free >= n then free - n else 0 }

  /** The frames an admitted creation leaves. */
  lemma LoadedLeaves(k: Kernel, g: Ledger, q: Program)
    requires Inv(k, g) && CreateCode(k, q) in {SUCCESS, READ_FAILURE}
    ensures Created(k, q).pages.free == Left(k.pages.free, Needed(q.size))
  {
    var d := P.FirstUnused(k.pages);
    AdmittedHasSlot(k, g);
    P.CreateKeepsSound(k.pages);
    P.CreatedMapsOnlyKernel(k.pages);
    AllocateFromCount(P.Create(k.pages), d, 0, Needed(q.size));
    assert Created(k, q).pages == LoadedPages(k, q);
  }

  lemma StepLeaves(k: Kernel, g: Ledger, e: Event)
    requires Inv(k, g) && Legal(k, e)
    ensures Step(k, e).0.pages.free == Left(k.pages.free, Asks(k, e))
  {
    match e
    case Create(q) =>
      if TakesDirectory(k, e) {
        LoadedLeaves(k, g, q);
      }
    case TimerTick(regs, eip, eflags) => SwitchCases(Save(k, Captured(k, regs, eip, eflags)));
    case Exit => SwitchCases(Clear(k, k.running));
    case KillPid(_) => SwitchCases(Clear(k, k.running));
  }

  /** Frames go to creations and never come back, whatever ends and whatever cannot be read: those
      free at the end of a run are those at its start less all that its creations asked for. */
  lemma {:induction false} FramesAreRationed(k: Kernel, g: Ledger, es: seq<Event>)
    requires Inv(k, g) && LegalRun(k, g, es)
    ensures Run(k, g, es).0.pages.free == Left(k.pages.free, Demand(k, g, es))
    decreases |es|
  {
    if es != [] {
      StepKeepsInv(k, g, es[0]);
      StepLeaves(k, g, es[0]);
      FramesAreRationed(Step(k, es[0]).0, Record(k, g, es[0]), es[1..]);
    }
  }

  /** So a process created after a boot has all its pages if and only if it asks for none, or the 31
      frames are enough for it and for all that was created, or failed to load, before it. */
  lemma PagesRunOutWhen(k: Kernel, g: Ledger, es: seq<Event>, q: Program, t: Kernel, h: Ledger)
    requires Booted(k) && Inv(k, g) && LegalRun(k, g, es) && (t, h) == Run(k, g, es)
    requires Inv(t, h) && CreateCode(t, q) == SUCCESS
    ensures var d := P.FirstUnused(t.pages);
      (forall j :: 0 <= j < Needed(q.size) ==> P.Maps(Created(t, q).pages, d, j))
        <==> Needed(q.size) == 0 || Demand(k, g, es) + Needed(q.size) <= P.FRAMES - 1
  {
    FramesAreRationed(k, g, es);
    CreationHasPagesWhen(t, h, q);
  }

  // ---- What a creation answers ----

  /** The check passes for a number of frames unless none is left for a positive one. */
  lemma CheckOfCount(k: Kernel, n: nat)
    requires n <= PAGES_MAX
    ensures P.AllocateCheck(k.pages, n) <==> n == 0 || k.pages.free >= 1
  {
    P.CheckIsExact(k.pages, n);
  }

  lemma DirectoryLeft(k: Kernel)
    requires |k.pages.used| == P.DIRECTORIES
    ensures P.FirstUnused(k.pages) == P.DIRECTORIES <==> P.CountUnmarked(k.pages.used) == 0
  {
    P.FirstFitFinds(k.pages.used, 0);
    assert k.pages.used[0..] == k.pages.used;
  }

  /** The answer, told by the processes created, the frames asked for and the directories taken so far. */
  function Answer(created: nat, asked: nat, taken: nat, q: Program): nat {
    if created == SLOTS then MAX_PROCESS_EXCEEDED
    else if q.entry >= P.KERNEL_BASE then INVALID_ENTRYPOINT
    else if Needed(q.size) > PAGES_MAX || (Needed(q.size) > 0 && asked >= P.FRAMES - 1) || taken == P.DIRECTORIES then
      NOT_ENOUGH_MEMORY
    else if q.readable then SUCCESS
    else READ_FAILURE
  }

  lemma AnswerByCounts(t: Kernel, q: Program, asked: nat, taken: nat)
    requires |t.pages.used| == |t.pages.dirs| == P.DIRECTORIES && 0 <= t.active <= SLOTS
    requires t.pages.free == Left(P.FRAMES - 1, asked) && P.CountUnmarked(t.pages.used) == P.DIRECTORIES - taken
    ensures CreateCode(t, q) == Answer(t.active, asked, taken, q)
  {
    DirectoryLeft(t);
    if Needed(q.size) <= PAGES_MAX {
      CheckOfCount(t, Needed(q.size));
    }
  }

  lemma BootCounts(k: Kernel)
    requires Booted(k)
    ensures k.active == 0 && k.pages.free == P.FRAMES - 1 && P.CountUnmarked(k.pages.used) == P.DIRECTORIES
  {
    P.AllUnmarked(k.pages.used);
  }

  /** After any run from a boot a creation answers by the counts of the run. */
  lemma CreationAnswers(k: Kernel, g: Ledger, es: seq<Event>, q: Program, t: Kernel, h: Ledger)
    requires Booted(k) && Inv(k, g) && LegalRun(k, g, es) && (t, h) == Run(k, g, es) && Inv(t, h)
    ensures CreateCode(t, q) == Answer(Successes(k, g, es), Demand(k, g, es), Taken(k, g, es), q)
  {
    BootCounts(k);
    CreationsAreRationed(k, g, es);
    FramesAreRationed(k, g, es);
    DirectoriesAreRationed(k, g, es);
    AnswerByCounts(t, q, Demand(k, g, es), Taken(k, g, es));
  }
}

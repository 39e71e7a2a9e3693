/** States of the process machine, each reached by a short run from boot, that meet what the exact
    conditions leave open. */
module ProcessExamples {
  import opened Processes
  import opened ProcessRuns
  import P = Paging

  /** A run from k ends in t. */
  ghost predicate EndsRun(k: Kernel, g: Ledger, es: seq<Event>, t: Kernel, h: Ledger) {
    Inv(k, g) && LegalRun(k, g, es) && (t, h) == Run(k, g, es)
  }

  ghost predicate Reached(k: Kernel, g: Ledger, t: Kernel, h: Ledger) { exists es :: EndsRun(k, g, es, t, h) }

  lemma RunCons(k: Kernel, g: Ledger, e: Event, es: seq<Event>, t: Kernel, h: Ledger)
    requires Inv(k, g) && Legal(k, e) && EndsRun(Step(k, e).0, Record(k, g, e), es, t, h)
    ensures EndsRun(k, g, [e] + es, t, h)
  {
    assert ([e] + es)[1..] == es;
  }

  lemma RunTail(k: Kernel, g: Ledger, es: seq<Event>, t: Kernel, h: Ledger)
    requires EndsRun(k, g, es, t, h) && es != []
    ensures Inv(k, g) && Legal(k, es[0]) && EndsRun(Step(k, es[0]).0, Record(k, g, es[0]), es[1..], t, h)
  {
    StepKeepsInv(k, g, es[0]);
  }

  lemma HeadAndLast(es: seq<Event>, e: Event)
    requires es != []
    ensures [es[0]] + (es[1..] + [e]) == es + [e]
  {
  }

  lemma {:induction false} RunSnoc(k: Kernel, g: Ledger, es: seq<Event>, t: Kernel, h: Ledger, e: Event)
    requires EndsRun(k, g, es, t, h) && Inv(t, h) && Legal(t, e)
    ensures EndsRun(k, g, es + [e], Step(t, e).0, Record(t, h, e))
    decreases |es|
  {
    if es == [] {
      StepKeepsInv(k, g, e);
      RunCons(k, g, e, [], Step(k, e).0, Record(k, g, e));
      assert [e] + [] == es + [e];
    } else {
      RunTail(k, g, es, t, h);
      RunSnoc(Step(k, es[0]).0, Record(k, g, es[0]), es[1..], t, h, e);
      RunCons(k, g, es[0], es[1..] + [e], Step(t, e).0, Record(t, h, e));
      HeadAndLast(es, e);
    }
  }

  lemma ReachedNext(k: Kernel, g: Ledger, t: Kernel, h: Ledger, e: Event)
    requires Reached(k, g, t, h) && Inv(t, h) && Legal(t, e)
    ensures Reached(k, g, Step(t, e).0, Record(t, h, e)) && Inv(Step(t, e).0, Record(t, h, e))
  {
    var es :| EndsRun(k, g, es, t, h);
    RunSnoc(k, g, es, t, h, e);
    StepKeepsInv(t, h, e);
  }

  lemma BootIsReached(k: Kernel, g: Ledger)
    requires Booted(k) && |g.saved| == |g.home| == SLOTS
    ensures Reached(k, g, k, g) && Inv(k, g)
  {
    BootKeepsInv(k, g);
    assert EndsRun(k, g, [], k, g);
  }

  // ---- A process without all its pages ----

  /** A program that needs eight frames. */
  function Big(): Program { Program([0, 0, 0, 0, 0, 0, 0, 0], 0, 7 * P.FRAME_SIZE, true) }

  /** After j such programs. */
  predicate Early(k: Kernel, j: nat) {
    && j <= 3 && k.active == j && k.pages.free == P.FRAMES - 1 - PAGES_MAX * j
    && |k.pages.used| == |k.pages.dirs| == P.DIRECTORIES && !k.pages.used[P.DIRECTORIES - 1]
    && forall d :: j <= d < P.DIRECTORIES ==> !k.pages.used[d]
  }

  lemma BigIsAdmitted(k: Kernel, j: nat)
    requires Early(k, j)
    ensures Needed(Big().size) == PAGES_MAX && CreateCode(k, Big()) == SUCCESS && P.FirstUnused(k.pages) <= j
  {
    assert (7 * P.FRAME_SIZE + P.FRAME_SIZE) % P.WORD == 8 * P.FRAME_SIZE;
    assert CeilDiv(8 * P.FRAME_SIZE, P.FRAME_SIZE) == 8;
    assert !k.pages.used[j];
  }

  lemma BigTakesEight(k: Kernel, g: Ledger, j: nat)
    requires Inv(k, g) && Early(k, j) && j < 3
    ensures Early(Step(k, Create(Big())).0, j + 1)
  {
    BigIsAdmitted(k, j);
    AdmittedHasSlot(k, g);
    LoadedIsSound(k, Big());
    P.CreateKeepsSound(k.pages);
    P.CreatedMapsOnlyKernel(k.pages);
    AllocateFromCount(P.Create(k.pages), P.FirstUnused(k.pages), 0, PAGES_MAX);
    assert Created(k, Big()).pages == LoadedPages(k, Big());
  }

  lemma EarlyIsReached(k: Kernel, g: Ledger, j: nat) returns (t: Kernel, h: Ledger)
    requires Booted(k) && |g.saved| == |g.home| == SLOTS && j <= 3
    ensures Reached(k, g, t, h) && Inv(t, h) && Early(t, j)
  {
    if j == 0 {
      BootIsReached(k, g);
      t, h := k, g;
    } else {
      var t0, h0 := EarlyIsReached(k, g, j - 1);
      BigTakesEight(t0, h0, j - 1);
      ReachedNext(k, g, t0, h0, Create(Big()));
      t, h := Step(t0, Create(Big())).0, Record(t0, h0, Create(Big()));
    }
  }

  /** The fourth program of eight pages is created successfully with seven frames left. */
  lemma CreationWithoutPages(k: Kernel, g: Ledger) returns (t: Kernel, h: Ledger)
    requires Booted(k) && |g.saved| == |g.home| == SLOTS
    ensures Reached(k, g, t, h) && Inv(t, h) && CreateCode(t, Big()) == SUCCESS
    ensures exists j :: 0 <= j < Needed(Big().size) && !P.Maps(Created(t, Big()).pages, P.FirstUnused(t.pages), j)
  {
    t, h := EarlyIsReached(k, g, 3);
    BigIsAdmitted(t, 3);
    CreationHasPagesWhen(t, h, Big());
  }

  // ---- A slot that stays taken ----

  /** Only slot 0 is in use, and its process waits. */
  predicate OneWaits(k: Kernel) {
    && |k.procs| == SLOTS && k.running == -1 && k.procs[0].state == Ready
    && forall i :: 1 <= i < SLOTS ==> k.procs[i].state == New
  }

  lemma OneIsCreated(k: Kernel, g: Ledger)
    requires Booted(k) && Inv(k, g)
    ensures OneWaits(Step(k, Create(Big())).0)
  {
    assert Early(k, 0);
    BigIsAdmitted(k, 0);
    assert FirstNew(k.procs, 0) == 0;
  }

  lemma OneRunsAlone(k: Kernel, g: Ledger)
    requires Inv(k, g) && OneWaits(k)
    ensures var t := Step(k, TimerTick(NO_REGISTERS, 0, 0)).0;
      && |t.procs| == SLOTS && t.running == 0
      && forall i :: 0 <= i < SLOTS && i != 0 ==> t.procs[i].state != Ready
  {
    assert Following(-1, 0) == 0;
  }

  lemma SlotIsRunning(t: Kernel)
    requires Sizes(t) && t.running == 0 && forall i :: 0 <= i < SLOTS && i != 0 ==> t.procs[i].state != Ready
    ensures var u := Step(t, Exit).0; |u.procs| == SLOTS && u.procs[0] == Cleared().(state := Running)
  {
    ScanStops(Clear(t, 0).procs, 0);
  }

  /** The only process runs and ends: its cleared slot is marked as running. */
  lemma LastOneLeavesItsSlot(k: Kernel, g: Ledger) returns (t: Kernel, h: Ledger)
    requires Booted(k) && |g.saved| == |g.home| == SLOTS
    ensures Reached(k, g, t, h) && Inv(t, h) && t.running == 0
    ensures var u := Step(t, Exit).0; |u.procs| == SLOTS && u.procs[0] == Cleared().(state := Running)
  {
    BootIsReached(k, g);
    OneIsCreated(k, g);
    ReachedNext(k, g, k, g, Create(Big()));
    var k1, g1 := Step(k, Create(Big())).0, Record(k, g, Create(Big()));
    OneRunsAlone(k1, g1);
    ReachedNext(k, g, k1, g1, TimerTick(NO_REGISTERS, 0, 0));
    t, h := Step(k1, TimerTick(NO_REGISTERS, 0, 0)).0, Record(k1, g1, TimerTick(NO_REGISTERS, 0, 0));
    TerminateFreesWhen(t);
    SlotIsRunning(t);
  }

  // ---- A process that goes on after its end ----

  function Pulse(): Event { TimerTick(NO_REGISTERS, 0, 0) }

  /** Only slot 0 is in use, and runs. */
  predicate Alone(k: Kernel) {
    && |k.procs| == SLOTS && k.running == 0 && k.procs[0].state == Running
    && forall i :: 1 <= i < SLOTS ==> k.procs[i].state == New
  }

  lemma OneIsPicked(k: Kernel)
    requires OneWaits(k) && Sizes(k)
    ensures var t := Step(k, Pulse()).0; Alone(t) && t.active == k.active && t.pages == k.pages
  {
    assert Following(-1, 0) == 0;
  }

  lemma EndsInPlace(k: Kernel)
    requires Alone(k) && Sizes(k)
    ensures var t := Step(k, Exit).0; Alone(t) && t.procs[0].pid == 0 && t.active == k.active && t.pages == k.pages
  {
    SlotIsRunning(k);
    SwitchStaysWhen(Clear(k, 0));
    SwitchCases(Clear(k, 0));
  }

  /** Slot 0 runs without a pid and slot 1 is ready. */
  predicate NewBeside(k: Kernel) {
    && |k.procs| == SLOTS && k.running == 0 && k.procs[0].pid == 0 && k.procs[0].state == Running && k.procs[1].state == Ready
    && forall i :: 2 <= i < SLOTS ==> k.procs[i].state == New
  }

  lemma SecondIsCreated(k: Kernel)
    requires Alone(k) && k.procs[0].pid == 0 && Early(k, 1)
    ensures NewBeside(Step(k, Create(Big())).0)
  {
    BigIsAdmitted(k, 1);
    assert FirstNew(k.procs, 0) == 1;
  }

  /** Slot 0 waits without a pid and slot 1 runs. */
  predicate EndedWaits(k: Kernel) {
    && |k.procs| == SLOTS && k.running == 1 && k.procs[0].pid == 0 && k.procs[0].state == Ready
    && k.procs[1].state == Running && forall i :: 2 <= i < SLOTS ==> k.procs[i].state == New
  }

  lemma FirstSteps(k: Kernel)
    requires NewBeside(k) && Sizes(k)
    ensures EndedWaits(Step(k, Pulse()).0)
  {
    var m := Save(k, Captured(k, NO_REGISTERS, 0, 0));
    assert Following(0, 0) == 1 && m.procs[1].state == Ready;
    assert Scan(m.procs, 0, 0) == 0;
  }

  lemma GoesBack(k: Kernel)
    requires EndedWaits(k) && Sizes(k)
    ensures Step(k, Pulse()).1.Go? && Step(k, Pulse()).1.slot == 0
  {
    var m := Save(k, Captured(k, NO_REGISTERS, 0, 0));
    assert m.procs[0].state == Ready;
    SwitchStaysWhen(m);
    SwitchCases(m);
  }

  lemma EndedIsReached(k: Kernel, g: Ledger) returns (t: Kernel, h: Ledger)
    requires Booted(k) && |g.saved| == |g.home| == SLOTS
    ensures Reached(k, g, t, h) && Inv(t, h) && Alone(t) && t.procs[0].pid == 0 && Early(t, 1)
  {
    BootIsReached(k, g);
    OneIsCreated(k, g);
    BigTakesEight(k, g, 0);
    ReachedNext(k, g, k, g, Create(Big()));
    var k1, g1 := Step(k, Create(Big())).0, Record(k, g, Create(Big()));
    OneIsPicked(k1);
    ReachedNext(k, g, k1, g1, Pulse());
    var k2, g2 := Step(k1, Pulse()).0, Record(k1, g1, Pulse());
    EndsInPlace(k2);
    ReachedNext(k, g, k2, g2, Exit);
    t, h := Step(k2, Exit).0, Record(k2, g2, Exit);
  }

  /** A process ends with nobody else ready, another one is created and runs: the slot of the first
      waits without a pid, and gets the processor again. */
  lemma EndedOneGoesOn(k: Kernel, g: Ledger) returns (t: Kernel, h: Ledger)
    requires Booted(k) && |g.saved| == |g.home| == SLOTS
    ensures Reached(k, g, t, h) && Inv(t, h) && EndedWaits(t)
    ensures Step(t, Pulse()).1.Go? && Step(t, Pulse()).1.slot == 0
  {
    var k3, g3 := EndedIsReached(k, g);
    SecondIsCreated(k3);
    ReachedNext(k, g, k3, g3, Create(Big()));
    var k4, g4 := Step(k3, Create(Big())).0, Record(k3, g3, Create(Big()));
    FirstSteps(k4);
    ReachedNext(k, g, k4, g4, Pulse());
    t, h := Step(k4, Pulse()).0, Record(k4, g4, Pulse());
    GoesBack(t);
  }
}

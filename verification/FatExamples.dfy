/** Short runs from a fresh disk that meet what the exact conditions leave open. */
module FatExamples {
  import opened Layout
  import opened Disk
  import opened FatState
  import opened FatRequests
  import opened FatRemoval
  import opened FatTheorems
  import opened FatRun
  import opened FatReads
  import D = FatDriver

  // ---- Runs step by step ----

  lemma RunCons(w: World, op: Op, ops: seq<Op>)
    requires Fine(w) && Legal(w, op) && Fine(Step(w, op)) && LegalRun(Step(w, op), ops)
    ensures LegalRun(w, [op] + ops) && Run(w, [op] + ops) == Run(Step(w, op), ops)
  {
    assert ([op] + ops)[1..] == ops;
  }

  function RootTable(w: World): Table { TableOf(w.s.disk[ROOT_CLUSTER]) }

  /** A world with all clusters from n on free, and something in dir_table_buf. */
  predicate Roomy(w: World, n: nat) {
    && Fine(w) && 3 <= n <= MAP_SIZE && w.s.words[MAP_SIZE] != EMPTY
    && forall c :: n <= c < MAP_SIZE ==> w.s.words[c] == EMPTY
  }

  lemma FreshIsRoomy(disk: Clusters, tail: seq<byte>)
    requires |tail| == CLUSTER_SIZE - BLOCK_SIZE
    ensures Roomy(Formatted(disk, tail), 3)
    ensures RootTable(Formatted(disk, tail))
         == BlankTable()[0 := HeaderItem(RootName(), ROOT_CLUSTER)][1 := HeaderItem(RootName(), ROOT_CLUSTER)]
  {
    var s := Format(disk, tail);
    FormatIsSound(disk, tail);
    FormatAt(disk, tail);
    FormatFillsBuffer(disk, tail);
    VolAt(s, ROOT_CLUSTER);
    forall c | 3 <= c < MAP_SIZE
      ensures s.words[c] == EMPTY
    {
      assert s.words[c] == s.words[..MAP_SIZE][c] == FormatMap()[c];
    }
  }

  /** A request in the root for a directory or a file of one cluster. */
  predicate Small(r: Request) {
    r.parent == ROOT_CLUSTER && r.size <= CLUSTER_SIZE && WordAt(r.name, 0) != EMPTY
  }

  lemma FreeWordIsFound(w: Words, n: nat)
    requires 3 <= n < MAP_SIZE && w[n] == EMPTY
    ensures FirstFree(w, 0, MAP_SIZE) <= n && CountFree(w, 3, WORDS) >= 1
  {
    NoFreeMeansZero(w, 3, WORDS);
  }

  /** One free cluster and one free slot are enough for it. */
  lemma SmallCode(s: Fs, n: nat, r: Request)
    requires Small(r) && 3 <= n < MAP_SIZE && s.words[n] == EMPTY && TableOf(s.disk[ROOT_CLUSTER])[0].Folder()
    requires FindSame(TableOf(s.disk[ROOT_CLUSTER]), r.name, r.ext, RequestAttr(r), 2) == SLOTS
    requires FindUnused(TableOf(s.disk[ROOT_CLUSTER]), 2) < SLOTS
    ensures WriteCode(s, r) == 0 && Parts(r.size) <= 1
  {
    FreeWordIsFound(s.words, n);
  }

  lemma RootIsKnown(w: World, r: Request)
    requires Fine(w) && r.parent == ROOT_CLUSTER
    ensures ParentKnown(w.s, w.b, r)
  {
  }

  lemma SmallIsAdmitted(w: World, n: nat, r: Request, buf: seq<byte>)
    requires Roomy(w, n) && Small(r) && Parts(r.size) <= 1 && |buf| >= CLUSTER_SIZE && WriteCode(w.s, r) == 0
    ensures Legal(w, Write(r, buf))
  {
    RootIsKnown(w, r);
    OverAdmitsWhen(w.s, w.b, r);
  }

  lemma OnlyOneTaken(v: Words, w: Words, chain: seq<nat>, n: nat)
    requires |chain| == 1 && chain[0] <= n && forall c :: n <= c < MAP_SIZE ==> v[c] == EMPTY
    requires forall c :: 0 <= c < MAP_SIZE && c !in chain ==> w[c] == v[c]
    ensures forall c :: n + 1 <= c < MAP_SIZE ==> w[c] == EMPTY
  {
  }

  lemma SmallClaim(w: World, n: nat, r: Request, buf: seq<byte>)
    requires Roomy(w, n) && n < MAP_SIZE && Small(r) && |buf| >= CLUSTER_SIZE
    requires Legal(w, Write(r, buf)) && WriteCode(w.s, r) == 0
    ensures forall c :: n + 1 <= c < MAP_SIZE ==> WriteState(w.s, r, buf).words[c] == EMPTY
  {
    var chain := WriteChain(w.s, r);
    WriteAt(w.s, w.b, r, buf);
    WriteClaims(w.s, w.b, r, buf);
    ChainStartsAtFirstFree(w.s, r);
    FreeWordIsFound(w.s.words, n);
    OnlyOneTaken(w.s.words, WriteState(w.s, r, buf).words, chain, n);
  }

  /** A small write goes into the first unused slot and takes one more cluster. */
  lemma SmallWrite(w: World, n: nat, r: Request, buf: seq<byte>)
    requires Roomy(w, n) && n < MAP_SIZE && Small(r) && |buf| >= CLUSTER_SIZE
    requires Legal(w, Write(r, buf)) && WriteCode(w.s, r) == 0
    ensures var t, k, e := Step(w, Write(r, buf)), FindUnused(RootTable(w), 2), Decode(NewSlot(w.s, r));
      && Roomy(t, n + 1) && 2 <= k < SLOTS && RootTable(w)[k] == Blank() && RootTable(t) == RootTable(w)[k := e]
      && e.name == r.name && e.ext == r.ext && e.attr == RequestAttr(r) && e.Live() && e.size == r.size
  {
    var op := Write(r, buf);
    StepIsFine(w, op);
    PlainStepsNeverOverAdmit(w, op);
    ParentAfterWrite(w.s, w.b, r, buf);
    SlotTaken(w.s, w.b, r, buf);
    WriteEntry(w.s, r);
    SmallClaim(w, n, r, buf);
  }

  lemma RoomyDelete(w: World, n: nat, r: Request)
    requires Roomy(w, n) && r.parent == ROOT_CLUSTER && Legal(w, Delete(r)) && DeleteCode(w.s, r) == 0
    ensures var t := Step(w, Delete(r));
      Roomy(t, n) && 2 <= Target(w.s, r) < SLOTS && RootTable(t) == RootTable(w)[Target(w.s, r) := Blank()]
  {
    StepIsFine(w, Delete(r));
    PlainStepsNeverOverAdmit(w, Delete(r));
    DeleteTarget(w.s, w.b, r);
    DeleteStep(w.s, w.b, r);
    var m := UnlinkStep(w.s, w.b, r.parent, Target(w.s, r));
    VolAt(w.s, ROOT_CLUSTER);
    VolAt(Step(w, Delete(r)).s, ROOT_CLUSTER);
  }

  // ---- A file that another request hides ----

  function OneByteName(c: byte): Name { [c, 0, 0, 0, 0, 0, 0, 0] }

  const NAME_A: byte := 97
  const NAME_X: byte := 120

  function FileCalled(c: byte, ext: Ext): Request { Request(OneByteName(c), ext, ROOT_CLUSTER, 1) }

  function FolderCalled(c: byte, ext: Ext): Request { Request(OneByteName(c), ext, ROOT_CLUSTER, 0) }

  /** An entry as a small write leaves it. */
  predicate Made(e: Item, r: Request) {
    e.name == r.name && e.ext == r.ext && e.attr == RequestAttr(r) && e.Live() && e.size == r.size
  }

  /** One write more: legal, successful, and its entry in the first unused slot. */
  lemma OneMore(w: World, n: nat, r: Request, buf: seq<byte>) returns (e: Item)
    requires Roomy(w, n) && n < MAP_SIZE && Small(r) && |buf| >= CLUSTER_SIZE
    requires RootTable(w)[0].Folder() && FindSame(RootTable(w), r.name, r.ext, RequestAttr(r), 2) == SLOTS
    requires FindUnused(RootTable(w), 2) < SLOTS
    ensures Legal(w, Write(r, buf)) && WriteCode(w.s, r) == 0
    ensures var t, k := Step(w, Write(r, buf)), FindUnused(RootTable(w), 2);
      Roomy(t, n + 1) && 2 <= k < SLOTS && RootTable(w)[k] == Blank() && RootTable(t) == RootTable(w)[k := e] && Made(e, r)
  {
    SmallCode(w.s, n, r);
    SmallIsAdmitted(w, n, r, buf);
    SmallWrite(w, n, r, buf);
    e := Decode(NewSlot(w.s, r));
  }

  /** Slots from k on are unused, and those before it are not. */
  predicate FilledTo(t: Table, k: nat) {
    && 2 <= k <= SLOTS && t[0] == HeaderItem(RootName(), ROOT_CLUSTER) && t[1] == HeaderItem(RootName(), ROOT_CLUSTER)
    && (forall i :: 2 <= i < k ==> t[i].Live()) && forall i :: k <= i < SLOTS ==> t[i] == Blank()
  }

  /** No entry is like the one the request asks for. */
  predicate NewIn(t: Table, r: Request) {
    forall i :: 2 <= i < SLOTS ==> !(t[i].Named(r.name, r.ext) && t[i].attr == RequestAttr(r))
  }

  lemma FilledFinds(t: Table, k: nat, r: Request)
    requires FilledTo(t, k) && k < SLOTS && NewIn(t, r)
    ensures t[0].Folder() && FindUnused(t, 2) == k && FindSame(t, r.name, r.ext, RequestAttr(r), 2) == SLOTS
  {
    assert !t[k].Live();
  }

  lemma FilledMore(t: Table, k: nat, e: Item, r: Request)
    requires FilledTo(t, k) && k < SLOTS && Made(e, r)
    ensures FilledTo(t[k := e], k + 1) && t[k := e][k] == e
  {
  }

  /** A small write into the next slot. */
  lemma NextWrite(w: World, n: nat, k: nat, r: Request, buf: seq<byte>)
    requires Roomy(w, n) && n < MAP_SIZE && Small(r) && |buf| >= CLUSTER_SIZE
    requires FilledTo(RootTable(w), k) && k < SLOTS && NewIn(RootTable(w), r)
    ensures Legal(w, Write(r, buf)) && WriteCode(w.s, r) == 0
    ensures var t := Step(w, Write(r, buf));
      && Roomy(t, n + 1) && FilledTo(RootTable(t), k + 1) && Made(RootTable(t)[k], r)
      && RootTable(t) == RootTable(w)[k := RootTable(t)[k]]
  {
    FilledFinds(RootTable(w), k, r);
    var e := OneMore(w, n, r, buf);
    FilledMore(RootTable(w), k, e, r);
  }

  lemma BlankIsNew(t: Table, r: Request)
    requires FilledTo(t, 2) && Small(r)
    ensures NewIn(t, r)
  {
  }

  /** A small write on a fresh disk. */
  lemma FirstWrite(disk: Clusters, tail: seq<byte>, buf: seq<byte>, r: Request)
    requires |tail| == CLUSTER_SIZE - BLOCK_SIZE && |buf| >= CLUSTER_SIZE && Small(r)
    ensures Fine(Formatted(disk, tail)) && Legal(Formatted(disk, tail), Write(r, buf))
    ensures var w := Step(Formatted(disk, tail), Write(r, buf));
      Roomy(w, 4) && FilledTo(RootTable(w), 3) && Made(RootTable(w)[2], r)
  {
    FreshIsRoomy(disk, tail);
    BlankIsNew(RootTable(Formatted(disk, tail)), r);
    NextWrite(Formatted(disk, tail), 3, 2, r, buf);
  }

  lemma NewBeside(t: Table, r: Request, q: Request)
    requires FilledTo(t, 3) && Made(t[2], r) && Small(q)
    requires !(q.name == r.name && q.ext == r.ext && RequestAttr(q) == RequestAttr(r))
    ensures NewIn(t, q)
  {
  }

  /** A small write of another entry after the first one. */
  lemma SecondWrite(w: World, buf: seq<byte>, r: Request, q: Request)
    requires Roomy(w, 4) && FilledTo(RootTable(w), 3) && Made(RootTable(w)[2], r) && Small(q) && |buf| >= CLUSTER_SIZE
    requires !(q.name == r.name && q.ext == r.ext && RequestAttr(q) == RequestAttr(r))
    ensures Legal(w, Write(q, buf))
    ensures var t := Step(w, Write(q, buf));
      Roomy(t, 5) && FilledTo(RootTable(t), 4) && Made(RootTable(t)[2], r) && Made(RootTable(t)[3], q)
  {
    NewBeside(RootTable(w), r, q);
    NextWrite(w, 4, 3, q, buf);
  }

  lemma RunOfTwo(w: World, a: Op, b: Op)
    requires Fine(w) && Legal(w, a) && Fine(Step(w, a)) && Legal(Step(w, a), b) && Fine(Step(Step(w, a), b))
    ensures LegalRun(w, [a, b]) && Run(w, [a, b]) == Step(Step(w, a), b)
  {
    RunCons(Step(w, a), b, []);
    RunCons(w, a, [b]);
    assert [a] + [b] == [a, b] && [b] + [] == [b];
  }

  /** Two small writes of different entries on a fresh disk. */
  lemma TwoWrites(disk: Clusters, tail: seq<byte>, buf: seq<byte>, r: Request, q: Request)
    requires |tail| == CLUSTER_SIZE - BLOCK_SIZE && |buf| >= CLUSTER_SIZE && Small(r) && Small(q)
    requires !(q.name == r.name && q.ext == r.ext && RequestAttr(q) == RequestAttr(r))
    ensures Fine(Formatted(disk, tail)) && LegalRun(Formatted(disk, tail), [Write(r, buf), Write(q, buf)])
    ensures var w := Run(Formatted(disk, tail), [Write(r, buf), Write(q, buf)]);
      Roomy(w, 5) && FilledTo(RootTable(w), 4) && Made(RootTable(w)[2], r) && Made(RootTable(w)[3], q)
  {
    FirstWrite(disk, tail, buf, r);
    SecondWrite(Step(Formatted(disk, tail), Write(r, buf)), buf, r, q);
    RunOfTwo(Formatted(disk, tail), Write(r, buf), Write(q, buf));
  }

  lemma {:induction false} RunSnoc(w: World, ops: seq<Op>, op: Op)
    requires Fine(w) && LegalRun(w, ops) && Fine(Run(w, ops)) && Legal(Run(w, ops), op)
    ensures LegalRun(w, ops + [op]) && Run(w, ops + [op]) == Step(Run(w, ops), op)
    decreases |ops|
  {
    if ops == [] {
      StepIsFine(w, op);
      assert [] + [op] == [op];
      RunCons(w, op, []);
      assert [op] + [] == [op];
    } else {
      StepIsFine(w, ops[0]);
      RunSnoc(Step(w, ops[0]), ops[1..], op);
      RunCons(w, ops[0], ops[1..] + [op]);
      assert [ops[0]] + (ops[1..] + [op]) == ops + [op];
    }
  }

  /** A name that is neither empty nor the root's. */
  predicate Ordinary(r: Request) { Small(r) && r.name[0] != 114 }

  /** A file can be deleted from the root. */
  lemma FileCanGo(w: World, n: nat, r: Request)
    requires Roomy(w, n) && FilledTo(RootTable(w), 4) && Ordinary(r) && r.size != 0
    requires Made(RootTable(w)[2], r)
    ensures Legal(w, Delete(r)) && DeleteCode(w.s, r) == 0 && Target(w.s, r) == 2
  {
    RootIsKnown(w, r);
    assert RootName()[0] == 114;
    assert RootTable(w)[2].Named(r.name, r.ext);
  }

  lemma NotTheRoot(r: Request, e: Item)
    requires Ordinary(r)
    ensures !HeaderItem(RootName(), ROOT_CLUSTER).Named(r.name, r.ext) && !Blank().Named(r.name, r.ext)
  {
    assert RootName()[0] == 114;
  }

  /** With slot 2 cleared, the entry in slot 3 is the only one of its name. */
  lemma DeletedFinds(t: Table, u: Table, q: Request)
    requires FilledTo(t, 4) && u == t[2 := Blank()] && Made(t[3], q) && Ordinary(q)
    ensures u[0].Folder() && FindUnused(u, 2) == 2 && Find(u, q.name, q.ext, 0) == 3
    ensures forall i :: 0 <= i < SLOTS && i != 3 ==> !u[i].Named(q.name, q.ext)
  {
    NotTheRoot(q, t[3]);
    assert forall i :: 0 <= i < SLOTS && i != 3 ==> !u[i].Named(q.name, q.ext);
    assert u[3].Named(q.name, q.ext) && !u[2].Live();
  }

  lemma InFront(s: Fs, a: Request, d: Request)
    requires d == a.(size := 0) && Ordinary(a) && FindUnused(Parent(s, d), 2) < Find(Parent(s, a), a.name, a.ext, 0)
    ensures Covers(s, d, a) && !BlankKey(a)
  {
  }

  lemma HiddenNow(w: World, a: Request, d: Request, buf: seq<byte>)
    requires Fine(w) && Legal(w, Write(d, buf)) && WriteCode(w.s, d) == 0 && Ordinary(a) && d == a.(size := 0)
    requires FindUnused(RootTable(w), 2) < Find(RootTable(w), a.name, a.ext, 0)
    ensures ReadCode(WriteState(w.s, d, buf), a) == 1
  {
    InFront(w.s, a, d);
    ReadCodeAfterWrite(w.s, w.b, d, buf, a);
  }

  lemma HideBehind(w: World, t: Table, a: Request, d: Request, buf: seq<byte>)
    requires Roomy(w, 5) && FilledTo(t, 4) && RootTable(w) == t[2 := Blank()] && |buf| >= CLUSTER_SIZE
    requires Made(t[3], a) && Ordinary(a) && a.size == 1 && d == a.(size := 0)
    ensures Legal(w, Write(d, buf)) && ReadCode(w.s, a) == 0 && WriteCode(w.s, d) == 0
    ensures ReadCode(Step(w, Write(d, buf)).s, a) == 1
  {
    DeletedFinds(t, RootTable(w), a);
    var e := OneMore(w, 5, d, buf);
    CodeOfTable(w.s, a);
    HiddenNow(w, a, d, buf);
  }

  /** A reachable state in which a directory can be made in front of a file: x and a are written
      and x deleted, so the slot in front of a is unused. The file could be read until then, and
      cannot afterwards, although nobody touched it. */
  lemma DirectoryHidesFile(disk: Clusters, tail: seq<byte>, buf: seq<byte>)
    requires |tail| == CLUSTER_SIZE - BLOCK_SIZE && |buf| >= CLUSTER_SIZE
    ensures var x, a, d := FileCalled(NAME_X, NoExt()), FileCalled(NAME_A, NoExt()), FolderCalled(NAME_A, NoExt());
      var w0, ops := Formatted(disk, tail), [Write(x, buf), Write(a, buf)] + [Delete(x)];
      && Fine(w0) && LegalRun(w0, ops)
      && Fine(Run(w0, ops)) && Legal(Run(w0, ops), Write(d, buf))
      && ReadCode(Run(w0, ops).s, a) == 0 && WriteCode(Run(w0, ops).s, d) == 0
      && ReadCode(Step(Run(w0, ops), Write(d, buf)).s, a) == 1
  {
    var x, a, d := FileCalled(NAME_X, NoExt()), FileCalled(NAME_A, NoExt()), FolderCalled(NAME_A, NoExt());
    var w0 := Formatted(disk, tail);
    assert x.name[0] == NAME_X && a.name[0] == NAME_A;
    TwoWrites(disk, tail, buf, x, a);
    var w2 := Run(w0, [Write(x, buf), Write(a, buf)]);
    FileCanGo(w2, 5, x);
    RoomyDelete(w2, 5, x);
    RunSnoc(w0, [Write(x, buf), Write(a, buf)], Delete(x));
    HideBehind(Step(w2, Delete(x)), RootTable(w2), a, d, buf);
  }

  // ---- Shadows and blank keys on a fresh disk ----

  lemma RootIsFirst(disk: Clusters, tail: seq<byte>, r: Request)
    requires |tail| == CLUSTER_SIZE - BLOCK_SIZE && r == Request(RootName(), NoExt(), ROOT_CLUSTER, 1)
    ensures Target(Format(disk, tail), r) == 0 && !Unshadowed(Format(disk, tail), r) && !BlankKey(r)
  {
    FreshRoot(Format(disk, tail), r, disk, tail);
    assert RootName()[0] == 114;
    assert Parent(Format(disk, tail), r)[0].Named(r.name, r.ext);
  }

  /** A file called root, written in the root of a fresh disk, is shadowed by the directory's own
      header: the write succeeds, the file cannot be read, and a delete does not undo it. */
  lemma RootShadowsFile(disk: Clusters, tail: seq<byte>, r: Request, buf: seq<byte>)
    requires |tail| == CLUSTER_SIZE - BLOCK_SIZE && r == Request(RootName(), NoExt(), ROOT_CLUSTER, 1) && |buf| >= CLUSTER_SIZE
    requires forall c :: 0 <= c < DISK_CLUSTERS ==> disk[c] == ZeroCluster()
    ensures var s := Format(disk, tail);
      && WriteCode(s, r) == 0 && !Unshadowed(s, r)
      && ReadCode(WriteState(s, r, buf), r) != 0 && DeleteState(WriteState(s, r, buf), r).disk != s.disk
  {
    var s, b := Format(disk, tail), FormatBook();
    FormatIsSound(disk, tail);
    FreshDiskHolds(disk, tail, r);
    RootIsFirst(disk, tail, r);
    WriteThenRead(s, b, r, buf, r);
    FormatIsClean(disk, tail);
    WriteThenDelete(s, b, r, buf);
  }

  /** A request without a name finds an unused entry of a fresh root, and its chain loop leaves the
      map. */
  lemma BlankKeyLeavesMap(disk: Clusters, tail: seq<byte>, r: Request)
    requires |tail| == CLUSTER_SIZE - BLOCK_SIZE && r.parent == ROOT_CLUSTER && BlankKey(r)
    ensures var s := Format(disk, tail);
      && Target(s, r) == 2 && !FindsUsed(s, r)
      && !D.LoopEnds(s.words, Parent(s, r)[Target(s, r)].cluster)
  {
    var s := Format(disk, tail);
    FormatIsSound(disk, tail);
    FreshIsRoomy(disk, tail);
    assert RootName()[0] == 114;
    var t := Parent(s, r);
    assert t == RootTable(Formatted(disk, tail)) && t[2] == Blank();
    D.TargetReadyExactly(s, FormatBook(), r);
  }
}

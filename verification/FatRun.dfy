/** Whole runs of the driver: from a format, through any requests and remounts. */
module FatRun {
  import opened Layout
  import opened Disk
  import opened FatState
  import opened Chains
  import opened FatInvariant
  import opened FatRequests
  import opened FatRemoval
  import opened FatFiles
  import opened FatTheorems

  // ---- Format ----

  function FormatBook(): Book {
    Book(seq(MAP_SIZE, c => if c < 2 then System else if c == ROOT_CLUSTER then Root else Free), seq(MAP_SIZE, _ => 0))
  }

  function FormatMap(): (m: seq<word>)
    ensures |m| == MAP_SIZE && m[0] == CLUSTER_0_VALUE && m[1] == CLUSTER_1_VALUE && m[2] == END_OF_FILE
    ensures forall c :: 3 <= c < MAP_SIZE ==> m[c] == EMPTY
  {
    [CLUSTER_0_VALUE, CLUSTER_1_VALUE, END_OF_FILE] + NoWords(MAP_SIZE - 3)
  }

  lemma FormatAt(disk: Clusters, tail: seq<byte>)
    requires |tail| == CLUSTER_SIZE - BLOCK_SIZE
    ensures Coherent(Format(disk, tail))
    ensures Format(disk, tail).words[..MAP_SIZE] == FormatMap()
    ensures Vol(Format(disk, tail)).tabs[ROOT_CLUSTER]
         == BlankTable()[0 := HeaderItem(RootName(), ROOT_CLUSTER)][1 := HeaderItem(RootName(), ROOT_CLUSTER)]
  {
    var s := Format(disk, tail);
    NewTableDecodes(RootName(), RootName(), ROOT_CLUSTER, ROOT_CLUSTER);
    VolAt(s, ROOT_CLUSTER);
    assert s.words[..MAP_SIZE] == FormatMap();
    assert s.disk[BOOT_SECTOR][..BLOCK_SIZE] == Signature();
  }

  lemma FreshVolume(v: Volume)
    requires v.words[..MAP_SIZE] == FormatMap()
    requires v.tabs[ROOT_CLUSTER]
          == BlankTable()[0 := HeaderItem(RootName(), ROOT_CLUSTER)][1 := HeaderItem(RootName(), ROOT_CLUSTER)]
    ensures Sound(v, FormatBook())
  {
    assert forall c :: 0 <= c < MAP_SIZE ==> v.words[c] == v.words[..MAP_SIZE][c] == FormatMap()[c];
    assert Shape(v, FormatBook());
    assert HeadOk(v, FormatBook(), ROOT_CLUSTER);
  }

  /** A fresh format satisfies the invariant, whatever was on the disk. */
  lemma FormatIsSound(disk: Clusters, tail: seq<byte>)
    requires |tail| == CLUSTER_SIZE - BLOCK_SIZE
    ensures Inv(Format(disk, tail), FormatBook())
  {
    var s := Format(disk, tail);
    FormatAt(disk, tail);
    FreshVolume(Vol(s));
  }

  /** Formatting a zeroed disk leaves every free cluster zero. */
  lemma FormatIsClean(disk: Clusters, tail: seq<byte>)
    requires |tail| == CLUSTER_SIZE - BLOCK_SIZE
    requires forall c :: 0 <= c < DISK_CLUSTERS ==> disk[c] == ZeroCluster()
    ensures Clean(Format(disk, tail))
  {
  }

  lemma {:induction false} AllCounted(w: seq<word>, i: nat, n: nat)
    requires i <= n <= |w| && forall c :: i <= c < n ==> w[c] == EMPTY
    ensures CountFree(w, i, n) == n - i
    decreases n - i
  {
    if i < n {
      AllCounted(w, i + 1, n);
    }
  }

  /** A fresh format leaves the root table in dir_table_buf, so its word is not zero. */
  lemma FormatFillsBuffer(disk: Clusters, tail: seq<byte>)
    requires |tail| == CLUSTER_SIZE - BLOCK_SIZE
    ensures Format(disk, tail).words[MAP_SIZE] != EMPTY
  {
    var t := NewTable(RootName(), RootName(), ROOT_CLUSTER, ROOT_CLUSTER);
    NewTableDecodes(RootName(), RootName(), ROOT_CLUSTER, ROOT_CLUSTER);
    assert TableOf(t)[0].name == RootName();
    assert forall i :: 0 <= i < 8 ==> t[i] == SlotAt(t, 0)[i] == SlotAt(t, 0)[..8][i];
    assert RootName()[0] == 'r' as int;
  }

  lemma FreshSearch(t: Table, r: Request)
    requires t == BlankTable()[0 := HeaderItem(RootName(), ROOT_CLUSTER)][1 := HeaderItem(RootName(), ROOT_CLUSTER)]
    ensures t[0] == HeaderItem(RootName(), ROOT_CLUSTER) && FindUnused(t, 2) == 2 && EmptyFolder(t)
    ensures FindSame(t, r.name, r.ext, RequestAttr(r), 2) == if r.size != 0 && BlankKey(r) then 2 else SLOTS
  {
    assert forall i :: 2 <= i < SLOTS ==> t[i] == Blank();
  }

  /** The searches of a write in the root of a fresh disk. */
  lemma FreshRoot(s: Fs, r: Request, disk: Clusters, tail: seq<byte>)
    requires |tail| == CLUSTER_SIZE - BLOCK_SIZE && r.parent == ROOT_CLUSTER && s.disk == Format(disk, tail).disk
    ensures Format(disk, tail).words[..MAP_SIZE] == FormatMap()
    ensures Parent(s, r)[0] == HeaderItem(RootName(), ROOT_CLUSTER) && FindUnused(Parent(s, r), 2) == 2
    ensures FindSame(Parent(s, r), r.name, r.ext, RequestAttr(r), 2) == if r.size != 0 && BlankKey(r) then 2 else SLOTS
    ensures EmptyFolder(Parent(s, r))
  {
    FormatAt(disk, tail);
    VolAt(Format(disk, tail), ROOT_CLUSTER);
    FreshSearch(Parent(s, r), r);
  }

  lemma FreshWords(w: Words)
    requires w[..MAP_SIZE] == FormatMap()
    ensures FirstFree(w, 0, MAP_SIZE) == 3 && CountFree(w, 0, MAP_SIZE) == MAP_SIZE - 3
    ensures CountFree(w, 3, WORDS) == MAP_SIZE - 3 + if w[MAP_SIZE] == EMPTY then 1 else 0
  {
    forall c | 0 <= c < MAP_SIZE
      ensures w[c] == FormatMap()[c]
    {
      assert w[c] == w[..MAP_SIZE][c];
    }
    AllCounted(w, 3, MAP_SIZE);
    CountSplit(w, 3, MAP_SIZE, WORDS);
    assert CountFree(w, 0, MAP_SIZE) == CountFree(w, 1, MAP_SIZE) == CountFree(w, 2, MAP_SIZE) == CountFree(w, 3, MAP_SIZE);
    assert FirstFree(w, 0, MAP_SIZE) == FirstFree(w, 1, MAP_SIZE) == FirstFree(w, 2, MAP_SIZE) == FirstFree(w, 3, MAP_SIZE);
  }

  /** A fresh disk takes a directory, or a file of at most 509 clusters, in its root, and refuses
      larger ones; a file without a name passes for one that exists. */
  lemma FreshDiskHolds(disk: Clusters, tail: seq<byte>, r: Request)
    requires |tail| == CLUSTER_SIZE - BLOCK_SIZE && r.parent == ROOT_CLUSTER
    ensures WriteCode(Format(disk, tail), r) ==
      if r.size != 0 && BlankKey(r) then 1 else if Parts(r.size) <= MAP_SIZE - 3 then 0 else -1
    ensures ParentKnown(Format(disk, tail), FormatBook(), r) && !OverAdmits(Format(disk, tail), r)
  {
    var s := Format(disk, tail);
    FormatFillsBuffer(disk, tail);
    FreshRoot(s, r, disk, tail);
    FreshWords(s.words);
  }

  lemma SameChain(w: Words, v: Words, c: nat)
    requires c < MAP_SIZE && w[..MAP_SIZE] == v[..MAP_SIZE]
    ensures v[c] == w[c] && Chain(v, c) == Chain(w, c)
  {
    forall x | 0 <= x < MAP_SIZE
      ensures v[x] == w[x]
    {
      assert v[x] == v[..MAP_SIZE][x] == w[..MAP_SIZE][x];
    }
    ChainFrame(w, v, c);
  }

  lemma SoundCarries(v: Volume, u: Volume, b: Book)
    requires Sound(v, b) && u.tabs == v.tabs
    requires forall c :: 0 <= c < MAP_SIZE ==> u.words[c] == v.words[c] && Chain(u.words, c) == Chain(v.words, c)
    ensures Sound(u, b)
  {
    assert Shape(u, b);
    forall d, i | 0 <= d < MAP_SIZE && Folder(b, d) && 2 <= i < SLOTS
      ensures u.tabs[d][i] == Blank() || EntryOk(u, b, d, i)
    {
      assert v.tabs[d][i] == Blank() || EntryOk(v, b, d, i);
    }
    forall c | 0 <= c < MAP_SIZE && b.owner[c].Held?
      ensures HeldOk(u, b, c)
    {
      assert HeldOk(v, b, c);
    }
    forall c | 0 <= c < MAP_SIZE && Folder(b, c)
      ensures HeadOk(u, b, c)
    {
      assert HeadOk(v, b, c);
    }
  }

  /** The word behind the map plays no part in the invariant. */
  lemma BufferIsIrrelevant(s: Fs, u: Fs, b: Book)
    requires Inv(s, b) && u.disk == s.disk && u.words[..MAP_SIZE] == s.words[..MAP_SIZE]
    ensures Inv(u, b)
  {
    forall c | 0 <= c < MAP_SIZE
      ensures u.words[c] == s.words[c] && Chain(u.words, c) == Chain(s.words, c)
    {
      SameChain(s.words, u.words, c);
    }
    SoundCarries(Vol(s), Vol(u), b);
  }

  /** Mounting a well-formed disk never reformats it and reads back the cached map. */
  lemma MountIsIdentity(s: Fs, b: Book, tail: seq<byte>)
    requires Inv(s, b) && |tail| == CLUSTER_SIZE - BLOCK_SIZE
    ensures Mount(s.disk, tail).disk == s.disk
    ensures Mount(s.disk, tail).words == s.words[..MAP_SIZE] + [EMPTY]
    ensures Inv(Mount(s.disk, tail), b)
  {
    FatRoundTrip(s.words[..MAP_SIZE]);
    BufferIsIrrelevant(s, Mount(s.disk, tail), b);
  }

  /** Once the fresh disk has been mounted again, a file of 510 clusters is admitted, one more
      than there are. */
  lemma RemountOverAdmits(disk: Clusters, tail: seq<byte>, r: Request)
    requires |tail| == CLUSTER_SIZE - BLOCK_SIZE && r.parent == ROOT_CLUSTER && !BlankKey(r) && Parts(r.size) == MAP_SIZE - 2
    ensures OverAdmits(Mount(Format(disk, tail).disk, tail), r)
  {
    var s, u := Format(disk, tail), Mount(Format(disk, tail).disk, tail);
    FormatIsSound(disk, tail);
    MountIsIdentity(s, FormatBook(), tail);
    FreshRoot(u, r, disk, tail);
    assert u.words[..MAP_SIZE] == s.words[..MAP_SIZE];
    FreshWords(u.words);
  }

  /** On a fresh disk, deleting the directory called root in the root succeeds, and no book fits
      what is left. */
  lemma RootDeletesItself(disk: Clusters, tail: seq<byte>, r: Request)
    requires |tail| == CLUSTER_SIZE - BLOCK_SIZE && r.parent == ROOT_CLUSTER && r.name == RootName() && r.ext == NoExt()
    ensures DeleteCode(Format(disk, tail), r) == 0 && !WellFormed(DeleteState(Format(disk, tail), r))
  {
    var s := Format(disk, tail);
    FormatIsSound(disk, tail);
    FreshRoot(s, r, disk, tail);
    assert RootName()[0] == 'r' as int;
    assert Parent(s, r)[0].Named(r.name, r.ext) && Find(Parent(s, r), r.name, r.ext, 0) == 0;
    DeleteKeepsExactly(s, FormatBook(), r);
  }

  // ---- Remount ----

  lemma SameHolds(v: Volume, u: Volume, b: Book, key: Key)
    requires u.tabs == v.tabs
    ensures forall i :: Holds(u, b, key, i) <==> Holds(v, b, key, i)
    ensures Present(u, b, key) <==> Present(v, b, key)
  {
    if Present(v, b, key) {
      assert Holds(u, b, key, SlotFor(v, b, key));
    }
    if Present(u, b, key) {
      assert Holds(v, b, key, SlotFor(u, b, key));
    }
  }

  /** An entry has the same node on a disk with the same clusters and the same map. */
  lemma SameNode(s: Fs, u: Fs, e: Item)
    requires u.disk == s.disk && u.words[..MAP_SIZE] == s.words[..MAP_SIZE] && e.cluster < MAP_SIZE
    ensures NodeOf(u, e) == NodeOf(s, e)
  {
    SameChain(s.words, u.words, e.cluster);
  }

  lemma MountKeepsKey(s: Fs, u: Fs, b: Book, key: Key)
    requires Sound(Vol(s), b) && Sound(Vol(u), b) && u.disk == s.disk && u.words[..MAP_SIZE] == s.words[..MAP_SIZE]
    ensures key in Tree(u, b) <==> key in Tree(s, b)
    ensures key in Tree(s, b) ==> Tree(u, b)[key] == Tree(s, b)[key]
  {
    SameHolds(Vol(s), Vol(u), b, key);
    if key in Tree(s, b) {
      var i := SlotFor(Vol(s), b, key);
      HeldEntry(Vol(s), b, key, i);
      SameNode(s, u, Vol(s).tabs[key.dir][i]);
      TreeAt(u, b, key, i);
    }
  }

  /** Mounting leaves the file system as it was. */
  lemma MountKeepsTree(s: Fs, b: Book, tail: seq<byte>)
    requires Inv(s, b) && |tail| == CLUSTER_SIZE - BLOCK_SIZE
    ensures Tree(Mount(s.disk, tail), b) == Tree(s, b)
  {
    MountIsIdentity(s, b, tail);
    var u := Mount(s.disk, tail);
    assert u.words[..MAP_SIZE] == s.words[..MAP_SIZE];
    forall key: Key
      ensures key in Tree(u, b) <==> key in Tree(s, b)
      ensures key in Tree(s, b) ==> Tree(u, b)[key] == Tree(s, b)[key]
    {
      MountKeepsKey(s, u, b, key);
    }
  }

  // ---- Runs ----

  datatype Op = Write(r: Request, buf: seq<byte>) | Delete(r: Request) | Remount(tail: seq<byte>)

  datatype World = World(s: Fs, b: Book)

  predicate Fine(w: World) { Inv(w.s, w.b) }

  /** What the driver needs of its callers. WriteKeepsExactly and DeleteKeepsExactly say that no
      request may be over-admitted or a self-deletion, TargetReadyExactly that a delete has to
      find an entry in use; that the parent is known is a hypothesis. */
  predicate Legal(w: World, op: Op) {
    match op
    case Write(r, buf) => ParentKnown(w.s, w.b, r) && |buf| >= CLUSTER_SIZE * Parts(r.size) && !OverAdmits(w.s, r)
    case Delete(r) => ParentKnown(w.s, w.b, r) && FindsUsed(w.s, r) && !SelfDelete(w.s, r)
    case Remount(tail) => |tail| == CLUSTER_SIZE - BLOCK_SIZE
  }

  function Step(w: World, op: Op): World
    requires Fine(w) && Legal(w, op)
  {
    match op
    case Write(r, buf) => World(WriteState(w.s, r, buf), WriteBook(w.s, w.b, r, buf))
    case Delete(r) => World(DeleteState(w.s, r), DeleteBook(w.s, w.b, r))
    case Remount(tail) => World(Mount(w.s.disk, tail), w.b)
  }

  /** Every step keeps the invariant. */
  lemma StepIsFine(w: World, op: Op)
    requires Fine(w) && Legal(w, op)
    ensures Fine(Step(w, op))
  {
    match op
    case Write(r, buf) => WriteKeepsInv(w.s, w.b, r, buf);
    case Delete(r) => DeleteKeepsInv(w.s, w.b, r);
    case Remount(tail) => MountIsIdentity(w.s, w.b, tail);
  }

  predicate LegalRun(w: World, ops: seq<Op>)
    requires Fine(w)
    decreases |ops|
  {
    ops == [] || (Legal(w, ops[0]) && (StepIsFine(w, ops[0]); LegalRun(Step(w, ops[0]), ops[1..])))
  }

  function Run(w: World, ops: seq<Op>): World
    requires Fine(w) && LegalRun(w, ops)
    decreases |ops|
  {
    if ops == [] then w
    else
      StepIsFine(w, ops[0]);
      Run(Step(w, ops[0]), ops[1..])
  }

  /** Every state of every run satisfies the invariant. */
  lemma {:induction false} RunIsFine(w: World, ops: seq<Op>)
    requires Fine(w) && LegalRun(w, ops)
    ensures Fine(Run(w, ops))
    decreases |ops|
  {
    if ops != [] {
      StepIsFine(w, ops[0]);
      RunIsFine(Step(w, ops[0]), ops[1..]);
    }
  }

  function Formatted(disk: Clusters, tail: seq<byte>): World
    requires |tail| == CLUSTER_SIZE - BLOCK_SIZE
  {
    World(Format(disk, tail), FormatBook())
  }

  // ---- What a run does to the map of files ----

  datatype Change = Put(key: Key, node: Node) | Remove(key: Key) | Nothing

  ghost function Apply(tree: imap<Key, Node>, c: Change): imap<Key, Node> {
    match c
    case Put(key, node) => tree[key := node]
    case Remove(key) => tree - {key}
    case Nothing => tree
  }

  /** The change a request makes, as its caller sees it from the return code. */
  function ChangeOf(s: Fs, op: Op): Change
    requires op.Write? ==> op.r.parent < DISK_CLUSTERS && |op.buf| >= CLUSTER_SIZE * Parts(op.r.size)
    requires op.Delete? ==> op.r.parent < DISK_CLUSTERS
  {
    match op
    case Write(r, buf) => if WriteCode(s, r) == 0 then Put(RequestKey(r), WrittenNode(s, r, buf)) else Nothing
    case Delete(r) => if DeleteCode(s, r) == 0 && Target(s, r) < SLOTS then Remove(TargetKey(s, r)) else Nothing
    case Remount(_) => Nothing
  }

  ghost function ApplyAll(tree: imap<Key, Node>, cs: seq<Change>): imap<Key, Node> {
    if cs == [] then tree else ApplyAll(Apply(tree, cs[0]), cs[1..])
  }

  function Changes(w: World, ops: seq<Op>): seq<Change>
    requires Fine(w) && LegalRun(w, ops)
    decreases |ops|
  {
    if ops == [] then []
    else
      StepIsFine(w, ops[0]);
      [ChangeOf(w.s, ops[0])] + Changes(Step(w, ops[0]), ops[1..])
  }

  lemma StepChanges(w: World, op: Op)
    requires Fine(w) && Legal(w, op)
    ensures Tree(Step(w, op).s, Step(w, op).b) == Apply(Tree(w.s, w.b), ChangeOf(w.s, op))
  {
    match op
    case Write(r, buf) =>
      if WriteCode(w.s, r) == 0 {
        WriteUpdatesTree(w.s, w.b, r, buf);
      }
    case Delete(r) =>
      if DeleteCode(w.s, r) == 0 {
        DeleteUpdatesTree(w.s, w.b, r);
      }
    case Remount(tail) => MountKeepsTree(w.s, w.b, tail);
  }

  /** A run refines the map: the file system it ends in is the one it started from with the
      changes of the successful requests applied in order, and nothing else. */
  lemma {:induction false} RunChanges(w: World, ops: seq<Op>)
    requires Fine(w) && LegalRun(w, ops)
    ensures Tree(Run(w, ops).s, Run(w, ops).b) == ApplyAll(Tree(w.s, w.b), Changes(w, ops))
    decreases |ops|
  {
    if ops != [] {
      StepIsFine(w, ops[0]);
      StepChanges(w, ops[0]);
      RunChanges(Step(w, ops[0]), ops[1..]);
      var cs := Changes(w, ops);
      assert cs[1..] == Changes(Step(w, ops[0]), ops[1..]);
    }
  }

  /** A formatted disk holds no files. */
  lemma FormatIsEmpty(disk: Clusters, tail: seq<byte>)
    requires |tail| == CLUSTER_SIZE - BLOCK_SIZE
    ensures Tree(Format(disk, tail), FormatBook()) == imap[]
  {
    var s, b := Format(disk, tail), FormatBook();
    NewTableDecodes(RootName(), RootName(), ROOT_CLUSTER, ROOT_CLUSTER);
    VolAt(s, ROOT_CLUSTER);
    forall key: Key, i: nat
      ensures !Holds(Vol(s), b, key, i)
    {
    }
  }

  // ---- Runs that start clean stay clean ----

  lemma StepIsClean(w: World, op: Op)
    requires Fine(w) && Legal(w, op) && Clean(w.s)
    ensures Clean(Step(w, op).s)
  {
    match op
    case Write(r, buf) => WriteKeepsClean(w.s, w.b, r, buf);
    case Delete(r) => DeleteKeepsClean(w.s, w.b, r);
    case Remount(tail) =>
      MountIsIdentity(w.s, w.b, tail);
      assert forall c :: 3 <= c < MAP_SIZE ==> Step(w, op).s.words[c] == w.s.words[c];
  }

  lemma {:induction false} RunIsClean(w: World, ops: seq<Op>)
    requires Fine(w) && LegalRun(w, ops) && Clean(w.s)
    ensures Clean(Run(w, ops).s)
    decreases |ops|
  {
    if ops != [] {
      StepIsFine(w, ops[0]);
      StepIsClean(w, ops[0]);
      RunIsClean(Step(w, ops[0]), ops[1..]);
    }
  }

  /** Clusters behind the map are as they were. */
  predicate SameRest(d: Clusters, e: Clusters) { forall c :: MAP_SIZE <= c < DISK_CLUSTERS ==> e[c] == d[c] }

  lemma WriteLeavesRest(s: Fs, b: Book, r: Request, buf: seq<byte>)
    requires CanWrite(s, b, r, buf)
    ensures SameRest(s.disk, WriteState(s, r, buf).disk)
  {
    if WriteCode(s, r) == 0 {
      WriteDisk(s, b, r, buf);
      WriteClaims(s, b, r, buf);
    }
  }

  lemma DeleteLeavesRest(s: Fs, b: Book, r: Request)
    requires CanDelete(s, b, r)
    ensures SameRest(s.disk, DeleteState(s, r).disk)
  {
    if DeleteCode(s, r) == 0 {
      DeleteStep(s, b, r);
    }
  }

  lemma StepLeavesRest(w: World, op: Op)
    requires Fine(w) && Legal(w, op)
    ensures SameRest(w.s.disk, Step(w, op).s.disk)
  {
    match op
    case Write(r, buf) => WriteLeavesRest(w.s, w.b, r, buf);
    case Delete(r) => DeleteLeavesRest(w.s, w.b, r);
    case Remount(tail) => MountIsIdentity(w.s, w.b, tail);
  }

  /** No run touches a cluster behind the map. */
  lemma {:induction false} RunLeavesRest(w: World, ops: seq<Op>)
    requires Fine(w) && LegalRun(w, ops)
    ensures SameRest(w.s.disk, Run(w, ops).s.disk)
    decreases |ops|
  {
    if ops != [] {
      StepIsFine(w, ops[0]);
      StepLeavesRest(w, ops[0]);
      RunLeavesRest(Step(w, ops[0]), ops[1..]);
    }
  }

  /** After any run from a zeroed disk the only parents shut out are parts of files that read as a
      directory. */
  lemma OnlyFileDataIsShutOut(disk: Clusters, tail: seq<byte>, ops: seq<Op>, r: Request)
    requires |tail| == CLUSTER_SIZE - BLOCK_SIZE && r.parent < DISK_CLUSTERS
    requires forall c :: 0 <= c < DISK_CLUSTERS ==> disk[c] == ZeroCluster()
    requires Fine(Formatted(disk, tail)) && LegalRun(Formatted(disk, tail), ops)
    ensures var w := Run(Formatted(disk, tail), ops);
      ParentKnown(w.s, w.b, r) <==> !(Parent(w.s, r)[0].Folder() && FileData(w.b, r.parent))
  {
    var w := Run(Formatted(disk, tail), ops);
    FormatIsClean(disk, tail);
    RunIsFine(Formatted(disk, tail), ops);
    RunIsClean(Formatted(disk, tail), ops);
    RunLeavesRest(Formatted(disk, tail), ops);
    ParentKnownOnClean(w.s, w.b, r);
    if r.parent >= MAP_SIZE {
      assert w.s.disk[r.parent] == ZeroCluster();
    }
  }

  /** In any state reached from a zeroed disk, write followed by an unshadowed delete of the
      same entry restores the disk image byte for byte. */
  lemma UndoAfterAnyRun(disk: Clusters, tail: seq<byte>, ops: seq<Op>, r: Request, buf: seq<byte>)
    requires |tail| == CLUSTER_SIZE - BLOCK_SIZE
    requires forall c :: 0 <= c < DISK_CLUSTERS ==> disk[c] == ZeroCluster()
    requires Fine(Formatted(disk, tail)) && LegalRun(Formatted(disk, tail), ops)
    requires var w := Run(Formatted(disk, tail), ops);
      Legal(w, Write(r, buf)) && WriteCode(w.s, r) == 0 && !BlankKey(r) && Unshadowed(w.s, r)
    ensures var w := Run(Formatted(disk, tail), ops);
      DeleteState(WriteState(w.s, r, buf), r).disk == w.s.disk
  {
    FormatIsClean(disk, tail);
    RunIsFine(Formatted(disk, tail), ops);
    RunIsClean(Formatted(disk, tail), ops);
    var w := Run(Formatted(disk, tail), ops);
    WriteThenDelete(w.s, w.b, r, buf);
  }

  // ---- Runs that cannot over-admit ----

  /** Not a remount, and no new directory whose name starts with four zero bytes. */
  predicate Plain(op: Op) {
    match op
    case Write(r, _) => r.size == 0 ==> WordAt(r.name, 0) != EMPTY
    case Delete(_) => true
    case Remount(_) => false
  }

  lemma NewFolderWord(s: Fs, r: Request, c: word)
    requires r.parent < DISK_CLUSTERS
    ensures WordAt(NewFolder(s, r, c), 0) == WordAt(r.name, 0)
  {
    var t := NewFolder(s, r, c);
    NewTableDecodes(r.name, ParentName(s, r.parent), c, r.parent);
    assert TableOf(t)[0].name == r.name;
    assert forall i :: 0 <= i < 8 ==> t[i] == SlotAt(t, 0)[i] == SlotAt(t, 0)[..8][i];
  }

  lemma ThreadKeepsBuffer(w: Words, chain: seq<nat>)
    requires Within(chain, 3, MAP_SIZE) && Ascending(chain)
    ensures Thread(w, chain)[MAP_SIZE] == w[MAP_SIZE]
  {
    ThreadAt(w, chain);
  }

  lemma BufferWordAfterWrite(w: World, r: Request, buf: seq<byte>)
    requires Fine(w) && Legal(w, Write(r, buf)) && WriteCode(w.s, r) == 0
    ensures WriteState(w.s, r, buf).words[MAP_SIZE] == if r.size == 0 then WordAt(r.name, 0) else w.s.words[MAP_SIZE]
  {
    var s, chain := w.s, WriteChain(w.s, r);
    WriteClaims(s, w.b, r, buf);
    if r.size == 0 {
      var c := FirstFree(s.words, 0, MAP_SIZE);
      ThreadKeepsBuffer(Buffered(s, NewFolder(s, r, c)).words, [c]);
      NewFolderWord(s, r, c);
    } else {
      ThreadKeepsBuffer(s.words, chain);
    }
  }

  /** While the word behind the map is not zero, nothing is over-admitted, and plain requests
      keep it from becoming zero. */
  lemma PlainStepsNeverOverAdmit(w: World, op: Op)
    requires Fine(w) && Plain(op) && w.s.words[MAP_SIZE] != EMPTY
    ensures op.Write? && ParentKnown(w.s, w.b, op.r) ==> !OverAdmits(w.s, op.r)
    ensures Legal(w, op) ==> Step(w, op).s.words[MAP_SIZE] != EMPTY
  {
    match op
    case Write(r, buf) =>
      if ParentKnown(w.s, w.b, r) && WriteCode(w.s, r) == 0 {
        OverAdmitsWhen(w.s, w.b, r);
        if Legal(w, op) {
          BufferWordAfterWrite(w, r, buf);
        }
      }
    case Delete(r) =>
      if Legal(w, op) && DeleteCode(w.s, r) == 0 {
        DeleteStep(w.s, w.b, r);
        UnlinkBounds(UnlinkStep(w.s, w.b, r.parent, Target(w.s, r)));
        UnlinkAt(w.s, r.parent, Target(w.s, r));
      }
  }

  /** In a run from a fresh format with plain requests only, every write whose parent is known
      is either refused or gets exactly the clusters it asks for. */
  lemma {:induction false} FreshRunsNeverOverAdmit(w: World, ops: seq<Op>, r: Request)
    requires Fine(w) && LegalRun(w, ops) && w.s.words[MAP_SIZE] != EMPTY && forall i :: 0 <= i < |ops| ==> Plain(ops[i])
    ensures ParentKnown(Run(w, ops).s, Run(w, ops).b, r) ==> !OverAdmits(Run(w, ops).s, r)
    decreases |ops|
  {
    if ops == [] {
      if ParentKnown(w.s, w.b, r) && WriteCode(w.s, r) == 0 {
        OverAdmitsWhen(w.s, w.b, r);
      }
    } else {
      StepIsFine(w, ops[0]);
      PlainStepsNeverOverAdmit(w, ops[0]);
      FreshRunsNeverOverAdmit(Step(w, ops[0]), ops[1..], r);
    }
  }
}

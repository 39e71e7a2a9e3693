/** What each request answers, told from the map of files, the slots of the directory and the set of
    free clusters. */
module FatAnswers {
  import opened Layout
  import opened Disk
  import opened FatState
  import opened Chains
  import opened FatInvariant
  import opened FatRequests
  import opened FatRemoval
  import opened FatFiles
  import opened FatTheorems
  import opened FatRun

  // ---- Free clusters ----

  function FreeBetween(w: seq<word>, i: nat, n: nat): set<nat>
    requires i <= n <= |w|
  {
    set c: nat | i <= c < n && w[c] == EMPTY
  }

  /** The clusters a write can claim. */
  function FreeClusters(w: Words): set<nat> { FreeBetween(w, 3, MAP_SIZE) }

  lemma {:induction false} CountIsSize(w: seq<word>, i: nat, n: nat)
    requires i <= n <= |w|
    ensures |FreeBetween(w, i, n)| == CountFree(w, i, n)
    decreases n - i
  {
    if i < n {
      CountIsSize(w, i + 1, n);
      assert FreeBetween(w, i, n) == FreeBetween(w, i + 1, n) + if w[i] == EMPTY then {i} else {};
    } else {
      assert FreeBetween(w, i, n) == {};
    }
  }

  // ---- Write ----

  /** Some entry of the directory is not in use. */
  predicate HasRoom(t: Table) { exists i :: 2 <= i < SLOTS && !t[i].Live() }

  /** A file without a name passes for one that exists, wherever an entry is not in use. */
  predicate PassesForOld(s: Fs, r: Request)
    requires r.parent < DISK_CLUSTERS
  {
    BlankKey(r) && r.size != 0 && HasRoom(Parent(s, r))
  }

  lemma UnusedExists(t: Table)
    ensures FindUnused(t, 2) < SLOTS <==> HasRoom(t)
  {
    if FindUnused(t, 2) < SLOTS {
      assert !t[FindUnused(t, 2)].Live();
    }
  }

  /** What the search for a duplicate finds is the entry of the request's own key, or an unused one. */
  lemma SameIsOld(s: Fs, b: Book, r: Request)
    requires Inv(s, b) && Folder(b, r.parent) && FindSame(Parent(s, r), r.name, r.ext, RequestAttr(r), 2) < SLOTS
    ensures RequestKey(r) in Tree(s, b) || PassesForOld(s, r)
  {
    var i := FindSame(Parent(s, r), r.name, r.ext, RequestAttr(r), 2);
    VolAt(s, r.parent);
    if Parent(s, r)[i].Live() {
      assert EntryOk(Vol(s), b, r.parent, i);
      TreeAt(s, b, RequestKey(r), i);
    } else {
      UnusedIsBlank(Vol(s), b, r.parent, i);
    }
  }

  lemma OldIsSame(s: Fs, b: Book, r: Request)
    requires Inv(s, b) && Folder(b, r.parent) && (RequestKey(r) in Tree(s, b) || PassesForOld(s, r))
    ensures FindSame(Parent(s, r), r.name, r.ext, RequestAttr(r), 2) < SLOTS
  {
    VolAt(s, r.parent);
    if RequestKey(r) in Tree(s, b) {
      var i := SlotFor(Vol(s), b, RequestKey(r));
      HeldEntry(Vol(s), b, RequestKey(r), i);
      assert Parent(s, r)[i].Named(r.name, r.ext) && Parent(s, r)[i].attr == RequestAttr(r);
    } else {
      var i :| 2 <= i < SLOTS && !Parent(s, r)[i].Live();
      UnusedIsBlank(Vol(s), b, r.parent, i);
      assert Parent(s, r)[i].Named(r.name, r.ext) && Parent(s, r)[i].attr == RequestAttr(r);
    }
  }

  /** Enough free clusters: one for a directory, the fewest that hold a file. */
  predicate Fits(w: Words, n: nat) { FreeClusters(w) != {} && n <= |FreeClusters(w)| }

  /** The case in which a file is admitted with one too few. */
  predicate OneTooMany(w: Words, n: nat) {
    w[MAP_SIZE] == EMPTY && FreeClusters(w) != {} && n == |FreeClusters(w)| + 1
  }

  /** What the code looks at comes to this. */
  lemma AdmittedWhen(s: Fs, b: Book, n: nat)
    requires Shape(Vol(s), b)
    ensures Fits(s.words, n) || OneTooMany(s.words, n)
      <==> CountFree(s.words, 3, WORDS) >= n && FirstFree(s.words, 0, MAP_SIZE) < MAP_SIZE
    ensures FreeClusters(s.words) != {} <==> FirstFree(s.words, 0, MAP_SIZE) < MAP_SIZE
  {
    CountIsSize(s.words, 3, MAP_SIZE);
    ReservedAreNotFree(s, b);
    AdmissionIsExact(s, b, n);
    NoFreeMeansZero(s.words, 0, MAP_SIZE);
  }

  /** The code's tests, as far as they matter in a directory. */
  lemma WriteTests(s: Fs, r: Request)
    requires r.parent < DISK_CLUSTERS && Parent(s, r)[0].Folder()
    ensures WriteCode(s, r) ==
      if FindSame(Parent(s, r), r.name, r.ext, RequestAttr(r), 2) < SLOTS then 1
      else if FindUnused(Parent(s, r), 2) < SLOTS && CountFree(s.words, 3, WORDS) >= Parts(r.size)
        && FirstFree(s.words, 0, MAP_SIZE) < MAP_SIZE then 0
      else -1
  {
  }

  lemma LiveParentReads(s: Fs, b: Book, r: Request)
    requires Inv(s, b) && Folder(b, r.parent)
    ensures r.parent < MAP_SIZE && Parent(s, r)[0].Folder() && Vol(s).tabs[r.parent] == Parent(s, r)
  {
    VolAt(s, r.parent);
    assert HeadOk(Vol(s), b, r.parent);
  }

  /** What a write answers in a live directory: 1 if there is such an entry already, 0 if there is not,
      some entry is not in use and enough clusters are free, and -1 otherwise. */
  lemma WriteAnswers(s: Fs, b: Book, r: Request)
    requires Inv(s, b) && Folder(b, r.parent)
    ensures WriteCode(s, r) ==
      if RequestKey(r) in Tree(s, b) || PassesForOld(s, r) then 1
      else if HasRoom(Parent(s, r)) && (Fits(s.words, Parts(r.size)) || OneTooMany(s.words, Parts(r.size))) then 0
      else -1
  {
    LiveParentReads(s, b, r);
    WriteTests(s, r);
    UnusedExists(Parent(s, r));
    AdmittedWhen(s, b, Parts(r.size));
    if RequestKey(r) in Tree(s, b) || PassesForOld(s, r) {
      OldIsSame(s, b, r);
    } else if FindSame(Parent(s, r), r.name, r.ext, RequestAttr(r), 2) < SLOTS {
      SameIsOld(s, b, r);
    }
  }

  /** It answers 2 exactly where the parent does not read as a directory, and a delete or a read -1. */
  lemma NoDirectoryAnswers(s: Fs, r: Request)
    requires r.parent < DISK_CLUSTERS
    ensures WriteCode(s, r) == 2 <==> !Parent(s, r)[0].Folder()
    ensures DeleteCode(s, r) == -1 <==> !Parent(s, r)[0].Folder()
    ensures !Parent(s, r)[0].Folder() ==> ReadCode(s, r) == -1 == ReadDirectoryCode(s, r)
  {
  }

  /** A request that is refused changes nothing. */
  lemma RefusedChangesNothing(s: Fs, r: Request, buf: seq<byte>)
    requires r.parent < DISK_CLUSTERS && |buf| >= CLUSTER_SIZE * Parts(r.size)
    ensures WriteCode(s, r) != 0 ==> WriteState(s, r, buf) == s
    ensures DeleteCode(s, r) != 0 ==> DeleteState(s, r) == s
  {
  }

  /** The clusters a chain takes are the first free ones. */
  lemma ChainIsFirst(s: Fs, b: Book, r: Request, buf: seq<byte>, c: nat, d: nat)
    requires CanWrite(s, b, r, buf) && WriteCode(s, r) == 0 && c < d < MAP_SIZE && s.words[c] == EMPTY
    requires d in WriteChain(s, r)
    ensures c in WriteChain(s, r)
  {
    ChainStartsAtFirstFree(s, r);
    WriteClaims(s, b, r, buf);
    if r.size != 0 && c !in WriteChain(s, r) {
      PicksAreFirst(s.words, 0, Parts(r.size), c);
    }
  }

  /** A write passes over no free cluster: with one that it takes it takes every free one before it. */
  lemma WriteTakesFirst(s: Fs, b: Book, r: Request, buf: seq<byte>, c: nat, d: nat)
    requires CanWrite(s, b, r, buf) && WriteCode(s, r) == 0 && c < d < MAP_SIZE && s.words[c] == s.words[d] == EMPTY
    ensures WriteState(s, r, buf).words[d] != EMPTY ==> WriteState(s, r, buf).words[c] != EMPTY
  {
    var chain := WriteChain(s, r);
    WriteAt(s, b, r, buf);
    if d in chain {
      ChainIsFirst(s, b, r, buf, c, d);
      var i :| 0 <= i < |chain| && chain[i] == c;
      assert WriteState(s, r, buf).words[chain[i]] != EMPTY;
    }
  }

  // ---- First matches ----

  /** Entry i is the first of this name and extension, headers included. */
  predicate FirstMatch(t: Table, i: nat, name: Name, ext: Ext) {
    i < SLOTS && t[i].Named(name, ext) && forall j :: 0 <= j < i ==> !t[j].Named(name, ext)
  }

  predicate NoMatch(t: Table, name: Name, ext: Ext) { forall i :: 0 <= i < SLOTS ==> !t[i].Named(name, ext) }

  lemma FindsFirst(t: Table, name: Name, ext: Ext)
    ensures Find(t, name, ext, 0) == SLOTS <==> NoMatch(t, name, ext)
    ensures Find(t, name, ext, 0) < SLOTS ==> FirstMatch(t, Find(t, name, ext, 0), name, ext)
    ensures forall i: nat :: FirstMatch(t, i, name, ext) ==> i == Find(t, name, ext, 0)
  {
  }

  /** Neither header of the directory has the request's name. */
  predicate NoHeader(t: Table, r: Request) { !t[0].Named(r.name, r.ext) && !t[1].Named(r.name, r.ext) }

  lemma KeyIsMatched(s: Fs, b: Book, r: Request, folder: bool)
    requires Inv(s, b) && Folder(b, r.parent) && Key(r.parent, r.name, r.ext, folder) in Tree(s, b)
    ensures !NoMatch(Parent(s, r), r.name, r.ext)
  {
    VolAt(s, r.parent);
    var i := SlotFor(Vol(s), b, Key(r.parent, r.name, r.ext, folder));
    assert Parent(s, r)[i].Named(r.name, r.ext);
  }

  /** Behind the headers a name is found exactly if the map has a file or a directory under it. */
  lemma MatchIsKey(s: Fs, b: Book, r: Request)
    requires Inv(s, b) && Folder(b, r.parent) && FindsUsed(s, r) && NoHeader(Parent(s, r), r)
    ensures NoMatch(Parent(s, r), r.name, r.ext) <==>
      Key(r.parent, r.name, r.ext, false) !in Tree(s, b) && Key(r.parent, r.name, r.ext, true) !in Tree(s, b)
  {
    FindsFirst(Parent(s, r), r.name, r.ext);
    if Target(s, r) < SLOTS {
      TargetIsLive(s, b, r);
      TreeAt(s, b, Key(r.parent, r.name, r.ext, Parent(s, r)[Target(s, r)].Folder()), Target(s, r));
    } else if folder: bool :| Key(r.parent, r.name, r.ext, folder) in Tree(s, b) {
      KeyIsMatched(s, b, r, folder);
    }
  }

  /** Where no entry has the name, a read answers 2 and a delete 1. */
  lemma NothingFound(s: Fs, b: Book, r: Request)
    requires Inv(s, b) && Folder(b, r.parent) && NoMatch(Parent(s, r), r.name, r.ext)
    ensures ReadCode(s, r) == 2 && DeleteCode(s, r) == 1
  {
    LiveParentReads(s, b, r);
    FindsFirst(Parent(s, r), r.name, r.ext);
  }

  /** Some entry is the first, or none has the name. */
  lemma FoundOrNot(t: Table, name: Name, ext: Ext)
    ensures NoMatch(t, name, ext) <==> forall i: nat :: !FirstMatch(t, i, name, ext)
  {
    FindsFirst(t, name, ext);
  }

  // ---- Delete ----

  /** Something lies in directory c. */
  ghost predicate Filled(s: Fs, b: Book, c: nat) { exists key: Key :: key in Tree(s, b) && key.dir == c }

  /** A directory without an entry in use is one with nothing in it. */
  lemma EmptyIsUnfilled(s: Fs, b: Book, c: nat)
    requires Inv(s, b) && c < MAP_SIZE && Folder(b, c)
    ensures EmptyFolder(TableOf(s.disk[c])) <==> !Filled(s, b, c)
  {
    VolAt(s, c);
    var t := TableOf(s.disk[c]);
    if i :| 2 <= i < SLOTS && t[i].Live() {
      TreeAt(s, b, Key(c, t[i].name, t[i].ext, t[i].Folder()), i);
    }
    if key: Key :| key in Tree(s, b) && key.dir == c {
      assert t[SlotFor(Vol(s), b, key)].Live();
    }
  }

  /** A first match that is a directory points at one. */
  lemma MatchedFolder(s: Fs, b: Book, r: Request, i: nat)
    requires Inv(s, b) && Folder(b, r.parent) && FindsUsed(s, r)
    requires FirstMatch(Parent(s, r), i, r.name, r.ext) && Parent(s, r)[i].Folder()
    ensures Parent(s, r)[i].cluster < MAP_SIZE && Folder(b, Parent(s, r)[i].cluster)
  {
    LiveParentReads(s, b, r);
    assert HeadOk(Vol(s), b, r.parent);
    FindsFirst(Parent(s, r), r.name, r.ext);
    if i >= 2 {
      TargetIsLive(s, b, r);
    } else if r.parent != ROOT_CLUSTER {
      FolderEntry(Vol(s), b, r.parent);
    }
  }

  /** What the code computes for a delete that lands on entry i. */
  lemma DeleteAt(s: Fs, r: Request, i: nat)
    requires r.parent < DISK_CLUSTERS && Parent(s, r)[0].Folder() && FirstMatch(Parent(s, r), i, r.name, r.ext)
    requires Parent(s, r)[i].Folder() ==> Parent(s, r)[i].cluster < DISK_CLUSTERS
    ensures DeleteCode(s, r) ==
      if Parent(s, r)[i].Folder() && !EmptyFolder(TableOf(s.disk[Parent(s, r)[i].cluster])) then 2 else 0
  {
    FindsFirst(Parent(s, r), r.name, r.ext);
  }

  /** What a delete answers in a live directory where entry i is the first of the name: 2 if that is a
      directory with something in it, and 0 otherwise. */
  lemma DeleteAnswers(s: Fs, b: Book, r: Request, i: nat)
    requires Inv(s, b) && Folder(b, r.parent) && FindsUsed(s, r) && FirstMatch(Parent(s, r), i, r.name, r.ext)
    ensures DeleteCode(s, r) == if Parent(s, r)[i].Folder() && Filled(s, b, Parent(s, r)[i].cluster) then 2 else 0
  {
    LiveParentReads(s, b, r);
    if Parent(s, r)[i].Folder() {
      MatchedFolder(s, b, r, i);
      EmptyIsUnfilled(s, b, Parent(s, r)[i].cluster);
    }
    DeleteAt(s, r, i);
  }

  // ---- Read ----

  lemma ReadAt(s: Fs, r: Request, i: nat)
    requires r.parent < DISK_CLUSTERS && Parent(s, r)[0].Folder() && FirstMatch(Parent(s, r), i, r.name, r.ext)
    ensures ReadCode(s, r) == if Parent(s, r)[i].Folder() then 1 else if r.size < Parent(s, r)[i].size then -1 else 0
    ensures Target(s, r) == i
  {
    FindsFirst(Parent(s, r), r.name, r.ext);
  }

  /** The answer for a file of the map. */
  predicate FileAnswer(node: Node, size: nat, code: int) {
    node.FileNode? && code == if |node.bytes| > size then -1 else 0
  }

  /** What a read answers in a live directory where entry i is the first of the name: 1 if that is a
      directory, -1 if it is a file larger than the buffer, and 0 otherwise. */
  lemma ReadAnswers(s: Fs, b: Book, r: Request, i: nat)
    requires Inv(s, b) && Folder(b, r.parent) && FindsUsed(s, r) && FirstMatch(Parent(s, r), i, r.name, r.ext)
    ensures if Parent(s, r)[i].Folder() then ReadCode(s, r) == 1
      else
        var key := Key(r.parent, r.name, r.ext, false);
        key in Tree(s, b) && FileAnswer(Tree(s, b)[key], r.size, ReadCode(s, r))
  {
    LiveParentReads(s, b, r);
    ReadAt(s, r, i);
    if !Parent(s, r)[i].Folder() {
      FileTarget(s, b, r);
      FileNodeAt(s, b, Key(r.parent, r.name, r.ext, false), i);
    }
  }

  // ---- Directory read ----

  /** With a buffer smaller than a cluster a directory read answers -1, and 2 if no entry has the name. */
  lemma NoneToEnter(s: Fs, b: Book, r: Request)
    requires Inv(s, b) && Folder(b, r.parent)
    ensures r.size < CLUSTER_SIZE ==> ReadDirectoryCode(s, r) == -1
    ensures r.size >= CLUSTER_SIZE && NoneNamed(Parent(s, r), r.name) ==> ReadDirectoryCode(s, r) == 2
  {
    LiveParentReads(s, b, r);
    FindsFirstNamed(Parent(s, r), r.name);
  }

  /** Otherwise it goes by the first entry of the name, whatever its extension: it answers 1 for a file,
      and delivers the table of a directory. */
  lemma ReadDirectoryAnswers(s: Fs, b: Book, r: Request, i: nat)
    requires Inv(s, b) && Folder(b, r.parent) && r.size >= CLUSTER_SIZE && FirstNamed(Parent(s, r), i, r.name)
    ensures if !Parent(s, r)[i].Folder() then ReadDirectoryCode(s, r) == 1
      else
        var key := Key(r.parent, r.name, Parent(s, r)[i].ext, true);
        && ReadDirectoryCode(s, r) == 0 && key in Tree(s, b) && Tree(s, b)[key] == FolderNode(Parent(s, r)[i].cluster)
        && Parent(s, r)[i].cluster < DISK_CLUSTERS && Pointed(s, Parent(s, r), i) == s.disk[Parent(s, r)[i].cluster]
  {
    LiveParentReads(s, b, r);
    FindsFirstNamed(Parent(s, r), r.name);
    if Parent(s, r)[i].Folder() {
      assert EntryOk(Vol(s), b, r.parent, i);
      TreeAt(s, b, Key(r.parent, r.name, Parent(s, r)[i].ext, true), i);
    }
  }

  // ---- Booting ----

  /** On a disk without the signature a boot makes an empty file system, writes the signature and leaves
      every other cluster as it was. */
  lemma FirstBoot(disk: Clusters, tail: seq<byte>)
    requires |tail| == CLUSTER_SIZE - BLOCK_SIZE && !Signed(disk)
    ensures var s := Mount(disk, tail);
      && Inv(s, FormatBook()) && Tree(s, FormatBook()) == imap[] && Signed(s.disk)
      && forall c :: 3 <= c < DISK_CLUSTERS ==> s.disk[c] == disk[c]
  {
    FormatIsSound(disk, tail);
    FormatIsEmpty(disk, tail);
  }

  /** Every boot leaves a signed disk, and a second one changes nothing. */
  lemma BootSigns(disk: Clusters, tail: seq<byte>, again: seq<byte>)
    requires |tail| == |again| == CLUSTER_SIZE - BLOCK_SIZE
    ensures Signed(Mount(disk, tail).disk) && Mount(Mount(disk, tail).disk, again).disk == Mount(disk, tail).disk
  {
    if !Signed(disk) {
      FirstBoot(disk, tail);
    }
  }

  // ---- The word behind the map ----

  /** What each request leaves in it: making a directory the first four bytes of its name, a boot zero,
      anything else what was there. */
  function BufferWord(s: Fs, op: Op): word {
    match op
    case Write(r, _) =>
      if r.parent < DISK_CLUSTERS && r.size == 0 && WriteCode(s, r) == 0 then WordAt(r.name, 0) else s.words[MAP_SIZE]
    case Delete(_) => s.words[MAP_SIZE]
    case Remount(_) => EMPTY
  }

  lemma DeleteLeavesWord(s: Fs, b: Book, r: Request)
    requires CanDelete(s, b, r)
    ensures DeleteState(s, r).words[MAP_SIZE] == s.words[MAP_SIZE]
  {
    if DeleteCode(s, r) == 0 {
      DeleteStep(s, b, r);
      UnlinkBounds(UnlinkStep(s, b, r.parent, Target(s, r)));
      UnlinkAt(s, r.parent, Target(s, r));
    }
  }

  lemma StepLeavesWord(w: World, op: Op)
    requires Fine(w) && Legal(w, op)
    ensures Step(w, op).s.words[MAP_SIZE] == BufferWord(w.s, op)
  {
    match op
    case Write(r, buf) =>
      if WriteCode(w.s, r) == 0 {
        BufferWordAfterWrite(w, r, buf);
      }
    case Delete(r) => DeleteLeavesWord(w.s, w.b, r);
    case Remount(tail) => MountIsIdentity(w.s, w.b, tail);
  }
}

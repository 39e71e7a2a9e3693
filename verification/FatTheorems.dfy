/** What a caller of write, read and delete can rely on. */
module FatTheorems {
  import opened Layout
  import opened FatState
  import opened Chains
  import opened FatInvariant
  import opened FatUnlink
  import opened FatRequests
  import opened FatRemoval
  import opened FatFiles

  function RequestKey(r: Request): Key { Key(r.parent, r.name, r.ext, r.size == 0) }

  // ---- Write is a map update ----

  lemma StoredParts(s: Fs, r: Request, buf: seq<byte>)
    requires 2 <= r.parent < MAP_SIZE && WriteCode(s, r) == 0 && |buf| >= CLUSTER_SIZE * Parts(r.size) && r.size != 0
    requires var chain := WriteChain(s, r);
      r.parent !in chain && Within(chain, 3, MAP_SIZE) && Ascending(chain) && |chain| == Parts(r.size)
    ensures forall i :: 0 <= i < Parts(r.size) ==>
      WriteState(s, r, buf).disk[WriteChain(s, r)[i]] == Split(buf, Parts(r.size))[i]
  {
    LinkAt(s, r.parent, FindUnused(Parent(s, r), 2), NewSlot(s, r), WriteChain(s, r), Split(buf, Parts(r.size)));
  }

  /** What a write leaves in each word of the map and each cluster of the disk. */
  predicate Wrote(s: Fs, t: Fs, p: nat, k: nat, e: Slot, chain: seq<nat>) {
    && 2 <= p < MAP_SIZE && p !in chain && 2 <= k < SLOTS
    && Within(chain, 3, MAP_SIZE) && Ascending(chain) && chain != [] && Linked(t.words, chain)
    && (forall i :: 0 <= i < |chain| ==> s.words[chain[i]] == EMPTY)
    && (forall c :: 0 <= c < MAP_SIZE && c !in chain ==> t.words[c] == s.words[c])
    && t.disk[p] == SetSlot(s.disk[p], k, e)
    && (forall c :: 0 <= c < DISK_CLUSTERS && c != p && c != FAT_CLUSTER && c !in chain ==> t.disk[c] == s.disk[c])
    && Decode(e).Live() && Decode(e).cluster == chain[0] && SlotAt(s.disk[p], k) == ZeroSlot()
  }

  /** The clusters claimed by a write are free, and its directory is not among them. */
  lemma WriteClaims(s: Fs, b: Book, r: Request, buf: seq<byte>)
    requires CanWrite(s, b, r, buf) && WriteCode(s, r) == 0
    ensures var chain := WriteChain(s, r);
      && 2 <= r.parent < MAP_SIZE && r.parent !in chain
      && Within(chain, 3, MAP_SIZE) && Ascending(chain) && chain != []
      && |chain| == (if r.size == 0 then 1 else Parts(r.size))
      && forall i :: 0 <= i < |chain| ==> s.words[chain[i]] == EMPTY
  {
    WriteStepAllowed(s, b, r, buf);
    LinkBounds(WriteStep(s, b, r, buf));
    WriteChainIsFree(s, b, r);
  }

  lemma FolderLink(u: Fs, s: Fs, p: nat, k: nat, e: Slot, c: nat, f: Cluster)
    requires 2 <= p < MAP_SIZE && k < SLOTS && 3 <= c < MAP_SIZE && p != c
    requires u.disk == s.disk && u.words[..MAP_SIZE] == s.words[..MAP_SIZE]
    ensures var t := Link(u, p, k, e, [c], [f]);
      && Linked(t.words, [c])
      && (forall x :: 0 <= x < MAP_SIZE && x != c ==> t.words[x] == s.words[x])
      && t.disk[p] == SetSlot(s.disk[p], k, e)
      && (forall x :: 0 <= x < DISK_CLUSTERS && x != p && x != FAT_CLUSTER && x != c ==> t.disk[x] == s.disk[x])
      && t.disk[c] == f
  {
    LinkAt(u, p, k, e, [c], [f]);
    forall x | 0 <= x < MAP_SIZE
      ensures u.words[x] == s.words[x]
    {
      assert u.words[x] == u.words[..MAP_SIZE][x] == s.words[..MAP_SIZE][x];
    }
    assert [c][0] == c && [f][0] == f;
  }

  lemma FolderWrote(s: Fs, r: Request)
    requires 2 <= r.parent < MAP_SIZE && WriteCode(s, r) == 0 && r.size == 0
    requires 3 <= FirstFree(s.words, 0, MAP_SIZE) && r.parent != FirstFree(s.words, 0, MAP_SIZE)
    ensures var t, c, k := WriteFolderState(s, r), FirstFree(s.words, 0, MAP_SIZE), FindUnused(Parent(s, r), 2);
      && Linked(t.words, [c])
      && (forall x :: 0 <= x < MAP_SIZE && x != c ==> t.words[x] == s.words[x])
      && t.disk[r.parent] == SetSlot(s.disk[r.parent], k, NewSlot(s, r))
      && (forall x :: 0 <= x < DISK_CLUSTERS && x != r.parent && x != FAT_CLUSTER && x != c ==> t.disk[x] == s.disk[x])
      && t.disk[c] == NewFolder(s, r, c)
  {
    var f := NewFolder(s, r, FirstFree(s.words, 0, MAP_SIZE));
    FolderLink(Buffered(s, f), s, r.parent, FindUnused(Parent(s, r), 2), NewSlot(s, r), FirstFree(s.words, 0, MAP_SIZE), f);
  }

  lemma StateWrote(s: Fs, r: Request, buf: seq<byte>)
    requires 2 <= r.parent < MAP_SIZE && WriteCode(s, r) == 0 && |buf| >= CLUSTER_SIZE * Parts(r.size)
    requires var chain := WriteChain(s, r);
      && r.parent !in chain && Within(chain, 3, MAP_SIZE) && Ascending(chain) && chain != []
      && |chain| == (if r.size == 0 then 1 else Parts(r.size))
    ensures var t, chain, k := WriteState(s, r, buf), WriteChain(s, r), FindUnused(Parent(s, r), 2);
      && Linked(t.words, chain)
      && (forall c :: 0 <= c < MAP_SIZE && c !in chain ==> t.words[c] == s.words[c])
      && t.disk[r.parent] == SetSlot(s.disk[r.parent], k, NewSlot(s, r))
      && (forall c :: 0 <= c < DISK_CLUSTERS && c != r.parent && c != FAT_CLUSTER && c !in chain ==> t.disk[c] == s.disk[c])
      && (r.size == 0 ==> t.disk[chain[0]] == NewFolder(s, r, FirstFree(s.words, 0, MAP_SIZE)))
  {
    if r.size == 0 {
      var c := FirstFree(s.words, 0, MAP_SIZE);
      assert WriteChain(s, r)[0] == c && c in WriteChain(s, r);
      FolderWrote(s, r);
    } else {
      LinkAt(s, r.parent, FindUnused(Parent(s, r), 2), NewSlot(s, r), WriteChain(s, r), Split(buf, Parts(r.size)));
    }
  }

  lemma WriteAt(s: Fs, b: Book, r: Request, buf: seq<byte>)
    requires CanWrite(s, b, r, buf) && WriteCode(s, r) == 0
    ensures FindUnused(Parent(s, r), 2) < SLOTS
    ensures Wrote(s, WriteState(s, r, buf), r.parent, FindUnused(Parent(s, r), 2), NewSlot(s, r), WriteChain(s, r))
    ensures r.size == 0 ==>
      WriteState(s, r, buf).disk[WriteChain(s, r)[0]] == NewFolder(s, r, FirstFree(s.words, 0, MAP_SIZE))
  {
    WriteClaims(s, b, r, buf);
    WriteSlotIsFree(s, b, r);
    BlankIsZero(SlotAt(s.disk[r.parent], FindUnused(Parent(s, r), 2)));
    WriteEntry(s, r);
    ChainStartsAtFirstFree(s, r);
    StateWrote(s, r, buf);
  }

  /** Where a write changes the disk, and what it stores there. */
  lemma WriteDisk(s: Fs, b: Book, r: Request, buf: seq<byte>)
    requires CanWrite(s, b, r, buf) && WriteCode(s, r) == 0
    ensures var t, chain := WriteState(s, r, buf), WriteChain(s, r);
      && DiskElsewhere(s, t, r.parent, chain)
      && (r.size != 0 ==> |chain| == Parts(r.size) && forall i :: 0 <= i < |chain| ==> t.disk[chain[i]] == Split(buf, Parts(r.size))[i])
  {
    WriteAt(s, b, r, buf);
    WriteClaims(s, b, r, buf);
    if r.size != 0 {
      StoredParts(s, r, buf);
    }
  }

  /** The file a write stores reads as the first r.size bytes of the buffer. */
  lemma WrittenBytes(s: Fs, b: Book, r: Request, buf: seq<byte>)
    requires CanWrite(s, b, r, buf) && WriteCode(s, r) == 0 && r.size != 0
    ensures var t := WriteState(s, r, buf);
      && WriteChain(s, r) != [] && WriteChain(s, r)[0] < MAP_SIZE
      && Contents(t.disk, Chain(t.words, WriteChain(s, r)[0])) == buf[..CLUSTER_SIZE * Parts(r.size)]
  {
    var t, chain := WriteState(s, r, buf), WriteChain(s, r);
    WriteStepValid(s, b, r, buf);
    WriteDisk(s, b, r, buf);
    LinkedIsChain(t.words, chain);
    ContentsAreParts(t.disk, chain, Split(buf, Parts(r.size)));
    JoinOfSplit(buf, Parts(r.size));
  }

  /** What a successful write puts under its key. */
  function WrittenNode(s: Fs, r: Request, buf: seq<byte>): Node
    requires |buf| >= CLUSTER_SIZE * Parts(r.size)
  {
    if r.size == 0 then FolderNode(FirstFree(s.words, 0, MAP_SIZE)) else FileNode(buf[..r.size])
  }

  lemma FileNodeOf(t: Fs, e: Item, buf: seq<byte>, m: nat)
    requires e.cluster < MAP_SIZE && !e.Folder() && e.size <= m <= |buf|
    requires Contents(t.disk, Chain(t.words, e.cluster)) == buf[..m]
    ensures NodeOf(t, e) == FileNode(buf[..e.size])
  {
    assert buf[..m][..e.size] == buf[..e.size];
  }

  lemma WriteKeyAndNode(s: Fs, b: Book, r: Request, buf: seq<byte>)
    requires CanWrite(s, b, r, buf) && WriteCode(s, r) == 0
    ensures var m := WriteStep(s, b, r, buf);
      NewKey(m) == RequestKey(r) && NodeOf(WriteState(s, r, buf), m.e) == WrittenNode(s, r, buf)
  {
    var e := Decode(NewSlot(s, r));
    WriteEntry(s, r);
    if r.size != 0 {
      ChainStartsAtFirstFree(s, r);
      WrittenBytes(s, b, r, buf);
      FileNodeOf(WriteState(s, r, buf), e, buf, CLUSTER_SIZE * Parts(r.size));
    }
  }

  /** A successful write adds one key, which was not there, and changes no other. */
  lemma WriteUpdatesTree(s: Fs, b: Book, r: Request, buf: seq<byte>)
    requires CanWrite(s, b, r, buf) && WriteCode(s, r) == 0
    ensures RequestKey(r) !in Tree(s, b)
    ensures Tree(WriteState(s, r, buf), WriteBook(s, b, r, buf)) == Tree(s, b)[RequestKey(r) := WrittenNode(s, r, buf)]
  {
    WriteStepValid(s, b, r, buf);
    WriteDisk(s, b, r, buf);
    WriteKeyAndNode(s, b, r, buf);
    var m, t := WriteStep(s, b, r, buf), WriteState(s, r, buf);
    LinkTree(s, t, m);
    assert WriteBook(s, b, r, buf) == m.After();
  }

  // ---- Delete is a map removal ----

  /** The key of the entry a delete lands on. */
  function TargetKey(s: Fs, r: Request): Key
    requires r.parent < DISK_CLUSTERS && Target(s, r) < SLOTS
  {
    Key(r.parent, r.name, r.ext, Parent(s, r)[Target(s, r)].Folder())
  }

  lemma DeleteStep(s: Fs, b: Book, r: Request)
    requires CanDelete(s, b, r) && DeleteCode(s, r) == 0
    ensures Target(s, r) < SLOTS && Parent(s, r)[Target(s, r)].cluster < MAP_SIZE
    ensures var m := UnlinkStep(s, b, r.parent, Target(s, r));
      && m.Valid() && m.v == Vol(s) && m.t == Vol(DeleteState(s, r))
      && DeleteBook(s, b, r) == m.After() && OldKey(m) == TargetKey(s, r)
      && DiskElsewhere(s, DeleteState(s, r), m.p, m.chain)
  {
    DeleteStepAllowed(s, b, r);
    UnlinkIsStep(s, b, r.parent, Target(s, r));
    UnlinkBounds(UnlinkStep(s, b, r.parent, Target(s, r)));
    UnlinkAt(s, r.parent, Target(s, r));
    VolAt(s, r.parent);
  }

  /** A successful delete removes the key of its target and changes no other. */
  lemma DeleteUpdatesTree(s: Fs, b: Book, r: Request)
    requires CanDelete(s, b, r) && DeleteCode(s, r) == 0
    ensures Target(s, r) < SLOTS && TargetKey(s, r) in Tree(s, b)
    ensures Tree(DeleteState(s, r), DeleteBook(s, b, r)) == Tree(s, b) - {TargetKey(s, r)}
  {
    DeleteStep(s, b, r);
    UnlinkTree(s, DeleteState(s, r), UnlinkStep(s, b, r.parent, Target(s, r)));
  }

  // ---- Read is a map lookup ----

  /** The entry found first under the request's name is a directory: a subdirectory, the
      directory the request is made in, or its parent. */
  predicate Shadowed(s: Fs, r: Request)
    requires r.parent < DISK_CLUSTERS
  {
    Target(s, r) < SLOTS && Parent(s, r)[Target(s, r)].Folder()
  }

  /** An unshadowed file key is what a read lands on, and the other way round. */
  lemma FileTarget(s: Fs, b: Book, r: Request)
    requires Inv(s, b) && Folder(b, r.parent) && FindsUsed(s, r)
    ensures var key := Key(r.parent, r.name, r.ext, false);
      key in Tree(s, b) && !Shadowed(s, r) <==> Target(s, r) < SLOTS && !Parent(s, r)[Target(s, r)].Folder()
    ensures !Shadowed(s, r) && Target(s, r) < SLOTS ==> Holds(Vol(s), b, Key(r.parent, r.name, r.ext, false), Target(s, r))
  {
    var key := Key(r.parent, r.name, r.ext, false);
    VolAt(s, r.parent);
    assert HeadOk(Vol(s), b, r.parent);
    if Target(s, r) < SLOTS && !Parent(s, r)[Target(s, r)].Folder() {
      TargetIsLive(s, b, r);
      TreeAt(s, b, key, Target(s, r));
    }
  }

  /** A file's node holds exactly as many bytes as its entry says, in the fewest clusters. */
  lemma FileNodeAt(s: Fs, b: Book, key: Key, i: nat)
    requires Sound(Vol(s), b) && Holds(Vol(s), b, key, i) && !key.folder
    ensures var e := Vol(s).tabs[key.dir][i];
      && e.cluster < MAP_SIZE && Tree(s, b)[key] == FileNode(FileBytes(s, e)) && |FileBytes(s, e)| == e.size
      && FileBytes(s, e) <= Contents(s.disk, Chain(s.words, e.cluster))
      && |Contents(s.disk, Chain(s.words, e.cluster))| == CLUSTER_SIZE * Parts(e.size)
  {
    HeldEntry(Vol(s), b, key, i);
    TreeAt(s, b, key, i);
  }

  /** A read succeeds exactly when its file is in the map, is not shadowed and fits the buffer. */
  lemma ReadSucceedsWhen(s: Fs, b: Book, r: Request)
    requires Inv(s, b) && Folder(b, r.parent) && FindsUsed(s, r)
    ensures var key := Key(r.parent, r.name, r.ext, false);
      && (key in Tree(s, b) ==> Tree(s, b)[key].FileNode?)
      && (ReadCode(s, r) == 0 <==>
            key in Tree(s, b) && !Shadowed(s, r) && |Tree(s, b)[key].bytes| <= r.size)
  {
    var key := Key(r.parent, r.name, r.ext, false);
    FileTarget(s, b, r);
    VolAt(s, r.parent);
    if key in Tree(s, b) {
      FileNodeAt(s, b, key, SlotFor(Vol(s), b, key));
    }
    if !Shadowed(s, r) && Target(s, r) < SLOTS {
      FileNodeAt(s, b, key, Target(s, r));
    }
  }

  /** A successful read delivers the file's bytes, followed by the rest of its last cluster. */
  lemma ReadLooksUp(s: Fs, b: Book, r: Request)
    requires Inv(s, b) && Folder(b, r.parent) && FindsUsed(s, r) && ReadCode(s, r) == 0
    ensures Key(r.parent, r.name, r.ext, false) in Tree(s, b)
    ensures Tree(s, b)[Key(r.parent, r.name, r.ext, false)].FileNode?
    ensures var bytes := Tree(s, b)[Key(r.parent, r.name, r.ext, false)].bytes;
         bytes <= ReadBytes(s, r) && |ReadBytes(s, r)| == CLUSTER_SIZE * Parts(|bytes|)
  {
    FileTarget(s, b, r);
    VolAt(s, r.parent);
    FileNodeAt(s, b, Key(r.parent, r.name, r.ext, false), Target(s, r));
  }

  // ---- Write, then read ----

  /** Nothing shadows the file a write is about to store: the first match of its name, headers
      included, lies behind the slot the write will take. */
  predicate Unshadowed(s: Fs, r: Request)
    requires r.parent < DISK_CLUSTERS
  {
    FindUnused(Parent(s, r), 2) < Target(s, r)
  }

  /** Where the first match moves when slot k, which did not match, gets a matching entry. */
  lemma FindAfterSet(t: Table, k: nat, e: Item, name: Name, ext: Ext)
    requires k < SLOTS && e.Named(name, ext) && !t[k].Named(name, ext)
    ensures Find(t[k := e], name, ext, 0) == if k < Find(t, name, ext, 0) then k else Find(t, name, ext, 0)
  {
    var u, i, j := t[k := e], Find(t, name, ext, 0), Find(t[k := e], name, ext, 0);
    assert u[k].Named(name, ext);
    assert i < SLOTS ==> u[i].Named(name, ext);
    assert j != k && j < SLOTS ==> t[j].Named(name, ext);
  }

  lemma ParentAfterWrite(s: Fs, b: Book, r: Request, buf: seq<byte>)
    requires CanWrite(s, b, r, buf) && WriteCode(s, r) == 0
    ensures FindUnused(Parent(s, r), 2) < SLOTS
    ensures Parent(WriteState(s, r, buf), r)
         == Parent(s, r)[FindUnused(Parent(s, r), 2) := Decode(NewSlot(s, r))]
  {
    WriteStepValid(s, b, r, buf);
    VolAt(s, r.parent);
    VolAt(WriteState(s, r, buf), r.parent);
  }

  /** After a write the first match is the new entry, if nothing shadows it; otherwise it is
      the entry that shadows it. */
  lemma TargetAfterWrite(s: Fs, b: Book, r: Request, buf: seq<byte>)
    requires CanWrite(s, b, r, buf) && WriteCode(s, r) == 0 && !BlankKey(r)
    ensures var t, k := WriteState(s, r, buf), FindUnused(Parent(s, r), 2);
      && k < SLOTS && Parent(t, r) == Parent(s, r)[k := Decode(NewSlot(s, r))]
      && Target(s, r) != k
      && Target(t, r) == if Unshadowed(s, r) then k else Target(s, r)
  {
    ParentAfterWrite(s, b, r, buf);
    WriteSlotIsFree(s, b, r);
    WriteEntry(s, r);
    FindAfterSet(Parent(s, r), FindUnused(Parent(s, r), 2), Decode(NewSlot(s, r)), r.name, r.ext);
  }

  /** Reading a file back right after writing it gives the bytes written, if and only if
      nothing shadows it. */
  lemma WriteThenRead(s: Fs, b: Book, r: Request, buf: seq<byte>, q: Request)
    requires CanWrite(s, b, r, buf) && WriteCode(s, r) == 0 && r.size != 0 && !BlankKey(r)
    requires q == r.(size := q.size) && q.size >= r.size
    ensures var t := WriteState(s, r, buf);
      && (ReadCode(t, q) == 0 <==> Unshadowed(s, r))
      && (Unshadowed(s, r) ==>
            ReadBytes(t, q) == buf[..CLUSTER_SIZE * Parts(r.size)])
  {
    var t := WriteState(s, r, buf);
    TargetAfterWrite(s, b, r, buf);
    WriteEntry(s, r);
    ChainStartsAtFirstFree(s, r);
    WrittenBytes(s, b, r, buf);
    WriteSlotIsFree(s, b, r);
    VolAt(s, r.parent);
    assert HeadOk(Vol(s), b, r.parent);
    assert Target(t, q) == Target(t, r);
    if !Unshadowed(s, r) && Target(s, r) >= 2 {
      NamedFindsUsed(s, b, r);
      TargetIsLive(s, b, r);
    }
  }

  // ---- Write, then delete ----

  /** A directory just made is empty, so an unshadowed delete of a new entry goes through. */
  lemma NewEntryCanGo(s: Fs, b: Book, r: Request, buf: seq<byte>)
    requires CanWrite(s, b, r, buf) && WriteCode(s, r) == 0 && !BlankKey(r) && Unshadowed(s, r)
    ensures DeleteCode(WriteState(s, r, buf), r) == 0
  {
    TargetAfterWrite(s, b, r, buf);
    WriteEntry(s, r);
    WriteSlotIsFree(s, b, r);
    if r.size == 0 {
      WriteAt(s, b, r, buf);
      ChainStartsAtFirstFree(s, r);
      WriteFolderFresh(s, b, r, FirstFree(s.words, 0, MAP_SIZE));
    }
  }

  /** The words of a link undone: the claimed ones are empty again. */
  lemma WordsUndone(s: Fs, t: Fs, u: Fs, chain: seq<nat>)
    requires Within(chain, 3, MAP_SIZE) && forall i :: 0 <= i < |chain| ==> s.words[chain[i]] == EMPTY
    requires forall c :: 0 <= c < MAP_SIZE && c !in chain ==> t.words[c] == s.words[c]
    requires forall c :: 0 <= c < WORDS ==> u.words[c] == if c in chain then EMPTY else t.words[c]
    ensures u.words[..MAP_SIZE] == s.words[..MAP_SIZE]
  {
    forall c | 0 <= c < MAP_SIZE
      ensures u.words[c] == s.words[c]
    {
    }
  }

  /** The clusters of a link undone: the claimed ones hold zeros again, the entry is cleared. */
  lemma DiskUndone(s: Fs, t: Fs, u: Fs, p: nat, k: nat, e: Slot, chain: seq<nat>)
    requires 2 <= p < MAP_SIZE && k < SLOTS && p !in chain && Within(chain, 3, MAP_SIZE)
    requires SlotAt(s.disk[p], k) == ZeroSlot() && t.disk[p] == SetSlot(s.disk[p], k, e)
    requires u.disk[p] == SetSlot(t.disk[p], k, ZeroSlot()) && u.disk[FAT_CLUSTER] == s.disk[FAT_CLUSTER]
    requires forall i :: 0 <= i < |chain| ==> s.disk[chain[i]] == ZeroCluster()
    requires forall c :: 0 <= c < DISK_CLUSTERS && c != p && c != FAT_CLUSTER && c !in chain ==> t.disk[c] == s.disk[c]
    requires forall c :: 0 <= c < DISK_CLUSTERS && c != p && c != FAT_CLUSTER ==>
      u.disk[c] == if c in chain then ZeroCluster() else t.disk[c]
    ensures u.disk == s.disk
  {
    SetSlotUndone(s.disk[p], k, e);
    forall c | 0 <= c < DISK_CLUSTERS
      ensures u.disk[c] == s.disk[c]
    {
    }
  }

  /** Unlinking what was linked gives the old words and the old disk, where the claimed
      clusters held zeros. */
  lemma UnlinkUndoes(s: Fs, t: Fs, p: nat, k: nat, e: Slot, chain: seq<nat>)
    requires Wrote(s, t, p, k, e, chain) && Coherent(s) && Clean(s)
    ensures Unlink(t, p, k).words[..MAP_SIZE] == s.words[..MAP_SIZE]
    ensures Unlink(t, p, k).disk == s.disk
  {
    SetSlotTable(s.disk[p], k, e);
    LinkedIsChain(t.words, chain);
    UnlinkAt(t, p, k);
    WordsUndone(s, t, Unlink(t, p, k), chain);
    DiskUndone(s, t, Unlink(t, p, k), p, k, e, chain);
  }

  /** Clearing some other slot leaves the written entry in place. */
  lemma EntryRemains(s: Fs, t: Fs, p: nat, k: nat, e: Slot, chain: seq<nat>, j: nat)
    requires Wrote(s, t, p, k, e, chain) && j < SLOTS && j != k
    ensures t.disk != s.disk && Unlink(t, p, j).disk != s.disk
  {
    SetSlotAt(s.disk[p], k, e, k);
    assert SlotAt(t.disk[p], k) == e && e != ZeroSlot() by { ZeroIsBlank(); }
    UnlinkAt(t, p, j);
    SetSlotAt(t.disk[p], j, ZeroSlot(), k);
  }

  /** On a clean disk, deleting right after writing restores the whole disk byte for byte, and
      the cached map, if and only if nothing shadows the new entry. */
  lemma WriteThenDelete(s: Fs, b: Book, r: Request, buf: seq<byte>)
    requires CanWrite(s, b, r, buf) && WriteCode(s, r) == 0 && !BlankKey(r) && Clean(s)
    ensures var t := WriteState(s, r, buf);
      && (DeleteState(t, r).disk == s.disk <==> Unshadowed(s, r))
      && (Unshadowed(s, r) ==> DeleteCode(t, r) == 0 && DeleteState(t, r).words[..MAP_SIZE] == s.words[..MAP_SIZE])
  {
    var t, k := WriteState(s, r, buf), FindUnused(Parent(s, r), 2);
    WriteAt(s, b, r, buf);
    TargetAfterWrite(s, b, r, buf);
    if Unshadowed(s, r) {
      NewEntryCanGo(s, b, r, buf);
      UnlinkUndoes(s, t, r.parent, k, NewSlot(s, r), WriteChain(s, r));
    } else {
      EntryRemains(s, t, r.parent, k, NewSlot(s, r), WriteChain(s, r), Target(t, r));
    }
  }

  // ---- Free clusters stay zero ----

  lemma WroteClean(s: Fs, t: Fs, p: nat, k: nat, e: Slot, chain: seq<nat>)
    requires Wrote(s, t, p, k, e, chain) && Clean(s) && s.words[p] != EMPTY
    ensures Clean(t)
  {
    forall c | 3 <= c < MAP_SIZE && t.words[c] == EMPTY
      ensures t.disk[c] == ZeroCluster()
    {
      if c in chain {
        LinkedIsUsed(t.words, chain, c);
      }
    }
  }

  /** A write keeps the free clusters zero. */
  lemma WriteKeepsClean(s: Fs, b: Book, r: Request, buf: seq<byte>)
    requires CanWrite(s, b, r, buf) && Clean(s)
    ensures Clean(WriteState(s, r, buf))
  {
    if WriteCode(s, r) == 0 {
      WriteAt(s, b, r, buf);
      WriteSlotIsFree(s, b, r);
      assert !b.owner[r.parent].Free?;
      WroteClean(s, WriteState(s, r, buf), r.parent, FindUnused(Parent(s, r), 2), NewSlot(s, r), WriteChain(s, r));
    }
  }

  /** A delete keeps the free clusters zero: it wipes what it frees. */
  /** Clearing a chain and one slot of a used cluster keeps the free clusters zero. */
  lemma UnlinkKeepsClean(s: Fs, p: nat, k: nat)
    requires 2 <= p < MAP_SIZE && k < SLOTS && Clean(s) && s.words[p] != EMPTY && p !in Chain(s.words, TableOf(s.disk[p])[k].cluster)
    ensures Clean(Unlink(s, p, k))
  {
    UnlinkAt(s, p, k);
  }

  lemma DeleteKeepsClean(s: Fs, b: Book, r: Request)
    requires CanDelete(s, b, r) && Clean(s)
    ensures Clean(DeleteState(s, r))
  {
    if DeleteCode(s, r) == 0 {
      DeleteStep(s, b, r);
      var m := UnlinkStep(s, b, r.parent, Target(s, r));
      UnlinkBounds(m);
      ParentStays(m);
      VolAt(s, r.parent);
      assert !b.owner[r.parent].Free?;
      UnlinkKeepsClean(s, r.parent, Target(s, r));
    }
  }
}

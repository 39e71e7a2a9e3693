/** What a read of one file sees of other requests: of one, and of whole runs of them. */
module FatReads {
  import opened Layout
  import opened FatState
  import opened Chains
  import opened FatInvariant
  import opened FatLink
  import opened FatUnlink
  import opened FatRequests
  import opened FatRemoval
  import opened FatFiles
  import opened FatTheorems
  import opened FatRun

  /** Both requests name the same entry of the same directory. */
  predicate SameKey(q: Request, r: Request) { q.parent == r.parent && q.name == r.name && q.ext == r.ext }

  /** What a read into `size` bytes returns when its first match is entry i. */
  function CodeAt(t: Table, i: nat, size: nat): int {
    if i >= SLOTS then 2 else if t[i].Folder() then 1 else if size < t[i].size then -1 else 0
  }

  // ---- First matches ----

  /** A slot that matches neither before nor after does not move the first match. */
  lemma FindElsewhere(t: Table, k: nat, e: Item, name: Name, ext: Ext)
    requires k < SLOTS && !e.Named(name, ext) && !t[k].Named(name, ext)
    ensures Find(t[k := e], name, ext, 0) == Find(t, name, ext, 0)
  {
    var u, i, j := t[k := e], Find(t, name, ext, 0), Find(t[k := e], name, ext, 0);
    assert i < SLOTS ==> u[i].Named(name, ext);
    assert j < SLOTS ==> t[j].Named(name, ext);
  }

  /** Clearing the first match uncovers the next one. */
  lemma FindBehind(t: Table, e: Item, name: Name, ext: Ext)
    requires Find(t, name, ext, 0) < SLOTS && !e.Named(name, ext)
    ensures var k := Find(t, name, ext, 0); Find(t[k := e], name, ext, 0) == Find(t, name, ext, k + 1)
  {
    var k := Find(t, name, ext, 0);
    var u, i, j := t[k := e], Find(t, name, ext, k + 1), Find(t[k := e], name, ext, 0);
    assert !u[k].Named(name, ext);
    assert i < SLOTS ==> u[i].Named(name, ext);
    assert j < SLOTS ==> t[j].Named(name, ext);
  }

  /** What a read returns, told by the table of its directory. */
  function TableCode(t: Table, q: Request): int {
    if !t[0].Folder() then -1 else CodeAt(t, Find(t, q.name, q.ext, 0), q.size)
  }

  lemma CodeOfTable(s: Fs, q: Request)
    requires q.parent < DISK_CLUSTERS
    ensures ReadCode(s, q) == TableCode(Parent(s, q), q)
  {
  }

  lemma OtherSlot(t: Table, k: nat, e: Item, q: Request)
    requires 2 <= k < SLOTS && !e.Named(q.name, q.ext) && !t[k].Named(q.name, q.ext)
    ensures var i := Find(t, q.name, q.ext, 0);
      && Find(t[k := e], q.name, q.ext, 0) == i && (i < SLOTS ==> i != k && t[k := e][i] == t[i])
      && TableCode(t[k := e], q) == TableCode(t, q)
  {
    FindElsewhere(t, k, e, q.name, q.ext);
  }

  lemma SlotBehind(t: Table, k: nat, e: Item, q: Request)
    requires 2 <= k < SLOTS && e.Named(q.name, q.ext) && !t[k].Named(q.name, q.ext) && Find(t, q.name, q.ext, 0) <= k
    ensures var i := Find(t, q.name, q.ext, 0);
      && Find(t[k := e], q.name, q.ext, 0) == i < k && t[k := e][i] == t[i]
      && TableCode(t[k := e], q) == TableCode(t, q)
  {
    FindAfterSet(t, k, e, q.name, q.ext);
  }

  lemma SlotInFront(t: Table, k: nat, e: Item, q: Request)
    requires 2 <= k < SLOTS && e.Named(q.name, q.ext) && !t[k].Named(q.name, q.ext) && k < Find(t, q.name, q.ext, 0)
    requires t[0].Folder()
    ensures TableCode(t[k := e], q) == if e.Folder() then 1 else if q.size < e.size then -1 else 0
  {
    FindAfterSet(t, k, e, q.name, q.ext);
  }

  lemma SlotCleared(t: Table, q: Request)
    requires 2 <= Find(t, q.name, q.ext, 0) < SLOTS && !BlankKey(q) && t[0].Folder()
    ensures var k := Find(t, q.name, q.ext, 0);
      TableCode(t[k := Blank()], q) == CodeAt(t, Find(t, q.name, q.ext, k + 1), q.size)
  {
    FindBehind(t, Blank(), q.name, q.ext);
  }

  /** A file can be read: its directory is live and its entry the first match. */
  predicate Readable(w: World, q: Request) {
    q.parent < MAP_SIZE && Folder(w.b, q.parent) && !BlankKey(q) && ReadCode(w.s, q) == 0
  }

  lemma ReadableEntry(s: Fs, b: Book, q: Request)
    requires Inv(s, b) && Readable(World(s, b), q)
    ensures var i := Target(s, q);
      && 2 <= i < SLOTS && Vol(s).tabs[q.parent] == Parent(s, q)
      && EntryOk(Vol(s), b, q.parent, i) && !Parent(s, q)[i].Folder()
      && Holds(Vol(s), b, Key(q.parent, q.name, q.ext, false), i)
  {
    NamedFindsUsed(s, b, q);
    VolAt(s, q.parent);
    assert HeadOk(Vol(s), b, q.parent);
    TargetIsLive(s, b, q);
  }

  /** A chain whose words and clusters stay keeps its contents. */
  lemma BytesStay(s: Fs, t: Fs, c: nat)
    requires c < MAP_SIZE
    requires forall x :: x in Chain(s.words, c) ==> t.words[x] == s.words[x] && t.disk[x] == s.disk[x]
    ensures Contents(t.disk, Chain(t.words, c)) == Contents(s.disk, Chain(s.words, c))
  {
    ChainFrame(s.words, t.words, c);
    ContentsFrame(s.disk, t.disk, Chain(s.words, c));
  }

  // ---- Reads after a write ----

  lemma TableAfterWrite(s: Fs, b: Book, r: Request, buf: seq<byte>, q: Request)
    requires CanWrite(s, b, r, buf) && WriteCode(s, r) == 0 && q.parent < MAP_SIZE && Folder(b, q.parent)
    ensures FindUnused(Parent(s, r), 2) < SLOTS
    ensures Parent(WriteState(s, r, buf), q) ==
      if q.parent == r.parent then Parent(s, r)[FindUnused(Parent(s, r), 2) := Decode(NewSlot(s, r))] else Parent(s, q)
  {
    ParentAfterWrite(s, b, r, buf);
    WriteStepValid(s, b, r, buf);
    OwnedIsOffChain(WriteStep(s, b, r, buf), q.parent);
    VolAt(s, q.parent);
    VolAt(WriteState(s, r, buf), q.parent);
  }

  /** Does this write put an entry in front of what q finds? */
  predicate Covers(s: Fs, r: Request, q: Request)
    requires r.parent < DISK_CLUSTERS
  {
    SameKey(q, r) && Unshadowed(s, r)
  }

  /** The slot a write takes was unused and now matches its name. */
  lemma SlotTaken(s: Fs, b: Book, r: Request, buf: seq<byte>)
    requires CanWrite(s, b, r, buf) && WriteCode(s, r) == 0
    ensures var k, e := FindUnused(Parent(s, r), 2), Decode(NewSlot(s, r));
      && 2 <= k < SLOTS && Parent(s, r)[k] == Blank() && Parent(s, r)[0].Folder()
      && e.Named(r.name, r.ext) && (e.Folder() <==> r.size == 0) && e.size == r.size
  {
    WriteSlotIsFree(s, b, r);
    WriteEntry(s, r);
  }

  lemma TargetKeptByWrite(s: Fs, b: Book, r: Request, buf: seq<byte>, q: Request)
    requires CanWrite(s, b, r, buf) && WriteCode(s, r) == 0 && q.parent < MAP_SIZE && Folder(b, q.parent) && !BlankKey(q)
    requires !Covers(s, r, q)
    ensures var t := WriteState(s, r, buf);
      && Target(t, q) == Target(s, q) && ReadCode(t, q) == ReadCode(s, q)
      && (Target(s, q) < SLOTS ==> Parent(t, q)[Target(s, q)] == Parent(s, q)[Target(s, q)])
  {
    var k, e := FindUnused(Parent(s, r), 2), Decode(NewSlot(s, r));
    TableAfterWrite(s, b, r, buf, q);
    SlotTaken(s, b, r, buf);
    CodeOfTable(s, q);
    CodeOfTable(WriteState(s, r, buf), q);
    if SameKey(q, r) {
      SlotBehind(Parent(s, r), k, e, q);
    } else if q.parent == r.parent {
      OtherSlot(Parent(s, r), k, e, q);
    }
  }

  /** What any read returns after a write: what it returned before, unless the write put an entry
      of its name in front of everything else of that name. */
  lemma ReadCodeAfterWrite(s: Fs, b: Book, r: Request, buf: seq<byte>, q: Request)
    requires CanWrite(s, b, r, buf) && WriteCode(s, r) == 0 && q.parent < MAP_SIZE && Folder(b, q.parent) && !BlankKey(q)
    ensures ReadCode(WriteState(s, r, buf), q) ==
      if !Covers(s, r, q) then ReadCode(s, q) else if r.size == 0 then 1 else if q.size < r.size then -1 else 0
  {
    if Covers(s, r, q) {
      TableAfterWrite(s, b, r, buf, q);
      SlotTaken(s, b, r, buf);
      CodeOfTable(WriteState(s, r, buf), q);
      SlotInFront(Parent(s, r), FindUnused(Parent(s, r), 2), Decode(NewSlot(s, r)), q);
    } else {
      TargetKeptByWrite(s, b, r, buf, q);
    }
  }

  /** The clusters of a file that was there are none that a linking step changes. */
  lemma LinkKeepsChain(s: Fs, t: Fs, m: Linkage, d: nat, i: nat)
    requires m.Valid() && m.v == Vol(s) && m.t == Vol(t) && DiskElsewhere(s, t, m.p, m.chain)
    requires d < MAP_SIZE && i < SLOTS && EntryOk(m.v, m.b, d, i) && !m.v.tabs[d][i].Folder()
    ensures forall x :: x in Chain(s.words, m.v.tabs[d][i].cluster) ==> t.words[x] == s.words[x] && t.disk[x] == s.disk[x]
  {
    FileClusters(m.v, m.b, d, i);
    LinkOldChain(m, m.v.tabs[d][i].cluster);
  }

  lemma ChainKeptByWrite(s: Fs, b: Book, r: Request, buf: seq<byte>, d: nat, i: nat)
    requires CanWrite(s, b, r, buf) && WriteCode(s, r) == 0
    requires d < MAP_SIZE && i < SLOTS && EntryOk(Vol(s), b, d, i) && !Vol(s).tabs[d][i].Folder()
    ensures var t, c := WriteState(s, r, buf), Vol(s).tabs[d][i].cluster;
      forall x :: x in Chain(s.words, c) ==> t.words[x] == s.words[x] && t.disk[x] == s.disk[x]
  {
    WriteStepValid(s, b, r, buf);
    WriteDisk(s, b, r, buf);
    LinkKeepsChain(s, WriteState(s, r, buf), WriteStep(s, b, r, buf), d, i);
  }

  lemma BytesKeptByWrite(s: Fs, b: Book, r: Request, buf: seq<byte>, q: Request)
    requires CanWrite(s, b, r, buf) && WriteCode(s, r) == 0 && Readable(World(s, b), q) && !Covers(s, r, q)
    ensures var t := WriteState(s, r, buf); ReadCode(t, q) == 0 && ReadBytes(t, q) == ReadBytes(s, q)
  {
    var t, c := WriteState(s, r, buf), Parent(s, q)[Target(s, q)].cluster;
    ReadCodeAfterWrite(s, b, r, buf, q);
    TargetKeptByWrite(s, b, r, buf, q);
    ReadableEntry(s, b, q);
    ChainKeptByWrite(s, b, r, buf, q.parent, Target(s, q));
    BytesStay(s, t, c);
  }

  /** A file that could be read reads back exactly as before a write if and only if the write did
      not put a directory of its name in front of it. */
  lemma ReadStaysAfterWrite(s: Fs, b: Book, r: Request, buf: seq<byte>, q: Request)
    requires CanWrite(s, b, r, buf) && WriteCode(s, r) == 0 && Readable(World(s, b), q)
    ensures var t := WriteState(s, r, buf);
      && (ReadCode(t, q) == 0 && ReadBytes(t, q) == ReadBytes(s, q) <==> !Covers(s, r, q))
      && (Covers(s, r, q) ==> r.size == 0 && ReadCode(t, q) == 1)
  {
    if Covers(s, r, q) {
      ReadableEntry(s, b, q);
      WriteSlotIsFree(s, b, r);
      ReadCodeAfterWrite(s, b, r, buf, q);
    } else {
      BytesKeptByWrite(s, b, r, buf, q);
    }
  }

  // ---- Reads after a delete ----

  lemma TableAfterDelete(s: Fs, b: Book, r: Request, q: Request)
    requires CanDelete(s, b, r) && DeleteCode(s, r) == 0 && q.parent < MAP_SIZE && Folder(DeleteBook(s, b, r), q.parent)
    ensures Folder(b, q.parent) && 2 <= Target(s, r) < SLOTS
    ensures Parent(DeleteState(s, r), q) ==
      if q.parent == r.parent then Parent(s, r)[Target(s, r) := Blank()] else Parent(s, q)
  {
    DeleteTarget(s, b, r);
    DeleteStep(s, b, r);
    var t, m := DeleteState(s, r), UnlinkStep(s, b, r.parent, Target(s, r));
    VolAt(s, q.parent);
    VolAt(t, q.parent);
    forall i | 0 <= i < SLOTS
      ensures m.t.tabs[q.parent][i] == if q.parent == m.p && i == m.k then Blank() else m.v.tabs[q.parent][i]
    {
      UnlinkEntries(m, q.parent, i);
    }
  }

  /** The slot a delete clears was the first match, behind the headers. */
  lemma SlotGoes(s: Fs, b: Book, r: Request)
    requires CanDelete(s, b, r) && DeleteCode(s, r) == 0
    ensures Parent(s, r)[0].Folder() && 2 <= Target(s, r) < SLOTS && Parent(s, r)[Target(s, r)].Named(r.name, r.ext)
  {
    DeleteTarget(s, b, r);
  }

  lemma ReadOtherAfterDelete(s: Fs, b: Book, r: Request, q: Request)
    requires CanDelete(s, b, r) && DeleteCode(s, r) == 0 && !BlankKey(q) && !SameKey(q, r)
    requires q.parent < MAP_SIZE && Folder(DeleteBook(s, b, r), q.parent)
    ensures ReadCode(DeleteState(s, r), q) == ReadCode(s, q) && Target(DeleteState(s, r), q) == Target(s, q)
    ensures Target(s, q) < SLOTS ==> Parent(DeleteState(s, r), q)[Target(s, q)] == Parent(s, q)[Target(s, q)]
  {
    TableAfterDelete(s, b, r, q);
    SlotGoes(s, b, r);
    CodeOfTable(s, q);
    CodeOfTable(DeleteState(s, r), q);
    if q.parent == r.parent {
      OtherSlot(Parent(s, r), Target(s, r), Blank(), q);
    }
  }

  /** A disk t on which the slot r lands on is cleared. */
  lemma ReadCleared(s: Fs, t: Fs, r: Request, q: Request)
    requires r.parent < DISK_CLUSTERS && SameKey(q, r) && !BlankKey(q) && Parent(s, r)[0].Folder()
    requires 2 <= Target(s, r) < SLOTS && Parent(t, q) == Parent(s, r)[Target(s, r) := Blank()]
    ensures ReadCode(t, q) == CodeAt(Parent(s, r), Find(Parent(s, r), r.name, r.ext, Target(s, r) + 1), q.size)
  {
    CodeOfTable(t, q);
    SlotCleared(Parent(s, r), q);
  }

  lemma ReadSameAfterDelete(s: Fs, b: Book, r: Request, q: Request)
    requires CanDelete(s, b, r) && DeleteCode(s, r) == 0 && !BlankKey(q) && SameKey(q, r)
    requires q.parent < MAP_SIZE && Folder(DeleteBook(s, b, r), q.parent)
    ensures ReadCode(DeleteState(s, r), q) == CodeAt(Parent(s, r), Find(Parent(s, r), r.name, r.ext, Target(s, r) + 1), q.size)
  {
    TableAfterDelete(s, b, r, q);
    SlotGoes(s, b, r);
    ReadCleared(s, DeleteState(s, r), r, q);
  }

  /** What any read from a directory that stays returns after a delete: what it returned before,
      unless it asks for the entry deleted; then what the next entry of that name gives. */
  lemma ReadCodeAfterDelete(s: Fs, b: Book, r: Request, q: Request)
    requires CanDelete(s, b, r) && DeleteCode(s, r) == 0 && !BlankKey(q)
    requires q.parent < MAP_SIZE && Folder(DeleteBook(s, b, r), q.parent)
    ensures ReadCode(DeleteState(s, r), q) ==
      if SameKey(q, r) then CodeAt(Parent(s, r), Find(Parent(s, r), r.name, r.ext, Target(s, r) + 1), q.size) else ReadCode(s, q)
  {
    if SameKey(q, r) {
      ReadSameAfterDelete(s, b, r, q);
    } else {
      ReadOtherAfterDelete(s, b, r, q);
    }
  }

  /** A directory with a readable file in it is not the one deleted. */
  lemma ReadableParentStays(s: Fs, b: Book, r: Request, q: Request)
    requires CanDelete(s, b, r) && DeleteCode(s, r) == 0 && Readable(World(s, b), q)
    ensures Folder(DeleteBook(s, b, r), q.parent)
  {
    DeleteStep(s, b, r);
    ReadableEntry(s, b, q);
    var m := UnlinkStep(s, b, r.parent, Target(s, r));
    if q.parent in m.chain {
      FolderChain(m, q.parent);
    }
  }

  lemma OneFileOfAName(v: Volume, b: Book, d: nat, i: nat, j: nat)
    requires Sound(v, b) && d < MAP_SIZE && Folder(b, d) && 2 <= i < j < SLOTS
    requires EntryOk(v, b, d, i) && EntryOk(v, b, d, j) && v.tabs[d][j].Named(v.tabs[d][i].name, v.tabs[d][i].ext)
    ensures !v.tabs[d][i].Folder() ==> v.tabs[d][j].Folder()
  {
    assert !v.tabs[d][i].Alike(v.tabs[d][j]);
  }

  lemma SecondIsFolder(s: Fs, b: Book, q: Request, j: nat)
    requires Inv(s, b) && Readable(World(s, b), q) && Target(s, q) < j < SLOTS && Parent(s, q)[j].Named(q.name, q.ext)
    ensures Parent(s, q)[j].Folder()
  {
    ReadableEntry(s, b, q);
    assert Parent(s, q)[j] == Blank() || EntryOk(Vol(s), b, q.parent, j);
    OneFileOfAName(Vol(s), b, q.parent, Target(s, q), j);
  }

  /** No second file has the same name: behind a file there is a directory or nothing. */
  lemma NothingReadableBehind(s: Fs, b: Book, q: Request)
    requires Inv(s, b) && Readable(World(s, b), q)
    ensures CodeAt(Parent(s, q), Find(Parent(s, q), q.name, q.ext, Target(s, q) + 1), q.size) > 0
  {
    ReadableEntry(s, b, q);
    var j := Find(Parent(s, q), q.name, q.ext, Target(s, q) + 1);
    if j < SLOTS {
      SecondIsFolder(s, b, q, j);
    }
  }

  lemma UnlinkKeepsChain(s: Fs, t: Fs, m: Unlinkage, d: nat, i: nat)
    requires m.Valid() && m.v == Vol(s) && m.t == Vol(t) && DiskElsewhere(s, t, m.p, m.chain)
    requires d < MAP_SIZE && i < SLOTS && EntryOk(m.v, m.b, d, i) && !m.v.tabs[d][i].Folder() && !(d == m.p && i == m.k)
    ensures forall x :: x in Chain(s.words, m.v.tabs[d][i].cluster) ==> t.words[x] == s.words[x] && t.disk[x] == s.disk[x]
  {
    FileClusters(m.v, m.b, d, i);
    ChainIsHeld(m, m.v.tabs[d][i].cluster);
    UnlinkOldChain(m, m.v.tabs[d][i].cluster);
  }

  lemma ChainKeptByDelete(s: Fs, b: Book, r: Request, d: nat, i: nat)
    requires CanDelete(s, b, r) && DeleteCode(s, r) == 0
    requires d < MAP_SIZE && i < SLOTS && EntryOk(Vol(s), b, d, i) && !Vol(s).tabs[d][i].Folder()
    requires !(d == r.parent && i == Target(s, r))
    ensures var t, c := DeleteState(s, r), Vol(s).tabs[d][i].cluster;
      forall x :: x in Chain(s.words, c) ==> t.words[x] == s.words[x] && t.disk[x] == s.disk[x]
  {
    DeleteStep(s, b, r);
    UnlinkKeepsChain(s, DeleteState(s, r), UnlinkStep(s, b, r.parent, Target(s, r)), d, i);
  }

  lemma BytesKeptByDelete(s: Fs, b: Book, r: Request, q: Request)
    requires CanDelete(s, b, r) && DeleteCode(s, r) == 0 && Readable(World(s, b), q) && !SameKey(q, r)
    ensures var t := DeleteState(s, r); ReadCode(t, q) == 0 && ReadBytes(t, q) == ReadBytes(s, q)
  {
    var t := DeleteState(s, r);
    ReadableParentStays(s, b, r, q);
    ReadOtherAfterDelete(s, b, r, q);
    ReadableEntry(s, b, q);
    ChainKeptByDelete(s, b, r, q.parent, Target(s, q));
    BytesStay(s, t, Parent(s, q)[Target(s, q)].cluster);
  }

  /** A file that could be read reads back exactly as before a delete if and only if it is not the
      one deleted. */
  lemma ReadStaysAfterDelete(s: Fs, b: Book, r: Request, q: Request)
    requires CanDelete(s, b, r) && DeleteCode(s, r) == 0 && Readable(World(s, b), q)
    ensures Folder(DeleteBook(s, b, r), q.parent)
    ensures var t := DeleteState(s, r);
      ReadCode(t, q) == 0 && ReadBytes(t, q) == ReadBytes(s, q) <==> !SameKey(q, r)
  {
    ReadableParentStays(s, b, r, q);
    if SameKey(q, r) {
      ReadCodeAfterDelete(s, b, r, q);
      NothingReadableBehind(s, b, q);
    } else {
      BytesKeptByDelete(s, b, r, q);
    }
  }

  // ---- Reads over runs ----

  /** The request changes what reading q gives: a directory made in front of it, or its deletion. */
  predicate Disturbs(s: Fs, op: Op, q: Request) {
    match op
    case Write(r, _) => r.parent < DISK_CLUSTERS && WriteCode(s, r) == 0 && Covers(s, r, q)
    case Delete(r) => r.parent < DISK_CLUSTERS && DeleteCode(s, r) == 0 && SameKey(q, r)
    case Remount(_) => false
  }

  lemma ReadStaysAfterRemount(s: Fs, b: Book, tail: seq<byte>, q: Request)
    requires Inv(s, b) && |tail| == CLUSTER_SIZE - BLOCK_SIZE && Readable(World(s, b), q)
    ensures var t := Mount(s.disk, tail); ReadCode(t, q) == 0 && ReadBytes(t, q) == ReadBytes(s, q)
  {
    MountIsIdentity(s, b, tail);
    var t := Mount(s.disk, tail);
    assert t.words[..MAP_SIZE] == s.words[..MAP_SIZE];
    ReadableEntry(s, b, q);
    SameChain(s.words, t.words, Parent(s, q)[Target(s, q)].cluster);
  }

  /** Reading q gives the same in both states. */
  predicate Same(s: Fs, t: Fs, q: Request) {
    && q.parent < DISK_CLUSTERS && ReadCode(s, q) == 0
    && ReadCode(t, q) == 0 && ReadBytes(t, q) == ReadBytes(s, q)
  }

  lemma FolderStaysAfterWrite(s: Fs, b: Book, r: Request, buf: seq<byte>, d: nat)
    requires CanWrite(s, b, r, buf) && d < MAP_SIZE && Folder(b, d)
    ensures Folder(WriteBook(s, b, r, buf), d)
  {
    if WriteCode(s, r) == 0 {
      WriteStepValid(s, b, r, buf);
      OwnedIsOffChain(WriteStep(s, b, r, buf), d);
    }
  }

  lemma WriteStepKeepsRead(w: World, r: Request, buf: seq<byte>, q: Request)
    requires Fine(w) && Legal(w, Write(r, buf)) && Readable(w, q)
    ensures var t := Step(w, Write(r, buf));
      (Same(w.s, t.s, q) <==> !Disturbs(w.s, Write(r, buf), q)) && Folder(t.b, q.parent)
  {
    FolderStaysAfterWrite(w.s, w.b, r, buf, q.parent);
    if WriteCode(w.s, r) == 0 {
      ReadStaysAfterWrite(w.s, w.b, r, buf, q);
    }
  }

  lemma DeleteStepKeepsRead(w: World, r: Request, q: Request)
    requires Fine(w) && Legal(w, Delete(r)) && Readable(w, q)
    ensures var t := Step(w, Delete(r));
      (Same(w.s, t.s, q) <==> !Disturbs(w.s, Delete(r), q)) && Folder(t.b, q.parent)
  {
    if DeleteCode(w.s, r) == 0 {
      ReadStaysAfterDelete(w.s, w.b, r, q);
    }
  }

  /** A file that can be read reads back exactly as before a request if and only if the request
      does not disturb it. */
  lemma StepKeepsRead(w: World, op: Op, q: Request)
    requires Fine(w) && Legal(w, op) && Readable(w, q)
    ensures var t := Step(w, op);
      && (Same(w.s, t.s, q) <==> !Disturbs(w.s, op, q))
      && (!Disturbs(w.s, op, q) ==> Readable(t, q))
  {
    match op
    case Write(r, buf) => WriteStepKeepsRead(w, r, buf, q);
    case Delete(r) => DeleteStepKeepsRead(w, r, q);
    case Remount(tail) => ReadStaysAfterRemount(w.s, w.b, tail, q);
  }

  /** In every state of the run reading q succeeds and gives these bytes. */
  predicate ReadsSame(w: World, ops: seq<Op>, q: Request, bytes: seq<byte>)
    requires Fine(w) && LegalRun(w, ops)
    decreases |ops|
  {
    && q.parent < DISK_CLUSTERS && ReadCode(w.s, q) == 0 && ReadBytes(w.s, q) == bytes
    && (ops == [] || (StepIsFine(w, ops[0]); ReadsSame(Step(w, ops[0]), ops[1..], q, bytes)))
  }

  /** No request of the run disturbs q when it is made. */
  predicate Undisturbed(w: World, ops: seq<Op>, q: Request)
    requires Fine(w) && LegalRun(w, ops)
    decreases |ops|
  {
    ops == [] || (!Disturbs(w.s, ops[0], q) && (StepIsFine(w, ops[0]); Undisturbed(Step(w, ops[0]), ops[1..], q)))
  }

  /** A file reads the same all through a run if and only if no request of the run makes a
      directory in front of it or deletes it. */
  lemma {:induction false} RunKeepsRead(w: World, ops: seq<Op>, q: Request)
    requires Fine(w) && LegalRun(w, ops) && Readable(w, q)
    ensures ReadsSame(w, ops, q, ReadBytes(w.s, q)) <==> Undisturbed(w, ops, q)
    decreases |ops|
  {
    if ops != [] {
      StepIsFine(w, ops[0]);
      StepKeepsRead(w, ops[0], q);
      if !Disturbs(w.s, ops[0], q) {
        RunKeepsRead(Step(w, ops[0]), ops[1..], q);
      }
    }
  }

  /** The request is about another entry than q. */
  predicate Other(op: Op, q: Request) {
    match op
    case Write(r, _) => !SameKey(q, r)
    case Delete(r) => !SameKey(q, r)
    case Remount(_) => true
  }

  predicate AllOther(ops: seq<Op>, q: Request) { forall i :: 0 <= i < |ops| ==> Other(ops[i], q) }

  lemma OtherStepStays(w: World, op: Op, q: Request)
    requires Fine(w) && Legal(w, op) && Readable(w, q) && Other(op, q)
    ensures Readable(Step(w, op), q) && ReadBytes(Step(w, op).s, q) == ReadBytes(w.s, q)
  {
    StepKeepsRead(w, op, q);
  }

  lemma OthersFollow(ops: seq<Op>, q: Request)
    requires ops != [] && AllOther(ops, q)
    ensures Other(ops[0], q) && AllOther(ops[1..], q)
  {
  }

  /** Whatever a run does to other entries, the file can still be read and gives the same bytes. */
  lemma {:induction false} OtherFilesStay(w: World, ops: seq<Op>, q: Request)
    requires Fine(w) && LegalRun(w, ops) && Readable(w, q) && AllOther(ops, q)
    ensures Readable(Run(w, ops), q) && ReadBytes(Run(w, ops).s, q) == ReadBytes(w.s, q)
    decreases |ops|
  {
    if ops != [] {
      OthersFollow(ops, q);
      StepIsFine(w, ops[0]);
      OtherStepStays(w, ops[0], q);
      OtherFilesStay(Step(w, ops[0]), ops[1..], q);
    }
  }
}

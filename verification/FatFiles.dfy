/** What the file system means: a map from (directory, name, extension, kind) to nodes.
    Write, delete and read are an update, a removal and a lookup of that map. */
module FatFiles {
  import opened Layout
  import opened FatState
  import opened Chains
  import opened FatInvariant
  import opened FatLink
  import opened FatUnlink

  datatype Key = Key(dir: nat, name: Name, ext: Ext, folder: bool)

  datatype Node = FileNode(bytes: seq<byte>) | FolderNode(cluster: nat)

  /** Entry i of the key's directory is the one the key names. */
  predicate Holds(v: Volume, b: Book, key: Key, i: nat) {
    && key.dir < MAP_SIZE && Folder(b, key.dir) && 2 <= i < SLOTS
    && var e := v.tabs[key.dir][i]; e.Live() && e.Named(key.name, key.ext) && e.Folder() == key.folder
  }

  ghost predicate Present(v: Volume, b: Book, key: Key) { exists i :: Holds(v, b, key, i) }

  ghost function SlotFor(v: Volume, b: Book, key: Key): (i: nat)
    requires Present(v, b, key)
    ensures Holds(v, b, key, i)
  {
    var i :| Holds(v, b, key, i);
    i
  }

  /** The bytes of a file: its clusters joined and cut at its size. */
  function FileBytes(s: Fs, e: Item): seq<byte> {
    var all := Contents(s.disk, Chain(s.words, e.cluster));
    if e.size <= |all| then all[..e.size] else all
  }

  function NodeOf(s: Fs, e: Item): Node {
    if e.Folder() then FolderNode(e.cluster) else FileNode(FileBytes(s, e))
  }

  /** The whole file system as a map. */
  ghost function Tree(s: Fs, b: Book): imap<Key, Node> {
    imap key: Key | Present(Vol(s), b, key) :: NodeOf(s, Vol(s).tabs[key.dir][SlotFor(Vol(s), b, key)])
  }

  lemma HeldEntry(v: Volume, b: Book, key: Key, i: nat)
    requires Shape(v, b) && EntriesOk(v, b) && Holds(v, b, key, i)
    ensures EntryOk(v, b, key.dir, i)
  {
  }

  /** A key names at most one entry. */
  lemma HoldsOnce(v: Volume, b: Book, key: Key, i: nat, j: nat)
    requires Shape(v, b) && EntriesOk(v, b) && NamesOk(v, b) && Holds(v, b, key, i) && Holds(v, b, key, j)
    ensures i == j
  {
    HeldEntry(v, b, key, i);
    HeldEntry(v, b, key, j);
    assert v.tabs[key.dir][i].Alike(v.tabs[key.dir][j]) && v.tabs[key.dir][j].Alike(v.tabs[key.dir][i]);
  }

  /** The node under a key is the one its entry describes. */
  lemma TreeAt(s: Fs, b: Book, key: Key, i: nat)
    requires Sound(Vol(s), b) && Holds(Vol(s), b, key, i)
    ensures key in Tree(s, b) && Tree(s, b)[key] == NodeOf(s, Vol(s).tabs[key.dir][i])
  {
    HoldsOnce(Vol(s), b, key, i, SlotFor(Vol(s), b, key));
  }

  // ---- Nodes that are not touched ----

  /** An entry whose chain keeps its links and its clusters keeps its node. */
  lemma NodeFrame(s: Fs, t: Fs, e: Item)
    requires e.cluster < MAP_SIZE
    requires forall x :: x in Chain(s.words, e.cluster) ==> t.words[x] == s.words[x]
    requires !e.Folder() ==> forall x :: x in Chain(s.words, e.cluster) ==> t.disk[x] == s.disk[x]
    ensures NodeOf(t, e) == NodeOf(s, e)
  {
    ChainFrame(s.words, t.words, e.cluster);
    if !e.Folder() {
      ContentsFrame(s.disk, t.disk, Chain(s.words, e.cluster));
    }
  }

  /** Clusters of a file are neither directories nor reserved. */
  lemma FileClusters(v: Volume, b: Book, d: nat, i: nat)
    requires Sound(v, b) && d < MAP_SIZE && i < SLOTS && EntryOk(v, b, d, i)
    ensures forall x :: x in Chain(v.words, v.tabs[d][i].cluster) ==>
      b.owner[x] == Held(d, i, v.tabs[d][i].Folder()) && x != FAT_CLUSTER
    ensures !v.tabs[d][i].Folder() ==> forall x :: x in Chain(v.words, v.tabs[d][i].cluster) ==> !Folder(b, x)
  {
    ChainOwned(v, b, v.tabs[d][i].cluster);
  }

  // ---- Linking adds one key ----

  function NewKey(m: Linkage): Key { Key(m.p, m.e.name, m.e.ext, m.e.Folder()) }

  lemma LinkHolds(m: Linkage, key: Key, i: nat)
    requires m.Valid()
    ensures Holds(m.t, m.After(), key, i) <==> Holds(m.v, m.b, key, i) || (key == NewKey(m) && i == m.k)
  {
    if key.dir < MAP_SIZE && i < SLOTS {
      if key.dir in m.chain {
        if Folder(m.After(), key.dir) {
          LinkNewFolder(m, key.dir);
        }
      } else if Folder(m.b, key.dir) {
        LinkEntries(m, key.dir, i);
      }
    }
  }

  lemma NewKeyIsNowhere(m: Linkage, i: nat)
    requires m.Valid()
    ensures !Holds(m.v, m.b, NewKey(m), i)
  {
    if Holds(m.v, m.b, NewKey(m), i) {
      HeldEntry(m.v, m.b, NewKey(m), i);
      assert m.v.tabs[m.p][i].Alike(m.e);
    }
  }

  lemma NewKeyIsNew(s: Fs, m: Linkage)
    requires m.Valid() && m.v == Vol(s)
    ensures NewKey(m) !in Tree(s, m.b)
  {
    if NewKey(m) in Tree(s, m.b) {
      NewKeyIsNowhere(m, SlotFor(m.v, m.b, NewKey(m)));
    }
  }

  lemma NewKeyNode(t: Fs, m: Linkage)
    requires m.Valid() && m.t == Vol(t)
    ensures NewKey(m) in Tree(t, m.After()) && Tree(t, m.After())[NewKey(m)] == NodeOf(t, m.e)
  {
    LinkKeepsSound(m);
    LinkEntries(m, m.p, m.k);
    LinkHolds(m, NewKey(m), m.k);
    TreeAt(t, m.After(), NewKey(m), m.k);
  }

  /** What the disk of t shares with the disk of s after a step in p along a chain. */
  predicate DiskElsewhere(s: Fs, t: Fs, p: nat, chain: seq<nat>) {
    forall c :: 0 <= c < DISK_CLUSTERS && c != p && c != FAT_CLUSTER && c !in chain ==> t.disk[c] == s.disk[c]
  }

  lemma LinkOldNode(s: Fs, t: Fs, m: Linkage, key: Key, i: nat)
    requires m.Valid() && m.v == Vol(s) && m.t == Vol(t) && DiskElsewhere(s, t, m.p, m.chain)
    requires Holds(m.v, m.b, key, i)
    ensures m.t.tabs[key.dir][i] == m.v.tabs[key.dir][i]
    ensures NodeOf(t, m.v.tabs[key.dir][i]) == NodeOf(s, m.v.tabs[key.dir][i])
  {
    HeldEntry(m.v, m.b, key, i);
    LinkEntries(m, key.dir, i);
    var e := m.v.tabs[key.dir][i];
    FileClusters(m.v, m.b, key.dir, i);
    LinkOldChain(m, e.cluster);
    NodeFrame(s, t, e);
  }

  lemma LinkOtherKey(s: Fs, t: Fs, m: Linkage, key: Key)
    requires m.Valid() && m.v == Vol(s) && m.t == Vol(t) && DiskElsewhere(s, t, m.p, m.chain)
    requires key != NewKey(m)
    ensures key in Tree(t, m.After()) <==> key in Tree(s, m.b)
    ensures key in Tree(s, m.b) ==> Tree(t, m.After())[key] == Tree(s, m.b)[key]
  {
    LinkKeepsSound(m);
    if key in Tree(t, m.After()) {
      LinkHolds(m, key, SlotFor(m.t, m.After(), key));
    }
    if key in Tree(s, m.b) {
      var i := SlotFor(m.v, m.b, key);
      LinkHolds(m, key, i);
      LinkOldNode(s, t, m, key, i);
      TreeAt(t, m.After(), key, i);
    }
  }

  /** Maps that agree off one key differ by an update, or a removal, at that key. */
  lemma OneKeyChanged(before: imap<Key, Node>, after: imap<Key, Node>, key: Key)
    requires forall k: Key :: k != key ==> (k in after <==> k in before) && (k in before ==> after[k] == before[k])
    ensures key in after ==> after == before[key := after[key]]
    ensures key !in after ==> after == before - {key}
  {
  }

  /** Linking an entry updates the map at its key and nowhere else. */
  lemma LinkTree(s: Fs, t: Fs, m: Linkage)
    requires m.Valid() && m.v == Vol(s) && m.t == Vol(t) && DiskElsewhere(s, t, m.p, m.chain)
    ensures NewKey(m) !in Tree(s, m.b)
    ensures Tree(t, m.After()) == Tree(s, m.b)[NewKey(m) := NodeOf(t, m.e)]
  {
    NewKeyIsNew(s, m);
    NewKeyNode(t, m);
    var key0 := NewKey(m);
    forall key: Key | key != key0
      ensures key in Tree(t, m.After()) <==> key in Tree(s, m.b)
      ensures key in Tree(s, m.b) ==> Tree(t, m.After())[key] == Tree(s, m.b)[key]
    {
      LinkOtherKey(s, t, m, key);
    }
    OneKeyChanged(Tree(s, m.b), Tree(t, m.After()), key0);
  }

  // ---- Unlinking removes one key ----

  function OldKey(m: Unlinkage): Key
    requires m.p < MAP_SIZE && m.k < SLOTS
  {
    var e := m.v.tabs[m.p][m.k];
    Key(m.p, e.name, e.ext, e.Folder())
  }

  lemma OldKeyHolds(m: Unlinkage)
    requires m.Allowed()
    ensures Holds(m.v, m.b, OldKey(m), m.k)
  {
    assert EntryOk(m.v, m.b, m.p, m.k);
  }

  lemma UnlinkHolds(m: Unlinkage, key: Key, i: nat)
    requires m.Valid()
    ensures Holds(m.t, m.After(), key, i) <==> Holds(m.v, m.b, key, i) && !(key == OldKey(m) && i == m.k)
  {
    if key.dir < MAP_SIZE && 2 <= i < SLOTS {
      if Folder(m.After(), key.dir) {
        UnlinkEntries(m, key.dir, i);
      } else if Folder(m.b, key.dir) {
        FolderChain(m, key.dir);
        ParentStays(m);
      }
    }
  }

  lemma UnlinkOldNode(s: Fs, t: Fs, m: Unlinkage, key: Key, i: nat)
    requires m.Valid() && m.v == Vol(s) && m.t == Vol(t) && DiskElsewhere(s, t, m.p, m.chain)
    requires Holds(m.v, m.b, key, i) && key != OldKey(m)
    ensures m.t.tabs[key.dir][i] == m.v.tabs[key.dir][i]
    ensures NodeOf(t, m.v.tabs[key.dir][i]) == NodeOf(s, m.v.tabs[key.dir][i])
  {
    UnlinkHolds(m, key, i);
    HeldEntry(m.v, m.b, key, i);
    UnlinkEntries(m, key.dir, i);
    var e := m.v.tabs[key.dir][i];
    FileClusters(m.v, m.b, key.dir, i);
    ChainIsHeld(m, e.cluster);
    UnlinkOldChain(m, e.cluster);
    NodeFrame(s, t, e);
  }

  lemma UnlinkOtherKey(s: Fs, t: Fs, m: Unlinkage, key: Key)
    requires m.Valid() && m.v == Vol(s) && m.t == Vol(t) && DiskElsewhere(s, t, m.p, m.chain)
    requires key != OldKey(m)
    ensures key in Tree(t, m.After()) <==> key in Tree(s, m.b)
    ensures key in Tree(s, m.b) ==> Tree(t, m.After())[key] == Tree(s, m.b)[key]
  {
    UnlinkKeepsSound(m);
    if key in Tree(t, m.After()) {
      UnlinkHolds(m, key, SlotFor(m.t, m.After(), key));
    }
    if key in Tree(s, m.b) {
      var i := SlotFor(m.v, m.b, key);
      UnlinkHolds(m, key, i);
      UnlinkOldNode(s, t, m, key, i);
      TreeAt(t, m.After(), key, i);
    }
  }

  lemma OldKeyGoes(s: Fs, t: Fs, m: Unlinkage)
    requires m.Valid() && m.v == Vol(s) && m.t == Vol(t)
    ensures OldKey(m) in Tree(s, m.b) && OldKey(m) !in Tree(t, m.After())
  {
    OldKeyHolds(m);
    TreeAt(s, m.b, OldKey(m), m.k);
    if OldKey(m) in Tree(t, m.After()) {
      var i := SlotFor(m.t, m.After(), OldKey(m));
      UnlinkHolds(m, OldKey(m), i);
      HoldsOnce(m.v, m.b, OldKey(m), i, m.k);
    }
  }

  /** Unlinking an entry removes its key and nothing else. */
  lemma UnlinkTree(s: Fs, t: Fs, m: Unlinkage)
    requires m.Valid() && m.v == Vol(s) && m.t == Vol(t) && DiskElsewhere(s, t, m.p, m.chain)
    ensures OldKey(m) in Tree(s, m.b)
    ensures Tree(t, m.After()) == Tree(s, m.b) - {OldKey(m)}
  {
    OldKeyGoes(s, t, m);
    var key0 := OldKey(m);
    forall key: Key | key != key0
      ensures key in Tree(t, m.After()) <==> key in Tree(s, m.b)
      ensures key in Tree(s, m.b) ==> Tree(t, m.After())[key] == Tree(s, m.b)[key]
    {
      UnlinkOtherKey(s, t, m, key);
    }
    OneKeyChanged(Tree(s, m.b), Tree(t, m.After()), key0);
  }
}

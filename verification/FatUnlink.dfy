/** Giving back the chain of an entry and clearing its slot keeps the invariant. */
module FatUnlink {
  import opened Layout
  import opened FatState
  import opened Chains
  import opened FatInvariant

  /** An unlinking step on a volume: slot k of p is cleared and its chain set free. */
  datatype Unlinkage = Unlinkage(v: Volume, t: Volume, b: Book, p: nat, k: nat, chain: seq<nat>) {
    /** The slot is used and, if it is a directory, that directory is empty. */
    predicate Allowed() {
      && Sound(v, b)
      && p < MAP_SIZE && Folder(b, p) && 2 <= k < SLOTS && v.tabs[p][k] != Blank()
      && v.tabs[p][k].cluster < MAP_SIZE && chain == Chain(v.words, v.tabs[p][k].cluster)
      && (v.tabs[p][k].Folder() ==> EmptyFolder(v.tabs[v.tabs[p][k].cluster]))
    }

    predicate Done()
      requires p < MAP_SIZE && k < SLOTS
    {
      && (forall c :: 0 <= c < MAP_SIZE ==> t.words[c] == if c in chain then EMPTY else v.words[c])
      && t.tabs[p] == v.tabs[p][k := Blank()]
      && (forall c :: 0 <= c < MAP_SIZE && c != p && c != FAT_CLUSTER && c !in chain ==> t.tabs[c] == v.tabs[c])
    }

    predicate Valid() { Allowed() && Done() }

    function After(): (a: Book)
      requires |b.owner| == |b.depth| == MAP_SIZE
      ensures |a.owner| == |a.depth| == MAP_SIZE && a.depth == b.depth
      ensures forall c :: 0 <= c < MAP_SIZE ==> a.owner[c] == if c in chain then Free else b.owner[c]
    {
      Book(seq(MAP_SIZE, c requires 0 <= c < MAP_SIZE => if c in chain then Free else b.owner[c]), b.depth)
    }
  }

  /** The chain set free is exactly what the entry owned. */
  lemma ChainIsHeld(m: Unlinkage, x: nat)
    requires m.Allowed() && x < MAP_SIZE
    ensures x in m.chain <==> m.b.owner[x] == Held(m.p, m.k, m.v.tabs[m.p][m.k].Folder())
    ensures x in m.chain ==> x >= 3
  {
    assert EntryOk(m.v, m.b, m.p, m.k);
    var e := m.v.tabs[m.p][m.k];
    ChainOwned(m.v, m.b, e.cluster);
    if m.b.owner[x] == Held(m.p, m.k, e.Folder()) {
      assert HeldOk(m.v, m.b, x);
    }
  }

  /** When a directory is set free, its cluster is the whole chain. */
  lemma FolderChain(m: Unlinkage, x: nat)
    requires m.Allowed() && Folder(m.b, x) && x in m.chain
    ensures m.v.tabs[m.p][m.k].Folder() && x == m.v.tabs[m.p][m.k].cluster && EmptyFolder(m.v.tabs[x])
  {
    assert EntryOk(m.v, m.b, m.p, m.k);
    ChainIsHeld(m, x);
  }

  /** No directory is inside itself: the parent's own cluster is never set free. */
  lemma ParentStays(m: Unlinkage)
    requires m.Allowed()
    ensures m.p !in m.chain
  {
    assert HeadOk(m.v, m.b, m.p);
    if m.p in m.chain {
      FolderChain(m, m.p);
      ChainIsHeld(m, m.p);
    }
  }

  /** In the directories that stay, only slot k of p changes. */
  lemma UnlinkEntries(m: Unlinkage, d: nat, i: nat)
    requires m.Valid()
    requires d < MAP_SIZE && Folder(m.After(), d) && i < SLOTS
    ensures d !in m.chain && Folder(m.b, d)
    ensures m.t.tabs[d][i] == if d == m.p && i == m.k then Blank() else m.v.tabs[d][i]
  {
  }

  /** Chains of other owners are untouched. */
  lemma UnlinkOldChain(m: Unlinkage, c: nat)
    requires m.Valid()
    requires c < MAP_SIZE && m.b.owner[c].Held? && c !in m.chain
    ensures Chain(m.t.words, c) == Chain(m.v.words, c)
    ensures forall x :: x in Chain(m.v.words, c) ==> x !in m.chain && m.b.owner[x] == m.b.owner[c]
  {
    ChainOwned(m.v, m.b, c);
    ChainIsHeld(m, c);
    forall x | x in Chain(m.v.words, c)
      ensures x !in m.chain
    {
      ChainIsHeld(m, x);
    }
    ChainFrame(m.v.words, m.t.words, c);
  }

  lemma UnlinkShape(m: Unlinkage)
    requires m.Valid()
    ensures Shape(m.t, m.After()) && FreeIsUnowned(m.t, m.After())
  {
    ChainIsHeld(m, BOOT_SECTOR);
    ChainIsHeld(m, FAT_CLUSTER);
    ChainIsHeld(m, ROOT_CLUSTER);
  }

  lemma UnlinkOldEntry(m: Unlinkage, d: nat, i: nat)
    requires m.Valid() && Shape(m.t, m.After())
    requires d < MAP_SIZE && Folder(m.After(), d) && 2 <= i < SLOTS
    ensures m.t.tabs[d][i] == Blank() || EntryOk(m.t, m.After(), d, i)
  {
    UnlinkEntries(m, d, i);
    if m.t.tabs[d][i] != Blank() {
      assert EntryOk(m.v, m.b, d, i);
      var c := m.v.tabs[d][i].cluster;
      ChainIsHeld(m, c);
      UnlinkOldChain(m, c);
    }
  }

  /** The directory above a cluster that stays, stays. */
  lemma ParentOfHeldStays(m: Unlinkage, c: nat)
    requires m.Allowed() && c < MAP_SIZE && m.b.owner[c].Held? && c !in m.chain
    ensures m.b.owner[c].parent !in m.chain
  {
    var o := m.b.owner[c];
    assert HeldOk(m.v, m.b, c);
    assert EntryOk(m.v, m.b, o.parent, o.slot);
    if o.parent in m.chain {
      FolderChain(m, o.parent);
    }
  }

  lemma UnlinkOldOwner(m: Unlinkage, c: nat)
    requires m.Valid() && Shape(m.t, m.After()) && c < MAP_SIZE && m.b.owner[c].Held? && c !in m.chain
    ensures HeldOk(m.t, m.After(), c)
  {
    var o := m.b.owner[c];
    assert HeldOk(m.v, m.b, c);
    assert EntryOk(m.v, m.b, o.parent, o.slot);
    var first := m.v.tabs[o.parent][o.slot].cluster;
    ChainOwned(m.v, m.b, first);
    ChainIsHeld(m, c);
    ChainIsHeld(m, first);
    UnlinkOldChain(m, first);
    UnlinkOldChain(m, c);
    ParentOfHeldStays(m, c);
    UnlinkEntries(m, o.parent, o.slot);
    if m.v.words[c] != END_OF_FILE {
      ChainIsHeld(m, m.v.words[c]);
    }
  }

  lemma UnlinkSlotStays(m: Unlinkage, c: nat)
    requires m.Valid() && c < MAP_SIZE && m.b.owner[c].Held? && c !in m.chain && m.b.owner[c].parent < MAP_SIZE
    requires Folder(m.After(), m.b.owner[c].parent) && m.b.owner[c].slot < SLOTS
    ensures m.t.tabs[m.b.owner[c].parent][m.b.owner[c].slot] == m.v.tabs[m.b.owner[c].parent][m.b.owner[c].slot]
  {
    var o := m.b.owner[c];
    assert HeldOk(m.v, m.b, c) && EntryOk(m.v, m.b, o.parent, o.slot);
    ChainOwned(m.v, m.b, m.v.tabs[o.parent][o.slot].cluster);
    ChainIsHeld(m, c);
    UnlinkEntries(m, o.parent, o.slot);
  }

  lemma UnlinkOldHead(m: Unlinkage, c: nat)
    requires m.Valid() && Shape(m.t, m.After()) && c < MAP_SIZE && Folder(m.After(), c)
    ensures HeadOk(m.t, m.After(), c)
  {
    assert HeadOk(m.v, m.b, c);
    var q := ParentOf(m.b, c);
    UnlinkEntries(m, c, 0);
    UnlinkEntries(m, c, 1);
    if m.b.owner[c].Held? {
      ParentOfHeldStays(m, c);
      assert HeldOk(m.v, m.b, c);
      UnlinkEntries(m, q, 0);
      ChainIsHeld(m, c);
      UnlinkSlotStays(m, c);
    } else {
      ChainIsHeld(m, ROOT_CLUSTER);
    }
  }

  /** Unlinking an entry keeps the volume sound. */
  lemma UnlinkKeepsSound(m: Unlinkage)
    requires m.Valid()
    ensures Sound(m.t, m.After())
  {
    UnlinkShape(m);
    forall d, i | 0 <= d < MAP_SIZE && Folder(m.After(), d) && 2 <= i < SLOTS
      ensures m.t.tabs[d][i] == Blank() || EntryOk(m.t, m.After(), d, i)
    {
      UnlinkOldEntry(m, d, i);
    }
    forall c | 0 <= c < MAP_SIZE && m.After().owner[c].Held?
      ensures HeldOk(m.t, m.After(), c)
    {
      UnlinkOldOwner(m, c);
    }
    forall c | 0 <= c < MAP_SIZE && Folder(m.After(), c)
      ensures HeadOk(m.t, m.After(), c)
    {
      UnlinkOldHead(m, c);
    }
    forall d, i, j | 0 <= d < MAP_SIZE && Folder(m.After(), d) && 2 <= i < j < SLOTS
      ensures m.t.tabs[d][i].Live() && m.t.tabs[d][j].Live() ==> !m.t.tabs[d][i].Alike(m.t.tabs[d][j])
    {
      UnlinkEntries(m, d, i);
      UnlinkEntries(m, d, j);
    }
  }
}

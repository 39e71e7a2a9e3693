/** Claiming a chain of free clusters for a new entry keeps the invariant. */
module FatLink {
  import opened Layout
  import opened FatState
  import opened Chains
  import opened FatInvariant

  /** A table fit for a new directory c under p: its two headers and nothing else. */
  predicate FreshTable(t: Table, e: Item, c: nat, p: nat, parentName: Name) {
    && Header(t[0]) && t[0].cluster == c && t[0].name == e.name
    && Header(t[1]) && t[1].cluster == p && t[1].name == parentName
    && forall j :: 2 <= j < SLOTS ==> t[j] == Blank()
  }

  /** A linking step on a volume: entry e goes into slot k of p, and chain is claimed for it.
      `table` is what the first cluster of the chain holds, read as a table. */
  datatype Linkage = Linkage(v: Volume, t: Volume, b: Book, p: nat, k: nat, e: Item, chain: seq<nat>, table: Table) {
    /** The slot, the name and the clusters are free, and e describes them. */
    predicate Allowed() {
      && Sound(v, b)
      && p < MAP_SIZE && Folder(b, p) && 2 <= k < SLOTS && v.tabs[p][k] == Blank()
      && chain != [] && Ascending(chain) && Within(chain, 3, MAP_SIZE)
      && (forall i :: 0 <= i < |chain| ==> v.words[chain[i]] == EMPTY)
      && e.Live() && (e.Folder() || e.attr == 0) && e.cluster == chain[0]
      && |chain| == (if e.Folder() then 1 else Parts(e.size))
      && (e.Folder() <==> e.size == 0)
      && (forall j :: 2 <= j < SLOTS && v.tabs[p][j].Live() ==> !v.tabs[p][j].Alike(e))
      && (e.Folder() ==> FreshTable(table, e, chain[0], p, v.tabs[p][0].name))
    }

    /** t is v with the chain threaded and the entry written. */
    predicate Done()
      requires p < MAP_SIZE && k < SLOTS && Within(chain, 3, MAP_SIZE) && chain != []
    {
      && Linked(t.words, chain)
      && (forall c :: 0 <= c < MAP_SIZE && c !in chain ==> t.words[c] == v.words[c])
      && t.tabs[p] == v.tabs[p][k := e]
      && t.tabs[chain[0]] == table
      && (forall c :: 0 <= c < MAP_SIZE && c != p && c != FAT_CLUSTER && c !in chain ==> t.tabs[c] == v.tabs[c])
    }

    predicate Valid() { Allowed() && Done() }

    /** The book afterwards. */
    function After(): (a: Book)
      requires |b.owner| == |b.depth| == MAP_SIZE && p < MAP_SIZE && Within(chain, 3, MAP_SIZE) && chain != []
      ensures |a.owner| == |a.depth| == MAP_SIZE
      ensures forall c :: 0 <= c < MAP_SIZE ==> a.owner[c] == if c in chain then Held(p, k, e.Folder()) else b.owner[c]
      ensures forall c :: 0 <= c < MAP_SIZE ==>
        a.depth[c] == if e.Folder() && c == chain[0] then b.depth[p] + 1 else b.depth[c]
    {
      Book(seq(MAP_SIZE, c requires 0 <= c < MAP_SIZE => if c in chain then Held(p, k, e.Folder()) else b.owner[c]),
           if e.Folder() then b.depth[chain[0] := b.depth[p] + 1] else b.depth)
    }
  }

  /** Nothing that was owned is on the new chain. */
  lemma OwnedIsOffChain(m: Linkage, d: nat)
    requires m.Valid() && d < MAP_SIZE && !m.b.owner[d].Free?
    ensures d !in m.chain && m.t.words[d] == m.v.words[d]
  {
  }

  lemma ChainIsOwned(m: Linkage, i: nat)
    requires m.Valid() && i < |m.chain|
    ensures m.t.words[m.chain[i]] != EMPTY && m.After().owner[m.chain[i]] == Held(m.p, m.k, m.e.Folder())
  {
    assert Linked(m.t.words, m.chain);
    var c := m.chain[i];
    assert c in m.chain && m.t.words[c] == if i + 1 == |m.chain| then END_OF_FILE else m.chain[i + 1];
  }

  lemma LinkShape(m: Linkage)
    requires m.Valid()
    ensures Shape(m.t, m.After()) && FreeIsUnowned(m.t, m.After())
  {
    OwnedIsOffChain(m, BOOT_SECTOR);
    OwnedIsOffChain(m, FAT_CLUSTER);
    OwnedIsOffChain(m, ROOT_CLUSTER);
    forall c | 0 <= c < MAP_SIZE
      ensures m.t.words[c] == EMPTY <==> m.After().owner[c].Free?
    {
      if c in m.chain {
        var i :| 0 <= i < |m.chain| && m.chain[i] == c;
        ChainIsOwned(m, i);
      }
    }
  }

  /** In the directories there were, only slot k of p changes. */
  lemma LinkEntries(m: Linkage, d: nat, i: nat)
    requires m.Valid()
    requires d < MAP_SIZE && Folder(m.b, d) && i < SLOTS
    ensures d !in m.chain
    ensures m.t.tabs[d][i] == if d == m.p && i == m.k then m.e else m.v.tabs[d][i]
  {
    OwnedIsOffChain(m, d);
  }

  /** The chain of an entry that was there before is still its chain. */
  lemma LinkOldChain(m: Linkage, c: nat)
    requires m.Valid()
    requires c < MAP_SIZE && m.b.owner[c].Held?
    ensures Chain(m.t.words, c) == Chain(m.v.words, c)
    ensures forall x :: x in Chain(m.v.words, c) ==> x !in m.chain && m.b.owner[x] == m.b.owner[c]
  {
    ChainOwned(m.v, m.b, c);
    ChainFrame(m.v.words, m.t.words, c);
  }

  lemma LinkNewEntry(m: Linkage)
    requires m.Valid() && Shape(m.t, m.After())
    ensures EntryOk(m.t, m.After(), m.p, m.k)
  {
    LinkEntries(m, m.p, m.k);
    LinkedIsChain(m.t.words, m.chain);
  }

  lemma LinkOldEntry(m: Linkage, d: nat, i: nat)
    requires m.Valid() && Shape(m.t, m.After())
    requires d < MAP_SIZE && i < SLOTS && EntryOk(m.v, m.b, d, i) && m.t.tabs[d][i] == m.v.tabs[d][i]
    ensures EntryOk(m.t, m.After(), d, i)
  {
    var c := m.v.tabs[d][i].cluster;
    LinkOldChain(m, c);
    OwnedIsOffChain(m, c);
  }

  /** A directory that was not there before is the new one, and has only its two headers. */
  lemma LinkNewFolder(m: Linkage, d: nat)
    requires m.Valid() && d < MAP_SIZE && Folder(m.After(), d) && d in m.chain
    ensures m.e.Folder() && d == m.chain[0] && m.t.tabs[d] == m.table
  {
  }

  lemma LinkEntryKept(m: Linkage, d: nat, i: nat)
    requires m.Valid() && Shape(m.t, m.After())
    requires d < MAP_SIZE && Folder(m.After(), d) && 2 <= i < SLOTS
    ensures m.t.tabs[d][i] == Blank() || EntryOk(m.t, m.After(), d, i)
  {
    if d in m.chain {
      LinkNewFolder(m, d);
    } else {
      LinkEntries(m, d, i);
      if d == m.p && i == m.k {
        LinkNewEntry(m);
      } else if m.v.tabs[d][i] != Blank() {
        LinkOldEntry(m, d, i);
      }
    }
  }

  lemma LinkNewOwner(m: Linkage, i: nat)
    requires m.Valid() && Shape(m.t, m.After()) && i < |m.chain|
    ensures HeldOk(m.t, m.After(), m.chain[i])
  {
    var c := m.chain[i];
    LinkEntries(m, m.p, m.k);
    LinkedIsChain(m.t.words, m.chain);
    assert c in m.chain;
    assert m.t.words[c] == if i + 1 == |m.chain| then END_OF_FILE else m.chain[i + 1];
    if i + 1 < |m.chain| {
      assert m.chain[i + 1] in m.chain;
    }
  }

  lemma LinkOldOwner(m: Linkage, c: nat)
    requires m.Valid() && Shape(m.t, m.After()) && c < MAP_SIZE && m.b.owner[c].Held?
    ensures HeldOk(m.t, m.After(), c)
  {
    var o := m.b.owner[c];
    assert HeldOk(m.v, m.b, c);
    OwnedIsOffChain(m, c);
    LinkEntries(m, o.parent, o.slot);
    assert EntryOk(m.v, m.b, o.parent, o.slot);
    LinkOldChain(m, m.v.tabs[o.parent][o.slot].cluster);
    if m.v.words[c] != END_OF_FILE {
      OwnedIsOffChain(m, m.v.words[c]);
    }
  }

  lemma LinkNewHead(m: Linkage)
    requires m.Valid() && Shape(m.t, m.After()) && m.e.Folder()
    ensures HeadOk(m.t, m.After(), m.chain[0])
  {
    LinkEntries(m, m.p, 0);
    LinkEntries(m, m.p, m.k);
    assert m.chain[0] in m.chain;
  }

  lemma LinkOldHead(m: Linkage, c: nat)
    requires m.Valid() && Shape(m.t, m.After()) && c < MAP_SIZE && Folder(m.b, c)
    ensures HeadOk(m.t, m.After(), c)
  {
    assert HeadOk(m.v, m.b, c);
    var q := ParentOf(m.b, c);
    assert m.b.owner[c].Held? ==> HeldOk(m.v, m.b, c);
    LinkEntries(m, c, 0);
    LinkEntries(m, c, 1);
    LinkEntries(m, q, 0);
    if m.b.owner[c].Held? {
      LinkEntries(m, q, m.b.owner[c].slot);
    }
  }

  lemma LinkNameKept(m: Linkage, d: nat, i: nat, j: nat)
    requires m.Valid()
    requires d < MAP_SIZE && Folder(m.After(), d) && 2 <= i < j < SLOTS
    ensures m.t.tabs[d][i].Live() && m.t.tabs[d][j].Live() ==> !m.t.tabs[d][i].Alike(m.t.tabs[d][j])
  {
    if d in m.chain {
      LinkNewFolder(m, d);
    } else {
      LinkEntries(m, d, i);
      LinkEntries(m, d, j);
    }
  }

  lemma LinkKeepsOwners(m: Linkage)
    requires m.Valid() && Shape(m.t, m.After())
    ensures OwnersOk(m.t, m.After())
  {
    forall c | 0 <= c < MAP_SIZE && m.After().owner[c].Held?
      ensures HeldOk(m.t, m.After(), c)
    {
      if c in m.chain {
        var i :| 0 <= i < |m.chain| && m.chain[i] == c;
        LinkNewOwner(m, i);
      } else {
        LinkOldOwner(m, c);
      }
    }
  }

  lemma LinkKeepsHeads(m: Linkage)
    requires m.Valid() && Shape(m.t, m.After())
    ensures HeadsOk(m.t, m.After())
  {
    forall c | 0 <= c < MAP_SIZE && Folder(m.After(), c)
      ensures HeadOk(m.t, m.After(), c)
    {
      if c in m.chain {
        LinkNewFolder(m, c);
        LinkNewHead(m);
      } else {
        LinkOldHead(m, c);
      }
    }
  }

  /** Linking a new entry keeps the volume sound. */
  lemma LinkKeepsSound(m: Linkage)
    requires m.Valid()
    ensures Sound(m.t, m.After())
  {
    LinkShape(m);
    LinkKeepsOwners(m);
    LinkKeepsHeads(m);
    forall d, i | 0 <= d < MAP_SIZE && Folder(m.After(), d) && 2 <= i < SLOTS
      ensures m.t.tabs[d][i] == Blank() || EntryOk(m.t, m.After(), d, i)
    {
      LinkEntryKept(m, d, i);
    }
    forall d, i, j | 0 <= d < MAP_SIZE && Folder(m.After(), d) && 2 <= i < j < SLOTS
      ensures m.t.tabs[d][i].Live() && m.t.tabs[d][j].Live() ==> !m.t.tabs[d][i].Alike(m.t.tabs[d][j])
    {
      LinkNameKept(m, d, i, j);
    }
  }
}

/** What every reachable state of the driver satisfies.

    The invariant is stated against a book: who owns each cluster of the map and how
    deep each directory lies. One owner per cluster is what rules out cross-linking. */
module FatInvariant {
  import opened Layout
  import opened FatState
  import opened Chains

  datatype Owner = Free | System | Root | Held(parent: nat, slot: nat, folder: bool)

  datatype Book = Book(owner: seq<Owner>, depth: seq<nat>)

  function BlankTables(n: nat): (t: seq<Table>)
    ensures |t| == n
  {
    seq(n, _ => BlankTable())
  }

  type Tables = t: seq<Table> | |t| == MAP_SIZE witness BlankTables(MAP_SIZE)

  predicate Folder(b: Book, c: nat) {
    c < |b.owner| && (b.owner[c].Root? || (b.owner[c].Held? && b.owner[c].folder))
  }

  /** The cluster map and every mapped cluster read as a directory table. */
  datatype Volume = Volume(words: Words, tabs: Tables)

  function Vol(s: Fs): Volume {
    Volume(s.words, seq(MAP_SIZE, c requires 0 <= c < MAP_SIZE => TableOf(s.disk[c])))
  }

  /** Sizes, and the three clusters that no request ever allocates. */
  predicate Shape(v: Volume, b: Book) {
    && |b.owner| == |b.depth| == MAP_SIZE
    && b.owner[BOOT_SECTOR].System? && b.owner[FAT_CLUSTER].System? && b.owner[ROOT_CLUSTER].Root?
    && (forall c :: 3 <= c < MAP_SIZE ==> b.owner[c].Free? || b.owner[c].Held?)
    && v.words[BOOT_SECTOR] == CLUSTER_0_VALUE && v.words[FAT_CLUSTER] == CLUSTER_1_VALUE
    && v.words[ROOT_CLUSTER] == END_OF_FILE
  }

  /** The empty words of the map are exactly the clusters nobody owns: nothing leaks. */
  predicate FreeIsUnowned(v: Volume, b: Book)
    requires Shape(v, b)
  {
    forall c :: 0 <= c < MAP_SIZE ==> (v.words[c] == EMPTY <==> b.owner[c].Free?)
  }

  /** A used entry i of directory d owns the chain it points at, of the length its size asks for. */
  predicate EntryOk(v: Volume, b: Book, d: nat, i: nat)
    requires Shape(v, b) && d < MAP_SIZE && i < SLOTS
  {
    var e := v.tabs[d][i];
    && e.Live() && (e.Folder() || e.attr == 0)
    && 3 <= e.cluster < MAP_SIZE
    && b.owner[e.cluster] == Held(d, i, e.Folder())
    && |Chain(v.words, e.cluster)| == (if e.Folder() then 1 else Parts(e.size))
    && (e.Folder() <==> e.size == 0)
  }

  /** Entries of directories are either all zero or in order. */
  predicate EntriesOk(v: Volume, b: Book)
    requires Shape(v, b)
  {
    forall d, i :: 0 <= d < MAP_SIZE && Folder(b, d) && 2 <= i < SLOTS ==>
      v.tabs[d][i] == Blank() || EntryOk(v, b, d, i)
  }

  /** An owned cluster lies on the chain of the entry that owns it, and its link goes up
      to a cluster of the same owner or ends the file. */
  predicate HeldOk(v: Volume, b: Book, c: nat)
    requires Shape(v, b) && c < MAP_SIZE && b.owner[c].Held?
  {
    var o := b.owner[c];
    && Folder(b, o.parent) && 2 <= o.slot < SLOTS
    && v.tabs[o.parent][o.slot] != Blank()
    && v.tabs[o.parent][o.slot].cluster < MAP_SIZE
    && c in Chain(v.words, v.tabs[o.parent][o.slot].cluster)
    && (v.words[c] == END_OF_FILE || (c < v.words[c] < MAP_SIZE && b.owner[v.words[c]] == o))
  }

  predicate OwnersOk(v: Volume, b: Book)
    requires Shape(v, b)
  {
    forall c :: 0 <= c < MAP_SIZE && b.owner[c].Held? ==> HeldOk(v, b, c)
  }

  function ParentOf(b: Book, c: nat): nat
    requires c < |b.owner|
  {
    if b.owner[c].Held? then b.owner[c].parent else ROOT_CLUSTER
  }

  predicate Header(e: Item) { e.Live() && e.Folder() && e.ext == NoExt() }

  /** Entry 0 of a directory is the directory itself, entry 1 its parent, one level up. */
  predicate HeadOk(v: Volume, b: Book, c: nat)
    requires Shape(v, b) && c < MAP_SIZE && Folder(b, c)
  {
    var p := ParentOf(b, c);
    var own, up := v.tabs[c][0], v.tabs[c][1];
    && p < MAP_SIZE
    && Header(own) && own.cluster == c
    && Header(up) && up.cluster == p && up.name == v.tabs[p][0].name
    && if c == ROOT_CLUSTER then b.depth[c] == 0 && own.name == RootName()
       else b.depth[c] == b.depth[p] + 1 && b.owner[c].slot < SLOTS && own.name == v.tabs[p][b.owner[c].slot].name
  }

  predicate HeadsOk(v: Volume, b: Book)
    requires Shape(v, b)
  {
    forall c :: 0 <= c < MAP_SIZE && Folder(b, c) ==> HeadOk(v, b, c)
  }

  /** No directory holds two entries of one kind with the same name and extension. */
  predicate NamesOk(v: Volume, b: Book)
    requires Shape(v, b)
  {
    forall d, i, j | 0 <= d < MAP_SIZE && Folder(b, d) && 2 <= i < j < SLOTS ::
      v.tabs[d][i].Live() && v.tabs[d][j].Live() ==> !v.tabs[d][i].Alike(v.tabs[d][j])
  }

  /** The tree, its chains and its book agree. */
  predicate Sound(v: Volume, b: Book) {
    && Shape(v, b)
    && FreeIsUnowned(v, b)
    && EntriesOk(v, b)
    && OwnersOk(v, b)
    && HeadsOk(v, b)
    && NamesOk(v, b)
  }

  /** The cached map is the one on disk, and the disk carries the signature. */
  predicate Coherent(s: Fs) {
    s.disk[FAT_CLUSTER] == FatBytes(s.words[..MAP_SIZE]) && Signed(s.disk)
  }

  predicate Inv(s: Fs, b: Book) { Coherent(s) && Sound(Vol(s), b) }

  /** Some book fits the state. */
  ghost predicate WellFormed(s: Fs) { exists b :: Inv(s, b) }

  /** Every free cluster from 3 up is all zero. */
  predicate Clean(s: Fs) {
    forall c :: 3 <= c < MAP_SIZE && s.words[c] == EMPTY ==> s.disk[c] == ZeroCluster()
  }

  // ---- Consequences ----

  /** Following the map from an owned cluster visits clusters of the same owner only. */
  lemma {:induction false} ChainOwned(v: Volume, b: Book, c: nat)
    requires Shape(v, b) && OwnersOk(v, b) && c < MAP_SIZE && b.owner[c].Held?
    ensures forall x :: x in Chain(v.words, c) ==> b.owner[x] == b.owner[c]
    decreases MAP_SIZE - c
  {
    assert HeldOk(v, b, c);
    if StepsUp(v.words, c) {
      ChainOwned(v, b, v.words[c]);
    }
  }

  /** It ends in END_OF_FILE. */
  lemma ChainEnds(v: Volume, b: Book, c: nat)
    requires Shape(v, b) && OwnersOk(v, b) && c < MAP_SIZE && b.owner[c].Held?
    ensures Linked(v.words, Chain(v.words, c))
  {
    ChainOwned(v, b, c);
    ChainSteps(v.words, c);
    var chain := Chain(v.words, c);
    assert chain[|chain| - 1] in chain;
    assert HeldOk(v, b, chain[|chain| - 1]);
  }

  /** The entry that owns a directory below the root is a directory entry for it, in a
      directory one level up. */
  lemma FolderEntry(v: Volume, b: Book, x: nat)
    requires Sound(v, b) && x < MAP_SIZE && Folder(b, x) && x != ROOT_CLUSTER
    ensures b.owner[x].Held?
    ensures var p, i := b.owner[x].parent, b.owner[x].slot;
      && Folder(b, p) && 2 <= i < SLOTS && b.depth[x] == b.depth[p] + 1
      && v.tabs[p][i].Live() && v.tabs[p][i].Folder() && v.tabs[p][i].cluster == x
  {
    assert HeadOk(v, b, x) && HeldOk(v, b, x);
    var p, i := b.owner[x].parent, b.owner[x].slot;
    assert EntryOk(v, b, p, i);
    var e := v.tabs[p][i];
    ChainOwned(v, b, e.cluster);
    assert Chain(v.words, e.cluster)[0] == e.cluster;
  }
}

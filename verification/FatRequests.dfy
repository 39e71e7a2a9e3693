/** The write and delete requests of the driver keep the invariant, and exactly when. */
module FatRequests {
  import opened Layout
  import opened Disk
  import opened FatState
  import opened Chains
  import opened FatInvariant
  import opened FatLink
  import opened FatUnlink

  /** The parent of a request is a live directory, or at least does not look like one. */
  predicate ParentKnown(s: Fs, b: Book, r: Request) {
    r.parent < DISK_CLUSTERS && (Parent(s, r)[0].Folder() ==> Folder(b, r.parent))
  }

  /** An all-zero name and extension, which every unused slot carries. */
  predicate BlankKey(r: Request) { r.name == Zeros(8) && r.ext == Zeros(3) }

  // ---- Link and Unlink seen on volumes ----

  lemma VolAt(s: Fs, c: nat)
    requires c < MAP_SIZE
    ensures Vol(s).tabs[c] == TableOf(s.disk[c]) && Vol(s).words == s.words
  {
  }

  // ---- Which parents are shut out ----

  /** Cluster c holds a part of a file. */
  predicate FileData(b: Book, c: nat) { c < |b.owner| && b.owner[c].Held? && !b.owner[c].folder }

  lemma MapIsNoFolder(f: seq<word>)
    requires |f| == MAP_SIZE && f[2] == END_OF_FILE
    ensures FatBytes(f)[11] == 0x0F
  {
    var rest := f[1..][1..];
    assert rest[0] == f[2] && FatBytes(f[1..]) == Low(f[1]) + High(f[1]) + FatBytes(rest);
    assert FatBytes(rest)[3] == High(f[2])[1];
  }

  /** The map and the signature do not read as directories. */
  lemma ReservedIsNoFolder(s: Fs, b: Book, c: nat)
    requires Inv(s, b) && c < ROOT_CLUSTER
    ensures !TableOf(s.disk[c])[0].Folder()
  {
    if c == BOOT_SECTOR {
      assert s.disk[c][11] == s.disk[c][..BLOCK_SIZE][11] == Signature()[11] == 0x20;
    } else {
      MapIsNoFolder(s.words[..MAP_SIZE]);
    }
  }

  /** Shut out are a free cluster, a part of a file and a cluster behind the map that read as a
      directory, and nothing else. */
  lemma ParentKnownWhen(s: Fs, b: Book, r: Request)
    requires Inv(s, b) && r.parent < DISK_CLUSTERS
    ensures ParentKnown(s, b, r) <==>
      !(Parent(s, r)[0].Folder() && (r.parent >= MAP_SIZE || s.words[r.parent] == EMPTY || FileData(b, r.parent)))
  {
    if r.parent < ROOT_CLUSTER {
      ReservedIsNoFolder(s, b, r.parent);
    }
  }

  /** On a clean disk a free cluster does not read as one. */
  lemma ParentKnownOnClean(s: Fs, b: Book, r: Request)
    requires Inv(s, b) && Clean(s) && r.parent < DISK_CLUSTERS
    ensures ParentKnown(s, b, r) <==> !(Parent(s, r)[0].Folder() && (r.parent >= MAP_SIZE || FileData(b, r.parent)))
  {
    ParentKnownWhen(s, b, r);
    if r.parent < MAP_SIZE && s.words[r.parent] == EMPTY {
      assert s.disk[r.parent] == ZeroCluster();
    }
  }

  function LinkStep(s: Fs, t: Fs, b: Book, p: nat, k: nat, e: Slot, chain: seq<nat>, part: Cluster): Linkage {
    Linkage(Vol(s), Vol(t), b, p, k, Decode(e), chain, TableOf(part))
  }

  /** What Link does to each word and each cluster. */
  lemma LinkAt(u: Fs, p: nat, k: nat, e: Slot, chain: seq<nat>, parts: seq<Cluster>)
    requires |chain| == |parts| && Ascending(chain) && Within(chain, 3, MAP_SIZE)
    requires 2 <= p < MAP_SIZE && p !in chain && k < SLOTS
    ensures var t := Link(u, p, k, e, chain, parts);
      && Linked(t.words, chain)
      && (forall c :: 0 <= c < WORDS && c !in chain ==> t.words[c] == u.words[c])
      && t.disk[p] == SetSlot(u.disk[p], k, e)
      && t.disk[FAT_CLUSTER] == FatBytes(t.words[..MAP_SIZE])
      && (forall i :: 0 <= i < |chain| ==> t.disk[chain[i]] == parts[i])
      && (forall c :: 0 <= c < DISK_CLUSTERS && c != p && c != FAT_CLUSTER && c !in chain ==> t.disk[c] == u.disk[c])
  {
    ThreadAt(u.words, chain);
    StoreAt(u.disk, chain, parts);
  }

  /** A disk that changed in slot k of p, in the map's own cluster and along a chain only. */
  lemma VolumeStep(s: Fs, t: Fs, p: nat, k: nat, e: Slot, chain: seq<nat>)
    requires p < MAP_SIZE && k < SLOTS
    requires t.disk[p] == SetSlot(s.disk[p], k, e)
    requires forall c :: 0 <= c < MAP_SIZE && c != p && c != FAT_CLUSTER && c !in chain ==> t.disk[c] == s.disk[c]
    ensures Vol(t).tabs[p] == Vol(s).tabs[p][k := Decode(e)]
    ensures forall c :: 0 <= c < MAP_SIZE && c != p && c != FAT_CLUSTER && c !in chain ==> Vol(t).tabs[c] == Vol(s).tabs[c]
  {
    SetSlotTable(s.disk[p], k, e);
  }

  /** Link, started from a state with the same map and disk, does to the volume of s what a
      linking step does. */
  lemma LinkIsDone(s: Fs, u: Fs, b: Book, p: nat, k: nat, e: Slot, chain: seq<nat>, parts: seq<Cluster>)
    requires u.disk == s.disk && u.words[..MAP_SIZE] == s.words[..MAP_SIZE]
    requires |chain| == |parts| > 0 && Ascending(chain) && Within(chain, 3, MAP_SIZE)
    requires 2 <= p < MAP_SIZE && p !in chain && k < SLOTS
    ensures LinkStep(s, Link(u, p, k, e, chain, parts), b, p, k, e, chain, parts[0]).Done()
  {
    var t := Link(u, p, k, e, chain, parts);
    LinkAt(u, p, k, e, chain, parts);
    VolumeStep(s, t, p, k, e, chain);
    forall c | 0 <= c < MAP_SIZE && c !in chain
      ensures t.words[c] == s.words[c]
    {
      assert u.words[c] == u.words[..MAP_SIZE][c] == s.words[..MAP_SIZE][c];
    }
  }

  lemma LinkBounds(m: Linkage)
    requires m.Allowed()
    ensures m.p >= 2 && m.p !in m.chain
  {
    assert !m.b.owner[m.p].Free? && !m.b.owner[m.p].System?;
  }

  lemma LinkIsStep(s: Fs, u: Fs, b: Book, p: nat, k: nat, e: Slot, chain: seq<nat>, parts: seq<Cluster>)
    requires Coherent(s) && u.disk == s.disk && u.words[..MAP_SIZE] == s.words[..MAP_SIZE]
    requires |chain| == |parts| > 0 && Within(chain, 3, MAP_SIZE) && p < MAP_SIZE && k < SLOTS
    requires LinkStep(s, Link(u, p, k, e, chain, parts), b, p, k, e, chain, parts[0]).Allowed()
    ensures LinkStep(s, Link(u, p, k, e, chain, parts), b, p, k, e, chain, parts[0]).Valid()
    ensures Coherent(Link(u, p, k, e, chain, parts))
  {
    LinkBounds(LinkStep(s, Link(u, p, k, e, chain, parts), b, p, k, e, chain, parts[0]));
    LinkIsDone(s, u, b, p, k, e, chain, parts);
    LinkAt(u, p, k, e, chain, parts);
  }

  function UnlinkStep(s: Fs, b: Book, p: nat, k: nat): Unlinkage
    requires p < MAP_SIZE && k < SLOTS
  {
    Unlinkage(Vol(s), Vol(Unlink(s, p, k)), b, p, k, Chain(s.words, TableOf(s.disk[p])[k].cluster))
  }

  /** What Unlink does to each word and each cluster. */
  lemma UnlinkAt(s: Fs, p: nat, k: nat)
    requires 2 <= p < MAP_SIZE && k < SLOTS
    ensures var t, chain := Unlink(s, p, k), Chain(s.words, TableOf(s.disk[p])[k].cluster);
      && (forall c :: 0 <= c < WORDS ==> t.words[c] == if c in chain then EMPTY else s.words[c])
      && t.disk[p] == SetSlot(s.disk[p], k, ZeroSlot())
      && t.disk[FAT_CLUSTER] == FatBytes(t.words[..MAP_SIZE])
      && (forall c :: 0 <= c < DISK_CLUSTERS && c != p && c != FAT_CLUSTER ==>
            t.disk[c] == if c in chain then ZeroCluster() else s.disk[c])
  {
    var chain := Chain(s.words, TableOf(s.disk[p])[k].cluster);
    UnthreadAt(s.words, chain);
    ChainAscends(s.words, TableOf(s.disk[p])[k].cluster);
    StoreAt(s.disk, chain, BlankClusters(|chain|));
  }

  lemma UnlinkIsDone(s: Fs, b: Book, p: nat, k: nat)
    requires 2 <= p < MAP_SIZE && k < SLOTS
    ensures UnlinkStep(s, b, p, k).Done()
  {
    UnlinkAt(s, p, k);
    VolumeStep(s, Unlink(s, p, k), p, k, ZeroSlot(), UnlinkStep(s, b, p, k).chain);
    ZeroIsBlank();
  }

  lemma UnlinkBounds(m: Unlinkage)
    requires m.Allowed()
    ensures m.p >= 2 && BOOT_SECTOR !in m.chain
  {
    ChainIsHeld(m, BOOT_SECTOR);
    assert !m.b.owner[m.p].System?;
  }

  lemma UnlinkCoherent(s: Fs, p: nat, k: nat)
    requires Coherent(s) && 2 <= p < MAP_SIZE && k < SLOTS
    requires BOOT_SECTOR !in Chain(s.words, TableOf(s.disk[p])[k].cluster)
    ensures Coherent(Unlink(s, p, k))
  {
    UnlinkAt(s, p, k);
  }

  lemma UnlinkIsStep(s: Fs, b: Book, p: nat, k: nat)
    requires Coherent(s) && p < MAP_SIZE && k < SLOTS
    requires UnlinkStep(s, b, p, k).Allowed()
    ensures UnlinkStep(s, b, p, k).Valid() && Coherent(Unlink(s, p, k))
  {
    UnlinkBounds(UnlinkStep(s, b, p, k));
    UnlinkIsDone(s, b, p, k);
    UnlinkCoherent(s, p, k);
  }

  // ---- Admission ----

  /** Admitted although the map has too few free clusters. */
  predicate OverAdmits(s: Fs, r: Request)
    requires r.parent < DISK_CLUSTERS
  {
    WriteCode(s, r) == 0 && CountFree(s.words, 0, MAP_SIZE) < Parts(r.size)
  }

  lemma ReservedAreNotFree(s: Fs, b: Book)
    requires Shape(Vol(s), b)
    ensures CountFree(s.words, 0, MAP_SIZE) == CountFree(s.words, 3, MAP_SIZE)
    ensures CountFree(s.words, 3, WORDS) == CountFree(s.words, 0, MAP_SIZE) + if s.words[MAP_SIZE] == EMPTY then 1 else 0
  {
    CountSplit(s.words, 0, 3, MAP_SIZE);
    CountSplit(s.words, 3, MAP_SIZE, WORDS);
    assert s.words[0] != EMPTY && s.words[1] != EMPTY && s.words[2] != EMPTY;
    assert CountFree(s.words, 1, 3) == CountFree(s.words, 2, 3) == CountFree(s.words, 3, 3) == 0;
    assert CountFree(s.words, MAP_SIZE, WORDS) == if s.words[MAP_SIZE] == EMPTY then 1 else 0;
  }

  lemma {:induction false} NoFreeMeansZero(w: seq<word>, i: nat, n: nat)
    requires i <= n <= |w|
    ensures FirstFree(w, i, n) == n <==> CountFree(w, i, n) == 0
    decreases n - i
  {
    if i < n && w[i] != EMPTY {
      NoFreeMeansZero(w, i + 1, n);
    }
  }

  /** The check admits n clusters exactly when n are free, unless the word behind the map is
      zero and the request asks for exactly one cluster too many. */
  lemma AdmissionIsExact(s: Fs, b: Book, n: nat)
    requires Shape(Vol(s), b)
    ensures (CountFree(s.words, 3, WORDS) >= n <==> CountFree(s.words, 0, MAP_SIZE) >= n)
       <==> !(s.words[MAP_SIZE] == EMPTY && n == CountFree(s.words, 0, MAP_SIZE) + 1)
  {
    ReservedAreNotFree(s, b);
  }

  /** A write is over-admitted exactly in that case, for a file of two clusters or more. */
  lemma OverAdmitsWhen(s: Fs, b: Book, r: Request)
    requires Shape(Vol(s), b) && r.parent < DISK_CLUSTERS && WriteCode(s, r) == 0
    ensures OverAdmits(s, r) <==>
      s.words[MAP_SIZE] == EMPTY && Parts(r.size) == CountFree(s.words, 0, MAP_SIZE) + 1
  {
    ReservedAreNotFree(s, b);
    NoFreeMeansZero(s.words, 0, MAP_SIZE);
  }

  // ---- Write ----

  /** The clusters a write claims. */
  function WriteChain(s: Fs, r: Request): seq<nat> {
    if r.size == 0 then [FirstFree(s.words, 0, MAP_SIZE)] else Picks(s.words, 0, Parts(r.size))
  }

  function WriteFirst(s: Fs, r: Request, buf: seq<byte>): Cluster
    requires r.parent < DISK_CLUSTERS && WriteCode(s, r) == 0 && |buf| >= CLUSTER_SIZE * Parts(r.size)
  {
    if r.size == 0 then NewFolder(s, r, FirstFree(s.words, 0, MAP_SIZE)) else buf[..CLUSTER_SIZE]
  }

  lemma FilePicks(w: Words, n: nat)
    requires w[0] != EMPTY && w[1] != EMPTY && w[2] != EMPTY && n <= CountFree(w, 0, MAP_SIZE)
    ensures var chain := Picks(w, 0, n);
      && |chain| == n && Ascending(chain) && Within(chain, 3, MAP_SIZE)
      && forall i :: 0 <= i < |chain| ==> w[chain[i]] == EMPTY
  {
    CountSplit(w, 0, MAP_SIZE, WORDS);
    PicksAll(w, 0, n);
    PicksAreFree(w, 0, n);
    PicksStayInside(w, 0, n);
    var chain := Picks(w, 0, n);
    forall i | 0 <= i < |chain|
      ensures 3 <= chain[i] < MAP_SIZE
    {
      assert w[chain[i]] == EMPTY;
    }
  }

  /** A write that is not over-admitted claims free clusters of the map only. */
  lemma WriteChainIsFree(s: Fs, b: Book, r: Request)
    requires Shape(Vol(s), b)
    requires FirstFree(s.words, 0, MAP_SIZE) < MAP_SIZE && Parts(r.size) <= CountFree(s.words, 0, MAP_SIZE)
    ensures var chain := WriteChain(s, r);
      && |chain| == (if r.size == 0 then 1 else Parts(r.size))
      && Ascending(chain) && Within(chain, 3, MAP_SIZE)
      && forall i :: 0 <= i < |chain| ==> s.words[chain[i]] == EMPTY
  {
    assert s.words[0] != EMPTY && s.words[1] != EMPTY && s.words[2] != EMPTY;
    if r.size != 0 {
      FilePicks(s.words, Parts(r.size));
    }
  }

  /** The linking step of a successful write. */
  function WriteStep(s: Fs, b: Book, r: Request, buf: seq<byte>): Linkage
    requires r.parent < DISK_CLUSTERS && WriteCode(s, r) == 0 && |buf| >= CLUSTER_SIZE * Parts(r.size)
  {
    LinkStep(s, WriteState(s, r, buf), b, r.parent, FindUnused(Parent(s, r), 2),
             NewSlot(s, r), WriteChain(s, r), WriteFirst(s, r, buf))
  }

  predicate CanWrite(s: Fs, b: Book, r: Request, buf: seq<byte>) {
    && Inv(s, b) && ParentKnown(s, b, r) && |buf| >= CLUSTER_SIZE * Parts(r.size)
    && !OverAdmits(s, r)
  }

  lemma WriteFolderFresh(s: Fs, b: Book, r: Request, c: word)
    requires Inv(s, b) && ParentKnown(s, b, r) && Folder(b, r.parent)
    ensures FreshTable(TableOf(NewFolder(s, r, c)), Item(r.name, r.ext, 0, 0, 0, 0, []), c, r.parent,
                       Parent(s, r)[0].name)
  {
    NewTableDecodes(r.name, ParentName(s, r.parent), c, r.parent);
    assert HeadOk(Vol(s), b, ROOT_CLUSTER);
    VolAt(s, ROOT_CLUSTER);
  }

  lemma WriteEntry(s: Fs, r: Request)
    requires r.parent < DISK_CLUSTERS && FindUnused(Parent(s, r), 2) < SLOTS
    ensures var e := Decode(NewSlot(s, r));
      e.name == r.name && e.ext == r.ext && e.attr == RequestAttr(r) && e.Live() && e.size == r.size
      && e.cluster == FirstFree(s.words, 0, MAP_SIZE)
  {
    MakeEntryDecodes(SlotAt(s.disk[r.parent], FindUnused(Parent(s, r), 2)), r.name, r.ext, RequestAttr(r),
                     FirstFree(s.words, 0, MAP_SIZE), r.size);
  }

  /** A write starts its chain at the first free cluster. */
  lemma ChainStartsAtFirstFree(s: Fs, r: Request)
    requires FirstFree(s.words, 0, MAP_SIZE) < MAP_SIZE
    ensures WriteChain(s, r) != [] && WriteChain(s, r)[0] == FirstFree(s.words, 0, MAP_SIZE)
  {
    var i, j := FirstFree(s.words, 0, MAP_SIZE), FirstFree(s.words, 0, WORDS);
    assert s.words[i] == EMPTY && s.words[j] == EMPTY;
  }

  lemma UnusedIsBlank(v: Volume, b: Book, d: nat, i: nat)
    requires Shape(v, b) && EntriesOk(v, b) && d < MAP_SIZE && Folder(b, d) && 2 <= i < SLOTS && !v.tabs[d][i].Live()
    ensures v.tabs[d][i] == Blank()
  {
  }

  lemma WriteSlotIsFree(s: Fs, b: Book, r: Request)
    requires Shape(Vol(s), b) && EntriesOk(Vol(s), b) && ParentKnown(s, b, r) && WriteCode(s, r) == 0
    ensures Folder(b, r.parent) && 2 <= FindUnused(Parent(s, r), 2) < SLOTS
    ensures Parent(s, r)[FindUnused(Parent(s, r), 2)] == Blank() && Vol(s).tabs[r.parent] == Parent(s, r)
    ensures forall j :: 2 <= j < SLOTS ==> !(Parent(s, r)[j].Named(r.name, r.ext) && Parent(s, r)[j].attr == RequestAttr(r))
  {
    VolAt(s, r.parent);
    UnusedIsBlank(Vol(s), b, r.parent, FindUnused(Parent(s, r), 2));
  }

  lemma WriteStepAllowed(s: Fs, b: Book, r: Request, buf: seq<byte>)
    requires CanWrite(s, b, r, buf) && WriteCode(s, r) == 0
    ensures WriteStep(s, b, r, buf).Allowed()
  {
    WriteChainIsFree(s, b, r);
    WriteSlotIsFree(s, b, r);
    ChainStartsAtFirstFree(s, r);
    WriteEntry(s, r);
    var m := WriteStep(s, b, r, buf);
    assert m.v == Vol(s) && m.p == r.parent && m.k == FindUnused(Parent(s, r), 2) && m.chain == WriteChain(s, r);
    assert m.e == Decode(NewSlot(s, r)) && m.e.cluster == m.chain[0] && m.v.tabs[m.p] == Parent(s, r);
    if r.size == 0 {
      WriteFolderFresh(s, b, r, FirstFree(s.words, 0, MAP_SIZE));
    }
  }

  lemma WriteStepValid(s: Fs, b: Book, r: Request, buf: seq<byte>)
    requires CanWrite(s, b, r, buf) && WriteCode(s, r) == 0
    ensures WriteStep(s, b, r, buf).Valid() && Coherent(WriteState(s, r, buf))
  {
    WriteStepAllowed(s, b, r, buf);
    WriteChainIsFree(s, b, r);
    var chain := WriteChain(s, r);
    var e := NewSlot(s, r);
    if r.size == 0 {
      var t := NewFolder(s, r, chain[0]);
      LinkIsStep(s, Buffered(s, t), b, r.parent, FindUnused(Parent(s, r), 2), e, chain, [t]);
    } else {
      LinkIsStep(s, s, b, r.parent, FindUnused(Parent(s, r), 2), e, chain, Split(buf, Parts(r.size)));
    }
  }

  /** The book after a write. */
  function WriteBook(s: Fs, b: Book, r: Request, buf: seq<byte>): Book
    requires CanWrite(s, b, r, buf)
  {
    if WriteCode(s, r) != 0 then b
    else
      WriteStepAllowed(s, b, r, buf);
      WriteStep(s, b, r, buf).After()
  }

  /** A write keeps the invariant. */
  lemma WriteKeepsInv(s: Fs, b: Book, r: Request, buf: seq<byte>)
    requires CanWrite(s, b, r, buf)
    ensures Inv(WriteState(s, r, buf), WriteBook(s, b, r, buf))
  {
    if WriteCode(s, r) == 0 {
      WriteStepValid(s, b, r, buf);
      LinkKeepsSound(WriteStep(s, b, r, buf));
    }
  }

  /** The chain ends in the word behind the map, and its last cluster but one is in the map. */
  predicate PastMap(chain: seq<nat>) {
    && Ascending(chain) && Within(chain, 0, WORDS)
    && |chain| >= 2 && 3 <= chain[|chain| - 2] < MAP_SIZE == chain[|chain| - 1]
  }

  /** With one cluster too many asked for, the word behind the map is picked last, after a cluster of the map. */
  lemma PicksPastMap(w: Words, n: nat)
    requires w[BOOT_SECTOR] != EMPTY && w[FAT_CLUSTER] != EMPTY && w[ROOT_CLUSTER] != EMPTY
    requires 2 <= n <= CountFree(w, 0, WORDS) && CountFree(w, 0, MAP_SIZE) < n
    ensures |Picks(w, 0, n)| == n && PastMap(Picks(w, 0, n))
  {
    PicksAll(w, 0, n);
    PicksAreFree(w, 0, n);
    PicksStayInside(w, 0, n);
    assert w[Picks(w, 0, n)[n - 2]] == EMPTY;
  }

  lemma OverAdmittedCounts(s: Fs, b: Book, r: Request)
    requires Inv(s, b) && r.parent < DISK_CLUSTERS && OverAdmits(s, r)
    ensures 2 <= Parts(r.size) <= CountFree(s.words, 0, WORDS)
    ensures s.words[BOOT_SECTOR] != EMPTY && s.words[FAT_CLUSTER] != EMPTY && s.words[ROOT_CLUSTER] != EMPTY
  {
    NoFreeMeansZero(s.words, 0, MAP_SIZE);
    CountMonotone(s.words, 0, 3);
  }

  lemma OverAdmittedPicks(s: Fs, b: Book, r: Request)
    requires Inv(s, b) && r.parent < DISK_CLUSTERS && OverAdmits(s, r)
    ensures r.size != 0 && PastMap(Picks(s.words, 0, Parts(r.size)))
  {
    OverAdmittedCounts(s, b, r);
    PicksPastMap(s.words, Parts(r.size));
  }

  /** The words after a write of a file. */
  lemma FileWords(s: Fs, r: Request, buf: seq<byte>)
    requires r.parent < DISK_CLUSTERS && |buf| >= CLUSTER_SIZE * Parts(r.size) && WriteCode(s, r) == 0 && r.size != 0
    requires Within(Picks(s.words, 0, Parts(r.size)), 0, WORDS)
    ensures WriteState(s, r, buf).words == Thread(s.words, Picks(s.words, 0, Parts(r.size)))
  {
  }

  lemma LinkBeforeLast(w: Words, chain: seq<nat>)
    requires Ascending(chain) && Within(chain, 0, WORDS) && |chain| >= 2
    ensures Thread(w, chain)[chain[|chain| - 2]] == chain[|chain| - 1]
  {
    ThreadAt(w, chain);
  }

  lemma LinkPastMap(s: Fs, r: Request, buf: seq<byte>) returns (x: nat)
    requires r.parent < DISK_CLUSTERS && |buf| >= CLUSTER_SIZE * Parts(r.size) && WriteCode(s, r) == 0 && r.size != 0
    requires PastMap(Picks(s.words, 0, Parts(r.size)))
    ensures 3 <= x < MAP_SIZE && WriteState(s, r, buf).words[x] == MAP_SIZE
  {
    var chain := Picks(s.words, 0, Parts(r.size));
    x := chain[|chain| - 2];
    FileWords(s, r, buf);
    LinkBeforeLast(s.words, chain);
  }

  /** An over-admitted write links a cluster to the word behind the map. */
  lemma OverAdmittedLink(s: Fs, b: Book, r: Request, buf: seq<byte>) returns (x: nat)
    requires Inv(s, b) && ParentKnown(s, b, r) && |buf| >= CLUSTER_SIZE * Parts(r.size) && OverAdmits(s, r)
    ensures 3 <= x < MAP_SIZE && WriteState(s, r, buf).words[x] == MAP_SIZE
  {
    OverAdmittedPicks(s, b, r);
    x := LinkPastMap(s, r, buf);
  }

  /** In a well-formed state no link leads to the word behind the map. */
  lemma LinksStayInside(t: Fs, a: Book, x: nat)
    requires Inv(t, a) && 3 <= x < MAP_SIZE
    ensures t.words[x] != MAP_SIZE
  {
    if t.words[x] != EMPTY {
      assert HeldOk(Vol(t), a, x);
    }
  }

  /** A write keeps the state well-formed if and only if it is not over-admitted. */
  lemma WriteKeepsExactly(s: Fs, b: Book, r: Request, buf: seq<byte>)
    requires Inv(s, b) && ParentKnown(s, b, r) && |buf| >= CLUSTER_SIZE * Parts(r.size)
    ensures WellFormed(WriteState(s, r, buf)) <==> !OverAdmits(s, r)
  {
    if OverAdmits(s, r) {
      var x := OverAdmittedLink(s, b, r, buf);
      forall a
        ensures !Inv(WriteState(s, r, buf), a)
      {
        if Inv(WriteState(s, r, buf), a) {
          LinksStayInside(WriteState(s, r, buf), a, x);
        }
      }
    } else {
      WriteKeepsInv(s, b, r, buf);
    }
  }
}

/** The driver itself: requests served in place on the cached map and the disk image, each
    proved to do what its value-level description says. */
module FatDriver {
  import opened Layout
  import opened Disk
  import opened FatState
  import opened Chains
  import opened FatInvariant
  import opened FatRequests
  import opened FatRemoval
  import opened FatTree

  const NOT_FOUND: word := 0xFFFF_FFFF

  /** The state is well-formed and the request's parent is a live directory or does not look
      like a directory at all. */
  ghost predicate Accepts(s: Fs, r: Request) { exists b :: Inv(s, b) && ParentKnown(s, b, r) }

  // ---- What the loops of each request lean on ----

  /** A live parent is not a cluster that a request could claim. */
  predicate Apart(s: Fs, r: Request) {
    2 <= r.parent < MAP_SIZE && s.words[r.parent] != EMPTY
    && s.words[0] != EMPTY && s.words[1] != EMPTY && s.words[2] != EMPTY
  }

  predicate WriteReady(s: Fs, r: Request) {
    r.parent < DISK_CLUSTERS && (Parent(s, r)[0].Folder() ==> Apart(s, r))
  }

  lemma WriteIsReady(s: Fs, r: Request)
    requires Accepts(s, r)
    ensures WriteReady(s, r)
  {
    var b :| Inv(s, b) && ParentKnown(s, b, r);
    if Parent(s, r)[0].Folder() {
      assert !b.owner[r.parent].Free? && !b.owner[r.parent].System?;
    }
  }

  predicate ReadDirectoryReady(s: Fs, r: Request) {
    r.parent < DISK_CLUSTERS
    && (Parent(s, r)[0].Folder() ==>
          forall i :: 2 <= i < SLOTS && Parent(s, r)[i].Folder() ==> Parent(s, r)[i].cluster < MAP_SIZE)
  }

  lemma ReadDirectoryIsReady(s: Fs, r: Request)
    requires Accepts(s, r)
    ensures ReadDirectoryReady(s, r)
  {
    var b :| Inv(s, b) && ParentKnown(s, b, r);
    if Parent(s, r)[0].Folder() {
      VolAt(s, r.parent);
      assert EntriesOk(Vol(s), b);
    }
  }

  /** The entry a read or a delete lands on points at a chain that ends inside the map. */
  predicate TargetReady(s: Fs, r: Request) {
    r.parent < DISK_CLUSTERS
    && (Parent(s, r)[0].Folder() && Target(s, r) < SLOTS ==>
          var e := Parent(s, r)[Target(s, r)];
          && 2 <= e.cluster < MAP_SIZE
          && Linked(s.words, Chain(s.words, e.cluster))
          && (if e.Folder() then |Chain(s.words, e.cluster)| == 1 else |Chain(s.words, e.cluster)| == Parts(e.size)))
  }

  /** The headers of a directory are directories of one cluster. */
  lemma HeaderChain(s: Fs, b: Book, d: nat, i: nat)
    requires Inv(s, b) && d < MAP_SIZE && Folder(b, d) && i < 2
    ensures var e := TableOf(s.disk[d])[i];
      && e.Folder() && 2 <= e.cluster < MAP_SIZE
      && |Chain(s.words, e.cluster)| == 1 && Linked(s.words, Chain(s.words, e.cluster))
  {
    VolAt(s, d);
    assert HeadOk(Vol(s), b, d);
    assert b.owner[d].Held? ==> HeldOk(Vol(s), b, d);
    var c := TableOf(s.disk[d])[i].cluster;
    FolderIsItsChain(s, b, c);
    if c != ROOT_CLUSTER {
      FolderEntry(Vol(s), b, c);
      ChainEnds(Vol(s), b, c);
    }
  }

  lemma TargetIsReady(s: Fs, r: Request)
    requires Accepts(s, r) && FindsUsed(s, r)
    ensures TargetReady(s, r)
  {
    var b :| Inv(s, b) && ParentKnown(s, b, r);
    var i := Target(s, r);
    if Parent(s, r)[0].Folder() && i < SLOTS {
      if i >= 2 {
        TargetIsLive(s, b, r);
        ChainEnds(Vol(s), b, Parent(s, r)[i].cluster);
      } else {
        HeaderChain(s, b, r.parent, i);
      }
    }
  }

  /** Following the map from c, n links lead to a word that ends the file, all on the map. */
  predicate EndsIn(w: Words, c: nat, n: nat)
    decreases n
  {
    c < MAP_SIZE && if n == 0 then w[c] == END_OF_FILE else w[c] != END_OF_FILE && EndsIn(w, w[c], n - 1)
  }

  /** A chain loop that starts at c ends without leaving the map. */
  ghost predicate LoopEnds(w: Words, c: nat) { exists n :: EndsIn(w, c, n) }

  lemma LeavesTheMap(w: Words, c: nat)
    requires c < MAP_SIZE <= w[c] != END_OF_FILE
    ensures !LoopEnds(w, c)
  {
    forall n: nat
      ensures !EndsIn(w, c, n)
    {
      assert n > 0 ==> !EndsIn(w, w[c], n - 1);
    }
  }

  lemma {:induction false} LinkedEnds(w: Words, c: nat)
    requires c < MAP_SIZE && Linked(w, Chain(w, c))
    ensures EndsIn(w, c, |Chain(w, c)| - 1)
    decreases MAP_SIZE - c
  {
    var chain := Chain(w, c);
    assert w[chain[0]] == if 1 == |chain| then END_OF_FILE else chain[1];
    if |chain| > 1 {
      var rest := chain[1..];
      assert rest == Chain(w, w[c]);
      forall i | 0 <= i < |rest|
        ensures w[rest[i]] == if i + 1 == |rest| then END_OF_FILE else rest[i + 1]
      {
        assert w[chain[i + 1]] == if i + 2 == |chain| then END_OF_FILE else chain[i + 2];
      }
      LinkedEnds(w, w[c]);
    }
  }

  /** The chain loops of read and delete end on the map if and only if what the request finds is
      an entry in use. An unused one has cluster number 0, and word 0 holds CLUSTER_0_VALUE, which
      is neither an end nor an index of the map. */
  lemma TargetReadyExactly(s: Fs, b: Book, r: Request)
    requires Inv(s, b) && r.parent < MAP_SIZE && Folder(b, r.parent)
    ensures (Target(s, r) < SLOTS ==> LoopEnds(s.words, Parent(s, r)[Target(s, r)].cluster)) <==> FindsUsed(s, r)
    ensures TargetReady(s, r) <==> FindsUsed(s, r)
  {
    var i := Target(s, r);
    VolAt(s, r.parent);
    assert HeadOk(Vol(s), b, r.parent);
    if i < SLOTS {
      var c := Parent(s, r)[i].cluster;
      if i < 2 {
        HeaderChain(s, b, r.parent, i);
        LinkedEnds(s.words, c);
      } else if Parent(s, r)[i].Live() {
        TargetIsLive(s, b, r);
        ChainEnds(Vol(s), b, c);
        LinkedEnds(s.words, c);
      } else {
        UnusedIsBlank(Vol(s), b, r.parent, i);
        LeavesTheMap(s.words, BOOT_SECTOR);
      }
    }
  }

  // ---- Directory entries in memory ----

  /** t with the bytes from `at` on overwritten by src. */
  function Splice(t: seq<byte>, at: nat, src: seq<byte>): (r: seq<byte>)
    requires at + |src| <= |t|
    ensures |r| == |t|
    ensures forall k :: 0 <= k < |t| ==> r[k] == if at <= k < at + |src| then src[k - at] else t[k]
  {
    t[..at] + src + t[at + |src|..]
  }

  /** memcpy from a value. */
  method Put(dst: array<byte>, at: nat, src: seq<byte>)
    requires at + |src| <= dst.Length
    modifies dst
    ensures dst[..] == Splice(old(dst[..]), at, src)
  {
    var i := 0;
    while i < |src|
      invariant i <= |src|
      invariant dst[..] == Splice(old(dst[..]), at, src[..i])
    {
      dst[at + i] := src[i];
      i := i + 1;
    }
  }

  lemma InnerSlice(t: Cluster, i: nat)
    requires i < SLOTS
    ensures SlotAt(t, i)[13..20] == t[32 * i + 13..32 * i + 20]
  {
  }

  lemma FourPieces(f: seq<byte>, at: nat)
    requires at + 20 <= |f|
    ensures f[at..at + 20] == f[at..at + 8] + f[at + 8..at + 11] + f[at + 11..at + 13] + f[at + 13..at + 20]
  {
    RunMore(f, at, at + 8, at + 11);
    RunMore(f, at, at + 11, at + 13);
    RunMore(f, at, at + 13, at + 20);
  }

  /** The first twenty bytes of slot i after its first fields are overwritten. */
  lemma FrontFields(t: Cluster, i: nat, name: Name, ext: Ext, flags: seq<byte>)
    requires i < SLOTS && |flags| == 2
    ensures var f := Splice(Splice(Splice(t, 32 * i, name), 32 * i + 8, ext), 32 * i + 11, flags);
      && f[32 * i..32 * i + 20] == name + ext + flags + SlotAt(t, i)[13..20]
      && f[..32 * i] == t[..32 * i] && f[32 * i + 20..] == t[32 * i + 20..]
  {
    var at := 32 * i;
    var f := Splice(Splice(Splice(t, at, name), at + 8, ext), at + 11, flags);
    assert f[at..at + 8] == name && f[at + 8..at + 11] == ext && f[at + 11..at + 13] == flags;
    assert f[at + 13..at + 20] == t[at + 13..at + 20];
    InnerSlice(t, i);
    FourPieces(f, at);
  }

  /** The last twelve bytes of an entry after the cluster number and the size are overwritten. */
  lemma BackFields(f: seq<byte>, at: nat, high: seq<byte>, low: seq<byte>, size: seq<byte>)
    requires at + 32 <= |f| && |high| == |low| == 2 && |size| == 4
    ensures var r := Splice(Splice(Splice(f, at + 26, low), at + 20, high), at + 28, size);
      && r[at + 20..at + 32] == high + f[at + 22..at + 26] + low + size
      && r[..at + 20] == f[..at + 20] && r[at + 32..] == f[at + 32..]
  {
    var r := Splice(Splice(Splice(f, at + 26, low), at + 20, high), at + 28, size);
    assert r[at + 20..at + 22] == high && r[at + 22..at + 26] == f[at + 22..at + 26];
    assert r[at + 26..at + 28] == low && r[at + 28..at + 32] == size;
    assert r[at + 20..at + 32] == r[at + 20..at + 22] + r[at + 22..at + 26] + r[at + 26..at + 28] + r[at + 28..at + 32];
  }

  lemma TimesStay(t: Cluster, i: nat, f: seq<byte>)
    requires i < SLOTS && |f| == |t| && f[32 * i + 20..] == t[32 * i + 20..]
    ensures f[32 * i + 22..32 * i + 26] == SlotAt(t, i)[22..26]
  {
    assert f[32 * i + 22..32 * i + 26] == f[32 * i + 20..][2..6];
    assert t[32 * i + 20..][2..6] == t[32 * i + 22..32 * i + 26] == SlotAt(t, i)[22..26];
  }

  lemma Assemble(t: seq<byte>, at: nat, f: seq<byte>, r: seq<byte>, front: seq<byte>, back: seq<byte>)
    requires at + 32 <= |t| == |f| == |r|
    requires f[..at] == t[..at] && f[at..at + 20] == front && f[at + 20..] == t[at + 20..]
    requires r[..at + 20] == f[..at + 20] && r[at + 20..at + 32] == back && r[at + 32..] == f[at + 32..]
    ensures r == t[..at] + (front + back) + t[at + 32..]
  {
    assert r[..at] == r[..at + 20][..at] == f[..at + 20][..at] == t[..at];
    assert r[at..at + 20] == r[..at + 20][at..] == f[..at + 20][at..] == front;
    assert r[at + 32..] == f[at + 20..][12..] == t[at + 20..][12..] == t[at + 32..];
    assert r == r[..at] + (r[at..at + 20] + r[at + 20..at + 32]) + r[at + 32..];
  }

  /** Overwriting the fields of slot i one by one replaces the slot by a made entry. */
  lemma FieldsMakeEntry(t: Cluster, i: nat, name: Name, ext: Ext, attr: byte, cluster: word, size: word)
    requires i < SLOTS
    ensures var front := Splice(Splice(Splice(t, 32 * i, name), 32 * i + 8, ext), 32 * i + 11, [attr, UATTR_NOT_EMPTY]);
      Splice(Splice(Splice(front, 32 * i + 26, Low(cluster)), 32 * i + 20, High(cluster)), 32 * i + 28, Low(size) + High(size))
      == SetSlot(t, i, MakeEntry(SlotAt(t, i), name, ext, attr, cluster, size))
  {
    var at := 32 * i;
    var f := Splice(Splice(Splice(t, at, name), at + 8, ext), at + 11, [attr, UATTR_NOT_EMPTY]);
    var r := Splice(Splice(Splice(f, at + 26, Low(cluster)), at + 20, High(cluster)), at + 28, Low(size) + High(size));
    var front := name + ext + [attr, UATTR_NOT_EMPTY] + SlotAt(t, i)[13..20];
    FrontFields(t, i, name, ext, [attr, UATTR_NOT_EMPTY]);
    BackFields(f, at, High(cluster), Low(cluster), Low(size) + High(size));
    TimesStay(t, i, f);
    Assemble(t, at, f, r, front, High(cluster) + SlotAt(t, i)[22..26] + Low(cluster) + (Low(size) + High(size)));
  }

  lemma SpliceIsSetSlot(t: Cluster, i: nat, e: Slot)
    requires i < SLOTS
    ensures Splice(t, 32 * i, e) == SetSlot(t, i, e)
  {
  }

  /** init_directory_entry, on slot i of a table in memory. */
  method InitDirectoryEntry(table: array<byte>, i: nat, name: Name, ext: Ext, attr: byte, cluster: word, size: word)
    requires table.Length == CLUSTER_SIZE && i < SLOTS
    modifies table
    ensures table[..] == SetSlot(old(table[..]), i, MakeEntry(SlotAt(old(table[..]), i), name, ext, attr, cluster, size))
  {
    FieldsMakeEntry(table[..], i, name, ext, attr, cluster, size);
    Put(table, 32 * i, name);
    Put(table, 32 * i + 8, ext);
    Put(table, 32 * i + 11, [attr, UATTR_NOT_EMPTY]);
    Put(table, 32 * i + 26, Low(cluster));
    Put(table, 32 * i + 20, High(cluster));
    Put(table, 32 * i + 28, Low(size) + High(size));
  }

  function DirName(s: Fs, c: nat): Name
    requires c < MAP_SIZE
  {
    TableOf(s.disk[c])[0].name
  }

  function PathNames(s: Fs, path: seq<nat>): (names: seq<Name>)
    requires Within(path, 0, MAP_SIZE)
    ensures |names| == |path|
  {
    seq(|path|, k requires 0 <= k < |path| => DirName(s, path[k]))
  }

  /** The headers of the k-th directory of a path name itself and the next one up. */
  predicate HeaderLeads(s: Fs, path: seq<nat>, k: nat)
    requires k < |path| && Within(path, 0, MAP_SIZE)
  {
    var t := TableOf(s.disk[path[k]]);
    && t[0].cluster == path[k] && (path[k] == ROOT_CLUSTER <==> k + 1 == |path|)
    && (k + 1 < |path| ==> t[1].cluster == path[k + 1])
  }

  predicate HeadersLead(s: Fs, path: seq<nat>) {
    0 < |path| <= MAP_SIZE - 2 && Within(path, 0, MAP_SIZE)
    && forall k :: 0 <= k < |path| ==> HeaderLeads(s, path, k)
  }

  lemma HeaderStep(s: Fs, path: seq<nat>, k: nat)
    requires HeadersLead(s, path) && k < |path|
    ensures TableOf(s.disk[path[k]])[0].cluster % 65536 == path[k] && (path[k] == ROOT_CLUSTER <==> k + 1 == |path|)
    ensures k + 1 < |path| ==> TableOf(s.disk[path[k]])[1].cluster % 65536 == path[k + 1]
  {
    assert HeaderLeads(s, path, k);
  }

  lemma HeaderLeadsAt(s: Fs, b: Book, c: nat, k: nat)
    requires Inv(s, b) && Folder(b, c) && k < |Path(b, c)| && Within(Path(b, c), 0, MAP_SIZE)
    ensures HeaderLeads(s, Path(b, c), k)
  {
    PathByHeaders(Vol(s), b, c, k);
    VolAt(s, Path(b, c)[k]);
  }

  /** In a well-formed state the headers on disk lead from every live directory to the root, in
      at most 510 steps. */
  lemma HeadersLeadToRoot(s: Fs, b: Book, c: nat)
    requires Inv(s, b) && Folder(b, c)
    ensures HeadersLead(s, Path(b, c)) && Path(b, c)[0] == c
  {
    PathIsShort(Vol(s), b, c);
    PathClimbs(Vol(s), b, c);
    forall k | 0 <= k < |Path(b, c)|
      ensures Path(b, c)[k] < MAP_SIZE && HeaderLeads(s, Path(b, c), k)
    {
      HeaderLeadsAt(s, b, c, k);
    }
  }

  lemma {:induction false} FatWordsAt(b: seq<byte>, k: nat)
    requires 4 * k + 4 <= |b|
    ensures FatWords(b)[k] == WordAt(b, 4 * k)
  {
    if k > 0 {
      FatWordsAt(b[4..], k - 1);
    }
  }

  lemma FirstFreeIsRoot(w: seq<word>)
    requires |w| == WORDS && w[0] != EMPTY && w[1] != EMPTY && w[2] == EMPTY
    ensures FirstFree(w, 0, MAP_SIZE) == ROOT_CLUSTER
  {
    assert FirstFree(w, 1, MAP_SIZE) == FirstFree(w, 2, MAP_SIZE) == 2;
  }

  lemma PartsMonotone(m: nat, n: nat)
    requires m <= n
    ensures Parts(m) <= Parts(n)
  {
  }

  lemma {:induction false} ContentsSnoc(d: Clusters, chain: seq<nat>, j: nat)
    requires Within(chain, 0, DISK_CLUSTERS) && j < |chain|
    ensures Contents(d, chain[..j + 1]) == Contents(d, chain[..j]) + d[chain[j]]
  {
    if j == 0 {
      assert chain[..1] == [chain[0]] && chain[..0] == [] && chain[..1][1..] == [];
    } else {
      ContentsSnoc(d, chain[1..], j - 1);
      assert chain[..j + 1][1..] == chain[1..][..j] && chain[..j][1..] == chain[1..][..j - 1];
    }
  }

  /** The buffer when j clusters of the chain are copied over b. */
  predicate Copied(d: Clusters, chain: seq<nat>, j: nat, cluster: nat, at: nat, b: seq<byte>, now: seq<byte>)
    requires Within(chain, 0, DISK_CLUSTERS)
  {
    && j <= |chain| && at == CLUSTER_SIZE * j <= |b| && cluster == (if j < |chain| then chain[j] else END_OF_FILE)
    && now == Contents(d, chain[..j]) + b[at..]
  }

  lemma AllCopied(d: Clusters, chain: seq<nat>, j: nat, at: nat, b: seq<byte>, now: seq<byte>)
    requires Within(chain, 0, MAP_SIZE) && Copied(d, chain, j, END_OF_FILE, at, b, now)
    ensures CLUSTER_SIZE * |chain| <= |b| && now == Contents(d, chain) + b[CLUSTER_SIZE * |chain|..]
  {
    assert j == |chain| && chain[..j] == chain;
  }

  // ---- The chain loop of delete ----

  predicate Freed(w: Words, v: seq<word>, chain: seq<nat>, n: nat)
    requires n <= |chain|
  {
    |v| == WORDS && forall c :: 0 <= c < WORDS ==> v[c] == if c in chain[..n] then EMPTY else w[c]
  }

  predicate Wiped(d: Clusters, e: Clusters, chain: seq<nat>, n: nat)
    requires n <= |chain|
  {
    forall c :: 0 <= c < DISK_CLUSTERS ==> e[c] == if c in chain[..n] then ZeroCluster() else d[c]
  }

  /** The link of the next cluster is still there. */
  lemma FreedAhead(w: Words, v: seq<word>, chain: seq<nat>, n: nat)
    requires n < |chain| && Ascending(chain) && Within(chain, 0, MAP_SIZE) && Linked(w, chain) && Freed(w, v, chain, n)
    ensures v[chain[n]] == w[chain[n]] == if n + 1 == |chain| then END_OF_FILE else chain[n + 1]
  {
    assert chain[n] !in chain[..n];
  }

  lemma FreedStep(w: Words, v: seq<word>, chain: seq<nat>, n: nat)
    requires n < |chain| && Within(chain, 0, MAP_SIZE) && Freed(w, v, chain, n)
    ensures Freed(w, v[chain[n] := EMPTY], chain, n + 1)
  {
    assert chain[..n + 1] == chain[..n] + [chain[n]];
  }

  lemma WipedStep(d: Clusters, e: Clusters, chain: seq<nat>, n: nat)
    requires n < |chain| && Within(chain, 0, MAP_SIZE) && Wiped(d, e, chain, n)
    ensures Wiped(d, e[chain[n] := ZeroCluster()], chain, n + 1)
  {
    assert chain[..n + 1] == chain[..n] + [chain[n]];
  }

  lemma AllFreed(w: Words, v: seq<word>, d: Clusters, e: Clusters, chain: seq<nat>)
    requires Ascending(chain) && Within(chain, 0, MAP_SIZE)
    requires Freed(w, v, chain, |chain|) && Wiped(d, e, chain, |chain|)
    ensures v == Unthread(w, chain) && e == Store(d, chain, BlankClusters(|chain|))
  {
    assert chain[..|chain|] == chain;
    UnthreadAt(w, chain);
    StoreAt(d, chain, BlankClusters(|chain|));
    forall c | 0 <= c < DISK_CLUSTERS
      ensures e[c] == Store(d, chain, BlankClusters(|chain|))[c]
    {
      if c in chain {
        var i :| 0 <= i < |chain| && chain[i] == c;
        assert Store(d, chain, BlankClusters(|chain|))[chain[i]] == ZeroCluster();
      }
    }
  }

  lemma LastFreed(w: Words, v: seq<word>, d: Clusters, e: Clusters, chain: seq<nat>)
    requires Ascending(chain) && Within(chain, 0, MAP_SIZE) && chain != []
    requires Freed(w, v, chain, |chain| - 1) && Wiped(d, e, chain, |chain| - 1)
    ensures v[chain[|chain| - 1] := EMPTY] == Unthread(w, chain)
    ensures e[chain[|chain| - 1] := ZeroCluster()] == Store(d, chain, BlankClusters(|chain|))
  {
    FreedStep(w, v, chain, |chain| - 1);
    WipedStep(d, e, chain, |chain| - 1);
    AllFreed(w, v[chain[|chain| - 1] := EMPTY], d, e[chain[|chain| - 1] := ZeroCluster()], chain);
  }

  lemma FirstIsFirst(s: Fs, r: Request)
    requires r.parent < DISK_CLUSTERS && r.size != 0 && WriteCode(s, r) == 0
    ensures FirstFree(s.words, 0, WORDS) == FirstFree(s.words, 0, MAP_SIZE) && CountFree(s.words, 0, WORDS) >= Parts(r.size) > 0
  {
    CountMonotone(s.words, 0, 3);
    var i, j := FirstFree(s.words, 0, MAP_SIZE), FirstFree(s.words, 0, WORDS);
    assert s.words[i] == EMPTY && s.words[j] == EMPTY;
  }

  lemma {:induction false} StoreCommutes(d: Clusters, chain: seq<nat>, parts: seq<Cluster>, p: nat, t: Cluster)
    requires |chain| == |parts| && Within(chain, 0, DISK_CLUSTERS) && p < DISK_CLUSTERS
    requires forall i :: 0 <= i < |chain| ==> chain[i] != p
    ensures Store(d[p := t], chain, parts) == Store(d, chain, parts)[p := t]
  {
    if chain != [] {
      StoreCommutes(d, chain[1..], parts[1..], p, t);
    }
  }

  /** The writes of the file branch, in the driver's order, make the file state. */
  lemma FileStored(s: Fs, r: Request, buf: seq<byte>, k: nat, e: Slot, chain: seq<nat>, w: Words, d: Clusters)
    requires Apart(s, r) && r.size != 0 && WriteCode(s, r) == 0 && |buf| >= CLUSTER_SIZE * Parts(r.size)
    requires k < SLOTS && k == FindUnused(Parent(s, r), 2) && e == NewSlot(s, r)
    requires chain == Picks(s.words, 0, Parts(r.size)) && |chain| == Parts(r.size)
    requires w == Thread(s.words, chain)
    requires d == Store(s.disk[r.parent := SetSlot(s.disk[r.parent], k, e)], chain, Split(buf, Parts(r.size)))
                    [FAT_CLUSTER := FatBytes(w[..MAP_SIZE])]
    ensures Fs(w, d) == WriteFileState(s, r, buf)
  {
    PicksAreFree(s.words, 0, Parts(r.size));
    StoreCommutes(s.disk, chain, Split(buf, Parts(r.size)), r.parent, SetSlot(s.disk[r.parent], k, e));
  }

  /** The state after the writes of the folder branch, in the driver's order: table f goes into
      cluster c, entry e into slot k of directory p. */
  function FolderAfter(s: Fs, p: nat, k: nat, c: nat, f: Cluster, e: Slot): Fs
    requires p < MAP_SIZE && k < SLOTS && c < MAP_SIZE
  {
    var w := s.words[MAP_SIZE := WordAt(f, 0)][c := END_OF_FILE];
    Fs(w, s.disk[FAT_CLUSTER := FatBytes(w[..MAP_SIZE])][c := f][p := SetSlot(s.disk[p], k, e)])
  }

  lemma OneClusterLink(u: Fs, p: nat, k: nat, e: Slot, c: nat, f: Cluster)
    requires 2 <= p < MAP_SIZE && k < SLOTS && 3 <= c < MAP_SIZE && p != c
    ensures var t := Link(u, p, k, e, [c], [f]);
      && t.words == u.words[c := END_OF_FILE]
      && t.disk == u.disk[FAT_CLUSTER := FatBytes(t.words[..MAP_SIZE])][c := f][p := SetSlot(u.disk[p], k, e)]
  {
    assert [c][1..] == [] && [f][1..] == [];
    assert Thread(u.words, [c]) == Thread(u.words, [])[c := END_OF_FILE];
    assert Store(u.disk, [c], [f]) == Store(u.disk, [], [])[c := f];
  }

  /** The folder branch's writes make the folder state. */
  lemma FolderStored(s: Fs, r: Request, k: nat, c: nat)
    requires Apart(s, r) && r.size == 0 && WriteCode(s, r) == 0
    requires k == FindUnused(Parent(s, r), 2) && c == FirstFree(s.words, 0, MAP_SIZE)
    ensures k < SLOTS && c < MAP_SIZE
    ensures FolderAfter(s, r.parent, k, c, NewFolder(s, r, c), NewSlot(s, r)) == WriteFolderState(s, r)
  {
    OneClusterLink(Buffered(s, NewFolder(s, r, c)), r.parent, k, NewSlot(s, r), c, NewFolder(s, r, c));
  }

  // ---- The partition loop ----

  /** The first n clusters of the chain are linked, the rest of the map is untouched. */
  predicate Threaded(w: Words, v: seq<word>, chain: seq<nat>, n: nat)
    requires n < |chain| && Within(chain, 0, WORDS)
  {
    |v| == WORDS
    && (forall i {:trigger v[chain[i]]} :: 0 <= i < n ==> v[chain[i]] == chain[i + 1])
    && (forall c :: 0 <= c < WORDS && c !in chain[..n] ==> v[c] == w[c])
  }

  /** The first n clusters of the chain hold their parts, the rest of the disk is untouched. */
  predicate Stored(d: Clusters, e: Clusters, chain: seq<nat>, parts: seq<Cluster>, n: nat)
    requires n <= |chain| == |parts| && Within(chain, 0, WORDS)
  {
    (forall i {:trigger e[chain[i]]} :: 0 <= i < n ==> e[chain[i]] == parts[i])
    && (forall c :: 0 <= c < DISK_CLUSTERS && c !in chain[..n] ==> e[c] == d[c])
  }

  lemma ThreadedStep(w: Words, v: seq<word>, chain: seq<nat>, n: nat)
    requires n + 1 < |chain| && Ascending(chain) && Within(chain, 0, WORDS) && Threaded(w, v, chain, n)
    ensures Threaded(w, v[chain[n] := chain[n + 1]], chain, n + 1)
  {
    assert chain[..n + 1] == chain[..n] + [chain[n]];
  }

  lemma {:induction false} FirstFreeFrame(w: seq<word>, v: seq<word>, i: nat)
    requires |w| == |v| && i <= |w| && forall c :: i <= c < |w| ==> v[c] == w[c]
    ensures FirstFree(v, i, |w|) == FirstFree(w, i, |w|)
    decreases |w| - i
  {
    if i < |w| {
      FirstFreeFrame(w, v, i + 1);
    }
  }

  /** Above the clusters linked so far the map still reads as before. */
  lemma ThreadedAbove(w: Words, v: seq<word>, chain: seq<nat>, n: nat)
    requires n + 1 < |chain| && Ascending(chain) && Within(chain, 0, WORDS) && Threaded(w, v, chain, n)
    ensures FirstFree(v, chain[n] + 1, WORDS) == FirstFree(w, chain[n] + 1, WORDS)
  {
    forall c | chain[n] < c < WORDS
      ensures v[c] == w[c]
    {
      assert c !in chain[..n];
    }
    FirstFreeFrame(w, v, chain[n] + 1);
  }

  lemma LastThreaded(w: Words, v: seq<word>, chain: seq<nat>)
    requires chain != [] && Ascending(chain) && Within(chain, 0, WORDS) && Threaded(w, v, chain, |chain| - 1)
    ensures v[chain[|chain| - 1] := END_OF_FILE] == Thread(w, chain)
  {
    ThreadAt(w, chain);
    var t, u, last := Thread(w, chain), v[chain[|chain| - 1] := END_OF_FILE], chain[|chain| - 1];
    assert chain == chain[..|chain| - 1] + [last];
    forall c | 0 <= c < WORDS
      ensures u[c] == t[c]
    {
      if c in chain {
        var i :| 0 <= i < |chain| && chain[i] == c;
        assert t[chain[i]] == if i + 1 == |chain| then END_OF_FILE else chain[i + 1];
        if i + 1 < |chain| {
          assert v[chain[i]] == chain[i + 1];
        }
      }
    }
  }

  lemma StoredStep(d: Clusters, e: Clusters, chain: seq<nat>, parts: seq<Cluster>, n: nat)
    requires n < |chain| == |parts| && Ascending(chain) && Within(chain, 0, WORDS) && Stored(d, e, chain, parts, n)
    ensures Stored(d, e[chain[n] := parts[n]], chain, parts, n + 1)
  {
    assert chain[..n + 1] == chain[..n] + [chain[n]];
  }

  lemma PartAt(buf: seq<byte>, n: nat, j: nat)
    requires |buf| >= CLUSTER_SIZE * n && j < n
    ensures CLUSTER_SIZE * j + CLUSTER_SIZE <= |buf|
    ensures Split(buf, n)[j] == buf[CLUSTER_SIZE * j..CLUSTER_SIZE * j + CLUSTER_SIZE]
  {
    SplitAt(buf, n, j);
  }

  lemma AllStored(d: Clusters, e: Clusters, chain: seq<nat>, parts: seq<Cluster>)
    requires |chain| == |parts| && Ascending(chain) && Within(chain, 0, WORDS)
    requires Stored(d, e, chain, parts, |chain|)
    ensures e == Store(d, chain, parts)
  {
    assert chain[..|chain|] == chain;
    StoreAt(d, chain, parts);
    forall c | 0 <= c < DISK_CLUSTERS
      ensures e[c] == Store(d, chain, parts)[c]
    {
      if c in chain {
        var i :| 0 <= i < |chain| && chain[i] == c;
        assert e[chain[i]] == parts[i];
      }
    }
  }

  /** The next pick is the first free word behind this one. */
  lemma {:induction false} NextPick(w: Words, i: nat, n: nat, k: nat)
    requires i <= WORDS && k + 1 < |Picks(w, i, n)|
    ensures var chain := Picks(w, i, n);
      chain[k] < chain[k + 1] == FirstFree(w, chain[k] + 1, WORDS) < WORDS
    decreases n
  {
    var j := FirstFree(w, i, WORDS);
    if k > 0 {
      NextPick(w, j + 1, n - 1, k - 1);
    }
  }

  /** The chain a file of n clusters gets. */
  predicate Picked(w: Words, chain: seq<nat>, n: nat) {
    chain == Picks(w, 0, n) && |chain| == n && Ascending(chain) && Within(chain, 0, WORDS)
  }

  lemma PicksArePicked(w: Words, n: nat)
    requires CountFree(w, 0, WORDS) >= n > 0
    ensures Picked(w, Picks(w, 0, n), n) && Picks(w, 0, n)[0] == FirstFree(w, 0, WORDS)
  {
    PicksAll(w, 0, n);
    PicksAreFree(w, 0, n);
  }

  /** One round of the loop: the next free word is the next pick, and the part is stored and
      linked to it. */
  lemma PartStep(w: Words, v: seq<word>, d: Clusters, e: Clusters, chain: seq<nat>, buf: seq<byte>, n: nat, j: nat)
    requires Picked(w, chain, n) && j + 1 < n && |buf| >= CLUSTER_SIZE * n
    requires Threaded(w, v, chain, j) && Stored(d, e, chain, Split(buf, n), j)
    ensures FirstFree(v, chain[j] + 1, WORDS) == chain[j + 1] < WORDS && CLUSTER_SIZE * j + CLUSTER_SIZE <= |buf|
    ensures Threaded(w, v[chain[j] := chain[j + 1]], chain, j + 1)
    ensures Stored(d, e[chain[j] := buf[CLUSTER_SIZE * j..CLUSTER_SIZE * j + CLUSTER_SIZE]], chain, Split(buf, n), j + 1)
  {
    NextPick(w, 0, n, j);
    ThreadedAbove(w, v, chain, j);
    PartAt(buf, n, j);
    ThreadedStep(w, v, chain, j);
    StoredStep(d, e, chain, Split(buf, n), j);
  }

  /** The last part, which ends the file. */
  lemma LastPart(w: Words, v: seq<word>, d: Clusters, e: Clusters, chain: seq<nat>, buf: seq<byte>, n: nat)
    requires Picked(w, chain, n) && n > 0 && |buf| >= CLUSTER_SIZE * n
    requires Threaded(w, v, chain, n - 1) && Stored(d, e, chain, Split(buf, n), n - 1)
    ensures CLUSTER_SIZE * (n - 1) + CLUSTER_SIZE <= |buf| && chain[n - 1] < WORDS
    ensures v[chain[n - 1] := END_OF_FILE] == Thread(w, chain)
    ensures e[chain[n - 1] := buf[CLUSTER_SIZE * (n - 1)..CLUSTER_SIZE * (n - 1) + CLUSTER_SIZE]] == Store(d, chain, Split(buf, n))
  {
    PartAt(buf, n, n - 1);
    LastThreaded(w, v, chain);
    StoredStep(d, e, chain, Split(buf, n), n - 1);
    AllStored(d, e[chain[n - 1] := Split(buf, n)[n - 1]], chain, Split(buf, n));
  }

  /** The low half of a cluster number, and the name beside it. */
  lemma LowHalf(t: Cluster, i: nat)
    requires i < SLOTS
    ensures HalfAt(SlotAt(t, i), 26) == TableOf(t)[i].cluster % 65536 && SlotAt(t, i)[..8] == TableOf(t)[i].name
  {
    var e := SlotAt(t, i);
    assert HalfAt(e, 26) < 65536 && TableOf(t)[i] == Decode(e);
  }

  /** A cluster number of the map is its low half. */
  lemma SmallIsLowHalf(t: Cluster, i: nat)
    requires i < SLOTS && TableOf(t)[i].cluster < 65536
    ensures HalfAt(SlotAt(t, i), 26) == TableOf(t)[i].cluster
  {
    LowHalf(t, i);
  }

  class Driver {
    const device: BlockDevice
    /** The packed driver state from its start: the cluster map, then the first word of
        dir_table_buf. */
    const words: array<word>

    ghost predicate Valid() {
      device.Valid() && words.Length == WORDS && words as object != device.image as object
    }

    ghost function State(): Fs
      requires Valid()
      reads words, device.image
    {
      Fs(words[..], device.View())
    }

    constructor (device: BlockDevice)
      requires device.Valid()
      ensures Valid() && fresh(words) && this.device == device
      ensures State().disk == old(device.View()) && State().words == NoWords(WORDS)
    {
      this.device := device;
      words := new word[WORDS](_ => EMPTY);
      new;
      assert words[..] == NoWords(WORDS);
    }

    method FindEmptyCluster() returns (idx: word)
      requires Valid()
      ensures var j := FirstFree(words[..], 0, MAP_SIZE); idx == if j < MAP_SIZE then j else NOT_FOUND
    {
      var i := 0;
      while i < MAP_SIZE && words[i] != EMPTY
        invariant i <= MAP_SIZE
        invariant FirstFree(words[..], 0, MAP_SIZE) == FirstFree(words[..], i, MAP_SIZE)
      {
        i := i + 1;
      }
      idx := if i < MAP_SIZE then i else NOT_FOUND;
    }

    /** The scan starts behind cluster 2 and reaches one word behind the map. */
    method EnoughEmptyCluster(required: nat) returns (enough: bool)
      requires Valid()
      ensures enough <==> CountFree(words[..], 3, WORDS) >= required
    {
      var idx, n := 2, 0;
      while idx < MAP_SIZE && n < required
        invariant 2 <= idx <= MAP_SIZE && n <= required
        invariant n + CountFree(words[..], idx + 1, WORDS) == CountFree(words[..], 3, WORDS)
      {
        idx := idx + 1;
        if words[idx] == EMPTY {
          n := n + 1;
        }
      }
      enough := n == required;
    }

    /** One cluster of the disk into fresh memory. */
    method Fetch(cluster: nat) returns (table: array<byte>)
      requires Valid() && cluster < DISK_CLUSTERS
      ensures fresh(table) && table[..] == device.View()[cluster]
    {
      table := new byte[CLUSTER_SIZE];
      device.ReadCluster(table, 0, cluster);
    }

    /** The memory of the cluster map, as bytes. */
    method MapBytes() returns (bytes: array<byte>)
      requires Valid()
      ensures fresh(bytes) && bytes[..] == FatBytes(words[..MAP_SIZE])
    {
      var b := FatBytes(words[..MAP_SIZE]);
      bytes := new byte[CLUSTER_SIZE](i requires 0 <= i < CLUSTER_SIZE => b[i]);
    }

    /** Write the cached map to its cluster. */
    method FlushMap()
      requires Valid()
      modifies device.image
      ensures device.View() == old(device.View())[FAT_CLUSTER := FatBytes(words[..MAP_SIZE])]
    {
      var bytes := MapBytes();
      device.WriteCluster(bytes, 0, FAT_CLUSTER);
      assert bytes[0..CLUSTER_SIZE] == bytes[..];
    }

    method InitDirectoryTable(table: array<byte>, name: Name, parent: nat)
      requires Valid() && table.Length == CLUSTER_SIZE && parent < DISK_CLUSTERS
      requires table != device.image && table as object != words as object
      modifies table
      ensures FirstFree(words[..], 0, MAP_SIZE) < MAP_SIZE ==>
        table[..] == NewTable(name, ParentName(State(), parent), FirstFree(words[..], 0, MAP_SIZE), parent)
      ensures FirstFree(words[..], 0, MAP_SIZE) == MAP_SIZE ==> table[..] == ZeroCluster()
    {
      forall k | 0 <= k < CLUSTER_SIZE {
        table[k] := 0;
      }
      assert table[..] == ZeroCluster();
      var idx := FindEmptyCluster();
      if idx == NOT_FOUND {
        return;
      }
      assert SlotAt(ZeroCluster(), 0) == ZeroSlot() && SlotAt(ZeroCluster(), 1) == ZeroSlot();
      InitDirectoryEntry(table, 0, name, NoExt(), ATTR_SUBDIRECTORY, idx, 0);
      ghost var own := MakeEntry(ZeroSlot(), name, NoExt(), ATTR_SUBDIRECTORY, idx, 0);
      assert table[..] == SetSlot(ZeroCluster(), 0, own);
      SetSlotAt(ZeroCluster(), 0, own, 1);
      var parentName := RootName();
      if parent != ROOT_CLUSTER {
        var c := Fetch(parent);
        parentName := c[..8];
        assert SlotAt(c[..], 0)[..8] == c[..8];
      }
      InitDirectoryEntry(table, 1, parentName, NoExt(), ATTR_SUBDIRECTORY, parent, 0);
    }

    method SearchName(t: Table, name: Name) returns (idx: nat)
      ensures idx == FindName(t, name, 2)
    {
      idx := 2;
      while idx < SLOTS && t[idx].name != name
        invariant 2 <= idx <= SLOTS && FindName(t, name, 2) == FindName(t, name, idx)
      {
        idx := idx + 1;
      }
    }

    /** The checks and the search of read_directory; `at` is the cluster to read. */
    method FindDirectory(r: Request) returns (code: int, at: nat)
      requires Valid() && ReadDirectoryReady(State(), r)
      ensures code == ReadDirectoryCode(State(), r)
      ensures code == 0 ==> FindName(Parent(State(), r), r.name, 2) < SLOTS
      ensures code == 0 ==> at == Parent(State(), r)[FindName(Parent(State(), r), r.name, 2)].cluster < MAP_SIZE
    {
      if r.size < CLUSTER_SIZE {
        return -1, 0;
      }
      var memory := Fetch(r.parent);
      var t := TableOf(memory[..]);
      assert t == Parent(State(), r);
      if !t[0].Folder() {
        return -1, 0;
      }
      var idx := SearchName(t, r.name);
      if idx == SLOTS {
        return 2, 0;
      }
      if !t[idx].Folder() {
        return 1, 0;
      }
      return 0, t[idx].cluster;
    }

    /** A directory's table into the caller's buffer. */
    method ReadDirectory(r: Request, buf: array<byte>) returns (code: int)
      requires Valid() && ReadDirectoryReady(State(), r) && buf != device.image && buf as object != words as object
      requires buf.Length >= r.size
      modifies buf
      ensures State() == old(State()) && code == ReadDirectoryCode(State(), r)
      ensures code == 0 ==> FindName(Parent(State(), r), r.name, 2) < SLOTS
      ensures buf[..] == if code != 0 then old(buf[..])
                         else Pointed(State(), Parent(State(), r), FindName(Parent(State(), r), r.name, 2)) + old(buf[CLUSTER_SIZE..])
    {
      var at;
      code, at := FindDirectory(r);
      if code == 0 {
        device.ReadCluster(buf, 0, at);
      }
    }

    /** The search of write: a duplicate, and the first unused entry on the way. */
    method SearchForWrite(t: Table, r: Request) returns (idx: nat, emptyIdx: word, unused: nat)
      ensures idx == FindSame(t, r.name, r.ext, RequestAttr(r), 2)
      ensures idx == SLOTS ==> (unused == 0 <==> FindUnused(t, 2) == SLOTS)
      ensures idx == SLOTS && unused > 0 ==> emptyIdx == FindUnused(t, 2)
    {
      var attr := RequestAttr(r);
      var found := false;
      idx, emptyIdx, unused := 2, NOT_FOUND, 0;
      while idx < SLOTS && !(t[idx].Named(r.name, r.ext) && t[idx].attr == attr)
        invariant 2 <= idx <= SLOTS
        invariant FindSame(t, r.name, r.ext, attr, 2) == FindSame(t, r.name, r.ext, attr, idx)
        invariant found <==> unused > 0
        invariant !found ==> FindUnused(t, 2) == FindUnused(t, idx)
        invariant found ==> emptyIdx == FindUnused(t, 2) < idx
      {
        if !t[idx].Live() {
          unused := unused + 1;
          if !found {
            emptyIdx := idx;
          }
          found := true;
        }
        idx := idx + 1;
      }
    }

    /** The three cluster writes of the folder branch: the map, the new table, the parent. */
    method StoreFolder(dirTable: array<byte>, idx: nat, memory: array<byte>, parent: nat)
      requires Valid() && idx < MAP_SIZE && parent < MAP_SIZE
      requires dirTable.Length == memory.Length == CLUSTER_SIZE && dirTable != device.image && memory != device.image
      modifies device.image
      ensures device.View() == old(device.View())[FAT_CLUSTER := FatBytes(words[..MAP_SIZE])][idx := dirTable[..]][parent := memory[..]]
    {
      assert dirTable[0..CLUSTER_SIZE] == dirTable[..] && memory[0..CLUSTER_SIZE] == memory[..];
      FlushMap();
      device.WriteCluster(dirTable, 0, idx);
      device.WriteCluster(memory, 0, parent);
    }

    /** The table of a new directory, in memory. */
    method PrepareTable(r: Request, idx: nat, ghost s: Fs) returns (dirTable: array<byte>)
      requires Valid() && State() == s && r.parent < MAP_SIZE && idx == FirstFree(s.words, 0, MAP_SIZE) < MAP_SIZE
      modifies words
      ensures fresh(dirTable) && dirTable[..] == NewFolder(s, r, idx)
      ensures words[..] == s.words[MAP_SIZE := WordAt(dirTable[..], 0)]
    {
      dirTable := new byte[CLUSTER_SIZE];
      InitDirectoryTable(dirTable, r.name, r.parent);
      words[MAP_SIZE] := WordAt(dirTable[..], 0); // the same memory
    }

    /** The entry that points at it, and its word, in memory. */
    method PrepareEntry(r: Request, memory: array<byte>, k: nat, idx: nat, ghost s: Fs)
      requires Valid() && r.parent < MAP_SIZE && r.size == 0
      requires memory.Length == CLUSTER_SIZE && memory != device.image && memory as object != words as object
      requires memory[..] == s.disk[r.parent]
      requires k == FindUnused(Parent(s, r), 2) < SLOTS && idx == FirstFree(s.words, 0, MAP_SIZE) < MAP_SIZE
      modifies memory, words
      ensures memory[..] == SetSlot(s.disk[r.parent], k, NewSlot(s, r)) && words[..] == old(words[..])[idx := END_OF_FILE]
    {
      InitDirectoryEntry(memory, k, r.name, r.ext, ATTR_SUBDIRECTORY, idx, r.size);
      words[idx] := END_OF_FILE;
    }

    /** Everything the folder branch of write changes; `memory` holds the parent's table. */
    method MakeFolder(r: Request, memory: array<byte>, k: nat, idx: nat, ghost s: Fs)
      requires Valid() && State() == s && r.parent < MAP_SIZE && r.size == 0
      requires memory.Length == CLUSTER_SIZE && memory != device.image && memory as object != words as object
      requires memory[..] == s.disk[r.parent]
      requires k == FindUnused(Parent(s, r), 2) < SLOTS && idx == FirstFree(s.words, 0, MAP_SIZE) < MAP_SIZE
      modifies memory, words, device.image
      ensures State() == FolderAfter(s, r.parent, k, idx, NewFolder(s, r, idx), NewSlot(s, r))
    {
      var dirTable := PrepareTable(r, idx, s);
      PrepareEntry(r, memory, k, idx, s);
      StoreFolder(dirTable, idx, memory, r.parent);
    }

    /** The folder branch of write, given a free cluster. */
    method WriteFolder(r: Request, memory: array<byte>, k: nat, idx: nat, ghost s: Fs)
      requires Valid() && State() == s && Apart(s, r) && r.size == 0 && WriteCode(s, r) == 0
      requires memory.Length == CLUSTER_SIZE && memory != device.image && memory as object != words as object
      requires memory[..] == s.disk[r.parent]
      requires k == FindUnused(Parent(s, r), 2) && idx == FirstFree(s.words, 0, MAP_SIZE)
      modifies memory, words, device.image
      ensures State() == WriteFolderState(s, r)
    {
      FolderStored(s, r, k, idx);
      MakeFolder(r, memory, k, idx, s);
    }

    /** The inner scan of the partition loop: up to the next free word, which is there. */
    method NextFree(from: nat) returns (idx: nat)
      requires Valid() && from <= WORDS && FirstFree(words[..], from, WORDS) < WORDS
      ensures idx == FirstFree(words[..], from, WORDS)
    {
      idx := from;
      while words[idx] != EMPTY
        invariant from <= idx < WORDS && FirstFree(words[..], from, WORDS) == FirstFree(words[..], idx, WORDS) < WORDS
        decreases WORDS - idx
      {
        idx := idx + 1;
      }
    }

    /** One part of the buffer into cluster `here`, and its link. */
    method StorePart(buf: array<byte>, count: nat, here: nat, link: word)
      requires Valid() && here < WORDS && CLUSTER_SIZE * count + CLUSTER_SIZE <= buf.Length
      requires buf != device.image && buf as object != words as object
      modifies words, device.image
      ensures words[..] == old(words[..])[here := link]
      ensures device.View() == old(device.View())[here := buf[CLUSTER_SIZE * count..CLUSTER_SIZE * count + CLUSTER_SIZE]]
    {
      words[here] := link;
      device.WriteCluster(buf, CLUSTER_SIZE * count, here);
    }

    /** One round of the partition loop: part `count` goes into cluster `here`, which is linked to
        the next free one. */
    method StoreNext(buf: array<byte>, count: nat, here: nat, ghost chain: seq<nat>, ghost n: nat,
                     ghost w: Words, ghost d: Clusters, ghost bytes: seq<byte>) returns (next: nat)
      requires Valid() && buf != device.image && buf as object != words as object
      requires buf[..] == bytes && |bytes| >= CLUSTER_SIZE * n && Picked(w, chain, n) && count + 1 < n && here == chain[count]
      requires Threaded(w, words[..], chain, count) && Stored(d, device.View(), chain, Split(bytes, n), count)
      modifies words, device.image
      ensures next == chain[count + 1] && buf[..] == bytes
      ensures Threaded(w, words[..], chain, count + 1) && Stored(d, device.View(), chain, Split(bytes, n), count + 1)
    {
      PartStep(w, words[..], d, device.View(), chain, bytes, n, count);
      next := NextFree(here + 1);
      StorePart(buf, count, here, next);
    }

    /** The last part, which ends the file. */
    method StoreLast(buf: array<byte>, count: nat, here: nat, ghost chain: seq<nat>, ghost n: nat,
                     ghost w: Words, ghost d: Clusters, ghost bytes: seq<byte>)
      requires Valid() && buf != device.image && buf as object != words as object
      requires buf[..] == bytes && |bytes| >= CLUSTER_SIZE * n && Picked(w, chain, n) && count + 1 == n && here == chain[count]
      requires Threaded(w, words[..], chain, count) && Stored(d, device.View(), chain, Split(bytes, n), count)
      modifies words, device.image
      ensures words[..] == Thread(w, chain) && device.View() == Store(d, chain, Split(bytes, n))
    {
      LastPart(w, words[..], d, device.View(), chain, bytes, n);
      StorePart(buf, count, here, END_OF_FILE);
    }

    /** The partition loop of write: store and link the parts of the buffer, cluster by cluster. */
    method StoreParts(buf: array<byte>, first: nat, n: nat, ghost w: Words, ghost d: Clusters, ghost bytes: seq<byte>)
      requires Valid() && words[..] == w && device.View() == d
      requires buf != device.image && buf as object != words as object
      requires buf[..] == bytes && |bytes| >= CLUSTER_SIZE * n && n > 0
      requires CountFree(w, 0, WORDS) >= n && first == FirstFree(w, 0, WORDS)
      modifies words, device.image
      ensures |Picks(w, 0, n)| == n
      ensures words[..] == Thread(w, Picks(w, 0, n)) && device.View() == Store(d, Picks(w, 0, n), Split(bytes, n))
    {
      ghost var chain := Picks(w, 0, n);
      PicksArePicked(w, n);
      var idx, count := first, 0;
      while count < n - 1
        invariant count < n && idx == chain[count] && buf[..] == bytes
        invariant Threaded(w, words[..], chain, count) && Stored(d, device.View(), chain, Split(bytes, n), count)
      {
        idx := StoreNext(buf, count, idx, chain, n, w, d, bytes);
        count := count + 1;
      }
      StoreLast(buf, count, idx, chain, n, w, d, bytes);
    }

    /** The disk and map writes of the file branch, after the parent's table is filled in. */
    method StoreFile(memory: array<byte>, parent: nat, buf: array<byte>, first: nat, n: nat, ghost w: Words, ghost d: Clusters)
      requires Valid() && words[..] == w && device.View() == d && parent < MAP_SIZE
      requires memory.Length == CLUSTER_SIZE && memory != device.image
      requires buf != device.image && buf as object != words as object && buf.Length >= CLUSTER_SIZE * n && n > 0
      requires CountFree(w, 0, WORDS) >= n && first == FirstFree(w, 0, WORDS)
      modifies words, device.image
      ensures |Picks(w, 0, n)| == n && words[..] == Thread(w, Picks(w, 0, n))
      ensures device.View() == Store(d[parent := old(memory[..])], Picks(w, 0, n), Split(buf[..], n))
                                    [FAT_CLUSTER := FatBytes(words[..MAP_SIZE])]
    {
      assert memory[0..CLUSTER_SIZE] == memory[..];
      device.WriteCluster(memory, 0, parent);
      StoreParts(buf, first, n, w, device.View(), buf[..]);
      FlushMap();
    }

    /** The file branch of write, once admitted; `memory` holds the parent's table. */
    method WriteFile(r: Request, memory: array<byte>, k: nat, first: nat, buf: array<byte>, ghost s: Fs)
      requires Valid() && State() == s && Apart(s, r) && r.size != 0 && WriteCode(s, r) == 0
      requires memory.Length == CLUSTER_SIZE && memory != device.image && memory as object != words as object && memory != buf
      requires buf != device.image && buf as object != words as object && buf.Length >= CLUSTER_SIZE * Parts(r.size)
      requires memory[..] == s.disk[r.parent]
      requires k == FindUnused(Parent(s, r), 2) && first == FirstFree(s.words, 0, MAP_SIZE)
      modifies memory, words, device.image
      ensures State() == WriteFileState(s, r, old(buf[..]))
    {
      FirstIsFirst(s, r);
      InitDirectoryEntry(memory, k, r.name, r.ext, 0, first, r.size);
      assert memory[..] == SetSlot(s.disk[r.parent], k, NewSlot(s, r));
      StoreFile(memory, r.parent, buf, first, Parts(r.size), s.words, s.disk);
      ghost var w: Words := words[..];
      assert words[..MAP_SIZE] == w[..MAP_SIZE];
      FileStored(s, r, buf[..], k, NewSlot(s, r), Picks(s.words, 0, Parts(r.size)), w, device.View());
    }

    /** write. */
    method Write(r: Request, buf: array<byte>) returns (code: int)
      requires Valid() && WriteReady(State(), r)
      requires buf != device.image && buf as object != words as object && buf.Length >= CLUSTER_SIZE * Parts(r.size)
      modifies words, device.image
      ensures code == WriteCode(old(State()), r)
      ensures State() == WriteState(old(State()), r, old(buf[..]))
    {
      ghost var s := State();
      var memory := Fetch(r.parent);
      var t := TableOf(memory[..]);
      if !t[0].Folder() {
        return 2;
      }
      var idx, k, unused := SearchForWrite(t, r);
      if idx < SLOTS {
        return 1;
      }
      if unused == 0 {
        return -1;
      }
      if r.size != 0 {
        var enough := EnoughEmptyCluster(Parts(r.size));
        if !enough {
          return -1;
        }
      }
      var first := FindEmptyCluster();
      if first == NOT_FOUND {
        return -1;
      }
      if r.size == 0 {
        WriteFolder(r, memory, k, first, s);
      } else {
        WriteFile(r, memory, k, first, buf, s);
      }
      return 0;
    }

    /** The search of read and delete, headers included. */
    method SearchTarget(t: Table, r: Request) returns (idx: nat)
      ensures idx == Find(t, r.name, r.ext, 0)
    {
      idx := 0;
      while idx < SLOTS && !t[idx].Named(r.name, r.ext)
        invariant idx <= SLOTS && Find(t, r.name, r.ext, 0) == Find(t, r.name, r.ext, idx)
      {
        idx := idx + 1;
      }
    }

    /** One round of the chain loop of read: the cluster after the j-th, which is copied. */
    method ReadNext(buf: array<byte>, at: nat, cluster: nat, ghost chain: seq<nat>, ghost j: nat,
                    ghost d: Clusters, ghost b: seq<byte>) returns (next: nat)
      requires Valid() && device.View() == d && buf != device.image && buf as object != words as object
      requires Within(chain, 0, MAP_SIZE) && Linked(words[..], chain) && CLUSTER_SIZE * |chain| <= |b|
      requires Copied(d, chain, j, cluster, at, b, buf[..]) && cluster != END_OF_FILE
      modifies buf
      ensures State() == old(State()) && j < |chain| && Copied(d, chain, j + 1, next, at + CLUSTER_SIZE, b, buf[..])
    {
      ContentsSnoc(d, chain, j);
      assert |buf[..]| == |b|;
      device.ReadCluster(buf, at, cluster);
      next := words[cluster];
      assert next == words[chain[j]];
    }

    /** The chain loop of read. */
    method ReadChain(buf: array<byte>, first: nat, ghost chain: seq<nat>)
      requires Valid() && Within(chain, 0, MAP_SIZE) && Linked(words[..], chain) && chain != [] && first == chain[0]
      requires buf != device.image && buf as object != words as object && buf.Length >= CLUSTER_SIZE * |chain|
      modifies buf
      ensures State() == old(State())
      ensures buf[..] == Contents(State().disk, chain) + old(buf[..])[CLUSTER_SIZE * |chain|..]
    {
      ghost var s, b := State(), buf[..];
      var cluster, at: nat := first, 0;
      ghost var j := 0;
      while cluster != END_OF_FILE
        invariant State() == s && Copied(s.disk, chain, j, cluster, at, b, buf[..])
        decreases |chain| - j
      {
        cluster := ReadNext(buf, at, cluster, chain, j, s.disk, b);
        at := at + CLUSTER_SIZE;
        j := j + 1;
      }
      AllCopied(s.disk, chain, j, at, b, buf[..]);
    }

    /** read. */
    method Read(r: Request, buf: array<byte>) returns (code: int)
      requires Valid() && TargetReady(State(), r)
      requires buf != device.image && buf as object != words as object && buf.Length >= CLUSTER_SIZE * Parts(r.size)
      modifies buf
      ensures State() == old(State()) && code == ReadCode(State(), r)
      ensures code != 0 ==> buf[..] == old(buf[..])
      ensures code == 0 ==> |ReadBytes(State(), r)| <= buf.Length
      ensures code == 0 ==> buf[..] == ReadBytes(State(), r) + old(buf[..])[|ReadBytes(State(), r)|..]
    {
      ghost var s := State();
      var memory := Fetch(r.parent);
      var t := TableOf(memory[..]);
      assert t == Parent(s, r);
      if !t[0].Folder() {
        return -1;
      }
      var idx := SearchTarget(t, r);
      if idx == SLOTS {
        return 2;
      }
      if t[idx].Folder() {
        return 1;
      }
      if r.size < t[idx].size {
        return -1;
      }
      PartsMonotone(t[idx].size, r.size);
      ReadChain(buf, t[idx].cluster, Chain(s.words, t[idx].cluster));
      return 0;
    }

    method IsEmptyFolder(t: Table) returns (empty: bool)
      ensures empty <==> EmptyFolder(t)
    {
      var i := 2;
      while i < SLOTS && !t[i].Live()
        invariant 2 <= i <= SLOTS && forall k :: 2 <= k < i ==> !t[k].Live()
      {
        i := i + 1;
      }
      empty := i == SLOTS;
    }

    /** A fresh cluster of zeros over one cluster of the disk, and its word emptied. */
    method Free(cluster: nat)
      requires Valid() && cluster < MAP_SIZE
      modifies words, device.image
      ensures words[..] == old(words[..])[cluster := EMPTY]
      ensures device.View() == old(device.View())[cluster := ZeroCluster()]
    {
      var zeros := new byte[CLUSTER_SIZE](_ => 0);
      assert zeros[0..CLUSTER_SIZE] == ZeroCluster();
      device.WriteCluster(zeros, 0, cluster);
      words[cluster] := EMPTY;
    }

    /** The chain loop of delete: every cluster but the last one is wiped and set free. */
    method FreeLinks(first: nat, ghost chain: seq<nat>, ghost w: Words, ghost d: Clusters) returns (last: nat)
      requires Valid() && words[..] == w && device.View() == d
      requires Ascending(chain) && Within(chain, 0, MAP_SIZE) && Linked(w, chain) && chain != [] && first == chain[0]
      modifies words, device.image
      ensures last == chain[|chain| - 1]
      ensures Freed(w, words[..], chain, |chain| - 1) && Wiped(d, device.View(), chain, |chain| - 1)
    {
      last := first;
      ghost var j := 0;
      FreedAhead(w, words[..], chain, 0);
      while words[last] != END_OF_FILE
        invariant j < |chain| && last == chain[j] && words[last] == if j + 1 == |chain| then END_OF_FILE else chain[j + 1]
        invariant Freed(w, words[..], chain, j) && Wiped(d, device.View(), chain, j)
        decreases |chain| - j
      {
        FreedAhead(w, words[..], chain, j);
        var next := words[last];
        FreedStep(w, words[..], chain, j);
        WipedStep(d, device.View(), chain, j);
        Free(last);
        last := next;
        j := j + 1;
        FreedAhead(w, words[..], chain, j);
      }
    }

    /** A table in memory over its cluster. */
    method StoreTable(memory: array<byte>, cluster: nat)
      requires Valid() && memory.Length == CLUSTER_SIZE && memory != device.image && cluster < DISK_CLUSTERS
      modifies device.image
      ensures device.View() == old(device.View())[cluster := memory[..]]
    {
      assert memory[0..CLUSTER_SIZE] == memory[..];
      device.WriteCluster(memory, 0, cluster);
    }

    /** The last cluster of a chain, once only that one is left. */
    method FreeLast(last: nat, ghost chain: seq<nat>, ghost w: Words, ghost d: Clusters)
      requires Valid() && Ascending(chain) && Within(chain, 0, MAP_SIZE) && chain != [] && last == chain[|chain| - 1]
      requires Freed(w, words[..], chain, |chain| - 1) && Wiped(d, device.View(), chain, |chain| - 1)
      modifies words, device.image
      ensures words[..] == Unthread(w, chain) && device.View() == Store(d, chain, BlankClusters(|chain|))
    {
      LastFreed(w, words[..], d, device.View(), chain);
      Free(last);
    }

    /** The end of delete, once only the last cluster is left; `memory` holds the parent's table. */
    method Remove(r: Request, memory: array<byte>, idx: nat, last: nat, ghost chain: seq<nat>, ghost s: Fs)
      requires Valid() && r.parent < DISK_CLUSTERS && idx < SLOTS
      requires memory.Length == CLUSTER_SIZE && memory != device.image && memory as object != words as object
      requires memory[..] == s.disk[r.parent]
      requires Ascending(chain) && Within(chain, 0, MAP_SIZE) && chain != [] && last == chain[|chain| - 1]
      requires chain == Chain(s.words, Parent(s, r)[idx].cluster)
      requires Freed(s.words, words[..], chain, |chain| - 1) && Wiped(s.disk, device.View(), chain, |chain| - 1)
      modifies memory, words, device.image
      ensures State() == Unlink(s, r.parent, idx)
    {
      Put(memory, 32 * idx, ZeroSlot());
      SpliceIsSetSlot(s.disk[r.parent], idx, ZeroSlot());
      FreeLast(last, chain, s.words, s.disk);
      StoreTable(memory, r.parent);
      FlushMap();
    }

    /** delete. */
    method Delete(r: Request) returns (code: int)
      requires Valid() && TargetReady(State(), r)
      modifies words, device.image
      ensures code == DeleteCode(old(State()), r)
      ensures State() == DeleteState(old(State()), r)
    {
      ghost var s := State();
      var memory := Fetch(r.parent);
      var t := TableOf(memory[..]);
      assert t == Parent(s, r);
      if !t[0].Folder() {
        return -1;
      }
      var idx := SearchTarget(t, r);
      if idx == SLOTS {
        return 1;
      }
      var deleted := t[idx].cluster;
      ghost var chain := Chain(s.words, deleted);
      ChainAscends(s.words, deleted);
      if t[idx].Folder() {
        var low := HalfAt(SlotAt(memory[..], idx), 26);
        SmallIsLowHalf(memory[..], idx);
        var inner := Fetch(low);
        var empty := IsEmptyFolder(TableOf(inner[..]));
        if !empty {
          return 2;
        }
      } else {
        deleted := FreeLinks(deleted, chain, s.words, s.disk);
      }
      Remove(r, memory, idx, deleted, chain, s);
      return 0;
    }

    /** Words from the bytes of cluster 1 into the cached map. */
    method LoadMap(bytes: array<byte>)
      requires Valid() && bytes.Length == CLUSTER_SIZE && bytes as object != words as object
      modifies words
      ensures words[..MAP_SIZE] == FatWords(bytes[..]) && words[MAP_SIZE] == old(words[MAP_SIZE])
    {
      var i := 0;
      while i < MAP_SIZE
        invariant i <= MAP_SIZE && words[MAP_SIZE] == old(words[MAP_SIZE])
        invariant forall k :: 0 <= k < i ==> words[k] == WordAt(bytes[..], 4 * k)
      {
        words[i] := WordAt(bytes[..], 4 * i);
        i := i + 1;
      }
      forall k | 0 <= k < MAP_SIZE
        ensures words[k] == FatWords(bytes[..])[k]
      {
        FatWordsAt(bytes[..], k);
      }
    }

    /** The cached map of an empty volume. */
    method ResetMap()
      requires Valid()
      modifies words
      ensures words[..] == [CLUSTER_0_VALUE, CLUSTER_1_VALUE] + NoWords(MAP_SIZE - 2) + [old(words[MAP_SIZE])]
    {
      words[0], words[1] := CLUSTER_0_VALUE, CLUSTER_1_VALUE;
      forall k | 2 <= k < MAP_SIZE {
        words[k] := EMPTY;
      }
    }

    /** The map and the root table of a format, in memory. */
    method PrepareFormat() returns (root: array<byte>)
      requires Valid()
      modifies words
      ensures fresh(root) && root[..] == NewTable(RootName(), RootName(), ROOT_CLUSTER, ROOT_CLUSTER)
      ensures words[..] == [CLUSTER_0_VALUE, CLUSTER_1_VALUE, END_OF_FILE] + NoWords(MAP_SIZE - 3) + [WordAt(root[..], 0)]
    {
      ResetMap();
      root := new byte[CLUSTER_SIZE];
      FirstFreeIsRoot(words[..]);
      InitDirectoryTable(root, RootName(), ROOT_CLUSTER);
      words[ROOT_CLUSTER] := END_OF_FILE;
      words[MAP_SIZE] := WordAt(root[..], 0); // dir_table_buf = root
    }

    /** create_fat32. `tail` is the memory behind the one-block signature, which the four-block
        write carries along. */
    method CreateFat32(tail: seq<byte>)
      requires Valid() && |tail| == CLUSTER_SIZE - BLOCK_SIZE
      modifies words, device.image
      ensures State() == Format(old(device.View()), tail)
    {
      var root := PrepareFormat();
      assert words[..MAP_SIZE] == [CLUSTER_0_VALUE, CLUSTER_1_VALUE, END_OF_FILE] + NoWords(MAP_SIZE - 3);
      var sig := Signature() + tail;
      var boot := new byte[CLUSTER_SIZE](i requires 0 <= i < CLUSTER_SIZE => sig[i]);
      assert boot[0..CLUSTER_SIZE] == sig && root[0..CLUSTER_SIZE] == root[..];
      device.WriteCluster(boot, 0, BOOT_SECTOR);
      FlushMap();
      device.WriteCluster(root, 0, ROOT_CLUSTER);
    }

    method IsEmptyStorage() returns (empty: bool)
      requires Valid()
      ensures empty <==> !Signed(device.View())
    {
      var boot := new byte[BLOCK_SIZE];
      device.ReadBlocks(boot, 0, BOOT_SECTOR, 1);
      assert boot[..] == device.image[..BLOCK_SIZE] == device.View()[BOOT_SECTOR][..BLOCK_SIZE];
      empty := boot[..] != Signature();
    }

    /** initialize_filesystem_fat32, on a driver state that still holds zeros. */
    method Initialize(tail: seq<byte>)
      requires Valid() && words[MAP_SIZE] == EMPTY && |tail| == CLUSTER_SIZE - BLOCK_SIZE
      modifies words, device.image
      ensures State() == Mount(old(device.View()), tail)
    {
      var empty := IsEmptyStorage();
      if empty {
        CreateFat32(tail);
      } else {
        var bytes := Fetch(FAT_CLUSTER);
        LoadMap(bytes);
        assert words[..] == words[..MAP_SIZE] + [EMPTY];
      }
    }

    /** A directory's name, its own cluster and its parent's, as the low halves of its headers. */
    method ReadHeaders(c: nat) returns (name: Name, own: nat, up: nat)
      requires Valid() && c < MAP_SIZE
      ensures name == DirName(State(), c)
      ensures own == TableOf(State().disk[c])[0].cluster % 65536 && up == TableOf(State().disk[c])[1].cluster % 65536
    {
      var memory := Fetch(c);
      LowHalf(memory[..], 0);
      LowHalf(memory[..], 1);
      name := SlotAt(memory[..], 0)[..8];
      own := HalfAt(SlotAt(memory[..], 0), 26);
      up := HalfAt(SlotAt(memory[..], 1), 26);
    }

    /** trackToParent: the names from directory c up to the root, one row each. The loop ends
        inside the 512 rows. */
    method TrackToParent(c: nat, ghost path: seq<nat>, ghost s: Fs) returns (rows: array<Name>, count: nat)
      requires Valid() && State() == s && HeadersLead(s, path) && path[0] == c
      ensures rows.Length == 512 && fresh(rows) && count == |path| < 512
      ensures rows[..count] == PathNames(s, path)
      ensures forall k :: count <= k < 512 ==> rows[k] == Zeros(8)
    {
      rows := new Name[512](_ => Zeros(8));
      ghost var names := PathNames(s, path);
      var low, cur := 0, c;
      count := 0;
      while low != ROOT_CLUSTER
        invariant count <= |path| && State() == s
        invariant count < |path| ==> cur == path[count]
        invariant low == ROOT_CLUSTER <==> count == |path|
        invariant rows[..count] == names[..count]
        invariant forall k :: count <= k < 512 ==> rows[k] == Zeros(8)
        decreases |path| - count
      {
        HeaderStep(s, path, count);
        assert names[count] == DirName(s, cur);
        var name;
        name, low, cur := ReadHeaders(cur);
        rows[count] := name;
        count := count + 1;
      }
    }
  }
}

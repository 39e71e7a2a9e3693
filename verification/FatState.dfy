/** The driver's state and what each request does to it, as values.

    `words` is the start of the packed driver state: the 512 entries of the cached
    cluster map and, at index 512, the first four bytes of dir_table_buf, which sit
    right behind the map in memory and which two loops of the driver can reach. */
module FatState {
  import opened Layout
  import opened Disk

  const WORDS := MAP_SIZE + 1

  function NoWords(n: nat): (w: seq<word>)
    ensures |w| == n
  {
    seq(n, _ => 0)
  }

  type Words = w: seq<word> | |w| == WORDS witness NoWords(WORDS)

  datatype Fs = Fs(words: Words, disk: Clusters)

  datatype Request = Request(name: Name, ext: Ext, parent: nat, size: word)

  // ---- Scans of the cluster map ----

  /** The first empty word at or after i, or n. */
  function FirstFree(w: seq<word>, i: nat, n: nat): (j: nat)
    requires i <= n <= |w|
    ensures i <= j <= n && (j < n ==> w[j] == EMPTY)
    ensures forall k :: i <= k < j ==> w[k] != EMPTY
    decreases n - i
  {
    if i == n || w[i] == EMPTY then i else FirstFree(w, i + 1, n)
  }

  /** How many of the words i..n are empty. */
  function CountFree(w: seq<word>, i: nat, n: nat): nat
    requires i <= n <= |w|
    decreases n - i
  {
    if i == n then 0 else (if w[i] == EMPTY then 1 else 0) + CountFree(w, i + 1, n)
  }

  predicate Within(chain: seq<nat>, lo: nat, hi: nat) {
    forall i :: 0 <= i < |chain| ==> lo <= chain[i] < hi
  }

  /** The first n empty words at or after i, in order. */
  function Picks(w: Words, i: nat, n: nat): (chain: seq<nat>)
    requires i <= WORDS
    ensures |chain| <= n && Within(chain, i, WORDS)
    decreases n
  {
    var j := FirstFree(w, i, WORDS);
    if n == 0 || j == WORDS then [] else [j] + Picks(w, j + 1, n - 1)
  }

  /** Clusters needed for `size` bytes: the least number that holds them. */
  function Parts(size: nat): (n: nat)
    ensures size <= CLUSTER_SIZE * n < size + CLUSTER_SIZE
    ensures n == 0 <==> size == 0
  {
    size / CLUSTER_SIZE + if size % CLUSTER_SIZE > 0 then 1 else 0
  }

  // ---- Searches of a directory table ----

  /** First entry at or after i with this name and extension, or SLOTS. */
  function Find(t: Table, name: Name, ext: Ext, i: nat): (j: nat)
    requires i <= SLOTS
    ensures i <= j <= SLOTS && (j < SLOTS ==> t[j].Named(name, ext))
    ensures forall k :: i <= k < j ==> !t[k].Named(name, ext)
    decreases SLOTS - i
  {
    if i == SLOTS || t[i].Named(name, ext) then i else Find(t, name, ext, i + 1)
  }

  /** First entry at or after i with this name, whatever its extension, or SLOTS. */
  function FindName(t: Table, name: Name, i: nat): (j: nat)
    requires i <= SLOTS
    ensures i <= j <= SLOTS && (j < SLOTS ==> t[j].name == name)
    ensures forall k :: i <= k < j ==> t[k].name != name
    decreases SLOTS - i
  {
    if i == SLOTS || t[i].name == name then i else FindName(t, name, i + 1)
  }

  /** Entry i is the first of this name behind the headers, whatever its extension. */
  predicate FirstNamed(t: Table, i: nat, name: Name) {
    2 <= i < SLOTS && t[i].name == name && forall j :: 2 <= j < i ==> t[j].name != name
  }

  predicate NoneNamed(t: Table, name: Name) { forall i :: 2 <= i < SLOTS ==> t[i].name != name }

  lemma FindsFirstNamed(t: Table, name: Name)
    ensures FindName(t, name, 2) == SLOTS <==> NoneNamed(t, name)
    ensures forall i: nat :: FirstNamed(t, i, name) ==> i == FindName(t, name, 2)
  {
  }

  /** First entry at or after i with this name, extension and attribute, or SLOTS. */
  function FindSame(t: Table, name: Name, ext: Ext, attr: byte, i: nat): (j: nat)
    requires i <= SLOTS
    ensures i <= j <= SLOTS && (j < SLOTS ==> t[j].Named(name, ext) && t[j].attr == attr)
    ensures forall k :: i <= k < j ==> !(t[k].Named(name, ext) && t[k].attr == attr)
    decreases SLOTS - i
  {
    if i == SLOTS || (t[i].Named(name, ext) && t[i].attr == attr) then i else FindSame(t, name, ext, attr, i + 1)
  }

  /** First unused entry at or after i, or SLOTS. */
  function FindUnused(t: Table, i: nat): (j: nat)
    requires i <= SLOTS
    ensures i <= j <= SLOTS && (j < SLOTS ==> !t[j].Live())
    ensures forall k :: i <= k < j ==> t[k].Live()
    decreases SLOTS - i
  {
    if i == SLOTS || !t[i].Live() then i else FindUnused(t, i + 1)
  }

  /** No entry from the third on is in use. */
  predicate EmptyFolder(t: Table) {
    forall i :: 2 <= i < SLOTS ==> !t[i].Live()
  }

  // ---- Chains of clusters ----

  /** The clusters reached from c by following the map; a link that does not go up ends it. */
  function Chain(w: Words, c: nat): (chain: seq<nat>)
    ensures Within(chain, c, MAP_SIZE)
    ensures c < MAP_SIZE ==> chain != [] && chain[0] == c
    decreases MAP_SIZE - c
  {
    if c >= MAP_SIZE then []
    else if w[c] != END_OF_FILE && c < w[c] < MAP_SIZE then [c] + Chain(w, w[c])
    else [c]
  }

  /** The map with the given clusters linked one to the next, the last one ending the file. */
  function Thread(w: Words, chain: seq<nat>): Words
    requires Within(chain, 0, WORDS)
  {
    if chain == [] then w
    else Thread(w, chain[1..])[chain[0] := if |chain| == 1 then END_OF_FILE else chain[1]]
  }

  function Unthread(w: Words, chain: seq<nat>): Words
    requires Within(chain, 0, WORDS)
  {
    if chain == [] then w else Unthread(w, chain[1..])[chain[0] := EMPTY]
  }

  /** The disk with parts stored in the clusters of a chain. */
  function Store(d: Clusters, chain: seq<nat>, parts: seq<Cluster>): Clusters
    requires |chain| == |parts| && Within(chain, 0, DISK_CLUSTERS)
  {
    if chain == [] then d else Store(d, chain[1..], parts[1..])[chain[0] := parts[0]]
  }

  /** The bytes found along a chain. */
  function Contents(d: Clusters, chain: seq<nat>): (b: seq<byte>)
    requires Within(chain, 0, DISK_CLUSTERS)
    ensures |b| == CLUSTER_SIZE * |chain|
  {
    if chain == [] then [] else d[chain[0]] + Contents(d, chain[1..])
  }

  /** A buffer cut into n clusters. */
  function Split(buf: seq<byte>, n: nat): (parts: seq<Cluster>)
    requires |buf| >= CLUSTER_SIZE * n
    ensures |parts| == n
  {
    if n == 0 then [] else [buf[..CLUSTER_SIZE]] + Split(buf[CLUSTER_SIZE..], n - 1)
  }

  function Join(parts: seq<Cluster>): (b: seq<byte>)
    ensures |b| == CLUSTER_SIZE * |parts|
  {
    if parts == [] then [] else parts[0] + Join(parts[1..])
  }

  // ---- The two state changes every request comes down to ----

  /** Claim a chain of clusters for entry e in slot k of directory p. */
  function Link(s: Fs, p: nat, k: nat, e: Slot, chain: seq<nat>, parts: seq<Cluster>): Fs
    requires p < DISK_CLUSTERS && k < SLOTS && |chain| == |parts| && Within(chain, 0, WORDS)
  {
    var w := Thread(s.words, chain);
    var d := Store(s.disk, chain, parts);
    Fs(w, d[p := SetSlot(s.disk[p], k, e)][FAT_CLUSTER := FatBytes(w[..MAP_SIZE])])
  }

  /** Give back the chain that slot k of directory p points at, and clear the slot. */
  function Unlink(s: Fs, p: nat, k: nat): Fs
    requires p < DISK_CLUSTERS && k < SLOTS
  {
    var chain := Chain(s.words, TableOf(s.disk[p])[k].cluster);
    var w := Unthread(s.words, chain);
    var d := Store(s.disk, chain, BlankClusters(|chain|));
    Fs(w, d[p := SetSlot(s.disk[p], k, ZeroSlot())][FAT_CLUSTER := FatBytes(w[..MAP_SIZE])])
  }

  // ---- What the requests return and leave behind ----

  function Parent(s: Fs, r: Request): Table
    requires r.parent < DISK_CLUSTERS
  {
    TableOf(s.disk[r.parent])
  }

  function RequestAttr(r: Request): byte { if r.size == 0 then ATTR_SUBDIRECTORY else 0 }

  function WriteCode(s: Fs, r: Request): int
    requires r.parent < DISK_CLUSTERS
  {
    var t := Parent(s, r);
    if !t[0].Folder() then 2
    else if FindSame(t, r.name, r.ext, RequestAttr(r), 2) < SLOTS then 1
    else if FindUnused(t, 2) == SLOTS then -1
    else if r.size != 0 && CountFree(s.words, 3, WORDS) < Parts(r.size) then -1
    else if FirstFree(s.words, 0, MAP_SIZE) == MAP_SIZE then -1
    else 0
  }

  /** A new directory table: entry 0 is the directory itself, entry 1 its parent. */
  function NewTable(name: Name, parentName: Name, cluster: word, parent: word): Cluster {
    var own := MakeEntry(ZeroSlot(), name, NoExt(), ATTR_SUBDIRECTORY, cluster, 0);
    var up := MakeEntry(ZeroSlot(), parentName, NoExt(), ATTR_SUBDIRECTORY, parent, 0);
    SetSlot(SetSlot(ZeroCluster(), 0, own), 1, up)
  }

  function HeaderItem(name: Name, cluster: nat): Item {
    Item(name, NoExt(), ATTR_SUBDIRECTORY, UATTR_NOT_EMPTY, cluster, 0, Zeros(11))
  }

  lemma NewTableDecodes(name: Name, parentName: Name, cluster: word, parent: word)
    ensures TableOf(NewTable(name, parentName, cluster, parent))
         == BlankTable()[0 := HeaderItem(name, cluster)][1 := HeaderItem(parentName, parent)]
  {
    var own := MakeEntry(ZeroSlot(), name, NoExt(), ATTR_SUBDIRECTORY, cluster, 0);
    var up := MakeEntry(ZeroSlot(), parentName, NoExt(), ATTR_SUBDIRECTORY, parent, 0);
    MakeEntryDecodes(ZeroSlot(), name, NoExt(), ATTR_SUBDIRECTORY, cluster, 0);
    MakeEntryDecodes(ZeroSlot(), parentName, NoExt(), ATTR_SUBDIRECTORY, parent, 0);
    assert ZeroSlot()[13..20] + ZeroSlot()[22..26] == Zeros(11);
    ZeroClusterIsBlank();
    SetSlotTable(ZeroCluster(), 0, own);
    SetSlotTable(SetSlot(ZeroCluster(), 0, own), 1, up);
  }

  /** The name the parent directory goes by. */
  function ParentName(s: Fs, parent: nat): Name
    requires parent < DISK_CLUSTERS
  {
    if parent == ROOT_CLUSTER then RootName() else TableOf(s.disk[parent])[0].name
  }

  /** The entry a write leaves in the first unused slot of its parent. */
  function NewSlot(s: Fs, r: Request): Slot
    requires r.parent < DISK_CLUSTERS && FindUnused(Parent(s, r), 2) < SLOTS
  {
    MakeEntry(SlotAt(s.disk[r.parent], FindUnused(Parent(s, r), 2)), r.name, r.ext, RequestAttr(r),
              FirstFree(s.words, 0, MAP_SIZE), r.size)
  }

  function NewFolder(s: Fs, r: Request, c: word): Cluster
    requires r.parent < DISK_CLUSTERS
  {
    NewTable(r.name, ParentName(s, r.parent), c, r.parent)
  }

  /** The state once dir_table_buf holds table t: its first word follows the map. */
  function Buffered(s: Fs, t: Cluster): (b: Fs)
    ensures b.disk == s.disk && b.words[..MAP_SIZE] == s.words[..MAP_SIZE]
  {
    Fs(s.words[MAP_SIZE := WordAt(t, 0)], s.disk)
  }

  function WriteFolderState(s: Fs, r: Request): Fs
    requires r.parent < DISK_CLUSTERS && r.size == 0 && WriteCode(s, r) == 0
  {
    var c := FirstFree(s.words, 0, MAP_SIZE);
    var t := NewFolder(s, r, c);
    Link(Buffered(s, t), r.parent, FindUnused(Parent(s, r), 2), NewSlot(s, r), [c], [t])
  }

  lemma {:induction false} CountSkips(w: Words, i: nat, j: nat)
    requires i <= j <= WORDS && forall k :: i <= k < j ==> w[k] != EMPTY
    ensures CountFree(w, i, WORDS) == CountFree(w, j, WORDS)
    decreases j - i
  {
    if i < j {
      CountSkips(w, i + 1, j);
    }
  }

  lemma {:induction false} CountMonotone(w: Words, i: nat, j: nat)
    requires i <= j <= WORDS
    ensures CountFree(w, j, WORDS) <= CountFree(w, i, WORDS)
    decreases j - i
  {
    if i < j {
      CountMonotone(w, i + 1, j);
    }
  }

  /** As many words are picked as are free, up to n. */
  lemma {:induction false} PicksAll(w: Words, i: nat, n: nat)
    requires i <= WORDS && n <= CountFree(w, i, WORDS)
    ensures |Picks(w, i, n)| == n
    decreases n
  {
    var j := FirstFree(w, i, WORDS);
    CountSkips(w, i, j);
    if n != 0 && j < WORDS {
      PicksAll(w, j + 1, n - 1);
    }
  }

  function WriteFileState(s: Fs, r: Request, buf: seq<byte>): Fs
    requires r.parent < DISK_CLUSTERS && r.size != 0 && |buf| >= CLUSTER_SIZE * Parts(r.size)
    requires WriteCode(s, r) == 0
  {
    var n := Parts(r.size);
    CountMonotone(s.words, 0, 3);
    PicksAll(s.words, 0, n);
    var chain := Picks(s.words, 0, n);
    Link(s, r.parent, FindUnused(Parent(s, r), 2), NewSlot(s, r), chain, Split(buf, n))
  }

  function WriteState(s: Fs, r: Request, buf: seq<byte>): Fs
    requires r.parent < DISK_CLUSTERS && |buf| >= CLUSTER_SIZE * Parts(r.size)
  {
    if WriteCode(s, r) != 0 then s
    else if r.size == 0 then WriteFolderState(s, r)
    else WriteFileState(s, r, buf)
  }

  function ReadCode(s: Fs, r: Request): int
    requires r.parent < DISK_CLUSTERS
  {
    var t := Parent(s, r);
    var i := Find(t, r.name, r.ext, 0);
    if !t[0].Folder() then -1
    else if i == SLOTS then 2
    else if t[i].Folder() then 1
    else if r.size < t[i].size then -1
    else 0
  }

  /** The clusters a successful read copies into the caller's buffer. */
  function ReadBytes(s: Fs, r: Request): seq<byte>
    requires r.parent < DISK_CLUSTERS && ReadCode(s, r) == 0
  {
    Contents(s.disk, Chain(s.words, Parent(s, r)[Find(Parent(s, r), r.name, r.ext, 0)].cluster))
  }

  function ReadDirectoryCode(s: Fs, r: Request): int
    requires r.parent < DISK_CLUSTERS
  {
    var t := Parent(s, r);
    var i := FindName(t, r.name, 2);
    if r.size < CLUSTER_SIZE then -1
    else if !t[0].Folder() then -1
    else if i == SLOTS then 2
    else if !t[i].Folder() then 1
    else 0
  }

  /** The directory entry i of a table is about, or zeros if it points off the disk. */
  function Pointed(s: Fs, t: Table, i: nat): Cluster
    requires i < SLOTS
  {
    if t[i].cluster < DISK_CLUSTERS then s.disk[t[i].cluster] else ZeroCluster()
  }

  function DeleteCode(s: Fs, r: Request): int
    requires r.parent < DISK_CLUSTERS
  {
    var t := Parent(s, r);
    var i := Find(t, r.name, r.ext, 0);
    if !t[0].Folder() then -1
    else if i == SLOTS then 1
    else if t[i].Folder() && t[i].cluster < DISK_CLUSTERS && !EmptyFolder(TableOf(s.disk[t[i].cluster])) then 2
    else 0
  }

  function DeleteState(s: Fs, r: Request): Fs
    requires r.parent < DISK_CLUSTERS
  {
    if DeleteCode(s, r) != 0 then s
    else Unlink(s, r.parent, Find(Parent(s, r), r.name, r.ext, 0))
  }

  // ---- Formatting and mounting ----

  /** A freshly formatted disk. `tail` is whatever follows the signature in memory:
      the driver writes four blocks from a one-block constant. */
  function Format(disk: Clusters, tail: seq<byte>): Fs
    requires |tail| == CLUSTER_SIZE - BLOCK_SIZE
  {
    var map0 := [CLUSTER_0_VALUE, CLUSTER_1_VALUE, END_OF_FILE] + NoWords(MAP_SIZE - 3);
    var root := NewTable(RootName(), RootName(), ROOT_CLUSTER, ROOT_CLUSTER);
    Fs(map0 + [WordAt(root, 0)],
       disk[BOOT_SECTOR := Signature() + tail][FAT_CLUSTER := FatBytes(map0)][ROOT_CLUSTER := root])
  }

  predicate Signed(disk: Clusters) { disk[BOOT_SECTOR][..BLOCK_SIZE] == Signature() }

  /** A new boot: the driver state starts as zeros, then the map is read or the disk formatted. */
  function Mount(disk: Clusters, tail: seq<byte>): Fs
    requires |tail| == CLUSTER_SIZE - BLOCK_SIZE
  {
    if Signed(disk) then Fs(FatWords(disk[FAT_CLUSTER]) + [EMPTY], disk) else Format(disk, tail)
  }
}

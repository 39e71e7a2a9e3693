/** The on-disk layout of "FAT32 - IF2230 edition": constants, 32-byte directory
    slots, 2048-byte clusters and the file allocation table, all as the bytes the
    packed C structures occupy. */
module Layout {
  type byte = x: int | 0 <= x < 256
  type word = x: int | 0 <= x < 0x1_0000_0000

  const BLOCK_SIZE := 512
  const CLUSTER_BLOCK_COUNT := 4
  const CLUSTER_SIZE := 2048
  const MAP_SIZE := 512
  const SLOTS := 64
  const DISK_CLUSTERS := 2048 // a 4 MiB image

  const CLUSTER_0_VALUE: word := 0x0FFF_FFF0
  const CLUSTER_1_VALUE: word := 0x0FFF_FFFF
  const END_OF_FILE: word := 0x0FFF_FFFF
  const EMPTY: word := 0

  const BOOT_SECTOR := 0
  const FAT_CLUSTER := 1
  const ROOT_CLUSTER := 2

  const ATTR_SUBDIRECTORY: byte := 0x10
  const UATTR_NOT_EMPTY: byte := 0xAA

  function Zeros(n: nat): (z: seq<byte>)
    ensures |z| == n && forall i :: 0 <= i < n ==> z[i] == 0
  {
    seq(n, _ => 0)
  }

  type Cluster = b: seq<byte> | |b| == CLUSTER_SIZE witness Zeros(2048)
  type Slot = b: seq<byte> | |b| == 32 witness Zeros(32)
  type Name = b: seq<byte> | |b| == 8 witness Zeros(8)
  type Ext = b: seq<byte> | |b| == 3 witness Zeros(3)

  function ZeroCluster(): Cluster { Zeros(CLUSTER_SIZE) }

  function ZeroSlot(): Slot { Zeros(32) }

  function NoExt(): Ext { [0, 0, 0] }

  function RootName(): Name {
    var r: Name := ['r' as int, 'o' as int, 'o' as int, 't' as int, 0, 0, 0, 0];
    r
  }

  // ---- Little-endian words ----

  function Low(w: word): (b: seq<byte>)
    ensures |b| == 2
  {
    [w % 256, w / 256 % 256]
  }

  function High(w: word): (b: seq<byte>)
    ensures |b| == 2
  {
    [w / 65536 % 256, w / 16777216]
  }

  /** The word stored little-endian at offset i. */
  function WordAt(b: seq<byte>, i: nat): word
    requires i + 4 <= |b|
  {
    (b[i] as int) + 256 * (b[i + 1] as int) + 65536 * (b[i + 2] as int) + 16777216 * (b[i + 3] as int)
  }

  /** Dividing twice by 256 is dividing by 65536. */
  lemma TwoBytes(w: nat)
    ensures w % 65536 == 256 * (w / 256 % 256) + w % 256 && w / 65536 == w / 256 / 256
  {
    var q, r := w / 256 / 256, 256 * (w / 256 % 256) + w % 256;
    assert w == 65536 * q + r && 0 <= r < 65536;
  }

  /** So dividing by 16777216 is dividing by 65536 and by 256. */
  lemma ThreeBytes(w: nat)
    ensures w / 16777216 == w / 65536 / 256
  {
    var q, r := w / 65536 / 256, 65536 * (w / 65536 % 256) + w % 65536;
    assert w == 16777216 * q + r && 0 <= r < 16777216;
  }

  lemma HalfBytes(w: word)
    ensures (Low(w)[0] as int) + 256 * (Low(w)[1] as int) == w % 65536
    ensures (High(w)[0] as int) + 256 * (High(w)[1] as int) == w / 65536
  {
    TwoBytes(w);
    ThreeBytes(w);
  }

  lemma WordBytes(w: word)
    ensures WordAt(Low(w) + High(w), 0) == w
  {
    HalfBytes(w);
  }

  // ---- Directory entries ----

  /** The fields of a directory entry. `times` are the eleven bytes the driver never reads:
      undelete flag, creation and access times, modification time. */
  datatype Item = Item(name: Name, ext: Ext, attr: byte, user: byte, cluster: nat, size: nat, times: seq<byte>) {
    predicate Live() { user == UATTR_NOT_EMPTY }

    predicate Folder() { attr == ATTR_SUBDIRECTORY }

    predicate Named(n: Name, x: Ext) { name == n && ext == x }

    predicate Alike(other: Item) { name == other.name && ext == other.ext && attr == other.attr }
  }

  function HalfAt(e: Slot, i: nat): nat
    requires i + 2 <= 32
  {
    (e[i] as int) + 256 * (e[i + 1] as int)
  }

  /** The fields of a 32-byte slot; the cluster number is stored in two halves. */
  function Decode(e: Slot): Item {
    Item(e[..8], e[8..11], e[11], e[12], 65536 * HalfAt(e, 20) + HalfAt(e, 26), WordAt(e, 28), e[13..20] + e[22..26])
  }

  /** An unused entry. */
  function Blank(): Item { Item(Zeros(8), Zeros(3), 0, 0, 0, 0, Zeros(11)) }

  lemma ZeroIsBlank()
    ensures Decode(ZeroSlot()) == Blank()
  {
    var e := ZeroSlot();
    assert e[..8] == Zeros(8) && e[8..11] == Zeros(3) && e[13..20] + e[22..26] == Zeros(11);
  }

  /** Only the all-zero slot reads as an unused entry. */
  lemma BlankIsZero(e: Slot)
    ensures Decode(e) == Blank() <==> e == ZeroSlot()
  {
    if Decode(e) == Blank() {
      var times: seq<byte> := e[13..20] + e[22..26];
      forall k | 0 <= k < 32
        ensures e[k] == 0
      {
        if k < 8 {
          assert e[..8][k] == 0;
        } else if k < 11 {
          assert e[8..11][k - 8] == 0;
        } else if 13 <= k < 20 {
          assert times[k - 13] == 0;
        } else if 22 <= k < 26 {
          assert times[k - 15] == 0;
        }
      }
    }
    ZeroIsBlank();
  }

  /** The i-th 32-byte slot of a directory table. */
  function SlotAt(t: Cluster, i: nat): Slot
    requires i < SLOTS
  {
    t[32 * i..32 * i + 32]
  }

  /** A cluster read as a directory table. */
  function TableOf(t: Cluster): Table {
    seq(SLOTS, i requires 0 <= i < SLOTS => Decode(SlotAt(t, i)))
  }

  function BlankTable(): Table { seq(SLOTS, _ => Blank()) }

  type Table = t: seq<Item> | |t| == SLOTS witness seq(SLOTS, _ => Blank())

  /** The table with slot i replaced. */
  function SetSlot(t: Cluster, i: nat, e: Slot): Cluster
    requires i < SLOTS
  {
    t[..32 * i] + e + t[32 * i + 32..]
  }

  lemma SetSlotAt(t: Cluster, i: nat, e: Slot, j: nat)
    requires i < SLOTS && j < SLOTS
    ensures SlotAt(SetSlot(t, i, e), j) == if j == i then e else SlotAt(t, j)
  {
  }

  /** Replacing a slot replaces one entry of the table and no other. */
  lemma SetSlotTable(t: Cluster, i: nat, e: Slot)
    requires i < SLOTS
    ensures TableOf(SetSlot(t, i, e)) == TableOf(t)[i := Decode(e)]
  {
    forall j | 0 <= j < SLOTS
      ensures TableOf(SetSlot(t, i, e))[j] == TableOf(t)[i := Decode(e)][j]
    {
      SetSlotAt(t, i, e, j);
    }
  }

  /** Putting the old slot back undoes a replacement, byte for byte. */
  lemma SetSlotUndone(t: Cluster, i: nat, e: Slot)
    requires i < SLOTS
    ensures SetSlot(SetSlot(t, i, e), i, SlotAt(t, i)) == t
  {
  }

  lemma ZeroClusterIsBlank()
    ensures TableOf(ZeroCluster()) == BlankTable()
  {
    forall j | 0 <= j < SLOTS
      ensures TableOf(ZeroCluster())[j] == Blank()
    {
      assert SlotAt(ZeroCluster(), j) == ZeroSlot();
      ZeroIsBlank();
    }
  }

  /** What init_directory_entry makes of slot e: it leaves the time fields alone. */
  function MakeEntry(e: Slot, name: Name, ext: Ext, attr: byte, cluster: word, size: word): Slot {
    (name + ext + [attr, UATTR_NOT_EMPTY] + e[13..20]) + (High(cluster) + e[22..26] + Low(cluster) + (Low(size) + High(size)))
  }

  /** Where the last twelve bytes of an entry come from. */
  lemma BackBytes(front: seq<byte>, high: seq<byte>, times: seq<byte>, low: seq<byte>, size: seq<byte>)
    requires |front| == 20 && |high| == 2 && |times| == 4 && |low| == 2 && |size| == 4
    ensures var r := front + (high + times + low + size);
      && |r| == 32 && r[20] == high[0] && r[21] == high[1] && r[22..26] == times
      && r[26] == low[0] && r[27] == low[1] && WordAt(r, 28) == WordAt(size, 0)
  {
    var r, back := front + (high + times + low + size), high + times + low + size;
    assert forall i :: 0 <= i < 12 ==> r[20 + i] == back[i];
    assert back[0] == high[0] && back[1] == high[1] && back[2..6] == times && back[6] == low[0] && back[7] == low[1];
    assert r[22..26] == back[2..6];
    assert back[8] == size[0] && back[9] == size[1] && back[10] == size[2] && back[11] == size[3];
  }

  lemma MakeEntryNumbers(front: seq<byte>, times: seq<byte>, cluster: word, size: word)
    requires |front| == 20 && |times| == 4
    ensures var r: Slot := front + (High(cluster) + times + Low(cluster) + (Low(size) + High(size)));
      && r[22..26] == times
      && HalfAt(r, 26) == cluster % 65536 && HalfAt(r, 20) == cluster / 65536
      && WordAt(r, 28) == size
  {
    BackBytes(front, High(cluster), times, Low(cluster), Low(size) + High(size));
    HalfBytes(cluster);
    WordBytes(size);
  }

  lemma MakeEntryDecodes(e: Slot, name: Name, ext: Ext, attr: byte, cluster: word, size: word)
    ensures Decode(MakeEntry(e, name, ext, attr, cluster, size))
         == Item(name, ext, attr, UATTR_NOT_EMPTY, cluster, size, e[13..20] + e[22..26])
    ensures HalfAt(MakeEntry(e, name, ext, attr, cluster, size), 26) == cluster % 65536
  {
    var front: seq<byte> := name + ext + [attr, UATTR_NOT_EMPTY] + e[13..20];
    var r := MakeEntry(e, name, ext, attr, cluster, size);
    assert front[11] == attr && front[12] == UATTR_NOT_EMPTY && front[..8] == name && front[8..11] == ext;
    assert r[..8] == front[..8] && r[8..11] == front[8..11] && r[13..20] == front[13..20] == e[13..20];
    MakeEntryNumbers(front, e[22..26], cluster, size);
  }

  // ---- The file allocation table ----

  function FatBytes(f: seq<word>): (b: seq<byte>)
    ensures |b| == 4 * |f|
  {
    if f == [] then [] else Low(f[0]) + High(f[0]) + FatBytes(f[1..])
  }

  function FatWords(b: seq<byte>): (f: seq<word>)
    ensures |f| == |b| / 4
  {
    if |b| < 4 then [] else [WordAt(b, 0)] + FatWords(b[4..])
  }

  /** A table written to disk and read back is the same table. */
  lemma {:induction false} FatRoundTrip(f: seq<word>)
    ensures FatWords(FatBytes(f)) == f
  {
    if f != [] {
      var q := Low(f[0]) + High(f[0]);
      var rest := FatBytes(f[1..]);
      assert (q + rest)[4..] == rest;
      assert WordAt(q + rest, 0) == WordAt(q, 0);
      WordBytes(f[0]);
      FatRoundTrip(f[1..]);
    }
  }

  // ---- The boot signature ----

  const SIGNATURE_TEXT: string :=
    "Course          " + "Designed by     " + "Lab Sister ITB  " + "Made with <3    " + "-----------2024\n"

  function Signature(): (b: seq<byte>)
    ensures |b| == BLOCK_SIZE
  {
    seq(BLOCK_SIZE, i requires 0 <= i < BLOCK_SIZE =>
      if i < |SIGNATURE_TEXT| then SIGNATURE_TEXT[i] as int % 256
      else if i == BLOCK_SIZE - 2 then 'O' as int
      else if i == BLOCK_SIZE - 1 then 'k' as int
      else 0)
  }
}

/** The memory-backed disk: a flat image of bytes, moved in 512-byte blocks. */
module Disk {
  import opened Layout

  function BlankClusters(n: nat): (s: seq<Cluster>)
    ensures |s| == n && forall c :: 0 <= c < n ==> s[c] == ZeroCluster()
  {
    seq(n, _ => ZeroCluster())
  }

  type Clusters = s: seq<Cluster> | |s| == DISK_CLUSTERS witness BlankClusters(DISK_CLUSTERS)

  const IMAGE_SIZE := DISK_CLUSTERS * CLUSTER_SIZE

  function ClusterToLba(cluster: nat): nat { CLUSTER_BLOCK_COUNT * cluster }

  /** The bytes of cluster c of an image. */
  function ClusterBytes(image: seq<byte>, c: nat): Cluster
    requires |image| == IMAGE_SIZE && c < DISK_CLUSTERS
  {
    image[CLUSTER_SIZE * c..CLUSTER_SIZE * c + CLUSTER_SIZE]
  }

  /** An image cut into its clusters. */
  function Cut(image: seq<byte>): Clusters
    requires |image| == IMAGE_SIZE
  {
    seq(DISK_CLUSTERS, c requires 0 <= c < DISK_CLUSTERS => ClusterBytes(image, c))
  }

  /** Equal clusters mean equal images: nothing of the disk escapes the cluster view. */
  lemma CutIsInjective(image: seq<byte>, other: seq<byte>)
    requires |image| == |other| == IMAGE_SIZE
    requires Cut(image) == Cut(other)
    ensures image == other
  {
    forall k | 0 <= k < IMAGE_SIZE
      ensures image[k] == other[k]
    {
      var c := k / CLUSTER_SIZE;
      assert Cut(image)[c][k % CLUSTER_SIZE] == Cut(other)[c][k % CLUSTER_SIZE];
    }
  }

  /** Overwriting the bytes of cluster c overwrites entry c of the cluster view and no other. */
  lemma CutOfSplice(image: seq<byte>, c: nat, data: Cluster)
    requires |image| == IMAGE_SIZE && c < DISK_CLUSTERS
    ensures Cut(image[..CLUSTER_SIZE * c] + data + image[CLUSTER_SIZE * c + CLUSTER_SIZE..]) == Cut(image)[c := data]
  {
    var out := image[..CLUSTER_SIZE * c] + data + image[CLUSTER_SIZE * c + CLUSTER_SIZE..];
    forall d | 0 <= d < DISK_CLUSTERS
      ensures ClusterBytes(out, d) == if d == c then data else ClusterBytes(image, d)
    {
      if d < c {
        assert CLUSTER_SIZE * d + CLUSTER_SIZE <= CLUSTER_SIZE * c;
      } else if d > c {
        assert CLUSTER_SIZE * c + CLUSTER_SIZE <= CLUSTER_SIZE * d;
      }
    }
  }

  /** Writing n clusters and reading them back gives what was written; the others are as they were. */
  lemma WrittenIsRead(image: seq<byte>, c: nat, n: nat, data: seq<byte>)
    requires |image| == IMAGE_SIZE && c + n <= DISK_CLUSTERS && |data| == CLUSTER_SIZE * n
    ensures var out := image[..CLUSTER_SIZE * c] + data + image[CLUSTER_SIZE * (c + n)..];
      && |out| == IMAGE_SIZE && out[CLUSTER_SIZE * c..CLUSTER_SIZE * (c + n)] == data
      && forall d :: 0 <= d < DISK_CLUSTERS && !(c <= d < c + n) ==> ClusterBytes(out, d) == ClusterBytes(image, d)
  {
    var out := image[..CLUSTER_SIZE * c] + data + image[CLUSTER_SIZE * (c + n)..];
    forall d | 0 <= d < DISK_CLUSTERS && !(c <= d < c + n)
      ensures ClusterBytes(out, d) == ClusterBytes(image, d)
    {
      if d < c {
        assert CLUSTER_SIZE * d + CLUSTER_SIZE <= CLUSTER_SIZE * c;
      } else {
        assert CLUSTER_SIZE * (c + n) <= CLUSTER_SIZE * d;
      }
    }
  }

  /** t with the bytes from d on overwritten by `more`. */
  function Over(t: seq<byte>, d: nat, more: seq<byte>): (r: seq<byte>)
    requires d + |more| <= |t|
    ensures |r| == |t|
  {
    t[..d] + more + t[d + |more|..]
  }

  lemma RunMore(src: seq<byte>, x: nat, y: nat, z: nat)
    requires x <= y <= z <= |src|
    ensures src[x..y] + src[y..z] == src[x..z]
  {
  }

  lemma OverMore(pre: seq<byte>, mid: seq<byte>, post: seq<byte>, more: seq<byte>)
    requires |more| <= |post|
    ensures Over(pre + mid + post, |pre| + |mid|, more) == pre + (mid + more) + post[|more|..]
  {
    var t, d := pre + mid + post, |pre| + |mid|;
    assert t[..d] == pre + mid && t[d + |more|..] == post[|more|..];
  }

  /** Where a run of src from x on is copied between pre and post, up to y so far, copying on to z
      makes the run longer. */
  lemma BlockStep(t: seq<byte>, pre: seq<byte>, src: seq<byte>, x: nat, y: nat, z: nat, post: seq<byte>, k: nat)
    requires x <= y <= z <= |src| && k + (z - y) <= |post| && t == pre + src[x..y] + post[k..]
    ensures Over(t, |pre| + (y - x), src[y..z]) == pre + src[x..z] + post[k + (z - y)..]
  {
    OverMore(pre, src[x..y], post[k..], src[y..z]);
    RunMore(src, x, y, z);
    assert post[k..][z - y..] == post[k + (z - y)..];
  }

  /** memcpy: n bytes from src at s to dst at d. */
  method MemCopy(dst: array<byte>, d: nat, src: array<byte>, s: nat, n: nat)
    requires dst != src && d + n <= dst.Length && s + n <= src.Length
    modifies dst
    ensures dst[..] == Over(old(dst[..]), d, src[s..s + n])
  {
    var i := 0;
    while i < n
      invariant i <= n
      invariant forall k :: 0 <= k < dst.Length ==> dst[k] == if d <= k < d + i then src[s + k - d] else old(dst[k])
    {
      dst[d + i] := src[s + i];
      i := i + 1;
    }
  }

  /** One block behind those copied so far: the run of src that starts at x grows from s on. */
  method CopyBlock(dst: array<byte>, d: nat, src: array<byte>, s: nat,
                   ghost bytes: seq<byte>, ghost pre: seq<byte>, ghost x: nat, ghost post: seq<byte>, ghost k: nat)
    requires dst != src && src[..] == bytes && x <= s && s + BLOCK_SIZE <= |bytes| && k + BLOCK_SIZE <= |post|
    requires d == |pre| + (s - x) && dst[..] == pre + bytes[x..s] + post[k..]
    modifies dst
    ensures dst[..] == pre + bytes[x..s + BLOCK_SIZE] + post[k + BLOCK_SIZE..]
  {
    BlockStep(dst[..], pre, bytes, x, s, s + BLOCK_SIZE, post, k);
    MemCopy(dst, d, src, s, BLOCK_SIZE);
  }

  class BlockDevice {
    const image: array<byte>

    constructor (contents: array<byte>)
      ensures image == contents
    {
      image := contents;
    }

    ghost predicate Valid() { image.Length == IMAGE_SIZE }

    ghost function View(): Clusters
      requires Valid()
      reads image
    {
      Cut(image[..])
    }

    method ReadBlocks(ptr: array<byte>, at: nat, lba: nat, count: nat)
      requires Valid() && ptr != image
      requires at + BLOCK_SIZE * count <= ptr.Length && BLOCK_SIZE * (lba + count) <= IMAGE_SIZE
      modifies ptr
      ensures ptr[..] == old(ptr[..at]) + image[BLOCK_SIZE * lba..BLOCK_SIZE * (lba + count)] + old(ptr[at + BLOCK_SIZE * count..])
    {
      ghost var src, pre, post := image[..], ptr[..at], ptr[at..];
      var i := 0;
      while i < count
        invariant i <= count && image[..] == src
        invariant ptr[..] == pre + src[BLOCK_SIZE * lba..BLOCK_SIZE * (lba + i)] + post[BLOCK_SIZE * i..]
      {
        CopyBlock(ptr, at + BLOCK_SIZE * i, image, BLOCK_SIZE * (lba + i), src, pre, BLOCK_SIZE * lba, post, BLOCK_SIZE * i);
        i := i + 1;
      }
    }

    method WriteBlocks(ptr: array<byte>, at: nat, lba: nat, count: nat)
      requires Valid() && ptr != image
      requires at + BLOCK_SIZE * count <= ptr.Length && BLOCK_SIZE * (lba + count) <= IMAGE_SIZE
      modifies image
      ensures image[..] == old(image[..BLOCK_SIZE * lba]) + ptr[at..at + BLOCK_SIZE * count] + old(image[BLOCK_SIZE * (lba + count)..])
    {
      ghost var src, pre, post := ptr[..], image[..BLOCK_SIZE * lba], image[BLOCK_SIZE * lba..];
      var i := 0;
      while i < count
        invariant i <= count && ptr[..] == src
        invariant image[..] == pre + src[at..at + BLOCK_SIZE * i] + post[BLOCK_SIZE * i..]
      {
        CopyBlock(image, BLOCK_SIZE * (lba + i), ptr, at + BLOCK_SIZE * i, src, pre, at, post, BLOCK_SIZE * i);
        i := i + 1;
      }
    }

    /** read_clusters: `count` clusters into ptr at offset at; the block count is kept in eight bits. */
    method ReadClusters(ptr: array<byte>, at: nat, cluster: nat, count: nat)
      requires Valid() && ptr != image && CLUSTER_BLOCK_COUNT * count < 256
      requires at + CLUSTER_SIZE * count <= ptr.Length && cluster + count <= DISK_CLUSTERS
      modifies ptr
      ensures ptr[..] == old(ptr[..at]) + image[CLUSTER_SIZE * cluster..CLUSTER_SIZE * (cluster + count)]
                         + old(ptr[at + CLUSTER_SIZE * count..])
    {
      ReadBlocks(ptr, at, ClusterToLba(cluster), CLUSTER_BLOCK_COUNT * count);
    }

    /** write_clusters: `count` clusters from ptr at offset at. */
    method WriteClusters(ptr: array<byte>, at: nat, cluster: nat, count: nat)
      requires Valid() && ptr != image && CLUSTER_BLOCK_COUNT * count < 256
      requires at + CLUSTER_SIZE * count <= ptr.Length && cluster + count <= DISK_CLUSTERS
      modifies image
      ensures image[..] == old(image[..CLUSTER_SIZE * cluster]) + ptr[at..at + CLUSTER_SIZE * count]
                           + old(image[CLUSTER_SIZE * (cluster + count)..])
    {
      WriteBlocks(ptr, at, ClusterToLba(cluster), CLUSTER_BLOCK_COUNT * count);
    }

    /** One cluster into ptr at offset at; the rest of ptr is left alone. */
    method ReadCluster(ptr: array<byte>, at: nat, cluster: nat)
      requires Valid() && ptr != image
      requires at + CLUSTER_SIZE <= ptr.Length && cluster < DISK_CLUSTERS
      modifies ptr
      ensures ptr[..] == old(ptr[..at]) + View()[cluster] + old(ptr[at + CLUSTER_SIZE..])
    {
      ReadClusters(ptr, at, cluster, 1);
    }

    /** A write changes one cluster of the whole image and nothing else. */
    method WriteCluster(ptr: array<byte>, at: nat, cluster: nat)
      requires Valid() && ptr != image
      requires at + CLUSTER_SIZE <= ptr.Length && cluster < DISK_CLUSTERS
      modifies image
      ensures View() == old(View())[cluster := ptr[at..at + CLUSTER_SIZE]]
    {
      CutOfSplice(image[..], cluster, ptr[at..at + CLUSTER_SIZE]);
      WriteClusters(ptr, at, cluster, 1);
    }
  }
}

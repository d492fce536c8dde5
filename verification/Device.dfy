/** The disk: a byte array written and read in 512-byte blocks (src/external-inserter.c:10-33). */
module Device {
  import opened Bytes
  import opened Directory
  import opened Volumes
  import opened Crash

  const BLOCK_COUNT := 8192
  const STORAGE_SIZE := 4194304   // 4 * 1024 * 1024

  function ClustersOf(image: seq<byte>): Disk
    requires |image| == STORAGE_SIZE
  {
    seq<Cluster>(2048, c requires 0 <= c < 2048 => image[2048 * c..2048 * c + 2048])
  }

  /** One block of the image replaced. */
  function PutBlock(image: seq<byte>, w: SectorWrite): seq<byte>
    requires |image| == STORAGE_SIZE
  {
    image[..512 * w.lba] + w.data + image[512 * w.lba + 512..]
  }

  /** The clusters of the image change as the sector-level disk does. */
  lemma ClustersAfterBlock(image: seq<byte>, w: SectorWrite)
    requires |image| == STORAGE_SIZE
    ensures |PutBlock(image, w)| == STORAGE_SIZE
    ensures ClustersOf(PutBlock(image, w)) == Store(ClustersOf(image), w)
  {
    var after, d := PutBlock(image, w), ClustersOf(image);
    forall c | 0 <= c < 2048
      ensures ClustersOf(after)[c] == Store(d, w)[c]
    {
      var x := ClustersOf(after)[c];
      forall k | 0 <= k < 2048
        ensures x[k] == Store(d, w)[c][k]
      {
        assert x[k] == after[2048 * c + k];
        assert d[c][k] == image[2048 * c + k];
        assert 512 * w.lba == 2048 * (w.lba / 4) + 512 * (w.lba % 4);
      }
    }
  }

  lemma CopiedIsPut(before: seq<byte>, after: seq<byte>, w: SectorWrite)
    requires |before| == |after| == STORAGE_SIZE
    requires forall k :: 0 <= k < STORAGE_SIZE ==>
      after[k] == if 512 * w.lba <= k < 512 * w.lba + 512 then w.data[k - 512 * w.lba] else before[k]
    ensures after == PutBlock(before, w)
  {
  }

  /** The sector writes of a run of blocks. */
  function BlockLog(data: seq<byte>, lba: nat, count: nat): (log: seq<SectorWrite>)
    requires |data| == 512 * count && lba + count <= BLOCK_COUNT
    ensures |log| == count
  {
    seq(count, i requires 0 <= i < count => SectorWrite(lba + i, data[512 * i..512 * i + 512]))
  }

  lemma PlayNothing(d: Disk)
    ensures Play(d, []) == d
  {
  }

  lemma BlockStep(d: Disk, data: seq<byte>, lba: nat, count: nat, i: nat, w: SectorWrite)
    requires |data| == 512 * count && lba + count <= BLOCK_COUNT && i < count
    requires w == SectorWrite(lba + i, data[512 * i..512 * i + 512])
    ensures BlockLog(data, lba, count)[..i + 1] == BlockLog(data, lba, count)[..i] + [w]
    ensures Play(d, BlockLog(data, lba, count)[..i + 1]) == Store(Play(d, BlockLog(data, lba, count)[..i]), w)
  {
    var log := BlockLog(data, lba, count)[..i + 1];
    assert log[..i] == BlockLog(data, lba, count)[..i] && log[i] == w;
  }

  method Memcpy(dst: array<byte>, to: nat, src: array<byte>, from: nat, n: nat)
    requires dst != src && to + n <= dst.Length && from + n <= src.Length
    modifies dst
    ensures forall k :: 0 <= k < dst.Length ==>
      dst[k] == if to <= k < to + n then src[from + k - to] else old(dst[k])
  {
    for i := 0 to n
      invariant forall k :: 0 <= k < dst.Length ==>
        dst[k] == if to <= k < to + i then src[from + k - to] else old(dst[k])
    {
      dst[to + i] := src[from + i];
    }
  }

  class BlockDevice {
    const image: array<byte>
    ghost var log: seq<SectorWrite>   // every sector written so far, in order

    ghost predicate Valid()
      reads this
    {
      image.Length == STORAGE_SIZE
    }

    ghost function Clusters(): Disk
      reads this, image
      requires Valid()
    {
      ClustersOf(image[..])
    }

    constructor (storage: array<byte>)
      requires storage.Length == STORAGE_SIZE
      ensures Valid() && image == storage && log == []
    {
      image := storage;
      log := [];
    }

    /** Copies blocks into the buffer from offset at on. */
    method ReadBlocks(ptr: array<byte>, at: nat, lba: nat, count: nat)
      requires Valid() && ptr != image && at + 512 * count <= ptr.Length && lba + count <= BLOCK_COUNT
      modifies ptr
      ensures ptr[..] == old(ptr[..at]) + image[512 * lba..512 * (lba + count)] + old(ptr[at + 512 * count..])
    {
      for i := 0 to count
        invariant forall k :: 0 <= k < ptr.Length ==>
          ptr[k] == if at <= k < at + 512 * i then image[512 * lba + k - at] else old(ptr[k])
      {
        Memcpy(ptr, at + 512 * i, image, 512 * (lba + i), 512);
      }
    }

    /** Stores one block after another; the log says in which order. */
    method WriteBlocks(ptr: array<byte>, lba: nat, count: nat)
      requires Valid() && ptr != image && 512 * count <= ptr.Length && lba + count <= BLOCK_COUNT
      modifies image, this`log
      ensures log == old(log) + BlockLog(ptr[..512 * count], lba, count)
      ensures Clusters() == Play(old(Clusters()), BlockLog(ptr[..512 * count], lba, count))
    {
      hide BlockLog, Play, Store, ClustersOf, PutBlock;
      ghost var data := ptr[..512 * count];
      assert Play(Clusters(), []) == Clusters() by { PlayNothing(Clusters()); }
      for i := 0 to count
        invariant ptr[..512 * count] == data
        invariant log == old(log) + BlockLog(data, lba, count)[..i]
        invariant Clusters() == Play(old(Clusters()), BlockLog(data, lba, count)[..i])
      {
        ghost var before := image[..];
        assert 512 * i + 512 <= 512 * count;
        ghost var w := SectorWrite(lba + i, data[512 * i..512 * i + 512]);
        Memcpy(image, 512 * (lba + i), ptr, 512 * i, 512);
        assert forall k :: 0 <= k < 512 ==> w.data[k] == data[512 * i + k] == ptr[512 * i + k];
        CopiedIsPut(before, image[..], w);
        ClustersAfterBlock(before, w);
        BlockStep(old(Clusters()), data, lba, count, i, w);
        log := log + [w];
      }
      assert BlockLog(data, lba, count)[..count] == BlockLog(data, lba, count);
    }
  }

  /** Four blocks at a cluster's address are that cluster's write. */
  lemma ClusterLog(p: Put)
    ensures BlockLog(p.data, 4 * p.at, 4) == Sectors(p)
  {
  }

  lemma PlayCluster(d: Disk, p: Put)
    ensures Play(d, Sectors(p)) == d[p.at := p.data]
  {
    PlaySectors(d, p, 4);
    assert Sectors(p)[..4] == Sectors(p);
    TornWhole(d, p);
  }
}

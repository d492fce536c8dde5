/** The file system driver of src/fat32.c, on the block device, proved to do what module Volumes says. */
module Driver {
  import opened Bytes
  import opened Directory
  import opened Fat
  import opened Tree
  import opened Volumes
  import opened Crash
  import opened Device

  lemma ExpandOne(ps: seq<Put>, p: Put)
    ensures Expand(ps + [p]) == Expand(ps) + Sectors(p)
  {
    assert (ps + [p])[..|ps|] == ps;
  }

  /** The device has gone from disk d0 and log log0 through the cluster writes ps. */
  ghost predicate Wrote(d0: Disk, log0: seq<SectorWrite>, ps: seq<Put>, d: Disk, log: seq<SectorWrite>) {
    d == Apply(d0, ps) && log == log0 + Expand(ps)
  }

  lemma WroteOne(d0: Disk, log0: seq<SectorWrite>, ps: seq<Put>, d: Disk, log: seq<SectorWrite>, p: Put)
    requires Wrote(d0, log0, ps, d, log)
    ensures Wrote(d0, log0, ps + [p], d[p.at := p.data], log + Sectors(p))
  {
    hide Sectors, Apply, Expand;
    ApplyOne(d0, ps, p);
    ExpandOne(ps, p);
    assert log0 + Expand(ps) + Sectors(p) == log0 + (Expand(ps) + Sectors(p));
  }

  lemma WroteNothing(d: Disk, log: seq<SectorWrite>)
    ensures Wrote(d, log, [], d, log)
  {
  }

  /** The buffer s is b with the first k clusters of the chain cs copied over its front. */
  ghost predicate Copied(d: Disk, cs: seq<DataCluster>, k: nat, b: seq<byte>, s: seq<byte>) {
    k <= |cs| && 2048 * k <= |b| && s == Contents(d, cs[..k]) + b[2048 * k..]
  }

  lemma NothingCopied(d: Disk, cs: seq<DataCluster>, b: seq<byte>)
    ensures Copied(d, cs, 0, b, b)
  {
  }

  /** One turn of the copying loop. */
  lemma FetchStep(d: Disk, cs: seq<DataCluster>, k: nat, b: seq<byte>, before: seq<byte>, after: seq<byte>)
    requires k < |cs| && 2048 * (k + 1) <= |b| && Copied(d, cs, k, b, before)
    requires after == before[..2048 * k] + d[cs[k]] + before[2048 * k + 2048..]
    ensures Copied(d, cs, k + 1, b, after)
  {
    assert cs[..k + 1][..k] == cs[..k] && cs[..k + 1][k] == cs[k];
    assert before[2048 * k + 2048..] == b[2048 * (k + 1)..];
  }

  /** Before the last cluster the count is a whole number of clusters, and a turn adds at most one. */
  lemma FetchCount(size: nat, k: nat)
    requires k < ClustersFor(size) && size > 0
    ensures Min(size, 2048 * k) == 2048 * k
    ensures Min(size, 2048 * (k + 1)) == 2048 * k + (if size - 2048 * k > 2048 then 2048 else size - 2048 * k)
  {
  }

  lemma FetchStart(size: nat)
    requires size > 0
    ensures ClustersFor(size) == (size + 2047) / 2048 && Min(size, 2048 * 0) == 0
  {
  }

  lemma FetchEnd(size: nat, m: nat, k: nat)
    requires k <= m && k <= ClustersFor(size) && size > 0 && (k == m || k == ClustersFor(size))
    ensures k == Min(ClustersFor(size), m) && Min(size, 2048 * k) == Min(size, 2048 * m)
  {
  }

  lemma AllCopied(d: Disk, cs: seq<DataCluster>, k: nat, b: seq<byte>, size: nat, s: seq<byte>)
    requires size > 0 && k == Min(ClustersFor(size), |cs|) && 2048 * ClustersFor(size) <= |b| && Copied(d, cs, k, b, s)
    ensures s == Fetched(d, cs, size, b)
  {
  }

  /** The directory buffer of the driver state only ever gets a first slot. */
  predicate BlankTail(t: Table) {
    forall i :: 1 <= i < 64 ==> t[i] == EMPTY_ENTRY
  }

  class FileSystem {
    const device: BlockDevice
    const fat: array<u32>           // driver_state.fat_table.cluster_map
    var dirTableBuf: Table          // driver_state.dir_table_buf
    const clusterBuf: array<byte>   // driver_state.cluster_buf

    ghost function Repr(): set<object> {
      {this, device, device.image, fat, clusterBuf}
    }

    ghost predicate Valid()
      reads this, device
    {
      && device.Valid() && fat.Length == 512 && clusterBuf.Length == 2048
      && fat as object != clusterBuf as object && fat as object != device.image as object
      && clusterBuf != device.image
      && BlankTail(dirTableBuf)
    }

    ghost function Volume(): Volume
      reads this, device, device.image, fat
      requires Valid()
    {
      Volumes.Volume(device.Clusters(), fat[..])
    }

    /** The driver state before anything is mounted: static storage, all zero. */
    constructor (d: BlockDevice)
      requires d.Valid()
      ensures Valid() && device == d
      ensures Volume() == Volumes.Volume(d.Clusters(), seq(512, _ => EMPTY)) && dirTableBuf == EMPTY_TABLE
    {
      device := d;
      fat := new u32[512](_ => EMPTY);
      clusterBuf := new byte[2048](_ => 0);
      dirTableBuf := EMPTY_TABLE;
    }

    function ClusterToLba(cluster: ClusterNumber): nat {
      cluster * 4
    }

    method ReadClusters(ptr: array<byte>, at: nat, cluster: ClusterNumber)
      requires Valid() && ptr != device.image && at + 2048 <= ptr.Length
      modifies ptr
      ensures ptr[..] == old(ptr[..at]) + device.Clusters()[cluster] + old(ptr[at + 2048..])
    {
      device.ReadBlocks(ptr, at, ClusterToLba(cluster), 4);
    }

    method WriteClusters(ptr: array<byte>, cluster: ClusterNumber)
      requires Valid() && ptr != device.image && 2048 <= ptr.Length
      modifies device.image, device`log
      ensures device.Clusters() == old(device.Clusters())[cluster := ptr[..2048]]
      ensures device.log == old(device.log) + Sectors(Put(cluster, ptr[..2048]))
    {
      ghost var p := Put(cluster, ptr[..2048]);
      ClusterLog(p);
      PlayCluster(device.Clusters(), p);
      device.WriteBlocks(ptr, ClusterToLba(cluster), 4);
    }

    /** A struct handed to write_clusters: its bytes go to the cluster. */
    method WriteStruct(data: Cluster, cluster: ClusterNumber)
      requires Valid()
      modifies device.image, device`log
      ensures device.Clusters() == old(device.Clusters())[cluster := data]
      ensures device.log == old(device.log) + Sectors(Put(cluster, data))
    {
      var ptr := new byte[2048](i requires 0 <= i < 2048 => data[i]);
      assert ptr[..2048] == data;
      WriteClusters(ptr, cluster);
    }

    /** A cluster read into a directory table. */
    method ReadTable(cluster: ClusterNumber) returns (t: Table)
      requires Valid()
      ensures t == TableAt(Volume(), cluster)
    {
      var ptr := new byte[2048](_ => 0);
      ReadClusters(ptr, 0, cluster);
      assert ptr[..] == device.Clusters()[cluster];
      t := DecodeTable(ptr[..]);
    }

    // ---------- format and mount ----------

    method InitDirectoryTable(t: Table, name: Name, parent: u32) returns (u: Table)
      ensures u == t[0 := SelfEntry(name, parent)]
    {
      var e := t[0].(name := name, ext := ZERO_EXT, attribute := ATTR_SUBDIRECTORY, userAttribute := UATTR_NOT_EMPTY);
      e := e.(undelete := 0, createTime := 0, createDate := 0, accessDate := 0);
      e := e.(clusterHigh := parent / 0x1_0000, modifiedTime := 0, modifiedDate := 0);
      e := e.(clusterLow := parent % 0x1_0000, filesize := 0);
      u := t[0 := e];
    }

    method IsEmptyStorage() returns (empty: bool)
      requires Valid()
      ensures empty == !Signed(device.Clusters())
    {
      var bootsector := new byte[512](_ => 0);
      device.ReadBlocks(bootsector, 0, 0, 1);
      assert bootsector[..] == device.Clusters()[0][..512];
      empty := bootsector[..] != SIGNATURE;
    }

    method CreateFat32()
      requires Valid()
      modifies Repr()
      ensures Valid()
      ensures Volume() == Formatted(old(device.Clusters()), old(fat[..]))
      ensures device.log == old(device.log) + FormatLog(old(fat[..]))
    {
      ghost var d, f, log0 := device.Clusters(), fat[..], device.log;
      var signature := new byte[512](i requires 0 <= i < 512 => SIGNATURE[i]);
      assert signature[..512] == SIGNATURE;
      device.WriteBlocks(signature, 0, 1);
      BootSectorWritten(d);

      fat[0] := CLUSTER_0_VALUE;
      fat[1] := CLUSTER_1_VALUE;
      fat[2] := END_OF_FILE;
      assert fat[..] == FormatMap(f);
      WriteStruct(EncodeMap(fat[..]), FAT_CLUSTER_NUMBER);

      dirTableBuf := InitDirectoryTable(dirTableBuf, ROOT_NAME, ROOT);
      assert dirTableBuf == NewTable(ROOT_NAME, ROOT);
      WriteStruct(EncodeTable(dirTableBuf), ROOT);
      FormatIsLogged(f, log0);
    }

    method Initialize()
      requires Valid()
      modifies Repr()
      ensures Valid()
      ensures Volume() == if Signed(old(device.Clusters())) then Mounted(old(device.Clusters()))
                          else Formatted(old(device.Clusters()), old(fat[..]))
    {
      hide ClustersOf, Decode32;
      var empty := IsEmptyStorage();
      if empty {
        CreateFat32();
      } else {
        var ptr := new byte[2048](_ => 0);
        ReadClusters(ptr, 0, FAT_CLUSTER_NUMBER);
        assert ptr[..] == device.Clusters()[FAT_CLUSTER_NUMBER];
        ghost var f := DecodeMap(ptr[..]);
        for i := 0 to 512
          invariant forall k :: 0 <= k < i ==> fat[k] == f[k]
          invariant ptr[..] == device.Clusters()[FAT_CLUSTER_NUMBER] == old(device.Clusters())[FAT_CLUSTER_NUMBER]
          invariant device.Clusters() == old(device.Clusters()) && dirTableBuf == old(dirTableBuf)
        {
          fat[i] := Decode32(ptr[4 * i..4 * i + 4]);
        }
        assert fat[..] == f;
      }
    }

    // ---------- read_directory and read ----------

    method ReadDirectory(r: Request, buf: array<byte>) returns (code: int)
      requires Valid() && buf !in Repr() && buf.Length == 2048
      requires ReadDirectoryDefined(Volume(), r)
      modifies buf
      ensures ReadResult(code, buf[..]) == Volumes.ReadDirectory(old(Volume()), r, old(buf[..]))
    {
      hide DecodeTable, ClustersOf;
      if r.name == ZERO_NAME { return -1; }
      var t := ReadTable(r.parent);
      for i := 0 to 64
        invariant buf[..] == old(buf[..]) && FindName(t, r.name, 0) == FindName(t, r.name, i)
      {
        if t[i].name == r.name {
          if t[i].IsDirectory() && t[i].filesize == 0 {
            ReadClusters(buf, 0, t[i].Start());
            assert buf[..] == device.Clusters()[t[i].Start()];
            return 0;
          } else {
            return 1;
          }
        }
      }
      return 2;
    }

    /** One turn of the copying loop: the k-th cluster of the chain lands behind the k before it. */
    method FetchCluster(buf: array<byte>, at: nat, current: DataCluster,
                        ghost cs: seq<DataCluster>, ghost k: nat, ghost b: seq<byte>)
      requires Valid() && buf !in Repr() && at == 2048 * k && k < |cs| && current == cs[k]
      requires at + 2048 <= |b| && Copied(device.Clusters(), cs, k, b, buf[..])
      modifies buf
      ensures Copied(device.Clusters(), cs, k + 1, b, buf[..])
    {
      ghost var before := buf[..];
      ReadClusters(buf, at, current);
      FetchStep(device.Clusters(), cs, k, b, before, buf[..]);
    }

    /** The copying loop of read: the clusters of a chain, one after another, until enough or the end. */
    method FetchChain(start: u32, size: u32, buf: array<byte>) returns (total: nat)
      requires Valid() && buf !in Repr() && size > 0 && 2048 * ClustersFor(size) <= buf.Length
      requires Proper(fat[..], start)
      modifies buf
      ensures total == Min(size, 2048 * |Chain(fat[..], start)|)
      ensures buf[..] == Fetched(device.Clusters(), Chain(fat[..], start), size, old(buf[..]))
    {
      ghost var cs, d, b := Chain(fat[..], start), device.Clusters(), buf[..];
      hide Contents, Chain, Proper, ClustersOf, Fetched, Copied, Min, ClustersFor;
      ghost var f := fat[..];
      ChainShape(f, start);
      NothingCopied(d, cs, b);
      var clustersToRead := (size + 2047) / 2048;
      FetchStart(size);
      var remaining, current: int := size, start;
      total := 0;
      ghost var k := 0;
      while clustersToRead > 0 && current != END_OF_FILE
        invariant k <= |cs| && k <= ClustersFor(size) && clustersToRead == ClustersFor(size) - k
        invariant current == if k < |cs| then cs[k] else END_OF_FILE
        invariant total == Min(size, 2048 * k) && remaining == size - total
        invariant device.Clusters() == d && fat[..] == f
        invariant Copied(d, cs, k, b, buf[..])
        decreases clustersToRead
      {
        FetchCount(size, k);
        var bytesToRead := if remaining > 2048 then 2048 else remaining;
        FetchCluster(buf, total, current, cs, k, b);
        total := total + bytesToRead;
        remaining := remaining - bytesToRead;
        clustersToRead := clustersToRead - 1;
        assert LinkWord(cs, k) == f[cs[k]];
        current := fat[current];
        k := k + 1;
      }
      FetchEnd(size, |cs|, k);
      AllCopied(d, cs, k, b, size, buf[..]);
    }

    method Read(r: Request, buf: array<byte>) returns (code: int)
      requires Valid() && buf !in Repr()
      requires ReadDefined(Volume(), r, buf[..])
      modifies buf
      ensures ReadResult(code, buf[..]) == Volumes.Read(old(Volume()), r, old(buf[..]))
    {
      hide ClustersOf, DecodeTable;
      ghost var v := Volume();
      if r.name == ZERO_NAME { return -1; }
      if r.size == 0 { return 1; }
      var t := ReadTable(r.parent);
      for i := 1 to 64
        invariant Volume() == v && buf.Length == |old(buf[..])| && ReadDefined(v, r, buf[..])
        invariant Volumes.Read(v, r, old(buf[..])) == ReadFrom(v, r, buf[..], i)
      {
        if t[i].name == r.name && t[i].ext == r.ext {
          var total := FetchChain(t[i].Start(), r.size, buf);
          if total / 2048 == r.size / 2048 {
            return 0;
          } else if total / 2048 > r.size / 2048 {
            assert false;   // the code would answer 2 here, but no more is counted than was asked for
          }
        }
      }
      return 3;
    }

    // ---------- write ----------

    /** The search of write for one free cluster, 512 when there is none. The guard reads the table before it
        checks the bound in the source; the word behind the table is read there but decides nothing. */
    method FindFreeCluster() returns (i: nat)
      requires Valid()
      ensures FirstFree(fat[..], 2, 1) == if i < 512 then [i] else []
      ensures 2 <= i <= 512
    {
      i := 2;
      while i < 512 && fat[i] != EMPTY
        invariant 2 <= i <= 512 && FirstFree(fat[..], 2, 1) == FirstFree(fat[..], i, 1)
      {
        i := i + 1;
      }
      assert i < 512 ==> FirstFree(fat[..], i + 1, 0) == [];
    }

    /** The search of write for n free clusters. */
    method CollectFreeClusters(n: nat) returns (clusterEmpty: array<DataCluster>, j: nat)
      requires Valid()
      ensures fresh(clusterEmpty) && clusterEmpty.Length == n && j <= n
      ensures clusterEmpty[..j] == FirstFree(fat[..], 2, n)
    {
      ghost var f := fat[..];
      clusterEmpty := new DataCluster[n](_ => 2);
      j := 0;
      var k: nat := 2;
      while j < n && k < 512
        invariant j <= n && 2 <= k <= 512 && fat[..] == f
        invariant clusterEmpty[..j] + FirstFree(f, k, n - j) == FirstFree(f, 2, n)
      {
        if fat[k] == EMPTY {
          clusterEmpty[j] := k;
          j := j + 1;
        }
        k := k + 1;
      }
    }

    method ClearClusterBuf()
      requires Valid()
      modifies clusterBuf
      ensures clusterBuf[..] == Zeros(2048)
    {
      for i := 0 to 2048
        invariant forall k :: 0 <= k < i ==> clusterBuf[k] == 0
      {
        clusterBuf[i] := 0;
      }
    }

    /** One cluster of a file: n bytes of the buffer are copied over the zeroed cluster buffer, the cluster is
        linked to word, and its data is written. */
    method StoreBlock(buf: array<byte>, ghost size: nat, ghost i: nat, from: nat, n: nat, c: DataCluster, word: u32)
      requires Valid() && buf !in Repr() && clusterBuf[..] == Zeros(2048)
      requires from == 2048 * i && from + n == (if 2048 * (i + 1) <= size then 2048 * (i + 1) else size) <= buf.Length
      requires from <= size <= buf.Length
      modifies fat, clusterBuf, device.image, device`log
      ensures clusterBuf[..] == Zeros(2048)
      ensures fat[..] == old(fat[..])[c := word]
      ensures device.Clusters() == old(device.Clusters())[c := FileBlock(buf[..], size, i)]
      ensures device.log == old(device.log) + Sectors(Put(c, FileBlock(buf[..], size, i)))
    {
      Memcpy(clusterBuf, 0, buf, from, n);
      assert clusterBuf[..2048] == FileBlock(buf[..], size, i);
      fat[c] := word;
      WriteClusters(clusterBuf, c);
      ClearClusterBuf();
    }

    method StoreFile(clusterEmpty: array<DataCluster>, r: Request, buf: array<byte>)
      requires Valid() && buf !in Repr() && clusterEmpty as object !in Repr()
      requires 0 < r.size <= buf.Length && clusterEmpty.Length == ClustersFor(r.size)
      modifies fat, clusterBuf, device.image, device`log
      ensures fat[..] == Link(old(fat[..]), clusterEmpty[..])
      ensures Wrote(old(device.Clusters()), old(device.log), PutsOf(clusterEmpty[..], Blocks(r, buf[..])),
                    device.Clusters(), device.log)
    {
      hide Wrote, FileBlock, ClustersOf, Sectors;
      ghost var cs, f, d, log0, b := clusterEmpty[..], fat[..], device.Clusters(), device.log, buf[..];
      ghost var ps := PutsOf(cs, Blocks(r, b));
      var n := clusterEmpty.Length;
      var remaining: int := r.size;
      ClearClusterBuf();
      WroteNothing(d, log0);
      assert ps[..0] == [];
      for i := 0 to n - 1
        invariant clusterEmpty[..] == cs && buf[..] == b && clusterBuf[..] == Zeros(2048)
        invariant remaining == r.size - 2048 * i && fat[..] == LinkFirst(f, cs, i)
        invariant Wrote(d, log0, ps[..i], device.Clusters(), device.log)
      {
        WroteOne(d, log0, ps[..i], device.Clusters(), device.log, ps[i]);
        assert ps[..i + 1] == ps[..i] + [ps[i]];
        StoreBlock(buf, r.size, i, i * 2048, 2048, clusterEmpty[i], clusterEmpty[i + 1]);
        remaining := remaining - 2048;
      }
      WroteOne(d, log0, ps[..n - 1], device.Clusters(), device.log, ps[n - 1]);
      assert ps[..n - 1] + [ps[n - 1]] == ps;
      StoreBlock(buf, r.size, n - 1, (n - 1) * 2048, remaining, clusterEmpty[n - 1], END_OF_FILE);
    }

    /** The closing writes of write and delete: the allocation table, then the parent's table. */
    method CloseWith(parent: Table, at: ClusterNumber, ghost d: Disk, ghost log0: seq<SectorWrite>, ghost ps: seq<Put>)
      requires Valid() && Wrote(d, log0, ps, device.Clusters(), device.log)
      modifies device.image, device`log
      ensures Wrote(d, log0, ps + [Put(FAT_CLUSTER_NUMBER, EncodeMap(fat[..])), Put(at, EncodeTable(parent))],
                    device.Clusters(), device.log)
    {
      hide Wrote, ClustersOf, Sectors, EncodeMap, EncodeTable;
      ghost var p, q := Put(FAT_CLUSTER_NUMBER, EncodeMap(fat[..])), Put(at, EncodeTable(parent));
      WroteOne(d, log0, ps, device.Clusters(), device.log, p);
      WriteStruct(EncodeMap(fat[..]), FAT_CLUSTER_NUMBER);
      WroteOne(d, log0, ps + [p], device.Clusters(), device.log, q);
      WriteStruct(EncodeTable(parent), at);
      assert ps + [p] + [q] == ps + [p, q];
    }

    method FillEntry(prior: Entry, r: Request, start: DataCluster) returns (e: Entry)
      ensures e == NewEntry(prior, r, start)
    {
      e := prior.(name := r.name, attribute := if r.size == 0 then ATTR_SUBDIRECTORY else ATTR_ARCHIVE);
      e := e.(userAttribute := UATTR_NOT_EMPTY, undelete := 0, createTime := 0, createDate := 0, accessDate := 0);
      e := e.(modifiedTime := 0, modifiedDate := 0, filesize := r.size);
      if r.size != 0 { e := e.(ext := r.ext); }
      e := e.(clusterHigh := start / 0x1_0000 % 0x1_0000, clusterLow := start % 0x1_0000);
    }

    /** The data part of write: a folder's table or a file's blocks; start is 0 when there is no space. */
    method StoreData(r: Request, buf: array<byte>) returns (start: nat)
      requires Valid() && buf !in Repr() && r.size <= MAX_FILE_SIZE && r.size <= buf.Length
      modifies fat, clusterBuf, device.image, device`log
      ensures var f, cs := old(fat[..]), FirstFree(old(fat[..]), 2, ClustersFor(r.size));
        if |cs| == ClustersFor(r.size) then
          && start == cs[0] && fat[..] == Link(f, cs)
          && Wrote(old(device.Clusters()), old(device.log), PutsOf(cs, Blocks(r, buf[..])),
                   device.Clusters(), device.log)
        else
          start == 0 && fat[..] == f && device.Clusters() == old(device.Clusters()) && device.log == old(device.log)
    {
      hide Wrote, ClustersOf, Sectors, EncodeTable, FirstFree;
      ghost var f, d, log0 := fat[..], device.Clusters(), device.log;
      if r.size == 0 {
        var i := FindFreeCluster();
        if i == 512 { return 0; }
        fat[i] := END_OF_FILE;
        LinkSingle(f, i);
        var newDir := InitDirectoryTable(EMPTY_TABLE, r.name, r.parent);
        assert newDir == NewTable(r.name, r.parent);
        WroteNothing(d, log0);
        WroteOne(d, log0, [], d, log0, Put(i, EncodeTable(newDir)));
        WriteStruct(EncodeTable(newDir), i);
        assert PutsOf([i], Blocks(r, buf[..])) == [] + [Put(i, EncodeTable(newDir))];
        return i;
      } else {
        var nCluster := (r.size / 2048 + (if r.size % 2048 != 0 then 1 else 0)) % 0x100;
        assert nCluster == ClustersFor(r.size);
        ClearClusterBuf();
        var clusterEmpty, j := CollectFreeClusters(nCluster);
        if j < nCluster { return 0; }
        assert clusterEmpty[..j] == clusterEmpty[..];
        StoreFile(clusterEmpty, r, buf);
        return clusterEmpty[0];
      }
    }

    method Write(r: Request, buf: array<byte>) returns (code: int)
      requires Valid() && buf !in Repr()
      requires WriteDefined(Volume(), r, buf[..])
      modifies Repr()
      ensures Valid()
      ensures var o := Volumes.Write(old(Volume()), r, buf[..]);
        code == o.code && Volume() == o.volume && device.log == old(device.log) + Expand(o.puts)
    {
      hide ClustersOf, Sectors, EncodeTable, EncodeMap, DecodeTable, FirstFree, NewEntry, Link, BlankTail;
      ghost var v, log0 := Volume(), device.log;
      if r.name == ZERO_NAME { return -1; }
      if r.parent < 2 { return 2; }
      var parentDir := ReadTable(r.parent);
      for i := 1 to 64
        invariant Volume() == v && device.log == log0 && forall j :: 1 <= j < i ==> parentDir[j].name != r.name
      {
        if parentDir[i].name == r.name { return 1; }
      }
      var n: nat := 0;
      while n < 64 && parentDir[n].Used()
        invariant n <= 64 && FreeSlot(parentDir, 0) == FreeSlot(parentDir, n)
      {
        n := n + 1;
      }
      var start := StoreData(r, buf);
      if start == 0 { return 1; }
      ghost var cs := FirstFree(v.fat, 2, ClustersFor(r.size));
      var entry := FillEntry(parentDir[n], r, start);
      parentDir := parentDir[n := entry];
      CloseWith(parentDir, r.parent, v.disk, log0, PutsOf(cs, Blocks(r, buf[..])));
      return 0;
    }

    // ---------- delete ----------

    /** One turn of the walk of delete: the cluster is zeroed, its word read and then cleared. */
    method FreeCluster(cluster: DataCluster) returns (next: u32)
      requires Valid()
      modifies fat, device.image, device`log
      ensures next == old(fat[cluster]) && fat[..] == old(fat[..])[cluster := EMPTY]
      ensures device.Clusters() == old(device.Clusters())[cluster := ZERO_CLUSTER]
      ensures device.log == old(device.log) + Sectors(Put(cluster, ZERO_CLUSTER))
    {
      WriteStruct(ZERO_CLUSTER, cluster);
      next := fat[cluster];
      fat[cluster] := EMPTY;
    }

    /** The same turn, seen as turn k of the walk along cs. */
    method FreeTurn(cluster: DataCluster, ghost f: Map, ghost cs: seq<DataCluster>, ghost k: nat, ghost d: Disk,
                    ghost log0: seq<SectorWrite>) returns (next: u32)
      requires Valid() && Ascending(cs) && k < |cs| && cluster == cs[k]
      requires fat[..] == Clear(f, cs[..k])
      requires Wrote(d, log0, PutsOf(cs[..k], ZeroBlocks(k)), device.Clusters(), device.log)
      modifies fat, device.image, device`log
      ensures next == f[cs[k]] && fat[..] == Clear(f, cs[..k + 1])
      ensures Wrote(d, log0, PutsOf(cs[..k + 1], ZeroBlocks(k + 1)), device.Clusters(), device.log)
    {
      hide Wrote, ClustersOf, Sectors, Clear, Ascending;
      ghost var ps := PutsOf(cs[..k], ZeroBlocks(k));
      WroteOne(d, log0, ps, device.Clusters(), device.log, Put(cluster, ZERO_CLUSTER));
      assert PutsOf(cs[..k + 1], ZeroBlocks(k + 1)) == ps + [Put(cluster, ZERO_CLUSTER)];
      ClearStep(f, cs, k);
      next := FreeCluster(cluster);
    }

    /** The do-while walk of delete: each cluster of the chain is zeroed and its word cleared. */
    method FreeChain(start: u32)
      requires Valid() && Proper(fat[..], start)
      modifies fat, device.image, device`log
      ensures var cs := Chain(old(fat[..]), start);
        && fat[..] == Clear(old(fat[..]), cs)
        && Wrote(old(device.Clusters()), old(device.log), PutsOf(cs, ZeroBlocks(|cs|)),
                 device.Clusters(), device.log)
    {
      hide Wrote, ClustersOf, Sectors, Chain, Proper, Clear, BlankTail, Ascending, PutsOf;
      ghost var f, d, log0 := fat[..], device.Clusters(), device.log;
      ghost var cs := Chain(f, start);
      ChainShape(f, start);
      WroteNothing(d, log0);
      ClearNothing(f, cs);
      NoPuts(cs);
      var cluster: int := start;
      ghost var k := 0;
      while true
        invariant 0 <= k < |cs| && cluster == cs[k]
        invariant fat[..] == Clear(f, cs[..k])
        invariant Wrote(d, log0, PutsOf(cs[..k], ZeroBlocks(k)), device.Clusters(), device.log)
        decreases |cs| - k
      {
        assert f[cs[k]] == LinkWord(cs, k);
        cluster := FreeTurn(cluster, f, cs, k, d, log0);
        k := k + 1;
        if cluster == END_OF_FILE { break; }
      }
      assert cs[..k] == cs;
    }

    /** The run of occupied slots that starts at slot 1 - all that delete looks at in a directory. */
    method LooksEmpty(t: Table) returns (empty: bool)
      ensures empty == !t[1].Used()
    {
      var j := 1;
      while j < 64 && t[j].Used()
        invariant 1 <= j <= 64 && (j > 1 ==> t[1].Used())
      {
        j := j + 1;
      }
      empty := !(j > 1);
    }

    /** Zeroing and freeing what the entry owns: one cluster for a directory, the chain for a file. */
    method FreeEntry(e: Entry)
      requires Valid()
      requires if e.IsDirectory() then 2 <= e.Start() < 512 else Proper(fat[..], e.Start())
      modifies fat, device.image, device`log
      ensures var cs: seq<DataCluster> := if e.IsDirectory() then [e.Start()] else Chain(old(fat[..]), e.Start());
        && fat[..] == Clear(old(fat[..]), cs)
        && Wrote(old(device.Clusters()), old(device.log), PutsOf(cs, ZeroBlocks(|cs|)),
                 device.Clusters(), device.log)
    {
      hide Wrote, ClustersOf, Sectors;
      if e.IsDirectory() {
        ghost var c: DataCluster, d, log0 := e.Start(), device.Clusters(), device.log;
        ClearSingle(fat[..], c);
        WroteNothing(d, log0);
        WroteOne(d, log0, [], d, log0, Put(c, ZERO_CLUSTER));
        assert PutsOf([c], ZeroBlocks(1)) == [] + [Put(c, ZERO_CLUSTER)];
        WriteStruct(ZERO_CLUSTER, e.Start());
        fat[e.Start()] := EMPTY;
      } else {
        FreeChain(e.Start());
      }
    }

    /** The end of a successful delete: the data, the allocation table and then the parent's table are stored. */
    method RemoveSlot(parentDir: Table, i: nat, at: ClusterNumber)
      requires Valid() && 1 <= i < 64 && parentDir == TableAt(Volume(), at)
      requires var e := parentDir[i];
        if e.IsDirectory() then 2 <= e.Start() < 512 else Proper(fat[..], e.Start())
      modifies fat, device.image, device`log
      ensures var e, v := parentDir[i], old(Volume());
        var cs: seq<DataCluster> := if e.IsDirectory() then [e.Start()] else Chain(v.fat, e.Start());
        var o := Removal(v, at, i, cs);
        o.code == 0 && Volume() == o.volume && device.log == old(device.log) + Expand(o.puts)
    {
      hide ClustersOf, Sectors, EncodeTable, EncodeMap, DecodeTable, Chain, Proper, Clear, BlankTail, PutsOf, Apply,
           Expand, TableAt;
      ghost var v, log0, e := Volume(), device.log, parentDir[i];
      ghost var cs: seq<DataCluster> := if e.IsDirectory() then [e.Start()] else Chain(v.fat, e.Start());
      FreeEntry(parentDir[i]);
      CloseWith(parentDir[i := EMPTY_ENTRY], at, v.disk, log0, PutsOf(cs, ZeroBlocks(|cs|)));
    }

    method Delete(r: Request) returns (code: int)
      requires Valid() && DeleteDefined(Volume(), r)
      modifies Repr()
      ensures Valid()
      ensures var o := Volumes.Delete(old(Volume()), r);
        code == o.code && Volume() == o.volume && device.log == old(device.log) + Expand(o.puts)
    {
      hide ClustersOf, DecodeTable, Chain, Proper, Removal;
      ghost var v, log0 := Volume(), device.log;
      if r.name == ZERO_NAME { return -1; }
      var parentDir := ReadTable(r.parent);
      for i := 1 to 64
        invariant Volume() == v && device.log == log0
        invariant FindSlot(parentDir, r.name, r.ext, 1) == FindSlot(parentDir, r.name, r.ext, i)
      {
        if r.name == parentDir[i].name && r.ext == parentDir[i].ext {
          if parentDir[i].IsDirectory() {
            var table := ReadTable(parentDir[i].Start());
            var empty := LooksEmpty(table);
            if !empty { return 2; }
          }
          RemoveSlot(parentDir, i, r.parent);
          return 0;
        }
      }
      return -1;
    }
  }

  lemma LinkSingle(f: Map, c: DataCluster)
    ensures Link(f, [c]) == f[c := END_OF_FILE]
  {
    assert LinkFirst(f, [c], 0) == f;
  }

  lemma ClearNothing(f: Map, cs: seq<DataCluster>)
    ensures Clear(f, cs[..0]) == f
  {
  }

  lemma NoPuts(cs: seq<DataCluster>)
    ensures PutsOf(cs[..0], ZeroBlocks(0)) == []
  {
  }

  lemma ClearStep(f: Map, cs: seq<DataCluster>, k: nat)
    requires Ascending(cs) && k < |cs|
    ensures Clear(f, cs[..k + 1]) == Clear(f, cs[..k])[cs[k] := EMPTY]
    ensures Clear(f, cs[..k])[cs[k]] == f[cs[k]]
  {
    assert cs[..k + 1][..k] == cs[..k];
    ClearWords(f, cs[..k]);
  }

  lemma ClearSingle(f: Map, c: DataCluster)
    ensures Clear(f, [c]) == f[c := EMPTY]
  {
    assert [c][..0] == [];
  }

  lemma FormatIsLogged(f: Map, log0: seq<SectorWrite>)
    ensures log0 + BlockLog(SIGNATURE, 0, 1) + Sectors(Put(FAT_CLUSTER_NUMBER, EncodeMap(FormatMap(f))))
            + Sectors(Put(ROOT, EncodeTable(NewTable(ROOT_NAME, ROOT)))) == log0 + FormatLog(f)
  {
    hide Sectors, EncodeMap, EncodeTable;
    assert SIGNATURE[0..512] == SIGNATURE;
    assert BlockLog(SIGNATURE, 0, 1) == [SectorWrite(0, SIGNATURE)];
  }

  lemma BootSectorWritten(d: Disk)
    ensures Play(d, BlockLog(SIGNATURE, 0, 1)) == d[0 := SIGNATURE + d[0][512..]]
  {
    var log := BlockLog(SIGNATURE, 0, 1);
    assert log[..0] == [] && Play(d, log) == Store(d, log[0]);
    assert SIGNATURE[0..512] == SIGNATURE && d[0][..0] + SIGNATURE + d[0][512..] == SIGNATURE + d[0][512..];
  }
}

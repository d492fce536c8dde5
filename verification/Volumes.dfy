/**
  A mounted volume - the clusters on disk and the cached allocation table - and
  what each operation of src/fat32.c does to it, as functions. The driver class
  is proved to compute these; the theorems about the file system are about them.
*/
module Volumes {
  import opened Bytes
  import opened Directory
  import opened Fat
  import opened Tree

  type ClusterNumber = c: int | 0 <= c < 2048
  type Disk = d: seq<Cluster> | |d| == 2048 witness seq<Cluster>(2048, _ => ZERO_CLUSTER)

  const FAT_CLUSTER_NUMBER: ClusterNumber := 1

  /** The boot sector text of src/fat32.c:9-92: five lines of sixteen characters. */
  const SIGNATURE_TEXT: seq<byte> := [
    0x43, 0x6F, 0x75, 0x72, 0x73, 0x65, 0x20, 0x20, 0x20, 0x20, 0x20, 0x20, 0x20, 0x20, 0x20, 0x20,
    0x44, 0x65, 0x73, 0x69, 0x67, 0x6E, 0x65, 0x64, 0x20, 0x62, 0x79, 0x20, 0x20, 0x20, 0x20, 0x20,
    0x4C, 0x61, 0x62, 0x20, 0x53, 0x69, 0x73, 0x74, 0x65, 0x72, 0x20, 0x49, 0x54, 0x42, 0x20, 0x20,
    0x4D, 0x61, 0x64, 0x65, 0x20, 0x77, 0x69, 0x74, 0x68, 0x20, 0x3C, 0x33, 0x20, 0x20, 0x20, 0x20,
    0x2D, 0x2D, 0x2D, 0x2D, 0x2D, 0x2D, 0x2D, 0x2D, 0x2D, 0x2D, 0x2D, 0x32, 0x30, 0x32, 0x34, 0x0A
  ]

  /** The boot sector: the text, zeros, and "Ok" at the end. */
  const SIGNATURE: seq<byte> := SIGNATURE_TEXT + Zeros(430) + [0x4F, 0x6B]

  datatype Volume = Volume(disk: Disk, fat: Map)

  function TableAt(v: Volume, d: ClusterNumber): Table {
    DecodeTable(v.disk[d])
  }

  function TablesOf(d: Disk): Tables {
    seq(2048, c requires 0 <= c < 2048 => DecodeTable(d[c]))
  }

  function StructureOf(v: Volume): Structure {
    Structure(TablesOf(v.disk), v.fat)
  }

  predicate Signed(d: Disk) {
    d[0][..512] == SIGNATURE
  }

  /** The cached table is the one on disk. */
  predicate Coherent(v: Volume) {
    v.fat == DecodeMap(v.disk[FAT_CLUSTER_NUMBER])
  }

  ghost predicate VolumeOk(v: Volume, l: Layout) {
    && Signed(v.disk) && Coherent(v)
    && v.fat[0] == CLUSTER_0_VALUE && v.fat[1] == CLUSTER_1_VALUE
    && TreeOk(StructureOf(v), l)
  }

  ghost predicate WellFormed(v: Volume) {
    exists l :: VolumeOk(v, l)
  }

  // ---------- cluster writes ----------

  datatype Put = Put(at: ClusterNumber, data: Cluster)

  function Apply(d: Disk, ps: seq<Put>): Disk {
    if ps == [] then d
    else
      var p := ps[|ps| - 1];
      Apply(d, ps[..|ps| - 1])[p.at := p.data]
  }

  lemma ApplyOne(d: Disk, ps: seq<Put>, p: Put)
    ensures Apply(d, ps + [p]) == Apply(d, ps)[p.at := p.data]
  {
    assert (ps + [p])[..|ps|] == ps;
  }

  function PutsOf(cs: seq<DataCluster>, blocks: seq<Cluster>): seq<Put>
    requires |blocks| == |cs|
  {
    seq(|cs|, i requires 0 <= i < |cs| => Put(cs[i], blocks[i]))
  }

  /** Writing to distinct clusters: each gets its block, everything else keeps its contents. */
  lemma {:induction false} ApplyPuts(d: Disk, cs: seq<DataCluster>, blocks: seq<Cluster>)
    requires |blocks| == |cs| && Ascending(cs)
    ensures forall i :: 0 <= i < |cs| ==> Apply(d, PutsOf(cs, blocks))[cs[i]] == blocks[i]
    ensures forall c: ClusterNumber :: c !in cs ==> Apply(d, PutsOf(cs, blocks))[c] == d[c]
    decreases |cs|
  {
    if cs != [] {
      var n := |cs| - 1;
      ApplyPuts(d, cs[..n], blocks[..n]);
      assert PutsOf(cs, blocks) == PutsOf(cs[..n], blocks[..n]) + [Put(cs[n], blocks[n])];
      ApplyOne(d, PutsOf(cs[..n], blocks[..n]), Put(cs[n], blocks[n]));
      assert cs == cs[..n] + [cs[n]];
    }
  }

  // ---------- requests and outcomes ----------

  /** The driver request without its buffer (src/header/filesystem/fat32.h:127-134). */
  datatype Request = Request(name: Name, ext: Ext, parent: u32, size: u32)

  datatype Outcome = Outcome(code: int, volume: Volume, puts: seq<Put>)

  // ---------- write ----------

  predicate NameTaken(t: Table, name: Name) {
    exists i :: 1 <= i < 64 && t[i].name == name
  }

  /** The first slot at or after n that is not in use, 64 when there is none. */
  function FreeSlot(t: Table, n: nat): (k: nat)
    requires n <= 64
    ensures n <= k <= 64
    ensures k < 64 ==> !t[k].Used()
    ensures forall i :: n <= i < k ==> t[i].Used()
    decreases 64 - n
  {
    if n < 64 && t[n].Used() then FreeSlot(t, n + 1) else n
  }

  function SelfEntry(name: Name, parent: u32): Entry {
    Entry(name, ZERO_EXT, ATTR_SUBDIRECTORY, UATTR_NOT_EMPTY, 0, 0, 0, 0, parent / 0x1_0000, 0, 0, parent % 0x1_0000, 0)
  }

  /** The table of a directory that has just been made. */
  function NewTable(name: Name, parent: u32): Table {
    seq(64, i => if i == 0 then SelfEntry(name, parent) else EMPTY_ENTRY)
  }

  /** The entry that write puts into a slot that held prior. */
  function NewEntry(prior: Entry, r: Request, start: DataCluster): (e: Entry)
    ensures e.Used() && e.name == r.name && e.Start() == start && e.filesize == r.size
    ensures r.size == 0 ==> e.IsDirectory() && e.ext == prior.ext
    ensures r.size != 0 ==> e.attribute == ATTR_ARCHIVE && e.ext == r.ext
  {
    Entry(r.name, if r.size == 0 then prior.ext else r.ext,
          if r.size == 0 then ATTR_SUBDIRECTORY else ATTR_ARCHIVE, UATTR_NOT_EMPTY,
          0, 0, 0, 0, start / 0x1_0000, 0, 0, start % 0x1_0000, r.size)
  }

  /** The i-th cluster of a file of the given size: the last one is padded with zeros. */
  function FileBlock(buf: seq<byte>, size: nat, i: nat): Cluster
    requires 2048 * i <= size <= |buf|
  {
    if 2048 * (i + 1) <= size then buf[2048 * i..2048 * (i + 1)]
    else buf[2048 * i..size] + Zeros(2048 * (i + 1) - size)
  }

  /** What the new entry's clusters are filled with. */
  function Blocks(r: Request, buf: seq<byte>): (bs: seq<Cluster>)
    requires r.size <= |buf|
    ensures |bs| == ClustersFor(r.size)
  {
    if r.size == 0 then [EncodeTable(NewTable(r.name, r.parent))]
    else seq(ClustersFor(r.size), i requires 0 <= i < ClustersFor(r.size) => FileBlock(buf, r.size, i))
  }

  /** Where the C function stays inside its arrays: the slot search must find a slot,
      the cluster count must fit 8 bits, and the buffer must hold the file. */
  predicate WriteDefined(v: Volume, r: Request, buf: seq<byte>) {
    || r.name == ZERO_NAME
    || r.parent < 2
    || (r.parent < 2048
        && (NameTaken(TableAt(v, r.parent), r.name)
            || (FreeSlot(TableAt(v, r.parent), 0) < 64 && r.size <= MAX_FILE_SIZE && r.size <= |buf|)))
  }

  /** The three groups of writes of a successful write: data, allocation table, parent table. */
  function WritePuts(v: Volume, r: Request, buf: seq<byte>, cs: seq<DataCluster>): seq<Put>
    requires 2 <= r.parent < 2048 && FreeSlot(TableAt(v, r.parent), 0) < 64 && r.size <= |buf|
    requires |cs| == ClustersFor(r.size)
  {
    PutsOf(cs, Blocks(r, buf))
    + [Put(FAT_CLUSTER_NUMBER, EncodeMap(Link(v.fat, cs))), Put(r.parent, NewParent(v, r, cs[0]))]
  }

  function NewParent(v: Volume, r: Request, start: DataCluster): Cluster
    requires r.parent < 2048 && FreeSlot(TableAt(v, r.parent), 0) < 64
  {
    var t, n := TableAt(v, r.parent), FreeSlot(TableAt(v, r.parent), 0);
    EncodeTable(t[n := NewEntry(t[n], r, start)])
  }

  function Write(v: Volume, r: Request, buf: seq<byte>): Outcome
    requires WriteDefined(v, r, buf)
  {
    if r.name == ZERO_NAME then Outcome(-1, v, [])
    else if r.parent < 2 then Outcome(2, v, [])
    else if NameTaken(TableAt(v, r.parent), r.name) then Outcome(1, v, [])
    else
      var need := ClustersFor(r.size);
      var cs := FirstFree(v.fat, 2, need);
      if |cs| != need then Outcome(1, v, [])
      else
        var ps := WritePuts(v, r, buf, cs);
        Outcome(0, Volume(Apply(v.disk, ps), Link(v.fat, cs)), ps)
  }

  // ---------- delete ----------

  /** The first slot at or after i with this name and extension, 64 when there is none. */
  function FindSlot(t: Table, name: Name, ext: Ext, i: nat): (k: nat)
    requires i <= 64
    ensures i <= k <= 64
    ensures k < 64 ==> t[k].name == name && t[k].ext == ext
    ensures forall j :: i <= j < k ==> t[j].name != name || t[j].ext != ext
    decreases 64 - i
  {
    if i == 64 || (t[i].name == name && t[i].ext == ext) then i else FindSlot(t, name, ext, i + 1)
  }

  /** Where the C function stays inside its arrays and its walk ends. */
  predicate DeleteDefined(v: Volume, r: Request) {
    r.name == ZERO_NAME ||
    (r.parent < 2048 &&
     var k := FindSlot(TableAt(v, r.parent), r.name, r.ext, 1);
     k < 64 ==>
       var e := TableAt(v, r.parent)[k];
       if e.IsDirectory() then 2 <= e.Start() < 512 else Proper(v.fat, e.Start()))
  }

  function ZeroBlocks(n: nat): (bs: seq<Cluster>)
    ensures |bs| == n && forall i :: 0 <= i < n ==> bs[i] == ZERO_CLUSTER
  {
    seq<Cluster>(n, _ => ZERO_CLUSTER)
  }

  function DeletePuts(v: Volume, parent: ClusterNumber, k: nat, cs: seq<DataCluster>): seq<Put>
    requires k < 64
  {
    PutsOf(cs, ZeroBlocks(|cs|))
    + [Put(FAT_CLUSTER_NUMBER, EncodeMap(Clear(v.fat, cs))),
       Put(parent, EncodeTable(TableAt(v, parent)[k := EMPTY_ENTRY]))]
  }

  function Removal(v: Volume, parent: ClusterNumber, k: nat, cs: seq<DataCluster>): Outcome
    requires k < 64
  {
    var ps := DeletePuts(v, parent, k, cs);
    Outcome(0, Volume(Apply(v.disk, ps), Clear(v.fat, cs)), ps)
  }

  function Delete(v: Volume, r: Request): Outcome
    requires DeleteDefined(v, r)
  {
    if r.name == ZERO_NAME then Outcome(-1, v, [])
    else
      var t := TableAt(v, r.parent);
      var k := FindSlot(t, r.name, r.ext, 1);
      if k == 64 then Outcome(-1, v, [])
      else if t[k].IsDirectory() then
        if TableAt(v, t[k].Start())[1].Used() then Outcome(2, v, [])
        else Removal(v, r.parent, k, [t[k].Start()])
      else Removal(v, r.parent, k, Chain(v.fat, t[k].Start()))
  }

  // ---------- read ----------

  function Contents(d: Disk, cs: seq<DataCluster>): (s: seq<byte>)
    ensures |s| == 2048 * |cs|
  {
    if cs == [] then []
    else Contents(d, cs[..|cs| - 1]) + d[cs[|cs| - 1]]
  }

  function Min(a: nat, b: nat): nat {
    if a <= b then a else b
  }

  predicate ReadDefined(v: Volume, r: Request, buf: seq<byte>) {
    || r.name == ZERO_NAME
    || r.size == 0
    || (r.parent < 2048 && 2048 * ClustersFor(r.size) <= |buf|
        && forall i :: 1 <= i < 64 && TableAt(v, r.parent)[i].name == r.name && TableAt(v, r.parent)[i].ext == r.ext ==>
             Proper(v.fat, TableAt(v, r.parent)[i].Start()))
  }

  datatype ReadResult = ReadResult(code: int, buf: seq<byte>)

  /** Copying the first clusters of the chain cs, as many as b bytes take, over the front of the buffer. */
  function Fetched(d: Disk, cs: seq<DataCluster>, b: nat, buf: seq<byte>): (s: seq<byte>)
    requires b > 0 && 2048 * ClustersFor(b) <= |buf|
    ensures |s| == |buf|
  {
    var k := Min(ClustersFor(b), |cs|);
    Contents(d, cs[..k]) + buf[2048 * k..]
  }

  /** The search of read from slot i on: a chain that is too short does not end it. */
  function ReadFrom(v: Volume, r: Request, buf: seq<byte>, i: nat): ReadResult
    requires r.name != ZERO_NAME && r.size > 0 && ReadDefined(v, r, buf) && 1 <= i <= 64
    decreases 64 - i
  {
    if i == 64 then ReadResult(3, buf)
    else
      var e := TableAt(v, r.parent)[i];
      if e.name == r.name && e.ext == r.ext then
        var cs := Chain(v.fat, e.Start());
        var got := Fetched(v.disk, cs, r.size, buf);
        if Min(r.size, 2048 * |cs|) / 2048 == r.size / 2048 then ReadResult(0, got)
        else ReadFrom(v, r, got, i + 1)
      else ReadFrom(v, r, buf, i + 1)
  }

  function Read(v: Volume, r: Request, buf: seq<byte>): ReadResult
    requires ReadDefined(v, r, buf)
  {
    if r.name == ZERO_NAME then ReadResult(-1, buf)
    else if r.size == 0 then ReadResult(1, buf)
    else ReadFrom(v, r, buf, 1)
  }

  // ---------- read_directory ----------

  /** The first slot with this name, slot 0 included, 64 when there is none. */
  function FindName(t: Table, name: Name, i: nat): (k: nat)
    requires i <= 64
    ensures i <= k <= 64
    ensures k < 64 ==> t[k].name == name
    ensures forall j :: i <= j < k ==> t[j].name != name
    decreases 64 - i
  {
    if i == 64 || t[i].name == name then i else FindName(t, name, i + 1)
  }

  predicate ReadDirectoryDefined(v: Volume, r: Request) {
    r.name == ZERO_NAME ||
    (r.parent < 2048 &&
     var t := TableAt(v, r.parent);
     var k := FindName(t, r.name, 0);
     k < 64 && t[k].IsDirectory() && t[k].filesize == 0 ==> t[k].Start() < 2048)
  }

  function ReadDirectory(v: Volume, r: Request, buf: seq<byte>): ReadResult
    requires ReadDirectoryDefined(v, r)
  {
    if r.name == ZERO_NAME then ReadResult(-1, buf)
    else
      var t := TableAt(v, r.parent);
      var k := FindName(t, r.name, 0);
      if k == 64 then ReadResult(2, buf)
      else if t[k].IsDirectory() && t[k].filesize == 0 then ReadResult(0, v.disk[t[k].Start()])
      else ReadResult(1, buf)
  }

  // ---------- format and mount ----------

  /** What create_fat32 writes, given the table cached before: only the first three words are set. */
  function FormatMap(f: Map): Map {
    f[0 := CLUSTER_0_VALUE][1 := CLUSTER_1_VALUE][2 := END_OF_FILE]
  }

  function Formatted(d: Disk, f: Map): Volume {
    var d0 := d[0 := SIGNATURE + d[0][512..]];
    var d1 := d0[1 := EncodeMap(FormatMap(f))];
    Volume(d1[ROOT := EncodeTable(NewTable(ROOT_NAME, ROOT))], FormatMap(f))
  }

  function Mounted(d: Disk): Volume {
    Volume(d, DecodeMap(d[FAT_CLUSTER_NUMBER]))
  }
}

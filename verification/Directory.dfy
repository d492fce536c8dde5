/**
  The 32-byte directory entry and the one-cluster directory table of 64 slots,
  as they lie on the disk (src/header/filesystem/fat32.h:77-100). The layout is
  that of the Microsoft FAT32 File System Specification v1.03, section
  "FAT Directory Structure"; the field uses are this repository's own.
*/
module Directory {
  import opened Bytes

  const ENTRY_SIZE := 32

  const ATTR_SUBDIRECTORY: byte := 0x10
  const ATTR_ARCHIVE: byte := 0x20
  const UATTR_NOT_EMPTY: byte := 0xAA

  type Cluster = s: seq<byte> | |s| == 2048 witness seq(2048, _ => 0)
  type Table = t: seq<Entry> | |t| == 64 witness seq(64, _ => EMPTY_ENTRY)

  datatype Entry = Entry(
    name: Name, ext: Ext, attribute: byte, userAttribute: byte, undelete: byte,
    createTime: u16, createDate: u16, accessDate: u16, clusterHigh: u16,
    modifiedTime: u16, modifiedDate: u16, clusterLow: u16, filesize: u32)
  {
    /** The first cluster of the entry: cluster_high << 16 | cluster_low. */
    function Start(): u32 {
      (clusterHigh as int) * 0x1_0000 + clusterLow as int
    }

    predicate Used() {
      userAttribute == UATTR_NOT_EMPTY
    }

    predicate IsDirectory() {
      attribute == ATTR_SUBDIRECTORY
    }
  }

  const EMPTY_ENTRY: Entry := Entry(ZERO_NAME, ZERO_EXT, 0, 0, 0, 0, 0, 0, 0, 0, 0, 0, 0)
  const EMPTY_TABLE: Table := seq(64, _ => EMPTY_ENTRY)
  const ZERO_CLUSTER: Cluster := Zeros(2048)

  function EncodeEntry(e: Entry): (s: seq<byte>)
    ensures |s| == ENTRY_SIZE
  {
    e.name + e.ext + [e.attribute, e.userAttribute, e.undelete]
    + Encode16(e.createTime) + Encode16(e.createDate) + Encode16(e.accessDate) + Encode16(e.clusterHigh)
    + Encode16(e.modifiedTime) + Encode16(e.modifiedDate) + Encode16(e.clusterLow) + Encode32(e.filesize)
  }

  function DecodeEntry(s: seq<byte>): Entry
    requires |s| == ENTRY_SIZE
  {
    Entry(s[..8], s[8..11], s[11], s[12], s[13],
          Decode16(s[14..16]), Decode16(s[16..18]), Decode16(s[18..20]), Decode16(s[20..22]),
          Decode16(s[22..24]), Decode16(s[24..26]), Decode16(s[26..28]), Decode32(s[28..32]))
  }

  /** Which byte of the 32 is what; two-byte fields and the size have their lowest byte first. */
  lemma EntryLayout(e: Entry)
    ensures var s := EncodeEntry(e);
      && s[..8] == e.name && s[8..11] == e.ext
      && s[11] == e.attribute && s[12] == e.userAttribute && s[13] == e.undelete
      && s[14] == e.createTime % 0x100 && s[15] == e.createTime / 0x100
      && s[16] == e.createDate % 0x100 && s[17] == e.createDate / 0x100
      && s[18] == e.accessDate % 0x100 && s[19] == e.accessDate / 0x100
      && s[20] == e.clusterHigh % 0x100 && s[21] == e.clusterHigh / 0x100
      && s[22] == e.modifiedTime % 0x100 && s[23] == e.modifiedTime / 0x100
      && s[24] == e.modifiedDate % 0x100 && s[25] == e.modifiedDate / 0x100
      && s[26] == e.clusterLow % 0x100 && s[27] == e.clusterLow / 0x100
      && s[28] == e.filesize % 0x100 && s[29] == e.filesize / 0x100 % 0x100
      && s[30] == e.filesize / 0x1_0000 % 0x100 && s[31] == e.filesize / 0x100_0000
  {
    var head := e.name + e.ext + [e.attribute, e.userAttribute, e.undelete];
    var s := EncodeEntry(e);
    assert s[..14] == head && s[..8] == head[..8] && s[8..11] == head[8..11];
    LowestFirst(e.filesize);
    assert s[28..32] == Encode32(e.filesize);
    assert forall k :: 0 <= k < 4 ==> s[28 + k] == s[28..32][k];
  }

  lemma DecodeEntryOfEncode(e: Entry)
    ensures DecodeEntry(EncodeEntry(e)) == e
  {
    hide Number, Encode16, Encode32;
    var s := EncodeEntry(e);
    var head := e.name + e.ext + [e.attribute, e.userAttribute, e.undelete];
    assert s[..14] == head && s[..8] == head[..8] == e.name && s[8..11] == head[8..11] == e.ext;
    assert s[11] == head[11] && s[12] == head[12] && s[13] == head[13];
    assert s[14..16] == Encode16(e.createTime);
    assert s[16..18] == Encode16(e.createDate);
    assert s[18..20] == Encode16(e.accessDate);
    assert s[20..22] == Encode16(e.clusterHigh);
    assert s[22..24] == Encode16(e.modifiedTime);
    assert s[24..26] == Encode16(e.modifiedDate);
    assert s[26..28] == Encode16(e.clusterLow);
    assert s[28..32] == Encode32(e.filesize);
    Decode32OfEncode(e.filesize);
    forall w: u16
      ensures Decode16(Encode16(w)) == w
    {
      Decode16OfEncode(w);
    }
  }

  lemma EncodeEntryOfDecode(s: seq<byte>)
    requires |s| == ENTRY_SIZE
    ensures EncodeEntry(DecodeEntry(s)) == s
  {
    Encode16OfDecode(s[14..16]);
    Encode16OfDecode(s[16..18]);
    Encode16OfDecode(s[18..20]);
    Encode16OfDecode(s[20..22]);
    Encode16OfDecode(s[22..24]);
    Encode16OfDecode(s[24..26]);
    Encode16OfDecode(s[26..28]);
    Encode32OfDecode(s[28..32]);
    assert s == s[..8] + s[8..11] + [s[11], s[12], s[13]] + s[14..16] + s[16..18] + s[18..20]
             + s[20..22] + s[22..24] + s[24..26] + s[26..28] + s[28..32];
  }

  function EncodeTable(t: Table): Cluster {
    seq(2048, k requires 0 <= k < 2048 => EncodeEntry(t[k / 32])[k % 32])
  }

  function DecodeTable(c: Cluster): Table {
    seq(64, i requires 0 <= i < 64 => DecodeEntry(c[32 * i..32 * i + 32]))
  }

  lemma EncodedSlot(t: Table, i: nat)
    requires i < 64
    ensures EncodeTable(t)[32 * i..32 * i + 32] == EncodeEntry(t[i])
  {
    var c := EncodeTable(t);
    forall k | 0 <= k < 32
      ensures c[32 * i..32 * i + 32][k] == EncodeEntry(t[i])[k]
    {
      assert c[32 * i..32 * i + 32][k] == c[32 * i + k];
      assert (32 * i + k) / 32 == i && (32 * i + k) % 32 == k;
    }
  }

  /** Writing a table to disk and reading it back loses nothing. */
  lemma DecodeTableOfEncode(t: Table)
    ensures DecodeTable(EncodeTable(t)) == t
  {
    forall i | 0 <= i < 64
      ensures DecodeTable(EncodeTable(t))[i] == t[i]
    {
      EncodedSlot(t, i);
      DecodeEntryOfEncode(t[i]);
    }
  }

  lemma EqualBySlots(a: Cluster, b: Cluster)
    requires forall i :: 0 <= i < 64 ==> a[32 * i..32 * i + 32] == b[32 * i..32 * i + 32]
    ensures a == b
  {
    forall k | 0 <= k < 2048
      ensures a[k] == b[k]
    {
      var i := k / 32;
      assert a[32 * i..32 * i + 32][k % 32] == a[k];
      assert b[32 * i..32 * i + 32][k % 32] == b[k];
    }
  }

  /** The table view of a cluster holds every one of its bits. */
  lemma EncodeTableOfDecode(c: Cluster)
    ensures EncodeTable(DecodeTable(c)) == c
  {
    hide EncodeTable;
    var t := DecodeTable(c);
    forall i | 0 <= i < 64
      ensures EncodeTable(t)[32 * i..32 * i + 32] == c[32 * i..32 * i + 32]
    {
      EncodedSlot(t, i);
      EncodeEntryOfDecode(c[32 * i..32 * i + 32]);
    }
    EqualBySlots(EncodeTable(t), c);
  }
}

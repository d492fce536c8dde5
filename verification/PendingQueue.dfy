/** The ring buffer of pending directories behind the shell's find command (src/user-shell.c). */
module PendingQueue {
  import opened Bytes

  const MAX_QUEUE_SIZE := 20

  datatype FileInfo = FileInfo(
    filename: FileName, cluster: u32, parent: u32, clusterPathing: Pathing, neff: u32)

  type FileName = s: seq<byte> | |s| == 9 witness seq(9, _ => 0)
  type Pathing = s: seq<u32> | |s| == 16 witness seq(16, _ => 0)

  const NO_INFO: FileInfo := FileInfo([0, 0, 0, 0, 0, 0, 0, 0, 0], 0, 0, seq(16, _ => 0), 0)

  function RingCount(front: int, rear: int): nat
    requires RingOk(front, rear)
  {
    if front == -1 then 0 else if front <= rear then rear - front + 1 else rear - front + 21
  }

  predicate RingOk(front: int, rear: int) {
    (front == -1 && rear == -1) || (0 <= front < 20 && 0 <= rear < 20)
  }

  /** What lies between front and rear, going round. */
  function Ring(s: seq<FileInfo>, front: int, rear: int): (q: seq<FileInfo>)
    requires |s| == 20 && RingOk(front, rear)
    ensures |q| == RingCount(front, rear) <= 20
  {
    seq(RingCount(front, rear), k requires 0 <= k < RingCount(front, rear) => s[(front + k) % 20])
  }

  lemma RingGrows(s: seq<FileInfo>, front: int, rear: int, x: FileInfo)
    requires |s| == 20 && RingOk(front, rear) && |Ring(s, front, rear)| < 20
    ensures (rear + 1) % 20 != front
    ensures var f, r := if front == -1 then 0 else front, (rear + 1) % 20;
      Ring(s[r := x], f, r) == Ring(s, front, rear) + [x]
  {
    var f, r, q := if front == -1 then 0 else front, (rear + 1) % 20, Ring(s, front, rear);
    assert RingCount(f, r) == |q| + 1;
    assert (f + |q|) % 20 == r;
  }

  lemma RingShrinks(s: seq<FileInfo>, front: int, rear: int)
    requires |s| == 20 && RingOk(front, rear) && front != -1
    ensures Ring(s, front, rear) != [] && Ring(s, front, rear)[0] == s[front]
    ensures var (f, r) := if front == rear then (-1, -1) else ((front + 1) % 20, rear);
      Ring(s, f, r) == Ring(s, front, rear)[1..]
  {
    if front != rear {
      var f := (front + 1) % 20;
      assert RingCount(f, rear) + 1 == RingCount(front, rear);
      forall k | 0 <= k < RingCount(f, rear)
        ensures Ring(s, f, rear)[k] == Ring(s, front, rear)[1..][k]
      {
        assert (f + k) % 20 == (front + (k + 1)) % 20;
      }
    }
  }

  class Queue {
    const items: array<FileInfo>
    var front: int
    var rear: int

    ghost predicate Valid()
      reads this
    {
      items.Length == 20 && RingOk(front, rear)
    }

    /** What is pending, first in first. */
    ghost function Contents(): (s: seq<FileInfo>)
      reads this, items
      requires Valid()
    {
      Ring(items[..], front, rear)
    }

    constructor ()
      ensures Valid() && Contents() == [] && fresh(items)
    {
      items := new FileInfo[20](_ => NO_INFO);
      front := -1;
      rear := -1;
    }

    /** A full queue drops the newcomer without a word. */
    method Enqueue(value: FileInfo)
      requires Valid()
      modifies this, items
      ensures Valid()
      ensures Contents() == if |old(Contents())| == MAX_QUEUE_SIZE then old(Contents())
                            else old(Contents()) + [value.(filename := value.filename[8 := 0])]
    {
      if (rear + 1) % 20 == front { return; }
      RingGrows(items[..], front, rear, value.(filename := value.filename[8 := 0]));
      if front == -1 { front := 0; }
      rear := (rear + 1) % 20;
      items[rear] := value.(filename := value.filename[8 := 0]);
    }

    method Dequeue() returns (item: FileInfo)
      requires Valid()
      modifies this
      ensures Valid()
      ensures old(Contents()) != [] ==>
        && Contents() == old(Contents())[1..]
        && item == old(Contents())[0].(filename := old(Contents())[0].filename[8 := 0])
      ensures old(Contents()) == [] ==>
        Contents() == [] && item.filename == NO_INFO.filename && item.cluster == 0 && item.parent == 0
    {
      if front == -1 { return NO_INFO; }
      RingShrinks(items[..], front, rear);
      item := items[front].(filename := items[front].filename[8 := 0]);
      if front == rear {
        front := -1;
        rear := -1;
      } else {
        front := (front + 1) % 20;
      }
    }

    method IsEmpty() returns (empty: bool)
      requires Valid()
      ensures empty == (Contents() == [])
    {
      empty := front == -1;
    }
  }
}

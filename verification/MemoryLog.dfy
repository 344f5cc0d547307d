/**
 The in-memory logging backends: a linked list of records, bounded by `maxSize`, that always holds
 the latest records in order.
 */
module MemoryLog {

  type Record = string

  class Node {
    var next: Node?
    const record: Record

    constructor (record: Record)
      ensures next == null && this.record == record
    {
      this.record := record;
      next := null;
    }
  }

  function Records(nodes: seq<Node>): (r: seq<Record>)
    ensures |r| == |nodes|
  {
    seq(|nodes|, k requires 0 <= k < |nodes| => nodes[k].record)
  }

  /** The records a backend of this size must hold after `log`: the last `maxSize`, or all if there
      is no limit. */
  function Latest(log: seq<Record>, maxSize: int): (r: seq<Record>)
    ensures |r| == if maxSize > 0 && |log| > maxSize then maxSize else |log|
  {
    if maxSize > 0 && |log| > maxSize then log[|log| - maxSize..] else log
  }

  /** They are the end of the log: as many as fit, all of them without a limit. */
  lemma LatestIsEnd(log: seq<Record>, maxSize: int)
    ensures exists dropped :: log == dropped + Latest(log, maxSize)
    ensures |Latest(log, maxSize)| == if maxSize <= 0 || |log| <= maxSize then |log| else maxSize
  {
    assert log == log[..|log| - |Latest(log, maxSize)|] + Latest(log, maxSize);
  }

  lemma LatestAppend(log: seq<Record>, rec: Record, maxSize: int)
    ensures var kept := Latest(log, maxSize);
            Latest(log + [rec], maxSize) == if maxSize > 0 && |kept| >= maxSize then kept[1..] + [rec] else kept + [rec]
  {
  }

  lemma RecordsAppend(nodes: seq<Node>, n: Node)
    ensures Records(nodes + [n]) == Records(nodes) + [n.record]
    ensures nodes != [] ==> Records((nodes + [n])[1..]) == Records(nodes)[1..] + [n.record]
  {
  }

  /** The list both backends keep. */
  class List {
    const maxSize: int
    var size: nat
    var head: Node?
    var tail: Node?
    ghost var nodes: seq<Node>    // from head to tail
    ghost var log: seq<Record>    // every record ever inserted

    ghost predicate Valid()
      reads this, nodes
    {
      && size == |nodes|
      && (nodes == [] ==> head == null && tail == null)
      && (nodes != [] ==> head == nodes[0] && tail == nodes[|nodes| - 1] && nodes[|nodes| - 1].next == null)
      && (forall k :: 0 <= k < |nodes| - 1 ==> nodes[k].next == nodes[k + 1])
      && (forall j, k :: 0 <= j < k < |nodes| ==> nodes[j] != nodes[k])
      && Records(nodes) == Latest(log, maxSize)
    }

    constructor (maxSize: int)
      ensures Valid() && this.maxSize == maxSize && log == [] && nodes == []
    {
      this.maxSize := maxSize;
      size, head, tail, nodes, log := 0, null, null, [], [];
    }

    /** `ChannelMemoryBackend.insertRecord`: appends, then either drops the oldest or counts up. */
    method InsertRecord(rec: Record)
      requires Valid()
      modifies this, tail
      ensures Valid() && log == old(log) + [rec] && tail != null && fresh(tail)
    {
      LatestAppend(log, rec, maxSize);
      hide Latest;
      hide Records;
      var prev := tail;
      tail := new Node(rec);
      RecordsAppend(nodes, tail);
      nodes := nodes + [tail];
      log := log + [rec];
      if prev == null {
        head := tail;
      } else {
        prev.next := tail;
      }
      if maxSize > 0 && size >= maxSize {
        head := head.next;
        nodes := nodes[1..];
      } else {
        size := size + 1;
      }
    }

    /** `MemoryBackend.Log`, run by one goroutine at a time: appends and counts, then drops the oldest
        if that was one too many. The list is the same. */
    method Log(rec: Record)
      requires Valid()
      modifies this, tail
      ensures Valid() && log == old(log) + [rec]
    {
      LatestAppend(log, rec, maxSize);
      hide Latest;
      hide Records;
      var n := new Node(rec);
      RecordsAppend(nodes, n);
      var last := tail;
      tail := n;
      nodes := nodes + [n];
      log := log + [rec];
      if last == null {
        head := n;
      } else {
        last.next := n;
      }
      size := size + 1;
      if maxSize > 0 && size > maxSize {
        assert head == nodes[0] && head.next == nodes[1];
        if head.next != null {
          head := head.next;
          nodes := nodes[1..];
          size := size - 1;
        }
      }
    }

    /** Following `Next` from `Head` yields the latest records, oldest first. */
    method Walk() returns (out: seq<Record>)
      requires Valid()
      ensures out == Latest(log, maxSize)
    {
      out := [];
      var n := head;
      while n != null
        invariant |out| <= |nodes| && out == Records(nodes)[..|out|]
        invariant n == if |out| < |nodes| then nodes[|out|] else null
        decreases |nodes| - |out|
      {
        out := out + [n.record];
        n := n.next;
      }
    }
  }

  const CAPACITY: nat := 1024

  /** `ChannelMemoryBackend`: `incoming` is the buffered channel between `Log` and the goroutine that
      inserts. */
  class ChannelBackend {
    const list: List
    var incoming: seq<Record>
    ghost var logged: seq<Record>

    /** Nothing is lost or reordered between logging and inserting. */
    ghost predicate Valid()
      reads this, list, list.nodes
    {
      list.Valid() && |incoming| <= CAPACITY && logged == list.log + incoming
    }

    constructor (size: int)
      ensures Valid() && logged == [] && list.maxSize == size && fresh(list)
    {
      list := new List(size);
      incoming, logged := [], [];
    }

    /** Blocks while the channel is full. */
    method Log(rec: Record)
      requires Valid() && |incoming| < CAPACITY
      modifies this
      ensures Valid() && logged == old(logged) + [rec]
    {
      incoming := incoming + [rec];
      logged := logged + [rec];
    }

    /** The goroutine takes one record. */
    method Process()
      requires Valid() && incoming != []
      modifies this`incoming, list, list.tail
      ensures Valid() && incoming == old(incoming)[1..]
      ensures list.tail == old(list.tail) || fresh(list.tail)
    {
      var rec := incoming[0];
      incoming := incoming[1..];
      list.InsertRecord(rec);
    }

    /** The goroutine's answer to a flush event: when `Flush` returns, every record logged before it
        has been inserted, so the list holds the latest of them. */
    method Flush()
      requires Valid()
      modifies this`incoming, list, list.tail
      ensures Valid() && incoming == [] && list.log == logged
      ensures Records(list.nodes) == Latest(logged, list.maxSize)
    {
      while |incoming| > 0
        invariant Valid() && (list.tail == old(list.tail) || fresh(list.tail))
      {
        Process();
      }
    }
  }
}

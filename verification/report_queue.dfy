/**
 The `queue.SimpleQueue` shared by the connection handlers (producers) and
 the queue handler (the single consumer): an unbounded FIFO of timestamped
 reports.
 */
module ReportQueue {
  import opened JsonValues

  /** One queued report: the arrival timestamp and the decoded JSON value. */
  datatype Item = Item(stamp: string, report: Json)

  /** `put(item)`: the item joins at the tail and nothing already queued moves. */
  function Push(q: seq<Item>, item: Item): (r: seq<Item>)
    ensures |r| == |q| + 1
    ensures r[..|q|] == q && r[|q|] == item
  {
    q + [item]
  }

  /** `get(block=False)` on a non-empty queue: the head leaves, the rest stays in order. */
  function Pop(q: seq<Item>): (r: (Item, seq<Item>))
    requires |q| > 0
    ensures [r.0] + r.1 == q
  {
    (q[0], q[1..])
  }

  /** Pushing items one after another, in order. */
  function PushAll(q: seq<Item>, items: seq<Item>): seq<Item>
    decreases |items|
  {
    if |items| == 0 then q else PushAll(Push(q, items[0]), items[1..])
  }

  /** FIFO: after a run of pushes the queue holds the old items followed by the new ones, in push order. */
  lemma {:induction false} PushAllAppends(q: seq<Item>, items: seq<Item>)
    ensures PushAll(q, items) == q + items
    decreases |items|
  {
    if |items| > 0 {
      PushAllAppends(Push(q, items[0]), items[1..]);
      assert Push(q, items[0]) + items[1..] == q + items;
    }
  }

  /** A push never overtakes: the head of a non-empty queue is still what pops next. */
  lemma PushKeepsHead(q: seq<Item>, item: Item)
    requires |q| > 0
    ensures Pop(Push(q, item)).0 == Pop(q).0
    ensures Pop(Push(q, item)).1 == Push(Pop(q).1, item)
  {
  }
}

/** The dispatch queue of `execution_queue.py`: a FIFO of raw command lines
    and already-resolved handler calls. */
module ExecutionQueues {
  import opened Base
  import opened Values
  import opened Commands

  /** `HandlerFullArgs`: a command with its resolved arguments, `None` when
      the handler is to resolve them itself. */
  datatype HandlerFullArgs = HandlerFullArgs(command: Command, args: Option<Dict>)

  /** `HandlerFullArgs(command=c)` */
  function FullArgs(command: Command): (r: HandlerFullArgs)
    ensures r.command == command && r.args.None?
  {
    HandlerFullArgs(command, None)
  }

  /** An item of the queue: `str | HandlerFullArgs`. */
  datatype QueueItem = RawInput(line: string) | Resolved(full: HandlerFullArgs)

  /** `ExecutionQueue`, a `queue.Queue[HandlerFullArgs | str]`. */
  class ExecutionQueue {
    var items: seq<QueueItem>

    /** `create_execution_queue()` */
    constructor ()
      ensures items == []
    {
      items := [];
    }

    predicate Empty()
      reads this
    {
      items == []
    }

    function Size(): nat
      reads this
    {
      |items|
    }

    /** `put`: the item joins the tail; what was queued stays, in order. */
    method Put(item: QueueItem)
      modifies this
      ensures items == old(items) + [item]
    {
      items := items + [item];
    }

    /** `get`: the oldest item leaves the queue. On an empty queue Python's
        `get` blocks, so a caller only gets from a non-empty one. */
    method Get() returns (item: QueueItem)
      requires items != []
      modifies this
      ensures item == old(items)[0]
      ensures items == old(items)[1..]
      ensures [item] + items == old(items)
    {
      item := items[0];
      items := items[1..];
    }
  }

  /** Items come out in the order they went in, also when one is put while
      an earlier one is being handled. */
  method FifoOrder(a: QueueItem, b: QueueItem, c: QueueItem) returns (first: QueueItem, second: QueueItem, third: QueueItem)
    ensures first == a && second == b && third == c
  {
    var q := new ExecutionQueue();
    q.Put(a);
    q.Put(b);
    first := q.Get();
    q.Put(c);
    second := q.Get();
    third := q.Get();
    assert q.Empty();
  }

  /** Getting until the queue is empty yields exactly what it held, in order. */
  method Drain(q: ExecutionQueue) returns (out: seq<QueueItem>)
    modifies q
    ensures out == old(q.items) && q.items == []
  {
    out := [];
    while !q.Empty()
      invariant out + q.items == old(q.items)
      decreases |q.items|
    {
      var item := q.Get();
      out := out + [item];
    }
  }
}

/**
 * The ready queue of queue.c: a singly linked list with front and rear
 * pointers and a size counter. The nodes are modelled as the sequence of
 * their contents from front to rear; `size` is the separate counter the C
 * code maintains.
 */
module Fifo {
  import opened Wrappers

  datatype Queue<T> = Queue(nodes: seq<T>, size: int) {

    /** The counter agrees with the number of linked nodes. */
    predicate Valid() {
      size == |nodes|
    }

    /** The element behind `queue->front`, or None for a null front pointer. */
    function Front(): Option<T> {
      if |nodes| == 0 then None else Some(nodes[0])
    }

    /** The element behind `queue->rear`, or None for a null rear pointer. */
    function Rear(): Option<T> {
      if |nodes| == 0 then None else Some(nodes[|nodes| - 1])
    }
  }

  /** `create_queue`: no nodes, null front and rear, size 0. */
  function Create<T>(): (q: Queue<T>)
    ensures q.Valid() && q.size == 0
    ensures q.Front() == None && q.Rear() == None
    ensures IsEmpty(q)
  {
    Queue([], 0)
  }

  /** `is_empty`: decided by the size counter alone. */
  function IsEmpty<T>(q: Queue<T>): (empty: bool)
    ensures q.Valid() ==> (empty <==> q.nodes == [])
    ensures q.Valid() ==> (empty <==> q.Front() == None)
  {
    q.size == 0
  }

  /** `queue_size`: the counter, which is the node count on a valid queue. */
  function QueueSize<T>(q: Queue<T>): (n: int)
    ensures q.Valid() ==> n == |q.nodes|
  {
    q.size
  }

  /** `enqueue`: link a new node behind the rear. */
  function Enqueue<T>(q: Queue<T>, p: T): (r: Queue<T>)
    requires q.Valid()
    ensures r.Valid() && r.size == q.size + 1
    ensures r.nodes[..|q.nodes|] == q.nodes && r.nodes[|q.nodes|] == p
    ensures r.Rear() == Some(p)
    ensures r.Front() == if IsEmpty(q) then Some(p) else q.Front()
  {
    if IsEmpty(q) then Queue([p], q.size + 1)
    else Queue(q.nodes + [p], q.size + 1)
  }

  /**
   * `dequeue`: unlink the front node and return its element. On an empty
   * queue the C code prints a diagnostic and exits.
   */
  function Dequeue<T>(q: Queue<T>): (r: Result<(T, Queue<T>)>)
    requires q.Valid()
    ensures r.Err? <==> q.nodes == []
    ensures r.Ok? ==> r.value.0 == q.nodes[0] && r.value.1.Valid()
    ensures r.Ok? ==> [r.value.0] + r.value.1.nodes == q.nodes
    ensures r.Ok? ==> r.value.1.size == q.size - 1
    ensures r.Ok? ==> (r.value.1.Rear() == None <==> r.value.1.Front() == None)
  {
    if IsEmpty(q) then Err("Queue is empty, cannot dequeue")
    else Ok((q.nodes[0], Queue(q.nodes[1..], q.size - 1)))
  }

  /** Enqueue every element of `xs` in order. */
  function EnqueueAll<T>(q: Queue<T>, xs: seq<T>): (r: Queue<T>)
    requires q.Valid()
    ensures r.Valid()
    decreases |xs|
  {
    if |xs| == 0 then q else EnqueueAll(Enqueue(q, xs[0]), xs[1..])
  }

  /** Dequeue until empty, collecting the returned elements in order. */
  function DrainAll<T>(q: Queue<T>): seq<T>
    requires q.Valid()
    decreases |q.nodes|
  {
    match Dequeue(q)
    case Err(_) => []
    case Ok((x, rest)) => [x] + DrainAll(rest)
  }

  lemma {:induction false} EnqueueAllAppends<T>(q: Queue<T>, xs: seq<T>)
    requires q.Valid()
    ensures EnqueueAll(q, xs).nodes == q.nodes + xs
    decreases |xs|
  {
    if |xs| > 0 {
      var q1 := Enqueue(q, xs[0]);
      assert q1.nodes == q.nodes + [xs[0]];
      EnqueueAllAppends(q1, xs[1..]);
      assert q.nodes + [xs[0]] + xs[1..] == q.nodes + xs;
    }
  }

  lemma {:induction false} DrainAllIsContents<T>(q: Queue<T>)
    requires q.Valid()
    ensures DrainAll(q) == q.nodes
    decreases |q.nodes|
  {
    if |q.nodes| > 0 {
      var rest := Queue(q.nodes[1..], q.size - 1);
      DrainAllIsContents(rest);
    }
  }

  /** FIFO: whatever is enqueued into a fresh queue comes back out in insertion order. */
  lemma FifoOrder<T>(xs: seq<T>)
    ensures DrainAll(EnqueueAll(Create<T>(), xs)) == xs
  {
    EnqueueAllAppends(Create<T>(), xs);
    DrainAllIsContents(EnqueueAll(Create<T>(), xs));
  }

  /**
   * `free_queue`: dequeue until `is_empty` holds. Returns the drained queue
   * and the elements released, front first.
   */
  method FreeQueue<T>(q: Queue<T>) returns (drained: Queue<T>, released: seq<T>)
    requires q.Valid()
    ensures drained.Valid() && IsEmpty(drained)
    ensures drained.Front() == None && drained.Rear() == None
    ensures released == q.nodes
  {
    drained := q;
    released := [];
    while !IsEmpty(drained)
      invariant drained.Valid()
      invariant released + drained.nodes == q.nodes
      decreases |drained.nodes|
    {
      var r := Dequeue(drained);
      released := released + [r.value.0];
      drained := r.value.1;
    }
  }
}

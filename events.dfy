/**
 * The event channel between the installer and its front end: `(kind, payload)`
 * notifications put into a bounded `multiprocessing.Queue` with `put_nowait`.
 */
module Events {

  /**
   * One notification. `percent` carries a float in the source; here it is the
   * fraction `num / den` kept as a pair.
   */
  datatype Event =
    | Info(text: string)
    | Debug(text: string)
    | Warning(text: string)
    | Error(text: string)
    | Action(text: string)
    | Pulse
    | Percent(num: int, den: int)
    | ProgressInfo(text: string)
    | Finished(text: string)

  /**
   * A bounded FIFO mailbox. As for Python's queues, a `maxSize` of zero or
   * less means the queue never fills.
   */
  class EventChannel {
    const maxSize: int
    var items: seq<Event>

    ghost predicate Valid()
      reads this
    {
      maxSize > 0 ==> |items| <= maxSize
    }

    constructor (maxSize: int)
      ensures Valid() && this.maxSize == maxSize && items == []
    {
      this.maxSize := maxSize;
      items := [];
    }

    predicate Full()
      reads this
    {
      maxSize > 0 && |items| >= maxSize
    }

    predicate IsEmpty()
      reads this
    {
      |items| == 0
    }

    /**
     * `put_nowait`: the event is appended unless the queue is full, in which
     * case `queue.Full` is raised (here: `accepted` is false) and nothing changes.
     */
    method PutNowait(e: Event) returns (accepted: bool)
      requires Valid()
      modifies this
      ensures Valid()
      ensures accepted == !old(Full())
      ensures items == if accepted then old(items) + [e] else old(items)
      ensures items == Delivered(old(items), maxSize, [e])
    {
      assert [e][..0] == [];
      accepted := !Full();
      if accepted {
        items := items + [e];
      }
    }
  }

  /**
   * What putting each event of `evs` in turn leaves in a channel that holds
   * `items` and has capacity `maxSize`, when nothing is taken out meanwhile:
   * an event that finds the channel full is dropped.
   */
  function Delivered(items: seq<Event>, maxSize: int, evs: seq<Event>): seq<Event>
    decreases |evs|
  {
    if |evs| == 0 then items
    else
      var before := Delivered(items, maxSize, evs[..|evs| - 1]);
      if maxSize > 0 && |before| >= maxSize then before else before + [evs[|evs| - 1]]
  }

  /** How many of `n` events still fit into a channel holding `items`. */
  function Room(items: seq<Event>, maxSize: int, n: nat): (r: nat)
    ensures r <= n
  {
    if maxSize <= 0 then n
    else if maxSize <= |items| then 0
    else if maxSize - |items| < n then maxSize - |items|
    else n
  }

  /**
   * Events are delivered in order and never reordered: the first ones that
   * fit in are appended and, once the channel is full, every later one is
   * dropped.
   */
  lemma {:induction false} DeliveredPrefix(items: seq<Event>, maxSize: int, evs: seq<Event>)
    ensures Delivered(items, maxSize, evs) == items + evs[..Room(items, maxSize, |evs|)]
    decreases |evs|
  {
    if |evs| > 0 {
      var init := evs[..|evs| - 1];
      DeliveredPrefix(items, maxSize, init);
      var k := Room(items, maxSize, |init|);
      assert init[..k] == evs[..k];
      if Room(items, maxSize, |evs|) == k + 1 {
        assert evs[..k + 1] == evs[..k] + [evs[|evs| - 1]];
      }
    }
  }

  /** Delivering two batches one after the other is delivering them as one. */
  lemma {:induction false} DeliveredAppend(items: seq<Event>, maxSize: int, a: seq<Event>, b: seq<Event>)
    ensures Delivered(Delivered(items, maxSize, a), maxSize, b) == Delivered(items, maxSize, a + b)
    decreases |b|
  {
    if |b| == 0 {
      assert a + b == a;
    } else {
      DeliveredAppend(items, maxSize, a, b[..|b| - 1]);
      assert (a + b)[..|a + b| - 1] == a + b[..|b| - 1];
    }
  }

  /** The number of one-second polls `wait_for_empty_queue` allows: at least one. */
  function PollLimit(timeout: int): (n: nat)
    ensures n >= 1 && n >= timeout
    ensures timeout >= 1 ==> n == timeout
  {
    if timeout < 1 then 1 else timeout
  }

  /**
   * `wait_for_empty_queue`: polls once a second until the queue is empty or
   * `PollLimit(timeout)` polls have been made. The queue is drained by the
   * front end concurrently, so its emptiness at the k-th check is the oracle
   * `emptyAt(k)`; without a queue nothing is waited for. Returns the number of
   * seconds slept.
   */
  method WaitForEmptyQueue(hasQueue: bool, timeout: int, emptyAt: nat -> bool) returns (tries: nat)
    ensures !hasQueue ==> tries == 0
    ensures hasQueue ==> tries <= PollLimit(timeout)
    ensures hasQueue ==> (tries == PollLimit(timeout) || emptyAt(tries))
    ensures forall k :: 0 <= k < tries ==> !emptyAt(k)
  {
    tries := 0;
    if hasQueue {
      var limit := PollLimit(timeout);
      while tries < limit && !emptyAt(tries)
        invariant tries <= limit
        invariant forall k :: 0 <= k < tries ==> !emptyAt(k)
      {
        tries := tries + 1;
      }
    }
  }
}

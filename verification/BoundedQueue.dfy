/** The bounded queue that connects the pipeline's threads.

    The queue appears twice. `BoundedQueue` is the object: a deque, a byte counter and a closed flag,
    each call being what happens while its mutex is held. `Channel` is the same queue as a value,
    extended with the two condition variables: for each of them, which threads sleep and which have
    been signalled but have not run yet. `notify_one` therefore moves one thread of the caller's
    choice from sleeping to signalled, and is lost when nobody sleeps. */
module Queues {
  import opened Common

  /** The threads of the pipeline; only the first three ever wait on a queue. */
  datatype Thread = Scanner | Worker(index: nat) | Writer | Progress | Main | Caller

  datatype Slot<+T> = Slot(bytes: nat, value: T)

  datatype Limits = Limits(items: nat, bytes: Option<nat>) {
    /** What the constructors insist on. */
    predicate Valid() {
      items > 0 && (bytes.Some? ==> bytes.value > 0)
    }

    predicate Fits(size: nat) {
      bytes.None? || size <= bytes.value
    }
  }

  datatype PushDecision = Accept | Refuse | WaitForSpace
  datatype PopDecision = Take | Nothing | WaitForItem

  function Used<T>(items: seq<Slot<T>>): (n: nat) {
    if items == [] then 0 else items[0].bytes + Used(items[1..])
  }

  function Values<T>(items: seq<Slot<T>>): (vs: seq<T>)
    ensures |vs| == |items|
  {
    if items == [] then [] else [items[0].value] + Values(items[1..])
  }

  lemma {:induction false} UsedOfAppend<T>(items: seq<Slot<T>>, slot: Slot<T>)
    ensures Used(items + [slot]) == Used(items) + slot.bytes
  {
    if items != [] {
      assert (items + [slot])[1..] == items[1..] + [slot];
      UsedOfAppend(items[1..], slot);
    }
  }

  lemma {:induction false} ValuesOfAppend<T>(items: seq<Slot<T>>, slot: Slot<T>)
    ensures Values(items + [slot]) == Values(items) + [slot.value]
  {
    if items != [] {
      assert (items + [slot])[1..] == items[1..] + [slot];
      ValuesOfAppend(items[1..], slot);
    }
  }

  predicate WithinLimits<T>(limits: Limits, items: seq<Slot<T>>) {
    |items| <= limits.items && (limits.bytes.Some? ==> Used(items) <= limits.bytes.value)
  }

  predicate HasRoom<T>(limits: Limits, items: seq<Slot<T>>, size: nat) {
    |items| < limits.items && (limits.bytes.Some? ==> Used(items) + size <= limits.bytes.value)
  }

  /** What one pass of `push` through its critical section decides. */
  function DecidePush<T>(limits: Limits, items: seq<Slot<T>>, closed: bool, size: nat, stop: bool): PushDecision {
    if stop || !limits.Fits(size) || closed then Refuse
    else if HasRoom(limits, items, size) then Accept
    else WaitForSpace
  }

  /** What one pass of `pop` through its critical section decides. */
  function DecidePop<T>(items: seq<Slot<T>>, closed: bool, stop: bool): PopDecision {
    if stop then Nothing
    else if items != [] then Take
    else if closed then Nothing
    else WaitForItem
  }

  /** The queue as an object. `accepted` and `popped` are the histories the callers see. */
  class BoundedQueue<T> {
    const itemCapacity: nat
    const byteCapacity: Option<nat>
    const size: T -> nat
    var items: seq<Slot<T>>
    var bytesUsed: nat
    var closed: bool
    ghost var accepted: seq<T>
    ghost var popped: seq<T>

    ghost function L(): Limits {
      Limits(itemCapacity, byteCapacity)
    }

    /** The byte counter is the sum over the queued items, both capacities hold, and what has been
        popped followed by what is queued is what was accepted, in order. */
    ghost predicate Valid()
      reads this
    {
      && L().Valid()
      && WithinLimits(L(), items)
      && bytesUsed == Used(items)
      && accepted == popped + Values(items)
      && (forall i :: 0 <= i < |items| ==> items[i].bytes == SizeOf(items[i].value))
    }

    constructor (limits: Limits, size: T -> nat)
      requires limits.Valid()
      ensures Valid() && L() == limits && this.size == size
      ensures items == [] && !closed && accepted == [] && popped == []
    {
      itemCapacity, byteCapacity, this.size := limits.items, limits.bytes, size;
      items, bytesUsed, closed := [], 0, false;
      accepted, popped := [], [];
    }

    /** The capacity test subtracts the byte counter from the byte capacity: the invariant is what
        keeps that subtraction from wrapping around. */
    method HasCapacity(itemBytes: nat) returns (r: bool)
      requires Valid()
      ensures r <==> HasRoom(L(), items, itemBytes)
    {
      if |items| >= itemCapacity {
        return false;
      }
      if byteCapacity == None {
        return true;
      }
      var free: nat := byteCapacity.value - bytesUsed;
      return itemBytes <= free;
    }

    method Push(value: T, stop: bool) returns (decision: PushDecision)
      requires Valid()
      modifies this
      ensures Valid() && closed == old(closed) && popped == old(popped)
      ensures decision == DecidePush(L(), old(items), old(closed), SizeOf(value), stop)
      ensures accepted == if decision == Accept then old(accepted) + [value] else old(accepted)
      ensures items == if decision == Accept then old(items) + [Slot(SizeOf(value), value)] else old(items)
    {
      if stop {
        return Refuse;
      }
      var itemBytes := if byteCapacity.Some? then size(value) else 0;
      if byteCapacity.Some? && itemBytes > byteCapacity.value {
        return Refuse;
      }
      var room := HasCapacity(itemBytes);
      if !closed && !room {
        return WaitForSpace;
      }
      if closed {
        return Refuse;
      }
      UsedOfAppend(items, Slot(itemBytes, value));
      ValuesOfAppend(items, Slot(itemBytes, value));
      items := items + [Slot(itemBytes, value)];
      bytesUsed := bytesUsed + itemBytes;
      accepted := accepted + [value];
      return Accept;
    }

    method Pop(stop: bool) returns (decision: PopDecision, value: Option<T>)
      requires Valid()
      modifies this
      ensures Valid() && closed == old(closed) && accepted == old(accepted)
      ensures decision == DecidePop(old(items), old(closed), stop)
      ensures decision == Take ==>
                && value == Some(old(items)[0].value)
                && items == old(items)[1..]
                && popped == old(popped) + [old(items)[0].value]
                && |popped| <= |accepted| && accepted[|popped| - 1] == value.value
      ensures decision != Take ==> value == None && items == old(items) && popped == old(popped)
    {
      value := None;
      if stop {
        return Nothing, None;
      }
      if items == [] {
        decision := if closed then Nothing else WaitForItem;
        return;
      }
      var head := items[0];
      ghost var rest := Values(items[1..]);
      items := items[1..];
      bytesUsed := bytesUsed - head.bytes;
      popped := popped + [head.value];
      assert accepted == popped + rest;
      return Take, Some(head.value);
    }

    method Close()
      requires Valid()
      modifies this`closed
      ensures Valid() && closed
    {
      closed := true;
    }

    ghost function SizeOf(value: T): nat {
      if byteCapacity.Some? then size(value) else 0
    }
  }

  /** A queue together with the threads waiting on it. */
  datatype Channel<+T> = Channel(items: seq<Slot<T>>, closed: bool,
                                 sleepingProducers: set<Thread>, signalledProducers: set<Thread>,
                                 sleepingConsumers: set<Thread>, signalledConsumers: set<Thread>)
  {
    predicate Sleeps(t: Thread) {
      t in sleepingProducers || t in sleepingConsumers
    }

    /** `notify_one` on the consumers' condition variable, waking `t` if anybody sleeps there. */
    function NotifyConsumer(t: Thread): Channel<T> {
      if t in sleepingConsumers then
        this.(sleepingConsumers := sleepingConsumers - {t}, signalledConsumers := signalledConsumers + {t})
      else this
    }

    function NotifyProducer(t: Thread): Channel<T> {
      if t in sleepingProducers then
        this.(sleepingProducers := sleepingProducers - {t}, signalledProducers := signalledProducers + {t})
      else this
    }

    /** `notify_all` on both condition variables: what `close` does, and what a stop request does to
        every stop-aware wait. */
    function NotifyAll(): Channel<T> {
      this.(sleepingProducers := {}, signalledProducers := signalledProducers + sleepingProducers,
            sleepingConsumers := {}, signalledConsumers := signalledConsumers + sleepingConsumers)
    }

    function Close(): Channel<T> {
      NotifyAll().(closed := true)
    }
  }

  function EmptyChannel<T>(): Channel<T> {
    Channel([], false, {}, {}, {}, {})
  }

  /** `wake` is a legal choice for `notify_one` over the sleepers `s`. */
  predicate LegalWake(s: set<Thread>, wake: Thread) {
    s != {} ==> wake in s
  }

  /** One pass of thread `t` through `push`. */
  function PushBy<T>(limits: Limits, c: Channel<T>, t: Thread, slot: Slot<T>, stop: bool, wake: Thread): Channel<T> {
    var running := c.(signalledProducers := c.signalledProducers - {t});
    match DecidePush(limits, c.items, c.closed, slot.bytes, stop)
    case Refuse => running
    case WaitForSpace => running.(sleepingProducers := running.sleepingProducers + {t})
    case Accept => running.(items := c.items + [slot]).NotifyConsumer(wake)
  }

  /** One pass of thread `t` through `pop`. */
  function PopBy<T>(c: Channel<T>, t: Thread, stop: bool, wake: Thread): Channel<T> {
    var running := c.(signalledConsumers := c.signalledConsumers - {t});
    match DecidePop(c.items, c.closed, stop)
    case Nothing => running
    case WaitForItem => running.(sleepingConsumers := running.sleepingConsumers + {t})
    case Take => running.(items := c.items[1..]).NotifyProducer(wake)
  }

  /** No wakeup is ever lost: nobody sleeps on a closed or stopped queue; a consumer sleeps only
      while every queued item has a signalled consumer coming for it; and a producer sleeps on an
      empty queue only while another producer has been signalled. */
  ghost predicate NoLostWakeup<T>(limits: Limits, c: Channel<T>, stop: bool) {
    && WithinLimits(limits, c.items)
    && c.sleepingProducers !! c.signalledProducers
    && c.sleepingConsumers !! c.signalledConsumers
    && (c.closed || stop ==> c.sleepingProducers == {} && c.sleepingConsumers == {})
    && (c.sleepingConsumers == {} || |c.items| <= |c.signalledConsumers|)
    && (c.items == [] && c.sleepingProducers != {} ==> c.signalledProducers != {})
  }

  lemma RemoveMember(s: set<Thread>, t: Thread)
    ensures |s - {t}| == if t in s then |s| - 1 else |s|
  {
    if t in s {
      assert s == (s - {t}) + {t};
    } else {
      assert s - {t} == s;
    }
  }

  lemma AddMember(s: set<Thread>, t: Thread)
    ensures |s + {t}| == if t in s then |s| else |s| + 1
  {
    if t in s {
      assert s + {t} == s;
    }
  }

  /** Every pass through `push` loses no wakeup. A signalled producer is one whose item can fit. */
  lemma PushKeepsWakeups<T>(limits: Limits, c: Channel<T>, t: Thread, slot: Slot<T>, stop: bool, wake: Thread)
    requires limits.Valid() && NoLostWakeup(limits, c, stop)
    requires t !in c.sleepingProducers && LegalWake(c.sleepingConsumers, wake)
    requires t in c.signalledProducers ==> limits.Fits(slot.bytes)
    ensures NoLostWakeup(limits, PushBy(limits, c, t, slot, stop, wake), stop)
  {
    var c' := PushBy(limits, c, t, slot, stop, wake);
    match DecidePush(limits, c.items, c.closed, slot.bytes, stop)
    case Refuse =>
    case WaitForSpace =>
    case Accept =>
      UsedOfAppend(c.items, slot);
      AddMember(c.signalledConsumers, wake);
  }

  /** Every pass through `pop` loses no wakeup. */
  lemma PopKeepsWakeups<T>(limits: Limits, c: Channel<T>, t: Thread, stop: bool, wake: Thread)
    requires limits.Valid() && NoLostWakeup(limits, c, stop)
    requires t !in c.sleepingConsumers && LegalWake(c.sleepingProducers, wake)
    ensures NoLostWakeup(limits, PopBy(c, t, stop, wake), stop)
  {
    RemoveMember(c.signalledConsumers, t);
  }

  lemma CloseKeepsWakeups<T>(limits: Limits, c: Channel<T>, stop: bool)
    requires NoLostWakeup(limits, c, stop)
    ensures NoLostWakeup(limits, c.Close(), stop)
    ensures NoLostWakeup(limits, c.NotifyAll(), true)
  {
  }
}

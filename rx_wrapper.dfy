/** `ReceiverWrapper` of futures-addition/src/rx_wrapper.rs: a channel
    receiver with a one-item push-back slot, so that an item a sink failed
    to take can be put back and is the next one delivered. The channel is
    modelled by the items queued in it and whether its senders are gone. */
module RxWrapper {
  import opened Common

  /** What a poll of the wrapper yields, as a function of its slot and the
      channel: the pushed-back item first, then the channel's front item,
      end of stream once the channel is closed and drained, else not ready. */
  function NextItem<T>(lastItem: Option<T>, queue: seq<T>, closed: bool): (r: Poll<Option<T>>)
    ensures r.Ready? && r.value.Some? <==> lastItem.Some? || queue != []
    ensures lastItem.Some? ==> r == Ready(lastItem)
    ensures lastItem.None? && queue != [] ==> r == Ready(Some(queue[0]))
    ensures r == Ready(None) <==> lastItem.None? && queue == [] && closed
    ensures !r.PollErr?
  {
    if lastItem.Some? then Ready(lastItem)
    else if queue != [] then Ready(Some(queue[0]))
    else if closed then Ready(None)
    else NotReady
  }

  /** The items still to be delivered, in order. */
  function Backlog<T>(lastItem: Option<T>, queue: seq<T>): seq<T>
  {
    if lastItem.Some? then [lastItem.value] + queue else queue
  }

  /** A poll delivers exactly the first item of the backlog. */
  lemma PollDeliversBacklogFront<T>(lastItem: Option<T>, queue: seq<T>, closed: bool)
    ensures var r := NextItem(lastItem, queue, closed);
      Backlog(lastItem, queue) != [] <==> r.Ready? && r.value.Some?
    ensures Backlog(lastItem, queue) != [] ==>
      NextItem(lastItem, queue, closed) == Ready(Some(Backlog(lastItem, queue)[0]))
  {
  }

  class ReceiverWrapper<T> {
    var queue: seq<T>
    var closed: bool
    var lastItem: Option<T>

    /** `new(inner)`: an empty slot over the given channel. */
    constructor (queue: seq<T>, closed: bool)
      ensures this.queue == queue && this.closed == closed && lastItem == None
    {
      this.queue := queue;
      this.closed := closed;
      lastItem := None;
    }

    /** `undo(item)`: put an item back; it overwrites anything already in
        the slot. */
    method Undo(item: T)
      modifies this
      ensures lastItem == Some(item)
      ensures queue == old(queue) && closed == old(closed)
      ensures Backlog(lastItem, queue) == [item] + old(queue)
    {
      lastItem := Some(item);
    }

    /** `poll`: the pushed-back item if any, else the channel's poll. */
    method Poll() returns (r: Poll<Option<T>>)
      modifies this
      ensures r == NextItem(old(lastItem), old(queue), old(closed))
      ensures closed == old(closed) && lastItem == None
      ensures r.Ready? && r.value.Some? ==> Backlog(old(lastItem), old(queue)) == [r.value.value] + queue
      ensures old(lastItem).Some? || !(r.Ready? && r.value.Some?) ==> queue == old(queue)
    {
      if lastItem.Some? {
        var item := lastItem.value;
        lastItem := None;
        return Ready(Some(item));
      }
      if queue != [] {
        var item := queue[0];
        queue := queue[1..];
        return Ready(Some(item));
      }
      if closed {
        return Ready(None);
      }
      return NotReady;
    }
  }

  /** After `undo(x)` the next poll delivers `x`, whatever the channel holds,
      and the poll after that resumes with the channel's own items. */
  method UndoThenPoll<T>(w: ReceiverWrapper<T>, x: T) returns (first: Poll<Option<T>>, second: Poll<Option<T>>)
    modifies w
    ensures first == Ready(Some(x))
    ensures second == NextItem(None, old(w.queue), old(w.closed))
  {
    w.Undo(x);
    first := w.Poll();
    second := w.Poll();
  }
}

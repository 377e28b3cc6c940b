/** `SendAll` of futures-addition/src/send_all.rs: the fan-in funnel that
    feeds every item of a stream to a sink, keeping in a one-item slot an
    item the sink refused so that it is offered again before anything new
    is pulled. The stream and the sink are oracles: the results of their
    polls, in order, arrive as parameters. */
module SendAll {
  import opened Common

  /** A sink error (`T::SinkError`); `item` is what `HasItem::item` gives
      back. Stream errors arrive already converted (`From<U::Error>`). */
  datatype SinkError<+T> = SinkError(code: int, item: Option<T>)

  /** One poll of the fused stream: an item, its end, nothing yet, an error. */
  datatype StreamPoll<+T> = Item(value: T) | End | Pending | StreamErr(error: SinkError<T>)

  /** The sink's `start_send` answer: accepted, refused with the item handed
      back (`AsyncSink::NotReady(item)`), or an error. */
  datatype SendReply<+T> = Accepted | Rejected(back: T) | SinkErr(error: SinkError<T>)

  /** The sink's answer to `close()` or `poll_complete()`. */
  datatype Flush<+T> = Flushed | NotFlushed | FlushErr(error: SinkError<T>)

  /** `Reason`: why the funnel finished. */
  datatype Reason<+T> = StreamEnded | SinkEnded(lastItem: Option<T>)

  /** What one `poll` of the future returns: finished with a reason (the sink
      and the stream are handed back), not ready, or an error. */
  datatype Step<+T> = Finished(reason: Reason<T>) | Waiting | Failed(error: SinkError<T>)

  /** What `try_start_send` returns: sent, refused (the slot now holds the
      item handed back), or the sink's error. */
  datatype Attempt<+T> = Sent | Refused | SendFailed(error: SinkError<T>)

  /** The effect of one `poll`: its result, the new slot and `Fuse` state,
      the items offered to the sink in order, and those it accepted. */
  datatype Run<T> = Run(result: Step<T>, buffered: Option<T>, fused: bool, offered: seq<T>, accepted: seq<T>)

  /** `try_ready!(sink.close())` followed by `take_result(reason)`. */
  function Closing<T>(close: Flush<T>, reason: Reason<T>, fused: bool): Run<T>
  {
    var result := match close
      case Flushed => Finished(reason)
      case NotFlushed => Waiting
      case FlushErr(e) => Failed(e);
    Run(result, None, fused, [], [])
  }

  /** The oracles let the loop stop: the stream reaches a non-item before its
      poll results run out, and every item pulled gets a sink answer. */
  ghost predicate Enough<T>(polls: seq<StreamPoll<T>>, replies: seq<SendReply<T>>, fused: bool)
    decreases |polls|
  {
    fused ||
    (|polls| > 0 &&
     (polls[0].Item? ==>
        |replies| > 0 && (replies[0].Accepted? ==> Enough(polls[1..], replies[1..], false))))
  }

  /** The `loop` of `poll`: pull from the fused stream (which, once ended,
      keeps answering end without being polled) and offer each item. */
  ghost function Loop<T>(polls: seq<StreamPoll<T>>, replies: seq<SendReply<T>>, fused: bool,
                         close: Flush<T>, flush: Flush<T>): Run<T>
    requires Enough(polls, replies, fused)
    decreases |polls|
  {
    if fused then Closing(close, StreamEnded, true)
    else match polls[0]
      case Item(x) =>
        (match replies[0]
         case Accepted =>
           var rest := Loop(polls[1..], replies[1..], false, close, flush);
           rest.(offered := [x] + rest.offered, accepted := [x] + rest.accepted)
         case Rejected(y) => Run(Waiting, Some(y), false, [x], [])
         case SinkErr(e) => Closing(close, SinkEnded(e.item), false).(offered := [x]))
      case End => Closing(close, StreamEnded, true)
      case Pending => Run(if flush.FlushErr? then Failed(flush.error) else Waiting, None, false, [], [])
      case StreamErr(e) => Run(Failed(e), None, false, [], [])
  }

  /** The oracles are enough for one `poll`, retry included. */
  ghost predicate PollFits<T>(buffered: Option<T>, fused: bool, polls: seq<StreamPoll<T>>, replies: seq<SendReply<T>>)
  {
    if buffered.Some? then
      |replies| > 0 && (replies[0].Accepted? ==> Enough(polls, replies[1..], fused))
    else
      Enough(polls, replies, fused)
  }

  /** One `poll` of the future: retry the buffered item first; only once the
      sink takes it is the stream polled. A failed retry is returned as the
      error itself. */
  ghost function PollSpec<T>(buffered: Option<T>, fused: bool, polls: seq<StreamPoll<T>>,
                             replies: seq<SendReply<T>>, close: Flush<T>, flush: Flush<T>): Run<T>
    requires PollFits(buffered, fused, polls, replies)
  {
    match buffered
    case None => Loop(polls, replies, fused, close, flush)
    case Some(x) =>
      match replies[0]
      case Accepted =>
        var rest := Loop(polls, replies[1..], fused, close, flush);
        rest.(offered := [x] + rest.offered, accepted := [x] + rest.accepted)
      case Rejected(y) => Run(Waiting, Some(y), fused, [x], [])
      case SinkErr(e) => Run(Failed(e), None, fused, [x], [])
  }

  /** The items the stream yields before its first non-item. */
  function ItemsBefore<T>(polls: seq<StreamPoll<T>>): seq<T>
  {
    if polls == [] || !polls[0].Item? then [] else [polls[0].value] + ItemsBefore(polls[1..])
  }

  /** Every item offered was accepted except possibly the last, and the
      sink's answers line up with the offers: a refused last item is what
      the slot holds, and when everything was accepted the slot is empty. */
  ghost predicate Accounted<T>(run: Run<T>, replies: seq<SendReply<T>>)
  {
    && |run.accepted| <= |run.offered| <= |replies|
    && (forall k | 0 <= k < |run.accepted| :: replies[k] == Accepted)
    && (run.accepted == run.offered ==> run.buffered == None)
    && (run.accepted != run.offered ==>
          && run.offered != []
          && run.accepted == run.offered[..|run.offered| - 1]
          && !replies[|run.offered| - 1].Accepted?
          && (replies[|run.offered| - 1].Rejected? ==>
                run.result == Waiting && run.buffered == Some(replies[|run.offered| - 1].back)))
  }

  /** An item the sink accepted, put in front of an accounted run. */
  lemma AccountedAfterAccept<T>(x: T, rest: Run<T>, replies: seq<SendReply<T>>)
    requires replies != [] && replies[0] == Accepted && Accounted(rest, replies[1..])
    ensures Accounted(rest.(offered := [x] + rest.offered, accepted := [x] + rest.accepted), replies)
  {
    var run := rest.(offered := [x] + rest.offered, accepted := [x] + rest.accepted);
    forall k | 0 <= k < |run.accepted|
      ensures replies[k] == Accepted
    {
      if k > 0 {
        assert replies[k] == replies[1..][k - 1];
      }
    }
    if run.accepted != run.offered {
      assert rest.accepted != rest.offered;
      assert run.accepted == run.offered[..|run.offered| - 1];
      assert replies[|run.offered| - 1] == replies[1..][|rest.offered| - 1];
    }
  }

  /** In one pass of the loop the sink is offered the stream's items in
      stream order, each once. */
  lemma {:induction false} LoopOffersInOrder<T>(polls: seq<StreamPoll<T>>, replies: seq<SendReply<T>>, fused: bool,
                                                close: Flush<T>, flush: Flush<T>)
    requires Enough(polls, replies, fused)
    ensures Loop(polls, replies, fused, close, flush).offered <= (if fused then [] else ItemsBefore(polls))
    decreases |polls|
  {
    if !fused && polls[0].Item? && replies[0].Accepted? {
      var x := polls[0].value;
      LoopOffersInOrder(polls[1..], replies[1..], false, close, flush);
      var rest := Loop(polls[1..], replies[1..], false, close, flush);
      assert Loop(polls, replies, fused, close, flush).offered == [x] + rest.offered;
      assert ItemsBefore(polls) == [x] + ItemsBefore(polls[1..]);
    }
  }

  /** Every offer of the loop is accounted for; an item whose `start_send`
      failed is handed back as `SinkEnded`'s last item once the sink closes,
      lost when `close` is not ready, and replaced by `close`'s own error
      when that fails. */
  lemma {:induction false} LoopAccountsForItems<T>(polls: seq<StreamPoll<T>>, replies: seq<SendReply<T>>, fused: bool,
                                                   close: Flush<T>, flush: Flush<T>)
    requires Enough(polls, replies, fused)
    ensures var run := Loop(polls, replies, fused, close, flush);
      && Accounted(run, replies)
      && (run.accepted != run.offered && replies[|run.offered| - 1].SinkErr? ==>
            run.buffered == None &&
            run.result == Closing(close, SinkEnded(replies[|run.offered| - 1].error.item), false).result)
    decreases |polls|
  {
    var run := Loop(polls, replies, fused, close, flush);
    if fused {
      assert run == Closing(close, StreamEnded, true);
    } else {
      match polls[0] {
        case Item(x) =>
          match replies[0] {
            case Accepted =>
              LoopAccountsForItems(polls[1..], replies[1..], false, close, flush);
              var rest := Loop(polls[1..], replies[1..], false, close, flush);
              assert run == rest.(offered := [x] + rest.offered, accepted := [x] + rest.accepted);
              AccountedAfterAccept(x, rest, replies);
              if run.accepted != run.offered {
                assert rest.accepted != rest.offered;
                assert replies[|run.offered| - 1] == replies[1..][|rest.offered| - 1];
              }
            case Rejected(y) =>
              assert run == Run(Waiting, Some(y), false, [x], []);
            case SinkErr(e) =>
              assert run == Closing(close, SinkEnded(e.item), false).(offered := [x]);
          }
        case End =>
          assert run == Closing(close, StreamEnded, true);
        case Pending =>
          assert run.offered == [] && run.accepted == [] && run.buffered == None;
        case StreamErr(e) =>
          assert run == Run(Failed(e), None, false, [], []);
      }
    }
  }

  /** One `poll` offers the buffered item before anything from the stream,
      then the stream's items in order. */
  lemma PollRetriesFirst<T>(buffered: Option<T>, fused: bool, polls: seq<StreamPoll<T>>,
                            replies: seq<SendReply<T>>, close: Flush<T>, flush: Flush<T>)
    requires PollFits(buffered, fused, polls, replies)
    ensures var run := PollSpec(buffered, fused, polls, replies, close, flush);
      && (buffered.Some? ==> run.offered != [] && run.offered[0] == buffered.value)
      && run.offered <= (if buffered.Some? then [buffered.value] else []) + (if fused then [] else ItemsBefore(polls))
  {
    var run := PollSpec(buffered, fused, polls, replies, close, flush);
    match buffered {
      case None =>
        LoopOffersInOrder(polls, replies, fused, close, flush);
        assert [] + ItemsBefore(polls) == ItemsBefore(polls);
      case Some(x) =>
        if replies[0].Accepted? {
          LoopOffersInOrder(polls, replies[1..], fused, close, flush);
          var rest := Loop(polls, replies[1..], fused, close, flush);
          assert run.offered == [x] + rest.offered;
        } else {
          assert run.offered == [x];
        }
    }
  }

  /** Every offer of one `poll` is accounted for: a refused item always ends
      up in the slot, so nothing is lost to back-pressure. */
  lemma PollAccountsForItems<T>(buffered: Option<T>, fused: bool, polls: seq<StreamPoll<T>>,
                                replies: seq<SendReply<T>>, close: Flush<T>, flush: Flush<T>)
    requires PollFits(buffered, fused, polls, replies)
    ensures Accounted(PollSpec(buffered, fused, polls, replies, close, flush), replies)
  {
    var run := PollSpec(buffered, fused, polls, replies, close, flush);
    match buffered {
      case None =>
        LoopAccountsForItems(polls, replies, fused, close, flush);
      case Some(x) =>
        match replies[0] {
          case Accepted =>
            LoopAccountsForItems(polls, replies[1..], fused, close, flush);
            var rest := Loop(polls, replies[1..], fused, close, flush);
            assert run == rest.(offered := [x] + rest.offered, accepted := [x] + rest.accepted);
            AccountedAfterAccept(x, rest, replies);
          case Rejected(y) =>
            assert run == Run(Waiting, Some(y), fused, [x], []);
          case SinkErr(e) =>
            assert run == Run(Failed(e), None, fused, [x], []);
        }
    }
  }

  /** A failed retry of the buffered item is propagated as the error, not
      as `SinkEnded`, and the slot is emptied: the caller only gets the item
      back through the error's own `item`. */
  lemma RetryErrorPropagates<T>(x: T, fused: bool, polls: seq<StreamPoll<T>>, e: SinkError<T>,
                                replies: seq<SendReply<T>>, close: Flush<T>, flush: Flush<T>)
    requires |replies| > 0 && replies[0] == SinkErr(e)
    ensures var run := PollSpec(Some(x), fused, polls, replies, close, flush);
      run.result == Failed(e) && run.buffered == None && run.accepted == [] && run.offered == [x]
  {
  }

  /** When `start_send` of a fresh item fails and `close()` is not ready, the
      poll is NotReady with an empty slot: the item is neither delivered nor
      kept, and the next poll goes straight back to the stream. */
  lemma CloseNotReadyDropsItem<T>(x: T, e: SinkError<T>, polls: seq<StreamPoll<T>>, replies: seq<SendReply<T>>, flush: Flush<T>)
    requires |polls| > 0 && polls[0] == Item(x)
    requires |replies| > 0 && replies[0] == SinkErr(e)
    ensures var run := PollSpec(None, false, polls, replies, NotFlushed, flush);
      && run.result == Waiting && run.buffered == None
      && run.offered == [x] && run.accepted == []
      && PollSpec(run.buffered, run.fused, [End], [], Flushed, flush).offered == []
  {
  }

  /** The end of the stream closes the sink and finishes with `StreamEnded`;
      a stream that has nothing yet flushes the sink and the future is
      NotReady (or fails with the flush error). The loop is NotReady only
      when the stream had nothing yet, the sink refused an item, or the
      sink's close did not complete. */
  lemma {:induction false} LoopEndings<T>(polls: seq<StreamPoll<T>>, replies: seq<SendReply<T>>, fused: bool,
                                          close: Flush<T>, flush: Flush<T>)
    requires Enough(polls, replies, fused)
    ensures var run := Loop(polls, replies, fused, close, flush);
      && (run.result == Finished(StreamEnded) ==> close == Flushed && run.fused && run.accepted == run.offered)
      && (run.result.Finished? && run.result.reason.SinkEnded? ==>
            close == Flushed && |run.offered| == |run.accepted| + 1)
      && (run.fused ==> run.accepted == run.offered && run.buffered == None)
      && (run.result == Waiting ==>
            || close == NotFlushed
            || (exists k | 0 <= k < |polls| :: polls[k].Pending?)
            || (exists k | 0 <= k < |replies| :: replies[k].Rejected?))
    decreases |polls|
  {
    if !fused && polls[0].Item? && replies[0].Accepted? {
      LoopEndings(polls[1..], replies[1..], false, close, flush);
      var run := Loop(polls, replies, fused, close, flush);
      if run.result == Waiting && close != NotFlushed {
        if exists k | 0 <= k < |polls[1..]| :: polls[1..][k].Pending? {
          var k :| 0 <= k < |polls[1..]| && polls[1..][k].Pending?;
          assert polls[k + 1].Pending?;
        } else {
          var k :| 0 <= k < |replies[1..]| && replies[1..][k].Rejected?;
          assert replies[k + 1].Rejected?;
        }
      }
    } else if !fused && polls[0].Pending? {
      assert polls[0].Pending?;
    } else if !fused && polls[0].Item? && replies[0].Rejected? {
      assert replies[0].Rejected?;
    }
  }

  /** `SendAll`: the sink and the stream (both taken when the future
      finishes), the stream's `Fuse` flag, and the one-item slot. */
  class SendAll<S, U, T> {
    var sink: Option<S>
    var stream: Option<U>
    var fused: bool
    var buffered: Option<T>

    /** `new(sink, stream)`: nothing buffered, the stream not yet ended. */
    constructor (sink: S, stream: U)
      ensures this.sink == Some(sink) && this.stream == Some(stream)
      ensures !fused && buffered == None
    {
      this.sink := Some(sink);
      this.stream := Some(stream);
      fused := false;
      buffered := None;
    }

    /** `take_result`: hand back the sink and the stream with the reason. */
    method TakeResult(reason: Reason<T>) returns (r: (S, U, Reason<T>))
      requires sink.Some? && stream.Some?
      modifies this
      ensures r == (old(sink).value, old(stream).value, reason)
      ensures sink == None && stream == None
      ensures fused == old(fused) && buffered == old(buffered)
    {
      r := (sink.value, stream.value, reason);
      sink := None;
      stream := None;
    }

    /** `try_start_send(item)`: offer the item; when the sink refuses it,
        buffer exactly what the sink handed back and be NotReady. */
    method TryStartSend(item: T, reply: SendReply<T>) returns (r: Attempt<T>)
      requires buffered == None
      modifies this
      ensures reply.Accepted? ==> r == Sent && buffered == None
      ensures reply.Rejected? ==> r == Refused && buffered == Some(reply.back)
      ensures reply.SinkErr? ==> r == SendFailed(reply.error) && buffered == None
      ensures sink == old(sink) && stream == old(stream) && fused == old(fused)
    {
      match reply {
        case Accepted =>
          return Sent;
        case Rejected(y) =>
          buffered := Some(y);
          return Refused;
        case SinkErr(e) =>
          return SendFailed(e);
      }
    }

    /** `try_ready!(self.sink_mut().close())` then `take_result(reason)`:
        finish only once the sink has closed. */
    method CloseAndFinish(close: Flush<T>, reason: Reason<T>) returns (r: Step<T>, result: Option<(S, U, Reason<T>)>)
      requires sink.Some? && stream.Some?
      modifies this
      ensures r == Closing(close, reason, fused).result
      ensures buffered == old(buffered) && fused == old(fused)
      ensures r.Finished? ==> result == Some((old(sink).value, old(stream).value, reason)) && sink == None && stream == None
      ensures !r.Finished? ==> result == None && sink == old(sink) && stream == old(stream)
    {
      match close {
        case Flushed =>
          var taken := TakeResult(reason);
          return Finished(reason), Some(taken);
        case NotFlushed =>
          return Waiting, None;
        case FlushErr(e) =>
          return Failed(e), None;
      }
    }

    /** `poll` of the future (panics if it already finished). `polls` are
        the stream's answers in order, `replies` the sink's `start_send`
        answers in order, `close` and `flush` its answers to `close()` and
        `poll_complete()`. */
    method Poll(polls: seq<StreamPoll<T>>, replies: seq<SendReply<T>>, close: Flush<T>, flush: Flush<T>)
      returns (r: Step<T>, result: Option<(S, U, Reason<T>)>)
      requires sink.Some? && stream.Some?
      requires PollFits(buffered, fused, polls, replies)
      modifies this
      ensures var run := PollSpec(old(buffered), old(fused), polls, replies, close, flush);
        && r == run.result && buffered == run.buffered && fused == run.fused
        && (r.Finished? ==> result == Some((old(sink).value, old(stream).value, r.reason)) && sink == None && stream == None)
        && (!r.Finished? ==> result == None && sink == old(sink) && stream == old(stream))
    {
      if buffered.Some? {
        var item := buffered.value;
        buffered := None;
        var sent := TryStartSend(item, replies[0]);
        if sent.Refused? {
          return Waiting, None;
        } else if sent.SendFailed? {
          return Failed(sent.error), None;
        }
        r, result := PollStream(polls, replies[1..], close, flush);
      } else {
        r, result := PollStream(polls, replies, close, flush);
      }
    }

    /** The `loop` of `poll`, once the slot is empty. */
    method PollStream(polls: seq<StreamPoll<T>>, replies: seq<SendReply<T>>, close: Flush<T>, flush: Flush<T>)
      returns (r: Step<T>, result: Option<(S, U, Reason<T>)>)
      requires sink.Some? && stream.Some? && buffered == None
      requires Enough(polls, replies, fused)
      modifies this
      ensures var run := Loop(polls, replies, old(fused), close, flush);
        && r == run.result && buffered == run.buffered && fused == run.fused
        && (r.Finished? ==> result == Some((old(sink).value, old(stream).value, r.reason)) && sink == None && stream == None)
        && (!r.Finished? ==> result == None && sink == old(sink) && stream == old(stream))
    {
      ghost var target := Loop(polls, replies, fused, close, flush);
      var i, j := 0, 0;
      while true
        invariant 0 <= i <= |polls| && 0 <= j <= |replies|
        invariant buffered == None && sink == old(sink) && stream == old(stream)
        invariant Enough(polls[i..], replies[j..], fused)
        invariant var rest := Loop(polls[i..], replies[j..], fused, close, flush);
                  (target.result, target.buffered, target.fused) == (rest.result, rest.buffered, rest.fused)
        decreases |polls| - i
      {
        var p: StreamPoll<T>;
        if fused {
          p := End;
        } else {
          p := polls[i];
          i := i + 1;
          if p.End? {
            fused := true;
          }
        }
        match p {
          case Item(x) =>
            var sent := TryStartSend(x, replies[j]);
            j := j + 1;
            match sent {
              case Sent =>
                assert polls[i..] == polls[i - 1..][1..];
                assert replies[j..] == replies[j - 1..][1..];
              case Refused =>
                return Waiting, None;
              case SendFailed(e) =>
                r, result := CloseAndFinish(close, SinkEnded(e.item));
                return;
            }
          case End =>
            r, result := CloseAndFinish(close, StreamEnded);
            return;
          case Pending =>
            if flush.FlushErr? {
              return Failed(flush.error), None;
            }
            return Waiting, None;
          case StreamErr(e) =>
            return Failed(e), None;
        }
      }
    }
  }
}

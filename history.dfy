/** The history ring buffer of src/history.rs: a bounded deque of output
    entries plus `offset`, the number of entries ever dropped from its front.
    A reader keeps an absolute cursor; `get_from` turns it into a position in
    the retained buffer. */
module History {
  import opened Common

  /** `HistoryType`: output of the child, or a message of the server itself. */
  datatype Kind = Child | Info

  /** One `(HistoryType, String)` pair; the `String` is modelled by its UTF-8 bytes. */
  datatype Entry = Entry(kind: Kind, message: seq<byte>)

  /** The entries `get_from(index)` yields from a buffer whose first entry has
      absolute number `offset`: a cursor behind `offset` is clamped to the
      oldest retained entry, and a cursor past the end yields nothing. */
  function Skip(buffers: seq<Entry>, offset: nat, index: nat): (r: seq<Entry>)
    ensures |r| <= |buffers| && r == buffers[|buffers| - |r|..]
    ensures index <= offset ==> |r| == |buffers|
    ensures offset <= index ==> |r| == Max(0, offset + |buffers| - index)
  {
    var idx := if index < offset then 0 else index - offset;
    if idx <= |buffers| then buffers[idx..] else []
  }

  /** The new `(buffers, offset)` after `push(e)`: when the buffer already
      holds `histsize` entries or more, the front entry is popped (if there is
      one) and `offset` grows by one; then `e` goes to the back. */
  function PushStep(buffers: seq<Entry>, offset: nat, histsize: nat, e: Entry): (seq<Entry>, nat)
  {
    if |buffers| >= histsize then
      ((if buffers == [] then [] else buffers[1..]) + [e], offset + 1)
    else
      (buffers + [e], offset)
  }

  /** The state a fresh `History::new(histsize)` reaches after pushing `entries` in order. */
  function Replay(histsize: nat, entries: seq<Entry>): (seq<Entry>, nat)
    decreases |entries|
  {
    if entries == [] then ([], 0)
    else
      var prev := Replay(histsize, entries[..|entries| - 1]);
      PushStep(prev.0, prev.1, histsize, entries[|entries| - 1])
  }

  /** The buffer holds exactly the entries of `log` (everything ever pushed)
      from absolute number `offset` on, and no more than `histsize` of them. */
  ghost predicate Retains(log: seq<Entry>, buffers: seq<Entry>, offset: nat, histsize: nat)
  {
    && offset + |buffers| == |log|
    && buffers == log[offset..]
    && |buffers| <= histsize
  }

  /** With room for at least one entry, a push keeps the buffer a bounded
      window onto the end of everything pushed. */
  lemma PushPreservesRetains(log: seq<Entry>, buffers: seq<Entry>, offset: nat, histsize: nat, e: Entry)
    requires histsize >= 1 && Retains(log, buffers, offset, histsize)
    ensures var next := PushStep(buffers, offset, histsize, e);
            Retains(log + [e], next.0, next.1, histsize)
  {
    var next := PushStep(buffers, offset, histsize, e);
    if |buffers| >= histsize {
      assert buffers != [];
      assert next.0 == log[offset + 1..] + [e];
      assert (log + [e])[offset + 1..] == log[offset + 1..] + [e];
    } else {
      assert (log + [e])[offset..] == log[offset..] + [e];
    }
  }

  /** For `histsize >= 1`: after any sequence of pushes the buffer holds the
      last `min(pushes, histsize)` entries in push order, and
      `offset + len == pushes`. */
  lemma {:induction false} ReplayRetainsLatest(histsize: nat, entries: seq<Entry>)
    requires histsize >= 1
    ensures var s := Replay(histsize, entries);
            Retains(entries, s.0, s.1, histsize) && |s.0| == Min(|entries|, histsize)
    decreases |entries|
  {
    if entries != [] {
      var init := entries[..|entries| - 1];
      var last := entries[|entries| - 1];
      ReplayRetainsLatest(histsize, init);
      var prev := Replay(histsize, init);
      PushPreservesRetains(init, prev.0, prev.1, histsize, last);
      assert init + [last] == entries;
    }
  }

  /** With `histsize == 0` the invariant fails: two pushes leave one entry
      retained while `offset` already counts two evictions. */
  lemma ZeroCapacityMiscounts(a: Entry, b: Entry)
    ensures var s := Replay(0, [a, b]);
            s.0 == [b] && s.1 == 2 && s.1 + |s.0| == 3
  {
    assert [a, b][..1] == [a];
    assert [a][..0] == [];
    assert Replay(0, []) == ([], 0);
    assert [] + [a] == [a];
    assert PushStep([], 0, 0, a) == ([a], 1);
    assert Replay(0, [a]) == ([a], 1);
    assert [a][1..] + [b] == [b];
    assert PushStep([a], 1, 0, b) == ([b], 2);
  }

  /** What `get_from(index)` yields, in terms of absolute entry numbers: every
      entry pushed at a position no earlier than both `index` and `offset`. */
  lemma SkipReadsLog(log: seq<Entry>, offset: nat, index: nat)
    requires offset <= |log|
    ensures Skip(log[offset..], offset, index) == log[Min(Max(index, offset), |log|)..]
  {
  }

  /** A reader whose cursor is the end of the log at some moment receives,
      after further pushes `later`, exactly those entries (when none of them
      has been evicted yet), and after advancing its cursor past them it
      receives nothing until the next push. */
  lemma {:induction false} ReaderSeesNewEntriesOnce(histsize: nat, earlier: seq<Entry>, later: seq<Entry>)
    requires histsize >= 1
    requires |later| <= histsize
    ensures var s := Replay(histsize, earlier + later);
            && Skip(s.0, s.1, |earlier|) == later
            && Skip(s.0, s.1, |earlier| + |later|) == []
  {
    var all := earlier + later;
    ReplayRetainsLatest(histsize, all);
    var s := Replay(histsize, all);
    SkipReadsLog(all, s.1, |earlier|);
    SkipReadsLog(all, s.1, |earlier| + |later|);
    assert all[|earlier|..] == later;
  }

  /** `History` of src/history.rs. `log` is ghost: everything ever pushed. */
  class History {
    var buffers: seq<Entry>
    const histsize: nat
    var offset: nat
    ghost var log: seq<Entry>

    ghost predicate Valid()
      reads this
    {
      Retains(log, buffers, offset, histsize)
    }

    /** `History::new`: empty, nothing evicted. */
    constructor (histsize: nat)
      ensures this.histsize == histsize
      ensures buffers == [] && offset == 0 && log == []
      ensures Valid()
    {
      this.histsize := histsize;
      buffers := [];
      offset := 0;
      log := [];
    }

    /** `push`: evict the front entry iff the buffer is full, then append. */
    method Push(kind: Kind, message: seq<byte>)
      modifies this
      ensures log == old(log) + [Entry(kind, message)]
      ensures (buffers, offset) == PushStep(old(buffers), old(offset), histsize, Entry(kind, message))
      ensures old(|buffers|) >= histsize ==> offset == old(offset) + 1
      ensures old(|buffers|) < histsize ==> offset == old(offset) && buffers == old(buffers) + [Entry(kind, message)]
      ensures buffers[|buffers| - 1] == Entry(kind, message)
      ensures histsize >= 1 && old(Valid()) ==> Valid()
    {
      ghost var e := Entry(kind, message);
      ghost var wasValid := Valid();
      if |buffers| >= histsize {
        if buffers != [] {
          buffers := buffers[1..];
        }
        offset := offset + 1;
      }
      buffers := buffers + [Entry(kind, message)];
      if histsize >= 1 && wasValid {
        PushPreservesRetains(log, old(buffers), old(offset), histsize, e);
      }
      log := log + [e];
    }

    /** `get_from(index)`: the retained entries from the reader's cursor on. */
    function GetFrom(index: nat): (r: seq<Entry>)
      reads this
      ensures Valid() ==> r == log[Min(Max(index, offset), |log|)..]
    {
      Skip(buffers, offset, index)
    }

    /** `get_offset`: the cursor a new reader starts from; reading from it
        yields the whole retained buffer. */
    function GetOffset(): (r: nat)
      reads this
      ensures GetFrom(r) == buffers
      ensures Valid() ==> r + |buffers| == |log|
    {
      offset
    }
  }
}

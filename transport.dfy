/** What pty/src/lib.rs and tty/src/lib.rs share, stated once: the
    partial-write transitions of their sinks (`PtySink`, `PipeWriter`) and
    what they deliver, the chunk copy of their streams (`PtyStream`,
    `PipeReader`), `cvt`, and the `Rows`/`Columns`/`winsize` values. The OS is an oracle: every `write(2)`
    and `read(2)` result arrives as a parameter. */
module Transport {
  import opened Common

  /** Size of the scratch buffer a stream poll reads into. */
  const SCRATCH_LEN: nat := 2048

  /** `EAGAIN` (= `EWOULDBLOCK`) on Linux: the errno `io::Error` reports as `WouldBlock`. */
  const EAGAIN: int := 11

  /** `pty::Rows` / `pty::Columns`: a `c_ushort` each, built `From<u16>`. */
  datatype Rows = Rows(value: u16)
  datatype Columns = Columns(value: u16)

  /** `libc::winsize`. */
  datatype Winsize = Winsize(row: u16, col: u16, xpixel: u16, ypixel: u16)

  /** The size `openpty(24, 80)` gives a fresh terminal. */
  const INITIAL_WINSIZE := Winsize(24, 80, 0, 0)

  /** The kind `io::Error::last_os_error()` carries for an errno. */
  function KindOf(errno: int): ErrorKind
  {
    if errno == EAGAIN then WouldBlock else Other(errno)
  }

  /** `cvt`: a libc return value fails exactly when it is -1; any other value
      (0, a descriptor, a positive count, even another negative number) is
      passed through as success. */
  function Cvt(ret: int, errno: int): (r: IoResult<int>)
    ensures r.Err? <==> ret == -1
    ensures r.Ok? ==> r.value == ret
    ensures r.Err? ==> r.kind == KindOf(errno)
  {
    if ret == -1 then Err(KindOf(errno)) else Ok(ret)
  }

  /** futures 0.1 `StartSend<Vec<u8>, io::Error>`. */
  datatype StartSend = Accepted | Rejected(item: seq<byte>) | SendErr(kind: ErrorKind)

  /** A `write(2)` on `data` never reports more bytes than it was given. */
  predicate WriteFits(w: IoResult<nat>, len: nat)
  {
    w.Ok? ==> w.value <= len
  }

  /** The bytes a write on `data` handed to the kernel. */
  function Written(data: seq<byte>, w: IoResult<nat>): seq<byte>
    requires WriteFits(w, |data|)
  {
    if w.Ok? then data[..w.value] else []
  }

  /** The bytes the sink keeps pending after a write of `n` out of the
      non-empty `item`, as the source computes them: `item[n..len-1]`, so the
      final byte of a partially written item is never kept. */
  function PendingAfter(item: seq<byte>, n: nat): (r: seq<byte>)
    requires n <= |item|
    ensures n < |item| ==> |r| == |item| - n - 1
  {
    if n == |item| then [] else item[n..|item| - 1]
  }

  /** `start_send(item)` as written, on pending bytes `pending` and write
      result `w`: the outcome and the new pending bytes. */
  function StartSendStep(pending: seq<byte>, item: seq<byte>, w: IoResult<nat>): (StartSend, seq<byte>)
    requires WriteFits(w, |item|)
  {
    if |item| == 0 then (Accepted, pending)
    else match w
      case Ok(n) => (Accepted, PendingAfter(item, n))
      case Err(WouldBlock) => (Rejected(item), pending)
      case Err(e) => (SendErr(e), pending)
  }

  /** `poll_complete()` on pending bytes `pending` and write result `w`:
      the poll outcome and what stays pending. */
  function PollCompleteStep(pending: seq<byte>, w: IoResult<nat>): (Poll<()>, seq<byte>)
    requires WriteFits(w, |pending|)
  {
    if |pending| == 0 then (Ready(()), pending)
    else match w
      case Ok(n) => (if n == |pending| then Ready(()) else NotReady, pending[n..])
      case Err(WouldBlock) => (NotReady, pending)
      case Err(e) => (PollErr(e), pending)
  }

  /** `start_send` hands a refused item back unchanged, keeps it out of the
      pending bytes, and otherwise replaces (never extends) the pending bytes:
      on a full write nothing stays pending, on a partial write of `k < N`
      bytes exactly `N - k - 1` bytes do, so the written bytes and the pending
      ones make up the item without its last byte; any other error is
      returned with the old pending bytes untouched. */
  lemma StartSendOutcomes(pending: seq<byte>, item: seq<byte>, w: IoResult<nat>)
    requires WriteFits(w, |item|) && |item| > 0
    ensures var (r, next) := StartSendStep(pending, item, w);
            && (w == Err(WouldBlock) ==> r == Rejected(item) && next == pending)
            && (w.Ok? && w.value == |item| ==> r == Accepted && next == [])
            && (w.Err? && w.kind != WouldBlock ==> r == SendErr(w.kind) && next == pending)
            && (w.Ok? && w.value < |item| ==> r == Accepted && |next| == |item| - w.value - 1)
            && (w.Ok? && w.value < |item| ==> Written(item, w) + next == item[..|item| - 1])
  {
    if w.Ok? && w.value < |item| {
      assert Written(item, w) + item[w.value..|item| - 1] == item[..|item| - 1];
    }
  }

  /** `poll_complete` removes exactly the written prefix: the bytes written
      followed by the bytes still pending are the bytes pending before, and
      it is Ready iff nothing is left. */
  lemma PollCompleteConserves(pending: seq<byte>, w: IoResult<nat>)
    requires WriteFits(w, |pending|)
    ensures var (r, next) := PollCompleteStep(pending, w);
            && Written(pending, w) + next == pending
            && (r.Ready? <==> next == [])
            && (w.Err? ==> next == pending)
  {
    var (r, next) := PollCompleteStep(pending, w);
    if |pending| > 0 && w.Ok? {
      assert pending[..w.value] + pending[w.value..] == pending;
    }
  }

  /** A sequence of `poll_complete` write results each fits the bytes still
      pending when it is issued. */
  ghost predicate DrainFits(pending: seq<byte>, ws: seq<IoResult<nat>>)
    decreases |ws|
  {
    ws == [] ||
    (WriteFits(ws[0], |pending|) && DrainFits(PollCompleteStep(pending, ws[0]).1, ws[1..]))
  }

  /** Repeated `poll_complete`: the bytes delivered and the bytes left pending. */
  function Drain(pending: seq<byte>, ws: seq<IoResult<nat>>): (seq<byte>, seq<byte>)
    requires DrainFits(pending, ws)
    decreases |ws|
  {
    if ws == [] then ([], pending)
    else
      var next := PollCompleteStep(pending, ws[0]).1;
      var rest := Drain(next, ws[1..]);
      (Written(pending, ws[0]) + rest.0, rest.1)
  }

  /** However many calls it takes, draining delivers the pending bytes in
      order, never duplicating or dropping one. */
  lemma {:induction false} DrainConserves(pending: seq<byte>, ws: seq<IoResult<nat>>)
    requires DrainFits(pending, ws)
    ensures Drain(pending, ws).0 + Drain(pending, ws).1 == pending
    decreases |ws|
  {
    if ws != [] {
      var next := PollCompleteStep(pending, ws[0]).1;
      var rest := Drain(next, ws[1..]);
      var head := Written(pending, ws[0]);
      assert Drain(pending, ws) == (head + rest.0, rest.1);
      PollCompleteConserves(pending, ws[0]);
      DrainConserves(next, ws[1..]);
      assert (head + rest.0) + rest.1 == head + (rest.0 + rest.1);
    }
  }

  /** The sink as written: an item of `N` bytes of which the first write takes
      `k < N`, drained to completion, delivers `item[..N-1]`: every byte but
      the last, in order. The last byte is never delivered. */
  lemma AsWrittenDropsLastByte(item: seq<byte>, k: nat, ws: seq<IoResult<nat>>)
    requires k < |item|
    requires DrainFits(PendingAfter(item, k), ws)
    requires Drain(PendingAfter(item, k), ws).1 == []
    ensures var (r, pending) := StartSendStep([], item, Ok(k));
            && r == Accepted && pending == PendingAfter(item, k)
            && item[..k] + Drain(pending, ws).0 == item[..|item| - 1]
            && item[..k] + Drain(pending, ws).0 != item
  {
    var pending := PendingAfter(item, k);
    DrainConserves(pending, ws);
    assert item[..k] + item[k..|item| - 1] == item[..|item| - 1];
    assert |item[..|item| - 1]| != |item|;
  }

  /** A concrete instance: "abc" written one byte at a time never delivers 'c'. */
  lemma DropsLastByteExample()
    ensures StartSendStep([], [97, 98, 99], Ok(1)) == (Accepted, [98])
    ensures Drain([98], [Ok(1)]) == ([98], [])
  {
    assert [97, 98, 99][1..2] == [98];
    assert [98][1..] == [];
    assert [Ok(1)][1..] == [];
    assert PollCompleteStep([98], Ok(1)) == (Ready(()), []);
    assert DrainFits([98], [Ok(1)]);
    assert Drain([], []) == ([], []);
    assert Written([98], Ok(1)) == [98];
    assert [98] + [] == [98];
  }

  /** The evidently intended pending bytes after a partial write: the whole
      unwritten suffix `item[k..]`. */
  function IntendedPendingAfter(item: seq<byte>, k: nat): (r: seq<byte>)
    requires k <= |item|
    ensures item[..k] + r == item
  {
    item[k..]
  }

  /** With the intended suffix, a partially written item drained to
      completion delivers all `N` bytes, in order. */
  lemma IntendedDeliversAll(item: seq<byte>, k: nat, ws: seq<IoResult<nat>>)
    requires k <= |item|
    requires DrainFits(IntendedPendingAfter(item, k), ws)
    requires Drain(IntendedPendingAfter(item, k), ws).1 == []
    ensures item[..k] + Drain(IntendedPendingAfter(item, k), ws).0 == item
  {
    DrainConserves(IntendedPendingAfter(item, k), ws);
  }

  /** The `for i in 0..len { vec.push(buf[i]) }` copy of a stream poll. */
  method CopyChunk(buf: array<byte>, len: nat) returns (vec: seq<byte>)
    requires len <= buf.Length
    ensures vec == buf[..len]
  {
    vec := [];
    for i := 0 to len
      invariant vec == buf[..i]
    {
      vec := vec + [buf[i]];
    }
  }
}

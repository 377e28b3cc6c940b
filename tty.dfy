/** The `tty` crate (tty/src/lib.rs): an earlier form of the PTY transport.
    Its `Pty` only resizes the terminal here; `PipeReader` and `PipeWriter`
    are the reading stream and the writing sink over the master descriptor.
    Unlike pty/src/lib.rs, its window-size ioctls succeed only on a return
    value of exactly 0. */
module Tty {
  import opened Common
  import opened Transport

  /** `get_winsize`: success only when the `TIOCGWINSZ` ioctl returns 0. */
  function GetWinsize(ret: int, errno: int, current: Winsize): (r: IoResult<Winsize>)
    ensures r.Ok? <==> ret == 0
    ensures r.Ok? ==> r.value == current
    ensures r.Err? ==> r.kind == KindOf(errno)
  {
    if ret == 0 then Ok(current) else Err(KindOf(errno))
  }

  /** `set_winsize`: success only when the `TIOCSWINSZ` ioctl returns 0. */
  function SetWinsize(ret: int, errno: int): (r: IoResult<()>)
    ensures r.Ok? <==> ret == 0
    ensures r.Err? ==> r.kind == KindOf(errno)
  {
    if ret == 0 then Ok(()) else Err(KindOf(errno))
  }

  /** The two crates disagree on an ioctl return value that is neither 0
      nor -1: `cvt` (the rule of pty/src/lib.rs) takes it for success, this
      crate's rule for failure. On 0 and -1 they agree. */
  lemma WinsizeRulesDiffer(ret: int, errno: int, current: Winsize)
    ensures Cvt(ret, errno).Ok? && GetWinsize(ret, errno, current).Err? <==> ret != 0 && ret != -1
    ensures Cvt(ret, errno).Ok? && SetWinsize(ret, errno).Err? <==> ret != 0 && ret != -1
    ensures ret == 0 || ret == -1 ==> (Cvt(ret, errno).Ok? <==> SetWinsize(ret, errno).Ok?)
  {
  }

  class Pty {
    /** The window size the kernel holds for the master side. */
    var terminal: Winsize

    /** The terminal `Pty::new` opens: 24 rows by 80 columns. */
    constructor ()
      ensures terminal == INITIAL_WINSIZE
    {
      terminal := INITIAL_WINSIZE;
    }

    /** `set_window_size`: read the current size, overwrite rows and columns,
        write it back; `unwrap`/`expect` panic when either ioctl does not
        return 0. The pixel fields keep the values the kernel had. */
    method SetWindowSize(rows: Rows, columns: Columns, getRet: int, setRet: int, errno: int) returns (r: Outcome<()>)
      modifies this
      ensures r.Returned? <==> getRet == 0 && setRet == 0
      ensures r.Returned? ==> terminal == old(terminal).(row := rows.value, col := columns.value)
      ensures r.Returned? ==> terminal.xpixel == old(terminal).xpixel && terminal.ypixel == old(terminal).ypixel
      ensures r.Panicked? ==> terminal == old(terminal)
    {
      var got := GetWinsize(getRet, errno, terminal);
      if got.Err? {
        return Panicked;
      }
      var ws := got.value;
      ws := ws.(row := rows.value, col := columns.value);
      var applied := SetWinsize(setRet, errno);
      if applied.Err? {
        return Panicked;
      }
      terminal := ws;
      return Returned(());
    }
  }

  /** `PipeReader::poll`: one read of the master into a 2048-byte scratch
      buffer. Bytes read become one chunk (0 bytes read give an empty chunk:
      the stream never ends); would-block is NotReady; other errors are
      returned. */
  method PollPipeReader(read: IoResult<seq<byte>>) returns (r: Poll<Option<seq<byte>>>)
    requires read.Ok? ==> |read.value| <= SCRATCH_LEN
    ensures read.Ok? ==> r == Ready(Some(read.value))
    ensures read == Err(WouldBlock) ==> r == NotReady
    ensures read.Err? && read.kind != WouldBlock ==> r == PollErr(read.kind)
    ensures r != Ready(None)
  {
    var buf := new byte[SCRATCH_LEN];
    match read {
      case Ok(data) =>
        forall i | 0 <= i < |data| {
          buf[i] := data[i];
        }
        assert buf[..|data|] == data;
        var vec := CopyChunk(buf, |data|);
        return Ready(Some(vec));
      case Err(e) =>
        if e == WouldBlock {
          return NotReady;
        }
        return PollErr(e);
    }
  }

  /** `PipeWriter`: writes chunks to the master, keeping the bytes a partial
      write left over in `buf`. */
  class PipeWriter {
    var buf: seq<byte>

    constructor ()
      ensures buf == []
    {
      buf := [];
    }

    /** `start_send(item)` with the write result `w` the OS reports. */
    method StartSend(item: seq<byte>, w: IoResult<nat>) returns (r: StartSend)
      requires WriteFits(w, |item|)
      modifies this
      ensures (r, buf) == StartSendStep(old(buf), item, w)
      ensures |item| == 0 ==> r == Accepted && buf == old(buf)
      ensures |item| > 0 && w == Err(WouldBlock) ==> r == Rejected(item) && buf == old(buf)
      ensures |item| > 0 && w.Ok? ==> r == Accepted && buf == PendingAfter(item, w.value)
    {
      var origLen := |item|;
      if origLen == 0 {
        return Accepted;
      }
      var writtenLen: nat;
      match w {
        case Ok(n) =>
          writtenLen := n;
        case Err(e) =>
          if e == WouldBlock {
            return Rejected(item);
          }
          return SendErr(e);
      }
      buf := [];
      if writtenLen != origLen {
        var i := writtenLen;
        while i < origLen - 1
          invariant writtenLen <= i <= origLen - 1
          invariant buf == item[writtenLen..i]
        {
          buf := buf + [item[i]];
          i := i + 1;
        }
      }
      return Accepted;
    }

    /** `poll_complete()` with the write result `w` the OS reports. */
    method PollComplete(w: IoResult<nat>) returns (r: Poll<()>)
      requires WriteFits(w, |buf|)
      modifies this
      ensures (r, buf) == PollCompleteStep(old(buf), w)
      ensures Written(old(buf), w) + buf == old(buf)
      ensures r.Ready? <==> buf == []
    {
      PollCompleteConserves(buf, w);
      var origLen := |buf|;
      r := NotReady;
      if origLen == 0 {
        return Ready(());
      }
      var writtenLen := 0;
      match w {
        case Ok(n) =>
          writtenLen := n;
          if n == origLen {
            r := Ready(());
          }
        case Err(e) =>
          if e != WouldBlock {
            r := PollErr(e);
          }
      }
      buf := buf[writtenLen..];
    }
  }
}

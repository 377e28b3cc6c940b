/** The `pty` crate (pty/src/lib.rs): the child's lifecycle in `Pty`, the
    window-size ioctls, the reading stream `PtyStream` and the writing sink
    `PtySink` over the non-blocking master descriptor. */
module Pty {
  import opened Common
  import opened Transport

  /** `PtyInner`: no child yet, a live child (named by its pid), or the exit
      status of the last child waited for. */
  datatype PtyInner = Child(pid: nat) | ExitStatus(code: int) | NeverSpawned

  /** What `Pty::spawn` does: launch, refuse, or panic when the launch fails. */
  datatype SpawnResult = Launched | AlreadySpawned | LaunchPanicked

  /** `get_winsize`: the `TIOCGWINSZ` ioctl's result through `cvt`, so any
      return value other than -1 yields the size the kernel reports. */
  function GetWinsize(ret: int, errno: int, current: Winsize): (r: IoResult<Winsize>)
    ensures r.Ok? <==> ret != -1
    ensures r.Ok? ==> r.value == current
  {
    match Cvt(ret, errno)
    case Ok(_) => Ok(current)
    case Err(e) => Err(e)
  }

  /** `set_winsize`: the `TIOCSWINSZ` ioctl's result through `cvt`. */
  function SetWinsize(ret: int, errno: int): (r: IoResult<()>)
    ensures r.Ok? <==> ret != -1
  {
    match Cvt(ret, errno)
    case Ok(_) => Ok(())
    case Err(e) => Err(e)
  }

  class Pty {
    var child: PtyInner
    /** The window size the kernel holds for the master side. */
    var terminal: Winsize

    /** `Pty::new`: a fresh 24x80 terminal and no child. */
    constructor ()
      ensures child == NeverSpawned && terminal == INITIAL_WINSIZE
    {
      child := NeverSpawned;
      terminal := INITIAL_WINSIZE;
    }

    /** `spawn`: refused while a child is live; otherwise the launch result
        (an oracle: the pid, or the error `expect` panics on) decides. */
    method Spawn(launch: IoResult<nat>) returns (r: SpawnResult)
      modifies this
      ensures old(child).Child? ==> r == AlreadySpawned && child == old(child)
      ensures !old(child).Child? && launch.Ok? ==> r == Launched && child == Child(launch.value)
      ensures !old(child).Child? && launch.Err? ==> r == LaunchPanicked && child == old(child)
      ensures terminal == old(terminal)
    {
      match child {
        case Child(_) =>
          return AlreadySpawned;
        case _ =>
          match launch {
            case Err(_) =>
              return LaunchPanicked;
            case Ok(pid) =>
              child := Child(pid);
              return Launched;
          }
      }
    }

    /** `wait`: a live child's exit status (an oracle; `expect` panics on an
        error) replaces it; waiting with no live child forgets any earlier
        status. */
    method Wait(status: IoResult<int>) returns (r: Outcome<()>)
      modifies this
      ensures old(child).Child? && status.Ok? ==> r == Returned(()) && child == ExitStatus(status.value)
      ensures old(child).Child? && status.Err? ==> r == Panicked && child == old(child)
      ensures !old(child).Child? ==> r == Returned(()) && child == NeverSpawned
      ensures terminal == old(terminal)
    {
      var res: PtyInner;
      match child {
        case Child(_) =>
          match status {
            case Err(_) =>
              return Panicked;
            case Ok(code) =>
              res := ExitStatus(code);
          }
        case _ =>
          res := NeverSpawned;
      }
      child := res;
      return Returned(());
    }

    /** `set_window_size`: read the current size, overwrite rows and columns,
        write it back; `unwrap`/`expect` panic when either ioctl reports -1.
        The pixel fields keep the values the kernel had. */
    method SetWindowSize(rows: Rows, columns: Columns, getRet: int, setRet: int, errno: int) returns (r: Outcome<()>)
      modifies this
      ensures r.Returned? <==> getRet != -1 && setRet != -1
      ensures r.Returned? ==> terminal == old(terminal).(row := rows.value, col := columns.value)
      ensures r.Panicked? ==> terminal == old(terminal)
      ensures child == old(child)
    {
      var got := GetWinsize(getRet, errno, terminal);
      if got.Err? {
        return Panicked;
      }
      var ws := got.value;
      ws := ws.(row := rows.value, col := columns.value);
      var applied := SetWinsize(setRet, errno);
      if applied.Err? {
        return Panicked;
      }
      terminal := ws;
      return Returned(());
    }
  }

  /** `PtyStream::poll`: one read of the master into a 2048-byte scratch
      buffer. Bytes read become one chunk (0 bytes read give an empty chunk:
      the stream never ends); would-block is NotReady; other errors are
      returned. */
  method PollPtyStream(read: IoResult<seq<byte>>) returns (r: Poll<Option<seq<byte>>>)
    requires read.Ok? ==> |read.value| <= SCRATCH_LEN
    ensures read.Ok? ==> r == Ready(Some(read.value))
    ensures read == Err(WouldBlock) ==> r == NotReady
    ensures read.Err? && read.kind != WouldBlock ==> r == PollErr(read.kind)
    ensures r != Ready(None)
  {
    var buf := new byte[SCRATCH_LEN];
    match read {
      case Ok(data) =>
        forall i | 0 <= i < |data| {
          buf[i] := data[i];
        }
        assert buf[..|data|] == data;
        var vec := CopyChunk(buf, |data|);
        return Ready(Some(vec));
      case Err(e) =>
        if e == WouldBlock {
          return NotReady;
        }
        return PollErr(e);
    }
  }

  /** `PtySink`: writes chunks to the master, keeping the bytes a partial
      write left over in `buf`. */
  class PtySink {
    var buf: seq<byte>

    constructor ()
      ensures buf == []
    {
      buf := [];
    }

    /** `start_send(item)` with the write result `w` the OS reports. */
    method StartSend(item: seq<byte>, w: IoResult<nat>) returns (r: StartSend)
      requires WriteFits(w, |item|)
      modifies this
      ensures (r, buf) == StartSendStep(old(buf), item, w)
      ensures |item| == 0 ==> r == Accepted && buf == old(buf)
      ensures |item| > 0 && w == Err(WouldBlock) ==> r == Rejected(item) && buf == old(buf)
      ensures |item| > 0 && w.Ok? ==> r == Accepted && buf == PendingAfter(item, w.value)
    {
      var origLen := |item|;
      if origLen == 0 {
        return Accepted;
      }
      var writtenLen: nat;
      match w {
        case Ok(n) =>
          writtenLen := n;
        case Err(e) =>
          if e == WouldBlock {
            return Rejected(item);
          }
          return SendErr(e);
      }
      buf := [];
      if writtenLen != origLen {
        var i := writtenLen;
        while i < origLen - 1
          invariant writtenLen <= i <= origLen - 1
          invariant buf == item[writtenLen..i]
        {
          buf := buf + [item[i]];
          i := i + 1;
        }
      }
      return Accepted;
    }

    /** `poll_complete()` with the write result `w` the OS reports. */
    method PollComplete(w: IoResult<nat>) returns (r: Poll<()>)
      requires WriteFits(w, |buf|)
      modifies this
      ensures (r, buf) == PollCompleteStep(old(buf), w)
      ensures Written(old(buf), w) + buf == old(buf)
      ensures r.Ready? <==> buf == []
    {
      PollCompleteConserves(buf, w);
      var origLen := |buf|;
      r := NotReady;
      if origLen == 0 {
        return Ready(());
      }
      var writtenLen := 0;
      match w {
        case Ok(n) =>
          writtenLen := n;
          if n == origLen {
            r := Ready(());
          }
        case Err(e) =>
          if e != WouldBlock {
            r := PollErr(e);
          }
      }
      buf := buf[writtenLen..];
    }
  }
}

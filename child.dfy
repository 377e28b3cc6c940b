/** The process record of src/child.rs: the supervised child, its stdin and
    stdout endpoints waiting to be handed out, the tasks parked waiting for
    them, and the window size every peer asked for. The `pty` API it calls is
    an abstract collaborator whose results arrive as parameters; the
    `Arc<Mutex<_>>` around it is left out, so `Process` is one sequential
    object. */
module Child {
  import opened Common
  import opened Transport

  /** `ProcessError`. */
  datatype ProcessError = ProcessAlreadySpawned | NoChild | IoError(kind: ErrorKind)

  /** `Result<T, ProcessError>`, plus the panic of `spawn` when launching fails. */
  datatype ProcessResult<+T> = Done(value: T) | Failed(error: ProcessError) | SpawnPanicked

  /** A `pty::Child`, named by its pid; the endpoints a launch yields are
      tagged with the pid of the child they belong to. */
  datatype PtyChild = PtyChild(pid: nat)
  datatype Stdin = Stdin(of: nat)
  datatype Stdout = Stdout(of: nat)

  /** A peer's socket address. */
  type Addr = nat

  type WindowSize = (Rows, Columns)

  /** The size `set_window_size` applies: the component-wise minimum over
      all recorded sizes, starting from `u16::MAX` in both components. */
  ghost predicate IsComponentMin(sizes: map<Addr, WindowSize>, m: WindowSize)
  {
    && (forall a | a in sizes :: m.0.value <= sizes[a].0.value && m.1.value <= sizes[a].1.value)
    && (m.0.value == U16_MAX || exists a | a in sizes :: m.0.value == sizes[a].0.value)
    && (m.1.value == U16_MAX || exists a | a in sizes :: m.1.value == sizes[a].1.value)
  }

  /** Two component-wise minima of the same map are the same size. */
  lemma ComponentMinUnique(sizes: map<Addr, WindowSize>, m: WindowSize, n: WindowSize)
    requires IsComponentMin(sizes, m) && IsComponentMin(sizes, n)
    ensures m == n
  {
    assert m.0.value == n.0.value;
    assert m.1.value == n.1.value;
  }

  /** The loop of `set_window_size` over `window_sizes`, starting from
      `(u16::MAX, u16::MAX)`. */
  method MinWindowSize(sizes: map<Addr, WindowSize>) returns (m: WindowSize)
    ensures IsComponentMin(sizes, m)
  {
    m := (Rows(U16_MAX), Columns(U16_MAX));
    var todo := sizes.Keys;
    while todo != {}
      invariant todo <= sizes.Keys
      invariant forall a | a in sizes.Keys - todo :: m.0.value <= sizes[a].0.value && m.1.value <= sizes[a].1.value
      invariant m.0.value == U16_MAX || exists a | a in sizes.Keys - todo :: m.0.value == sizes[a].0.value
      invariant m.1.value == U16_MAX || exists a | a in sizes.Keys - todo :: m.1.value == sizes[a].1.value
      decreases todo
    {
      var a :| a in todo;
      var ws := sizes[a];
      if ws.0.value < m.0.value {
        m := (ws.0, m.1);
      }
      if ws.1.value < m.1.value {
        m := (m.0, ws.1);
      }
      todo := todo - {a};
    }
  }

  /** Three situations. Peers asking for 80x24, 100x30 and 60x20 get
      60x20, and peers asking for 80x24 and 100x30 get 80x24: in both, one
      peer is smallest in both components. Peers asking for 60x24 and 80x20
      get 60x20, a size neither asked for, because rows and columns are
      minimised separately. */
  lemma WindowSizeExample(a: Addr, b: Addr, c: Addr, m: WindowSize, n: WindowSize, k: WindowSize)
    requires a != b && b != c && a != c
    requires IsComponentMin(map[a := (Rows(24), Columns(80)), b := (Rows(30), Columns(100)), c := (Rows(20), Columns(60))], m)
    requires IsComponentMin(map[a := (Rows(24), Columns(80)), b := (Rows(30), Columns(100))], n)
    requires IsComponentMin(map[a := (Rows(24), Columns(60)), b := (Rows(20), Columns(80))], k)
    ensures m == (Rows(20), Columns(60))
    ensures n == (Rows(24), Columns(80))
    ensures k == (Rows(20), Columns(60))
  {
    var s3 := map[a := (Rows(24), Columns(80)), b := (Rows(30), Columns(100)), c := (Rows(20), Columns(60))];
    var s2 := map[a := (Rows(24), Columns(80)), b := (Rows(30), Columns(100))];
    var t2 := map[a := (Rows(24), Columns(60)), b := (Rows(20), Columns(80))];
    assert m.0.value <= s3[c].0.value && m.1.value <= s3[c].1.value;
    assert n.0.value <= s2[a].0.value && n.1.value <= s2[a].1.value;
    assert k.0.value <= t2[b].0.value && k.1.value <= t2[a].1.value;
  }

  class Process {
    var child: Option<PtyChild>
    var exitStatus: Option<int>
    var windowSizes: map<Addr, WindowSize>
    var stdin: Option<Stdin>
    var stdout: Option<Stdout>
    /** `pr_task` / `pw_task`: whether a reader / writer task is parked. */
    var prTask: bool
    var pwTask: bool
    var startedAt: Option<string>
    /** The window size last applied to the child's terminal. */
    var applied: Option<WindowSize>

    /** `Process::new`: no child, no endpoints, no parked task, no sizes. */
    constructor ()
      ensures child == None && exitStatus == None && windowSizes == map[]
      ensures stdin == None && stdout == None && !prTask && !pwTask
      ensures startedAt == None && applied == None
    {
      child := None;
      exitStatus := None;
      windowSizes := map[];
      stdin := None;
      stdout := None;
      prTask := false;
      pwTask := false;
      startedAt := None;
      applied := None;
    }

    /** `spawn`: refused while a child exists. Otherwise the launch (an
        oracle: a child, or the error that makes `spawn` panic) installs the
        child and its two endpoints, takes and wakes any parked reader and
        writer task (`wokeReader` and `wokeWriter` say which were), and records the start time. */
    method Spawn(launch: IoResult<PtyChild>, now: string) returns (r: ProcessResult<()>, wokeReader: bool, wokeWriter: bool)
      modifies this
      ensures old(child).Some? ==> r == Failed(ProcessAlreadySpawned) && !wokeReader && !wokeWriter
      ensures old(child).Some? || launch.Err? ==>
        child == old(child) && stdin == old(stdin) && stdout == old(stdout)
        && prTask == old(prTask) && pwTask == old(pwTask) && startedAt == old(startedAt)
      ensures old(child).None? && launch.Err? ==> r == SpawnPanicked
      ensures old(child).None? && launch.Ok? ==>
        && r == Done(())
        && child == Some(launch.value)
        && stdin == Some(Stdin(launch.value.pid)) && stdout == Some(Stdout(launch.value.pid))
        && !prTask && !pwTask
        && wokeReader == old(prTask) && wokeWriter == old(pwTask)
        && startedAt == Some(now)
      ensures windowSizes == old(windowSizes) && applied == old(applied) && exitStatus == old(exitStatus)
    {
      wokeReader, wokeWriter := false, false;
      if child.Some? {
        return Failed(ProcessAlreadySpawned), wokeReader, wokeWriter;
      }
      match launch {
        case Err(_) =>
          return SpawnPanicked, wokeReader, wokeWriter;
        case Ok(c) =>
          child := Some(c);
          stdin := Some(Stdin(c.pid));
          stdout := Some(Stdout(c.pid));
          if prTask {
            prTask := false;
            wokeReader := true;
          }
          if pwTask {
            pwTask := false;
            wokeWriter := true;
          }
          startedAt := Some(now);
          return Done(()), wokeReader, wokeWriter;
      }
    }

    /** `wait`: takes the child out and returns its exit status (an oracle
        result); with no child, `NoChild`. */
    method Wait(status: IoResult<int>) returns (r: ProcessResult<int>)
      modifies this
      ensures old(child).None? ==> r == Failed(NoChild)
      ensures old(child).Some? && status.Ok? ==> r == Done(status.value)
      ensures old(child).Some? && status.Err? ==> r == Failed(IoError(status.kind))
      ensures child == None
      ensures stdin == old(stdin) && stdout == old(stdout) && windowSizes == old(windowSizes)
      ensures prTask == old(prTask) && pwTask == old(pwTask) && applied == old(applied)
      ensures exitStatus == old(exitStatus) && startedAt == old(startedAt)
    {
      if child.Some? {
        child := None;
        match status {
          case Ok(code) => return Done(code);
          case Err(e) => return Failed(IoError(e));
        }
      }
      return Failed(NoChild);
    }

    /** `kill`: signals the child (an oracle result) and leaves it in place. */
    method Kill(signalled: IoResult<()>) returns (r: ProcessResult<()>)
      ensures child.None? ==> r == Failed(NoChild)
      ensures child.Some? && signalled.Ok? ==> r == Done(())
      ensures child.Some? && signalled.Err? ==> r == Failed(IoError(signalled.kind))
    {
      if child.Some? {
        match signalled {
          case Ok(_) => return Done(());
          case Err(e) => return Failed(IoError(e));
        }
      }
      return Failed(NoChild);
    }

    /** `id`: the pid, exactly when there is a child. */
    function Id(): (r: Option<nat>)
      reads this
      ensures r.Some? <==> child.Some?
      ensures r.Some? ==> r.value == child.value.pid
    {
      if child.Some? then Some(child.value.pid) else None
    }

    /** `set_window_size(addr, ws)`: records (or replaces) the peer's size,
        never dropping another peer's, and applies the component-wise
        minimum of all recorded sizes to the child, when there is one. */
    method SetWindowSize(addr: Addr, ws: WindowSize)
      modifies this
      ensures windowSizes == old(windowSizes)[addr := ws]
      ensures old(windowSizes).Keys <= windowSizes.Keys
      ensures child.Some? ==> applied.Some? && IsComponentMin(windowSizes, applied.value)
      ensures child.None? ==> applied == old(applied)
      ensures child == old(child) && stdin == old(stdin) && stdout == old(stdout)
      ensures prTask == old(prTask) && pwTask == old(pwTask)
      ensures exitStatus == old(exitStatus) && startedAt == old(startedAt)
    {
      windowSizes := windowSizes[addr := ws];
      var minWs := MinWindowSize(windowSizes);
      if child.Some? {
        applied := Some(minWs);
      }
    }
  }

  /** `ProcessWriters`: the stream of stdin endpoints, one per spawn. */
  class ProcessWriters {
    const inner: Process

    constructor (inner: Process)
      ensures this.inner == inner
    {
      this.inner := inner;
    }

    /** `poll`: hands out the stdin endpoint and clears it; when there is
        none, parks the current task and is NotReady. */
    method Poll() returns (r: Poll<Option<Stdin>>)
      modifies inner
      ensures old(inner.stdin).Some? ==> r == Ready(Some(old(inner.stdin).value)) && inner.pwTask == old(inner.pwTask)
      ensures old(inner.stdin).None? ==> r == NotReady && inner.pwTask
      ensures inner.stdin == None
      ensures inner.child == old(inner.child) && inner.stdout == old(inner.stdout) && inner.prTask == old(inner.prTask)
      ensures inner.windowSizes == old(inner.windowSizes) && inner.applied == old(inner.applied)
      ensures inner.exitStatus == old(inner.exitStatus) && inner.startedAt == old(inner.startedAt)
    {
      var taken := inner.stdin;
      inner.stdin := None;
      if taken.Some? {
        return Ready(Some(taken.value));
      }
      inner.pwTask := true;
      return NotReady;
    }
  }

  /** `ProcessReaders`: the stream of stdout endpoints, one per spawn. */
  class ProcessReaders {
    const inner: Process

    constructor (inner: Process)
      ensures this.inner == inner
    {
      this.inner := inner;
    }

    /** `poll`: hands out the stdout endpoint and clears it; when there is
        none, parks the current task and is NotReady. */
    method Poll() returns (r: Poll<Option<Stdout>>)
      modifies inner
      ensures old(inner.stdout).Some? ==> r == Ready(Some(old(inner.stdout).value)) && inner.prTask == old(inner.prTask)
      ensures old(inner.stdout).None? ==> r == NotReady && inner.prTask
      ensures inner.stdout == None
      ensures inner.child == old(inner.child) && inner.stdin == old(inner.stdin) && inner.pwTask == old(inner.pwTask)
      ensures inner.windowSizes == old(inner.windowSizes) && inner.applied == old(inner.applied)
      ensures inner.exitStatus == old(inner.exitStatus) && inner.startedAt == old(inner.startedAt)
    {
      var taken := inner.stdout;
      inner.stdout := None;
      if taken.Some? {
        return Ready(Some(taken.value));
      }
      inner.prTask := true;
      return NotReady;
    }
  }

  /** A spawn's endpoints are handed out once each: a second poll of either
      stream finds nothing until the next spawn, and parks its task, which
      that spawn then wakes. */
  method HandOffOnce(p: Process, launch: PtyChild)
    returns (w1: Poll<Option<Stdin>>, w2: Poll<Option<Stdin>>, o1: Poll<Option<Stdout>>, o2: Poll<Option<Stdout>>,
             woken: bool, w3: Poll<Option<Stdin>>)
    requires p.child.None?
    modifies p
    ensures w1 == Ready(Some(Stdin(launch.pid))) && o1 == Ready(Some(Stdout(launch.pid)))
    ensures w2 == NotReady && o2 == NotReady
    ensures woken
    ensures w3 == Ready(Some(Stdin(launch.pid)))
  {
    var writers := new ProcessWriters(p);
    var readers := new ProcessReaders(p);
    var r, wokeR, wokeW := p.Spawn(Ok(launch), "");
    w1 := writers.Poll();
    w2 := writers.Poll();
    o1 := readers.Poll();
    o2 := readers.Poll();
    var status := p.Wait(Ok(0));
    var again, wokeR2, wokeW2 := p.Spawn(Ok(launch), "");
    woken := wokeR2 && wokeW2;
    w3 := writers.Poll();
  }
}

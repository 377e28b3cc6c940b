# rups — a Dafny model of its core

rups is a small process server. It runs a child program on a pseudo-terminal
and keeps the child's output in a bounded history. Telnet clients that connect
see that history. They can type into the child and send shortcut keys that
kill, restart or toggle auto-restart of the child.

This project models the parts of rups that decide what happens to bytes and
state:

- the pseudo-terminal crates (`pty`, `tty`): their ioctl return-value rules,
  the partial-write buffer of the sink side and the read side of the stream;
- the child process wrapper (`src/child.rs`), including the rule that the
  terminal gets the smallest window size among all connected clients;
- the history ring buffer (`src/history.rs`) and how a telnet client's cursor
  walks it;
- the telnet client (`src/telnet_client.rs`): token dispatch, the message of
  the day and rendering of history entries;
- the telnet codec (`rust-telnet/src/codec.rs`), including the NAWS (window
  size) payload;
- the `SendAll` and `ReceiverWrapper` futures of `futures-addition`;
- option defaults and shortcut parsing (`src/options.rs`);
- the hex dump helper (`src/util.rs`).

The model is written in the source's own form. Structs whose methods mutate
fields are classes with `modifies` clauses. Pure helpers are functions. Loops
in the source are methods with loop invariants. Everything the code gets from
the operating system or the network arrives as a parameter:

- the result of `read`, `write` and `ioctl`, and the errno;
- the child's launch and wait results;
- the stream polls and sink replies seen by `SendAll`;
- the telnet tokenizer's tokens;
- the clock string.

A Rust panic (`unwrap`, `expect`, `assert!`, indexing out of range) is an
explicit `Panicked` outcome.

A failed window-size ioctl is not returned to the caller as an error. In
both `pty` and `tty`, `set_window_size` unwraps the result, so a failure
panics. `Pty.Pty.SetWindowSize` and `Tty.Pty.SetWindowSize`
return `Panicked` in that case.

Two further details of the code are kept as written:

- The `pty` crate treats only `-1` from `ioctl` as failure (via `cvt`), while
  the `tty` crate treats any non-zero value as failure. Both rules are modelled
  and compared in `Tty.WinsizeRulesDiffer`.
- The message of the day sends the line `Auto start is {}, Auto restart is {}`
  literally, placeholders included, because it is written as a byte string and
  not formatted. `TelnetClient.Motd` keeps those bytes.

## Model

| member | source | states |
|---|---|---|
| History.Skip | src/history.rs:31-38 | `get_from` yields a suffix of the buffer: all of it when the cursor is at or behind `offset`, otherwise `offset + len - index` entries, and nothing past the end |
| History.PushPreservesRetains | src/history.rs:22-29 | with `histsize >= 1`, a push keeps the buffer equal to the last part of everything pushed, starting at `offset`, and no longer than `histsize` |
| History.ReplayRetainsLatest | src/history.rs:14-29 | after any sequence of pushes the buffer holds the last `min(pushes, histsize)` entries in order, and `offset + len == pushes` |
| History.ZeroCapacityMiscounts | src/history.rs:22-29 | with `histsize == 0`, two pushes leave one entry while `offset` is 2, so `offset + len` overcounts the pushes |
| History.SkipReadsLog | src/history.rs:31-38 | `get_from(index)` returns every entry with absolute number at least `max(index, offset)` |
| History.ReaderSeesNewEntriesOnce | src/history.rs:22-38 | a reader at the end of the log later receives exactly the entries pushed since (if none was evicted), and nothing once its cursor is past them |
| History.History.constructor | src/history.rs:14-20 | `new` starts empty with `offset == 0` and satisfies the retention invariant |
| History.History.Push | src/history.rs:22-29 | the front entry is evicted and `offset` grows by one iff the buffer is already full; the new entry goes to the back; the retention invariant is kept |
| History.History.GetFrom | src/history.rs:31-38 | the result is the log from absolute position `max(index, offset)` on |
| History.History.GetOffset | src/history.rs:41-43 | reading from the returned cursor yields the whole buffer, and the cursor plus the buffer length is the number of pushes |
| Transport.Cvt | pty/src/lib.rs:395-403 | a return value of `-1` becomes the errno's error, and any other value is passed through as success |
| Transport.PendingAfter | pty/src/lib.rs:318-323 | as written, after a short write of `n` bytes the kept remainder has `len - n - 1` bytes |
| Transport.StartSendOutcomes | pty/src/lib.rs:297-326 | `start_send` of a non-empty item: `WouldBlock` hands the item back and keeps the buffer; other errors are returned with the buffer untouched; a full write leaves nothing pending; a short write of `k` bytes replaces the buffer with `len - k - 1` bytes, so written plus pending is the item without its last byte |
| Transport.PollCompleteConserves | pty/src/lib.rs:328-356 | `poll_complete`: the bytes written plus the bytes still pending equal the old pending buffer, and the result is ready iff nothing is left |
| Transport.DrainConserves | pty/src/lib.rs:328-356 | over any number of `poll_complete` calls, the bytes written followed by what remains are exactly the old pending buffer |
| Transport.AsWrittenDropsLastByte | pty/src/lib.rs:318-323 | a short first write followed by draining the rest delivers the item without its last byte |
| Transport.DropsLastByteExample | pty/src/lib.rs:318-323 | writing `abc` when only one byte fits keeps just `b` pending, so `c` is never delivered |
| Transport.IntendedPendingAfter | pty/src/lib.rs:318-323 | the corrected remainder: the written prefix plus the kept bytes is the whole item |
| Transport.IntendedDeliversAll | pty/src/lib.rs:297-356 | with the corrected remainder, a short write followed by a full drain delivers the whole item |
| Transport.CopyChunk | pty/src/lib.rs:260-264 | copying the first `len` bytes of the read buffer yields exactly `buf[..len]` |
| Pty.GetWinsize | pty/src/lib.rs:216-227 | the window size is read successfully iff `ioctl` did not return `-1` |
| Pty.SetWinsize | pty/src/lib.rs:229-233 | setting the window size succeeds iff `ioctl` did not return `-1` |
| Pty.Pty.constructor | pty/src/lib.rs:91-112 | a new pty has no child and the initial window size |
| Pty.Pty.Spawn | pty/src/lib.rs:114-158 | spawning twice is refused; a failed launch panics; a successful launch records the child |
| Pty.Pty.Wait | pty/src/lib.rs:160-171 | waiting on a child records its exit status, or panics if the wait fails; in any other state the pty returns to never-spawned |
| Pty.Pty.SetWindowSize | pty/src/lib.rs:173-181 | succeeds iff both ioctls succeed, then rows and columns are the new ones; otherwise it panics and the size is unchanged |
| Pty.PollPtyStream | pty/src/lib.rs:257-276 | a read yields `Ready(Some(bytes))`, `WouldBlock` yields `NotReady`, other errors propagate, and the stream never ends |
| Pty.PtySink.constructor | pty/src/lib.rs:278-295 | the sink starts with an empty pending buffer |
| Pty.PtySink.StartSend | pty/src/lib.rs:297-326 | an empty item is accepted as is; `WouldBlock` hands the item back; a write keeps what the code's copy loop keeps |
| Pty.PtySink.PollComplete | pty/src/lib.rs:328-356 | the bytes written plus the new buffer equal the old buffer; ready iff the buffer is empty |
| Tty.GetWinsize | tty/src/lib.rs:179-190 | the window size is read successfully iff `ioctl` returned `0` |
| Tty.SetWinsize | tty/src/lib.rs:192-197 | setting the window size succeeds iff `ioctl` returned `0` |
| Tty.WinsizeRulesDiffer | tty/src/lib.rs:179-197 | the `tty` rule and `cvt` disagree exactly on return values other than `0` and `-1` |
| Tty.Pty.SetWindowSize | tty/src/lib.rs:136-144 | succeeds iff both ioctls return `0`; sets rows and columns and keeps the pixel fields; otherwise panics with the size unchanged |
| Tty.PollPipeReader | tty/src/lib.rs:221-240 | a read yields `Ready(Some(bytes))`, `WouldBlock` yields `NotReady`, other errors propagate, and the reader never ends |
| Tty.PipeWriter.constructor | tty/src/lib.rs:243-259 | the writer starts with an empty pending buffer |
| Tty.PipeWriter.StartSend | tty/src/lib.rs:261-289 | same behaviour as the `pty` sink, including the copy loop at line 283 |
| Tty.PipeWriter.PollComplete | tty/src/lib.rs:291-318 | the bytes written plus the new buffer equal the old buffer; ready iff the buffer is empty |
| Child.ComponentMinUnique | src/child.rs:140-155 | the component-wise minimum of the clients' window sizes is unique |
| Child.MinWindowSize | src/child.rs:143-150 | the loop over all clients computes the component-wise minimum of rows and of columns |
| Child.WindowSizeExample | src/child.rs:140-155 | rows and columns are minimised separately: peers at 80x24, 100x30 and 60x20 get 60x20; peers at 80x24 and 100x30 get 80x24; peers at 60x24 and 80x20 get 60x20, a size neither peer asked for |
| Child.Process.constructor | src/child.rs:52-75 | a new process has no child, no streams, no tasks and no window sizes |
| Child.Process.Spawn | src/child.rs:77-112 | spawning twice fails with `ProcessAlreadySpawned`; a failed launch panics; a launch stores the child and its stdin and stdout and wakes the waiting tasks |
| Child.Process.Wait | src/child.rs:118-123 | with no child the result is `NoChild`; otherwise the exit status or the I/O error; in both cases there is no child afterwards, and every other field, including the exit status and start time, is unchanged |
| Child.Process.Kill | src/child.rs:125-130 | with no child the result is `NoChild`; otherwise the signal's success or its I/O error |
| Child.Process.Id | src/child.rs:132-138 | there is an id iff there is a child, and it is the child's pid |
| Child.Process.SetWindowSize | src/child.rs:140-155 | the client's size is recorded and no other client's is dropped; with a running child the terminal gets the component-wise minimum of all clients; every other field is unchanged |
| Child.ProcessWriters.Poll | src/child.rs:180-186 | hands out stdin once and then stays `NotReady`, registering the writer task; no other field of the process changes |
| Child.ProcessReaders.Poll | src/child.rs:203-209 | hands out stdout once and then stays `NotReady`, registering the reader task; no other field of the process changes |
| Child.HandOffOnce | src/child.rs:77-112 | after a spawn, each endpoint is handed out once and the second poll is `NotReady`; the next spawn wakes both parked tasks and hands out a fresh stdin |
| SendAll.LoopOffersInOrder | futures-addition/src/send_all.rs:83-88 | the items offered to the sink are a prefix of the items the stream produced, in order |
| SendAll.LoopAccountsForItems | futures-addition/src/send_all.rs:83-102 | every item is either accepted, held back for a retry, or returned with the sink error; a sink error closes with `SinkEnded(item)` |
| SendAll.PollRetriesFirst | futures-addition/src/send_all.rs:76-88 | a held-back item is offered before any new stream item, and new items follow in stream order |
| SendAll.PollAccountsForItems | futures-addition/src/send_all.rs:76-105 | after one `poll`, every offered item is accounted for as accepted, held back or returned in an error |
| SendAll.RetryErrorPropagates | futures-addition/src/send_all.rs:79-81 | a sink error while retrying the held item fails the poll with that error |
| SendAll.CloseNotReadyDropsItem | futures-addition/src/send_all.rs:89-92 | when the sink fails and its close is not ready, the poll is `NotReady` and the failed item is not kept |
| SendAll.LoopEndings | futures-addition/src/send_all.rs:83-102 | the loop finishes with `StreamEnded` only after the sink closes, with everything offered accepted and the stream fused; it finishes with `SinkEnded` only after the sink closes, with exactly the last offered item unaccepted; it is NotReady only when the stream had nothing yet, the sink refused an item, or the close did not complete |
| SendAll.SendAll.constructor | futures-addition/src/send_all.rs:14-24 | holds the sink and the stream, not fused, nothing held back |
| SendAll.SendAll.TakeResult | futures-addition/src/send_all.rs:50-56 | returns the sink, the stream and the reason, and leaves both slots empty |
| SendAll.SendAll.TryStartSend | futures-addition/src/send_all.rs:58-65 | an accepted item is sent; a refused item is held back; a sink error is returned |
| SendAll.SendAll.CloseAndFinish | futures-addition/src/send_all.rs:89-98 | finishes with the sink, the stream and the reason iff the close completes; otherwise everything stays in place |
| SendAll.SendAll.Poll | futures-addition/src/send_all.rs:76-105 | the result, the held item and the fused flag are those of the poll specification, and a finished poll returns the sink and the stream |
| SendAll.SendAll.PollStream | futures-addition/src/send_all.rs:83-102 | the loop's result, held item and fused flag are those of the loop specification |
| RxWrapper.NextItem | futures-addition/src/rx_wrapper.rs:29-34 | an undone item comes first, then the queue front; the end of stream is reported iff nothing is left and the channel is closed |
| RxWrapper.PollDeliversBacklogFront | futures-addition/src/rx_wrapper.rs:20-34 | a poll yields the front of the backlog (undone item, then queue) whenever the backlog is non-empty |
| RxWrapper.ReceiverWrapper.constructor | futures-addition/src/rx_wrapper.rs:13-18 | wraps the receiver with no undone item |
| RxWrapper.ReceiverWrapper.Undo | futures-addition/src/rx_wrapper.rs:20-22 | the undone item becomes the front of the backlog, replacing any earlier undone item |
| RxWrapper.ReceiverWrapper.Poll | futures-addition/src/rx_wrapper.rs:29-34 | yields the next item and removes exactly it from the backlog |
| RxWrapper.UndoThenPoll | futures-addition/src/rx_wrapper.rs:20-34 | an undone item is delivered by the next poll, and the poll after that continues with the receiver |
| Options.ControlCode | src/options.rs:182-187 | masking with `0x1F` is the byte modulo 32 |
| Options.ParseShortcut | src/options.rs:182-187 | a shortcut is a single byte or a caret followed by a letter; the caret form gives the letter's control code |
| Options.CaretIgnoresCase | src/options.rs:182-187 | `^K` and `^k` give the same code, `letter - 0x40`, which differs from the bare letter |
| Options.Chosen | src/options.rs:150-171 | a shortcut option replaces the old key only when it parses |
| Options.ShortcutChoices | src/options.rs:150-171 | `^K` for kill gives `0x0B`; `^T` for kill clashes with toggle; an invalid argument keeps the default |
| Options.Options.constructor | src/options.rs:24-45 | the defaults: 20000 history entries, binds on 127.0.0.1 ports 3000 and 4000, keys `0x18`, `0x14`, `0x12`, which are distinct |
| Options.Options.ApplyShortcuts | src/options.rs:150-171 | each key is the parsed option or the old key, and the call panics iff the three keys are not distinct; every other option is unchanged |
| Options.Options.ToggleAutorestart | src/options.rs:176-178 | flips auto-restart and leaves every other option unchanged |
| Options.ToggleTwice | src/options.rs:176-178 | toggling twice restores auto-restart |
| TelnetCodec.ReadNaws | rust-telnet/src/codec.rs:123-128 | reading a NAWS payload panics iff it has fewer than 4 bytes; otherwise columns then rows, big-endian |
| TelnetCodec.NawsRoundTrip | rust-telnet/src/codec.rs:123-128 | reading the encoded columns and rows gives back the same window size, whatever follows |
| TelnetCodec.ModeAfter | rust-telnet/src/codec.rs:133-152 | `SB NAWS` enters NAWS mode, `SE` returns to text mode, any other token keeps the mode |
| TelnetCodec.DecodeWithoutText | rust-telnet/src/codec.rs:111-157 | without a text token, decoding yields nothing, only the mode changes, and the remainder is the tokenizer's |
| TelnetCodec.DecodeStopsAtFirstText | rust-telnet/src/codec.rs:111-157 | decoding stops at the first text token: its mode decides the result and its remainder is returned |
| TelnetCodec.DecodeRemainderBounded | rust-telnet/src/codec.rs:73-82 | the remainder is never longer than the input |
| TelnetCodec.Decoder.Decode | rust-telnet/src/codec.rs:111-157 | the loop returns what the decode specification gives and leaves the decoder in its mode |
| TelnetCodec.TelnetCodec.Decode | rust-telnet/src/codec.rs:73-82 | an empty buffer yields nothing; otherwise the buffer keeps exactly its unconsumed tail |
| TelnetCodec.TelnetCodec.Encode | rust-telnet/src/codec.rs:89-95 | the item is appended to the output unchanged |
| Util.HexDigit | src/util.rs:3-6 | digits below 10 are `0`-`9`, the others lower-case `a`-`f` |
| Util.DigitValue | src/util.rs:3-6 | a recognised hex digit gives the value that produces it |
| Util.DigitRoundTrip | src/util.rs:3-6 | every hex digit reads back as its value |
| Util.HexByte | src/util.rs:3-6 | `{:02x}`: two digits, high nibble first |
| Util.ToHexString | src/util.rs:3-6 | the output is empty iff the input is |
| Util.HexLayout | src/util.rs:3-6 | `n` bytes give `3n-1` characters: two digits per byte, separated by single spaces |
| Util.HexRoundTrip | src/util.rs:3-6 | parsing the hex dump gives back the original bytes |
| TelnetClient.ValidUtf8Append | src/telnet_client.rs:112-123 | joining two valid UTF-8 strings gives a valid one |
| TelnetClient.Dispatch | src/telnet_client.rs:99-155 | one token: CR becomes a newline, other text is appended only if it is valid UTF-8, empty text panics, NAWS text sets (rows, columns) or panics under 4 bytes, DO and DONT ECHO set echo, and the mode follows the codec's rule |
| TelnetClient.DispatchKeepsUtf8 | src/telnet_client.rs:97-157 | the content a read returns is always valid UTF-8 |
| TelnetClient.DispatchExtends | src/telnet_client.rs:97-157 | a read only appends to the content it has collected |
| TelnetClient.ModeAgreesWithCodec | src/telnet_client.rs:126-151 | the client changes mode on the same tokens as the codec |
| TelnetClient.RenderEntry | src/telnet_client.rs:184-191 | child output is sent as is; info is yellow or skipped with `noinfo` |
| TelnetClient.RenderAppend | src/telnet_client.rs:183-194 | rendering two runs of entries is rendering each in turn |
| TelnetClient.NoInfoSeesChildOutput | src/telnet_client.rs:183-194 | with `noinfo`, a client receives exactly the child's output |
| TelnetClient.Motd | src/telnet_client.rs:163-176 | the message of the day is, in order: the yellow escape, the fixed banner lines (the second with its `{}` placeholders), the start time exactly as given, the reset escape and CR LF, then the ECHO, SUPPRESS-GO-AHEAD and NAWS offers |
| TelnetClient.LaggingReaderRereads | src/telnet_client.rs:183-193 | as written, a cursor behind `offset` advances by the number of entries sent and stays behind the end |
| TelnetClient.RereadExample | src/telnet_client.rs:183-193 | with history size 1 a reader at 0 gets `b`, its cursor becomes 1, and the next write sends `b` again |
| TelnetClient.AdvanceClamped | src/telnet_client.rs:183-193 | the corrected cursor starts from `max(cursor, offset)` before adding the entries sent |
| TelnetClient.ClampedReaderReadsOnce | src/telnet_client.rs:183-193 | with the corrected cursor a write sends the retained entries once and leaves the cursor at the end |
| TelnetClient.TelnetClient.constructor | src/telnet_client.rs:50-67 | a new client starts at the history's offset, so it sees the whole buffer, in text mode with echo on |
| TelnetClient.TelnetClient.Read | src/telnet_client.rs:83-161 | a read error yields nothing; zero bytes yield an empty string; otherwise the tokens are dispatched; the content is valid UTF-8 |
| TelnetClient.TelnetClient.WriteMotd | src/telnet_client.rs:163-176 | appends the message of the day to the output |
| TelnetClient.TelnetClient.Write | src/telnet_client.rs:178-195 | sends the message of the day once, then the rendered history from the cursor; the cursor advances as the source does |
| TelnetClient.TelnetClient.SendEntries | src/telnet_client.rs:183-194 | the loop sends the rendered entries and advances the cursor by their number |
| TelnetClient.TelnetClient.SendEntry | src/telnet_client.rs:184-193 | sends one rendered entry |

## Left out

- Pseudo-terminal setup (`openpty`, `fcntl`, `setsid`, `dup2`, file descriptors, `Evented` registration and stdio plumbing) is system work. Its results enter as parameters.
- The `flush` calls after a write in the `pty` and `tty` sinks, and the panics of their `expect`, are not modelled. They only push bytes through the kernel.
- The `tty` crate's `Pty::new`, `arg` and `spawn` are left out. `new` opens the terminal, wires the slave side to the child's stdio through a `Command` builder and sets `SIGCHLD` to be ignored; `spawn` only runs that builder and keeps no child state. All of this is process and signal setup with no decision to model.
- The tokio reactor and task notification are left out. Waking a task is a boolean flag (`prTask`, `pwTask`).
- `Rc<RefCell<…>>` and `Arc<Mutex<…>>` sharing is left out. Each shared object is one Dafny object.
- The 2048-byte read bound is a precondition on the oracle's read result.
- The telnet tokenizer (`rust-telnet/src/parser.rs`) is not part of this model. Its tokens and the remainder length it leaves are parameters.
- The mpsc receiver inside `ReceiverWrapper` is a queue plus a closed flag.
- A second `poll` of `SendAll` after it has finished panics in the source. Here it is excluded by the precondition that the sink and stream are present.
- The window size is applied in `src/child.rs` through the pty's `set_window_size`. Here it is abstracted as the recorded `applied` size.
- Command-line parsing by `clap` in `src/options.rs` is left out, except the three shortcut options. So is the hold-off delay, which is a floating-point number.
- `src/telnet_server.rs`, `src/main.rs` and `src/telnet.rs` wire these parts to sockets and the event loop. They are not part of this model.
- The clock string of the message of the day (`strftime`) is a parameter. Socket writes append to the client's `out` sequence, and their results are ignored as in the source.
- Logging (`println!`, `error!`, `warn!`) has no effect on state and is left out.
- Pty.PtySink.StartSend and Tty.PipeWriter.StartSend model the copy loop as written, so they keep the remainder without its last byte (see Findings).

## Findings

| source | as written | input that shows it | evidently intended | confidence | as-written member | corrected member |
|---|---|---|---|---|---|---|
| pty/src/lib.rs:320 (and tty/src/lib.rs:283) | after a short write of `n` bytes, the loop `for i in n..item.len()-1` keeps `item[n..len-1]`, dropping the last byte | item `abc`, a write that takes 1 byte: `b` is kept and `c` is never sent | keep `item[n..]`, so that written plus pending is the whole item | not executed | Transport.AsWrittenDropsLastByte | Transport.IntendedDeliversAll |
| src/telnet_client.rs:193 | the cursor grows by one per entry sent, even when `get_from` clamped a cursor behind `offset` to the oldest entry | history size 1, pushes `a` and `b`, a client at cursor 0: it receives `b`, its cursor becomes 1 (still the start of `b`), and the next write sends `b` again | advance from `max(cursor, offset)`, so that each entry is sent once | not executed | TelnetClient.RereadExample | TelnetClient.ClampedReaderReadsOnce |

/** The per-connection telnet client of src/telnet_client.rs: the dispatch
    of the tokens of one socket read (text for the child, NAWS window sizes,
    ECHO negotiation) and the write loop that forwards history entries from
    the client's cursor. Socket reads are an oracle (the read result and the
    tokenizer's output arrive as parameters); socket writes are appended to
    `out`. */
module TelnetClient {
  import opened Common
  import opened History
  import opened TelnetCodec

  const CR: byte := 0x0D
  const LINESEP: byte := 0x0A
  const ESC: byte := 0x1B

  /** ASCII text as bytes. */
  function Ascii(s: string): (r: seq<byte>)
    ensures |r| == |s|
  {
    seq(|s|, i requires 0 <= i < |s| => (s[i] as int) % 256)
  }

  /** A continuation byte 10xxxxxx. */
  predicate Cont(b: byte)
  {
    0x80 <= b <= 0xBF
  }

  /** The length of the well-formed UTF-8 sequence at the front of `s`, or
      0 when there is none (the table of well-formed byte sequences of
      section 3.9 of the Unicode Standard, which `str::from_utf8` checks). */
  function CharLen(s: seq<byte>): (n: nat)
    requires s != []
    ensures n <= 4 && n <= |s|
  {
    var b := s[0];
    if b <= 0x7F then 1
    else if 0xC2 <= b <= 0xDF then (if |s| >= 2 && Cont(s[1]) then 2 else 0)
    else if b == 0xE0 then (if |s| >= 3 && 0xA0 <= s[1] <= 0xBF && Cont(s[2]) then 3 else 0)
    else if (0xE1 <= b <= 0xEC) || (0xEE <= b <= 0xEF) then (if |s| >= 3 && Cont(s[1]) && Cont(s[2]) then 3 else 0)
    else if b == 0xED then (if |s| >= 3 && 0x80 <= s[1] <= 0x9F && Cont(s[2]) then 3 else 0)
    else if b == 0xF0 then (if |s| >= 4 && 0x90 <= s[1] <= 0xBF && Cont(s[2]) && Cont(s[3]) then 4 else 0)
    else if 0xF1 <= b <= 0xF3 then (if |s| >= 4 && Cont(s[1]) && Cont(s[2]) && Cont(s[3]) then 4 else 0)
    else if b == 0xF4 then (if |s| >= 4 && 0x80 <= s[1] <= 0x8F && Cont(s[2]) && Cont(s[3]) then 4 else 0)
    else 0
  }

  /** `str::from_utf8(s).is_ok()`. */
  predicate ValidUtf8(s: seq<byte>)
    decreases |s|
  {
    s == [] || (CharLen(s) > 0 && ValidUtf8(s[CharLen(s)..]))
  }

  /** A well-formed sequence at the front keeps its length whatever follows. */
  lemma CharLenPrefix(a: seq<byte>, b: seq<byte>)
    requires a != [] && CharLen(a) > 0
    ensures CharLen(a + b) == CharLen(a)
  {
    var n := CharLen(a);
    assert forall k | 0 <= k < n :: (a + b)[k] == a[k];
  }

  /** Appending valid UTF-8 to valid UTF-8 gives valid UTF-8. */
  lemma {:induction false} ValidUtf8Append(a: seq<byte>, b: seq<byte>)
    requires ValidUtf8(a) && ValidUtf8(b)
    ensures ValidUtf8(a + b)
    decreases |a|
  {
    if a == [] {
      assert a + b == b;
    } else {
      var n := CharLen(a);
      CharLenPrefix(a, b);
      ValidUtf8Append(a[n..], b);
      assert (a + b)[n..] == a[n..] + b;
    }
  }

  /** The client's negotiated state: decoder mode, `(rows, cols)` and
      whether the server echoes. */
  datatype Session = Session(mode: Mode, windowSize: (u16, u16), serverEcho: bool)

  /** The effect of one token of a read on the session and on the text
      collected for the child. A text token starting with CR becomes one
      newline; another is kept only when it is valid UTF-8; an empty text
      token (indexed at 0) and a short NAWS payload (`unwrap`) panic. */
  function Dispatch(s: Session, content: seq<byte>, token: Token): (r: Outcome<(Session, seq<byte>)>)
    ensures token.Text? && s.mode == TextMode && token.bytes != [] ==>
      r.Returned? && r.value.0 == s &&
      r.value.1 == content + (if token.bytes[0] == CR then [LINESEP] else if ValidUtf8(token.bytes) then token.bytes else [])
    ensures token.Text? && s.mode == NawsMode && |token.bytes| >= 4 ==>
      r.Returned? && r.value.1 == content && r.value.0 == s.(windowSize := (ReadU16(token.bytes[2], token.bytes[3]), ReadU16(token.bytes[0], token.bytes[1])))
    ensures token.Text? && s.mode == TextMode ==> (r.Panicked? <==> token.bytes == [])
    ensures token.Text? && s.mode == NawsMode ==> (r.Panicked? <==> |token.bytes| < 4)
    ensures !token.Text? ==> r.Returned? && r.value.1 == content && r.value.0.mode == ModeAfter(s.mode, token) && r.value.0.windowSize == s.windowSize
    ensures token == Negotiation(DO, ECHO) ==> r.Returned? && r.value.0.serverEcho
    ensures token == Negotiation(DONT, ECHO) ==> r.Returned? && !r.value.0.serverEcho
    ensures r.Returned? && r.value.0.serverEcho != s.serverEcho ==> token == Negotiation(DO, ECHO) || token == Negotiation(DONT, ECHO)
  {
    match token
    case Text(text) =>
      if s.mode == NawsMode then
        (match ReadNaws(text)
         case Panicked => Panicked
         case Returned(size) => Returned((s.(windowSize := (size.rows, size.columns)), content)))
      else if text == [] then Panicked
      else if text[0] == CR then Returned((s, content + [LINESEP]))
      else if ValidUtf8(text) then Returned((s, content + text))
      else Returned((s, content))
    case Command(c) =>
      Returned((if c == SE && s.mode == NawsMode then s.(mode := TextMode) else s, content))
    case Negotiation(command, channel) =>
      if command == DO && channel == ECHO then Returned((s.(serverEcho := true), content))
      else if command == DONT && channel == ECHO then Returned((s.(serverEcho := false), content))
      else if command == SB && channel == NAWS then Returned((s.(mode := NawsMode), content))
      else Returned((s, content))
  }

  /** The tokens of one read, dispatched in order; a panic ends the read. */
  function DispatchAll(s: Session, content: seq<byte>, tokens: seq<Token>): Outcome<(Session, seq<byte>)>
    decreases |tokens|
  {
    if tokens == [] then Returned((s, content))
    else match Dispatch(s, content, tokens[0])
      case Panicked => Panicked
      case Returned(next) => DispatchAll(next.0, next.1, tokens[1..])
  }

  /** The text a read hands to the child is always a valid `String`: it is
      built from newlines and valid UTF-8 tokens only. */
  lemma {:induction false} DispatchKeepsUtf8(s: Session, content: seq<byte>, tokens: seq<Token>)
    requires ValidUtf8(content)
    ensures DispatchAll(s, content, tokens).Returned? ==> ValidUtf8(DispatchAll(s, content, tokens).value.1)
    decreases |tokens|
  {
    if tokens != [] {
      var step := Dispatch(s, content, tokens[0]);
      if step.Returned? {
        var t := tokens[0];
        if t.Text? && s.mode == TextMode && t.bytes != [] {
          if t.bytes[0] == CR {
            assert ValidUtf8([LINESEP][1..]);
            ValidUtf8Append(content, [LINESEP]);
          } else if ValidUtf8(t.bytes) {
            ValidUtf8Append(content, t.bytes);
          }
        }
        DispatchKeepsUtf8(step.value.0, step.value.1, tokens[1..]);
      }
    }
  }

  /** The text collected only grows: each read appends to what came before. */
  lemma {:induction false} DispatchExtends(s: Session, content: seq<byte>, tokens: seq<Token>)
    ensures DispatchAll(s, content, tokens).Returned? ==>
      content <= DispatchAll(s, content, tokens).value.1
    decreases |tokens|
  {
    if tokens != [] {
      var step := Dispatch(s, content, tokens[0]);
      if step.Returned? {
        DispatchExtends(step.value.0, step.value.1, tokens[1..]);
      }
    }
  }

  /** The client moves between Text and NAWS mode exactly as the codec's
      decoder does. */
  lemma ModeAgreesWithCodec(s: Session, content: seq<byte>, token: Token)
    requires !token.Text?
    ensures Dispatch(s, content, token).Returned?
    ensures Dispatch(s, content, token).value.0.mode == ModeAfter(s.mode, token)
  {
  }

  /** `HistoryType::Info` entries are shown in yellow. */
  const YELLOW: seq<byte> := [ESC, 0x5B, 0x33, 0x33, 0x6D]   // ESC [33m
  const RESET: seq<byte> := [ESC, 0x5B, 0x30, 0x6D]          // ESC [0m

  /** What the write loop sends for one entry. */
  function RenderEntry(e: Entry, noinfo: bool): (r: seq<byte>)
    ensures e.kind == Child ==> r == e.message
    ensures e.kind == Info && noinfo ==> r == []
    ensures e.kind == Info && !noinfo ==> r == YELLOW + e.message + RESET
  {
    if e.kind == Info && noinfo then []
    else if e.kind == Info then YELLOW + e.message + RESET
    else e.message
  }

  /** What the write loop sends for a run of entries, in order. */
  function Render(entries: seq<Entry>, noinfo: bool): seq<byte>
    decreases |entries|
  {
    if entries == [] then [] else Render(entries[..|entries| - 1], noinfo) + RenderEntry(entries[|entries| - 1], noinfo)
  }

  /** The output of the child, entry by entry: what a client with `noinfo`
      sees. */
  function ChildOutput(entries: seq<Entry>): seq<byte>
    decreases |entries|
  {
    if entries == [] then []
    else (if entries[0].kind == Child then entries[0].message else []) + ChildOutput(entries[1..])
  }

  /** Rendering two runs is rendering each in turn. */
  lemma {:induction false} RenderAppend(a: seq<Entry>, b: seq<Entry>, noinfo: bool)
    ensures Render(a + b, noinfo) == Render(a, noinfo) + Render(b, noinfo)
    decreases |b|
  {
    if b == [] {
      assert a + b == a;
    } else {
      var init := b[..|b| - 1];
      var piece := RenderEntry(b[|b| - 1], noinfo);
      RenderAppend(a, init, noinfo);
      assert (a + b)[..|a + b| - 1] == a + init;
      assert (a + b)[|a + b| - 1] == b[|b| - 1];
      assert Render(a + b, noinfo) == Render(a + init, noinfo) + piece;
      assert Render(b, noinfo) == Render(init, noinfo) + piece;
      assert Render(a, noinfo) + Render(init, noinfo) + piece == Render(a, noinfo) + (Render(init, noinfo) + piece);
    }
  }

  /** Rendering one more entry of a run. */
  lemma RenderPrefix(entries: seq<Entry>, i: nat, noinfo: bool)
    requires i < |entries|
    ensures Render(entries[..i + 1], noinfo) == Render(entries[..i], noinfo) + RenderEntry(entries[i], noinfo)
  {
    assert entries[..i + 1][..i] == entries[..i];
  }

  /** A client with `noinfo` receives exactly the child's output, with the
      server's own messages dropped. */
  lemma {:induction false} NoInfoSeesChildOutput(entries: seq<Entry>)
    ensures Render(entries, true) == ChildOutput(entries)
    decreases |entries|
  {
    if entries != [] {
      NoInfoSeesChildOutput(entries[1..]);
      RenderAppend([entries[0]], entries[1..], true);
      assert [entries[0]] + entries[1..] == entries;
      assert Render([entries[0]], true) == Render([], true) + RenderEntry(entries[0], true);
    }
  }

  /** The server's offers at the end of the banner. */
  const OFFERS: seq<byte> := [IAC, WILL, ECHO, IAC, WILL, SUPPRESS_GO_AHEAD, IAC, DO, NAWS]

  /** The fixed lines of the banner, up to the start time. The second line is
      sent literally, placeholders included. */
  const BANNER: seq<byte> :=
    Ascii("Welcome to Simple Process Server 0.0.1\r\n")
    + Ascii("Auto start is {}, Auto restart is {}\r\n")
    + Ascii("^X to kill the child, ^T to toggle auto restart\r\n")
    + Ascii("^R to (re)start the child\r\n")
    + Ascii("This server was started at: ")

  /** `write_motd`: the banner in yellow, the start time (`now`), and the
      server's WILL ECHO, WILL SUPPRESS-GO-AHEAD and DO NAWS offers. */
  function Motd(now: seq<byte>): (r: seq<byte>)
    ensures |r| == |YELLOW| + |BANNER| + |now| + |RESET| + 2 + |OFFERS|
    ensures r[..|YELLOW|] == YELLOW && r[|r| - |OFFERS|..] == OFFERS
    ensures r[|YELLOW|..|YELLOW| + |BANNER|] == BANNER
    ensures r[|YELLOW| + |BANNER|..|YELLOW| + |BANNER| + |now|] == now
    ensures r[|YELLOW| + |BANNER| + |now|..|r| - |OFFERS|] == RESET + [CR, 0x0A]
  {
    var r := YELLOW + BANNER + now + RESET + [CR, 0x0A] + OFFERS;
    assert r == YELLOW + (BANNER + (now + ((RESET + [CR, 0x0A]) + OFFERS)));
    r
  }

  /** The cursor after a write, as the code does it: one step per entry
      `get_from` yielded, starting from the cursor itself. */
  function AdvanceAsWritten(cursor: nat, buffers: seq<Entry>, offset: nat): (r: nat)
    ensures r >= cursor
  {
    cursor + |Skip(buffers, offset, cursor)|
  }

  /** A reader that has fallen behind the evicted entries is given the whole
      buffer, but its cursor only advances by the buffer's length, so it
      stays behind the end: without any new entry, the next write sends
      again entries it has already sent. */
  lemma LaggingReaderRereads(log: seq<Entry>, buffers: seq<Entry>, offset: nat, histsize: nat, cursor: nat)
    requires Retains(log, buffers, offset, histsize)
    requires cursor < offset && buffers != []
    ensures var next := AdvanceAsWritten(cursor, buffers, offset);
      && next < |log|
      && Skip(buffers, offset, next) != []
      && Skip(buffers, offset, cursor) == buffers
      && Skip(buffers, offset, next) == buffers[|buffers| - |Skip(buffers, offset, next)|..]
  {
  }

  /** The smallest instance: two entries pushed into a history of size one
      from a reader that connected first; after one write the reader gets
      the retained entry once more. */
  lemma RereadExample(a: Entry, b: Entry)
    ensures Replay(1, [a, b]) == ([b], 1)
    ensures AdvanceAsWritten(0, [b], 1) == 1 && Skip([b], 1, 1) == [b]
  {
    assert Replay(1, [a]) == ([a], 0) by {
      assert Replay(1, []) == ([], 0);
      assert [a][..0] == [];
      assert [] + [a] == [a];
    }
    assert [a, b][..1] == [a];
    assert [a][1..] + [b] == [b];
  }

  /** The evidently intended cursor: clamped to the oldest retained entry
      before advancing. */
  function AdvanceClamped(cursor: nat, buffers: seq<Entry>, offset: nat): (r: nat)
    ensures r >= cursor
  {
    Max(cursor, offset) + |Skip(buffers, offset, cursor)|
  }

  /** With the clamped cursor a write leaves the reader at the end of the
      log, so the next write sends only entries pushed in between, each once. */
  lemma ClampedReaderReadsOnce(log: seq<Entry>, buffers: seq<Entry>, offset: nat, histsize: nat, cursor: nat)
    requires Retains(log, buffers, offset, histsize)
    requires cursor <= |log|
    ensures AdvanceClamped(cursor, buffers, offset) == |log|
    ensures Skip(buffers, offset, AdvanceClamped(cursor, buffers, offset)) == []
    ensures Skip(buffers, offset, cursor) == log[Max(cursor, offset)..]
  {
    SkipReadsLog(log, offset, cursor);
  }

  datatype ClientState = Connected | HasSentMotd

  /** `TelnetClient`: a reader of the shared history with its own cursor. */
  class TelnetClient {
    const history: History
    var cursor: nat
    var state: ClientState
    var session: Session
    const noinfo: bool
    var out: seq<byte>

    /** `TelnetClient::new`: start at the history's offset, so the whole
        retained history is sent first. */
    constructor (history: History, noinfo: bool)
      ensures this.history == history && this.noinfo == noinfo
      ensures cursor == history.offset && history.GetFrom(cursor) == history.buffers
      ensures state == Connected && session == Session(TextMode, (0, 0), true) && out == []
    {
      this.history := history;
      this.noinfo := noinfo;
      cursor := history.GetOffset();
      state := Connected;
      session := Session(TextMode, (0, 0), true);
      out := [];
    }

    /** `read`: a failed read gives nothing, an empty read (the peer hung
        up) the empty string, otherwise the text of the read's tokens. */
    method Read(read: IoResult<seq<byte>>, tokens: seq<Token>) returns (r: Outcome<Option<seq<byte>>>)
      modifies this
      ensures read.Err? ==> r == Returned(None) && session == old(session)
      ensures read == Ok([]) ==> r == Returned(Some([])) && session == old(session)
      ensures read.Ok? && read.value != [] ==>
        var spec := DispatchAll(old(session), [], tokens);
        && (r == Panicked <==> spec == Panicked)
        && (spec.Returned? ==> r == Returned(Some(spec.value.1)) && session == spec.value.0)
      ensures r.Returned? && r.value.Some? ==> ValidUtf8(r.value.value)
      ensures cursor == old(cursor) && state == old(state) && out == old(out)
    {
      if read.Err? {
        return Returned(None);
      }
      if read.value == [] {
        return Returned(Some([]));
      }
      var content: seq<byte> := [];
      DispatchKeepsUtf8(session, [], tokens);
      var i := 0;
      while i < |tokens|
        invariant 0 <= i <= |tokens|
        invariant cursor == old(cursor) && state == old(state) && out == old(out)
        invariant DispatchAll(old(session), [], tokens) == DispatchAll(session, content, tokens[i..])
      {
        var step := Dispatch(session, content, tokens[i]);
        if step == Panicked {
          return Panicked;
        }
        session := step.value.0;
        content := step.value.1;
        assert tokens[i..][1..] == tokens[i + 1..];
        i := i + 1;
      }
      return Returned(Some(content));
    }

    /** `write_motd`: send the banner. */
    method WriteMotd(now: seq<byte>)
      modifies this
      ensures out == old(out) + Motd(now)
      ensures cursor == old(cursor) && state == old(state) && session == old(session)
    {
      out := out + Motd(now);
    }

    /** `write`: the banner on the first write only, then every entry from
        the cursor on, advancing the cursor once per entry. */
    method Write(now: seq<byte>)
      modifies this
      ensures out == old(out) + (if old(state) == Connected then Motd(now) else [])
                              + Render(history.GetFrom(old(cursor)), noinfo)
      ensures cursor == AdvanceAsWritten(old(cursor), history.buffers, history.offset)
      ensures state == HasSentMotd && session == old(session)
    {
      if state == Connected {
        WriteMotd(now);
        state := HasSentMotd;
      }
      var entries := history.GetFrom(cursor);
      SendEntries(entries);
    }

    /** The body of the loop of `write`: an Info entry in yellow (or not at
        all with `noinfo`), a Child entry as it is. */
    method SendEntry(line: Entry)
      modifies this
      ensures out == old(out) + RenderEntry(line, noinfo)
      ensures cursor == old(cursor) && state == old(state) && session == old(session)
    {
      if !(line.kind == Info && noinfo) {
        if line.kind == Info {
          out := out + YELLOW;
        }
        out := out + line.message;
        if line.kind == Info {
          out := out + RESET;
        }
      }
      if line.kind == Info && !noinfo {
        assert old(out) + YELLOW + line.message + RESET == old(out) + (YELLOW + line.message + RESET);
      }
    }

    /** The loop of `write`: send each entry (Info in yellow, or not at all
        with `noinfo`) and advance the cursor once per entry. */
    method SendEntries(entries: seq<Entry>)
      modifies this
      ensures out == old(out) + Render(entries, noinfo)
      ensures cursor == old(cursor) + |entries|
      ensures state == old(state) && session == old(session)
    {
      ghost var sent := out;
      var i := 0;
      while i < |entries|
        invariant 0 <= i <= |entries|
        invariant out == sent + Render(entries[..i], noinfo)
        invariant cursor == old(cursor) + i
        invariant state == old(state) && session == old(session)
      {
        var line := entries[i];
        SendEntry(line);
        cursor := cursor + 1;
        RenderPrefix(entries, i, noinfo);
        assert sent + Render(entries[..i], noinfo) + RenderEntry(line, noinfo)
            == sent + (Render(entries[..i], noinfo) + RenderEntry(line, noinfo));
        i := i + 1;
      }
      assert entries[..i] == entries;
    }
  }
}

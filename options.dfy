/** The option record of src/options.rs: its defaults, the caret-notation
    shortcut parser, the check that the three control shortcuts differ, and
    the autorestart toggle. Command-line parsing itself is not modelled;
    the shortcut arguments arrive as optional byte strings. */
module Options {
  import opened Common

  const CARET: byte := 0x5E            // '^'
  const LOWEST_LETTER: byte := 0x41    // 'A'
  const HIGHEST_LETTER: byte := 0x7A   // 'z'

  /** Bytes in 'A'..='z' (which includes `[`, `\`, `]`, `^`, `_` and '`'). */
  predicate InLetterRange(b: byte)
  {
    LOWEST_LETTER <= b <= HIGHEST_LETTER
  }

  /** `0x1f & b`: keep the low five bits. */
  function ControlCode(b: byte): (r: byte)
    ensures r == b % 32
  {
    ((b as bv8) & 0x1F) as int
  }

  /** `parse_shortcut`: "^c" is the control code of c, a single byte is
      itself; both only for bytes in 'A'..='z'. Anything else fails. */
  function ParseShortcut(buf: seq<byte>): (r: Option<byte>)
    ensures r.Some? <==>
      (|buf| == 2 && buf[0] == CARET && InLetterRange(buf[1])) || (|buf| == 1 && InLetterRange(buf[0]))
    ensures r.Some? && |buf| == 2 ==> r.value == buf[1] % 32 && r.value <= 0x1F
    ensures r.Some? && |buf| == 1 ==> r.value == buf[0]
  {
    if |buf| == 2 && buf[0] == CARET && InLetterRange(buf[1]) then Some(ControlCode(buf[1]))
    else if |buf| == 1 && InLetterRange(buf[0]) then Some(buf[0])
    else None
  }

  /** Caret notation does not care about case: "^x" and "^X" are the same
      control code, and no caret form names a letter itself. */
  lemma CaretIgnoresCase(c: byte)
    requires 0x41 <= c <= 0x5A
    ensures ParseShortcut([CARET, c]) == ParseShortcut([CARET, c + 32])
    ensures ParseShortcut([CARET, c]).Some? && ParseShortcut([CARET, c]).value == c - 0x40
    ensures ParseShortcut([CARET, c]) != ParseShortcut([c])
  {
    var upper: seq<byte> := [CARET, c];
    var lower: seq<byte> := [CARET, c + 32];
    assert upper[1] == c && lower[1] == c + 32;
    assert ParseShortcut(upper).value == c % 32;
    assert ParseShortcut(lower).value == (c + 32) % 32;
    assert c % 32 == c - 0x40 == (c + 32) % 32;
  }

  /** The three control shortcuts differ pairwise. */
  predicate Distinct(kill: byte, toggle: byte, restart: byte)
  {
    kill != toggle && kill != restart && toggle != restart
  }

  /** The value a shortcut option ends with: the parsed argument when there
      is one that parses, else the previous value. */
  function Chosen(previous: byte, arg: Option<seq<byte>>): (r: byte)
    ensures arg.None? || ParseShortcut(arg.value).None? ==> r == previous
    ensures arg.Some? && ParseShortcut(arg.value).Some? ==> r == ParseShortcut(arg.value).value
  {
    if arg.Some? && ParseShortcut(arg.value).Some? then ParseShortcut(arg.value).value else previous
  }

  /** A socket address: four IPv4 octets and a port. */
  datatype SocketAddr = SocketAddr(ip: seq<byte>, port: u16)

  const LOCALHOST: seq<byte> := [127, 0, 0, 1]

  class Options {
    var command: seq<string>
    var historySize: nat
    var foreground: bool
    var interactive: bool
    var autostart: bool
    var autorestart: bool
    var noinfo: bool
    var binds: Option<seq<SocketAddr>>
    var logbinds: Option<seq<SocketAddr>>
    var killcmd: byte
    var togglecmd: byte
    var restartcmd: byte

    /** `Options::default()`. */
    constructor ()
      ensures command == [] && historySize == 20000
      ensures !foreground && !interactive && !noinfo && autostart && autorestart
      ensures binds == Some([SocketAddr(LOCALHOST, 3000)])
      ensures logbinds == Some([SocketAddr(LOCALHOST, 4000)])
      ensures killcmd == 0x18 && togglecmd == 0x14 && restartcmd == 0x12
      ensures Distinct(killcmd, togglecmd, restartcmd)
    {
      command := [];
      historySize := 20000;
      foreground := false;
      interactive := false;
      autostart := true;
      autorestart := true;
      noinfo := false;
      binds := Some([SocketAddr(LOCALHOST, 3000)]);
      logbinds := Some([SocketAddr(LOCALHOST, 4000)]);
      killcmd := 0x18;
      togglecmd := 0x14;
      restartcmd := 0x12;
    }

    /** The shortcut part of `parse_args`: each given argument that parses
        replaces its shortcut (one that does not is reported and ignored),
        then startup panics if any two shortcuts coincide. */
    method ApplyShortcuts(kill: Option<seq<byte>>, toggle: Option<seq<byte>>, restart: Option<seq<byte>>)
      returns (r: Outcome<()>)
      modifies this
      ensures killcmd == Chosen(old(killcmd), kill)
      ensures togglecmd == Chosen(old(togglecmd), toggle)
      ensures restartcmd == Chosen(old(restartcmd), restart)
      ensures r == Panicked <==> !Distinct(killcmd, togglecmd, restartcmd)
      ensures r.Returned? ==> r == Returned(())
      ensures autorestart == old(autorestart) && autostart == old(autostart) && noinfo == old(noinfo)
      ensures historySize == old(historySize) && command == old(command)
      ensures foreground == old(foreground) && interactive == old(interactive)
      ensures binds == old(binds) && logbinds == old(logbinds)
    {
      if kill.Some? {
        var parsed := ParseShortcut(kill.value);
        if parsed.Some? {
          killcmd := parsed.value;
        }
      }
      if toggle.Some? {
        var parsed := ParseShortcut(toggle.value);
        if parsed.Some? {
          togglecmd := parsed.value;
        }
      }
      if restart.Some? {
        var parsed := ParseShortcut(restart.value);
        if parsed.Some? {
          restartcmd := parsed.value;
        }
      }
      if killcmd == togglecmd || killcmd == restartcmd || togglecmd == restartcmd {
        return Panicked;
      }
      return Returned(());
    }

    /** `toggle_autorestart`. */
    method ToggleAutorestart()
      modifies this
      ensures autorestart == !old(autorestart)
      ensures autostart == old(autostart) && killcmd == old(killcmd) && togglecmd == old(togglecmd)
      ensures restartcmd == old(restartcmd) && historySize == old(historySize) && noinfo == old(noinfo)
      ensures command == old(command) && foreground == old(foreground) && interactive == old(interactive)
      ensures binds == old(binds) && logbinds == old(logbinds)
    {
      autorestart := !autorestart;
    }
  }

  /** Toggling twice restores the flag. */
  method ToggleTwice(o: Options)
    modifies o
    ensures o.autorestart == old(o.autorestart)
  {
    o.ToggleAutorestart();
    o.ToggleAutorestart();
  }

  /** Choosing "^K" for the kill shortcut on top of the defaults is accepted,
      "^T" clashes with the toggle shortcut, and an unparsable argument keeps
      the default. */
  lemma ShortcutChoices()
    ensures Chosen(0x18, Some([CARET, 0x4B])) == 0x0B && Distinct(0x0B, 0x14, 0x12)
    ensures Chosen(0x18, Some([CARET, 0x54])) == 0x14 && !Distinct(0x14, 0x14, 0x12)
    ensures Chosen(0x18, Some([CARET, 0x31])) == 0x18
  {
    assert ParseShortcut([CARET, 0x4B]) == Some(0x0B);
    assert ParseShortcut([CARET, 0x54]) == Some(0x14);
    assert ParseShortcut([CARET, 0x31]) == None;
  }
}

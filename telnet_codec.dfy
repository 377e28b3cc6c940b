/** The telnet codec of rust-telnet/src/codec.rs: the command and option
    codes of RFC 854 (with RFC 857 ECHO, RFC 858 SUPPRESS-GO-AHEAD and
    RFC 1073 NAWS), the decoder's Text/NAWS mode machine over the
    tokenizer's output, and the framed codec around it. The tokenizer is an
    oracle: its tokens, each with the number of input bytes left after it,
    arrive as a parameter. */
module TelnetCodec {
  import opened Common

  // Command codes (the `IAC` module), section "TELNET COMMAND STRUCTURE" of RFC 854.
  const SE: byte := 240
  const NOP: byte := 241
  const DM: byte := 242
  const BRK: byte := 243
  const GA: byte := 249
  const SB: byte := 250
  const WILL: byte := 251
  const WONT: byte := 252
  const DO: byte := 253
  const DONT: byte := 254
  const IAC: byte := 255

  // Option codes (the `OPTION` module).
  const EXOPL: byte := 255
  const TRANSMIT_BINARY: byte := 0
  const ECHO: byte := 1
  const SUPPRESS_GO_AHEAD: byte := 3
  const STATUS: byte := 5
  const TIMING_MARK: byte := 6
  const LINEMODE: byte := 34
  const NAWS: byte := 31

  /** What the tokenizer yields: a run of data bytes, `IAC <command>`, or
      `IAC <verb> <option>`. */
  datatype Token = Text(bytes: seq<byte>) | Command(code: byte) | Negotiation(command: byte, channel: byte)

  /** A token and the length of the tokenizer's unread input after it. */
  datatype Tokenized = Tokenized(token: Token, remainder: nat)

  /** `TelnetCodecMode`. */
  datatype Mode = TextMode | NawsMode

  /** `TelnetIn`: what the codec decodes to. */
  datatype TelnetIn = TextIn(text: seq<byte>) | Carriage | NawsIn(rows: u16, columns: u16)

  /** `read_u16::<BigEndian>` of two bytes. */
  function ReadU16(hi: byte, lo: byte): (r: u16)
    ensures r / 256 == hi && r % 256 == lo
  {
    hi * 256 + lo
  }

  /** The two bytes of a `u16`, most significant first. */
  function U16Bytes(v: u16): (r: seq<byte>)
    ensures |r| == 2
  {
    [v / 256, v % 256]
  }

  /** The NAWS payload of section 2 of RFC 1073: width (columns) then height
      (rows), each big-endian. */
  function NawsPayload(rows: u16, columns: u16): (r: seq<byte>)
    ensures |r| == 4
  {
    U16Bytes(columns) + U16Bytes(rows)
  }

  /** Reading a NAWS payload: columns from the first two bytes, rows from the
      next two; fewer than four bytes make an `unwrap` panic. */
  function ReadNaws(bytes: seq<byte>): (r: Outcome<TelnetIn>)
    ensures r.Returned? <==> |bytes| >= 4
    ensures r.Returned? ==> r.value.NawsIn? && U16Bytes(r.value.columns) == bytes[..2] && U16Bytes(r.value.rows) == bytes[2..4]
  {
    if |bytes| < 4 then Panicked
    else Returned(NawsIn(ReadU16(bytes[2], bytes[3]), ReadU16(bytes[0], bytes[1])))
  }

  /** Decoding a NAWS payload gives back the window size it encodes. */
  lemma NawsRoundTrip(rows: u16, columns: u16, rest: seq<byte>)
    ensures ReadNaws(NawsPayload(rows, columns) + rest) == Returned(NawsIn(rows, columns))
  {
    var payload := NawsPayload(rows, columns) + rest;
    assert payload[..4] == NawsPayload(rows, columns);
  }

  /** The decoder's mode after a non-text token: `IAC SE` leaves NAWS mode,
      `IAC SB NAWS` enters it, anything else leaves the mode alone. */
  function ModeAfter(mode: Mode, token: Token): (r: Mode)
    requires !token.Text?
    ensures token == Negotiation(SB, NAWS) ==> r == NawsMode
    ensures token == Command(SE) ==> r == TextMode
    ensures token != Negotiation(SB, NAWS) && token != Command(SE) ==> r == mode
  {
    match token
    case Command(c) => if c == SE then TextMode else mode
    case Negotiation(command, channel) => if command == SB && channel == NAWS then NawsMode else mode
  }

  /** `Decoder::decode` over the tokens: skip commands and negotiations
      (switching mode), stop at the first text token and turn it into a
      frame according to the mode. The result is the frame (if any), the
      mode afterwards, and how many input bytes are left unread. */
  function DecodeSpec(mode: Mode, tokens: seq<Tokenized>, finalRemainder: nat): Outcome<(Option<TelnetIn>, Mode, nat)>
    decreases |tokens|
  {
    if tokens == [] then Returned((None, mode, finalRemainder))
    else if tokens[0].token.Text? then
      var bytes := tokens[0].token.bytes;
      if mode == TextMode then Returned((Some(TextIn(bytes)), mode, tokens[0].remainder))
      else match ReadNaws(bytes)
        case Panicked => Panicked
        case Returned(frame) => Returned((Some(frame), mode, tokens[0].remainder))
    else DecodeSpec(ModeAfter(mode, tokens[0].token), tokens[1..], finalRemainder)
  }

  /** The mode after a run of non-text tokens. */
  function ModeAfterAll(mode: Mode, tokens: seq<Tokenized>): Mode
    requires forall k | 0 <= k < |tokens| :: !tokens[k].token.Text?
    decreases |tokens|
  {
    if tokens == [] then mode else ModeAfterAll(ModeAfter(mode, tokens[0].token), tokens[1..])
  }

  /** Without a text token the decoder yields no frame, consumes the whole
      tokenizer output and only moves the mode. */
  lemma {:induction false} DecodeWithoutText(mode: Mode, tokens: seq<Tokenized>, finalRemainder: nat)
    requires forall k | 0 <= k < |tokens| :: !tokens[k].token.Text?
    ensures DecodeSpec(mode, tokens, finalRemainder) == Returned((None, ModeAfterAll(mode, tokens), finalRemainder))
    decreases |tokens|
  {
    if tokens != [] {
      DecodeWithoutText(ModeAfter(mode, tokens[0].token), tokens[1..], finalRemainder);
    }
  }

  /** The decoder yields at most one frame, from the first text token: every
      token before it only moves the mode, and the unread input is what the
      tokenizer had left after that text token. */
  lemma {:induction false} DecodeStopsAtFirstText(mode: Mode, tokens: seq<Tokenized>, finalRemainder: nat, k: nat)
    requires k < |tokens| && tokens[k].token.Text?
    requires forall m | 0 <= m < k :: !tokens[m].token.Text?
    ensures var r := DecodeSpec(mode, tokens, finalRemainder);
      var before := ModeAfterAll(mode, tokens[..k]);
      && (r.Returned? ==> r.value.0.Some? && r.value.1 == before && r.value.2 == tokens[k].remainder)
      && (before == TextMode ==> r == Returned((Some(TextIn(tokens[k].token.bytes)), TextMode, tokens[k].remainder)))
      && (before == NawsMode ==> (r.Returned? <==> |tokens[k].token.bytes| >= 4))
    decreases k
  {
    if k > 0 {
      var next := ModeAfter(mode, tokens[0].token);
      forall m | 0 <= m < k - 1
        ensures !tokens[1..][m].token.Text?
      {
        assert tokens[1..][m] == tokens[m + 1];
      }
      DecodeStopsAtFirstText(next, tokens[1..], finalRemainder, k - 1);
      assert tokens[..k][1..] == tokens[1..][..k - 1];
    }
  }

  /** `Decoder`: the tokenizer (an oracle) and the mode. */
  class Decoder {
    var mode: Mode

    constructor ()
      ensures mode == TextMode
    {
      mode := TextMode;
    }

    /** `Decoder::decode(buf)`: `tokens` is what the tokenizer makes of
        `buf`, `finalRemainder` what it leaves when it runs out of tokens. */
    method Decode(tokens: seq<Tokenized>, finalRemainder: nat) returns (r: Outcome<(Option<TelnetIn>, nat)>)
      modifies this
      ensures var spec := DecodeSpec(old(mode), tokens, finalRemainder);
        && (spec == Panicked <==> r == Panicked)
        && (spec.Returned? ==> r == Returned((spec.value.0, spec.value.2)) && mode == spec.value.1)
    {
      var i := 0;
      while i < |tokens|
        invariant 0 <= i <= |tokens|
        invariant DecodeSpec(old(mode), tokens, finalRemainder) == DecodeSpec(mode, tokens[i..], finalRemainder)
      {
        var t := tokens[i];
        match t.token {
          case Text(bytes) =>
            if mode == TextMode {
              return Returned((Some(TextIn(bytes)), t.remainder));
            }
            var frame := ReadNaws(bytes);
            if frame == Panicked {
              return Panicked;
            }
            return Returned((Some(frame.value), t.remainder));
          case Command(c) =>
            if c == SE && mode == NawsMode {
              mode := TextMode;
            }
          case Negotiation(command, channel) =>
            if command == SB && channel == NAWS {
              mode := NawsMode;
            }
        }
        assert tokens[i..][1..] == tokens[i + 1..];
        assert DecodeSpec(mode, tokens[i + 1..], finalRemainder) == DecodeSpec(old(mode), tokens, finalRemainder);
        i := i + 1;
      }
      return Returned((None, finalRemainder));
    }
  }

  /** `TelnetCodec`: the framed codec around a decoder. */
  class TelnetCodec {
    const decoder: Decoder

    constructor ()
      ensures fresh(decoder) && decoder.mode == TextMode
    {
      decoder := new Decoder();
    }

    /** `Decoder::decode` of the codec: an empty source yields nothing and is
        left alone; otherwise the decoder runs over it and the bytes it
        consumed are split off the front of the source. The tokenizer
        never reports more bytes left than it was given. */
    method Decode(src: seq<byte>, tokens: seq<Tokenized>, finalRemainder: nat)
      returns (r: Outcome<Option<TelnetIn>>, rest: seq<byte>)
      requires finalRemainder <= |src| && forall k | 0 <= k < |tokens| :: tokens[k].remainder <= |src|
      modifies decoder
      ensures src == [] ==> r == Returned(None) && rest == src && decoder.mode == old(decoder.mode)
      ensures src != [] ==>
        var spec := DecodeSpec(old(decoder.mode), tokens, finalRemainder);
        && (spec == Panicked <==> r == Panicked)
        && (spec.Returned? ==>
              && r == Returned(spec.value.0)
              && decoder.mode == spec.value.1
              && spec.value.2 <= |src| && |rest| == spec.value.2
              && rest == src[|src| - spec.value.2..])
    {
      if |src| == 0 {
        return Returned(None), src;
      }
      var decoded := decoder.Decode(tokens, finalRemainder);
      if decoded == Panicked {
        return Panicked, src;
      }
      var (frame, remainder) := decoded.value;
      DecodeRemainderBounded(old(decoder.mode), tokens, finalRemainder, |src|);
      rest := src[|src| - remainder..];
      r := Returned(frame);
    }

    /** `Encoder::encode`: push the item's bytes onto the destination, one
        at a time. */
    method Encode(item: seq<byte>, dst: seq<byte>) returns (out: seq<byte>)
      ensures out == dst + item
      ensures out[..|dst|] == dst && out[|dst|..] == item
    {
      out := dst;
      for k := 0 to |item|
        invariant out == dst + item[..k]
      {
        out := out + [item[k]];
        assert item[..k + 1] == item[..k] + [item[k]];
      }
      assert item[..|item|] == item;
    }
  }

  /** The unread length the decoder reports is one the tokenizer reported. */
  lemma {:induction false} DecodeRemainderBounded(mode: Mode, tokens: seq<Tokenized>, finalRemainder: nat, bound: nat)
    requires finalRemainder <= bound && forall k | 0 <= k < |tokens| :: tokens[k].remainder <= bound
    ensures DecodeSpec(mode, tokens, finalRemainder).Returned? ==> DecodeSpec(mode, tokens, finalRemainder).value.2 <= bound
    decreases |tokens|
  {
    if tokens != [] && !tokens[0].token.Text? {
      DecodeRemainderBounded(ModeAfter(mode, tokens[0].token), tokens[1..], finalRemainder, bound);
    }
  }
}

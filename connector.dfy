/** The session object of telegram.py (class LorenzConnector): request and
    response over a serial port, the mode of the device, and the header-less
    streaming frames.

    The port is modelled by two byte sequences: `input`, the bytes the device
    has sent and that have not been read yet, and `output`, everything written.
    A read when `input` is empty stands for a read timeout (`b''`). */
module Connector {
  import opened Common
  import opened TelegramCodec
  import Checksum8

  /** The `mode` attribute: "undefined", "SOSM_SINGLE", "SOSM_DUAL" or "idle". */
  datatype Mode = Undefined | SosmSingle | SosmDual | Idle
  {
    /** `'SOSM' in self.mode` */
    predicate IsStreaming()
    {
      this == SosmSingle || this == SosmDual
    }
  }

  // ------------------------------------------------------ response framing

  /** The first loop of `_recv_telegram`: read until an STX; None on timeout.
      Returns what is left after that STX. */
  function HuntStx(input: seq<int>): Option<seq<int>>
  {
    if input == [] then None
    else if input[0] == STX then Some(input[1..])
    else HuntStx(input[1..])
  }

  /** The second loop of `_recv_telegram`: append bytes to `rx` until it holds
      `expected` of them. An STX is skipped and the byte after it stored
      instead; a NACK stored as the second byte sets the length to 8. Returns
      the bytes received (None on timeout) and the input left unread. */
  function Collect(input: seq<int>, rx: seq<int>, expected: int): (Option<seq<int>>, seq<int>)
    decreases |input|
  {
    if |rx| >= expected then (Some(rx), input)
    else if input == [] || (input[0] == STX && |input| == 1) then (None, [])
    else
      var b := if input[0] == STX then input[1] else input[0];
      var rest := if input[0] == STX then input[2..] else input[1..];
      var rx' := rx + [b];
      Collect(rest, rx', if |rx'| == 2 && b == Nack.Code() then 8 else expected)
  }

  /** The bytes `_recv_telegram` hands to `from_bytes`, and the input left. */
  function ReadResponse(input: seq<int>, expected: int): (Option<seq<int>>, seq<int>)
  {
    match HuntStx(input)
    case None => (None, [])
    case Some(after) => Collect(after, [STX], expected)
  }

  /** Bytes before the first STX are skipped. */
  lemma {:induction false} HuntSkipsJunk(junk: seq<int>, rest: seq<int>)
    requires STX !in junk
    ensures HuntStx(junk + [STX] + rest) == Some(rest)
  {
    if junk != [] {
      assert (junk + [STX] + rest)[1..] == junk[1..] + [STX] + rest;
      HuntSkipsJunk(junk[1..], rest);
    } else {
      assert junk + [STX] + rest == [STX] + rest;
    }
  }

  /** One reader step past the second byte over a plain byte ... */
  lemma CollectPlain(b: int, tail: seq<int>, rx: seq<int>, expected: int)
    requires |rx| >= 2 && |rx| < expected && b != STX
    ensures Collect([b] + tail, rx, expected) == Collect(tail, rx + [b], expected)
  {
    assert ([b] + tail)[1..] == tail;
  }

  /** ... and over a stuffed STX pair. */
  lemma CollectEscaped(tail: seq<int>, rx: seq<int>, expected: int)
    requires |rx| >= 2 && |rx| < expected
    ensures Collect([STX as int, STX as int] + tail, rx, expected) == Collect(tail, rx + [STX as int], expected)
  {
    var input := [STX as int, STX as int] + tail;
    assert input[0] == STX && input[1] == STX && |input| >= 2;
    assert input[2..] == tail;
  }

  /** One reader step past the second byte over the stuffed form of `s`. */
  lemma CollectStuffedStep(s: seq<int>, rest: seq<int>, rx: seq<int>, expected: int)
    requires s != [] && |rx| >= 2 && |rx| < expected
    ensures Collect(Stuffed(s) + rest, rx, expected) == Collect(Stuffed(s[1..]) + rest, rx + [s[0]], expected)
  {
    var tail := Stuffed(s[1..]) + rest;
    if s[0] == STX {
      assert Stuffed(s) + rest == [STX as int, STX as int] + tail;
      CollectEscaped(tail, rx, expected);
    } else {
      assert Stuffed(s) + rest == [s[0]] + tail;
      CollectPlain(s[0], tail, rx, expected);
    }
  }

  /** Past the second byte, the reader undoes stuffing exactly. */
  lemma {:induction false} CollectStuffed(s: seq<int>, rest: seq<int>, rx: seq<int>, expected: int)
    requires |rx| >= 2 && |rx| + |s| == expected
    ensures Collect(Stuffed(s) + rest, rx, expected) == (Some(rx + s), rest)
  {
    if s == [] {
      assert Stuffed(s) + rest == rest;
      assert rx + s == rx;
    } else {
      CollectStuffedStep(s, rest, rx, expected);
      CollectStuffed(s[1..], rest, rx + [s[0]], expected);
      assert rx + [s[0]] + s[1..] == rx + s;
    }
  }

  /** The frame a device sends for a response telegram. */
  function ResponseItems(command: Command, addrTo: byte, addrFrom: byte, parameters: seq<byte>): seq<int>
  {
    Items(command, addrTo, addrFrom, |parameters|, parameters)
  }

  /** The length `_recv_telegram` ends up waiting for when `command` is the
      response's command and `expected` the one looked up for the request. */
  function EffectiveLength(command: Command, expected: int): int
  {
    if command == Nack then 8 else expected
  }

  /** The reader's first step after the leading STX stores the command byte,
      unescaping it when it is STX, and widens the length for a NACK. */
  lemma CollectFirstByte(s: seq<int>, rest: seq<int>, expected: int)
    requires s != [] && expected >= 2
    ensures Collect(Stuffed(s) + rest, [STX as int], expected)
            == Collect(Stuffed(s[1..]) + rest, [STX as int, s[0]], if s[0] == Nack.Code() then 8 else expected)
  {
    var b := s[0];
    StuffedConcat([b], s[1..]);
    assert s == [b] + s[1..];
    var tail := Stuffed(s[1..]) + rest;
    var stuffedRest := Stuffed(s) + rest;
    if b == STX {
      assert stuffedRest == [STX as int, STX as int] + tail;
      assert stuffedRest[0] == STX && stuffedRest[1] == STX && stuffedRest[2..] == tail;
    } else {
      assert stuffedRest == [b] + tail;
      assert stuffedRest[0] == b && stuffedRest[1..] == tail;
    }
    assert [STX as int] + [b] == [STX as int, b];
  }

  /** Framing: after any bytes without STX, a serialized response of the
      length the reader waits for is read completely, stuffing undone, and
      the rest of the input is left unread. */
  lemma ReadStuffedFrame(junk: seq<int>, command: Command, addrTo: byte, addrFrom: byte,
                         parameters: seq<byte>, rest: seq<int>, expected: int)
    requires STX !in junk && |parameters| <= 255 && expected >= 2
    requires EffectiveLength(command, expected) == |parameters| + 7
    ensures var items := ResponseItems(command, addrTo, addrFrom, parameters);
            ReadResponse(junk + Frame(items) + rest, expected) == (Some([STX as int] + Sealed(items)), rest)
  {
    var items := ResponseItems(command, addrTo, addrFrom, parameters);
    var sealed := Sealed(items);
    var b := sealed[0];
    assert b == command.Code();
    var stuffedRest := Stuffed(sealed) + rest;
    assert junk + Frame(items) + rest == junk + [STX as int] + stuffedRest;
    HuntSkipsJunk(junk, stuffedRest);
    CollectFirstByte(sealed, rest, expected);
    var rx' := [STX as int, b];
    var expected' := if b == Nack.Code() then 8 else expected;
    assert expected' == EffectiveLength(command, expected) by {
      FromCodeOfCode(command);
      FromCodeOfCode(Nack);
    }
    CollectStuffed(sealed[1..], rest, rx', expected');
    assert rx' + sealed[1..] == [STX as int] + sealed;
  }

  /** Request/response round trip: a well-formed response from the device,
      whatever bytes it carries (stuffed STX included) and after any noise
      without STX, decodes to the telegram the device sent, with `valid` set.
      Only a response whose command is STX itself is misread: its code in the
      second position is taken for a stuffing marker. */
  lemma ResponseRoundTrip(junk: seq<int>, command: Command, addrTo: byte, addrFrom: byte,
                          parameters: seq<byte>, rest: seq<int>, expected: int)
    requires STX !in junk && |parameters| <= 255 && command != Stx && expected >= 2
    requires EffectiveLength(command, expected) == |parameters| + 7
    ensures var items := ResponseItems(command, addrTo, addrFrom, parameters);
            var (cs, wcs) := Checksum8.Checksums(items);
            var (raw, left) := ReadResponse(junk + Frame(items) + rest, expected);
            left == rest && raw.Some? &&
            Decode(raw.value, []) == Ok(Decoded(false, command, addrTo, addrFrom, |parameters|, parameters, cs, wcs, true))
  {
    var items := ResponseItems(command, addrTo, addrFrom, parameters);
    ReadStuffedFrame(junk, command, addrTo, addrFrom, parameters, rest, expected);
    var raw := [STX as int] + Sealed(items);
    var sealed := Sealed(items);
    FromCodeOfCode(command);
    assert raw[1] == command.Code() != STX;
    assert Body(raw) == sealed;
    assert sealed[4..|sealed| - 2] == parameters;
  }

  // ---------------------------------------------------------------- exchange

  /** What one `_send_telegram` call does, as values: its result (the decoded
      response, if any), the bytes it writes and the input it leaves. */
  datatype Outcome = Outcome(result: Result<Option<Decoded>>, written: seq<int>, remaining: seq<int>)

  function Exchange(unsupported: set<Command>, command: Option<Command>, addrTo: int, addrFrom: int,
                    count: int, parameters: seq<int>, input: seq<int>): Outcome
  {
    if command.Some? && command.value in unsupported then Outcome(Err(UnsupportedCommand), [], input)
    else if command.None? then Outcome(Err(TypeError), [], input)
    else
      var items := Items(command.value, addrTo, addrFrom, count, parameters);
      if !IsByteSeq(items) then Outcome(Err(ValueError), [], input)
      else if addrTo == 0 then Outcome(Ok(None), Frame(items), input)
      else match ExpectedLength(command.value)
        case Err(e) => Outcome(Err(e), Frame(items), input)
        case Ok(n) =>
          var (raw, left) := ReadResponse(input, n);
          if raw.None? then Outcome(Ok(None), Frame(items), left)
          else match Decode(raw.value, [])
            case Err(e) => Outcome(Err(e), Frame(items), left)
            case Ok(d) => Outcome(Ok(Some(d)), Frame(items), left)
  }

  /** A denied command fails before anything is written or read. */
  lemma DeniedCommandWritesNothing(unsupported: set<Command>, command: Command, addrTo: int, addrFrom: int,
                                   count: int, parameters: seq<int>, input: seq<int>)
    requires command in unsupported
    ensures Exchange(unsupported, Some(command), addrTo, addrFrom, count, parameters, input)
            == Outcome(Err(UnsupportedCommand), [], input)
  {
  }

  /** A broadcast (address 0) is written and answered with None, reading nothing. */
  lemma BroadcastReadsNothing(unsupported: set<Command>, command: Command, addrFrom: int,
                              count: int, parameters: seq<int>, input: seq<int>)
    requires command !in unsupported && IsByteSeq(Items(command, 0, addrFrom, count, parameters))
    ensures var o := Exchange(unsupported, Some(command), 0, addrFrom, count, parameters, input);
            o.result == Ok(None) && o.written == Frame(Items(command, 0, addrFrom, count, parameters))
            && o.remaining == input
  {
  }

  /** On a timeout the response is None and all input is consumed. */
  lemma {:induction false} TimeoutConsumesAll(input: seq<int>, expected: int)
    requires ReadResponse(input, expected).0.None?
    ensures ReadResponse(input, expected).1 == []
  {
    match HuntStx(input)
    case None =>
    case Some(after) => CollectTimeout(after, [STX], expected);
  }

  lemma {:induction false} CollectTimeout(input: seq<int>, rx: seq<int>, expected: int)
    requires Collect(input, rx, expected).0.None?
    ensures Collect(input, rx, expected).1 == []
    decreases |input|
  {
    if |rx| >= expected || input == [] || (input[0] == STX && |input| == 1) {
    } else {
      var b := if input[0] == STX then input[1] else input[0];
      var rest := if input[0] == STX then input[2..] else input[1..];
      var rx' := rx + [b];
      CollectTimeout(rest, rx', if |rx'| == 2 && b == Nack.Code() then 8 else expected);
    }
  }

  /** Input without any STX times out while hunting. */
  lemma {:induction false} HuntNoStx(junk: seq<int>)
    requires STX !in junk
    ensures HuntStx(junk) == None
  {
    if junk != [] {
      assert STX !in junk[1..] by {
        forall i | 0 <= i < |junk[1..]| ensures junk[1..][i] != STX {
          assert junk[1..][i] == junk[i + 1];
        }
      }
      HuntNoStx(junk[1..]);
    }
  }

  /** A read that needed all of `input` up to its unread tail times out when
      the input stops any byte before that tail, the escape of a stuffed STX
      included. */
  lemma {:induction false} CollectCutShort(input: seq<int>, rx: seq<int>, expected: int, k: nat)
    requires Collect(input, rx, expected).0.Some?
    requires k + |Collect(input, rx, expected).1| < |input|
    ensures Collect(input[..k], rx, expected).0.None?
    decreases |input|
  {
    if |rx| < expected && input != [] && !(input[0] == STX && |input| == 1) {
      var d := if input[0] == STX then 2 else 1;
      var b := if input[0] == STX then input[1] else input[0];
      var rest := input[d..];
      var rx' := rx + [b];
      var expected' := if |rx'| == 2 && b == Nack.Code() then 8 else expected;
      assert Collect(input, rx, expected) == Collect(rest, rx', expected');
      if k >= d {
        var cut := input[..k];
        assert cut[0] == input[0] && (d == 2 ==> cut[1] == input[1]);
        assert cut[d..] == rest[..k - d];
        assert Collect(cut, rx, expected) == Collect(rest[..k - d], rx', expected');
        CollectCutShort(rest, rx', expected', k - d);
      } else if k == 1 {
        assert input[..k] == [STX as int];
      }
    }
  }

  /** A cut-off STX followed by input the length loop reads to its very end
      times out, with or without noise before it. */
  lemma CutAfterStxTimesOut(junk: seq<int>, stuffed: seq<int>, expected: int, k: nat)
    requires STX !in junk && k < 1 + |stuffed|
    requires Collect(stuffed, [STX as int], expected).0.Some? && Collect(stuffed, [STX as int], expected).1 == []
    ensures ReadResponse(junk + ([STX as int] + stuffed)[..k], expected).0 == None
  {
    if k == 0 {
      assert junk + ([STX as int] + stuffed)[..k] == junk;
      HuntNoStx(junk);
    } else {
      assert junk + ([STX as int] + stuffed)[..k] == junk + [STX as int] + stuffed[..k - 1];
      HuntSkipsJunk(junk, stuffed[..k - 1]);
      CollectCutShort(stuffed, [STX as int], expected, k - 1);
    }
  }

  /** The converse of `TimeoutConsumesAll` for a well-formed response: when
      the device stops sending at any byte of its frame, the read times out
      and yields None. */
  lemma TruncatedFrameTimesOut(junk: seq<int>, command: Command, addrTo: byte, addrFrom: byte,
                               parameters: seq<byte>, expected: int, k: nat)
    requires STX !in junk && |parameters| <= 255 && expected >= 2
    requires EffectiveLength(command, expected) == |parameters| + 7
    requires k < |Frame(ResponseItems(command, addrTo, addrFrom, parameters))|
    ensures ReadResponse(junk + Frame(ResponseItems(command, addrTo, addrFrom, parameters))[..k], expected).0 == None
  {
    var items := ResponseItems(command, addrTo, addrFrom, parameters);
    var stuffed := Stuffed(Sealed(items));
    ReadStuffedFrame(junk, command, addrTo, addrFrom, parameters, [], expected);
    assert junk + Frame(items) + [] == junk + [STX as int] + stuffed;
    HuntSkipsJunk(junk, stuffed);
    CutAfterStxTimesOut(junk, stuffed, expected, k);
  }

  // --------------------------------------------------------------- streaming

  /** `int.from_bytes([hi, lo], 'big', signed=True)` */
  function Signed16(hi: byte, lo: byte): int
  {
    var u := hi * 256 + lo;
    if u >= 0x8000 then u - 0x10000 else u
  }

  /** The two bytes a device sends for a signed 16-bit value. */
  function Signed16Bytes(v: int): (byte, byte)
  {
    var u := v % 0x10000;
    ((u / 256) as byte, (u % 256) as byte)
  }

  /** A decoded value is a 16-bit signed integer, and encoding it gives back
      the two bytes. */
  lemma Signed16RoundTrip(hi: byte, lo: byte)
    ensures -0x8000 <= Signed16(hi, lo) < 0x8000
    ensures Signed16Bytes(Signed16(hi, lo)) == (hi, lo)
  {
    var u := hi * 256 + lo;
    assert 0 <= u < 0x10000;
    var v := Signed16(hi, lo);
    assert v % 0x10000 == u;
    assert u / 256 == hi && u % 256 == lo;
  }

  /** Every 16-bit signed integer is decoded from its two bytes. */
  lemma Signed16OfBytes(v: int)
    requires -0x8000 <= v < 0x8000
    ensures Signed16(Signed16Bytes(v).0, Signed16Bytes(v).1) == v
  {
    var u := v % 0x10000;
    assert (u / 256) * 256 + u % 256 == u;
  }

  /** A streamed sample: one value (channel A or B) or two (channel C) with
      the raw five bytes. */
  datatype Sample = Single(value: int) | Dual(value0: int, value1: int, raw: seq<byte>)

  /** The result of `streaming_recv_poll`: None outside streaming mode,
      otherwise (idx, val) with val None when too few bytes are waiting. */
  datatype Poll = NotStreaming | Polled(index: int, sample: Option<Sample>)

  /** Bytes per streamed frame in a streaming mode. */
  function FrameWidth(mode: Mode): nat
  {
    if mode == SosmDual then 5 else 3
  }

  /** What one poll returns in `mode` on waiting bytes `input`, and the bytes left. */
  function PollFrame(mode: Mode, input: seq<byte>): (Poll, seq<byte>)
  {
    if !mode.IsStreaming() then (NotStreaming, input)
    else
      var n := FrameWidth(mode);
      if |input| < n then (Polled(0, None), input)
      else
        var v := Signed16(input[1], input[2]);
        if n == 5 then (Polled(input[0], Some(Dual(v, Signed16(input[3], input[4]), input[..5]))), input[5..])
        else (Polled(input[0], Some(Single(v))), input[3..])
  }

  /** A frame sent for index `idx` and value `v` is polled back exactly, and
      the bytes after it are left for the next poll. */
  lemma PollSingleFrame(idx: byte, v: int, rest: seq<byte>)
    requires -0x8000 <= v < 0x8000
    ensures var (hi, lo) := Signed16Bytes(v);
            PollFrame(SosmSingle, [idx, hi, lo] + rest) == (Polled(idx, Some(Single(v))), rest)
  {
    Signed16OfBytes(v);
    var (hi, lo) := Signed16Bytes(v);
    assert ([idx, hi, lo] + rest)[3..] == rest;
  }

  /** The same for the five-byte frames of two-channel streaming. */
  lemma PollDualFrame(idx: byte, v0: int, v1: int, rest: seq<byte>)
    requires -0x8000 <= v0 < 0x8000 && -0x8000 <= v1 < 0x8000
    ensures var (h0, l0) := Signed16Bytes(v0);
            var (h1, l1) := Signed16Bytes(v1);
            PollFrame(SosmDual, [idx, h0, l0, h1, l1] + rest)
              == (Polled(idx, Some(Dual(v0, v1, [idx, h0, l0, h1, l1]))), rest)
  {
    Signed16OfBytes(v0);
    Signed16OfBytes(v1);
    var (h0, l0) := Signed16Bytes(v0);
    var (h1, l1) := Signed16Bytes(v1);
    var s := [idx, h0, l0, h1, l1] + rest;
    assert s[5..] == rest && s[..5] == [idx, h0, l0, h1, l1];
  }

  /** Fewer waiting bytes than a frame: nothing is consumed. */
  lemma PollShortInput(mode: Mode, input: seq<byte>)
    requires mode.IsStreaming() && |input| < FrameWidth(mode)
    ensures PollFrame(mode, input) == (Polled(0, None), input)
  {
  }

  function Clamp(x: int, lo: int, hi: int): int
  {
    if x < lo then lo else if x > hi then hi else x
  }

  /** Parameters of the special-mode command that starts streaming:
      sub-mode 3, the sample-period byte, the frame count (big-endian, 0 for
      no limit) and the channel letter. `period` is the already-derived
      period in units of 200 microseconds. */
  function StreamingParameters(period: int, count: int, channel: char): seq<int>
  {
    var rate := Clamp(period, 0, 0xFF);
    var c := Clamp(count, 0, 0xFFFF);
    [3, rate, c / 256, c % 256, channel as int]
  }

  /** The parameters are bytes from which the clamped period and count are
      read back, for every channel letter accepted. */
  lemma StreamingParametersLayout(period: int, count: int, channel: char)
    requires channel == 'A' || channel == 'B' || channel == 'C'
    ensures var p := StreamingParameters(period, count, channel);
            |p| == 5 && IsByteSeq(p) && p[0] == 3 && p[1] == Clamp(period, 0, 0xFF)
            && p[2] * 256 + p[3] == Clamp(count, 0, 0xFFFF) && p[4] == channel as int
  {
  }

  /** The members of the `Error` enumeration: codes a NACK may carry. */
  predicate IsErrorCode(code: int)
  {
    0 <= code <= 15 || code == 20 || code == 21 || code == 26 || code == 27 || code == 31
    || 32 <= code <= 35 || 40 <= code <= 45 || code == 60 || code == 61
  }

  // ---------------------------------------------------------------- the class

  /** True when telegram object `t` holds what was decoded as `d`. */
  ghost predicate Holds(t: Telegram, d: Decoded)
    reads t
  {
    t.command == Some(d.command) && t.addrTo == d.addrTo && t.addrFrom == d.addrFrom
    && t.parameterCnt == d.parameterCnt && t.parameters == d.parameters
    && t.checksum == d.checksum && t.wchecksum == d.wchecksum
    && t.valid == d.valid && t.stuffed == d.stuffMarker
  }

  /** True when the method result `r` is the outcome `o`, a fresh telegram
      object standing for a decoded response. */
  twostate predicate Reports(new r: Result<Option<Telegram>>, o: Result<Option<Decoded>>)
    reads if r.Ok? && r.value.Some? then {r.value.value} else {}
  {
    match o
    case Err(e) => r == Err(e)
    case Ok(None) => r == Ok(None)
    case Ok(Some(d)) => r.Ok? && r.value.Some? && fresh(r.value.value) && Holds(r.value.value, d)
  }

  class LorenzConnector {
    /** Commands this connector refuses (UNSUPPORTED_COMMANDS). */
    const unsupported: set<Command>
    var mode: Mode
    /** Bytes sent by the device and not read yet. */
    var input: seq<byte>
    /** Every byte written to the port. */
    var output: seq<int>

    constructor (input: seq<byte>, unsupported: set<Command>)
      ensures this.input == input && this.unsupported == unsupported
      ensures mode == Undefined && output == []
    {
      this.input := input;
      this.unsupported := unsupported;
      mode := Undefined;
      output := [];
    }

    /** `ser.read()`: one byte, or None on timeout. */
    method ReadByte() returns (b: Option<byte>)
      modifies this`input
      ensures old(input) == [] ==> b == None && input == []
      ensures old(input) != [] ==> b == Some(old(input)[0]) && input == old(input)[1..]
    {
      if input == [] {
        return None;
      }
      b := Some(input[0]);
      input := input[1..];
    }

    /** `_recv_telegram`: read the response to a request with `command`
        and decode it into a fresh telegram; None on timeout. */
    method RecvTelegram(command: Command) returns (r: Result<Option<Telegram>>)
      modifies this
      ensures mode == old(mode) && output == old(output)
      ensures ExpectedLength(command).Err? ==> r == Err(KeyError) && input == old(input)
      ensures ExpectedLength(command).Ok? ==>
        var (raw, left) := ReadResponse(old(input), ExpectedLength(command).value);
        input == left &&
        Reports(r, if raw.None? then Ok(None)
                   else match Decode(raw.value, []) case Err(e) => Err(e) case Ok(d) => Ok(Some(d)))
    {
      var expected := ExpectedLength(command);
      if expected.Err? {
        return Err(expected.error);
      }
      ghost var start := input;
      var found, timedOut := false, false;
      while !found && !timedOut
        invariant mode == old(mode) && output == old(output)
        invariant !found && !timedOut ==> HuntStx(input) == HuntStx(start)
        invariant found ==> HuntStx(start) == Some(input)
        invariant timedOut ==> HuntStx(start).None? && input == [] && !found
        decreases |input|, !found && !timedOut
      {
        var b := ReadByte();
        if b.None? {
          timedOut := true;
        } else if b.value == STX {
          found := true;
        }
      }
      ghost var after := input;
      var rx: seq<byte> := [STX];
      var expectedLen := expected.value;
      while !timedOut && |rx| < expectedLen
        invariant mode == old(mode) && output == old(output)
        invariant !timedOut ==> found && Collect(input, rx, expectedLen) == Collect(after, [STX], expected.value)
        invariant timedOut ==> ReadResponse(start, expected.value) == (None, []) && input == []
        decreases |input|, !timedOut
      {
        ghost var before := input;
        var b := ReadByte();
        if b.Some? && b.value == STX {
          b := ReadByte();
        }
        if b.None? {
          timedOut := true;
        } else {
          rx := rx + [b.value];
          if |rx| == 2 && b.value == Nack.Code() {
            expectedLen := 8;
          }
        }
      }
      if timedOut {
        return Ok(None);
      }
      var tg := new Telegram(None, 0xFF, 0x01, []);
      var decoded := tg.FromBytes(rx);
      if decoded.Err? {
        return Err(decoded.error);
      }
      return Ok(Some(tg));
    }

    /** `_send_telegram`: refuse a denied command, write the serialized
        telegram, and unless it is a broadcast read and decode the response. */
    method SendTelegram(tg: Telegram) returns (r: Result<Option<Telegram>>)
      modifies this
      ensures var o := Exchange(unsupported, tg.command, tg.addrTo, tg.addrFrom, tg.parameterCnt, tg.parameters, old(input));
              output == old(output) + o.written && input == o.remaining && mode == old(mode)
              && Reports(r, o.result)
    {
      if tg.command.Some? && tg.command.value in unsupported {
        return Err(UnsupportedCommand);
      }
      var frame := tg.Serialize();
      if frame.Err? {
        return Err(frame.error);
      }
      output := output + frame.value;
      if tg.addrTo != 0 {
        r := RecvTelegram(tg.command.value);
      } else {
        r := Ok(None);
      }
    }

    /** `hello`: the Hello request to `addrTo`. */
    method Hello(addrTo: int) returns (r: Result<Option<Telegram>>)
      modifies this
      ensures var o := Exchange(unsupported, Some(Command.Hello), addrTo, 0xFF, 0, [], old(input));
              output == old(output) + o.written && input == o.remaining && mode == old(mode)
              && Reports(r, o.result)
    {
      var tg := new Telegram(Some(Command.Hello), 0xFF, addrTo, []);
      r := SendTelegram(tg);
    }

    /** `get_status_short` */
    method GetStatusShort(addrTo: int) returns (r: Result<Option<Telegram>>)
      modifies this
      ensures var o := Exchange(unsupported, Some(ReadStatusShort), addrTo, 0xFF, 0, [], old(input));
              output == old(output) + o.written && input == o.remaining && mode == old(mode)
              && Reports(r, o.result)
    {
      var tg := new Telegram(Some(ReadStatusShort), 0xFF, addrTo, []);
      r := SendTelegram(tg);
    }

    /** `get_status` */
    method GetStatus(addrTo: int) returns (r: Result<Option<Telegram>>)
      modifies this
      ensures var o := Exchange(unsupported, Some(ReadStatus), addrTo, 0xFF, 0, [], old(input));
              output == old(output) + o.written && input == o.remaining && mode == old(mode)
              && Reports(r, o.result)
    {
      var tg := new Telegram(Some(ReadStatus), 0xFF, addrTo, []);
      r := SendTelegram(tg);
    }

    /** `restart_device` (command 0x49 in this file) */
    method RestartDevice(addrTo: int) returns (r: Result<Option<Telegram>>)
      modifies this
      ensures var o := Exchange(unsupported, Some(Command.RestartDevice), addrTo, 0xFF, 0, [], old(input));
              output == old(output) + o.written && input == o.remaining && mode == old(mode)
              && Reports(r, o.result)
    {
      var tg := new Telegram(Some(Command.RestartDevice), 0xFF, addrTo, []);
      r := SendTelegram(tg);
    }

    /** `zero_angle` */
    method ZeroAngle(addrTo: int) returns (r: Result<Option<Telegram>>)
      modifies this
      ensures var o := Exchange(unsupported, Some(SetAngleToZero), addrTo, 0xFF, 0, [], old(input));
              output == old(output) + o.written && input == o.remaining && mode == old(mode)
              && Reports(r, o.result)
    {
      var tg := new Telegram(Some(SetAngleToZero), 0xFF, addrTo, []);
      r := SendTelegram(tg);
    }

    /** `get_raw`: ((raw0, cal0), (raw1, cal1)) from the ReadRaw response;
        AttributeError when there is none, IndexError when it is too short. */
    method GetRaw() returns (r: Result<((int, int), (int, int))>)
      modifies this
      ensures var o := Exchange(unsupported, Some(ReadRaw), 0x01, 0xFF, 0, [], old(input));
              output == old(output) + o.written && input == o.remaining && mode == old(mode)
              && r == match o.result
                      case Err(e) => Err(e)
                      case Ok(None) => Err(AttributeError)
                      case Ok(Some(d)) =>
                        if |d.parameters| < 8 then Err(IndexError) else Ok(RawPairs(d.parameters))
    {
      var tg := new Telegram(Some(ReadRaw), 0xFF, 0x01, []);
      var resp := SendTelegram(tg);
      if resp.Err? {
        return Err(resp.error);
      }
      if resp.value.None? {
        return Err(AttributeError);
      }
      var p := resp.value.value.parameters;
      if |p| < 8 {
        return Err(IndexError);
      }
      var raw0 := p[0] * 256 + p[1];  // (p[0] << 8) + p[1]
      var raw1 := p[2] * 256 + p[3];
      var cal0 := p[4] * 256 + p[5];
      var cal1 := p[6] * 256 + p[7];
      return Ok(((raw0, cal0), (raw1, cal1)));
    }

    /** `start_streaming(period, count, channel)`: the mode is switched before
        the request is sent and stays switched whatever the answer; anything
        but an ACK is an error carrying the device's error code. */
    method StartStreaming(period: int, count: int, channel: char) returns (r: Result<()>)
      modifies this
      ensures !(channel == 'A' || channel == 'B' || channel == 'C') ==>
                r == Err(ValueError) && mode == old(mode) && input == old(input) && output == old(output)
      ensures (channel == 'A' || channel == 'B' || channel == 'C') ==>
        var o := Exchange(unsupported, Some(GotoSpecialMode), 0x01, 0xFF, 5,
                          StreamingParameters(period, count, channel), old(input));
        mode == (if channel == 'C' then SosmDual else SosmSingle)
        && output == old(output) + o.written && input == o.remaining
        && r == match o.result
                case Err(e) => Err(e)
                case Ok(None) => Err(AttributeError)
                case Ok(Some(d)) => StreamingAnswer(d)
    {
      if !(channel == 'A' || channel == 'B' || channel == 'C') {
        return Err(ValueError);
      }
      if channel == 'C' {
        mode := SosmDual;
      } else {
        mode := SosmSingle;
      }
      var rate := Clamp(period, 0, 0xFF);
      var params := [3, rate];
      var c := Clamp(count, 0, 0xFFFF);
      params := params + [c / 256];  // count >> 8
      params := params + [c % 256];  // count & 0xFF
      params := params + [channel as int];
      assert params == StreamingParameters(period, count, channel);
      var tg := new Telegram(Some(GotoSpecialMode), 0xFF, 0x01, params);
      var resp := SendTelegram(tg);
      if resp.Err? {
        return Err(resp.error);
      }
      if resp.value.None? {
        return Err(AttributeError);
      }
      r := StreamingAnswerOf(resp.value.value);
    }

    /** `streaming_recv_poll`: one frame if a whole one is waiting. */
    method StreamingRecvPoll() returns (p: Poll)
      modifies this`input
      ensures (p, input) == PollFrame(mode, old(input))
    {
      if !mode.IsStreaming() {
        return NotStreaming;
      }
      var n := if mode == SosmDual then 5 else 3;
      var idx := 0;
      var val: Option<Sample> := None;
      if |input| >= n {
        var resp := input[..n];
        input := input[n..];
        idx := resp[0];
        var v := Signed16(resp[1], resp[2]);
        if n == 5 {
          val := Some(Dual(v, Signed16(resp[3], resp[4]), resp));
        } else {
          val := Some(Single(v));
        }
      }
      return Polled(idx, val);
    }

    /** `stop_streaming`: three STX bytes, then the mode is idle; no answer is read. */
    method StopStreaming()
      modifies this
      ensures output == old(output) + [STX as int, STX as int, STX as int]
      ensures mode == Idle && input == old(input)
    {
      output := output + [STX as int];
      output := output + [STX as int];
      output := output + [STX as int];
      mode := Idle;
    }
  }

  /** ((raw0, cal0), (raw1, cal1)) from the first eight response parameters. */
  function RawPairs(p: seq<int>): ((int, int), (int, int))
    requires |p| >= 8
  {
    ((p[0] * 256 + p[1], p[4] * 256 + p[5]), (p[2] * 256 + p[3], p[6] * 256 + p[7]))
  }

  /** Each value of `get_raw` is an unsigned 16-bit number whose high and low
      bytes are the two parameters it is made of. */
  lemma RawPairsBytes(p: seq<byte>)
    requires |p| >= 8
    ensures var ((raw0, cal0), (raw1, cal1)) := RawPairs(p);
            raw0 / 256 == p[0] && raw0 % 256 == p[1] && raw1 / 256 == p[2] && raw1 % 256 == p[3]
            && cal0 / 256 == p[4] && cal0 % 256 == p[5] && cal1 / 256 == p[6] && cal1 % 256 == p[7]
  {
  }

  /** The answer check at the end of `start_streaming`, on the telegram
      object it received. */
  method StreamingAnswerOf(t: Telegram) returns (r: Result<()>)
    requires t.command.Some?
    ensures r == StreamingAnswer(Decoded(t.stuffed, t.command.value, t.addrTo, t.addrFrom, t.parameterCnt,
                                         t.parameters, t.checksum, t.wchecksum, t.valid))
  {
    if t.command != Some(Ack) {
      if |t.parameters| == 0 {
        return Err(IndexError);
      }
      var code := t.parameters[|t.parameters| - 1];
      if !IsErrorCode(code) {
        return Err(ValueError);
      }
      return Err(ConnectionError(code));
    }
    return Ok(());
  }

  /** What `start_streaming` makes of a decoded answer. */
  function StreamingAnswer(d: Decoded): Result<()>
  {
    if d.command == Ack then Ok(())
    else if |d.parameters| == 0 then Err(IndexError)
    else
      var code := d.parameters[|d.parameters| - 1];
      if IsErrorCode(code) then Err(ConnectionError(code)) else Err(ValueError)
  }
}

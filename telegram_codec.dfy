/** Telegram frames of the command/response protocol (telegram.py, class
    Telegram and the tables before it):

      [STX] stuff(cmd, to, from, count, params..., checksum, wchecksum)

    where stuffing doubles every STX (0x02) byte. */
module TelegramCodec {
  import opened Common
  import Checksum8

  /** Start of text, the frame marker. */
  const STX: byte := 0x02

  /** The members of the `Command` enumeration of telegram.py (STX is one of them). */
  datatype Command =
    | Stx | Ack | Nack | Hello | ReadRaw | ReadStatus | ReadStatusShort | ReadConfig
    | WriteCalibrationControl | WriteConfig | RestartDevice | SetAngleToZero | GotoSpecialMode
  {
    function Code(): byte
    {
      match this
      case Stx => 0x02
      case Ack => 0x06
      case Nack => 0x15
      case Hello => 0x40
      case ReadRaw => 0x41
      case ReadStatus => 0x42
      case ReadStatusShort => 0x43
      case ReadConfig => 0x44
      case WriteCalibrationControl => 0x45
      case WriteConfig => 0x46
      case RestartDevice => 0x49
      case SetAngleToZero => 0x4B
      case GotoSpecialMode => 0x5A
    }
  }

  /** `Command(b)`: the member whose value is `b`; None where Python raises ValueError. */
  function FromCode(b: int): (r: Option<Command>)
    ensures r.Some? ==> r.value.Code() == b
    ensures r.None? ==> forall c: Command :: c.Code() != b
  {
    if b == 0x02 then Some(Stx)
    else if b == 0x06 then Some(Ack)
    else if b == 0x15 then Some(Nack)
    else if b == 0x40 then Some(Hello)
    else if b == 0x41 then Some(ReadRaw)
    else if b == 0x42 then Some(ReadStatus)
    else if b == 0x43 then Some(ReadStatusShort)
    else if b == 0x44 then Some(ReadConfig)
    else if b == 0x45 then Some(WriteCalibrationControl)
    else if b == 0x46 then Some(WriteConfig)
    else if b == 0x49 then Some(RestartDevice)
    else if b == 0x4B then Some(SetAngleToZero)
    else if b == 0x5A then Some(GotoSpecialMode)
    else None
  }

  /** Every command is recovered from its code, so codes are pairwise distinct. */
  lemma FromCodeOfCode(c: Command)
    ensures FromCode(c.Code()) == Some(c)
  {
    match c
    case Stx =>
    case Ack =>
    case Nack =>
    case Hello =>
    case ReadRaw =>
    case ReadStatus =>
    case ReadStatusShort =>
    case ReadConfig =>
    case WriteCalibrationControl =>
    case WriteConfig =>
    case RestartDevice =>
    case SetAngleToZero =>
    case GotoSpecialMode =>
  }

  /** The 'RX' column of `cmd_parameter_counts` as written: four entries hold
      a Command member (ACK or Hello) rather than a count; STX has no entry. */
  function RxTableEntry(c: Command): Option<int>
  {
    match c
    case Stx => None
    case Ack => Some(0)
    case Nack => Some(1)
    case Hello => Some(1)
    case ReadRaw => Some(9)
    case ReadStatus => Some(14)
    case ReadStatusShort => Some(1)
    case ReadConfig => Some(33)
    case WriteConfig => Some(Ack.Code() as int)
    case WriteCalibrationControl => Some(Ack.Code() as int)
    case RestartDevice => Some(Hello.Code() as int)
    case SetAngleToZero => Some(Ack.Code() as int)
    case GotoSpecialMode => Some(Ack.Code() as int)
  }

  /** Length of the response `_recv_telegram` waits for after sending `c`:
      the table entry, with the value of SCMD_ACK read as 0 parameters and the
      value of SCMD_Hello as 1, plus 7 framing bytes; KeyError without an entry. */
  function ExpectedLength(c: Command): Result<int>
  {
    match RxTableEntry(c)
    case None => Err(KeyError)
    case Some(n) =>
      var n1 := if n == Ack.Code() as int then 0 else n;
      var n2 := if n1 == Hello.Code() as int then 1 else n1;
      Ok(n2 + 7)
  }

  /** The effective response lengths: a bare acknowledgement has no parameter,
      a hello one, a raw read nine and a configuration read 33. */
  lemma ExpectedLengths()
    ensures ExpectedLength(Stx) == Err(KeyError)
    ensures ExpectedLength(Ack) == Ok(7) && ExpectedLength(Nack) == Ok(8)
    ensures ExpectedLength(Hello) == Ok(8) && ExpectedLength(ReadRaw) == Ok(16)
    ensures ExpectedLength(ReadStatus) == Ok(21) && ExpectedLength(ReadStatusShort) == Ok(8)
    ensures ExpectedLength(ReadConfig) == Ok(40)
    ensures ExpectedLength(WriteConfig) == Ok(7) && ExpectedLength(WriteCalibrationControl) == Ok(7)
    ensures ExpectedLength(RestartDevice) == Ok(8)
    ensures ExpectedLength(SetAngleToZero) == Ok(7) && ExpectedLength(GotoSpecialMode) == Ok(7)
  {
  }

  // ---------------------------------------------------------------- stuffing

  /** `payload` with every STX byte immediately duplicated. */
  function Stuffed(payload: seq<int>): seq<int>
  {
    if payload == [] then []
    else (if payload[0] == STX then [STX as int, STX as int] else [payload[0]]) + Stuffed(payload[1..])
  }

  lemma {:induction false} StuffedConcat(a: seq<int>, b: seq<int>)
    ensures Stuffed(a + b) == Stuffed(a) + Stuffed(b)
  {
    if a != [] {
      var head := if a[0] == STX then [STX as int, STX as int] else [a[0]];
      assert (a + b)[0] == a[0];
      assert (a + b)[1..] == a[1..] + b;
      assert Stuffed(a + b) == head + Stuffed(a[1..] + b);
      assert Stuffed(a) == head + Stuffed(a[1..]);
      StuffedConcat(a[1..], b);
      assert head + (Stuffed(a[1..]) + Stuffed(b)) == (head + Stuffed(a[1..])) + Stuffed(b);
    } else {
      assert a + b == b;
    }
  }

  /** Stuffing lengthens the payload by one byte per STX it contains. */
  lemma {:induction false} StuffedLength(payload: seq<int>)
    ensures |Stuffed(payload)| == |payload| + Count(payload, STX)
  {
    if payload != [] { StuffedLength(payload[1..]); }
  }

  /** Stuffing leaves a payload unchanged exactly when it holds no STX. */
  lemma StuffedIdentity(payload: seq<int>)
    ensures Stuffed(payload) == payload <==> STX !in payload
  {
    StuffedLength(payload);
    CountZero(payload, STX);
    if STX !in payload { StuffedNoStx(payload); }
  }

  lemma {:induction false} StuffedNoStx(payload: seq<int>)
    requires STX !in payload
    ensures Stuffed(payload) == payload
  {
    if payload != [] {
      assert payload[0] != STX;
      assert STX !in payload[1..];
      StuffedNoStx(payload[1..]);
    }
  }

  lemma {:induction false} CountZero(s: seq<int>, x: int)
    ensures Count(s, x) == 0 <==> x !in s
  {
    if s != [] {
      CountZero(s[1..], x);
      assert s == [s[0]] + s[1..];
    }
  }

  /** Stuffing neither creates nor removes out-of-range values. */
  lemma {:induction false} StuffedBytes(payload: seq<int>)
    ensures IsByteSeq(Stuffed(payload)) <==> IsByteSeq(payload)
  {
    if payload != [] {
      StuffedBytes(payload[1..]);
      var head := if payload[0] == STX then [STX as int, STX as int] else [payload[0]];
      assert Stuffed(payload) == head + Stuffed(payload[1..]);
      if IsByteSeq(payload) {
        assert IsByteSeq(payload[1..]) by {
          forall i | 0 <= i < |payload| - 1 ensures 0 <= payload[1..][i] < 256 {
            assert payload[1..][i] == payload[i + 1];
          }
        }
      }
      if IsByteSeq(Stuffed(payload)) {
        assert Stuffed(payload)[0] == payload[0];
        assert IsByteSeq(Stuffed(payload[1..])) by {
          forall i | 0 <= i < |Stuffed(payload[1..])|
            ensures 0 <= Stuffed(payload[1..])[i] < 256
          {
            assert Stuffed(payload[1..])[i] == Stuffed(payload)[|head| + i];
          }
        }
        forall i | 0 <= i < |payload| ensures 0 <= payload[i] < 256 {
          if i > 0 { assert payload[i] == payload[1..][i - 1]; }
        }
      }
    }
  }

  // ------------------------------------------------------------------ frames

  /** The checksummed items of a telegram. */
  function Items(command: Command, addrTo: int, addrFrom: int, count: int, parameters: seq<int>): seq<int>
  {
    [command.Code() as int, addrTo, addrFrom, count] + parameters
  }

  /** Items followed by their two checksum bytes: what stuffing is applied to. */
  function Sealed(items: seq<int>): seq<int>
  {
    var (cs, wcs) := Checksum8.Checksums(items);
    items + [cs, wcs]
  }

  /** The byte string `serialize` sends for the given items. */
  function Frame(items: seq<int>): seq<int>
  {
    [STX as int] + Stuffed(Sealed(items))
  }

  /** `Telegram(Command.SCMD_ReadRaw).serialize()`: default addresses 0x01 (to)
      and 0xFF (from), no parameters. */
  lemma ReadRawFrame()
    ensures Frame(Items(ReadRaw, 0x01, 0xFF, 0, [])) == [0x02, 0x41, 0x01, 0xFF, 0x00, 0x41, 0x06]
  {
    ReadRawSealed();
    SealedNoStx(Items(ReadRaw, 0x01, 0xFF, 0, []));
  }

  lemma ReadRawSealed()
    ensures Sealed(Items(ReadRaw, 0x01, 0xFF, 0, [])) == [0x41, 0x01, 0xFF, 0x00, 0x41, 0x06]
  {
    var items := Items(ReadRaw, 0x01, 0xFF, 0, []);
    assert items == [0x41, 0x01, 0xFF, 0x00];
    ReadRawChecksums();
  }

  lemma ReadRawChecksums()
    ensures Checksum8.Checksums([0x41, 0x01, 0xFF, 0x00]) == (0x41, 0x06)
  {
    Checksum8.ChecksumsOfFour(0x41, 0x01, 0xFF, 0x00);
    Checksum8.StepOnBytes((0, 0), 0x41);
    Checksum8.StepOnBytes((0x41, 0x41), 0x01);
    Checksum8.StepOnBytes((0x42, 0x83), 0xFF);
    Checksum8.StepOnBytes((0x41, 0xC4), 0x00);
  }

  // ---------------------------------------------------------------- decoding

  /** What `from_bytes` assigns: `stuffMarker` is whether it saw a second STX
      (then `stuffed` becomes True; otherwise it keeps its old value). */
  datatype Decoded = Decoded(
    stuffMarker: bool, command: Command, addrTo: int, addrFrom: int,
    parameterCnt: int, parameters: seq<int>, checksum: int, wchecksum: int, valid: bool)

  /** The bytes after the leading STX, or after two when the second is STX. */
  function Body(raw: seq<int>): seq<int>
    requires |raw| >= 2
  {
    if raw[1] == STX then raw[2..] else raw[1..]
  }

  /** Python's `body[4:-2]` for a body of at least four bytes. */
  function ParameterSlice(body: seq<int>): seq<int>
    requires |body| >= 4
  {
    if |body| - 2 > 4 then body[4..|body| - 2] else []
  }

  /** `from_bytes(raw)` on a telegram whose parameters were `previous`: the
      parameters are replaced only when the count byte is positive; the
      checksums are recomputed and compared with the last two bytes. */
  function Decode(raw: seq<int>, previous: seq<int>): Result<Decoded>
  {
    if |raw| < 2 then Err(IndexError)
    else DecodeBody(raw[1] == STX, Body(raw), previous)
  }

  /** `from_bytes` past the STX bytes, `stuffMarker` being what it saw. */
  function DecodeBody(stuffMarker: bool, body: seq<int>, previous: seq<int>): Result<Decoded>
  {
    if |body| == 0 then Err(IndexError)
    else match FromCode(body[0])
      case None => Err(ValueError)
      case Some(command) =>
        if |body| < 4 then Err(IndexError)
        else
          var parameters := if body[3] > 0 then ParameterSlice(body) else previous;
          var (cs, wcs) := Checksum8.Checksums(Items(command, body[1], body[2], body[3], parameters));
          Ok(Decoded(stuffMarker, command, body[1], body[2], body[3], parameters, cs, wcs,
                     cs == body[|body| - 2] && wcs == body[|body| - 1]))
  }

  /** `DecodeBody` on a body of at least four bytes with a known command. */
  lemma DecodeBodyOk(stuffMarker: bool, body: seq<int>, previous: seq<int>)
    requires |body| >= 4 && FromCode(body[0]).Some?
    ensures var command := FromCode(body[0]).value;
            var parameters := if body[3] > 0 then ParameterSlice(body) else previous;
            var sums := Checksum8.Checksums(Items(command, body[1], body[2], body[3], parameters));
            DecodeBody(stuffMarker, body, previous)
              == Ok(Decoded(stuffMarker, command, body[1], body[2], body[3], parameters, sums.0, sums.1,
                            sums.0 == body[|body| - 2] && sums.1 == body[|body| - 1]))
  {
  }

  /** The count byte only switches between two sources of parameters. A
      positive count takes them from the frame's length, whatever number it
      says, and the previous parameters play no part; any other count keeps
      the previous parameters, whatever bytes the frame carries. */
  lemma CountByteDecidesParameters(raw: seq<int>, previous: seq<int>, other: seq<int>)
    requires Decode(raw, previous).Ok?
    ensures |raw| >= 2 && |Body(raw)| >= 4
    ensures var d := Decode(raw, previous).value;
            d.parameterCnt == Body(raw)[3]
            && (d.parameterCnt > 0 ==> d.parameters == ParameterSlice(Body(raw)) && Decode(raw, other) == Decode(raw, previous))
            && (d.parameterCnt <= 0 ==> d.parameters == previous)
  {
  }

  /** The value of the leading byte is never looked at. */
  lemma FirstByteIgnored(raw: seq<int>, b: int, previous: seq<int>)
    requires |raw| >= 1
    ensures Decode([b] + raw[1..], previous) == Decode(raw, previous)
  {
    var raw' := [b] + raw[1..];
    if |raw| >= 2 {
      assert raw'[1] == raw[1] && raw'[2..] == raw[2..] && raw'[1..] == raw[1..];
    }
  }

  /** A second STX is dropped as a stuffing artifact: the telegram decodes as
      if it were absent, with the stuffed marker set. */
  lemma StuffedHeaderDropped(x: int, body: seq<int>, previous: seq<int>)
    requires |body| >= 1 && body[0] != STX
    ensures var plain := Decode([x] + body, previous);
            var marked := Decode([x, STX as int] + body, previous);
            (plain.Err? ==> marked == plain) &&
            (plain.Ok? ==> marked == Ok(plain.value.(stuffMarker := true)) && !plain.value.stuffMarker)
  {
    assert ([x] + body)[1..] == body;
    assert ([x, STX as int] + body)[2..] == body;
  }

  /** An unknown command code is rejected with ValueError. */
  lemma UnknownCommandRejected(raw: seq<int>, previous: seq<int>)
    requires |raw| >= 2 && |Body(raw)| >= 1 && FromCode(Body(raw)[0]).None?
    ensures Decode(raw, previous) == Err(ValueError)
  {
  }

  /** A frame whose sealed items hold no STX is sent without stuffing. */
  lemma SealedNoStx(items: seq<int>)
    requires STX !in Sealed(items)
    ensures Frame(items) == [STX as int] + Sealed(items)
  {
    StuffedNoStx(Sealed(items));
  }

  /** Round trip: when no byte of the items or of their checksums is STX,
      decoding the serialized frame gives back the command, addresses and
      parameters, with `valid` set and no stuffing marker. A telegram that
      still holds parameters keeps them when the count byte is 0, and then
      checksums them, so the object decoded into must be empty in that case. */
  lemma DecodeFrame(command: Command, addrTo: int, addrFrom: int, parameters: seq<int>, previous: seq<int>)
    requires |parameters| <= 255 && (|parameters| > 0 || previous == [])
    requires STX !in Sealed(Items(command, addrTo, addrFrom, |parameters|, parameters))
    ensures var items := Items(command, addrTo, addrFrom, |parameters|, parameters);
            var (cs, wcs) := Checksum8.Checksums(items);
            Decode(Frame(items), previous) ==
              Ok(Decoded(false, command, addrTo, addrFrom, |parameters|, parameters, cs, wcs, true))
  {
    var items := Items(command, addrTo, addrFrom, |parameters|, parameters);
    SealedNoStx(items);
    var frame := Frame(items);
    var sealed := Sealed(items);
    assert frame == [STX as int] + sealed;
    assert sealed[0] == command.Code();
    assert frame[1] == sealed[0] != STX;
    assert Body(frame) == sealed;
    FromCodeOfCode(command);
    assert sealed[1] == addrTo && sealed[2] == addrFrom && sealed[3] == |parameters|;
    assert sealed[4..|sealed| - 2] == parameters;
    var params' := if sealed[3] > 0 then ParameterSlice(sealed) else previous;
    assert params' == parameters;
  }

  /** Changing the last byte, or the one before it, of a frame whose body
      holds at least the header and the two checksum bytes changes nothing
      but `valid`, which is then False if it was True. */
  lemma CorruptedTrailerInvalid(raw: seq<int>, previous: seq<int>, back: int, b: int)
    requires |raw| >= 7 && (|raw| >= 8 || raw[1] != STX) && (back == 1 || back == 2) && b != raw[|raw| - back]
    requires Decode(raw, previous).Ok?
    ensures var d := Decode(raw, previous).value;
            var d' := Decode(raw[|raw| - back := b], previous);
            d'.Ok? && d'.value == d.(valid := d'.value.valid) && (d.valid ==> !d'.value.valid)
  {
    var raw' := raw[|raw| - back := b];
    var body, body' := Body(raw), Body(raw');
    assert raw'[1] == raw[1];
    assert |body'| == |body| && body'[..|body| - 2] == body[..|body| - 2];
    assert body'[|body| - back] == b;
    assert forall i :: 0 <= i < |body| - 2 ==> body'[i] == body[i];
    if body[3] > 0 {
      assert ParameterSlice(body') == ParameterSlice(body);
    }
  }

  // ---------------------------------------------------------------- the class

  /** A telegram object as telegram.py keeps it; `FromBytes` fills it in place. */
  class Telegram {
    var command: Option<Command>
    var addrTo: int
    var addrFrom: int
    var parameters: seq<int>
    var parameterCnt: int
    var checksum: int
    var wchecksum: int
    var stuffed: bool
    var valid: bool

    /** The checksummed items of this telegram. */
    function CurrentItems(): seq<int>
      reads this
      requires command.Some?
    {
      Items(command.value, addrTo, addrFrom, parameterCnt, parameters)
    }

    /** `Telegram(command, addr_from, addr_to, parameters)`: the count is the
        length of the parameters, and the checksums are computed when a
        command is given and left 0 otherwise. */
    constructor (command: Option<Command>, addrFrom: int, addrTo: int, parameters: seq<int>)
      ensures this.command == command && this.addrTo == addrTo && this.addrFrom == addrFrom
      ensures this.parameters == parameters && parameterCnt == |parameters|
      ensures !stuffed && !valid
      ensures command.Some? ==> (checksum, wchecksum) == Checksum8.Checksums(CurrentItems())
      ensures command.None? ==> checksum == 0 && wchecksum == 0
    {
      this.command := command;
      this.addrTo := addrTo;
      this.addrFrom := addrFrom;
      this.parameters := parameters;
      parameterCnt := |parameters|;
      checksum, wchecksum := 0, 0;
      stuffed, valid := false, false;
      new;
      if command.Some? {
        var sums := CalcChecksums();
        checksum, wchecksum := sums.value.0, sums.value.1;
      }
    }

    /** `calc_checksums`: TypeError without a command (Python adds None). */
    method CalcChecksums() returns (r: Result<(int, int)>)
      ensures command.None? ==> r == Err(TypeError)
      ensures command.Some? ==> r == Ok(Checksum8.Checksums(CurrentItems()))
    {
      if command.None? {
        return Err(TypeError);
      }
      var tg := [command.value.Code() as int, addrTo, addrFrom, parameterCnt] + parameters;
      var cs, wcs := 0, 0;
      for i := 0 to |tg|
        invariant (cs, wcs) == Checksum8.Checksums(tg[..i])
      {
        assert tg[..i + 1][..i] == tg[..i];
        cs := (cs + tg[i]) % 256;  // `& 0xFF` on a Python int
        wcs := wcs + cs;
        if wcs > 0xFF {
          wcs := wcs + 1;
        }
        wcs := wcs % 256;
      }
      assert tg[..|tg|] == tg;
      return Ok((cs, wcs));
    }

    /** `stuff`: the payload with every STX doubled. */
    method Stuff(payload: seq<int>) returns (out: seq<int>)
      ensures out == Stuffed(payload)
    {
      out := [];
      for i := 0 to |payload|
        invariant out == Stuffed(payload[..i])
      {
        StuffedConcat(payload[..i], [payload[i]]);
        assert payload[..i + 1] == payload[..i] + [payload[i]];
        out := out + [payload[i]];
        if payload[i] == STX {
          out := out + [payload[i]];
        }
      }
      assert payload[..|payload|] == payload;
    }

    /** `serialize`: TypeError without a command, ValueError when an item is
        not a byte (`bytes(...)`), otherwise the frame of the items. */
    method Serialize() returns (r: Result<seq<byte>>)
      ensures command.None? ==> r == Err(TypeError)
      ensures command.Some? ==> (r.Ok? <==> IsByteSeq(CurrentItems()))
      ensures command.Some? && r.Ok? ==> r.value == Frame(CurrentItems())
      ensures command.Some? && r.Err? ==> r.error == ValueError
    {
      var sums := CalcChecksums();
      if sums.Err? {
        return Err(sums.error);
      }
      var tg := [command.value.Code() as int, addrTo, addrFrom, parameterCnt] + parameters;
      tg := tg + [sums.value.0, sums.value.1];
      var stuffed := Stuff(tg);
      var frame := [STX as int] + stuffed;
      StuffedBytes(tg);
      if exists i :: 0 <= i < |frame| && !(0 <= frame[i] < 256) {
        assert !IsByteSeq(CurrentItems()) by {
          var i :| 0 <= i < |frame| && !(0 <= frame[i] < 256);
          assert stuffed[i - 1] == frame[i];
          var j :| 0 <= j < |tg| && !(0 <= tg[j] < 256);
          assert j < |CurrentItems()| && tg[j] == CurrentItems()[j];
        }
        return Err(ValueError);
      }
      assert IsByteSeq(stuffed) by {
        forall i | 0 <= i < |stuffed| ensures 0 <= stuffed[i] < 256 {
          assert stuffed[i] == frame[i + 1];
        }
      }
      assert IsByteSeq(CurrentItems()) by {
        forall i | 0 <= i < |CurrentItems()| ensures 0 <= CurrentItems()[i] < 256 {
          assert CurrentItems()[i] == tg[i];
        }
      }
      return Ok(frame);
    }

    /** `body[4:-2]`, collected byte by byte. */
    static method SliceParameters(body: seq<int>) returns (collected: seq<int>)
      requires |body| >= 4
      ensures collected == ParameterSlice(body)
    {
      collected := [];
      var stop := if |body| - 2 > 4 then |body| - 2 else 4;
      for i := 4 to stop
        invariant collected == body[4..i]
      {
        collected := collected + [body[i]];
      }
    }

    /** `from_bytes`: fills this telegram from `raw` as `Decode` describes.
        The stuffed flag is only ever set, never cleared. On failure the
        checksums, count, parameters and `valid` are left as they were. */
    method FromBytes(raw: seq<byte>) returns (r: Result<()>)
      modifies this
      ensures stuffed == (old(stuffed) || (|raw| >= 2 && raw[1] == STX))
      ensures r.Ok? <==> Decode(raw, old(parameters)).Ok?
      ensures r.Err? ==> Decode(raw, old(parameters)) == Err(r.error)
      ensures r.Err? ==> checksum == old(checksum) && wchecksum == old(wchecksum) && valid == old(valid)
                         && parameters == old(parameters) && parameterCnt == old(parameterCnt)
      ensures r.Ok? ==>
        var d := Decode(raw, old(parameters)).value;
        command == Some(d.command) && addrTo == d.addrTo && addrFrom == d.addrFrom
        && parameterCnt == d.parameterCnt && parameters == d.parameters
        && checksum == d.checksum && wchecksum == d.wchecksum && valid == d.valid
    {
      if |raw| < 2 {
        return Err(IndexError);
      }
      var body: seq<int>;
      if raw[1] == STX {
        body := raw[2..];
        stuffed := true;
      } else {
        body := raw[1..];
      }
      assert body == Body(raw);
      r := LoadBody(raw[1] == STX, body);
    }

    /** The part of `from_bytes` after the STX bytes. */
    method LoadBody(ghost stuffMarker: bool, body: seq<int>) returns (r: Result<()>)
      modifies this
      ensures stuffed == old(stuffed)
      ensures r.Ok? <==> DecodeBody(stuffMarker, body, old(parameters)).Ok?
      ensures r.Err? ==> DecodeBody(stuffMarker, body, old(parameters)) == Err(r.error)
      ensures r.Err? ==> checksum == old(checksum) && wchecksum == old(wchecksum) && valid == old(valid)
                         && parameters == old(parameters) && parameterCnt == old(parameterCnt)
      ensures r.Ok? ==>
        var d := DecodeBody(stuffMarker, body, old(parameters)).value;
        command == Some(d.command) && addrTo == d.addrTo && addrFrom == d.addrFrom
        && parameterCnt == d.parameterCnt && parameters == d.parameters
        && checksum == d.checksum && wchecksum == d.wchecksum && valid == d.valid
    {
      if |body| == 0 {
        return Err(IndexError);
      }
      var c := FromCode(body[0]);
      if c.None? {
        return Err(ValueError);
      }
      command := c;
      if |body| < 4 {
        return Err(IndexError);
      }
      LoadFields(c.value, body);
      DecodeBodyOk(stuffMarker, body, old(parameters));
      return Ok(());
    }

    /** The header fields, the parameters and the recomputed checksums of a
        body of at least four bytes whose command is known. */
    method LoadFields(c: Command, body: seq<int>)
      requires |body| >= 4
      modifies this
      ensures command == Some(c) && stuffed == old(stuffed)
      ensures addrTo == body[1] && addrFrom == body[2] && parameterCnt == body[3]
      ensures parameters == if body[3] > 0 then ParameterSlice(body) else old(parameters)
      ensures (checksum, wchecksum) == Checksum8.Checksums(Items(c, body[1], body[2], body[3], parameters))
      ensures valid == (checksum == body[|body| - 2] && wchecksum == body[|body| - 1])
    {
      command := Some(c);
      addrTo := body[1];
      addrFrom := body[2];
      parameterCnt := body[3];
      if parameterCnt > 0 {
        parameters := SliceParameters(body);
      }
      var sums := CalcChecksums();
      checksum, wchecksum := sums.value.0, sums.value.1;
      valid := checksum == body[|body| - 2] && wchecksum == body[|body| - 1];
    }
  }
}

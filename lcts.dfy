/** The procedural codec of LCTSfunctions.py: class `Methods` (receive path,
    checksums, hex conversion, value decoding) and class `BytearrayCommands`
    (request builders). Frames here always start with two STX bytes and are
    never stuffed. Command codes are this file's own; they differ from
    telegram.py for RestartDevice. */
module Lcts {
  import opened Common
  import Checksum8

  const STX: byte := 0x02
  const CR: byte := 0x0D
  const LF: byte := 0x0A

  const AckCode: byte := 0x06
  const NackCode: byte := 0x15
  const HelloCode: byte := 0x40
  const ReadRawCode: byte := 0x41
  const ReadStatusCode: byte := 0x42
  const ReadStatusShortCode: byte := 0x43
  const ReadConfigCode: byte := 0x44
  const WriteFullStrokeCode: byte := 0x45
  const WriteConfigCode: byte := 0x46
  const RestartDeviceCode: byte := 0x4B
  const GotoSpecialModeCode: byte := 0x5A

  // ---------------------------------------------------------- receive path

  /** `CleanTg`: drop a trailing CR LF, then up to two leading STX bytes;
      `tg[0]` on an empty telegram is an IndexError. */
  function CleanTg(tg: seq<byte>): Result<seq<byte>>
  {
    var t := if |tg| >= 2 && tg[|tg| - 2..] == [CR, LF] then tg[..|tg| - 2] else tg;
    if |t| == 0 then Err(IndexError)
    else
      var t1 := if t[0] == STX then t[1..] else t;
      if |t1| == 0 then Err(IndexError)
      else Ok(if t1[0] == STX then t1[1..] else t1)
  }

  /** `r` is `tg` with its first `k` bytes, all STX, and its last `j`
      bytes, a CR LF trailer when `j` is 2, cut off. */
  predicate CutFrom(tg: seq<byte>, r: seq<byte>, k: int, j: int)
  {
    0 <= k <= 2 && (j == 0 || j == 2) && k + j <= |tg| && r == tg[k..|tg| - j]
    && (forall i :: 0 <= i < k ==> tg[i] == STX)
    && (j == 2 ==> tg[|tg| - 2..] == [CR, LF])
  }

  /** What `CleanTg` leaves is `tg` without its CR LF trailer exactly when
      it had one, and without its leading STX bytes, up to two: fewer than
      two are cut only when the next byte is not STX. */
  lemma CleanTgShape(tg: seq<byte>)
    requires CleanTg(tg).Ok?
    ensures exists k, j :: CutFrom(tg, CleanTg(tg).value, k, j)
                           && (j == 2 <==> |tg| >= 2 && tg[|tg| - 2..] == [CR, LF])
                           && (k < 2 ==> k < |tg| - j && tg[k] != STX)
  {
    var t := if |tg| >= 2 && tg[|tg| - 2..] == [CR, LF] then tg[..|tg| - 2] else tg;
    var j := if |tg| >= 2 && tg[|tg| - 2..] == [CR, LF] then 2 else 0;
    assert t == tg[0..|tg| - j];
    var k1 := if t[0] == STX then 1 else 0;
    var t1 := t[k1..];
    var k := if t1[0] == STX then k1 + 1 else k1;
    assert CleanTg(tg).value == tg[k..|tg| - j];
    assert CutFrom(tg, CleanTg(tg).value, k, j)
           && (j == 2 <==> |tg| >= 2 && tg[|tg| - 2..] == [CR, LF])
           && (k < 2 ==> k < |tg| - j && tg[k] != STX);
  }

  /** A double-STX frame comes out of `CleanTg` as its body. */
  lemma CleanDoubleStx(body: seq<byte>)
    requires |body| >= 1 && !(|body| >= 2 && body[|body| - 2..] == [CR, LF])
    ensures CleanTg([STX, STX] + body) == Ok(body)
  {
    var tg := [STX, STX] + body;
    assert tg[|tg| - 2..] != [CR, LF] by {
      if |body| >= 2 {
        assert tg[|tg| - 2..] == body[|body| - 2..];
      } else {
        assert tg[|tg| - 2] == STX;
      }
    }
    assert tg[1..][1..] == body;
  }

  /** `Methods.CalcChecksums`: the 8-bit checksum pair of the items. */
  method CalcChecksums(tg: seq<int>) returns (r: seq<int>)
    ensures r == [Checksum8.Checksums(tg).0, Checksum8.Checksums(tg).1]
  {
    var checksum, wchecksum := 0, 0;
    for i := 0 to |tg|
      invariant (checksum, wchecksum) == Checksum8.Checksums(tg[..i])
    {
      assert tg[..i + 1][..i] == tg[..i];
      checksum := checksum + tg[i];
      checksum := checksum % 256;
      wchecksum := wchecksum + checksum;
      if wchecksum > 0xFF {
        wchecksum := wchecksum + 1;
      }
      wchecksum := wchecksum % 256;
    }
    assert tg[..|tg|] == tg;
    return [checksum, wchecksum];
  }

  /** Python `tg[:-2]` */
  function DropLast2(s: seq<int>): seq<int>
  {
    if |s| >= 2 then s[..|s| - 2] else []
  }

  /** Python `tg[-2:]` */
  function LastTwo(s: seq<int>): seq<int>
  {
    if |s| >= 2 then s[|s| - 2..] else s
  }

  /** `CheckChecksums`: the last two bytes are the checksum pair of the rest. */
  function CheckChecksums(tg: seq<int>): (r: bool)
    ensures r <==> |tg| >= 2 && Checksum8.Checksums(tg[..|tg| - 2]) == (tg[|tg| - 2], tg[|tg| - 1])
  {
    var cs := Checksum8.Checksums(DropLast2(tg));
    [cs.0, cs.1] == LastTwo(tg)
  }

  /** Items followed by their checksum pair pass the check ... */
  lemma SealedPasses(items: seq<int>)
    ensures CheckChecksums(items + [Checksum8.Checksums(items).0, Checksum8.Checksums(items).1])
  {
    var s := items + [Checksum8.Checksums(items).0, Checksum8.Checksums(items).1];
    assert s[..|s| - 2] == items;
  }

  /** ... and changing any one byte of the items makes it fail. */
  lemma CorruptedItemFails(items: seq<int>, i: int, b: byte)
    requires 0 <= i < |items| && 0 <= items[i] < 256 && b != items[i]
    ensures !CheckChecksums(items[i := b] + [Checksum8.Checksums(items).0, Checksum8.Checksums(items).1])
  {
    var s := items[i := b] + [Checksum8.Checksums(items).0, Checksum8.Checksums(items).1];
    assert s[..|s| - 2] == items[i := b];
    Checksum8.SingleByteChangeDetected(items, i, b);
  }

  /** Python `t[4:-2]` */
  function Slice4To2(t: seq<int>): seq<int>
  {
    if |t| - 2 > 4 then t[4..|t| - 2] else []
  }

  /** `ReceiveTg`: clean, check, then (command, parameters); None when the
      checksums do not match. */
  function ReceiveTg(code: seq<byte>): Result<Option<(int, seq<int>)>>
  {
    match CleanTg(code)
    case Err(e) => Err(e)
    case Ok(t) =>
      if !CheckChecksums(t) then Ok(None)
      else if |t| < 4 then Err(IndexError)
      else Ok(Some((t[0], if t[3] == 0 then [] else Slice4To2(t))))
  }

  // ---------------------------------------------------------------- builders

  /** `[STX, STX, command, rx, tx, n] + params` followed by the checksum pair
      of everything after the two STX bytes; nothing is stuffed. */
  function BuildTelegram(command: int, rx: int, tx: int, params: seq<int>): seq<int>
  {
    var telegram := [STX as int, STX as int, command, rx, tx, |params|] + params;
    var cs := Checksum8.Checksums(telegram[2..]);
    telegram + [cs.0, cs.1]
  }

  /** `bytearray(...)`: ValueError unless every element is a byte. */
  function ToBytearray(s: seq<int>): Result<seq<byte>>
  {
    if IsByteSeq(s) then Ok(s) else Err(ValueError)
  }

  function Hello(): seq<int>
  {
    BuildTelegram(HelloCode, 0x00, 0x01, [])
  }

  function ReadRaw(): seq<int>
  {
    BuildTelegram(ReadRawCode, 0x01, 0xFF, [])
  }

  function ReadStatus(): seq<int>
  {
    BuildTelegram(ReadStatusCode, 0x01, 0xFF, [])
  }

  function ReadStatusShort(): seq<int>
  {
    BuildTelegram(ReadStatusShortCode, 0x01, 0xFF, [])
  }

  function RestartDevice(): seq<int>
  {
    BuildTelegram(RestartDeviceCode, 0x01, 0xFF, [])
  }

  /** `ReadConfig(block)`: ValueError when the block number is not a byte. */
  function ReadConfig(block: int): Result<seq<byte>>
  {
    ToBytearray(BuildTelegram(ReadConfigCode, 0x01, 0xFF, [block]))
  }

  /** `WriteFullStroke(on)` sends `int(on)`. */
  function WriteFullStroke(on: bool): seq<int>
  {
    BuildTelegram(WriteFullStrokeCode, 0x01, 0xFF, [if on then 1 else 0])
  }

  /** `WriteConfig(params)`: appends the parameters one by one; ValueError
      when one is not a byte or there are more than 255. */
  method WriteConfig(params: seq<int>) returns (r: Result<seq<byte>>)
    ensures r == ToBytearray(BuildTelegram(WriteConfigCode, 0x01, 0xFF, params))
  {
    var telegram := [STX as int, STX as int, WriteConfigCode as int, 0x01, 0xFF, |params|];
    for i := 0 to |params|
      invariant telegram == [STX as int, STX as int, WriteConfigCode as int, 0x01, 0xFF, |params|] + params[..i]
    {
      telegram := telegram + [params[i]];
      assert params[..i + 1] == params[..i] + [params[i]];
    }
    assert params[..|params|] == params;
    var checksums := CalcChecksums(telegram[2..]);
    telegram := telegram + checksums;
    if exists k :: 0 <= k < |telegram| && !(0 <= telegram[k] < 256) {
      return Err(ValueError);
    }
    return Ok(telegram);
  }

  /** Every builder's frame: 8 + n bytes, two STX, the header, the
      parameters unstuffed, then a checksum pair that `CheckChecksums`
      accepts over everything after the two STX bytes. */
  lemma BuildShape(command: int, rx: int, tx: int, params: seq<int>)
    ensures var t := BuildTelegram(command, rx, tx, params);
            |t| == 8 + |params| && t[..6] == [STX as int, STX as int, command, rx, tx, |params|]
            && t[6..6 + |params|] == params && CheckChecksums(t[2..])
  {
    var telegram := [STX as int, STX as int, command, rx, tx, |params|] + params;
    var items := [command, rx, tx, |params|] + params;
    assert telegram[2..] == items;
    var t := BuildTelegram(command, rx, tx, params);
    assert t == telegram + [Checksum8.Checksums(items).0, Checksum8.Checksums(items).1];
    assert t[2..] == items + [Checksum8.Checksums(items).0, Checksum8.Checksums(items).1];
    SealedPasses(items);
  }

  /** The frame of a request without parameters, given its checksum pair. */
  lemma EmptyRequestFrame(command: int, rx: int, tx: int, cs: int, wcs: int)
    requires Checksum8.Checksums([command, rx, tx, 0]) == (cs, wcs)
    ensures BuildTelegram(command, rx, tx, []) == [STX as int, STX as int, command, rx, tx, 0, cs, wcs]
  {
    assert ([STX as int, STX as int, command, rx, tx, 0] + [])[2..] == [command, rx, tx, 0];
  }

  /** The Hello request, byte for byte. */
  lemma HelloFrame()
    ensures Hello() == [0x02, 0x02, 0x40, 0x00, 0x01, 0x00, 0x41, 0x03]
  {
    Checksum8.ChecksumsOfFour(0x40, 0x00, 0x01, 0x00);
    Checksum8.StepOnBytes((0, 0), 0x40);
    Checksum8.StepOnBytes((0x40, 0x40), 0x00);
    Checksum8.StepOnBytes((0x40, 0x80), 0x01);
    Checksum8.StepOnBytes((0x41, 0xC1), 0x00);
    EmptyRequestFrame(HelloCode, 0x00, 0x01, 0x41, 0x03);
  }

  /** The ReadRaw request, byte for byte. */
  lemma ReadRawFrame()
    ensures ReadRaw() == [0x02, 0x02, 0x41, 0x01, 0xFF, 0x00, 0x41, 0x06]
  {
    Checksum8.ChecksumsOfFour(0x41, 0x01, 0xFF, 0x00);
    Checksum8.StepOnBytes((0, 0), 0x41);
    Checksum8.StepOnBytes((0x41, 0x41), 0x01);
    Checksum8.StepOnBytes((0x42, 0x83), 0xFF);
    Checksum8.StepOnBytes((0x41, 0xC4), 0x00);
    EmptyRequestFrame(ReadRawCode, 0x01, 0xFF, 0x41, 0x06);
  }

  /** The header of every request without parameters: two STX, the command
      code of this file, receiver and transmitter (0x00 and 0x01 for Hello,
      0x01 and 0xFF otherwise) and a zero count; eight bytes in all. */
  lemma RequestHeaders()
    ensures Hello()[..6] == [0x02, 0x02, 0x40, 0x00, 0x01, 0x00] && |Hello()| == 8
    ensures ReadRaw()[..6] == [0x02, 0x02, 0x41, 0x01, 0xFF, 0x00] && |ReadRaw()| == 8
    ensures ReadStatus()[..6] == [0x02, 0x02, 0x42, 0x01, 0xFF, 0x00] && |ReadStatus()| == 8
    ensures ReadStatusShort()[..6] == [0x02, 0x02, 0x43, 0x01, 0xFF, 0x00] && |ReadStatusShort()| == 8
    ensures RestartDevice()[..6] == [0x02, 0x02, 0x4B, 0x01, 0xFF, 0x00] && |RestartDevice()| == 8
  {
    BuildShape(HelloCode, 0x00, 0x01, []);
    BuildShape(ReadRawCode, 0x01, 0xFF, []);
    BuildShape(ReadStatusCode, 0x01, 0xFF, []);
    BuildShape(ReadStatusShortCode, 0x01, 0xFF, []);
    BuildShape(RestartDeviceCode, 0x01, 0xFF, []);
  }

  /** `ReadConfig(block)` succeeds exactly for a block number that is a
      byte, and then carries it as its one parameter. */
  lemma ReadConfigBlock(block: int)
    ensures ReadConfig(block).Ok? <==> 0 <= block < 256
    ensures ReadConfig(block).Ok? ==>
              var t := ReadConfig(block).value;
              |t| == 9 && t[..6] == [0x02, 0x02, 0x44, 0x01, 0xFF, 0x01] && t[6] == block
  {
    var t := BuildTelegram(ReadConfigCode, 0x01, 0xFF, [block]);
    BuildShape(ReadConfigCode, 0x01, 0xFF, [block]);
    if 0 <= block < 256 {
      assert IsByteSeq(t) by {
        forall i | 0 <= i < |t| ensures 0 <= t[i] < 256 {
          if i < 6 {
            assert t[i] == t[..6][i];
          } else if i == 6 {
            assert t[i] == t[6..7][0];
          }
        }
      }
    } else {
      assert t[6..7] == [block];
    }
  }

  /** `WriteFullStroke` carries one parameter, 1 for on and 0 for off. */
  lemma WriteFullStrokeParameter(on: bool)
    ensures var t := WriteFullStroke(on);
            |t| == 9 && t[5] == 1 && t[6] == (if on then 1 else 0) && IsByteSeq(t)
  {
  }

  /** Round trip: whatever any builder sends, `ReceiveTg` gives back its
      command and parameters, unless its checksum pair happens to be CR LF
      (which `CleanTg` strips). */
  lemma ReceiveBuilt(command: byte, rx: byte, tx: byte, params: seq<byte>)
    requires |params| <= 255
    requires var t := BuildTelegram(command, rx, tx, params); t[|t| - 2..] != [CR, LF]
    ensures ReceiveTg(BuildTelegram(command, rx, tx, params)) == Ok(Some((command as int, params)))
  {
    var t := BuildTelegram(command, rx, tx, params);
    BuildShape(command, rx, tx, params);
    var body: seq<byte> := t[2..];
    assert t == [STX, STX] + body;
    assert body[|body| - 2..] == t[|t| - 2..];
    CleanDoubleStx(body);
    if |params| > 0 {
      assert body[4..|body| - 2] == params;
    }
  }

  // ------------------------------------------------------ hex conversion

  function HexChar(d: int): char
    requires 0 <= d < 16
  {
    if d < 10 then ('0' as int + d) as char else ('a' as int + d - 10) as char
  }

  /** Lower-case hexadecimal digits of `n`, without padding. */
  function HexDigits(n: nat): (r: string)
    ensures |r| >= 1
  {
    if n < 16 then [HexChar(n)] else HexDigits(n / 16) + [HexChar(n % 16)]
  }

  /** Python `hex(n)` */
  function Hex(n: int): string
  {
    if n < 0 then "-0x" + HexDigits(-n) else "0x" + HexDigits(n)
  }

  /** The value of a hexadecimal digit, either case; -1 for anything else. */
  function DigitValue(c: char): int
  {
    if '0' <= c <= '9' then c as int - '0' as int
    else if 'a' <= c <= 'f' then c as int - 'a' as int + 10
    else if 'A' <= c <= 'F' then c as int - 'A' as int + 10
    else -1
  }

  predicate AllHexDigits(s: string)
  {
    forall i :: 0 <= i < |s| ==> DigitValue(s[i]) >= 0
  }

  function DigitsValue(s: string): int
  {
    if s == [] then 0 else DigitsValue(s[..|s| - 1]) * 16 + DigitValue(s[|s| - 1])
  }

  /** Python `int(s, 16)`: an optional sign, an optional 0x/0X prefix and at
      least one hexadecimal digit; anything else is a ValueError. */
  function ParseHex(s: string): Result<int>
  {
    var neg := |s| > 0 && s[0] == '-';
    var body := if |s| > 0 && (s[0] == '-' || s[0] == '+') then s[1..] else s;
    var digits := if |body| >= 2 && body[0] == '0' && (body[1] == 'x' || body[1] == 'X') then body[2..] else body;
    if digits == [] || !AllHexDigits(digits) then Err(ValueError)
    else Ok(if neg then -DigitsValue(digits) else DigitsValue(digits))
  }

  lemma {:induction false} HexDigitsValue(n: nat)
    ensures AllHexDigits(HexDigits(n)) && DigitsValue(HexDigits(n)) == n
  {
    if n >= 16 {
      HexDigitsValue(n / 16);
      var s := HexDigits(n);
      assert s[..|s| - 1] == HexDigits(n / 16);
      assert DigitValue(HexChar(n % 16)) == n % 16;
    } else {
      assert DigitValue(HexChar(n)) == n;
    }
  }

  /** `int(hex(n), 16) == n` for every integer. */
  lemma ParseHexOfHex(n: int)
    ensures ParseHex(Hex(n)) == Ok(n)
  {
    if n < 0 {
      ParseNegHexDigits(-n);
    } else {
      ParseHexDigits(n);
    }
  }

  lemma ParseHexDigits(n: nat)
    ensures ParseHex("0x" + HexDigits(n)) == Ok(n)
  {
    HexDigitsValue(n);
    ParsePrefixed(HexDigits(n));
  }

  lemma ParseNegHexDigits(n: nat)
    ensures ParseHex("-0x" + HexDigits(n)) == Ok(-(n as int))
  {
    HexDigitsValue(n);
    ParseNegPrefixed(HexDigits(n));
  }

  /** A list element before or after `ToHex`. */
  datatype Item = IntItem(n: int) | StrItem(s: string)

  /** Index of the first element `hex` cannot take (a string), or the length. */
  function FirstString(s: seq<Item>): (k: nat)
    ensures k <= |s| && (forall j :: 0 <= j < k ==> s[j].IntItem?) && (k < |s| ==> s[k].StrItem?)
  {
    if s == [] then 0 else if s[0].StrItem? then 0 else 1 + FirstString(s[1..])
  }

  lemma {:induction false} FirstStringAt(s: seq<Item>, i: int)
    requires 0 <= i <= |s| && (forall j :: 0 <= j < i ==> s[j].IntItem?) && (i < |s| ==> s[i].StrItem?)
    ensures FirstString(s) == i
  {
    if i > 0 {
      FirstStringAt(s[1..], i - 1);
    }
  }

  /** `ToHex`: replaces the elements in place by their `hex`; a string
      element is a TypeError, with the elements before it already replaced. */
  method ToHex(a: array<Item>) returns (r: Result<array<Item>>)
    modifies a
    ensures var k := FirstString(old(a[..]));
            (forall j :: 0 <= j < k ==> a[j] == StrItem(Hex(old(a[j]).n)))
            && (forall j :: k <= j < a.Length ==> a[j] == old(a[j]))
            && r == (if k == a.Length then Ok(a) else Err(TypeError))
  {
    var i := 0;
    while i < a.Length
      invariant 0 <= i <= a.Length
      invariant forall j :: 0 <= j < i ==> old(a[j]).IntItem? && a[j] == StrItem(Hex(old(a[j]).n))
      invariant forall j :: i <= j < a.Length ==> a[j] == old(a[j])
    {
      if a[i].StrItem? {
        FirstStringAt(old(a[..]), i);
        return Err(TypeError);
      }
      a[i] := StrItem(Hex(a[i].n));
      i := i + 1;
    }
    FirstStringAt(old(a[..]), i);
    return Ok(a);
  }

  /** What `ToHex` makes of a list of integers. */
  function HexAll(s: seq<int>): (r: seq<string>)
    ensures |r| == |s|
  {
    seq(|s|, i requires 0 <= i < |s| => Hex(s[i]))
  }

  /** Every converted element parses back to the integer it came from. */
  lemma HexAllParses(s: seq<int>)
    ensures forall i :: 0 <= i < |s| ==> ParseHex(HexAll(s)[i]) == Ok(s[i])
  {
    forall i | 0 <= i < |s| ensures ParseHex(HexAll(s)[i]) == Ok(s[i]) {
      ParseHexOfHex(s[i]);
    }
  }

  // ------------------------------------------------------ ReadRaw values

  /** Python `s[2:]` */
  function Drop2(s: string): string
  {
    if |s| >= 2 then s[2..] else []
  }

  /** `int(hi + lo[2:], 16)`: the two hex strings concatenated. */
  function Concat16(hi: string, lo: string): Result<int>
  {
    ParseHex(hi + Drop2(lo))
  }

  /** `GetRaw` as written: None for no telegram or another command, the
      four concatenated channel values and the full-stroke flag otherwise.
      The parameters are bytes (they come from `ReceiveTg`), so parsing
      never fails and only a short list raises. */
  function GetRaw(commandPara: Option<(int, seq<byte>)>): Result<Option<seq<int>>>
  {
    if commandPara.None? then Ok(None)
    else
      var (command, params) := commandPara.value;
      var p := HexAll(params);
      if command != ReadRawCode then Ok(None)
      else if |p| < 9 then Err(IndexError)
      else
        match (Concat16(p[0], p[1]), Concat16(p[2], p[3]), Concat16(p[4], p[5]), Concat16(p[6], p[7]), ParseHex(p[8]))
        case (Ok(m0), Ok(m1), Ok(c0), Ok(c1), Ok(flag)) => Ok(Some([m0, m1, c0, c1, flag]))
        case _ => Err(ValueError)
  }

  lemma DigitsAppend(s: string, c: char)
    ensures DigitsValue(s + [c]) == DigitsValue(s) * 16 + DigitValue(c)
  {
    assert (s + [c])[..|s|] == s;
  }

  lemma AllHexDigitsConcat(s: string, t: string)
    requires AllHexDigits(s) && AllHexDigits(t)
    ensures AllHexDigits(s + t)
  {
    forall i | 0 <= i < |s + t| ensures DigitValue((s + t)[i]) >= 0 {
      if i >= |s| {
        assert (s + t)[i] == t[i - |s|];
      }
    }
  }

  /** `int("0x" + digits, 16)` */
  lemma ParsePrefixed(digits: string)
    requires digits != [] && AllHexDigits(digits)
    ensures ParseHex("0x" + digits) == Ok(DigitsValue(digits))
  {
    assert ("0x" + digits)[2..] == digits;
  }

  /** `int("-0x" + digits, 16)` */
  lemma ParseNegPrefixed(digits: string)
    requires digits != [] && AllHexDigits(digits)
    ensures ParseHex("-0x" + digits) == Ok(-DigitsValue(digits))
  {
    assert ("-0x" + digits)[1..] == "0x" + digits;
    assert ("0x" + digits)[2..] == digits;
  }

  lemma HexOfNat(n: nat)
    ensures Hex(n) == "0x" + HexDigits(n) && Drop2(Hex(n)) == HexDigits(n)
  {
    assert ("0x" + HexDigits(n))[2..] == HexDigits(n);
  }

  lemma ConcatShape(hi: nat, lo: nat)
    ensures Hex(hi) + Drop2(Hex(lo)) == "0x" + (HexDigits(hi) + HexDigits(lo))
  {
    HexOfNat(hi);
    HexOfNat(lo);
  }

  /** `int(hex(hi) + hex(lo)[2:], 16)` reads the digits of both, in order. */
  lemma Concat16Digits(hi: nat, lo: nat)
    ensures Concat16(Hex(hi), Hex(lo)) == Ok(DigitsValue(HexDigits(hi) + HexDigits(lo)))
  {
    var dh := HexDigits(hi);
    var dl := HexDigits(lo);
    ConcatShape(hi, lo);
    HexDigitsValue(hi);
    HexDigitsValue(lo);
    AllHexDigitsConcat(dh, dl);
    ParsePrefixed(dh + dl);
  }

  lemma LowDigitsValue(dh: string, lo: byte)
    ensures DigitsValue(dh + HexDigits(lo)) == DigitsValue(dh) * (if lo < 16 then 16 else 256) + lo
  {
    if lo < 16 {
      DigitsAppend(dh, HexChar(lo));
      assert DigitValue(HexChar(lo)) == lo;
    } else {
      var c1, c0 := HexChar(lo / 16), HexChar(lo % 16);
      assert HexDigits(lo / 16) == [c1];
      assert dh + HexDigits(lo) == (dh + [c1]) + [c0];
      DigitsAppend(dh, c1);
      DigitsAppend(dh + [c1], c0);
      assert DigitValue(c1) == lo / 16 && DigitValue(c0) == lo % 16;
    }
  }

  /** The value the unpadded concatenation produces from two bytes: the
      low byte takes one hex digit when below 0x10, two otherwise. */
  lemma Concat16Value(hi: byte, lo: byte)
    ensures Concat16(Hex(hi), Hex(lo)) == Ok(Unpadded(hi, lo))
  {
    Concat16Digits(hi, lo);
    LowDigitsValue(HexDigits(hi), lo);
    HexDigitsValue(hi);
  }

  /** The five values `GetRaw` returns for a ReadRaw response with at least
      nine parameter bytes. */
  lemma GetRawValues(params: seq<byte>)
    requires |params| >= 9
    ensures GetRaw(Some((ReadRawCode as int, params))) == Ok(Some([
              Unpadded(params[0], params[1]), Unpadded(params[2], params[3]),
              Unpadded(params[4], params[5]), Unpadded(params[6], params[7]), params[8]]))
  {
    var p := HexAll(params);
    assert forall i :: 0 <= i < 9 ==> p[i] == Hex(params[i]);
    Concat16Value(params[0], params[1]);
    Concat16Value(params[2], params[3]);
    Concat16Value(params[4], params[5]);
    Concat16Value(params[6], params[7]);
    ParseHexOfHex(params[8]);
  }

  function Unpadded(hi: byte, lo: byte): int
  {
    hi * (if lo < 16 then 16 else 256) + lo
  }

  /** The discrepancy: a ReadRaw response whose first two bytes are 0x01
      0x05 reads 0x15 (21), not 0x0105 (261), exactly as one whose first two
      bytes are 0x00 0x15 does. */
  lemma GetRawLowByteUnpadded(p: seq<byte>, q: seq<byte>)
    requires |p| >= 9 && p[0] == 0x01 && p[1] == 0x05
    requires |q| >= 9 && q[0] == 0x00 && q[1] == 0x15
    ensures GetRaw(Some((0x41, p))).Ok? && GetRaw(Some((0x41, p))).value.Some?
    ensures GetRaw(Some((0x41, p))).value.value[0] == 21
    ensures GetRaw(Some((0x41, q))).Ok? && GetRaw(Some((0x41, q))).value.Some?
    ensures GetRaw(Some((0x41, q))).value.value[0] == 21
    ensures GetRawCorrected(Some((0x41, p))).value.value[0] == 261
  {
    GetRawValues(p);
    GetRawValues(q);
  }

  /** `GetRaw` as evidently intended: each value is the big-endian 16-bit
      number of its two bytes (what `get_raw` in telegram.py computes). */
  function GetRawCorrected(commandPara: Option<(int, seq<byte>)>): Result<Option<seq<int>>>
  {
    if commandPara.None? then Ok(None)
    else
      var (command, p) := commandPara.value;
      if command != ReadRawCode then Ok(None)
      else if |p| < 9 then Err(IndexError)
      else Ok(Some([p[0] as int * 256 + p[1], p[2] as int * 256 + p[3], p[4] as int * 256 + p[5], p[6] as int * 256 + p[7], p[8]]))
  }

  /** The corrected values are 16-bit and give back both of their bytes, so
      distinct byte pairs never read alike. */
  lemma GetRawCorrectedInjective(p: seq<byte>)
    requires |p| >= 9
    ensures var r := GetRawCorrected(Some((ReadRawCode as int, p)));
            r.Ok? && r.value.Some? && |r.value.value| == 5
            && forall i :: 0 <= i < 4 ==>
                 0 <= r.value.value[i] < 0x10000
                 && r.value.value[i] / 256 == p[2 * i] && r.value.value[i] % 256 == p[2 * i + 1]
  {
  }

  /** Where the two agree: exactly when every low byte is at least 0x10
      (or the high byte is zero). */
  lemma UnpaddedAgrees(hi: byte, lo: byte)
    ensures Unpadded(hi, lo) == hi * 256 + lo <==> lo >= 16 || hi == 0
  {
  }

  // -------------------------------------------------------- TransformData

  function Abs(x: int): int
  {
    if x < 0 then -x else x
  }

  /** The sign conversion of one reading: 32768..65535 become negative. */
  function SignConvert(x: int): int
  {
    if 0 <= x <= 32767 then x else if 0x7fff <= x <= 0xffff then x - 65536 else x
  }

  /** One element after `TransformData`: converted, and clamped to +25000
      in the calibrated channels (index 2 on) when its magnitude reaches 25000. */
  function TransformValue(i: int, x: int): int
  {
    var y := SignConvert(x);
    if i > 1 && Abs(y) >= 25000 then 25000 else y
  }

  function Transformed(s: seq<int>): (r: seq<int>)
    ensures |r| == |s|
  {
    seq(|s|, i requires 0 <= i < |s| => TransformValue(i, s[i]))
  }

  /** The overload flag: some calibrated channel reached 25000 in magnitude. */
  predicate Overloaded(s: seq<int>)
  {
    exists i :: 1 < i < |s| && Abs(SignConvert(s[i])) >= 25000
  }

  /** `TransformData`: converts the list in place and returns it with the
      overload flag; on an empty list the result variable is never bound. */
  method TransformData(a: array<int>) returns (r: Result<(array<int>, bool)>)
    modifies a
    ensures a[..] == Transformed(old(a[..]))
    ensures r == if a.Length == 0 then Err(UnboundLocalError) else Ok((a, Overloaded(old(a[..]))))
  {
    var overload := false;
    var i := 0;
    var bound := false;
    while i < a.Length
      invariant 0 <= i <= a.Length && bound == (i > 0)
      invariant forall j :: 0 <= j < i ==> a[j] == TransformValue(j, old(a[j]))
      invariant forall j :: i <= j < a.Length ==> a[j] == old(a[j])
      invariant overload <==> exists j :: 1 < j < i && Abs(SignConvert(old(a[j]))) >= 25000
    {
      if 0 <= a[i] <= 32767 {
      } else if 0x7fff <= a[i] <= 0xffff {
        a[i] := a[i] - 65536;
      }
      if i > 1 && Abs(a[i]) >= 25000 {
        overload := true;
        a[i] := 25000;
      }
      i := i + 1;
      bound := true;
    }
    assert a[..] == Transformed(old(a[..]));
    if !bound {
      return Err(UnboundLocalError);
    }
    return Ok((a, overload));
  }

  /** In the two raw channels a 16-bit reading becomes its two's-complement
      value: congruent modulo 65536 and within -32768..32767. */
  lemma RawChannelTwosComplement(i: int, x: int)
    requires i <= 1 && 0 <= x < 0x10000
    ensures -0x8000 <= TransformValue(i, x) < 0x8000
    ensures (x - TransformValue(i, x)) % 0x10000 == 0
    ensures TransformValue(i, x) == x <==> x < 0x8000
  {
  }

  /** In the calibrated channels the result never exceeds 25000 in
      magnitude, and an overload of either sign reads as +25000. */
  lemma CalibratedChannelClamped(i: int, x: int)
    requires i > 1 && 0 <= x < 0x10000
    ensures -25000 < TransformValue(i, x) <= 25000
    ensures Abs(SignConvert(x)) >= 25000 <==> TransformValue(i, x) == 25000
  {
  }
}

/** The configuration blocks of configBlocks.py: a declarative layout of
    fields (offset, size, optional lookup table) decoded from a device payload
    by `from_payload`, encoded into a 27-byte buffer by `gen_payload`, and
    sealed with a 16-bit checksum pair by `serialize`. */
module ConfigBlocks {
  import opened Common

  /** An attribute value: None, an integer, or a lookup-table string. */
  datatype Value = NoneValue | Int(n: int) | Str(s: string)

  /** Python truthiness of a value, as `if blk.changed` reads the flag. */
  predicate Truthy(v: Value)
  {
    match v
    case NoneValue => false
    case Int(n) => n != 0
    case Str(t) => t != ""
  }

  /** One `_PARAMETERS` entry. `lut` lists the table's (raw, value) pairs in
      the order they are written. */
  datatype Field = Field(name: string, offset: nat, size: nat, lut: Option<seq<(int, Value)>>)

  /** A block class: BLOCK, _ID, READONLY, the declared parameters, and the
      dataclass attributes that are not parameters. */
  datatype Layout = Layout(block: int, id: int, readOnly: bool, fields: seq<Field>, extras: seq<string>)

  // ------------------------------------------------------------- the blocks

  const StatorHeader: Layout := Layout(0, 0x10, true, [
    Field("STATOR_TYPE", 1, 3, None),
    Field("SERIAL", 4, 4, None),
    Field("SI_IDX", 8, 1, None),
    Field("ACTIVE_PORT_COUNT", 9, 1, None)
  ], [])

  const PulsesPerRevLut: seq<(int, Value)> := [
    (0x00, NoneValue), (0x01, Int(6)), (0x02, Int(30)), (0x03, Int(60)), (0x04, Int(90)),
    (0x05, Int(120)), (0x06, Int(180)), (0x07, Int(360)), (0x08, Int(720)), (0x09, Int(1440)),
    (0x10, Int(100)), (0x11, Int(200)), (0x12, Int(400)), (0x13, Int(500)), (0x14, Int(1000)),
    (0xFF, NoneValue)
  ]

  const StatorHardware: Layout := Layout(1, 0x12, true, [
    Field("PRODUCTION_TIME", 1, 4, None),
    Field("STAS", 5, 5, None),
    Field("OEM", 10, 1, None),
    Field("PULSES_PR_REV", 11, 1, Some(PulsesPerRevLut))
  ], [])

  const BaudrateLut: seq<(int, Value)> := [
    (0x00, NoneValue), (0x09, Int(115200)), (0x10, Int(230400)), (0xFF, NoneValue)
  ]

  const OutputALut: seq<(int, Value)> := [
    (0x00, NoneValue), (0x01, Str("A")), (0x02, Str("B")), (0x03, Str("SPEED")),
    (0x04, Str("ANGLE")), (0x05, Str("FORCE")), (0x06, Str("POWER")), (0xFF, NoneValue)
  ]

  const OutputBLut: seq<(int, Value)> := [
    (0x00, NoneValue), (0x01, Str("A")), (0x02, Str("B")), (0x03, Str("SPEED")), (0x04, Str("ANGLE"))
  ]

  const StatorOperation: Layout := Layout(2, 0x13, false, [
    Field("modification_time", 1, 4, None),
    Field("wakeup_flag", 6, 1, None),
    Field("bus_address", 7, 1, None),
    Field("op_flags", 9, 1, None),
    Field("baudrate", 10, 1, Some(BaudrateLut)),
    Field("output_A", 11, 1, Some(OutputALut)),
    Field("output_B", 12, 1, Some(OutputBLut))
  ], ["lp_filter_A", "lp_filter_B"])

  /** Header and hardware blocks are read-only, the operation block is not. */
  lemma ReadOnlyBlocks()
    ensures StatorHeader.readOnly && StatorHardware.readOnly && !StatorOperation.readOnly
    ensures StatorHeader.id == 0x10 && StatorHardware.id == 0x12 && StatorOperation.id == 0x13
  {
  }

  // --------------------------------------------------------- lookup tables

  /** `LUT[raw]` when `raw` is a key (Python dict semantics: the first
      matching pair, keys being distinct). */
  function ValueOf(lut: seq<(int, Value)>, raw: int): Option<Value>
  {
    if lut == [] then None
    else if lut[0].0 == raw then Some(lut[0].1)
    else ValueOf(lut[1..], raw)
  }

  /** `{v: k for k, v in LUT.items()}[v]`: the LAST key carrying `v`. */
  function KeyOf(lut: seq<(int, Value)>, v: Value): Option<int>
  {
    if lut == [] then None
    else if lut[|lut| - 1].1 == v then Some(lut[|lut| - 1].0)
    else KeyOf(lut[..|lut| - 1], v)
  }

  /** The decoding direction: a raw key is replaced, anything else kept. */
  function Forward(f: Field, raw: int): Value
  {
    match f.lut
    case None => Int(raw)
    case Some(t) => if ValueOf(t, raw).Some? then ValueOf(t, raw).value else Int(raw)
  }

  /** The encoding direction: a table value is replaced by its key,
      anything else kept. */
  function Reverse(f: Field, v: Value): Value
  {
    match f.lut
    case None => v
    case Some(t) => if KeyOf(t, v).Some? then Int(KeyOf(t, v).value) else v
  }

  predicate IsLutKey(f: Field, raw: int)
  {
    f.lut.Some? && ValueOf(f.lut.value, raw).Some?
  }

  predicate IsLutValue(f: Field, v: Value)
  {
    f.lut.Some? && KeyOf(f.lut.value, v).Some?
  }

  /** The two fields of the checksum pair, skipped by both directions. */
  predicate IsChecksumName(name: string)
  {
    name == "checksum" || name == "wchecksum"
  }

  // ------------------------------------------------------------- byte codec

  /** `value = (value << 8) + b` over `s`: the big-endian value of `s`. */
  function BE(s: seq<int>): int
  {
    if s == [] then 0 else BE(s[..|s| - 1]) * 256 + s[|s| - 1]
  }

  /** The `n` bytes `gen_payload` writes for `v`, last byte first:
      `v & 0xFF`, then `v >>= 8`. */
  function BytesBE(v: int, n: nat): (r: seq<int>)
    ensures |r| == n && IsByteSeq(r)
    decreases n
  {
    if n == 0 then [] else BytesBE(v / 256, n - 1) + [v % 256]
  }

  /** Writing one more low byte in front of what is already written. */
  lemma BytesBEStep(value: int, n: nat, w: seq<int>)
    requires n > 0
    ensures BytesBE(value, n) + w == BytesBE(value / 256, n - 1) + ([value % 256] + w)
  {
  }

  /** Writing the byte in front of an already written run. */
  lemma WriteInFront(before: seq<int>, start: nat, written: seq<int>, b: int)
    requires 0 < start && start + |written| <= |before|
    ensures (before[..start] + written + before[start + |written|..])[start - 1 := b]
            == before[..start - 1] + ([b] + written) + before[start - 1 + |[b] + written|..]
  {
    var s := before[..start] + written + before[start + |written|..];
    var t := before[..start - 1] + ([b] + written) + before[start - 1 + |[b] + written|..];
    assert |s[start - 1 := b]| == |t|;
    forall j | 0 <= j < |t| ensures s[start - 1 := b][j] == t[j] {
    }
  }

  /** Encoding then decoding keeps every value representable in `n` bytes. */
  lemma {:induction false} BEOfBytesBE(v: int, n: nat)
    requires 0 <= v < Pow(256, n)
    ensures BE(BytesBE(v, n)) == v
    decreases n
  {
    if n > 0 {
      BEOfBytesBE(v / 256, n - 1);
      var s := BytesBE(v, n);
      assert s[..|s| - 1] == BytesBE(v / 256, n - 1);
    }
  }

  /** The value of `n` bytes is below 256^n. */
  lemma {:induction false} BERange(s: seq<int>)
    requires IsByteSeq(s)
    ensures 0 <= BE(s) < Pow(256, |s|)
  {
    if s != [] {
      BERange(s[..|s| - 1]);
    }
  }

  // -------------------------------------------------------------- decoding

  /** The raw value of one field, read from the payload after the
      block-number byte; a field of size 0 reads nothing and is 0. */
  function FieldRaw(f: Field, rest: seq<int>): Result<int>
  {
    if f.size == 0 then Ok(0)
    else if f.offset + f.size > |rest| then Err(IndexError)
    else Ok(BE(rest[f.offset..f.offset + f.size]))
  }

  function FieldValue(f: Field, rest: seq<int>): Result<Value>
  {
    match FieldRaw(f, rest)
    case Err(e) => Err(e)
    case Ok(raw) => Ok(Forward(f, raw))
  }

  /** The assignments `from_payload` makes, in order, and the error that
      stops it, if any. */
  function DecodeFields(fields: seq<Field>, rest: seq<int>): (seq<(string, Value)>, Option<Exception>)
  {
    if fields == [] then ([], None)
    else if IsChecksumName(fields[0].name) then DecodeFields(fields[1..], rest)
    else match FieldValue(fields[0], rest)
      case Err(e) => ([], Some(e))
      case Ok(v) =>
        var (a, e) := DecodeFields(fields[1..], rest);
        ([(fields[0].name, v)] + a, e)
  }

  /** `from_payload`: IndexError on an empty payload, BadBlockID before any
      assignment when the block number differs, then the fields. */
  function Populate(l: Layout, payload: seq<int>): (seq<(string, Value)>, Option<Exception>)
  {
    if payload == [] then ([], Some(IndexError))
    else if payload[0] != l.block then ([], Some(BadBlockID))
    else DecodeFields(l.fields, payload[1..])
  }

  /** One step of `from_payload`'s loop over a non-checksum field: an
      error stops it with nothing more assigned ... */
  lemma DecodeFieldsError(fs: seq<Field>, rest: seq<int>)
    requires fs != [] && !IsChecksumName(fs[0].name) && FieldValue(fs[0], rest).Err?
    ensures DecodeFields(fs, rest) == ([], Some(FieldValue(fs[0], rest).error))
  {
  }

  /** ... and a value is assigned before the remaining fields. */
  lemma DecodeFieldsValue(fs: seq<Field>, rest: seq<int>)
    requires fs != [] && !IsChecksumName(fs[0].name) && FieldValue(fs[0], rest).Ok?
    ensures DecodeFields(fs, rest).0 == [(fs[0].name, FieldValue(fs[0], rest).value)] + DecodeFields(fs[1..], rest).0
    ensures DecodeFields(fs, rest).1 == DecodeFields(fs[1..], rest).1
  {
  }

  /** The state of the `from_payload` loop after one more assignment. */
  lemma PopulateStep(attrs: map<string, Value>, done: seq<(string, Value)>, fs: seq<Field>, rest: seq<int>)
    requires fs != [] && !IsChecksumName(fs[0].name) && FieldValue(fs[0], rest).Ok?
    ensures var d := (fs[0].name, FieldValue(fs[0], rest).value);
            done + DecodeFields(fs, rest).0 == (done + [d]) + DecodeFields(fs[1..], rest).0
            && DecodeFields(fs, rest).1 == DecodeFields(fs[1..], rest).1
            && Apply(attrs, done + [d]) == Apply(attrs, done)[d.0 := d.1]
  {
    var d := (fs[0].name, FieldValue(fs[0], rest).value);
    DecodeFieldsValue(fs, rest);
    ApplySnoc(attrs, done, d);
    assert done + ([d] + DecodeFields(fs[1..], rest).0) == (done + [d]) + DecodeFields(fs[1..], rest).0;
  }

  /** The state of the `from_payload` loop when a field cannot be read. */
  lemma PopulateStopped(done: seq<(string, Value)>, fs: seq<Field>, rest: seq<int>)
    requires fs != [] && !IsChecksumName(fs[0].name) && FieldValue(fs[0], rest).Err?
    ensures done + DecodeFields(fs, rest).0 == done
    ensures DecodeFields(fs, rest).1 == Some(FieldValue(fs[0], rest).error)
  {
    DecodeFieldsError(fs, rest);
    assert done + [] == done;
  }

  /** A payload for another block is refused with nothing assigned. */
  lemma WrongBlockRejected(l: Layout, payload: seq<int>)
    requires |payload| >= 1 && payload[0] != l.block
    ensures Populate(l, payload) == ([], Some(BadBlockID))
  {
  }

  /** The attribute map after the assignments `a`, in order. */
  function Apply(m: map<string, Value>, a: seq<(string, Value)>): map<string, Value>
    decreases |a|
  {
    if a == [] then m else Apply(m[a[0].0 := a[0].1], a[1..])
  }

  lemma {:induction false} ApplySnoc(m: map<string, Value>, a: seq<(string, Value)>, x: (string, Value))
    ensures Apply(m, a + [x]) == Apply(m, a)[x.0 := x.1]
    decreases |a|
  {
    if a == [] {
      assert a + [x] == [x];
    } else {
      assert (a + [x])[1..] == a[1..] + [x];
      ApplySnoc(m[a[0].0 := a[0].1], a[1..], x);
    }
  }

  // -------------------------------------------------------------- encoding

  function Splice(buf: seq<int>, offset: nat, bytes: seq<int>): seq<int>
    requires offset + |bytes| <= |buf|
  {
    buf[..offset] + bytes + buf[offset + |bytes|..]
  }

  /** The `gen_payload` loop over `fields` starting from buffer `buf`:
      AttributeError for a missing attribute, TypeError when the value is
      not an integer after the reverse lookup, IndexError past the buffer. */
  function Fill(fields: seq<Field>, attrs: map<string, Value>, buf: seq<int>): Result<seq<int>>
  {
    if fields == [] then Ok(buf)
    else
      var f := fields[0];
      if IsChecksumName(f.name) then Fill(fields[1..], attrs, buf)
      else if f.name !in attrs then Err(AttributeError)
      else if f.size == 0 then Fill(fields[1..], attrs, buf)
      else
        var w := Reverse(f, attrs[f.name]);
        if !w.Int? then Err(TypeError)
        else if f.offset + f.size > |buf| then Err(IndexError)
        else
          Fill(fields[1..], attrs, Splice(buf, f.offset, BytesBE(w.n, f.size)))
  }

  /** The 27 zeros with the block ID in front. */
  function InitialPayload(l: Layout): seq<int>
  {
    [l.id] + seq(26, _ => 0)
  }

  function GenPayloadSpec(l: Layout, attrs: map<string, Value>): Result<seq<int>>
  {
    Fill(l.fields, attrs, InitialPayload(l))
  }

  // ------------------------------------------------------------- checksums

  /** `calc_checksums`: 16-bit sum and 16-bit sum of the running sums. */
  function Checksums16(s: seq<int>): (r: (int, int))
    ensures 0 <= r.0 < 0x10000 && 0 <= r.1 < 0x10000
  {
    if s == [] then (0, 0)
    else
      var (c, w) := Checksums16(s[..|s| - 1]);
      var c' := (c + s[|s| - 1]) % 0x10000;
      (c', (w + c') % 0x10000)
  }

  /** Sum of all running sums, each masked to 16 bits. */
  function RunningTotal16(s: seq<int>): int
  {
    if s == [] then 0 else RunningTotal16(s[..|s| - 1]) + Sum(s) % 0x10000
  }

  /** The checksum is the payload sum modulo 65536 and the weighted checksum
      the sum of the running checksums modulo 65536, with no carry added. */
  lemma {:induction false} Checksums16Sums(s: seq<int>)
    ensures Checksums16(s).0 == Sum(s) % 0x10000
    ensures Checksums16(s).1 == RunningTotal16(s) % 0x10000
  {
    if s != [] {
      var p := s[..|s| - 1];
      Checksums16Sums(p);
      ModAddLeft16(Sum(p), s[|s| - 1]);
      ModAddLeft16(RunningTotal16(p), Sum(s) % 0x10000);
    }
  }

  lemma ModAddLeft16(a: int, b: int)
    ensures (a % 0x10000 + b) % 0x10000 == (a + b) % 0x10000
  {
    var q := a / 0x10000;
    assert a + b == (a % 0x10000 + b) + 0x10000 * q;
    ModShift16(a % 0x10000 + b, q);
  }

  lemma ModShift16(x: int, q: int)
    ensures (x + 0x10000 * q) % 0x10000 == x % 0x10000
  {
  }

  /** `int.to_bytes(2)`: big-endian. */
  function Word(x: int): seq<int>
  {
    [x / 256, x % 256]
  }

  function SerializeSpec(l: Layout, attrs: map<string, Value>): Result<seq<int>>
  {
    if l.readOnly then Err(AttributeError)
    else match GenPayloadSpec(l, attrs)
      case Err(e) => Err(e)
      case Ok(p) =>
        if !IsByteSeq(p) then Err(ValueError)
        else Ok(p + Word(Checksums16(p).0) + Word(Checksums16(p).1))
  }

  // ---------------------------------------------------- layout properties

  /** The field's byte range within the 27-byte buffer, after the ID byte. */
  predicate InBuffer(f: Field)
  {
    1 <= f.offset && 1 <= f.size && f.offset + f.size <= 27
  }

  predicate Apart(a: Field, b: Field)
  {
    a.offset + a.size <= b.offset || b.offset + b.size <= a.offset
  }

  /** Table keys are distinct and fit in the field. */
  predicate ValidLut(f: Field)
  {
    f.lut.Some? ==>
      var t := f.lut.value;
      (forall i :: 0 <= i < |t| ==> 0 <= t[i].0 < Pow(256, f.size))
      && (forall i, j :: 0 <= i < j < |t| ==> t[i].0 != t[j].0)
  }

  predicate ValidField(f: Field)
  {
    InBuffer(f) && ValidLut(f) && !IsChecksumName(f.name)
  }

  /** Fields lie within 1..26, never overlap each other, have distinct
      names, and their tables are well formed. */
  predicate ValidLayout(l: Layout)
  {
    (forall i :: 0 <= i < |l.fields| ==> ValidField(l.fields[i]))
    && (forall i, j :: 0 <= i < j < |l.fields| ==> Apart(l.fields[i], l.fields[j]))
    && (forall i, j :: 0 <= i < j < |l.fields| ==> l.fields[i].name != l.fields[j].name)
  }

  /** Each field ends before the next begins. */
  predicate InOrder(fs: seq<Field>)
  {
    forall k :: 0 <= k < |fs| - 1 ==> fs[k].offset + fs[k].size <= fs[k + 1].offset
  }

  lemma {:induction false} InOrderApart(fs: seq<Field>, i: int, j: int)
    requires InOrder(fs) && 0 <= i < j < |fs|
    ensures fs[i].offset + fs[i].size <= fs[j].offset
    decreases j - i
  {
    if j > i + 1 {
      InOrderApart(fs, i, j - 1);
    }
  }

  /** A layout whose fields are valid, in offset order and distinctly named
      is valid. */
  lemma OrderedLayoutValid(l: Layout)
    requires forall i :: 0 <= i < |l.fields| ==> ValidField(l.fields[i])
    requires InOrder(l.fields)
    requires forall i, j :: 0 <= i < j < |l.fields| ==> l.fields[i].name != l.fields[j].name
    ensures ValidLayout(l)
  {
    forall i, j | 0 <= i < j < |l.fields| ensures Apart(l.fields[i], l.fields[j]) {
      InOrderApart(l.fields, i, j);
    }
  }

  /** A field without a table, inside the buffer and not named like a checksum. */
  lemma PlainFieldValid(f: Field)
    requires 1 <= f.offset && 1 <= f.size && f.offset + f.size <= 27 && f.lut.None?
    requires f.name != "checksum" && f.name != "wchecksum"
    ensures ValidField(f)
  {
  }

  lemma StatorHeaderValid()
    ensures ValidLayout(StatorHeader)
  {
    var fs := StatorHeader.fields;
    PlainFieldValid(fs[0]);
    PlainFieldValid(fs[1]);
    PlainFieldValid(fs[2]);
    PlainFieldValid(fs[3]);
    assert fs[0].name[1] != fs[1].name[1] && fs[0].name[1] != fs[2].name[1] && fs[0].name[0] != fs[3].name[0];
    assert fs[1].name[1] != fs[2].name[1] && fs[1].name[0] != fs[3].name[0] && fs[2].name[0] != fs[3].name[0];
    OrderedLayoutValid(StatorHeader);
  }

  lemma PulsesAscending()
    ensures forall i :: 0 <= i < |PulsesPerRevLut| ==> 0 <= PulsesPerRevLut[i].0 < 256
    ensures forall i :: 0 <= i < |PulsesPerRevLut| - 1 ==> PulsesPerRevLut[i].0 < PulsesPerRevLut[i + 1].0
  {
  }

  lemma StatorHardwareValid()
    ensures ValidLayout(StatorHardware)
  {
    var fs := StatorHardware.fields;
    PlainFieldValid(fs[0]);
    PlainFieldValid(fs[1]);
    PlainFieldValid(fs[2]);
    PulsesAscending();
    LutFieldValid(fs[3]);
    assert fs[0].name[0] != fs[1].name[0] && fs[0].name[0] != fs[2].name[0] && fs[0].name[1] != fs[3].name[1];
    assert fs[1].name[0] != fs[2].name[0] && fs[1].name[0] != fs[3].name[0] && fs[2].name[0] != fs[3].name[0];
    OrderedLayoutValid(StatorHardware);
  }

  lemma StatorOperationValid()
    ensures ValidLayout(StatorOperation)
  {
    OperationFieldsValid();
    OperationNamesDistinct();
    OrderedLayoutValid(StatorOperation);
  }

  lemma OperationFieldsValid()
    ensures forall i :: 0 <= i < |StatorOperation.fields| ==> ValidField(StatorOperation.fields[i])
  {
    var fs := StatorOperation.fields;
    PlainFieldValid(fs[0]);
    PlainFieldValid(fs[1]);
    PlainFieldValid(fs[2]);
    PlainFieldValid(fs[3]);
    LutFieldValid(fs[4]);
    LutFieldValid(fs[5]);
    LutFieldValid(fs[6]);
  }

  /** A one-byte table field with keys listed in increasing order is valid. */
  lemma LutFieldValid(f: Field)
    requires InBuffer(f) && f.size == 1 && !IsChecksumName(f.name) && f.lut.Some?
    requires forall i :: 0 <= i < |f.lut.value| ==> 0 <= f.lut.value[i].0 < 256
    requires forall i :: 0 <= i < |f.lut.value| - 1 ==> f.lut.value[i].0 < f.lut.value[i + 1].0
    ensures ValidField(f)
  {
    var t := f.lut.value;
    assert Pow(256, 1) == 256;
    forall i, j | 0 <= i < j < |t| ensures t[i].0 < t[j].0 {
      Ascending(t, i, j);
    }
  }

  lemma {:induction false} Ascending(t: seq<(int, Value)>, i: int, j: int)
    requires forall k :: 0 <= k < |t| - 1 ==> t[k].0 < t[k + 1].0
    requires 0 <= i < j < |t|
    ensures t[i].0 < t[j].0
    decreases j - i
  {
    if j > i + 1 {
      Ascending(t, i, j - 1);
    }
  }

  lemma OperationNamesDistinct()
    ensures forall i, j :: 0 <= i < j < |StatorOperation.fields| ==>
              StatorOperation.fields[i].name != StatorOperation.fields[j].name
  {
    var fs := StatorOperation.fields;
    assert fs[1].name[0] == 'w' && fs[2].name[0] == 'b' && fs[3].name[0] == 'o';
    assert fs[4].name[0] == 'b' && fs[5].name[0] == 'o' && fs[6].name[0] == 'o';
    assert fs[2].name[1] != fs[4].name[1] && fs[3].name[1] != fs[5].name[1];
    assert fs[3].name[1] != fs[6].name[1] && fs[5].name[7] != fs[6].name[7];
  }

  // -------------------------------------------------- lookup round trips

  lemma {:induction false} KeyOfMember(t: seq<(int, Value)>, v: Value)
    requires KeyOf(t, v).Some?
    ensures exists i :: 0 <= i < |t| && t[i] == (KeyOf(t, v).value, v)
  {
    if t[|t| - 1].1 != v {
      KeyOfMember(t[..|t| - 1], v);
      var i :| 0 <= i < |t| - 1 && t[..|t| - 1][i] == (KeyOf(t, v).value, v);
      assert t[i] == (KeyOf(t, v).value, v);
    } else {
      assert t[|t| - 1] == (KeyOf(t, v).value, v);
    }
  }

  /** With distinct keys, the value stored at a pair is what its key looks up. */
  lemma {:induction false} ValueOfMember(t: seq<(int, Value)>, i: int)
    requires 0 <= i < |t| && forall a, b :: 0 <= a < b < |t| ==> t[a].0 != t[b].0
    ensures ValueOf(t, t[i].0) == Some(t[i].1)
  {
    ValueOfFirst(t, i);
  }

  /** A key's looked-up value is a table value. */
  lemma {:induction false} ValueOfIsValue(t: seq<(int, Value)>, raw: int)
    requires ValueOf(t, raw).Some?
    ensures KeyOf(t, ValueOf(t, raw).value).Some?
  {
    if t[0].0 != raw {
      ValueOfIsValue(t[1..], raw);
      KeyOfMember(t[1..], ValueOf(t, raw).value);
      KeyOfSome(t, ValueOf(t, raw).value);
    } else {
      KeyOfSome(t, t[0].1);
    }
  }

  /** A value that occurs anywhere in the table has a key. */
  lemma {:induction false} KeyOfSome(t: seq<(int, Value)>, v: Value)
    requires exists i :: 0 <= i < |t| && t[i].1 == v
    ensures KeyOf(t, v).Some?
  {
    if t[|t| - 1].1 != v {
      var i :| 0 <= i < |t| && t[i].1 == v;
      assert t[..|t| - 1][i].1 == v;
      KeyOfSome(t[..|t| - 1], v);
    }
  }

  /** What makes a field value survive `gen_payload` then `from_payload`:
      it is a table value, or a non-negative integer that fits the field
      and is not a table key. */
  predicate RoundTrips(f: Field, v: Value)
  {
    IsLutValue(f, v) || (v.Int? && 0 <= v.n < Pow(256, f.size) && !IsLutKey(f, v.n))
  }

  /** The bytes `gen_payload` writes for value `v`, if it can write them. */
  function Encode(f: Field, v: Value): Result<seq<int>>
  {
    var w := Reverse(f, v);
    if w.Int? then Ok(BytesBE(w.n, f.size)) else Err(TypeError)
  }

  /** Only integers and table values can be written; None and strings
      outside the table are a TypeError. */
  lemma EncodeError(f: Field, v: Value)
    ensures Encode(f, v).Err? <==> !IsLutValue(f, v) && !v.Int?
  {
  }

  /** Per-field round trip: decoding the bytes written for `v` gives `v`
      back exactly when `RoundTrips(f, v)`. */
  lemma FieldRoundTrip(f: Field, v: Value)
    requires ValidLut(f) && Encode(f, v).Ok?
    ensures Forward(f, BE(Encode(f, v).value)) == v <==> RoundTrips(f, v)
  {
    var w := Reverse(f, v);
    var raw := BE(BytesBE(w.n, f.size));
    BERange(BytesBE(w.n, f.size));
    if IsLutValue(f, v) {
      var t := f.lut.value;
      KeyOfMember(t, v);
      var i :| 0 <= i < |t| && t[i] == (KeyOf(t, v).value, v);
      BEOfBytesBE(w.n, f.size);
      ValueOfMember(t, i);
    } else {
      assert w == v;
      if Forward(f, raw) == v {
        if IsLutKey(f, raw) {
          ValueOfIsValue(f.lut.value, raw);
          assert false;
        }
        assert v == Int(raw);
      }
      if RoundTrips(f, v) {
        BEOfBytesBE(w.n, f.size);
      }
    }
  }

  /** PULSES_PR_REV raw 0x00 decodes to None, and None is written back as
      0xFF: raw bytes are not always preserved. */
  lemma PulsesZeroBecomesFF()
    ensures Forward(StatorHardware.fields[3], 0x00) == NoneValue
    ensures Encode(StatorHardware.fields[3], NoneValue) == Ok([0xFF])
  {
    assert KeyOf(PulsesPerRevLut, NoneValue) == Some(0xFF);
    assert BytesBE(0xFF, 1) == [0xFF];
  }

  /** An integer equal to a table key does not survive: 7 pulses is written
      as raw 7, which reads back as 360. */
  lemma PulsesKeyValueLost()
    ensures Encode(StatorHardware.fields[3], Int(7)) == Ok([7])
    ensures Forward(StatorHardware.fields[3], 7) == Int(360)
    ensures !RoundTrips(StatorHardware.fields[3], Int(7))
  {
    var f := StatorHardware.fields[3];
    assert f.lut == Some(PulsesPerRevLut) && f.size == 1;
    PulsesNoValue7();
    PulsesKey7();
    KeyValueLost(f, 7, Int(360));
  }

  /** A one-byte table field maps raw `k` to `v` but holds no entry with
      value `Int(k)`: the integer `k` is written as `k` and read back as `v`. */
  lemma KeyValueLost(f: Field, k: byte, v: Value)
    requires f.lut.Some? && f.size == 1
    requires KeyOf(f.lut.value, Int(k)) == None && ValueOf(f.lut.value, k) == Some(v)
    ensures Encode(f, Int(k)) == Ok([k]) && Forward(f, k) == v && !RoundTrips(f, Int(k))
  {
    assert BytesBE(k, 1) == [k % 256];
  }

  lemma PulsesNoValue7()
    ensures KeyOf(PulsesPerRevLut, Int(7)) == None
  {
    var t := PulsesPerRevLut;
    assert forall i :: 0 <= i < |t| ==> t[i].1 != Int(7);
    KeyOfNone(t, Int(7));
  }

  lemma PulsesKey7()
    ensures ValueOf(PulsesPerRevLut, 7) == Some(Int(360))
  {
    var t := PulsesPerRevLut;
    assert t[7] == (7, Int(360));
    assert forall k :: 0 <= k < 7 ==> t[k].0 != 7;
    ValueOfFirst(t, 7);
  }

  /** The first pair with the key is the one looked up. */
  lemma {:induction false} ValueOfFirst(t: seq<(int, Value)>, i: int)
    requires 0 <= i < |t| && forall k :: 0 <= k < i ==> t[k].0 != t[i].0
    ensures ValueOf(t, t[i].0) == Some(t[i].1)
  {
    if i > 0 {
      assert forall k :: 0 <= k < i - 1 ==> t[1..][k].0 != t[1..][i - 1].0 by {
        forall k | 0 <= k < i - 1 ensures t[1..][k].0 != t[1..][i - 1].0 {
          assert t[k + 1].0 != t[i].0;
        }
      }
      ValueOfFirst(t[1..], i - 1);
    }
  }

  lemma {:induction false} KeyOfNone(t: seq<(int, Value)>, v: Value)
    requires forall i :: 0 <= i < |t| ==> t[i].1 != v
    ensures KeyOf(t, v) == None
  {
    if t != [] {
      KeyOfNone(t[..|t| - 1], v);
    }
  }

  // ----------------------------------------------------- payload layout

  predicate Covers(f: Field, k: int)
  {
    f.offset <= k < f.offset + f.size
  }

  /** Some field of `fields` covers buffer position `k`. */
  predicate Covered(fields: seq<Field>, k: int)
  {
    fields != [] && (Covers(fields[0], k) || Covered(fields[1..], k))
  }

  /** The attribute of every field exists and can be written. */
  predicate Writable(fields: seq<Field>, attrs: map<string, Value>)
  {
    forall i :: 0 <= i < |fields| ==> fields[i].name in attrs && Encode(fields[i], attrs[fields[i].name]).Ok?
  }

  predicate FieldsFit(fields: seq<Field>)
  {
    (forall i :: 0 <= i < |fields| ==> ValidField(fields[i]))
    && (forall i, j :: 0 <= i < j < |fields| ==> Apart(fields[i], fields[j]))
  }

  lemma FieldsFitTail(fields: seq<Field>)
    requires fields != [] && FieldsFit(fields)
    ensures FieldsFit(fields[1..])
    ensures forall j :: 0 <= j < |fields[1..]| ==> Apart(fields[0], fields[1..][j])
  {
    var tail := fields[1..];
    forall i | 0 <= i < |tail| ensures ValidField(tail[i]) {
      assert tail[i] == fields[i + 1];
    }
    forall i, j | 0 <= i < j < |tail| ensures Apart(tail[i], tail[j]) {
      assert tail[i] == fields[i + 1] && tail[j] == fields[j + 1];
    }
    forall j | 0 <= j < |tail| ensures Apart(fields[0], tail[j]) {
      assert tail[j] == fields[j + 1];
    }
  }

  lemma {:induction false} CoveredWitness(fields: seq<Field>, k: int)
    requires Covered(fields, k)
    ensures exists i :: 0 <= i < |fields| && Covers(fields[i], k)
  {
    if !Covers(fields[0], k) {
      CoveredWitness(fields[1..], k);
      var i :| 0 <= i < |fields[1..]| && Covers(fields[1..][i], k);
      assert Covers(fields[i + 1], k);
    }
  }

  /** `Fill` succeeds exactly when every field is writable. */
  lemma {:induction false} FillOk(fields: seq<Field>, attrs: map<string, Value>, buf: seq<int>)
    requires FieldsFit(fields) && |buf| == 27
    ensures Fill(fields, attrs, buf).Ok? <==> Writable(fields, attrs)
  {
    if fields != [] {
      var f := fields[0];
      var tail := fields[1..];
      FieldsFitTail(fields);
      if f.name !in attrs || Encode(f, attrs[f.name]).Err? {
        assert !Writable(fields, attrs);
      } else {
        var buf' := Splice(buf, f.offset, Encode(f, attrs[f.name]).value);
        assert Fill(fields, attrs, buf) == Fill(tail, attrs, buf');
        FillOk(tail, attrs, buf');
        WritableTail(fields, attrs);
      }
    }
  }

  lemma WritableTail(fields: seq<Field>, attrs: map<string, Value>)
    requires fields != [] && fields[0].name in attrs && Encode(fields[0], attrs[fields[0].name]).Ok?
    ensures Writable(fields, attrs) <==> Writable(fields[1..], attrs)
  {
    var tail := fields[1..];
    if Writable(tail, attrs) {
      forall i | 0 <= i < |fields| ensures fields[i].name in attrs && Encode(fields[i], attrs[fields[i].name]).Ok? {
        if i > 0 {
          assert fields[i] == tail[i - 1];
        }
      }
    }
    if Writable(fields, attrs) {
      forall i | 0 <= i < |tail| ensures tail[i].name in attrs && Encode(tail[i], attrs[tail[i].name]).Ok? {
        assert tail[i] == fields[i + 1];
      }
    }
  }

  /** A successful `Fill` writes each field's bytes at its range and
      nothing elsewhere. */
  lemma {:induction false} FillPlaces(fields: seq<Field>, attrs: map<string, Value>, buf: seq<int>)
    requires FieldsFit(fields) && |buf| == 27 && Writable(fields, attrs)
    ensures Fill(fields, attrs, buf).Ok?
    ensures var p := Fill(fields, attrs, buf).value;
      |p| == 27
      && (forall i :: 0 <= i < |fields| ==>
            p[fields[i].offset..fields[i].offset + fields[i].size] == Encode(fields[i], attrs[fields[i].name]).value)
      && (forall k :: 0 <= k < 27 && !Covered(fields, k) ==> p[k] == buf[k])
  {
    FillOk(fields, attrs, buf);
    if fields != [] {
      var f := fields[0];
      var tail := fields[1..];
      FieldsFitTail(fields);
      WritableTail(fields, attrs);
      var bytes := Encode(f, attrs[f.name]).value;
      var buf' := Splice(buf, f.offset, bytes);
      assert Fill(fields, attrs, buf) == Fill(tail, attrs, buf');
      FillPlaces(tail, attrs, buf');
      var p := Fill(tail, attrs, buf').value;
      FirstFieldPlaced(f, tail, bytes, buf', p);
      forall i | 0 <= i < |fields|
        ensures p[fields[i].offset..fields[i].offset + fields[i].size] == Encode(fields[i], attrs[fields[i].name]).value
      {
        if i > 0 {
          assert fields[i] == tail[i - 1];
        }
      }
    }
  }

  /** Later fields never overwrite the range of an earlier one. */
  lemma FirstFieldPlaced(f: Field, tail: seq<Field>, bytes: seq<int>, buf': seq<int>, p: seq<int>)
    requires |bytes| == f.size && f.offset + f.size <= |buf'| == |p|
    requires buf'[f.offset..f.offset + f.size] == bytes
    requires forall j :: 0 <= j < |tail| ==> Apart(f, tail[j])
    requires forall k :: 0 <= k < |p| && !Covered(tail, k) ==> p[k] == buf'[k]
    ensures p[f.offset..f.offset + f.size] == bytes
  {
    forall k | f.offset <= k < f.offset + f.size ensures p[k] == bytes[k - f.offset] {
      if Covered(tail, k) {
        CoveredWitness(tail, k);
        assert false;
      }
      assert p[k] == buf'[k];
    }
    assert |p[f.offset..f.offset + f.size]| == |bytes|;
    forall k | 0 <= k < f.size ensures p[f.offset..f.offset + f.size][k] == bytes[k] {
      assert p[f.offset..f.offset + f.size][k] == p[f.offset + k];
    }
  }

  /** `gen_payload` of a valid layout: 27 entries, the ID first, each field's
      bytes at its range, zeros everywhere else; it fails exactly when some
      field's attribute is missing or cannot be written. */
  lemma GenPayloadLayout(l: Layout, attrs: map<string, Value>)
    requires ValidLayout(l)
    ensures GenPayloadSpec(l, attrs).Ok? <==> Writable(l.fields, attrs)
    ensures GenPayloadSpec(l, attrs).Ok? ==>
      var p := GenPayloadSpec(l, attrs).value;
      |p| == 27 && p[0] == l.id
      && (forall i :: 0 <= i < |l.fields| ==>
            p[l.fields[i].offset..l.fields[i].offset + l.fields[i].size] == Encode(l.fields[i], attrs[l.fields[i].name]).value)
      && (forall k :: 1 <= k < 27 && !Covered(l.fields, k) ==> p[k] == 0)
  {
    FillOk(l.fields, attrs, InitialPayload(l));
    if GenPayloadSpec(l, attrs).Ok? {
      FillPlaces(l.fields, attrs, InitialPayload(l));
      var p := GenPayloadSpec(l, attrs).value;
      if Covered(l.fields, 0) {
        CoveredWitness(l.fields, 0);
        assert false;
      }
    }
  }

  /** Decoding the fields of a valid layout from at least 27 bytes (a
      ReadConfig response carries 32 after the block ID) never fails and
      reads each field from its own range. */
  lemma {:induction false} DecodeAll(fields: seq<Field>, rest: seq<int>)
    requires forall i :: 0 <= i < |fields| ==> ValidField(fields[i]) && fields[i].offset + fields[i].size <= 27
    requires |rest| >= 27
    ensures DecodeFields(fields, rest).1 == None && |DecodeFields(fields, rest).0| == |fields|
    ensures forall i :: 0 <= i < |fields| ==>
      DecodeFields(fields, rest).0[i]
        == (fields[i].name, Forward(fields[i], BE(rest[fields[i].offset..fields[i].offset + fields[i].size])))
  {
    if fields != [] {
      var tail := fields[1..];
      forall i | 0 <= i < |tail| ensures ValidField(tail[i]) && tail[i].offset + tail[i].size <= 27 {
        assert tail[i] == fields[i + 1];
      }
      DecodeAll(tail, rest);
      var a := DecodeFields(fields, rest).0;
      forall i | 0 <= i < |fields|
        ensures a[i] == (fields[i].name, Forward(fields[i], BE(rest[fields[i].offset..fields[i].offset + fields[i].size])))
      {
        if i > 0 {
          assert fields[i] == tail[i - 1];
        }
      }
    }
  }

  lemma GenPayloadLength(l: Layout, attrs: map<string, Value>)
    requires ValidLayout(l) && GenPayloadSpec(l, attrs).Ok?
    ensures |GenPayloadSpec(l, attrs).value| == 27
  {
    GenPayloadLayout(l, attrs);
  }

  /** Block round trip: `from_payload([BLOCK] + gen_payload())` assigns
      every field, in order, and restores a field's value exactly when
      `RoundTrips` holds for it. */
  lemma BlockRoundTrip(l: Layout, attrs: map<string, Value>)
    requires ValidLayout(l) && GenPayloadSpec(l, attrs).Ok?
    ensures var (a, e) := Populate(l, [l.block] + GenPayloadSpec(l, attrs).value);
      e == None && |a| == |l.fields|
      && forall i :: 0 <= i < |a| ==>
           a[i].0 == l.fields[i].name && l.fields[i].name in attrs
           && (a[i].1 == attrs[l.fields[i].name] <==> RoundTrips(l.fields[i], attrs[l.fields[i].name]))
  {
    var p := GenPayloadSpec(l, attrs).value;
    GenPayloadLength(l, attrs);
    assert ([l.block] + p)[1..] == p;
    DecodeAll(l.fields, p);
    forall i | 0 <= i < |l.fields|
      ensures var f := l.fields[i];
              f.name in attrs
              && (Forward(f, BE(p[f.offset..f.offset + f.size])) == attrs[f.name] <==> RoundTrips(f, attrs[f.name]))
    {
      FieldRestored(l, attrs, i);
    }
  }

  /** One field of the round trip: its bytes in the generated payload read
      back to its value exactly when `RoundTrips` holds. */
  lemma FieldRestored(l: Layout, attrs: map<string, Value>, i: int)
    requires ValidLayout(l) && GenPayloadSpec(l, attrs).Ok? && 0 <= i < |l.fields|
    ensures var p := GenPayloadSpec(l, attrs).value;
            var f := l.fields[i];
            |p| == 27 && f.offset + f.size <= 27 && f.name in attrs
            && (Forward(f, BE(p[f.offset..f.offset + f.size])) == attrs[f.name] <==> RoundTrips(f, attrs[f.name]))
  {
    GenPayloadLayout(l, attrs);
    var f := l.fields[i];
    assert ValidField(f);
    FieldRoundTrip(f, attrs[f.name]);
  }

  lemma {:induction false} ApplyUntouched(m: map<string, Value>, a: seq<(string, Value)>, x: string)
    requires x in m && forall j :: 0 <= j < |a| ==> a[j].0 != x
    ensures x in Apply(m, a) && Apply(m, a)[x] == m[x]
    decreases |a|
  {
    if a != [] {
      assert forall j :: 0 <= j < |a[1..]| ==> a[1..][j].0 != x by {
        forall j | 0 <= j < |a[1..]| ensures a[1..][j].0 != x {
          assert a[1..][j] == a[j + 1];
        }
      }
      ApplyUntouched(m[a[0].0 := a[0].1], a[1..], x);
    }
  }

  /** With distinct names, each assignment is what the map finally holds. */
  lemma {:induction false} ApplyLookup(m: map<string, Value>, a: seq<(string, Value)>, i: int)
    requires 0 <= i < |a| && forall j, k :: 0 <= j < k < |a| ==> a[j].0 != a[k].0
    ensures a[i].0 in Apply(m, a) && Apply(m, a)[a[i].0] == a[i].1
    decreases |a|
  {
    var tail := a[1..];
    assert forall j, k :: 0 <= j < k < |tail| ==> tail[j].0 != tail[k].0 by {
      forall j, k | 0 <= j < k < |tail| ensures tail[j].0 != tail[k].0 {
        assert tail[j] == a[j + 1] && tail[k] == a[k + 1];
      }
    }
    if i == 0 {
      forall j | 0 <= j < |tail| ensures tail[j].0 != a[0].0 {
        assert tail[j] == a[j + 1];
      }
      ApplyUntouched(m[a[0].0 := a[0].1], tail, a[0].0);
    } else {
      assert a[i] == tail[i - 1];
      ApplyLookup(m[a[0].0 := a[0].1], tail, i - 1);
    }
  }

  /** The object-level round trip: after `from_payload([BLOCK] +
      gen_payload())` an attribute holds its former value exactly when
      `RoundTrips` holds for its field. */
  lemma AttributesRestored(l: Layout, attrs: map<string, Value>)
    requires ValidLayout(l) && GenPayloadSpec(l, attrs).Ok?
    ensures var p := GenPayloadSpec(l, attrs).value;
      var after := Apply(attrs, Populate(l, [l.block] + p).0);
      Populate(l, [l.block] + p).1 == None
      && forall i :: 0 <= i < |l.fields| ==>
           l.fields[i].name in attrs && l.fields[i].name in after
           && (after[l.fields[i].name] == attrs[l.fields[i].name] <==> RoundTrips(l.fields[i], attrs[l.fields[i].name]))
  {
    var p := GenPayloadSpec(l, attrs).value;
    BlockRoundTrip(l, attrs);
    var a := Populate(l, [l.block] + p).0;
    forall j, k | 0 <= j < k < |a| ensures a[j].0 != a[k].0 {
      assert a[j].0 == l.fields[j].name && a[k].0 == l.fields[k].name;
    }
    forall i | 0 <= i < |l.fields|
      ensures l.fields[i].name in Apply(attrs, a) && Apply(attrs, a)[l.fields[i].name] == a[i].1
    {
      ApplyLookup(attrs, a, i);
    }
  }

  /** `serialize` of a writable block: 31 bytes, the payload then the
      checksum and weighted checksum, big-endian. */
  lemma SerializeShape(l: Layout, attrs: map<string, Value>)
    requires ValidLayout(l) && !l.readOnly && 0 <= l.id < 256 && GenPayloadSpec(l, attrs).Ok?
    ensures var p := GenPayloadSpec(l, attrs).value;
            var (cs, wcs) := Checksums16(p);
            SerializeSpec(l, attrs) == Ok(p + [cs / 256, cs % 256, wcs / 256, wcs % 256])
            && |SerializeSpec(l, attrs).value| == 31
  {
    GenPayloadBytes(l, attrs);
    var p := GenPayloadSpec(l, attrs).value;
    var (cs, wcs) := Checksums16(p);
    assert p + Word(cs) + Word(wcs) == p + [cs / 256, cs % 256, wcs / 256, wcs % 256];
  }

  /** Every element of a generated payload is a byte. */
  lemma GenPayloadBytes(l: Layout, attrs: map<string, Value>)
    requires ValidLayout(l) && 0 <= l.id < 256 && GenPayloadSpec(l, attrs).Ok?
    ensures |GenPayloadSpec(l, attrs).value| == 27 && IsByteSeq(GenPayloadSpec(l, attrs).value)
  {
    GenPayloadLayout(l, attrs);
    var buf := InitialPayload(l);
    assert IsByteSeq(buf) by {
      forall k | 0 <= k < 27 ensures 0 <= buf[k] < 256 {
        if k > 0 { assert buf[k] == 0; }
      }
    }
    FillBytes(l.fields, attrs, buf);
  }

  /** Filling a buffer of bytes leaves a buffer of bytes. */
  lemma {:induction false} FillBytes(fields: seq<Field>, attrs: map<string, Value>, buf: seq<int>)
    requires IsByteSeq(buf) && Fill(fields, attrs, buf).Ok?
    ensures IsByteSeq(Fill(fields, attrs, buf).value)
  {
    if fields != [] {
      var f := fields[0];
      if IsChecksumName(f.name) || f.size == 0 {
        FillBytes(fields[1..], attrs, buf);
      } else {
        var w := Reverse(f, attrs[f.name]);
        var bytes := BytesBE(w.n, f.size);
        var next := Splice(buf, f.offset, bytes);
        forall k | 0 <= k < |next| ensures 0 <= next[k] < 256 {
          if k < f.offset {
            assert next[k] == buf[k];
          } else if k < f.offset + f.size {
            assert next[k] == bytes[k - f.offset];
          } else {
            assert next[k] == buf[k];
          }
        }
        FillBytes(fields[1..], attrs, next);
      }
    }
  }

  /** A read-only block never serializes. */
  lemma ReadOnlyRefused(l: Layout, attrs: map<string, Value>)
    requires l.readOnly
    ensures SerializeSpec(l, attrs) == Err(AttributeError)
  {
  }

  // ------------------------------------------------------------ the class

  function FieldNames(fields: seq<Field>): set<string>
  {
    set i | 0 <= i < |fields| :: fields[i].name
  }

  /** Every dataclass attribute of a block that is initialised to None. */
  function AttrNames(l: Layout): set<string>
  {
    FieldNames(l.fields) + (set e | e in l.extras)
  }

  /** A layout none of whose attributes is called `changed`, the name of the
      flag every block object keeps beside them. */
  type BlockLayout = l: Layout | "changed" !in AttrNames(l) witness Layout(0, 0, false, [], [])

  /** None of the three blocks declares an attribute called `changed`. */
  lemma BlocksHaveNoChangedAttribute()
    ensures "changed" !in AttrNames(StatorHeader)
    ensures "changed" !in AttrNames(StatorHardware)
    ensures "changed" !in AttrNames(StatorOperation)
  {
  }

  /** A block object: its attribute values and the `changed` flag. */
  class ConfigBlock {
    const layout: BlockLayout
    var attrs: map<string, Value>
    var changed: bool

    /** The dataclass initialiser assigns every declared attribute None
        through `__setattr__`, so a block with parameters starts changed. */
    constructor (layout: BlockLayout)
      ensures this.layout == layout
      ensures attrs == map n | n in AttrNames(layout) :: NoneValue
      ensures changed == (|layout.fields| > 0)
    {
      this.layout := layout;
      attrs := map n | n in AttrNames(layout) :: NoneValue;
      changed := |layout.fields| > 0;
    }

    /** `__setattr__`: a declared parameter marks the block changed; an
        assignment to `changed` itself replaces the flag by the value's
        truth, which is how a caller clears it. */
    method SetAttr(name: string, v: Value)
      modifies this
      ensures name == "changed" ==> attrs == old(attrs) && changed == Truthy(v)
      ensures name != "changed" ==>
                attrs == old(attrs)[name := v] && changed == (old(changed) || name in FieldNames(layout.fields))
    {
      if name in FieldNames(layout.fields) {
        changed := true;
      }
      if name == "changed" {
        changed := Truthy(v);
      } else {
        attrs := attrs[name := v];
      }
    }

    /** `from_payload` */
    method FromPayload(payload: seq<int>) returns (r: Result<()>)
      modifies this
      ensures var (a, e) := Populate(layout, payload);
              attrs == Apply(old(attrs), a) && changed == (old(changed) || |a| > 0)
              && r == if e.None? then Ok(()) else Err(e.value)
    {
      if |payload| == 0 {
        return Err(IndexError);
      }
      if payload[0] != layout.block {
        return Err(BadBlockID);
      }
      var rest := payload[1..];
      var fields := layout.fields;
      ghost var pop0 := Populate(layout, payload).0;
      ghost var pop1 := Populate(layout, payload).1;
      assert pop0 == DecodeFields(fields, rest).0 && pop1 == DecodeFields(fields, rest).1;
      ghost var done: seq<(string, Value)> := [];
      assert fields[0..] == fields;
      var i := 0;
      while i < |fields|
        invariant 0 <= i <= |fields|
        invariant pop0 == done + DecodeFields(fields[i..], rest).0
        invariant pop1 == DecodeFields(fields[i..], rest).1
        invariant attrs == Apply(old(attrs), done) && changed == (old(changed) || |done| > 0)
      {
        var f := fields[i];
        ghost var here := fields[i..];
        assert here[0] == f && here[1..] == fields[i + 1..];
        if !IsChecksumName(f.name) {
          var value := LoadField(f, rest);
          if value.Err? {
            PopulateStopped(done, here, rest);
            return Err(value.error);
          }
          var v := value.value;
          PopulateStep(old(attrs), done, here, rest);
          done := done + [(f.name, v)];
        }
        i := i + 1;
      }
      assert fields[i..] == [] && done + [] == done;
      return Ok(());
    }

    /** One field of `from_payload`: read its bytes, translate them through
        its table and assign the attribute. */
    method LoadField(f: Field, rest: seq<int>) returns (r: Result<Value>)
      requires f in layout.fields
      modifies this
      ensures r == FieldValue(f, rest)
      ensures r.Err? ==> attrs == old(attrs) && changed == old(changed)
      ensures r.Ok? ==> attrs == old(attrs)[f.name := r.value] && changed
    {
      var value := ReadField(rest, f.offset, f.size);
      if value.Err? {
        return Err(value.error);
      }
      var v := Forward(f, value.value);
      assert f.name in FieldNames(layout.fields);
      SetAttr(f.name, v);
      return Ok(v);
    }

    /** The inner loop of `from_payload`: shift `size` bytes from `offset`
        into one value. */
    method ReadField(rest: seq<int>, offset: nat, size: nat) returns (r: Result<int>)
      ensures r == FieldRaw(Field("", offset, size, None), rest)
    {
      var value := 0;
      var k := 0;
      while k < size
        invariant 0 <= k <= size
        invariant k == 0 ==> value == 0
        invariant k > 0 ==> offset + k <= |rest| && value == BE(rest[offset..offset + k])
      {
        if offset + k >= |rest| {
          return Err(IndexError);
        }
        assert rest[offset..offset + k + 1][..k] == rest[offset..offset + k];
        value := value * 256 + rest[offset + k];
        k := k + 1;
      }
      return Ok(value);
    }

    /** The inner loop of `gen_payload`: `size` bytes of `v` written
        backwards from `offset + size - 1`. */
    static method WriteField(payload: array<int>, offset: nat, size: nat, v: int)
      requires offset + size <= payload.Length
      modifies payload
      ensures payload[..] == Splice(old(payload[..]), offset, BytesBE(v, size))
    {
      ghost var before := payload[..];
      ghost var written: seq<int> := [];
      var value := v;
      var top := offset + size;
      var k := 0;
      while k < size
        invariant 0 <= k <= size && |written| == k
        invariant BytesBE(v, size) == BytesBE(value, size - k) + written
        invariant payload[..] == before[..top - k] + written + before[top..]
      {
        var idx := top - 1 - k;
        WriteInFront(before, top - k, written, value % 256);
        payload[idx] := value % 256;
        BytesBEStep(value, size - k, written);
        written := [value % 256] + written;
        value := value / 256;
        k := k + 1;
      }
    }

    /** `gen_payload`: fills a fresh 27-element buffer in place. */
    method GenPayload() returns (r: Result<seq<int>>)
      ensures r == GenPayloadSpec(layout, attrs)
    {
      var payload := new int[27](_ => 0);
      payload[0] := layout.id;
      assert payload[..] == InitialPayload(layout);
      var fields := layout.fields;
      assert fields[0..] == fields;
      var i := 0;
      while i < |fields|
        invariant 0 <= i <= |fields| && payload.Length == 27
        invariant Fill(fields[i..], attrs, payload[..]) == GenPayloadSpec(layout, attrs)
      {
        var f := fields[i];
        assert fields[i..][1..] == fields[i + 1..];
        if !IsChecksumName(f.name) {
          if f.name !in attrs {
            return Err(AttributeError);
          }
          var w := Reverse(f, attrs[f.name]);
          if f.size > 0 {
            if !w.Int? {
              return Err(TypeError);
            }
            if f.offset + f.size > 27 {
              return Err(IndexError);
            }
            WriteField(payload, f.offset, f.size, w.n);
          }
        }
        i := i + 1;
      }
      return Ok(payload[..]);
    }

    /** `calc_checksums`: two accumulators masked to 16 bits, returned as
        two big-endian byte pairs. */
    method CalcChecksums(payload: seq<int>) returns (checksum: seq<int>, wchecksum: seq<int>)
      ensures checksum == Word(Checksums16(payload).0) && wchecksum == Word(Checksums16(payload).1)
    {
      var cs, wcs := 0, 0;
      for i := 0 to |payload|
        invariant (cs, wcs) == Checksums16(payload[..i])
      {
        assert payload[..i + 1][..i] == payload[..i];
        cs := (cs + payload[i]) % 0x10000;
        wcs := (wcs + cs) % 0x10000;
      }
      assert payload[..|payload|] == payload;
      return Word(cs), Word(wcs);
    }

    /** `serialize`: AttributeError for a read-only block, otherwise the
        payload followed by the checksum and weighted checksum words. */
    method Serialize() returns (r: Result<seq<int>>)
      ensures r == SerializeSpec(layout, attrs)
    {
      if layout.readOnly {
        return Err(AttributeError);
      }
      var payload := GenPayload();
      if payload.Err? {
        return Err(payload.error);
      }
      var p := payload.value;
      if exists k :: 0 <= k < |p| && !(0 <= p[k] < 256) {
        return Err(ValueError);
      }
      var checksum, wchecksum := CalcChecksums(p);
      return Ok(p + checksum + wchecksum);
    }
  }
}

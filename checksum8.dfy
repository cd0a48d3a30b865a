/** The one-byte checksum pair of a telegram: `checksum` is the running sum of
    the bytes masked to 8 bits, `wchecksum` the running sum of the intermediate
    checksums masked to 8 bits, with one extra unit added whenever that sum
    overflows 0xFF. telegram.py and LCTSfunctions.py both implement this loop;
    the specification lives here once. */
module Checksum8 {
  import opened Common

  /** One iteration of the accumulator loop over item `itm`. */
  function Step(st: (int, int), itm: int): (r: (int, int))
    ensures 0 <= r.0 < 256 && 0 <= r.1 < 256
  {
    var cs := (st.0 + itm) % 256;
    var w := st.1 + cs;
    (cs, (if w > 0xFF then w + 1 else w) % 256)
  }

  /** (checksum, wchecksum) after running the loop over all of `s`. */
  function Checksums(s: seq<int>): (r: (int, int))
    ensures 0 <= r.0 < 256 && 0 <= r.1 < 256
  {
    if s == [] then (0, 0) else Step(Checksums(s[..|s| - 1]), s[|s| - 1])
  }

  /** Sum of the intermediate checksums seen by the loop, without any masking. */
  function PrefixChecksumTotal(s: seq<int>): nat
  {
    if s == [] then 0 else PrefixChecksumTotal(s[..|s| - 1]) + Sum(s) % 256
  }

  /** Addition with end-around carry in one byte: the representative of `n`
      modulo 255 in 1..255, and 0 only for 0. */
  function EndAroundCarry(n: nat): (r: nat)
    ensures r < 256
  {
    if n == 0 then 0 else (n - 1) % 255 + 1
  }

  /** The checksum is the byte sum of the items. */
  lemma {:induction false} ChecksumIsSum(s: seq<int>)
    ensures Checksums(s).0 == Sum(s) % 256
  {
    if s != [] {
      var p := s[..|s| - 1];
      ChecksumIsSum(p);
      assert (Sum(p) % 256 + s[|s| - 1]) % 256 == (Sum(p) + s[|s| - 1]) % 256;
    }
  }

  lemma ModShift255(x: int, q: int)
    ensures (x + 255 * q) % 255 == x % 255
  {
  }

  /** The weighted checksum is the end-around-carry byte sum of all the
      intermediate checksums: the "+1 on overflow" turns the 8-bit sum into
      a sum modulo 255 kept in 1..255 once anything non-zero was added. */
  lemma {:induction false} WChecksumIsEndAroundCarrySum(s: seq<int>)
    ensures Checksums(s).1 == EndAroundCarry(PrefixChecksumTotal(s))
  {
    if s != [] {
      var p := s[..|s| - 1];
      WChecksumIsEndAroundCarrySum(p);
      ChecksumIsSum(s);
      var c := Checksums(s).0;
      assert c == Sum(s) % 256;
      var w := Checksums(p).1;
      CarryStep(PrefixChecksumTotal(p), c);
      assert Checksums(s).1 == (if w + c > 0xFF then w + c + 1 else w + c) % 256;
    }
  }

  /** One end-around-carry addition of a byte `c` to the accumulator. */
  lemma CarryStep(n: nat, c: nat)
    requires c < 256
    ensures EndAroundCarry(n + c) == (if EndAroundCarry(n) + c > 0xFF then EndAroundCarry(n) + c + 1 else EndAroundCarry(n) + c) % 256
  {
    var w := EndAroundCarry(n);
    if c == 0 {
    } else if n == 0 {
      assert (c - 1) % 255 == c - 1;
    } else {
      var k := (n - 1) / 255;
      assert n - 1 == 255 * k + (n - 1) % 255;
      assert w - 1 == (n - 1) % 255;
      assert n + c - 1 == (w - 1 + c) + 255 * k;
      ModShift255(w - 1 + c, k);
      if w + c > 0xFF {
        assert (w - 1 + c) % 255 == w + c - 256 by {
          ModShift255(w + c - 256, 1);
        }
      } else {
        assert (w - 1 + c) % 255 == w - 1 + c;
      }
    }
  }

  /** The weighted checksum is 0 exactly when every intermediate checksum was 0. */
  lemma WChecksumZero(s: seq<int>)
    ensures Checksums(s).1 == 0 <==> PrefixChecksumTotal(s) == 0
  {
    WChecksumIsEndAroundCarrySum(s);
  }

  lemma {:induction false} SumUpdate(s: seq<int>, i: int, b: int)
    requires 0 <= i < |s|
    ensures Sum(s[i := b]) == Sum(s) - s[i] + b
  {
    var t := s[i := b];
    if i < |s| - 1 {
      assert t[..|t| - 1] == s[..|s| - 1][i := b];
      SumUpdate(s[..|s| - 1], i, b);
    } else {
      assert t[..|t| - 1] == s[..|s| - 1];
    }
  }

  /** Replacing one byte of the checksummed items by a different byte always
      changes the checksum: single-byte errors are detected. */
  lemma SingleByteChangeDetected(s: seq<int>, i: int, b: byte)
    requires 0 <= i < |s| && 0 <= s[i] < 256 && b != s[i]
    ensures Checksums(s[i := b]).0 != Checksums(s).0
  {
    ChecksumIsSum(s);
    ChecksumIsSum(s[i := b]);
    SumUpdate(s, i, b);
    var d := b - s[i];
    assert Sum(s[i := b]) == Sum(s) + d;
    ModDiffers256(Sum(s), d);
  }

  lemma ModDiffers256(x: int, d: int)
    requires -256 < d < 256 && d != 0
    ensures (x + d) % 256 != x % 256
  {
  }

  /** The loop over one more item takes one more step. */
  lemma ChecksumsSnoc(s: seq<int>, x: int)
    ensures Checksums(s + [x]) == Step(Checksums(s), x)
  {
    assert (s + [x])[..|s|] == s;
  }

  /** The loop over a four-item header without parameters. */
  lemma ChecksumsOfFour(a: int, b: int, c: int, d: int)
    ensures Checksums([a, b, c, d]) == Step(Step(Step(Step((0, 0), a), b), c), d)
  {
    ChecksumsSnoc([], a);
    assert [] + [a] == [a];
    ChecksumsSnoc([a], b);
    assert [a] + [b] == [a, b];
    ChecksumsSnoc([a, b], c);
    assert [a, b] + [c] == [a, b, c];
    ChecksumsSnoc([a, b, c], d);
    assert [a, b, c] + [d] == [a, b, c, d];
  }

  /** One accumulator step on bytes, with the masks written as subtractions. */
  lemma StepOnBytes(st: (int, int), x: int)
    requires 0 <= st.0 < 256 && 0 <= st.1 < 256 && 0 <= x < 256
    ensures Step(st, x) == (var cs := if st.0 + x >= 256 then st.0 + x - 256 else st.0 + x;
                            var w := st.1 + cs;
                            (cs, if w > 0xFF then w + 1 - 256 else w))
  {
    var cs := if st.0 + x >= 256 then st.0 + x - 256 else st.0 + x;
    assert (st.0 + x) % 256 == cs;
    var w := st.1 + cs;
    if w > 0xFF {
      assert (w + 1) % 256 == w + 1 - 256;
    } else {
      assert w % 256 == w;
    }
  }
}

/** Shared vocabulary: bytes, optional values, and the Python exceptions the
    protocol code raises, modelled as error values. */
module Common {

  /** One octet, as held by a Python `bytes`/`bytearray` element. */
  type byte = x: int | 0 <= x < 256

  datatype Option<+T> = None | Some(value: T)

  /** The exceptions (and the one custom error) the modelled code can raise. */
  datatype Exception =
    | IndexError            // subscript outside a list or bytes object
    | KeyError              // missing dictionary key
    | TypeError             // arithmetic on None or on a string
    | ValueError            // bytes() element out of range, unknown enum value, bad hex literal
    | AttributeError        // attribute access on None, or write to a read-only block
    | UnboundLocalError     // a local read before any assignment
    | UnsupportedCommand    // command on the connector's deny list
    | BadBlockID            // configuration payload for another block
    | ConnectionError(code: int) // device refused the special-mode switch

  datatype Result<+T> = Ok(value: T) | Err(error: Exception)

  predicate IsByteSeq(s: seq<int>)
  {
    forall i :: 0 <= i < |s| ==> 0 <= s[i] < 256
  }

  /** Plain sum of a sequence, taken from the end so that it follows a
      left-to-right accumulator loop prefix by prefix. */
  function Sum(s: seq<int>): int
  {
    if s == [] then 0 else Sum(s[..|s| - 1]) + s[|s| - 1]
  }

  /** Number of positions of `s` holding `x`. */
  function Count(s: seq<int>, x: int): nat
  {
    if s == [] then 0 else (if s[0] == x then 1 else 0) + Count(s[1..], x)
  }

  function Pow(b: nat, n: nat): nat
  {
    if n == 0 then 1 else b * Pow(b, n - 1)
  }

  lemma PowPositive(b: nat, n: nat)
    requires b > 0
    ensures Pow(b, n) > 0
  {
    if n > 0 { PowPositive(b, n - 1); }
  }
}

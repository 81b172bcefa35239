/** The few host-language notions the reader leans on: bytes, the values a row can
    hold, Python's slice rule, ASCII lower-casing and the truthiness of optional strings. */
module Runtime {
  import opened Wrappers

  type byte = x: int | 0 <= x < 256

  /** A Python float, kept opaque: it stands for an IEEE 754 binary64 bit pattern
      and is never computed with. */
  datatype PyFloat = PyFloat(bits: nat)

  /** A value that can sit in a decoded row: a decoded integer, a raw `bytes` slice,
      a float, or some other object a calibration plugin returned (a datetime, ...). */
  datatype Value = Int(n: int) | Bytes(data: seq<byte>) | Float(f: PyFloat) | Object(id: nat)

  /** Python's truth test on an `Optional[str]`: present and non-empty. */
  predicate Truthy(s: Option<string>)
  {
    s.Some? && s.value != ""
  }

  /** One slice bound normalised as Python does: negative counts from the end, then clamped. */
  function SliceBound(i: int, len: nat): (b: nat)
    ensures b <= len
    ensures 0 <= i <= len ==> b == i
  {
    var k := if i < 0 then i + len else i;
    if k < 0 then 0 else if k > len then len else k
  }

  /** Python's `s[i:j]` on a sequence, for any integers i and j. */
  function PySlice<T>(s: seq<T>, i: int, j: int): (r: seq<T>)
    ensures 0 <= i <= j <= |s| ==> r == s[i..j]
    ensures 0 <= i && 0 <= j <= |s| ==> |r| == if i <= j then j - i else 0
    ensures |r| <= |s|
  {
    var lo := SliceBound(i, |s|);
    var hi := SliceBound(j, |s|);
    if lo < hi then s[lo..hi] else []
  }

  function LowerChar(c: char): (d: char)
    ensures 'A' <= c <= 'Z' ==> 'a' <= d <= 'z'
    ensures !('A' <= c <= 'Z') ==> d == c
  {
    if 'A' <= c <= 'Z' then (c as int - 'A' as int + 'a' as int) as char else c
  }

  /** `str.lower()` restricted to the ASCII letters. */
  function Lower(s: string): (r: string)
    ensures |r| == |s|
    ensures forall i :: 0 <= i < |s| ==> r[i] == LowerChar(s[i])
  {
    seq(|s|, i requires 0 <= i < |s| => LowerChar(s[i]))
  }

  /** Lower-casing is idempotent, so lower-cased strings compare case-insensitively. */
  lemma LowerIdempotent(s: string)
    ensures Lower(Lower(s)) == Lower(s)
  {
  }
}

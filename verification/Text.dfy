/** Bytes, and ASCII text inside JavaScript and Rust strings. */
module Text {

  newtype byte = x: int | 0 <= x < 256

  predicate IsAscii(s: string) { forall i :: 0 <= i < |s| ==> s[i] as int < 128 }

  /** What `.` in a JavaScript regular expression refuses. */
  predicate IsLineTerminator(c: char) { c in ['\n', '\r', '\U{2028}', '\U{2029}'] }

  function AsciiLower(c: char): char {
    if 'A' <= c <= 'Z' then c - 'A' + 'a' else c
  }

  function AsciiLowered(s: string): (r: string)
    ensures |r| == |s|
  {
    seq(|s|, i requires 0 <= i < |s| => AsciiLower(s[i]))
  }

  /** String.prototype.toLowerCase, left arbitrary outside ASCII. */
  ghost predicate LowersAscii(lower: string -> string) {
    forall s :: IsAscii(s) ==> lower(s) == AsciiLowered(s)
  }

  function BytesOf(s: string): (bs: seq<byte>)
    requires IsAscii(s)
    ensures |bs| == |s|
  {
    seq(|s|, i requires 0 <= i < |s| => s[i] as int as byte)
  }

  /** Each byte read as one character, as String.fromCharCode does. */
  function StringOf(bs: seq<byte>): (s: string)
    ensures |s| == |bs|
  {
    seq(|bs|, i requires 0 <= i < |bs| => bs[i] as int as char)
  }

  /** UTF-8, left arbitrary outside ASCII but for its high bytes. */
  ghost predicate EncodesUtf8(utf8: string -> seq<byte>) {
    forall s :: if IsAscii(s) then utf8(s) == BytesOf(s) else exists b :: b in utf8(s) && b >= 128
  }

  lemma StringRoundTrip(bs: seq<byte>)
    requires forall i :: 0 <= i < |bs| ==> bs[i] < 128
    ensures IsAscii(StringOf(bs)) && BytesOf(StringOf(bs)) == bs
  {
  }

  lemma BytesRoundTrip(s: string)
    requires IsAscii(s)
    ensures StringOf(BytesOf(s)) == s
  {
  }
}

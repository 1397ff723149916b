/** The canonical tag rules, once as the client normalizes a raw tag
    (packages/core/src/normalize.ts) and once as the program validates it
    (programs/tip-registry/programs/tip_registry/src/validation.rs). */
module TagRules {
  import opened Text

  const MIN_TAG_LENGTH := 3
  const MAX_TAG_LENGTH := 20

  datatype Reason = Empty | BadAt | TooShort | TooLong | InvalidChar

  datatype Normalized = Accepted(tag: string) | Rejected(reason: Reason)

  predicate IsTagChar(c: char) { 'a' <= c <= 'z' || '0' <= c <= '9' || c == '_' }

  predicate AllTagChars(s: string) { forall i :: 0 <= i < |s| ==> IsTagChar(s[i]) }

  predicate IsTagByte(b: byte) { 97 <= b <= 122 || 48 <= b <= 57 || b == 95 }

  function Normalize(lower: string -> string, raw: string): Normalized {
    if raw == "" then Rejected(Empty)
    else if '@' in raw[1..] then Rejected(BadAt)
    else
      var lowered := lower(if raw[0] == '@' then raw[1..] else raw);
      if lowered == "" then Rejected(Empty)
      else if |lowered| < MIN_TAG_LENGTH then Rejected(TooShort)
      else if |lowered| > MAX_TAG_LENGTH then Rejected(TooLong)
      else if !AllTagChars(lowered) then Rejected(InvalidChar)
      else Accepted(lowered)
  }

  datatype Validation = Valid | Invalid(reason: Reason)

  /** Length counts UTF-8 bytes here, UTF-16 units in Normalize. */
  function Validate(tag: seq<byte>): Validation {
    if |tag| < MIN_TAG_LENGTH then Invalid(TooShort)
    else if |tag| > MAX_TAG_LENGTH then Invalid(TooLong)
    else if exists i :: 0 <= i < |tag| && !IsTagByte(tag[i]) then Invalid(InvalidChar)
    else Valid
  }

  predicate CanonicalTag(tag: string) {
    MIN_TAG_LENGTH <= |tag| <= MAX_TAG_LENGTH && AllTagChars(tag)
  }

  /** Whatever a raw tag is turned into is canonical and stays as it is from
      then on, and every canonical tag is reached. */
  lemma NormalizeFixpoints(lower: string -> string, raw: string)
    requires LowersAscii(lower)
    ensures Normalize(lower, raw).Accepted? ==>
            CanonicalTag(Normalize(lower, raw).tag) &&
            Normalize(lower, Normalize(lower, raw).tag) == Normalize(lower, raw)
    ensures Normalize(lower, raw) == Accepted(raw) <==> CanonicalTag(raw)
  {
    var n := Normalize(lower, raw);
    if n.Accepted? {
      CanonicalAccepted(lower, n.tag);
    }
    if CanonicalTag(raw) {
      CanonicalAccepted(lower, raw);
    }
  }

  lemma CanonicalAccepted(lower: string -> string, tag: string)
    requires LowersAscii(lower) && CanonicalTag(tag)
    ensures Normalize(lower, tag) == Accepted(tag)
  {
    assert IsAscii(tag) && AsciiLowered(tag) == tag;
  }

  /** What a raw tag names: itself without one leading "@". */
  function Body(raw: string): string { if "@" <= raw then raw[1..] else raw }

  /** In ASCII: a raw tag is accepted exactly as its body in lower case, when
      that has 3 to 20 letters, digits and underscores. */
  lemma AsciiNames(lower: string -> string, raw: string, t: string)
    requires LowersAscii(lower) && IsAscii(raw)
    ensures Normalize(lower, raw) == Accepted(t) <==>
            t == AsciiLowered(Body(raw)) && 3 <= |t| <= 20 &&
            forall i :: 0 <= i < |t| ==> t[i] == '_' || 'a' <= t[i] <= 'z' || '0' <= t[i] <= '9'
  {
    var body := Body(raw);
    assert IsAscii(body);
    if raw != "" && '@' in raw[1..] {
      var i :| 0 <= i < |raw[1..]| && raw[1..][i] == '@';
      var j := if "@" <= raw then i else i + 1;
      assert body[j] == '@' && AsciiLowered(body)[j] == '@';
    }
  }

  /** Why a raw tag is rejected, whatever lower-casing does outside ASCII. */
  lemma RejectedExactly(lower: string -> string, raw: string)
    ensures var late, l := exists i :: 1 <= i < |raw| && raw[i] == '@', lower(Body(raw));
            (Normalize(lower, raw) == Rejected(BadAt) <==> late) &&
            (Normalize(lower, raw) == Rejected(Empty) <==> raw == "" || (!late && l == "")) &&
            (Normalize(lower, raw) == Rejected(TooShort) <==> raw != "" && !late && 1 <= |l| < 3) &&
            (Normalize(lower, raw) == Rejected(TooLong) <==> raw != "" && !late && 20 < |l|) &&
            (Normalize(lower, raw) == Rejected(InvalidChar) <==>
              raw != "" && !late && 3 <= |l| <= 20 && exists i :: 0 <= i < |l| && !IsTagChar(l[i]))
  {
    if raw != "" {
      assert '@' in raw[1..] <==> exists i :: 1 <= i < |raw| && raw[i] == '@' by {
        if i :| 1 <= i < |raw| && raw[i] == '@' {
          assert raw[1..][i - 1] == '@';
        }
      }
    }
  }

  /** The program names the first of these that applies. */
  lemma InvalidExactly(tag: seq<byte>)
    ensures (Validate(tag) == Invalid(TooShort) <==> |tag| < 3) && (Validate(tag) == Invalid(TooLong) <==> 20 < |tag|)
    ensures Validate(tag) == Invalid(InvalidChar) <==>
            3 <= |tag| <= 20 && exists i :: 0 <= i < |tag| && !IsTagByte(tag[i])
  {
  }

  /** The program accepts a tag exactly when the client leaves it unchanged. */
  lemma ClientAgreesWithProgram(lower: string -> string, utf8: string -> seq<byte>, tag: string)
    requires LowersAscii(lower) && EncodesUtf8(utf8)
    ensures Normalize(lower, tag) == Accepted(tag) <==> Validate(utf8(tag)) == Valid
  {
    NormalizeFixpoints(lower, tag);
    if IsAscii(tag) {
      assert forall i :: 0 <= i < |tag| ==> (IsTagByte(BytesOf(tag)[i]) <==> IsTagChar(tag[i]));
    } else {
      assert !CanonicalTag(tag);
      var b :| b in utf8(tag) && b >= 128;
      assert !IsTagByte(b);
    }
  }
}

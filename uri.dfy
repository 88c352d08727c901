/**
 * ECMAScript `encodeURIComponent`: every character outside the unreserved set
 * A-Z a-z 0-9 - _ . ! ~ * ' ( ) becomes the percent-escapes of its UTF-8 bytes.
 */
module Uri {

  predicate Unreserved(c: char) {
    || 'A' <= c <= 'Z'
    || 'a' <= c <= 'z'
    || '0' <= c <= '9'
    || c in "-_.!~*'()"
  }

  predicate UpperHexDigit(c: char) {
    '0' <= c <= '9' || 'A' <= c <= 'F'
  }

  /** A character that may appear in the output of `EncodeURIComponent`. */
  predicate EncodedChar(c: char) {
    Unreserved(c) || c == '%' || UpperHexDigit(c)
  }

  /** The UTF-8 encoding of one Unicode scalar value. */
  function Utf8(c: char): (bytes: seq<int>)
    ensures 1 <= |bytes| <= 4
    ensures forall k :: 0 <= k < |bytes| ==> 0 <= bytes[k] < 256
    ensures (c as int < 0x80) <==> |bytes| == 1
  {
    var cp := c as int;
    if cp < 0x80 then [cp]
    else if cp < 0x800 then [0xC0 + cp / 64, 0x80 + cp % 64]
    else if cp < 0x10000 then [0xE0 + cp / 4096, 0x80 + (cp / 64) % 64, 0x80 + cp % 64]
    else [0xF0 + cp / 262144, 0x80 + (cp / 4096) % 64, 0x80 + (cp / 64) % 64, 0x80 + cp % 64]
  }

  function HexDigit(d: int): (c: char)
    requires 0 <= d < 16
    ensures UpperHexDigit(c)
  {
    "0123456789ABCDEF"[d]
  }

  /** `%XX` for one byte, upper-case hexadecimal. */
  function PercentByte(b: int): (r: string)
    requires 0 <= b < 256
    ensures |r| == 3 && r[0] == '%'
    ensures forall k :: 0 <= k < 3 ==> EncodedChar(r[k])
  {
    ['%', HexDigit(b / 16), HexDigit(b % 16)]
  }

  function PercentBytes(bytes: seq<int>): (r: string)
    requires forall k :: 0 <= k < |bytes| ==> 0 <= bytes[k] < 256
    ensures |r| == 3 * |bytes|
    ensures forall k :: 0 <= k < |r| ==> EncodedChar(r[k])
  {
    if |bytes| == 0 then "" else PercentByte(bytes[0]) + PercentBytes(bytes[1..])
  }

  function EncodeChar(c: char): (r: string)
    ensures forall k :: 0 <= k < |r| ==> EncodedChar(r[k])
    ensures Unreserved(c) ==> r == [c]
    ensures !Unreserved(c) ==> |r| >= 3 && r[0] == '%'
  {
    if Unreserved(c) then [c] else PercentBytes(Utf8(c))
  }

  /** `encodeURIComponent(s)` */
  function EncodeURIComponent(s: string): (r: string)
    ensures forall k :: 0 <= k < |r| ==> EncodedChar(r[k])
    ensures |r| >= |s|
  {
    if |s| == 0 then "" else EncodeChar(s[0]) + EncodeURIComponent(s[1..])
  }

  /** Strings made of unreserved characters come out unchanged. */
  lemma {:induction false} EncodeUnreservedIdentity(s: string)
    requires forall k :: 0 <= k < |s| ==> Unreserved(s[k])
    ensures EncodeURIComponent(s) == s
  {
    if |s| > 0 {
      EncodeUnreservedIdentity(s[1..]);
      assert s == [s[0]] + s[1..];
    }
  }

  /** Any other string changes: at least one character is escaped. */
  lemma {:induction false} EncodeChangesReserved(s: string, i: nat)
    requires i < |s| && !Unreserved(s[i])
    ensures EncodeURIComponent(s) != s
    ensures |EncodeURIComponent(s)| > |s|
  {
    if i > 0 {
      EncodeChangesReserved(s[1..], i - 1);
    }
  }

  /**
   * The encoded value never contains a character that would end or split a
   * query parameter, so `?redirect=<encoded>` carries exactly one parameter.
   */
  lemma EncodedIsQuerySafe(s: string)
    ensures var r := EncodeURIComponent(s);
      forall k :: 0 <= k < |r| ==> r[k] !in "&#=?/+ "
  {
    var r := EncodeURIComponent(s);
    forall k | 0 <= k < |r| ensures r[k] !in "&#=?/+ " {
      EncodedCharSafe(r[k]);
    }
  }

  lemma EncodedCharSafe(c: char)
    requires EncodedChar(c)
    ensures c !in "&#=?/+ "
  {
    assert "&#=?/+ " == ['&', '#', '=', '?', '/', '+', ' '];
    assert "-_.!~*'()" == ['-', '_', '.', '!', '~', '*', '\'', '(', ')'];
  }
}

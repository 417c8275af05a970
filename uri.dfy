/** `encodeURIComponent`, which the register page applies to the email and the password
    it puts in the verify-otp URL, and the matching `decodeURIComponent`. */
module UriComponent {
  import opened Js

  /** The characters `encodeURIComponent` leaves alone: `A-Z a-z 0-9 - _ . ! ~ * ' ( )`. */
  predicate Unreserved(c: char) {
    || ('A' <= c <= 'Z') || ('a' <= c <= 'z') || ('0' <= c <= '9')
    || c == '-' || c == '_' || c == '.' || c == '!' || c == '~' || c == '*' || c == '\'' || c == '(' || c == ')'
  }

  type Byte = b: int | 0 <= b < 256

  /** The UTF-8 encoding of one Unicode scalar value. */
  function Utf8(c: char): (bytes: seq<Byte>)
    ensures 1 <= |bytes| <= 4
  {
    var cp := c as int;
    var r0, q1 := cp % 64, cp / 64;
    var r1, q2 := q1 % 64, q1 / 64;
    var r2, q3 := q2 % 64, q2 / 64;
    if cp < 0x80 then [cp]
    else if cp < 0x800 then [0xC0 + q1, 0x80 + r0]
    else if cp < 0x10000 then [0xE0 + q2, 0x80 + r1, 0x80 + r0]
    else [0xF0 + q3, 0x80 + r2, 0x80 + r1, 0x80 + r0]
  }

  /** An upper-case hexadecimal digit. */
  function HexDigit(d: int): (c: char)
    requires 0 <= d < 16
    ensures Unreserved(c)
  {
    if d < 10 then ('0' as int + d) as char else ('A' as int + d - 10) as char
  }

  /** `%XY` for one byte. */
  function Escape(b: Byte): (e: string)
    ensures |e| == 3 && e[0] == '%' && Unreserved(e[1]) && Unreserved(e[2])
  {
    ['%', HexDigit(b / 16), HexDigit(b % 16)]
  }

  function EscapeAll(bytes: seq<Byte>): (e: string)
    ensures |e| == 3 * |bytes|
    ensures forall i | 0 <= i < |e| :: Unreserved(e[i]) || e[i] == '%'
  {
    if bytes == [] then [] else Escape(bytes[0]) + EscapeAll(bytes[1..])
  }

  function EncodeChar(c: char): (e: string)
    ensures e != []
    ensures forall i | 0 <= i < |e| :: Unreserved(e[i]) || e[i] == '%'
  {
    if Unreserved(c) then [c] else EscapeAll(Utf8(c))
  }

  /** `encodeURIComponent(s)`: the output holds only unreserved characters and `%`, so
      never a `&`, `=`, `#` or `+` that would end or change a query parameter. */
  function Encode(s: string): (e: string)
    ensures |e| >= |s|
    ensures forall i | 0 <= i < |e| :: Unreserved(e[i]) || e[i] == '%'
  {
    if s == [] then [] else EncodeChar(s[0]) + Encode(s[1..])
  }

  function HexValue(c: char): Option<int> {
    if '0' <= c <= '9' then Some(c as int - '0' as int)
    else if 'A' <= c <= 'F' then Some(c as int - 'A' as int + 10)
    else if 'a' <= c <= 'f' then Some(c as int - 'a' as int + 10)
    else None
  }

  /** The byte of an escape `%XY` at the start of t. */
  function EscapedByte(t: string): (b: Option<Byte>)
  {
    if |t| >= 3 && t[0] == '%' && HexValue(t[1]).Some? && HexValue(t[2]).Some? then
      var hi, lo := HexValue(t[1]).value, HexValue(t[2]).value;
      if 0 <= hi < 16 && 0 <= lo < 16 then Some(hi * 16 + lo) else None
    else None
  }

  /** How many bytes a UTF-8 sequence starting with b has; 0 when b cannot start one. */
  function SequenceLength(b: Byte): nat {
    if b < 0x80 then 1
    else if 0xC0 <= b < 0xE0 then 2
    else if 0xE0 <= b < 0xF0 then 3
    else if 0xF0 <= b < 0xF8 then 4
    else 0
  }

  /** m escapes of continuation bytes (10xxxxxx) at the start of t. */
  function Continuations(t: string, m: nat): (r: Option<seq<Byte>>)
    ensures r.Some? ==> |r.value| == m && |t| >= 3 * m
    decreases m
  {
    if m == 0 then Some([])
    else
      match EscapedByte(t)
      case None => None
      case Some(b) =>
        if 0x80 <= b < 0xC0 then
          match Continuations(t[3..], m - 1)
          case None => None
          case Some(rest) => Some([b] + rest)
        else None
  }

  /** The code point a UTF-8 sequence of one to four bytes spells. */
  function CodePoint(bytes: seq<Byte>): int
    requires 1 <= |bytes| <= 4
  {
    var b0: int := bytes[0];
    if |bytes| == 1 then b0
    else
      var b1: int := bytes[1];
      if |bytes| == 2 then (b0 - 0xC0) * 64 + (b1 - 0x80)
      else
        var b2: int := bytes[2];
        if |bytes| == 3 then ((b0 - 0xE0) * 64 + (b1 - 0x80)) * 64 + (b2 - 0x80)
        else
          var b3: int := bytes[3];
          (((b0 - 0xF0) * 64 + (b1 - 0x80)) * 64 + (b2 - 0x80)) * 64 + (b3 - 0x80)
  }

  /** The smallest code point a sequence of n bytes may spell (longer forms are refused). */
  function MinCodePoint(n: nat): int {
    if n <= 1 then 0 else if n == 2 then 0x80 else if n == 3 then 0x800 else 0x10000
  }

  predicate IsScalarValue(cp: int) {
    (0 <= cp < 0xD800) || (0xE000 <= cp < 0x11_0000)
  }

  /** The character spelled by the escapes at the start of t and how many characters
      of t they take; None where `decodeURIComponent` throws a URIError. */
  function DecodeEscapes(t: string): (r: Option<(char, nat)>)
    ensures r.Some? ==> 3 <= r.value.1 <= |t|
  {
    match EscapedByte(t)
    case None => None
    case Some(b0) =>
      var n := SequenceLength(b0);
      if n == 0 then None
      else
        match Continuations(t[3..], n - 1)
        case None => None
        case Some(rest) =>
          var cp := CodePoint([b0] + rest);
          if cp < MinCodePoint(n) || !IsScalarValue(cp) then None
          else Some((cp as char, 3 * n))
  }

  function Prepend(c: char, r: Option<string>): Option<string> {
    match r
    case None => None
    case Some(s) => Some([c] + s)
  }

  /** `decodeURIComponent(t)`; None where it throws a URIError. */
  function Decode(t: string): (r: Option<string>)
    ensures r.Some? ==> |r.value| <= |t|
    ensures (forall i | 0 <= i < |t| :: t[i] != '%') ==> r == Some(t)
    decreases |t|
  {
    if t == [] then Some([])
    else if t[0] != '%' then
      assert [t[0]] + t[1..] == t;
      assert forall i | 0 <= i < |t[1..]| :: t[1..][i] == t[i + 1];
      Prepend(t[0], Decode(t[1..]))
    else
      match DecodeEscapes(t)
      case None => None
      case Some(p) => Prepend(p.0, Decode(t[p.1..]))
  }

  lemma EscapeRead(b: Byte, rest: string)
    ensures EscapedByte(Escape(b) + rest) == Some(b)
  {
    var t := Escape(b) + rest;
    assert t[1] == HexDigit(b / 16) && t[2] == HexDigit(b % 16);
  }

  lemma {:induction false} ContinuationsRead(bytes: seq<Byte>, rest: string)
    requires forall i | 0 <= i < |bytes| :: 0x80 <= bytes[i] < 0xC0
    ensures Continuations(EscapeAll(bytes) + rest, |bytes|) == Some(bytes)
    decreases |bytes|
  {
    if bytes != [] {
      var t := EscapeAll(bytes) + rest;
      FirstEscape(bytes, rest);
      ContinuationsRead(bytes[1..], rest);
      ContinuationsStep(t, |bytes|, bytes[0], bytes[1..]);
      assert [bytes[0]] + bytes[1..] == bytes;
    }
  }

  lemma ContinuationsStep(t: string, m: nat, b: Byte, more: seq<Byte>)
    requires m > 0 && EscapedByte(t) == Some(b) && 0x80 <= b < 0xC0
    requires |t| >= 3 && Continuations(t[3..], m - 1) == Some(more)
    ensures Continuations(t, m) == Some([b] + more)
  {
  }

  /** The escapes of a byte sequence begin with the escape of its first byte. */
  lemma FirstEscape(bytes: seq<Byte>, rest: string)
    requires bytes != []
    ensures EscapedByte(EscapeAll(bytes) + rest) == Some(bytes[0])
    ensures (EscapeAll(bytes) + rest)[3..] == EscapeAll(bytes[1..]) + rest
  {
    var tail := EscapeAll(bytes[1..]) + rest;
    EscapeAllSplit(bytes, rest);
    DropEscape(bytes[0], tail);
    EscapeRead(bytes[0], tail);
  }

  lemma EscapeAllSplit(bytes: seq<Byte>, rest: string)
    requires bytes != []
    ensures EscapeAll(bytes) + rest == Escape(bytes[0]) + (EscapeAll(bytes[1..]) + rest)
  {
  }

  lemma DropEscape(b: Byte, tail: string)
    ensures (Escape(b) + tail)[3..] == tail
  {
  }

  /** The UTF-8 bytes of a character are a well-formed, shortest sequence for it. */
  lemma Utf8WellFormed(c: char)
    ensures SequenceLength(Utf8(c)[0]) == |Utf8(c)|
    ensures forall i | 1 <= i < |Utf8(c)| :: 0x80 <= Utf8(c)[i] < 0xC0
    ensures CodePoint(Utf8(c)) == c as int
    ensures c as int >= MinCodePoint(|Utf8(c)|)
  {
    var cp := c as int;
    var r0, q1 := cp % 64, cp / 64;
    var r1, q2 := q1 % 64, q1 / 64;
    var r2, q3 := q2 % 64, q2 / 64;
    assert cp == q1 * 64 + r0 && q1 == q2 * 64 + r1 && q2 == q3 * 64 + r2;
  }

  /** Decoding what one character encodes to gives back that character. */
  lemma DecodeEncodedChar(c: char, rest: string)
    ensures Decode(EncodeChar(c) + rest) == Prepend(c, Decode(rest))
  {
    var t := EncodeChar(c) + rest;
    if Unreserved(c) {
      assert t[0] == c && t[1..] == rest;
    } else {
      var bytes := Utf8(c);
      EscapesOfChar(c, rest);
      assert t[0] == '%';
      assert t[3 * |bytes|..] == rest;
    }
  }

  /** The escapes of a character's UTF-8 bytes decode to that character. */
  lemma EscapesOfChar(c: char, rest: string)
    ensures DecodeEscapes(EscapeAll(Utf8(c)) + rest) == Some((c, 3 * |Utf8(c)|))
  {
    var bytes := Utf8(c);
    var t := EscapeAll(bytes) + rest;
    Utf8WellFormed(c);
    FirstEscape(bytes, rest);
    ContinuationsRead(bytes[1..], rest);
    assert Continuations(t[3..], |bytes| - 1) == Some(bytes[1..]);
    assert [bytes[0]] + bytes[1..] == bytes;
  }

  /** `decodeURIComponent(encodeURIComponent(s)) == s` for every string. */
  lemma {:induction false} DecodeEncode(s: string)
    ensures Decode(Encode(s)) == Some(s)
  {
    if s != [] {
      DecodeEncodedChar(s[0], Encode(s[1..]));
      DecodeEncode(s[1..]);
      assert [s[0]] + s[1..] == s;
    }
  }
}

/** Percent-encoding of a path id (section 2.1 of RFC 3986) over its UTF-8 bytes. */
module Percent {
  import opened Sequences

  type Byte = b: nat | b < 256

  // ---------------------------------------------------------------- UTF-8

  /** A continuation byte carries six bits. */
  function Low(n: nat): Byte {
    0x80 + n % 64
  }

  function Utf8(c: char): (bytes: seq<Byte>)
    ensures bytes != []
  {
    var n: nat := c as int;
    var a := n / 64;
    var b := a / 64;
    if n < 0x80 then [n]
    else if n < 0x800 then [0xC0 + a, Low(n)]
    else if n < 0x10000 then [0xE0 + b, Low(a), Low(n)]
    else [0xF0 + b / 64, Low(b), Low(a), Low(n)]
  }

  function Utf8All(s: string): seq<Byte> {
    if s == "" then [] else Utf8(s[0]) + Utf8All(s[1..])
  }

  predicate IsScalar(n: int) {
    0 <= n < 0xD800 || 0xE000 <= n < 0x110000
  }

  function CharOf(n: int): Option<char> {
    if IsScalar(n) then Some(n as char) else None
  }

  /** How many bytes a character takes, by its first byte. */
  function Width(first: Byte): nat {
    if first < 0x80 then 1 else if first < 0xE0 then 2 else if first < 0xF0 then 3 else 4
  }

  function Joined(high: int, low: int): int {
    high * 64 + (low - 0x80)
  }

  /** The number that the first character's bytes stand for. */
  function Number(bytes: seq<Byte>): int
    requires bytes != [] && Width(bytes[0]) <= |bytes|
  {
    var k := Width(bytes[0]);
    var b0: int := bytes[0];
    if k == 1 then b0
    else if k == 2 then Joined(b0 - 0xC0, bytes[1])
    else if k == 3 then Joined(Joined(b0 - 0xE0, bytes[1]), bytes[2])
    else Joined(Joined(Joined(b0 - 0xF0, bytes[1]), bytes[2]), bytes[3])
  }

  /** The first character, and how many bytes it took. */
  function FirstChar(bytes: seq<Byte>): Option<(char, nat)> {
    if bytes == [] || |bytes| < Width(bytes[0]) then None else
    match CharOf(Number(bytes))
    case None => None
    case Some(c) => Some((c, Width(bytes[0])))
  }

  function FromUtf8(bytes: seq<Byte>): Option<string>
    decreases |bytes|
  {
    if bytes == [] then Some("") else
    match FirstChar(bytes)
    case None => None
    case Some((c, k)) =>
      match FromUtf8(bytes[k..])
      case None => None
      case Some(s) => Some([c] + s)
  }

  lemma FirstCharOfUtf8(c: char, rest: seq<Byte>)
    ensures FirstChar(Utf8(c) + rest) == Some((c, |Utf8(c)|))
  {
    assert IsScalar(c as int);
  }

  lemma {:induction false} Utf8RoundTrip(s: string)
    ensures FromUtf8(Utf8All(s)) == Some(s)
  {
    if s != "" {
      FirstCharOfUtf8(s[0], Utf8All(s[1..]));
      assert Utf8All(s)[|Utf8(s[0])|..] == Utf8All(s[1..]);
      Utf8RoundTrip(s[1..]);
      assert [s[0]] + s[1..] == s;
    }
  }

  // ---------------------------------------------------------------- percent-encoding

  predicate IsUnreserved(b: Byte) {
    || '0' as int <= b <= '9' as int || 'A' as int <= b <= 'Z' as int || 'a' as int <= b <= 'z' as int
    || b == '-' as int || b == '.' as int || b == '_' as int || b == '~' as int
  }

  function HexChar(d: nat): char
    requires d < 16
  {
    if d < 10 then ('0' as int + d) as char else ('A' as int + d - 10) as char
  }

  function HexValue(c: char): Option<nat> {
    if '0' <= c <= '9' then Some(c as int - '0' as int)
    else if 'A' <= c <= 'F' then Some(c as int - 'A' as int + 10)
    else if 'a' <= c <= 'f' then Some(c as int - 'a' as int + 10)
    else None
  }

  function QuoteByte(b: Byte): (s: string)
    ensures s != ""
  {
    if IsUnreserved(b) then [b as char] else ['%', HexChar(b / 16), HexChar(b % 16)]
  }

  function QuoteBytes(bytes: seq<Byte>): string {
    if bytes == [] then "" else QuoteByte(bytes[0]) + QuoteBytes(bytes[1..])
  }

  /** `quote(id, safe="")`. */
  function Quote(id: string): string {
    QuoteBytes(Utf8All(id))
  }

  /** The bytes of a quoted text; a percent sign without two hex digits stands for itself. */
  function UnquoteBytes(s: string): Option<seq<Byte>> {
    if s == "" then Some([])
    else if s[0] == '%' && |s| >= 3 && HexValue(s[1]).Some? && HexValue(s[2]).Some? then
      match UnquoteBytes(s[3..])
      case None => None
      case Some(rest) =>
        var b := HexValue(s[1]).value * 16 + HexValue(s[2]).value;
        Some([b] + rest)
    else if s[0] as int < 256 then
      match UnquoteBytes(s[1..])
      case None => None
      case Some(rest) => Some([s[0] as int] + rest)
    else None
  }

  function Unquote(s: string): Option<string> {
    match UnquoteBytes(s)
    case None => None
    case Some(bytes) => FromUtf8(bytes)
  }

  lemma {:induction false} UnquoteBytesRoundTrip(bytes: seq<Byte>)
    ensures UnquoteBytes(QuoteBytes(bytes)) == Some(bytes)
  {
    if bytes != [] {
      UnquoteBytesRoundTrip(bytes[1..]);
      assert [bytes[0]] + bytes[1..] == bytes;
    }
  }

  /** Decoding an encoded id gives the id back. */
  lemma QuoteRoundTrip(id: string)
    ensures Unquote(Quote(id)) == Some(id)
  {
    UnquoteBytesRoundTrip(Utf8All(id));
    Utf8RoundTrip(id);
  }

  lemma {:induction false} QuotedIsPlain(bytes: seq<Byte>)
    ensures forall c :: c in QuoteBytes(bytes) ==> c != '/' && c != '\n'
    ensures QuoteBytes(bytes) == "" <==> bytes == []
  {
    if bytes != [] {
      QuotedIsPlain(bytes[1..]);
    }
  }

  /** A quoted id is one path segment, and empty only for the empty id. */
  lemma QuoteIsOneSegment(id: string)
    ensures '/' !in Quote(id) && '\n' !in Quote(id)
    ensures Quote(id) == "" <==> id == ""
  {
    QuotedIsPlain(Utf8All(id));
  }

  // ---------------------------------------------------------------- the spelling

  lemma QuoteOfOne(c: char)
    requires c as int < 128
    ensures Quote([c]) == QuoteByte(c as int)
  {
    var b: nat := c as int;
    assert [c][1..] == "";
    assert Utf8All([c]) == [b] && [b][1..] == [];
    assert QuoteBytes([b]) == QuoteByte(b) + QuoteBytes([]);
    assert QuoteByte(b) + "" == QuoteByte(b);
  }

  lemma HexDigits(d: nat)
    requires d < 16
    ensures HexChar(d) == "0123456789ABCDEF"[d]
  {
  }

  /** A letter, a digit and the four marks of section 2.3 of RFC 3986 stand for themselves; any other ASCII character
      is a percent sign and its number in two hexadecimal digits. */
  lemma QuoteOfAscii(c: char, hi: nat, lo: nat)
    requires hi < 8 && lo < 16 && c as int == 16 * hi + lo
    ensures Quote([c]) ==
      if 'a' <= c <= 'z' || 'A' <= c <= 'Z' || '0' <= c <= '9' || c in {'-', '.', '_', '~'} then [c]
      else ['%', "0123456789ABCDEF"[hi], "0123456789ABCDEF"[lo]]
  {
    QuoteOfOne(c);
    HexDigits(hi);
    HexDigits(lo);
    var b: nat := c as int;
    assert b / 16 == hi && b % 16 == lo;
  }
}

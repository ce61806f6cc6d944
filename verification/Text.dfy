/** Strings as the source's language treats them. A character beyond ASCII counts as one that is
    neither a space nor a digit and has no other case. */
module Text {
  predicate IsSpace(c: char) {
    c == ' ' || '\t' <= c <= '\r' || 28 as char <= c <= 31 as char
  }

  predicate IsDigit(c: char) {
    '0' <= c <= '9'
  }

  predicate AllDigits(s: string) {
    forall i :: 0 <= i < |s| ==> IsDigit(s[i])
  }

  function UpperChar(c: char): char {
    if 'a' <= c <= 'z' then (c as int - 32) as char else c
  }

  function Upper(s: string): (r: string)
    ensures |r| == |s|
  {
    seq(|s|, i requires 0 <= i < |s| => UpperChar(s[i]))
  }

  function TrimLeft(s: string): string {
    if s != "" && IsSpace(s[0]) then TrimLeft(s[1..]) else s
  }

  function TrimRight(s: string): string {
    if s != "" && IsSpace(s[|s| - 1]) then TrimRight(s[..|s| - 1]) else s
  }

  /** Without white space at either end. */
  function Strip(s: string): string {
    TrimRight(TrimLeft(s))
  }

  /** No white space at either end. */
  predicate Stripped(s: string) {
    s != "" ==> !IsSpace(s[0]) && !IsSpace(s[|s| - 1])
  }

  lemma {:induction false} TrimRightEnds(s: string)
    ensures TrimRight(s) <= s
    ensures TrimRight(s) != "" ==> !IsSpace(TrimRight(s)[|TrimRight(s)| - 1])
    ensures (s != "" ==> !IsSpace(s[|s| - 1])) ==> TrimRight(s) == s
  {
    if s != "" && IsSpace(s[|s| - 1]) {
      TrimRightEnds(s[..|s| - 1]);
    }
  }

  lemma {:induction false} TrimLeftEnds(s: string)
    ensures TrimLeft(s) != "" ==> !IsSpace(TrimLeft(s)[0])
    ensures (s != "" ==> !IsSpace(s[0])) ==> TrimLeft(s) == s
  {
    if s != "" && IsSpace(s[0]) {
      TrimLeftEnds(s[1..]);
    }
  }

  lemma StripStrips(s: string)
    ensures Stripped(Strip(s))
  {
    TrimLeftEnds(s);
    TrimRightEnds(TrimLeft(s));
  }

  /** A stripped string is what `Strip` leaves alone. */
  lemma StripIdentity(s: string)
    ensures Strip(s) == s <==> Stripped(s)
  {
    StripStrips(s);
    if Stripped(s) {
      TrimLeftEnds(s);
      TrimRightEnds(s);
    }
  }

  lemma UpperStripped(s: string)
    ensures Stripped(Upper(s)) <==> Stripped(s)
    ensures Upper(Upper(s)) == Upper(s)
  {
  }

  /** The first position of `c`, or the length. */
  function IndexOf(s: string, c: char): (i: nat)
    ensures i <= |s| && c !in s[..i]
    ensures i < |s| ==> s[i] == c
  {
    if s == "" then 0
    else if s[0] == c then 0
    else
      assert s[..1 + IndexOf(s[1..], c)] == [s[0]] + s[1..][..IndexOf(s[1..], c)];
      1 + IndexOf(s[1..], c)
  }

  /** Up to the first separator, and after it. */
  lemma IndexOfFirst(a: string, c: char, b: string)
    requires c !in a
    ensures IndexOf(a + [c] + b, c) == |a|
  {
    var s := a + [c] + b;
    assert s[|a|] == c && s[..|a|] == a;
  }

  lemma IndexOfNone(a: string, c: char)
    requires c !in a
    ensures IndexOf(a, c) == |a|
  {
  }

  /** The parts between separators: one more than there are separators. */
  function Split(s: string, c: char): (parts: seq<string>)
    ensures |parts| >= 1
    ensures forall i :: 0 <= i < |parts| ==> c !in parts[i]
    decreases |s|
  {
    var i := IndexOf(s, c);
    if i == |s| then [s] else [s[..i]] + Split(s[i + 1..], c)
  }

  lemma SplitHead(a: string, c: char, rest: string)
    requires c !in a
    ensures Split(a + [c] + rest, c) == [a] + Split(rest, c)
  {
    IndexOfFirst(a, c, rest);
    assert (a + [c] + rest)[..|a|] == a;
    assert (a + [c] + rest)[|a| + 1..] == rest;
  }

  // ---------------------------------------------------------------- decimal numbers

  function Pow10(n: nat): (p: nat)
    ensures p >= 1
  {
    if n == 0 then 1 else 10 * Pow10(n - 1)
  }

  function DigitChar(d: nat): (c: char)
    requires d < 10
    ensures IsDigit(c) && c as int - '0' as int == d
  {
    ('0' as int + d) as char
  }

  function DigitValue(c: char): (d: nat)
    requires IsDigit(c)
    ensures d < 10
  {
    c as int - '0' as int
  }

  function ParseNat(s: string): nat
    requires AllDigits(s)
  {
    if s == "" then 0 else 10 * ParseNat(s[..|s| - 1]) + DigitValue(s[|s| - 1])
  }

  /** Decimal digits without leading zeros. */
  function NatText(n: nat): (s: string)
    ensures s != "" && AllDigits(s)
  {
    if n < 10 then [DigitChar(n)] else NatText(n / 10) + [DigitChar(n % 10)]
  }

  /** The last `width` digits, with leading zeros. */
  function Padded(n: nat, width: nat): (s: string)
    ensures |s| == width && AllDigits(s)
    decreases width
  {
    if width == 0 then "" else Padded(n / 10, width - 1) + [DigitChar(n % 10)]
  }

  function Zeros(n: nat): (s: string)
    ensures |s| == n && AllDigits(s)
  {
    if n == 0 then "" else Zeros(n - 1) + "0"
  }

  lemma {:induction false} ParseNatText(n: nat)
    ensures ParseNat(NatText(n)) == n
  {
    if n >= 10 {
      ParseNatText(n / 10);
      assert NatText(n)[..|NatText(n)| - 1] == NatText(n / 10);
    }
  }

  lemma {:induction false} ParsePadded(n: nat, width: nat)
    requires n < Pow10(width)
    ensures ParseNat(Padded(n, width)) == n
    decreases width
  {
    if width > 0 {
      ParsePadded(n / 10, width - 1);
      assert Padded(n, width)[..width - 1] == Padded(n / 10, width - 1);
    }
  }

  lemma ShiftDigit(a: nat, p: nat, b: nat, d: nat)
    ensures 10 * (a * p + b) + d == a * (10 * p) + (10 * b + d)
  {
  }

  lemma {:induction false} ParseNatAppend(a: string, b: string)
    requires AllDigits(a) && AllDigits(b)
    ensures AllDigits(a + b) && ParseNat(a + b) == ParseNat(a) * Pow10(|b|) + ParseNat(b)
    decreases |b|
  {
    if b == "" {
      assert a + b == a;
    } else {
      var n := |b| - 1;
      var b', d := b[..n], DigitValue(b[n]);
      ParseNatAppend(a, b');
      var v, w, p := ParseNat(a), ParseNat(b'), Pow10(n);
      assert (a + b)[..|a + b| - 1] == a + b' && (a + b)[|a + b| - 1] == b[n];
      assert ParseNat(a + b) == 10 * (v * p + w) + d;
      assert ParseNat(b) == 10 * w + d && Pow10(|b|) == 10 * p;
      ShiftDigit(v, p, w, d);
    }
  }

  lemma {:induction false} ParseZeros(n: nat)
    ensures ParseNat(Zeros(n)) == 0
  {
    if n > 0 {
      ParseZeros(n - 1);
      assert Zeros(n)[..n - 1] == Zeros(n - 1);
    }
  }

  /** Without trailing zeros, but never empty. */
  function TrimZeros(s: string): (t: string)
    ensures t <= s && (s != "" ==> t != "")
    ensures AllDigits(s) ==> AllDigits(t)
  {
    if |s| > 1 && s[|s| - 1] == '0' then TrimZeros(s[..|s| - 1]) else s
  }

  lemma {:induction false} TrimZerosSplits(s: string)
    requires s != "" && AllDigits(s)
    ensures var t := TrimZeros(s); t != "" && t <= s && AllDigits(t) && s == t + Zeros(|s| - |t|)
  {
    if |s| > 1 && s[|s| - 1] == '0' {
      TrimZerosSplits(s[..|s| - 1]);
      assert s == s[..|s| - 1] + "0";
    } else {
      assert s == s + Zeros(0);
    }
  }

  /** Zeros at the end are a power of ten. */
  lemma TrimZerosValue(s: string)
    requires s != "" && AllDigits(s)
    ensures var t := TrimZeros(s); AllDigits(t) && |t| <= |s| && ParseNat(s) == ParseNat(t) * Pow10(|s| - |t|)
  {
    TrimZerosSplits(s);
    var t := TrimZeros(s);
    ParseNatAppend(t, Zeros(|s| - |t|));
    ParseZeros(|s| - |t|);
  }

  /** Digits are read from the left in tens. */
  lemma DigitsAreTens(s: string, c: char)
    requires AllDigits(s) && '0' <= c <= '9'
    ensures AllDigits(s + [c]) && ParseNat(s + [c]) == 10 * ParseNat(s) + (c as int - 48)
  {
    assert (s + [c])[..|s|] == s;
  }

  /** Small letters lose 32, everything else stays. */
  lemma UpperLetters(s: string, i: nat)
    requires i < |s|
    ensures Upper(s)[i] as int == (if 'a' <= s[i] <= 'z' then s[i] as int - 32 else s[i] as int)
  {
  }

  /** Stripping takes white space off both ends and nothing else. */
  lemma StripIs(s: string) returns (left: string, right: string)
    ensures s == left + Strip(s) + right && Stripped(Strip(s))
    ensures (forall i :: 0 <= i < |left| ==> IsSpace(left[i])) && (forall i :: 0 <= i < |right| ==> IsSpace(right[i]))
  {
    left := LeftEnd(s);
    right := RightEnd(TrimLeft(s));
    StripStrips(s);
  }

  lemma {:induction false} LeftEnd(s: string) returns (left: string)
    ensures s == left + TrimLeft(s) && forall i :: 0 <= i < |left| ==> IsSpace(left[i])
  {
    left := "";
    if s != "" && IsSpace(s[0]) {
      left := LeftEnd(s[1..]);
      left := [s[0]] + left;
      assert s == [s[0]] + s[1..];
    }
  }

  lemma {:induction false} RightEnd(s: string) returns (right: string)
    ensures s == TrimRight(s) + right && forall i :: 0 <= i < |right| ==> IsSpace(right[i])
  {
    right := "";
    if s != "" && IsSpace(s[|s| - 1]) {
      right := RightEnd(s[..|s| - 1]);
      right := right + [s[|s| - 1]];
      assert s == s[..|s| - 1] + [s[|s| - 1]];
    }
  }
}

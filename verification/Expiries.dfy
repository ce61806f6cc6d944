/** The expiry normalisers that the routes apply to one and the same text. */
module Expiries {
  import opened Sequences
  import opened Text
  import opened Calendar

  // ---------------------------------------------------------------- reading dates

  function Checked(d: Date): Option<Date> {
    if ValidDate(d) then Some(d) else None
  }

  /** Year, month and day from eight digits. */
  function FromDigits(s: string): Option<Date>
    requires |s| == 8 && AllDigits(s)
  {
    Checked(Date(ParseNat(s[..4]), ParseNat(s[4..6]), ParseNat(s[6..8])))
  }

  predicate IsIsoDay(s: string) {
    && |s| == 10 && s[4] == '-' && s[7] == '-'
    && AllDigits(s[..4]) && AllDigits(s[5..7]) && AllDigits(s[8..10])
  }

  predicate IsIsoWeekDay(s: string) {
    && |s| == 10 && s[4] == '-' && s[5] == 'W' && s[8] == '-'
    && AllDigits(s[..4]) && AllDigits(s[6..8]) && IsDigit(s[9])
  }

  /** Whether a year has 53 ISO weeks: it starts on a Thursday, or on a Wednesday and is a leap year. */
  predicate HasWeek53(y: nat)
    requires MIN_YEAR <= y <= MAX_YEAR
  {
    var w := Weekday(Date(y, 1, 1));
    w == 3 || (w == 2 && IsLeap(y))
  }

  /** The day of an ISO week date; week 1 holds 4 January. */
  function FromIsoWeek(y: nat, week: nat, day: nat): Option<Date> {
    if !(MIN_YEAR <= y <= MAX_YEAR) || !(1 <= day <= 7) then None
    else if !(1 <= week <= 52) && !(week == 53 && HasWeek53(y)) then None
    else
      var fourth := Date(y, 1, 4);
      FromOrdinal(Ordinal(fourth) - Weekday(fourth) + (week - 1) * 7 + (day - 1))
  }

  /** `date.fromisoformat` on ten characters with a dash in fifth place. */
  function FromIso(s: string): Option<Date>
    requires |s| == 10 && s[4] == '-'
  {
    if IsIsoDay(s) then FromDigits(s[..4] + s[5..7] + s[8..10])
    else if IsIsoWeekDay(s) then FromIsoWeek(ParseNat(s[..4]), ParseNat(s[6..8]), DigitValue(s[9]))
    else None
  }

  lemma FromIsoIsValid(s: string)
    requires |s| == 10 && s[4] == '-'
    ensures FromIso(s).Some? ==> ValidDate(FromIso(s).value)
  {
    if !IsIsoDay(s) && IsIsoWeekDay(s) {
      var y, week, day := ParseNat(s[..4]), ParseNat(s[6..8]), DigitValue(s[9]);
      if MIN_YEAR <= y <= MAX_YEAR && 1 <= week {
        var fourth := Date(y, 1, 4);
        FromOrdinalInverts(Ordinal(fourth) - Weekday(fourth) + (week as int - 1) * 7 + (day as int - 1));
      }
    }
  }

  function DigitsOf(s: string): (r: string)
    ensures AllDigits(r)
  {
    if s == "" then "" else (if IsDigit(s[0]) then [s[0]] else "") + DigitsOf(s[1..])
  }

  function WithoutDashes(s: string): string {
    if s == "" then "" else (if s[0] == '-' then "" else [s[0]]) + WithoutDashes(s[1..])
  }

  // ---------------------------------------------------------------- the normalisers

  predicate Dashed(e: string) {
    |e| >= 10 && e[4] == '-'
  }

  predicate IsCompact(s: string) {
    |s| == 8 && AllDigits(s)
  }

  function Isoform(s: string): string
    requires |s| == 8
  {
    s[..4] + "-" + s[4..6] + "-" + s[6..8]
  }

  /** `normalize_expiry`: both spellings as `YYYY-MM-DD`, anything else stripped. */
  function NormalizeExpiry(value: string): string {
    var s := Strip(value);
    if |s| >= 10 && IsIsoDay(s[..10]) then s[..10] else if IsCompact(s) then Isoform(s) else s
  }

  /** The four compact normalisers: `_norm_expiry`, `_norm_expiry_db` and two `_norm_expiry_key`. */
  function CompactExpiry(value: string): string {
    var e := Strip(value);
    if Dashed(e) then e[..4] + e[5..7] + e[8..10] else e
  }

  /** `_expiry_to_date` and `_norm_expiry_date`. */
  function ExpiryToDate(value: string): Option<Date> {
    var e := Strip(value);
    if Dashed(e) then FromIso(e[..10])
    else
      var digits := DigitsOf(e);
      if |digits| >= 8 then FromDigits(digits[..8]) else None
  }

  /** `_expiry_to_date_param`. */
  function ExpiryToDateParam(value: string): Option<string> {
    var e := CompactExpiry(Strip(value));
    if IsCompact(e) then Some(Isoform(e))
    else
      var raw := Strip(value);
      if Dashed(raw) then Some(raw[..10]) else None
  }

  /** `_parse_expiry_date` of the put/call rollup; a dashed text that is no date gets a second try. */
  function ParseExpiryDate(value: string): Option<Date> {
    var s := Strip(value);
    if Dashed(s) && FromIso(s[..10]).Some? then FromIso(s[..10])
    else
      var t := WithoutDashes(s);
      var digits := if |t| >= 8 then t[..8] else t;
      if IsCompact(digits) then FromDigits(digits) else None
  }

  lemma ParsedIsValid(value: string)
    ensures ParseExpiryDate(value).Some? ==> ValidDate(ParseExpiryDate(value).value)
  {
    var s := Strip(value);
    if Dashed(s) {
      FromIsoIsValid(s[..10]);
    }
  }

  // ---------------------------------------------------------------- spellings

  function Compact(d: Date): string {
    Padded(d.year, 4) + Padded(d.month, 2) + Padded(d.day, 2)
  }

  function Iso(d: Date): string {
    Isoform(Compact(d))
  }

  lemma CompactRead(d: Date)
    requires ValidDate(d)
    ensures IsCompact(Compact(d)) && FromDigits(Compact(d)) == Some(d)
  {
    var s := Compact(d);
    assert s[..4] == Padded(d.year, 4) && s[4..6] == Padded(d.month, 2) && s[6..8] == Padded(d.day, 2);
    ParsePadded(d.year, 4);
    ParsePadded(d.month, 2);
    ParsePadded(d.day, 2);
  }

  lemma IsoformRead(s: string)
    requires IsCompact(s)
    ensures IsIsoDay(Isoform(s)) && FromIso(Isoform(s)) == FromDigits(s)
  {
    var t := Isoform(s);
    assert t[..4] == s[..4] && t[5..7] == s[4..6] && t[8..10] == s[6..8];
    assert t[..4] + t[5..7] + t[8..10] == s;
  }

  lemma {:induction false} DigitsOfDigits(s: string)
    requires AllDigits(s)
    ensures DigitsOf(s) == s && WithoutDashes(s) == s
  {
    if s != "" {
      DigitsOfDigits(s[1..]);
    }
  }

  lemma DigitsStripped(s: string)
    requires s != "" && IsDigit(s[0]) && IsDigit(s[|s| - 1])
    ensures Strip(s) == s
  {
  }

  /** On either spelling of a date, the ISO one followed by anything, every normaliser denotes that day. */
  lemma NormalisersAgree(value: string, d: Date, suffix: string)
    requires ValidDate(d)
    requires Strip(value) == Compact(d) || Strip(value) == Iso(d) + suffix
    ensures NormalizeExpiry(value) == Iso(d)
    ensures CompactExpiry(value) == Compact(d)
    ensures ExpiryToDate(value) == Some(d)
    ensures ExpiryToDateParam(value) == Some(Iso(d))
    ensures ParseExpiryDate(value) == Some(d)
  {
    CompactRead(d);
    IsoformRead(Compact(d));
    var s := Strip(value);
    StripStrips(value);
    StripIdentity(s);
    if s == Compact(d) {
      CompactSpelling(value, d);
    } else {
      IsoSpelling(value, d, suffix);
    }
  }

  lemma IsoSpelling(value: string, d: Date, suffix: string)
    requires ValidDate(d) && Strip(value) == Iso(d) + suffix
    ensures NormalizeExpiry(value) == Iso(d) && ExpiryToDate(value) == Some(d)
    ensures ParseExpiryDate(value) == Some(d) && CompactExpiry(value) == Compact(d)
  {
    CompactRead(d);
    IsoformRead(Compact(d));
    var s := Strip(value);
    assert s[..10] == Iso(d);
    assert s[..4] + s[5..7] + s[8..10] == Compact(d);
  }

  lemma CompactSpelling(value: string, d: Date)
    requires ValidDate(d) && Strip(value) == Compact(d)
    ensures NormalizeExpiry(value) == Iso(d) && ExpiryToDate(value) == Some(d)
    ensures ParseExpiryDate(value) == Some(d) && CompactExpiry(value) == Compact(d)
  {
    CompactRead(d);
    var s := Compact(d);
    DigitsOfDigits(s);
    assert s[..8] == s;
  }

  // ---------------------------------------------------------------- on every string

  /** `normalize_expiry` leaves its own output alone. */
  lemma NormalizeIsIdempotent(value: string)
    ensures NormalizeExpiry(NormalizeExpiry(value)) == NormalizeExpiry(value)
  {
    var s := Strip(value);
    StripStrips(value);
    StripIdentity(s);
    if |s| >= 10 && IsIsoDay(s[..10]) {
      DigitsStripped(s[..10]);
      assert s[..10][..10] == s[..10];
    } else if IsCompact(s) {
      IsoformRead(s);
      DigitsStripped(Isoform(s));
      assert Isoform(s)[..10] == Isoform(s);
    }
  }

  /** The compact normalisers leave their own output alone exactly when they did not cut a dashed text
      off at a blank tenth character. */
  lemma CompactIdempotentIff(value: string)
    ensures CompactExpiry(CompactExpiry(value)) == CompactExpiry(value) <==>
            !(Dashed(Strip(value)) && IsSpace(Strip(value)[9]))
  {
    var e := Strip(value);
    StripStrips(value);
    StripIdentity(e);
    var r := CompactExpiry(value);
    StripIdentity(r);
    if Dashed(e) {
      assert r[7] == e[9] && r[0] == e[0];
      if IsSpace(e[9]) {
        TrimShorter(r);
      }
    }
  }

  lemma TrimShorter(r: string)
    requires !Stripped(r)
    ensures |Strip(r)| <= |r|
  {
    TrimRightEnds(TrimLeft(r));
    TrimLeftShorter(r);
  }

  lemma {:induction false} TrimLeftShorter(r: string)
    ensures |TrimLeft(r)| <= |r|
  {
    if r != "" && IsSpace(r[0]) {
      TrimLeftShorter(r[1..]);
    }
  }

  /** A text on which they are not idempotent. */
  lemma CompactNotIdempotent()
    ensures CompactExpiry("2024-01-5 x") == "2024015 "
    ensures CompactExpiry("2024015 ") == "2024015"
  {
    var s, t := "2024-01-5 x", "2024015 ";
    StripIdentity(s);
    assert s[..4] + s[5..7] + s[8..10] == t;
    assert TrimLeft(t) == t;
    assert t[..7] == "2024015" && TrimRight(t[..7]) == t[..7];
  }

  /** Normalising first never changes the date that is read, whatever the text. */
  lemma NormalizingKeepsDate(value: string)
    ensures ExpiryToDate(NormalizeExpiry(value)) == ExpiryToDate(value)
  {
    var s := Strip(value);
    StripStrips(value);
    StripIdentity(s);
    if |s| >= 10 && IsIsoDay(s[..10]) {
      DigitsStripped(s[..10]);
      assert s[..10][..10] == s[..10];
    } else if IsCompact(s) {
      IsoformRead(s);
      DigitsStripped(Isoform(s));
      assert Isoform(s)[..10] == Isoform(s);
      DigitsOfDigits(s);
      assert s[..8] == s;
    }
  }
}

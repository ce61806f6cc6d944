/** Option contract keys `SYM|OPT|expiry|strike|right`: printing, parsing and splitting request lists. */
module ContractKeys {
  import opened Sequences
  import opened Text
  import opened Calendar
  import opened Expiries
  import opened Strikes

  /** A parsed key; `strike` is in units of 1e-8. */
  datatype Parts = Parts(underlying: string, expiry: Date, strike: int, right: string, originalKey: string)

  function RightOf(right: string): string {
    var r := Upper(Strip(right));
    if r == "CALL" then "C" else if r == "PUT" then "P" else r
  }

  function SymbolOf(symbol: string): string {
    Upper(Strip(symbol))
  }

  function Barred(a: string, rest: string): string {
    a + ['|'] + rest
  }

  function ContractKey(symbol: string, expiry: string, strike: int, right: string): string {
    Barred(SymbolOf(symbol), Barred("OPT", Barred(CompactExpiry(expiry), Barred(StrikeText(strike), RightOf(right)))))
  }

  /** `strftime("%Y%m%d")`: the year is not padded. */
  function DateText(d: Date): string {
    NatText(d.year) + Padded(d.month, 2) + Padded(d.day, 2)
  }

  function IbContractKey(underlying: string, expiry: Date, strike: int, right: string): string {
    ContractKey(underlying, DateText(expiry), strike, right)
  }

  predicate IsPolygonTicker(ck: string) {
    "O:" <= Upper(Strip(ck))
  }

  function ParseContractKey(ck: string): Option<Parts> {
    var raw := Strip(ck);
    var parts := Split(raw, '|');
    if raw == "" || IsPolygonTicker(raw) || |parts| < 5 then None
    else if Upper(Strip(parts[1])) != "OPT" then None
    else
      var underlying := SymbolOf(parts[0]);
      var expiry := ExpiryToDate(Strip(parts[2]));
      var strike := ReadStrike(parts[3]);
      var right := RightOf(parts[4]);
      if underlying == "" || expiry.None? || strike.None? || (right != "C" && right != "P") then None
      else Some(Parts(underlying, expiry.value, strike.value, right, raw))
  }

  // ---------------------------------------------------------------- what a parsed key looks like

  lemma StripOfStart(s: string, rest: string)
    requires s <= rest && Stripped(rest)
    ensures Strip(s) <= s
  {
    TrimLeftEnds(s);
    TrimRightEnds(s);
  }

  lemma SymbolFacts(symbol: string)
    ensures Stripped(SymbolOf(symbol)) && SymbolOf(SymbolOf(symbol)) == SymbolOf(symbol)
    ensures Stripped(RightOf(symbol))
    ensures RightOf("C") == "C" && RightOf("P") == "P"
  {
    StripStrips(symbol);
    UpperStripped(Strip(symbol));
    StripIdentity(SymbolOf(symbol));
    StripIdentity("C");
    StripIdentity("P");
  }

  lemma ReadDateIsValid(value: string)
    ensures ExpiryToDate(value).Some? ==> ValidDate(ExpiryToDate(value).value)
  {
    var e := Strip(value);
    if Dashed(e) {
      FromIsoIsValid(e[..10]);
    }
  }

  /** The underlying of a parsed key is upper case, has no bar and does not look like a ticker. */
  lemma ParseFacts(ck: string)
    requires ParseContractKey(ck).Some?
    ensures var p := ParseContractKey(ck).value;
            && p.underlying != "" && '|' !in p.underlying && !("O:" <= p.underlying)
            && SymbolOf(p.underlying) == p.underlying
            && (p.right == "C" || p.right == "P")
            && ValidDate(p.expiry)
            && p.originalKey == Strip(ck)
  {
    var raw := Strip(ck);
    var parts := Split(raw, '|');
    StripStrips(ck);
    StripIdentity(raw);
    StripOfStart(parts[0], raw);
    SymbolFacts(parts[0]);
    assert "O:" <= SymbolOf(parts[0]) ==> "O:" <= Upper(raw);
    ReadDateIsValid(Strip(parts[2]));
  }

  // ---------------------------------------------------------------- print, then parse

  lemma SplitBarred(a: string, rest: string)
    requires '|' !in a
    ensures var parts := Split(Barred(a, rest), '|'); parts[0] == a && parts[1..] == Split(rest, '|')
  {
    SplitHead(a, '|', rest);
  }

  lemma SplitFive(a: string, b: string, c: string, d: string, e: string)
    requires '|' !in a && '|' !in b && '|' !in c && '|' !in d && '|' !in e
    ensures var parts := Split(Barred(a, Barred(b, Barred(c, Barred(d, e)))), '|');
            |parts| == 5 && parts[0] == a && parts[1] == b && parts[2] == c && parts[3] == d && parts[4] == e
  {
    SplitThree(c, d, e);
    SplitBarred(b, Barred(c, Barred(d, e)));
    SplitBarred(a, Barred(b, Barred(c, Barred(d, e))));
  }

  lemma SplitThree(c: string, d: string, e: string)
    requires '|' !in c && '|' !in d && '|' !in e
    ensures var parts := Split(Barred(c, Barred(d, e)), '|');
            |parts| == 3 && parts[0] == c && parts[1] == d && parts[2] == e
  {
    SplitBarred(d, e);
    SplitBarred(c, Barred(d, e));
  }

  lemma YearText(n: nat)
    ensures n < 1000 ==> |NatText(n)| <= 3
    ensures 1000 <= n < 10000 ==> NatText(n) == Padded(n, 4)
  {
    var a, b, c := n / 10, n / 100, n / 1000;
    assert a / 10 == b && b / 10 == c;
    if n < 1000 {
      assert n >= 10 ==> NatText(n) == NatText(a) + [DigitChar(n % 10)];
      assert a >= 10 ==> NatText(a) == NatText(b) + [DigitChar(a % 10)];
    } else if n < 10000 {
      assert NatText(n) == NatText(c) + [DigitChar(b % 10)] + [DigitChar(a % 10)] + [DigitChar(n % 10)];
      assert Padded(c, 1) == "" + [DigitChar(c % 10)];
      assert Padded(n, 4) == Padded(c, 1) + [DigitChar(b % 10)] + [DigitChar(a % 10)] + [DigitChar(n % 10)];
    }
  }

  /** A printed date reads as the date exactly when its year has four digits. */
  lemma DateTextRead(d: Date)
    requires ValidDate(d)
    ensures 1000 <= d.year ==> DateText(d) == Compact(d)
    ensures ExpiryToDate(DateText(d)) == (if 1000 <= d.year then Some(d) else None)
    ensures CompactExpiry(DateText(d)) == DateText(d) && Strip(DateText(d)) == DateText(d)
    ensures '|' !in DateText(d)
  {
    var s := DateText(d);
    YearText(d.year);
    assert AllDigits(s);
    DigitsStripped(s);
    DigitsOfDigits(s);
    if 1000 <= d.year {
      CompactRead(d);
      NormalisersAgree(s, d, "");
    }
  }

  predicate IsCall(right: string) {
    Upper(Strip(right)) == "C" || Upper(Strip(right)) == "CALL"
  }

  predicate IsPut(right: string) {
    Upper(Strip(right)) == "P" || Upper(Strip(right)) == "PUT"
  }

  /** A right is a call exactly for "C" and "CALL", a put exactly for "P" and "PUT", in any case. */
  lemma RightIff(right: string)
    ensures RightOf(right) == "C" <==> IsCall(right)
    ensures RightOf(right) == "P" <==> IsPut(right)
    ensures !IsCall(right) && !IsPut(right) ==> RightOf(right) == Upper(Strip(right))
  {
  }

  /** A printed key reads back as its parts exactly when the symbol is neither empty nor a ticker and has
      no bar, the year has four digits and the right is a call or a put. */
  lemma PrintThenParse(symbol: string, d: Date, strike: int, right: string)
    requires ValidDate(d)
    ensures var p := ParseContractKey(IbContractKey(symbol, d, strike, right));
            var sym := SymbolOf(symbol);
            (p.Some? && p.value.underlying == sym && p.value.expiry == d && p.value.strike == strike
             && ((p.value.right == "C" && IsCall(right)) || (p.value.right == "P" && IsPut(right))))
            <==>
            (sym != "" && '|' !in sym && !("O:" <= sym) && 1000 <= d.year && (IsCall(right) || IsPut(right)))
  {
    var key := IbContractKey(symbol, d, strike, right);
    var sym, r := SymbolOf(symbol), RightOf(right);
    RightIff(right);
    if ParseContractKey(key).Some? {
      ParseFacts(key);
    }
    if sym != "" && '|' !in sym && !("O:" <= sym) && (r == "C" || r == "P") {
      KeyParts(symbol, d, strike, right);
    }
  }

  /** A key is parsed exactly when it is no ticker, has five parts of which the second is "OPT", a symbol, a readable
      date and strike, and a call or a put in the fifth part; and the parts are read from those places. */
  lemma ParsesIff(ck: string)
    ensures var parts, p := Split(Strip(ck), '|'), ParseContractKey(ck);
      && (p.Some? <==>
            && Strip(ck) != "" && !("O:" <= Upper(Strip(Strip(ck)))) && |parts| >= 5
            && Upper(Strip(parts[1])) == "OPT" && Upper(Strip(parts[0])) != ""
            && ExpiryToDate(Strip(parts[2])).Some? && ReadStrike(parts[3]).Some?
            && (IsCall(parts[4]) || IsPut(parts[4])))
      && (p.Some? ==>
            && p.value.underlying == Upper(Strip(parts[0])) && Some(p.value.expiry) == ExpiryToDate(Strip(parts[2]))
            && Some(p.value.strike) == ReadStrike(parts[3])
            && (p.value.right == "C" <==> IsCall(parts[4])) && (p.value.right == "P" <==> IsPut(parts[4])))
  {
    var parts := Split(Strip(ck), '|');
    if |parts| >= 5 {
      RightIff(parts[4]);
    }
  }

  /** The text of a printed key. */
  lemma PrintedKey(symbol: string, expiry: string, strike: int, right: string)
    ensures ContractKey(symbol, expiry, strike, right) ==
      Upper(Strip(symbol)) + "|OPT|" + CompactExpiry(expiry) + "|" + StrikeText(strike) + "|" +
      (if IsCall(right) then "C" else if IsPut(right) then "P" else Upper(Strip(right)))
  {
    RightIff(right);
    JoinedByBars(Upper(Strip(symbol)), CompactExpiry(expiry), StrikeText(strike), RightOf(right));
  }

  lemma JoinedByBars(a: string, c: string, d: string, e: string)
    ensures Barred(a, Barred("OPT", Barred(c, Barred(d, e)))) == a + "|OPT|" + c + "|" + d + "|" + e
  {
    assert Barred(c, Barred(d, e)) == c + "|" + d + "|" + e;
    assert Barred("OPT", Barred(c, Barred(d, e))) == "OPT|" + Barred(c, Barred(d, e));
  }

  lemma OptIsOpt()
    ensures Upper(Strip("OPT")) == "OPT" && '|' !in "OPT"
  {
  }

  lemma KeyIsPlain(sym: string, rest: string)
    requires sym != "" && SymbolOf(sym) == sym && !("O:" <= sym) && rest != "" && !IsSpace(rest[|rest| - 1])
    ensures var key := Barred(sym, rest); key != "" && Strip(key) == key && !IsPolygonTicker(key)
  {
    var key := Barred(sym, rest);
    SymbolFacts(sym);
    assert key[0] == sym[0] && key[|key| - 1] == rest[|rest| - 1];
    StripIdentity(key);
    NotTicker(sym, key);
  }

  /** A key of five parts is parsed part by part. */
  lemma ParseFive(sym: string, date: string, strike: string, r: string)
    requires sym != "" && SymbolOf(sym) == sym && '|' !in sym && !("O:" <= sym)
    requires '|' !in date && '|' !in strike && (r == "C" || r == "P")
    ensures var key := Barred(sym, Barred("OPT", Barred(date, Barred(strike, r))));
            var expiry, n := ExpiryToDate(Strip(date)), ReadStrike(strike);
            ParseContractKey(key) == if expiry.None? || n.None? then None
                                     else Some(Parts(sym, expiry.value, n.value, r, key))
  {
    OptIsOpt();
    SymbolFacts(r);
    KeyIsPlain(sym, Barred("OPT", Barred(date, Barred(strike, r))));
    SplitFive(sym, "OPT", date, strike, r);
  }

  /** The parts of a well-formed printed key. */
  lemma KeyParts(symbol: string, d: Date, strike: int, right: string)
    requires ValidDate(d)
    requires var sym, r := SymbolOf(symbol), RightOf(right);
             sym != "" && '|' !in sym && !("O:" <= sym) && (r == "C" || r == "P")
    ensures var key := IbContractKey(symbol, d, strike, right);
            ParseContractKey(key) == if 1000 <= d.year
                                     then Some(Parts(SymbolOf(symbol), d, strike, RightOf(right), key))
                                     else None
  {
    DateTextRead(d);
    StrikeRoundTrip(strike);
    StrikeHasNoBar(strike);
    SymbolFacts(symbol);
    ParseFive(SymbolOf(symbol), DateText(d), StrikeText(strike), RightOf(right));
  }

  lemma NotTicker(sym: string, key: string)
    requires sym != "" && SymbolOf(sym) == sym && !("O:" <= sym) && Stripped(key) && sym + "|" <= key
    ensures !IsPolygonTicker(key)
  {
    StripIdentity(key);
    StripStrips(sym);
    UpperStripped(Strip(sym));
    if |sym| == 1 {
      assert Upper(key)[1] == '|';
    }
  }

  /** Printing what was parsed and parsing again changes nothing, exactly when the year has four digits. */
  lemma ParsePrintParse(ck: string)
    requires ParseContractKey(ck).Some?
    ensures var p := ParseContractKey(ck).value;
            var q := ParseContractKey(IbContractKey(p.underlying, p.expiry, p.strike, p.right));
            (q.Some? && q.value.(originalKey := p.originalKey) == p) <==> 1000 <= p.expiry.year
  {
    var p := ParseContractKey(ck).value;
    ParseFacts(ck);
    SymbolFacts(p.right);
    RightIff(p.right);
    PrintThenParse(p.underlying, p.expiry, p.strike, p.right);
  }

  // ---------------------------------------------------------------- splitting request keys

  /** The canonical spelling of a ticker. */
  function Canonical(k: string): string {
    var i := IndexOf(k, ':');
    if i < |k| then "O:" + Upper(k[i + 1..]) else Upper(k)
  }

  lemma CanonicalIsUpper(k: string)
    requires "O:" <= Upper(k)
    ensures Canonical(k) == Upper(k)
  {
    assert UpperChar(k[0]) == Upper(k)[0] == 'O' && UpperChar(k[1]) == Upper(k)[1] == ':';
    assert k == k[..1] + [':'] + k[2..];
    IndexOfFirst(k[..1], ':', k[2..]);
    assert Upper(k) == "O:" + Upper(k[2..]);
  }

  /** What one request key is: skipped, a ticker in canonical spelling, or a parsed key. */
  datatype Kind = Skipped | Ticker(canonical: string) | Own(parts: Parts)

  function Classify(key: string): Kind {
    var k := Strip(key);
    if k == "" then Skipped
    else if IsPolygonTicker(k) then Ticker(Canonical(k))
    else
      match ParseContractKey(k)
      case None => Skipped
      case Some(p) => Own(p)
  }

  lemma CanonicalStays(k: string)
    requires Strip(k) == k && IsPolygonTicker(k)
    ensures Classify(Canonical(k)) == Ticker(Canonical(k))
  {
    CanonicalIsUpper(k);
    StripIdentity(k);
    UpperStripped(k);
    StripIdentity(Upper(k));
    CanonicalIsUpper(Upper(k));
  }

  /** A canonical ticker is classified as itself, and so is the text of a parsed key. */
  lemma ClassifyIsStable(key: string)
    ensures Classify(key).Ticker? ==> Classify(Classify(key).canonical) == Classify(key)
    ensures Classify(key).Own? ==> Classify(Classify(key).parts.originalKey) == Classify(key)
  {
    var k := Strip(key);
    StripStrips(key);
    StripIdentity(k);
    if k != "" && IsPolygonTicker(k) {
      CanonicalStays(k);
    } else if ParseContractKey(k).Some? {
      ParseFacts(k);
    }
  }

  function Originals(parts: seq<Parts>): seq<string> {
    seq(|parts|, i requires 0 <= i < |parts| => parts[i].originalKey)
  }

  /** One request key more. */
  function AddKind(polygon: seq<string>, ib: seq<Parts>, kind: Kind): (seq<string>, seq<Parts>) {
    match kind
    case Skipped => (polygon, ib)
    case Ticker(canonical) => (if canonical in polygon then polygon else polygon + [canonical], ib)
    case Own(p) => (polygon, if p.originalKey in Originals(ib) then ib else ib + [p])
  }

  /** Each ticker and each parsed key once, in order of first appearance. */
  function SplitBy(f: string -> Kind, keys: seq<string>): (seq<string>, seq<Parts>) {
    if keys == [] then ([], []) else
    var (polygon, ib) := SplitBy(f, keys[..|keys| - 1]);
    AddKind(polygon, ib, f(keys[|keys| - 1]))
  }

  function SplitKeys(keys: seq<string>): (seq<string>, seq<Parts>) {
    SplitBy(Classify, keys)
  }

  /** The loop with its two seen-sets. */
  method SplitContractKeys(keys: seq<string>) returns (polygon: seq<string>, ib: seq<Parts>)
    ensures (polygon, ib) == SplitKeys(keys)
  {
    polygon, ib := [], [];
    var seenPolygon: set<string>, seenIb: set<string> := {}, {};
    var i := 0;
    while i < |keys|
      invariant 0 <= i <= |keys|
      invariant (polygon, ib) == SplitBy(Classify, keys[..i])
      invariant forall x :: x in seenPolygon <==> x in polygon
      invariant forall x :: x in seenIb <==> x in Originals(ib)
    {
      SplitByNext(Classify, keys, i);
      var kind := Classify(keys[i]);
      match kind {
        case Skipped =>
        case Ticker(canonical) =>
          if canonical !in seenPolygon {
            seenPolygon := seenPolygon + {canonical};
            polygon := polygon + [canonical];
          }
        case Own(p) =>
          if p.originalKey !in seenIb {
            seenIb := seenIb + {p.originalKey};
            OriginalsNext(ib, p);
            ib := ib + [p];
          }
      }
      i := i + 1;
    }
    assert keys[..i] == keys;
  }

  lemma SplitByNext(f: string -> Kind, keys: seq<string>, i: nat)
    requires i < |keys|
    ensures SplitBy(f, keys[..i + 1]) ==
            AddKind(SplitBy(f, keys[..i]).0, SplitBy(f, keys[..i]).1, f(keys[i]))
  {
    assert keys[..i + 1][..i] == keys[..i];
  }

  lemma OriginalsNext(ib: seq<Parts>, p: Parts)
    ensures Originals(ib + [p]) == Originals(ib) + [p.originalKey]
  {
  }

  /** Both lists are free of duplicates and hold only what is classified as itself. */
  ghost predicate SplitOk(f: string -> Kind, polygon: seq<string>, ib: seq<Parts>) {
    && NoDuplicates(polygon) && NoDuplicates(Originals(ib))
    && (forall i :: 0 <= i < |polygon| ==> f(polygon[i]) == Ticker(polygon[i]))
    && (forall i :: 0 <= i < |ib| ==> f(ib[i].originalKey) == Own(ib[i]))
  }

  ghost predicate StableKinds(f: string -> Kind) {
    forall k :: (f(k).Ticker? ==> f(f(k).canonical) == f(k)) && (f(k).Own? ==> f(f(k).parts.originalKey) == f(k))
  }

  lemma {:induction false} SplitFacts(f: string -> Kind, keys: seq<string>)
    requires StableKinds(f)
    ensures var (polygon, ib) := SplitBy(f, keys); SplitOk(f, polygon, ib)
  {
    if keys != [] {
      var n := |keys| - 1;
      var (polygon, ib) := SplitBy(f, keys[..n]);
      SplitFacts(f, keys[..n]);
      var kind := f(keys[n]);
      if kind.Own? {
        OriginalsNext(ib, kind.parts);
      }
    }
  }

  lemma {:induction false} SplitTickers(f: string -> Kind, polygon: seq<string>)
    requires SplitOk(f, polygon, [])
    ensures SplitBy(f, polygon) == (polygon, [])
  {
    if polygon != [] {
      var n := |polygon| - 1;
      SplitTickers(f, polygon[..n]);
      assert polygon == polygon[..n] + [polygon[n]];
    }
  }

  lemma {:induction false} SplitOwnKeys(f: string -> Kind, polygon: seq<string>, ib: seq<Parts>)
    requires SplitOk(f, polygon, ib)
    ensures SplitBy(f, polygon + Originals(ib)) == (polygon, ib)
    decreases |ib|
  {
    if ib == [] {
      SplitTickers(f, polygon);
      assert polygon + Originals(ib) == polygon;
    } else {
      var n := |ib| - 1;
      var front, last := polygon + Originals(ib[..n]), ib[n].originalKey;
      assert ib == ib[..n] + [ib[n]];
      OriginalsNext(ib[..n], ib[n]);
      assert Originals(ib)[n] == last && Originals(ib)[..n] == Originals(ib[..n]);
      SplitOwnKeys(f, polygon, ib[..n]);
      var keys := polygon + Originals(ib);
      assert keys[..|front|] == front && keys[|front|] == last && |keys| == |front| + 1;
      assert AddKind(polygon, ib[..n], f(last)) == (polygon, ib);
    }
  }

  /** Splitting the split's own output again returns it unchanged, and it has no duplicates. */
  lemma SplitIsStable(keys: seq<string>)
    ensures var (polygon, ib) := SplitKeys(keys);
            && SplitKeys(polygon + Originals(ib)) == (polygon, ib)
            && NoDuplicates(polygon) && NoDuplicates(Originals(ib))
  {
    var (polygon, ib) := SplitKeys(keys);
    forall k { ClassifyIsStable(k); }
    SplitFacts(Classify, keys);
    SplitOwnKeys(Classify, polygon, ib);
  }

  /** The ticker, or the parsed key, is in the lists. */
  ghost predicate Kept(polygon: seq<string>, ib: seq<Parts>, kind: Kind) {
    match kind
    case Skipped => true
    case Ticker(canonical) => canonical in polygon
    case Own(p) => p in ib
  }

  lemma {:induction false} SplitByKeeps(f: string -> Kind, keys: seq<string>, k: string)
    requires StableKinds(f) && k in keys
    ensures var (polygon, ib) := SplitBy(f, keys); Kept(polygon, ib, f(k))
  {
    var n := |keys| - 1;
    var (polygon, ib) := SplitBy(f, keys[..n]);
    if k in keys[..n] {
      SplitByKeeps(f, keys[..n], k);
    } else {
      assert keys == keys[..n] + [keys[n]];
      SplitFacts(f, keys[..n]);
      if f(k).Own? && f(k).parts.originalKey in Originals(ib) {
        var i :| 0 <= i < |ib| && Originals(ib)[i] == f(k).parts.originalKey;
        assert f(ib[i].originalKey) == Own(ib[i]);
      }
    }
  }

  /** No ticker and no parsable key of the request is lost. */
  lemma SplitKeepsAll(keys: seq<string>, k: string)
    requires k in keys
    ensures var (polygon, ib) := SplitKeys(keys); Kept(polygon, ib, Classify(k))
  {
    forall k' { ClassifyIsStable(k'); }
    SplitByKeeps(Classify, keys, k);
  }
}

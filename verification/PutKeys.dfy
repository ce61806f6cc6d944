/** The keys the screener asks for, and what it reads back off the keys that answer. */
module PutKeys {
  import opened Sequences
  import opened Text
  import opened Strikes
  import opened Expiries
  import opened ContractKeys

  /** The put of an eight-digit expiry and a strike in whole dollars. */
  function PutKey(sym: string, expiry: string, dollars: int): string {
    ContractKey(sym, expiry, dollars * UNIT, "P")
  }

  function PutKeyOf(sym: string): (string, int) -> string {
    (expiry, dollars) => PutKey(sym, expiry, dollars)
  }

  /** The strike and the right by position, or none where there are too few parts or the strike is no number. */
  function ReadKey(key: string): Option<(int, string)> {
    ReadParts(Split(key, '|'))
  }

  function ReadParts(parts: seq<string>): Option<(int, string)> {
    if |parts| < 5 then None else
    match ReadStrike(parts[3])
    case None => None
    case Some(strike) => Some((strike, parts[4]))
  }

  lemma {:induction false} SplitBarredParts(a: string, rest: string)
    ensures Split(Barred(a, rest), '|') == Split(a, '|') + Split(rest, '|')
    decreases |a|
  {
    var i := IndexOf(a, '|');
    if i == |a| {
      SplitBarred(a, rest);
    } else {
      var head, tail := a[..i], a[i + 1..];
      assert a == Barred(head, tail);
      SplitBarredParts(tail, rest);
      SplitStep(head, tail, rest);
    }
  }

  lemma SplitStep(head: string, tail: string, rest: string)
    requires '|' !in head && Split(Barred(tail, rest), '|') == Split(tail, '|') + Split(rest, '|')
    ensures Split(Barred(Barred(head, tail), rest), '|') == Split(Barred(head, tail), '|') + Split(rest, '|')
  {
    SplitHead(head, '|', tail);
    SplitHead(head, '|', Barred(tail, rest));
    StepBy(s => Split(s, '|'), head, tail, rest);
  }

  lemma StepBy(split: string -> seq<string>, head: string, tail: string, rest: string)
    requires split(Barred(tail, rest)) == split(tail) + split(rest)
    requires split(Barred(head, tail)) == [head] + split(tail)
    requires split(Barred(head, Barred(tail, rest))) == [head] + split(Barred(tail, rest))
    ensures split(Barred(Barred(head, tail), rest)) == split(Barred(head, tail)) + split(rest)
  {
    assert Barred(Barred(head, tail), rest) == Barred(head, Barred(tail, rest));
  }

  lemma SplitTail(b: string, c: string, d: string, e: string)
    requires '|' !in b && '|' !in c && '|' !in d && '|' !in e
    ensures Split(Barred(b, Barred(c, Barred(d, e))), '|') == [b, c, d, e]
  {
    SplitHead(b, '|', Barred(c, Barred(d, e)));
    SplitHead(c, '|', Barred(d, e));
    SplitHead(d, '|', e);
    TailBy(s => Split(s, '|'), b, c, d, e);
  }

  lemma TailBy(split: string -> seq<string>, b: string, c: string, d: string, e: string)
    requires split(Barred(b, Barred(c, Barred(d, e)))) == [b] + split(Barred(c, Barred(d, e)))
    requires split(Barred(c, Barred(d, e))) == [c] + split(Barred(d, e))
    requires split(Barred(d, e)) == [d] + split(e) && split(e) == [e]
    ensures split(Barred(b, Barred(c, Barred(d, e)))) == [b, c, d, e]
  {
  }

  /** The parts of a printed put key: those of the symbol, then four more. */
  lemma PutKeyParts(sym: string, expiry: string, dollars: int)
    requires IsCompact(expiry)
    ensures Split(PutKey(sym, expiry, dollars), '|') ==
      Split(SymbolOf(sym), '|') + ["OPT", expiry, StrikeText(dollars * UNIT), "P"]
  {
    CompactStays(expiry);
    SymbolFacts("P");
    StrikeHasNoBar(dollars * UNIT);
    SplitTail("OPT", expiry, StrikeText(dollars * UNIT), "P");
    SplitBarredParts(SymbolOf(sym), Barred("OPT", Barred(expiry, Barred(StrikeText(dollars * UNIT), "P"))));
  }

  lemma CompactStays(expiry: string)
    requires IsCompact(expiry)
    ensures CompactExpiry(expiry) == expiry && '|' !in expiry
  {
  }

  /** For one symbol, whatever it is, a key names one expiry and one strike. */
  lemma PutKeyIsInjective(sym: string, e1: string, d1: int, e2: string, d2: int)
    requires IsCompact(e1) && IsCompact(e2) && PutKey(sym, e1, d1) == PutKey(sym, e2, d2)
    ensures e1 == e2 && d1 == d2
  {
    PutKeyParts(sym, e1, d1);
    PutKeyParts(sym, e2, d2);
    var s, n := Split(SymbolOf(sym), '|'), |Split(SymbolOf(sym), '|')|;
    var p1, p2 := s + ["OPT", e1, StrikeText(d1 * UNIT), "P"], s + ["OPT", e2, StrikeText(d2 * UNIT), "P"];
    assert p1[n + 1] == e1 && p2[n + 1] == e2;
    assert p1[n + 2] == StrikeText(d1 * UNIT) && p2[n + 2] == StrikeText(d2 * UNIT);
    StrikeRoundTrip(d1 * UNIT);
    StrikeRoundTrip(d2 * UNIT);
  }

  /** The strike a symbol brings along: its own fourth part, where its fifth is "P". */
  function OwnStrikeOf(sym: string): Option<int> {
    var s := Split(SymbolOf(sym), '|');
    if |s| >= 5 && s[4] == "P" then ReadStrike(s[3]) else None
  }

  /** A printed put key reads back as a put exactly when the symbol has no bar or brings a strike along. Without a
      bar it is the printed strike, else the symbol's own, so the printed one exactly where the two are equal. */
  lemma ReadKeyOfPutKey(sym: string, expiry: string, dollars: int)
    requires IsCompact(expiry)
    ensures var plain, r := |Split(SymbolOf(sym), '|')| == 1, ReadKey(PutKey(sym, expiry, dollars));
      && ((r.Some? && r.value.1 == "P") <==> plain || OwnStrikeOf(sym).Some?)
      && (r.Some? && r.value.1 == "P" ==> Some(r.value.0) == if plain then Some(dollars * UNIT) else OwnStrikeOf(sym))
      && (r == Some((dollars * UNIT, "P")) <==> plain || OwnStrikeOf(sym) == Some(dollars * UNIT))
  {
    PutKeyParts(sym, expiry, dollars);
    StrikeRoundTrip(dollars * UNIT);
    ReadShiftedParts(Split(SymbolOf(sym), '|'), expiry, StrikeText(dollars * UNIT), dollars * UNIT);
  }

  lemma ReadShiftedParts(s: seq<string>, expiry: string, text: string, strike: int)
    requires s != [] && |expiry| == 8 && ReadStrike(text) == Some(strike)
    ensures var r := ReadParts(s + ["OPT", expiry, text, "P"]);
      && ((r.Some? && r.value.1 == "P") <==> |s| == 1 || (|s| >= 5 && s[4] == "P" && ReadStrike(s[3]).Some?))
      && (|s| == 1 ==> r == Some((strike, "P")))
      && (|s| >= 5 && r.Some? ==> ReadStrike(s[3]) == Some(r.value.0))
  {
    PIsNoStrike();
    var parts := s + ["OPT", expiry, text, "P"];
    assert |s| == 1 ==> parts[3] == text && parts[4] == "P";
    assert |s| == 2 ==> parts[4] == text;
    assert |s| == 3 ==> parts[4] == expiry;
    assert |s| == 4 ==> parts[4] == "OPT";
    assert |s| >= 5 ==> parts[3] == s[3] && parts[4] == s[4];
  }

  lemma PIsNoStrike()
    ensures ReadStrike("P").None?
  {
  }

  /** The symbol `A|B|C|7|P`. */
  function OwnStrike(): string {
    Barred("A", Barred("B", Barred("C", Barred("7", "P"))))
  }

  /** A symbol of the second kind: whatever is asked for, its keys are read as puts with strike 7. */
  lemma SymbolWithOwnStrike(expiry: string, dollars: int)
    requires IsCompact(expiry)
    ensures ReadKey(PutKey(OwnStrike(), expiry, dollars)) == Some((7 * UNIT, "P"))
  {
    OwnStrikeIsUpper();
    SplitFive("A", "B", "C", "7", "P");
    SevenIsStrike();
    ReadKeyOfPutKey(OwnStrike(), expiry, dollars);
  }

  lemma OwnStrikeIsUpper()
    ensures SymbolOf(OwnStrike()) == OwnStrike()
  {
  }

  lemma SevenIsStrike()
    ensures ReadStrike("7") == Some(7 * UNIT)
  {
    StripIdentity("7");
    IndexOfNone("7", '.');
    IndexOfNone("7", 'e');
    IndexOfNone("7", 'E');
    assert "7"[..1] == "7" && "7" + "" == "7";
    UnitIsPower();
    assert ParseNat("7") == 7;
  }
}

/** The screen over a list of symbols: every symbol ends up in a group or among the failed ones. */
module Screen {
  import opened Sequences
  import opened Text
  import opened Sorting
  import opened Collecting
  import opened Screener

  datatype Answer = Answer(groups: seq<Group>, total: nat, scanned: seq<string>, failed: seq<string>)

  /** One symbol's scan. */
  type Scanner = string -> Outcome

  function CleanSymbol(): string -> Option<string> {
    (s: string) => if Strip(s) == "" then None else Some(Upper(Strip(s)))
  }

  function FoundBy(scan: Scanner): string -> Option<Group> {
    (s: string) => match scan(s) case Found(g) => Some(g) case Failed(_) => None
  }

  function FailedBy(scan: Scanner): string -> Option<string> {
    (s: string) => if scan(s).Failed? then Some(s) else None
  }

  predicate BestFirst(a: Group, b: Group) {
    a.bestScore >= b.bestScore
  }

  function CountAll(groups: seq<Group>): nat {
    if groups == [] then 0 else groups[0].count + CountAll(groups[1..])
  }

  function SymbolsIn(groups: seq<Group>): multiset<string> {
    if groups == [] then multiset{} else multiset{groups[0].symbol} + SymbolsIn(groups[1..])
  }

  function ScanWith(markets: string -> Market, f: Filters, today: int, pricing: Pricing): Scanner {
    (s: string) => Scan(s, markets(s), f, today, pricing)
  }

  /** None where no symbol is left, which is a bad request. */
  method PostScreener(symbols: seq<string>, markets: string -> Market, f: Filters, today: int, pricing: Pricing)
    returns (answer: Option<Answer>)
    ensures var scanned, scan := Collect(symbols, CleanSymbol()), ScanWith(markets, f, today, pricing);
      if scanned == [] then answer == None
      else && answer.Some? && answer.value.scanned == scanned
           && answer.value.groups == Sort(Collect(scanned, FoundBy(scan)), BestFirst)
           && answer.value.failed == Collect(scanned, FailedBy(scan))
           && answer.value.total == CountAll(Collect(scanned, FoundBy(scan)))
  {
    var scanned := CollectAll(symbols, CleanSymbol());
    if scanned == [] {
      return None;
    }
    ghost var scan := ScanWith(markets, f, today, pricing);
    var groups: seq<Group>, failed: seq<string>, total := [], [], 0;
    for i := 0 to |scanned|
      invariant groups == Collect(scanned[..i], FoundBy(scan)) && failed == Collect(scanned[..i], FailedBy(scan))
      invariant total == CountAll(groups)
    {
      CollectNext(scanned, FoundBy(scan), i);
      CollectNext(scanned, FailedBy(scan), i);
      var o := ScanCsp(scanned[i], markets(scanned[i]), f, today, pricing);
      match o {
        case Failed(_) => failed := failed + [scanned[i]];
        case Found(g) =>
          OneMoreGroup(groups, g);
          groups := groups + [g];
          total := total + g.count;
      }
    }
    assert scanned[..|scanned|] == scanned;
    answer := Some(Answer(Sort(groups, BestFirst), total, scanned, failed));
  }

  lemma {:induction false} OneMoreGroup(groups: seq<Group>, g: Group)
    ensures CountAll(groups + [g]) == CountAll(groups) + g.count
    ensures SymbolsIn(groups + [g]) == SymbolsIn(groups) + multiset{g.symbol}
  {
    if groups != [] {
      OneMoreGroup(groups[1..], g);
      assert (groups + [g])[1..] == groups[1..] + [g];
    }
  }

  lemma {:induction false} InsertKeepsTotals(g: Group, groups: seq<Group>)
    ensures CountAll(Insert(g, groups, BestFirst)) == g.count + CountAll(groups)
    ensures SymbolsIn(Insert(g, groups, BestFirst)) == multiset{g.symbol} + SymbolsIn(groups)
  {
    var inserted := Insert(g, groups, BestFirst);
    if groups == [] || BestFirst(g, groups[0]) {
      assert inserted[1..] == groups;
    } else {
      InsertKeepsTotals(g, groups[1..]);
      assert inserted[1..] == Insert(g, groups[1..], BestFirst);
    }
  }

  lemma {:induction false} SortKeepsTotals(groups: seq<Group>)
    ensures CountAll(Sort(groups, BestFirst)) == CountAll(groups)
    ensures SymbolsIn(Sort(groups, BestFirst)) == SymbolsIn(groups)
  {
    if groups != [] {
      SortKeepsTotals(groups[1..]);
      InsertKeepsTotals(groups[0], Sort(groups[1..], BestFirst));
    }
  }

  /** A scan names the symbol it was given. */
  ghost predicate NamesItsSymbol(scan: Scanner) {
    forall s :: scan(s).Found? ==> scan(s).group.symbol == s && scan(s).group.count == |scan(s).group.contracts|
  }

  /** Keeping books through one symbol keeps them through all of them. */
  ghost predicate KeepsBooks(books: (seq<Group>, seq<string>, seq<string>) -> bool, scan: Scanner) {
    && books([], [], [])
    && (forall found, failed, front, s :: books(found, failed, front) ==>
          if scan(s).Found? then books(found + [scan(s).group], failed, front + [s])
          else books(found, failed + [s], front + [s]))
  }

  lemma {:induction false} BooksOfAll(
    books: (seq<Group>, seq<string>, seq<string>) -> bool, scanned: seq<string>, scan: Scanner)
    requires KeepsBooks(books, scan)
    ensures books(Collect(scanned, FoundBy(scan)), Collect(scanned, FailedBy(scan)), scanned)
  {
    if scanned != [] {
      var front, s := scanned[..|scanned| - 1], scanned[|scanned| - 1];
      BooksOfAll(books, front, scan);
      assert scanned == front + [s];
      assert books(Collect(front, FoundBy(scan)), Collect(front, FailedBy(scan)), front);
    }
  }

  function Books(): (seq<Group>, seq<string>, seq<string>) -> bool {
    (found, failed, scanned) => SymbolsIn(found) + multiset(failed) == multiset(scanned)
  }

  lemma EachOnce(scanned: seq<string>, scan: Scanner)
    requires NamesItsSymbol(scan)
    ensures SymbolsIn(Collect(scanned, FoundBy(scan))) + multiset(Collect(scanned, FailedBy(scan))) == multiset(scanned)
  {
    forall found, failed, front, s | Books()(found, failed, front)
      ensures if scan(s).Found? then Books()(found + [scan(s).group], failed, front + [s])
              else Books()(found, failed + [s], front + [s])
    {
      OneMoreSymbol(front, s, found, failed, scan(s));
    }
    BooksOfAll(Books(), scanned, scan);
  }

  lemma OneMoreSymbol(front: seq<string>, s: string, found: seq<Group>, failed: seq<string>, o: Outcome)
    requires SymbolsIn(found) + multiset(failed) == multiset(front)
    requires o.Found? ==> o.group.symbol == s
    ensures o.Found? ==> SymbolsIn(found + [o.group]) + multiset(failed) == multiset(front + [s])
    ensures o.Failed? ==> SymbolsIn(found) + multiset(failed + [s]) == multiset(front + [s])
  {
    if o.Found? {
      OneMoreGroup(found, o.group);
    }
  }

  lemma ScanNamesItsSymbol(markets: string -> Market, f: Filters, today: int, pricing: Pricing)
    ensures NamesItsSymbol(ScanWith(markets, f, today, pricing))
  {
    var scan := ScanWith(markets, f, today, pricing);
    forall s | scan(s).Found?
      ensures scan(s).group.symbol == s && scan(s).group.count == |scan(s).group.contracts|
    {
      assert scan(s) == Scan(s, markets(s), f, today, pricing);
      assert scan(s).group == GroupOf(s, Contracts(s, markets(s), f, today, pricing));
    }
  }

  /** Every occurrence of a symbol is in exactly one of the groups and the failed symbols, the total is the
      number of contracts shown, and the groups are in order of their best score. */
  lemma ScreenAddsUp(scanned: seq<string>, markets: string -> Market, f: Filters, today: int, pricing: Pricing)
    ensures var scan := ScanWith(markets, f, today, pricing);
      var found, failed := Collect(scanned, FoundBy(scan)), Collect(scanned, FailedBy(scan));
      var groups := Sort(found, BestFirst);
      && SymbolsIn(groups) + multiset(failed) == multiset(scanned) && SortedBy(groups, BestFirst)
      && (forall i, j :: 0 <= i < j < |groups| ==> groups[i].bestScore >= groups[j].bestScore)
      && CountAll(found) == CountAll(groups)
      && (forall g :: g in groups ==> scan(g.symbol) == Found(g) && g.count == |g.contracts|)
  {
    var scan := ScanWith(markets, f, today, pricing);
    ScanNamesItsSymbol(markets, f, today, pricing);
    AddsUp(scanned, scan);
    var groups := Sort(Collect(scanned, FoundBy(scan)), BestFirst);
    assert forall i, j :: 0 <= i < j < |groups| ==> BestFirst(groups[i], groups[j]);
  }

  lemma AddsUp(scanned: seq<string>, scan: Scanner)
    requires NamesItsSymbol(scan)
    ensures var found, failed := Collect(scanned, FoundBy(scan)), Collect(scanned, FailedBy(scan));
      var groups := Sort(found, BestFirst);
      && SymbolsIn(groups) + multiset(failed) == multiset(scanned) && SortedBy(groups, BestFirst)
      && CountAll(found) == CountAll(groups)
      && (forall g :: g in groups ==> scan(g.symbol) == Found(g) && g.count == |g.contracts|)
  {
    var found := Collect(scanned, FoundBy(scan));
    EachOnce(scanned, scan);
    SortKeepsTotals(found);
    SortSorts(found, BestFirst);
    forall g | g in found
      ensures scan(g.symbol) == Found(g) && g.count == |g.contracts|
    {
      var i := CollectedComesFrom(scanned, FoundBy(scan), g);
    }
  }

  /** The symbols scanned are the given ones, stripped and in capitals, without the blank ones. */
  lemma ScannedAre(symbols: seq<string>, s: string)
    ensures s in Collect(symbols, CleanSymbol()) <==>
      exists t :: t in symbols && Strip(t) != "" && s == Upper(Strip(t))
  {
    if s in Collect(symbols, CleanSymbol()) {
      var i := CollectedComesFrom(symbols, CleanSymbol(), s);
      assert symbols[i] in symbols;
    }
    if t :| t in symbols && Strip(t) != "" && s == Upper(Strip(t)) {
      var i :| 0 <= i < |symbols| && symbols[i] == t;
      PickedIsCollected(symbols, CleanSymbol(), i);
    }
  }
}

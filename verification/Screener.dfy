/** The cash-secured-put scan of one symbol, and the screen over a list of symbols. */
module Screener {
  import opened Sequences
  import opened Sorting
  import opened Rounding
  import opened Score
  import opened StrikeLadder
  import opened Collecting
  import opened KeyTable
  import opened PutKeys
  import Calendar
  import ContractKeys
  import Expiries
  import RealSums
  import Strikes

  const LADDER_COUNT: nat := 10

  /** A chain row; a value that is absent or no number is absent. */
  datatype Row = Row(
    contractKey: string, underlyingPrice: Option<real>, bid: Option<real>, ask: Option<real>, mid: Option<real>,
    dayClose: Option<real>, iv: Option<real>, delta: Option<real>)

  datatype Filters = Filters(
    dteMin: Option<int>, dteMax: Option<int>, maxProbItm: Option<real>, minAnnualized: Option<real>,
    maxSpread: Option<real>, minPremium: Option<real>)

  /** Spot, strike, days and IV to a probability. */
  type Pricing = (real, real, int, real) -> real

  datatype Contract = Contract(
    expiry: string, dte: int, strike: int, spot: real, premium: real, inputs: Inputs, score: real, rating: Rating,
    iv: Option<real>)

  datatype Group = Group(
    symbol: string, spot: real, bestScore: real, averageIv: Option<real>, count: nat, contracts: seq<Contract>)

  datatype Reason = ExpirationsFailed | NoneOnFile | NoneInWindow | NoPrice | SnapshotsFailed | NoSnapshots | NonePassed

  datatype Outcome = Failed(reason: Reason) | Found(group: Group)

  /** What the stores answer for a symbol; expirations and rows are absent when the call fails. */
  datatype Market = Market(
    spot: Option<real>, expirations: Option<seq<string>>, rows: Option<seq<Row>>, ivPercentile: Option<real>)

  // ---------------------------------------------------------------- one row

  function Dollars(strike: int): real {
    strike as real / Strikes.UNIT as real
  }

  function SpotOf(r: Row, spot: real): real {
    if r.underlyingPrice.Some? then r.underlyingPrice.value else spot
  }

  /** The mid, else the middle of bid and ask, else the close. */
  function MidOf(r: Row): Option<real> {
    if r.mid.Some? then r.mid
    else if r.bid.Some? && r.ask.Some? then Some((r.bid.value + r.ask.value) / 2.0)
    else r.dayClose
  }

  function SpreadOf(r: Row, mid: real): Option<real>
    requires mid > 0.0
  {
    if r.bid.Some? && r.ask.Some? then Some((r.ask.value - r.bid.value) / mid) else None
  }

  function ProbItm(r: Row, spot: real, strike: real, dte: int, pricing: Pricing): real {
    if r.iv.Some? && r.iv.value > 0.0 then pricing(spot, strike, dte, r.iv.value)
    else if r.delta.Some? then
      var size := if r.delta.value < 0.0 then -r.delta.value else r.delta.value;
      if size > 1.0 then 1.0 else size
    else 0.5
  }

  function SafetyMargin(spot: real, strike: real): real
    requires spot > 0.0
  {
    var margin := (spot - strike) / spot;
    if margin < 0.0 then 0.0 else margin
  }

  function Annualized(premium: real, strike: real, dte: int): Option<real> {
    var margin := strike * 100.0;
    if margin > 0.0 && dte > 0 then Some(premium / margin * (365.0 / dte as real)) else None
  }

  predicate AtMost(v: Option<real>, limit: Option<real>) {
    v.Some? && limit.Some? ==> v.value <= limit.value
  }

  predicate Passes(f: Filters, premium: real, x: Inputs) {
    && AtMost(x.spread, f.maxSpread) && AtMost(Some(x.probItm), f.maxProbItm)
    && AtMost(f.minPremium, Some(premium)) && AtMost(f.minAnnualized, x.annualized)
  }

  /** The contract of a row with a positive spot and premium that passes every filter it can be held to. */
  function Candidate(
    r: Row, e: Expiry, strike: int, spot: real, ivPercentile: Option<real>, f: Filters, pricing: Pricing
  ): Option<Contract> {
    var own, mid := SpotOf(r, spot), MidOf(r);
    if own <= 0.0 || mid.None? || mid.value <= 0.0 then None else
    var premium := mid.value * 100.0;
    var x := Inputs(
      Annualized(premium, Dollars(strike), e.1), ProbItm(r, own, Dollars(strike), e.1, pricing),
      SafetyMargin(own, Dollars(strike)), ivPercentile, SpreadOf(r, mid.value));
    if !Passes(f, premium, x) then None else
    var score := CompositeScore(x);
    Some(Contract(e.0, e.1, strike, own, premium, x, OneDecimal(score), RatingOf(score), r.iv))
  }

  // ---------------------------------------------------------------- the keys asked for

  predicate InWindow(f: Filters, dte: int) {
    && (f.dteMin.Some? ==> f.dteMin.value <= dte)
    && (f.dteMax.Some? ==> dte <= f.dteMax.value)
  }

  /** The expiry a text names, if it is a date inside the window. */
  function ExpiryIn(text: string, f: Filters, today: int): Option<Expiry> {
    var e := Expiries.CompactExpiry(text);
    if !Expiries.IsCompact(e) then None else
    match Expiries.FromDigits(e)
    case None => None
    case Some(d) =>
      var dte := Calendar.Ordinal(d) - today;
      if InWindow(f, dte) then Some((e, dte)) else None
  }

  function Windowed(f: Filters, today: int): string -> Option<Expiry> {
    (text: string) => ExpiryIn(text, f, today)
  }

  // ---------------------------------------------------------------- the scan

  /** A row that answers one of the keys as a put, and passes. */
  function RowContract(
    r: Row, meta: map<string, Expiry>, spot: real, ivPercentile: Option<real>, f: Filters, pricing: Pricing
  ): Option<Contract> {
    var read := ReadKey(r.contractKey);
    if read.None? || read.value.1 != "P" || r.contractKey !in meta then None
    else Candidate(r, meta[r.contractKey], read.value.0, spot, ivPercentile, f, pricing)
  }

  function Picker(
    meta: map<string, Expiry>, spot: real, ivPercentile: Option<real>, f: Filters, pricing: Pricing
  ): Row -> Option<Contract> {
    (r: Row) => RowContract(r, meta, spot, ivPercentile, f, pricing)
  }

  function IvOf(): Contract -> Option<real> {
    (c: Contract) => c.iv
  }

  predicate Higher(a: Contract, b: Contract) {
    a.score >= b.score
  }

  function AverageIv(contracts: seq<Contract>): Option<real> {
    var ivs := Collect(contracts, IvOf());
    if ivs == [] then None else Some(RealSums.Mean(ivs))
  }

  /** The contracts, the highest shown score first. */
  function GroupOf(sym: string, contracts: seq<Contract>): Group
    requires contracts != []
  {
    SortSorts(contracts, Higher);
    var sorted := Sort(contracts, Higher);
    Group(sym, sorted[0].spot, sorted[0].score, AverageIv(contracts), |sorted|, sorted)
  }

  function Window(m: Market, f: Filters, today: int): seq<Expiry>
    requires m.expirations.Some?
  {
    Collect(m.expirations.value, Windowed(f, today))
  }

  function Contracts(sym: string, m: Market, f: Filters, today: int, pricing: Pricing): seq<Contract>
    requires m.expirations.Some? && m.spot.Some? && m.rows.Some?
  {
    var strikes := StrikesFor(m.spot.value, LADDER_COUNT);
    var meta := KeyMeta(PutKeyOf(sym), Window(m, f, today), strikes);
    Collect(m.rows.value, Picker(meta, m.spot.value, m.ivPercentile, f, pricing))
  }

  function Scan(sym: string, m: Market, f: Filters, today: int, pricing: Pricing): Outcome {
    if m.expirations.None? then Failed(ExpirationsFailed)
    else if m.expirations.value == [] then Failed(NoneOnFile)
    else if Window(m, f, today) == [] then Failed(NoneInWindow)
    else if m.spot.None? || m.spot.value <= 0.0 then Failed(NoPrice)
    else if m.rows.None? then Failed(SnapshotsFailed)
    else if m.rows.value == [] then Failed(NoSnapshots)
    else
      var contracts := Contracts(sym, m, f, today, pricing);
      if contracts == [] then Failed(NonePassed) else Found(GroupOf(sym, contracts))
  }

  method ScanCsp(sym: string, m: Market, f: Filters, today: int, pricing: Pricing) returns (o: Outcome)
    ensures o == Scan(sym, m, f, today, pricing)
  {
    if m.expirations.None? {
      return Failed(ExpirationsFailed);
    }
    if m.expirations.value == [] {
      return Failed(NoneOnFile);
    }
    var window := CollectAll(m.expirations.value, Windowed(f, today));
    if window == [] {
      return Failed(NoneInWindow);
    }
    if m.spot.None? || m.spot.value <= 0.0 {
      return Failed(NoPrice);
    }
    var spot := m.spot.value;
    var strikes := StrikesAroundSpot(spot, LADDER_COUNT);
    var meta := BuildKeys(PutKeyOf(sym), window, strikes);
    if m.rows.None? {
      return Failed(SnapshotsFailed);
    }
    if m.rows.value == [] {
      return Failed(NoSnapshots);
    }
    var contracts := CollectAll(m.rows.value, Picker(meta, spot, m.ivPercentile, f, pricing));
    if contracts == [] {
      return Failed(NonePassed);
    }
    o := Found(GroupOf(sym, contracts));
  }

  // ---------------------------------------------------------------- what a scan returns

  /** An expiry of the window is a date inside it. */
  lemma WindowEntry(m: Market, f: Filters, today: int, e: Expiry)
    requires m.expirations.Some? && e in Window(m, f, today)
    ensures Expiries.IsCompact(e.0) && InWindow(f, e.1)
    ensures Expiries.FromDigits(e.0).Some? && e.1 == Calendar.Ordinal(Expiries.FromDigits(e.0).value) - today
  {
    var i := CollectedComesFrom(m.expirations.value, Windowed(f, today), e);
  }

  /** The window holds every expiry text that is a date within the limits, in eight digits, and nothing else. */
  lemma WindowIff(m: Market, f: Filters, today: int, e: Expiry)
    requires m.expirations.Some?
    ensures e in Window(m, f, today) <==>
      && (f.dteMin.Some? ==> f.dteMin.value <= e.1) && (f.dteMax.Some? ==> e.1 <= f.dteMax.value)
      && exists text :: text in m.expirations.value && IsExpiryOf(text, e, today)
  {
    if e in Window(m, f, today) {
      var i := CollectedComesFrom(m.expirations.value, Windowed(f, today), e);
      assert IsExpiryOf(m.expirations.value[i], e, today);
    }
    if text :| text in m.expirations.value && IsExpiryOf(text, e, today) && InWindow(f, e.1) {
      var i :| 0 <= i < |m.expirations.value| && m.expirations.value[i] == text;
      PickedIsCollected(m.expirations.value, Windowed(f, today), i);
    }
  }

  /** The eight digits and the days to expiry of a text that is a date. */
  predicate IsExpiryOf(text: string, e: Expiry, today: int) {
    && e.0 == Expiries.CompactExpiry(text) && |e.0| == 8 && Expiries.IsCompact(e.0)
    && Expiries.FromDigits(e.0).Some? && e.1 == Calendar.Ordinal(Expiries.FromDigits(e.0).value) - today
  }

  /** What every contract of a scan is held to. */
  predicate Screened(c: Contract, f: Filters) {
    && InWindow(f, c.dte) && Passes(f, c.premium, c.inputs)
    && c.spot > 0.0 && c.premium > 0.0
    && c.score == OneDecimal(CompositeScore(c.inputs)) && 0.0 <= c.score <= 100.0
    && c.rating == RatingOf(CompositeScore(c.inputs))
  }

  lemma CandidateIsScreened(
    r: Row, e: Expiry, strike: int, spot: real, ivPercentile: Option<real>, f: Filters, pricing: Pricing)
    requires Candidate(r, e, strike, spot, ivPercentile, f, pricing).Some? && InWindow(f, e.1)
    ensures var c := Candidate(r, e, strike, spot, ivPercentile, f, pricing).value;
      Screened(c, f) && c.strike == strike && c.expiry == e.0 && c.dte == e.1
  {
    ScoreRange(Candidate(r, e, strike, spot, ivPercentile, f, pricing).value.inputs);
  }

  /** The yearly return on the cash that the put ties up, where there is any and some time is left. */
  predicate IsReturn(annualized: Option<real>, premium: real, strike: real, dte: int) {
    && (annualized.Some? <==> strike > 0.0 && dte > 0)
    && (annualized.Some? ==> annualized.value * (strike * 100.0) * dte as real == premium * 365.0)
  }

  /** How far the spot may fall, in parts of itself, before it reaches the strike. */
  predicate IsSafety(margin: real, spot: real, strike: real) {
    margin >= 0.0 && margin * spot == if strike < spot then spot - strike else 0.0
  }

  lemma MarginOfSafety(spot: real, strike: real)
    requires spot > 0.0
    ensures IsSafety(SafetyMargin(spot, strike), spot, strike)
  {
  }

  /** What a contract's figures mean. */
  lemma ReturnAndSafety(
    r: Row, e: Expiry, strike: int, spot: real, ivPercentile: Option<real>, f: Filters, pricing: Pricing)
    requires Candidate(r, e, strike, spot, ivPercentile, f, pricing).Some?
    ensures var c := Candidate(r, e, strike, spot, ivPercentile, f, pricing).value;
      && IsReturn(c.inputs.annualized, c.premium, Dollars(strike), e.1)
      && IsSafety(c.inputs.safetyMargin, c.spot, Dollars(strike))
  {
    var c := Candidate(r, e, strike, spot, ivPercentile, f, pricing).value;
    MarginOfSafety(c.spot, Dollars(strike));
  }

  /** The premium of one contract is the mid, where that is absent the middle of bid and ask, and where one of
      these is absent too the close, each for 100 shares. */
  predicate IsPremium(r: Row, premium: real) {
    && (r.mid.Some? ==> premium == 100.0 * r.mid.value)
    && (r.mid.None? && r.bid.Some? && r.ask.Some? ==> 2.0 * premium == 100.0 * (r.bid.value + r.ask.value))
    && (r.mid.None? && !(r.bid.Some? && r.ask.Some?) ==> r.dayClose.Some? && premium == 100.0 * r.dayClose.value)
  }

  /** The probability is priced from a positive IV, else the size of the delta up to 1, else a half. */
  predicate IsProb(r: Row, spot: real, strike: real, dte: int, pricing: Pricing, p: real) {
    && (r.iv.Some? && r.iv.value > 0.0 ==> p == pricing(spot, strike, dte, r.iv.value))
    && (!(r.iv.Some? && r.iv.value > 0.0) && r.delta.Some? ==>
          && 0.0 <= p <= 1.0
          && if -1.0 <= r.delta.value <= 1.0 then p == r.delta.value || p == -r.delta.value else p == 1.0)
    && (!(r.iv.Some? && r.iv.value > 0.0) && r.delta.None? ==> p == 0.5)
  }

  /** Where a contract's figures come from. */
  lemma FiguresFromRow(
    r: Row, e: Expiry, strike: int, spot: real, ivPercentile: Option<real>, f: Filters, pricing: Pricing)
    requires Candidate(r, e, strike, spot, ivPercentile, f, pricing).Some?
    ensures var c := Candidate(r, e, strike, spot, ivPercentile, f, pricing).value;
      && c.expiry == e.0 && c.dte == e.1 && c.strike == strike && c.iv == r.iv
      && c.spot == (if r.underlyingPrice.Some? then r.underlyingPrice.value else spot)
      && IsPremium(r, c.premium)
      && IsProb(r, c.spot, strike as real / 100000000.0, e.1, pricing, c.inputs.probItm)
      && c.inputs.ivPercentile == ivPercentile
      && (c.inputs.spread.Some? <==> r.bid.Some? && r.ask.Some?)
      && (c.inputs.spread.Some? ==> c.inputs.spread.value * c.premium == 100.0 * (r.ask.value - r.bid.value))
  {
    var c, mid := Candidate(r, e, strike, spot, ivPercentile, f, pricing).value, MidOf(r).value;
    if r.bid.Some? && r.ask.Some? {
      assert c.inputs.spread.value * mid == r.ask.value - r.bid.value;
      assert c.premium * c.inputs.spread.value == 100.0 * (c.inputs.spread.value * mid);
    }
  }

  const NO_FILTERS := Filters(None, None, None, None, None, None)

  /** Without filters a row makes a contract exactly when its spot is positive and it has a positive premium. */
  lemma PricedIff(r: Row, e: Expiry, strike: int, spot: real, ivPercentile: Option<real>, pricing: Pricing)
    ensures Candidate(r, e, strike, spot, ivPercentile, NO_FILTERS, pricing).Some? <==>
      && (if r.underlyingPrice.Some? then r.underlyingPrice.value else spot) > 0.0
      && exists premium :: IsPremium(r, premium) && premium > 0.0
  {
    if MidOf(r).Some? {
      assert IsPremium(r, MidOf(r).value * 100.0);
    }
  }

  /** With filters it is that contract, kept exactly when its probability and premium, and its spread and return
      where they are measured, are within the limits that are given. */
  lemma KeptIff(
    r: Row, e: Expiry, strike: int, spot: real, ivPercentile: Option<real>, f: Filters, pricing: Pricing)
    ensures var free, c := Candidate(r, e, strike, spot, ivPercentile, NO_FILTERS, pricing),
                           Candidate(r, e, strike, spot, ivPercentile, f, pricing);
      && (c.Some? ==> c == free)
      && (c.Some? <==>
            && free.Some?
            && (f.maxSpread.Some? && free.value.inputs.spread.Some? ==>
                  free.value.inputs.spread.value <= f.maxSpread.value)
            && (f.maxProbItm.Some? ==> free.value.inputs.probItm <= f.maxProbItm.value)
            && (f.minPremium.Some? ==> f.minPremium.value <= free.value.premium)
            && (f.minAnnualized.Some? && free.value.inputs.annualized.Some? ==>
                  f.minAnnualized.value <= free.value.inputs.annualized.value))
  {
  }

  /** What a premium and a spread give back: the two quotes, exactly where the mid is absent or their middle. */
  lemma QuotesRecoveredIff(
    r: Row, e: Expiry, strike: int, spot: real, ivPercentile: Option<real>, f: Filters, pricing: Pricing)
    requires Candidate(r, e, strike, spot, ivPercentile, f, pricing).Some? && r.bid.Some? && r.ask.Some?
    ensures var c := Candidate(r, e, strike, spot, ivPercentile, f, pricing).value;
      c.inputs.spread.Some? &&
      (c.premium - c.premium * c.inputs.spread.value / 2.0 == 100.0 * r.bid.value
       && c.premium + c.premium * c.inputs.spread.value / 2.0 == 100.0 * r.ask.value
       <==> r.mid.None? || 2.0 * r.mid.value == r.bid.value + r.ask.value)
  {
    FiguresFromRow(r, e, strike, spot, ivPercentile, f, pricing);
  }

  function Meta(sym: string, m: Market, f: Filters, today: int): map<string, Expiry>
    requires m.expirations.Some? && m.spot.Some?
  {
    KeyMeta(PutKeyOf(sym), Window(m, f, today), StrikesFor(m.spot.value, LADDER_COUNT))
  }

  /** A row's contract answers a key that was asked for: an expiry of the window and a strike of the ladder,
      which is the contract's own unless the symbol has a bar. */
  lemma RowContractIsAsked(sym: string, m: Market, f: Filters, today: int, pricing: Pricing, r: Row) returns (d: int)
    requires m.expirations.Some? && m.spot.Some?
    requires RowContract(r, Meta(sym, m, f, today), m.spot.value, m.ivPercentile, f, pricing).Some?
    ensures var c := RowContract(r, Meta(sym, m, f, today), m.spot.value, m.ivPercentile, f, pricing).value;
      && Screened(c, f) && (c.expiry, c.dte) in Window(m, f, today)
      && d in StrikesFor(m.spot.value, 10) && r.contractKey == PutKey(sym, c.expiry, d)
      && ('|' !in ContractKeys.SymbolOf(sym) ==> c.strike == d * Strikes.UNIT)
  {
    var meta := Meta(sym, m, f, today);
    var e, strike := meta[r.contractKey], ReadKey(r.contractKey).value.0;
    d := EntryIsAsked(PutKeyOf(sym), Window(m, f, today), StrikesFor(m.spot.value, LADDER_COUNT), r.contractKey);
    WindowEntry(m, f, today, e);
    CandidateIsScreened(r, e, strike, m.spot.value, m.ivPercentile, f, pricing);
    if '|' !in ContractKeys.SymbolOf(sym) {
      ReadKeyOfPutKey(sym, e.0, d);
    }
  }

  /** A contract of the group, with its row and the strike of the ladder whose key the row answers. */
  ghost predicate Justified(sym: string, m: Market, f: Filters, today: int, c: Contract, r: Row, d: int)
    requires m.expirations.Some? && m.spot.Some? && m.rows.Some?
  {
    && r in m.rows.value && (c.expiry, c.dte) in Window(m, f, today)
    && d in StrikesFor(m.spot.value, 10) && r.contractKey == PutKey(sym, c.expiry, d)
    && ('|' !in ContractKeys.SymbolOf(sym) ==> c.strike == d * Strikes.UNIT)
  }

  /** Every contract returned passes every filter whose quantity is measured and answers a key of the window
      and the ladder. */
  lemma ContractsAreSound(sym: string, m: Market, f: Filters, today: int, pricing: Pricing, c: Contract)
    returns (r: Row, d: int)
    requires m.expirations.Some? && m.spot.Some? && m.rows.Some?
    requires c in Contracts(sym, m, f, today, pricing)
    ensures Screened(c, f) && Justified(sym, m, f, today, c, r, d)
  {
    var pick := Picker(Meta(sym, m, f, today), m.spot.value, m.ivPercentile, f, pricing);
    var i := CollectedComesFrom(m.rows.value, pick, c);
    r := m.rows.value[i];
    d := RowContractIsAsked(sym, m, f, today, pricing, r);
  }

  predicate OnLadder(m: Market, strike: int)
    requires m.spot.Some?
  {
    exists d :: d in StrikesFor(m.spot.value, 10) && strike == d * Strikes.UNIT
  }

  /** Where contracts are returned, their strikes are on the ladder exactly when the symbol has no bar, or brings
      along a strike that happens to be. */
  lemma StrikesOnLadderIff(sym: string, m: Market, f: Filters, today: int, pricing: Pricing)
    requires m.expirations.Some? && m.spot.Some? && m.rows.Some?
    requires Contracts(sym, m, f, today, pricing) != []
    ensures (forall c :: c in Contracts(sym, m, f, today, pricing) ==> OnLadder(m, c.strike)) <==>
      '|' !in ContractKeys.SymbolOf(sym) || (OwnStrikeOf(sym).Some? && OnLadder(m, OwnStrikeOf(sym).value))
  {
    var contracts := Contracts(sym, m, f, today, pricing);
    forall c | c in contracts
      ensures if '|' !in ContractKeys.SymbolOf(sym) then OnLadder(m, c.strike) else OwnStrikeOf(sym) == Some(c.strike)
    {
      StrikeOfContract(sym, m, f, today, pricing, c);
    }
    assert contracts[0] in contracts;
  }

  lemma StrikeOfContract(sym: string, m: Market, f: Filters, today: int, pricing: Pricing, c: Contract)
    requires m.expirations.Some? && m.spot.Some? && m.rows.Some?
    requires c in Contracts(sym, m, f, today, pricing)
    ensures if '|' !in ContractKeys.SymbolOf(sym) then OnLadder(m, c.strike) else OwnStrikeOf(sym) == Some(c.strike)
  {
    var pick := Picker(Meta(sym, m, f, today), m.spot.value, m.ivPercentile, f, pricing);
    var i := CollectedComesFrom(m.rows.value, pick, c);
    var r := m.rows.value[i];
    var d := RowContractIsAsked(sym, m, f, today, pricing, r);
    if '|' in ContractKeys.SymbolOf(sym) {
      CompactEntry(m, f, today, (c.expiry, c.dte));
      ReadKeyOfPutKey(sym, c.expiry, d);
    }
  }

  /** No row is lost: for a symbol without a bar, every row that answers a key of the window and the ladder is
      judged by its own expiry and strike, and its contract is returned if it passes. */
  lemma ContractsAreComplete(
    sym: string, m: Market, f: Filters, today: int, pricing: Pricing, i: nat, e: Expiry, d: int)
    requires m.expirations.Some? && m.spot.Some? && m.rows.Some?
    requires '|' !in ContractKeys.SymbolOf(sym) && i < |m.rows.value|
    requires e in Window(m, f, today) && d in StrikesFor(m.spot.value, LADDER_COUNT)
    requires m.rows.value[i].contractKey == PutKey(sym, e.0, d)
    ensures var c := Candidate(m.rows.value[i], e, d * Strikes.UNIT, m.spot.value, m.ivPercentile, f, pricing);
      c.Some? ==> c.value in Contracts(sym, m, f, today, pricing)
  {
    var r := m.rows.value[i];
    WindowEntry(m, f, today, e);
    MetaOf(sym, m, f, today, e, d);
    ReadKeyOfPutKey(sym, e.0, d);
    var pick := Picker(Meta(sym, m, f, today), m.spot.value, m.ivPercentile, f, pricing);
    if pick(r).Some? {
      PickedIsCollected(m.rows.value, pick, i);
    }
  }

  lemma MetaOf(sym: string, m: Market, f: Filters, today: int, e: Expiry, d: int)
    requires m.expirations.Some? && m.spot.Some?
    requires e in Window(m, f, today) && d in StrikesFor(m.spot.value, LADDER_COUNT)
    ensures var k := PutKey(sym, e.0, d); k in Meta(sym, m, f, today) && Meta(sym, m, f, today)[k] == e
  {
    var window, strikes, key := Window(m, f, today), StrikesFor(m.spot.value, LADDER_COUNT), PutKeyOf(sym);
    forall e', d' | e' in window && d' in strikes && key(e'.0, d') == key(e.0, d)
      ensures e' == e
    {
      SameKey(sym, m, f, today, e, d, e', d');
    }
    KeyStandsFor(key, window, strikes, e, d);
  }

  lemma SameKey(sym: string, m: Market, f: Filters, today: int, e: Expiry, d: int, e': Expiry, d': int)
    requires m.expirations.Some? && e in Window(m, f, today) && e' in Window(m, f, today)
    requires PutKey(sym, e.0, d) == PutKey(sym, e'.0, d')
    ensures e == e'
  {
    CompactEntry(m, f, today, e);
    CompactEntry(m, f, today, e');
    PutKeyIsInjective(sym, e.0, d, e'.0, d');
    SameText(m, f, today, e, e');
  }

  lemma CompactEntry(m: Market, f: Filters, today: int, e: Expiry)
    requires m.expirations.Some? && e in Window(m, f, today)
    ensures Expiries.IsCompact(e.0)
  {
    WindowEntry(m, f, today, e);
  }

  lemma SameText(m: Market, f: Filters, today: int, e: Expiry, e': Expiry)
    requires m.expirations.Some? && e in Window(m, f, today) && e' in Window(m, f, today) && e.0 == e'.0
    ensures e == e'
  {
    WindowEntry(m, f, today, e);
    WindowEntry(m, f, today, e');
  }

  /** The group holds the contracts, the highest score first, and its figures are theirs. */
  lemma GroupIsOfItsContracts(sym: string, contracts: seq<Contract>)
    requires contracts != []
    ensures var g := GroupOf(sym, contracts);
      && multiset(g.contracts) == multiset(contracts) && g.count == |contracts| && g.symbol == sym
      && (forall i, j :: 0 <= i < j < |g.contracts| ==> g.contracts[i].score >= g.contracts[j].score)
      && (forall c :: c in contracts ==> c.score <= g.bestScore)
      && (exists c :: c in contracts && c.score == g.bestScore && c.spot == g.spot)
  {
    SortSorts(contracts, Higher);
    var sorted := Sort(contracts, Higher);
    forall c | c in contracts
      ensures c.score <= sorted[0].score
    {
      var i :| 0 <= i < |sorted| && sorted[i] == c;
      assert i == 0 || Higher(sorted[0], sorted[i]);
    }
    assert sorted[0] in sorted;
  }

  /** The average IV is that of the contracts that have one, and absent where none has. */
  lemma AverageIvIs(contracts: seq<Contract>)
    ensures var ivs := Collect(contracts, (c: Contract) => c.iv);
      && (AverageIv(contracts).Some? <==> exists c :: c in contracts && c.iv.Some?)
      && (AverageIv(contracts).Some? ==> IsMeanOf(AverageIv(contracts).value, ivs))
  {
    var ivs := Collect(contracts, IvOf());
    SameCollected(contracts, IvOf(), (c: Contract) => c.iv);
    if c :| c in contracts && c.iv.Some? {
      var i :| 0 <= i < |contracts| && contracts[i] == c;
      PickedIsCollected(contracts, IvOf(), i);
    }
    if ivs != [] {
      var i := CollectedComesFrom(contracts, IvOf(), ivs[0]);
      assert contracts[i] in contracts && contracts[i].iv.Some?;
      MeanOf(ivs);
    }
  }

  /** So many times the mean is the sum. */
  predicate IsMeanOf(mean: real, xs: seq<real>) {
    mean * |xs| as real == RealSums.Sum(xs)
  }

  lemma MeanOf(xs: seq<real>)
    requires xs != []
    ensures IsMeanOf(RealSums.Mean(xs), xs)
  {
  }

  lemma {:induction false} SameCollected<T, U>(xs: seq<T>, f: T -> Option<U>, g: T -> Option<U>)
    requires forall x :: f(x) == g(x)
    ensures Collect(xs, f) == Collect(xs, g)
  {
    if xs != [] {
      SameCollected(xs[..|xs| - 1], f, g);
    }
  }

  /** The expirations are known and one is in the window. */
  ghost predicate HasWindow(m: Market, f: Filters, today: int) {
    m.expirations.Some? && exists e :: e in Window(m, f, today)
  }

  ghost predicate HasPrice(m: Market, f: Filters, today: int) {
    HasWindow(m, f, today) && m.spot.Some? && m.spot.value > 0.0
  }

  /** A scan fails for the first of its reasons that applies, and returns a group exactly when none does. */
  lemma FailsForIff(sym: string, m: Market, f: Filters, today: int, pricing: Pricing)
    ensures var o := Scan(sym, m, f, today, pricing);
      && (o == Failed(ExpirationsFailed) <==> m.expirations.None?)
      && (o == Failed(NoneOnFile) <==> m.expirations == Some([]))
      && (o == Failed(NoneInWindow) <==>
            m.expirations.Some? && m.expirations.value != [] && !HasWindow(m, f, today))
      && (o == Failed(NoPrice) <==> HasWindow(m, f, today) && (m.spot.None? || m.spot.value <= 0.0))
      && (o == Failed(SnapshotsFailed) <==> HasPrice(m, f, today) && m.rows.None?)
      && (o == Failed(NoSnapshots) <==> HasPrice(m, f, today) && m.rows == Some([]))
      && (o == Failed(NonePassed) <==>
            HasPrice(m, f, today) && m.rows.Some? && m.rows.value != [] && Contracts(sym, m, f, today, pricing) == [])
      && (o.Found? <==> HasPrice(m, f, today) && m.rows.Some? && exists c :: c in Contracts(sym, m, f, today, pricing))
  {
    if m.expirations.Some? && Window(m, f, today) != [] {
      assert Window(m, f, today)[0] in Window(m, f, today);
    }
    if HasPrice(m, f, today) && m.rows.Some? && Contracts(sym, m, f, today, pricing) != [] {
      assert Contracts(sym, m, f, today, pricing)[0] in Contracts(sym, m, f, today, pricing);
    }
  }
}

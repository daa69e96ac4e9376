/** The daily realized loss: a stream of fills over many symbols, one position
    per symbol, and fees charged in quote currency. */
module RealizedLoss {
  import opened Numbers
  import opened PositionBook
  import opened Text

  /** One persisted fill, as the day's query returns it. */
  datatype FillRow = FillRow(symbol: string, side: string, quantity: real, price: real, fee: real, feeAsset: string)

  const KNOWN_QUOTES := ["USDT", "USDC", "BUSD", "USDP", "FDUSD", "DAI", "USD", "BTC", "ETH"]

  function SymbolOf(row: FillRow): string {
    Strip(Upper(row.symbol))
  }

  function SideOf(row: FillRow): string {
    Strip(Upper(row.side))
  }

  /** Rows the book looks at; all others are skipped. */
  predicate Accepted(row: FillRow) {
    && SymbolOf(row) != ""
    && (SideOf(row) == "BUY" || SideOf(row) == "SELL")
    && row.quantity > 0.0
    && row.price > 0.0
  }

  function SignedQty(row: FillRow): real {
    if SideOf(row) == "BUY" then row.quantity else -row.quantity
  }

  function SplitByQuote(symbol: string, quotes: seq<string>): (string, string) {
    if quotes == [] then (symbol, "")
    else if EndsWith(symbol, quotes[0]) && |symbol| > |quotes[0]| then
      (symbol[..|symbol| - |quotes[0]|], quotes[0])
    else SplitByQuote(symbol, quotes[1..])
  }

  function SplitByDelimiter(symbol: string, delimiters: string): (string, string) {
    if delimiters == "" then SplitByQuote(symbol, KNOWN_QUOTES)
    else
      var parts := Parts(symbol, delimiters[0]);
      if delimiters[0] in symbol && |parts| >= 2 then (parts[0], parts[1])
      else SplitByDelimiter(symbol, delimiters[1..])
  }

  function SplitSymbolAssets(symbol: string): (string, string) {
    var normalized := Upper(Strip(symbol));
    if normalized == "" then ("", "") else SplitByDelimiter(normalized, "/-_")
  }

  function FeeInQuote(row: FillRow): (fee: real)
    ensures row.price >= 0.0 ==> fee >= 0.0
  {
    var fee := Abs(row.fee);
    var feeAsset := Upper(row.feeAsset);
    var (baseAsset, quoteAsset) := SplitSymbolAssets(Upper(row.symbol));
    if fee <= 0.0 then 0.0
    else if feeAsset == "" || (quoteAsset != "" && feeAsset == quoteAsset) then fee
    else if baseAsset != "" && feeAsset == baseAsset then fee * row.price
    else fee
  }

  // ----- Reference: each symbol on its own -----

  /** The accepted rows of one symbol, in stream order. */
  function RowsOf(rows: seq<FillRow>, symbol: string): seq<FillRow> {
    if rows == [] then []
    else
      var last := rows[|rows| - 1];
      RowsOf(rows[..|rows| - 1], symbol) + (if Accepted(last) && SymbolOf(last) == symbol then [last] else [])
  }

  function TradesOf(rows: seq<FillRow>): (ts: seq<Trade>)
    ensures |ts| == |rows|
    ensures forall i :: 0 <= i < |rows| ==> ts[i] == Trade(SignedQty(rows[i]), rows[i].price)
  {
    seq(|rows|, i requires 0 <= i < |rows| => Trade(SignedQty(rows[i]), rows[i].price))
  }

  function FeesOf(rows: seq<FillRow>): real {
    if rows == [] then 0.0 else FeesOf(rows[..|rows| - 1]) + FeeInQuote(rows[|rows| - 1])
  }

  /** The ledger of one symbol after its rows. */
  function LedgerOf(rows: seq<FillRow>, symbol: string): Ledger {
    Run(OPENING, TradesOf(RowsOf(rows, symbol)))
  }

  /** Net realized PnL of one symbol traded alone. */
  function SymbolNet(rows: seq<FillRow>, symbol: string): real {
    LedgerOf(rows, symbol).gross - FeesOf(RowsOf(rows, symbol))
  }

  function Symbols(rows: seq<FillRow>): set<string> {
    set row | row in rows && Accepted(row) :: SymbolOf(row)
  }

  ghost function Total(symbols: set<string>, rows: seq<FillRow>): real {
    if symbols == {} then 0.0
    else
      var s :| s in symbols;
      SymbolNet(rows, s) + Total(symbols - {s}, rows)
  }

  function LossOf(realized: real): real {
    if realized >= 0.0 then 0.0 else Abs(realized)
  }

  // ----- Sums over sets of symbols -----

  lemma {:induction false} TotalPick(symbols: set<string>, s: string, rows: seq<FillRow>)
    requires s in symbols
    ensures Total(symbols, rows) == SymbolNet(rows, s) + Total(symbols - {s}, rows)
  {
    hide SymbolNet;
    var p :| p in symbols && Total(symbols, rows) == SymbolNet(rows, p) + Total(symbols - {p}, rows);
    if p != s {
      TotalPick(symbols - {p}, s, rows);
      TotalPick(symbols - {s}, p, rows);
      assert symbols - {p} - {s} == symbols - {s} - {p};
    }
  }

  lemma {:induction false} TotalCongruent(symbols: set<string>, rows: seq<FillRow>, rows': seq<FillRow>)
    requires forall s :: s in symbols ==> SymbolNet(rows, s) == SymbolNet(rows', s)
    ensures Total(symbols, rows) == Total(symbols, rows')
  {
    hide SymbolNet;
    if symbols == {} {
    } else {
      var s :| s in symbols;
      TotalCongruent(symbols - {s}, rows, rows');
      TotalPick(symbols, s, rows);
      TotalPick(symbols, s, rows');
    }
  }

  lemma {:induction false} RowsOfEmpty(rows: seq<FillRow>, s: string)
    requires s !in Symbols(rows)
    ensures RowsOf(rows, s) == []
  {
    if rows == [] {
    } else {
      var n := |rows| - 1;
      assert s !in Symbols(rows[..n]);
      RowsOfEmpty(rows[..n], s);
      assert rows[n] in rows;
    }
  }

  lemma {:induction false} RowsOfAccepted(rows: seq<FillRow>, s: string)
    ensures forall row :: row in RowsOf(rows, s) ==> row in rows && Accepted(row) && SymbolOf(row) == s
  {
    if rows == [] {
    } else {
      RowsOfAccepted(rows[..|rows| - 1], s);
    }
  }

  lemma {:induction false} RowsOfAppend(a: seq<FillRow>, b: seq<FillRow>, s: string)
    ensures RowsOf(a + b, s) == RowsOf(a, s) + RowsOf(b, s)
  {
    hide Accepted, SymbolOf;
    if b == [] {
      assert a + b == a;
    } else {
      var n := |b| - 1;
      assert (a + b)[..|a| + n] == a + b[..n];
      RowsOfAppend(a, b[..n], s);
    }
  }

  // ----- The loop -----

  /** What one row does to the books of every symbol. */
  lemma TakeRow(rows: seq<FillRow>, row: FillRow)
    ensures Symbols(rows + [row]) == Symbols(rows) + (if Accepted(row) then {SymbolOf(row)} else {})
    ensures forall s :: RowsOf(rows + [row], s)
                     == if Accepted(row) && SymbolOf(row) == s then RowsOf(rows, s) + [row] else RowsOf(rows, s)
  {
    hide Accepted, SymbolOf;
    assert (rows + [row])[..|rows|] == rows;
    forall s ensures s in Symbols(rows + [row]) <==> s in Symbols(rows) || (Accepted(row) && s == SymbolOf(row)) {
      if Accepted(row) && s == SymbolOf(row) {
        assert row in rows + [row];
      }
      if s in Symbols(rows) {
        var r :| r in rows && Accepted(r) && SymbolOf(r) == s;
        assert r in rows + [row];
      }
    }
  }

  /** What an accepted row adds to the realized total. */
  function Delta(rows: seq<FillRow>, row: FillRow): real {
    var l := LedgerOf(rows, SymbolOf(row));
    ApplyTrade(l, Trade(SignedQty(row), row.price)).gross - l.gross - FeeInQuote(row)
  }

  lemma TakeAcceptedRow(rows: seq<FillRow>, row: FillRow)
    requires Accepted(row)
    ensures var s := SymbolOf(row);
            && LedgerOf(rows + [row], s) == ApplyTrade(LedgerOf(rows, s), Trade(SignedQty(row), row.price))
            && SymbolNet(rows + [row], s) == SymbolNet(rows, s) + Delta(rows, row)
    ensures forall s :: s != SymbolOf(row) ==> LedgerOf(rows + [row], s) == LedgerOf(rows, s)
                                               && SymbolNet(rows + [row], s) == SymbolNet(rows, s)
  {
    hide ApplyTrade, FeeInQuote, Accepted, SymbolOf, SignedQty, RowsOf, TradesOf, FeesOf, Run;
    TakeRow(rows, row);
    RunTakesRow(RowsOf(rows, SymbolOf(row)), row);
  }

  lemma RunTakesRow(own: seq<FillRow>, row: FillRow)
    ensures Run(OPENING, TradesOf(own + [row]))
         == ApplyTrade(Run(OPENING, TradesOf(own)), Trade(SignedQty(row), row.price))
    ensures FeesOf(own + [row]) == FeesOf(own) + FeeInQuote(row)
  {
    hide ApplyTrade, FeeInQuote, SignedQty;
    assert (own + [row])[..|own|] == own;
    assert TradesOf(own + [row])[..|own|] == TradesOf(own);
  }

  lemma TotalTakesRow(rows: seq<FillRow>, row: FillRow)
    requires Accepted(row)
    ensures Total(Symbols(rows + [row]), rows + [row]) == Total(Symbols(rows), rows) + Delta(rows, row)
  {
    hide Delta, SymbolNet, LedgerOf, Accepted, SymbolOf;
    var s, rows' := SymbolOf(row), rows + [row];
    TakeRow(rows, row);
    TakeAcceptedRow(rows, row);
    var others := Symbols(rows) - {s};
    assert Symbols(rows') - {s} == others;
    TotalCongruent(others, rows, rows');
    TotalPick(Symbols(rows'), s, rows');
    if s in Symbols(rows) {
      TotalPick(Symbols(rows), s, rows);
    } else {
      NoRowsNoNet(rows, s);
      assert Symbols(rows) == others;
    }
  }

  lemma NoRowsNoNet(rows: seq<FillRow>, s: string)
    requires s !in Symbols(rows)
    ensures LedgerOf(rows, s) == OPENING && SymbolNet(rows, s) == 0.0
  {
    RowsOfEmpty(rows, s);
  }

  lemma SkipRow(rows: seq<FillRow>, row: FillRow)
    requires !Accepted(row)
    ensures forall s :: LedgerOf(rows + [row], s) == LedgerOf(rows, s)
    ensures Total(Symbols(rows + [row]), rows + [row]) == Total(Symbols(rows), rows)
  {
    hide Accepted, SymbolOf, LedgerOf, SymbolNet;
    TakeRow(rows, row);
    SkipRowKeepsSymbols(rows, row);
    assert Symbols(rows + [row]) == Symbols(rows);
    TotalCongruent(Symbols(rows), rows, rows + [row]);
  }

  lemma SkipRowKeepsSymbols(rows: seq<FillRow>, row: FillRow)
    requires !Accepted(row)
    ensures forall s :: LedgerOf(rows + [row], s) == LedgerOf(rows, s)
                        && SymbolNet(rows + [row], s) == SymbolNet(rows, s)
  {
    hide Accepted, SymbolOf, Run, FeesOf;
    TakeRow(rows, row);
  }

  /** Rebuilds the position book from the day's fills.  The loop over the
      interleaved stream computes the sum of the symbols taken one by one. */
  method CalculateDailyRealizedLoss(rows: seq<FillRow>) returns (loss: real)
    ensures loss == LossOf(Total(Symbols(rows), rows))
  {
    hide Accepted, SymbolOf, SignedQty, FeeInQuote, LedgerOf, Symbols, RowsOf;
    var positions: map<string, Position> := map[];
    var realized := 0.0;
    NoSymbols();
    for i := 0 to |rows|
      invariant realized == Total(Symbols(rows[..i]), rows[..i])
      invariant positions.Keys == Symbols(rows[..i])
      invariant forall s :: s in positions ==> positions[s] == LedgerOf(rows[..i], s).position
    {
      var row := rows[i];
      ghost var done := rows[..i];
      assert rows[..i + 1] == done + [row];
      TakeRow(done, row);
      if Accepted(row) {
        var symbol := SymbolOf(row);
        var position := if symbol in positions then positions[symbol] else FLAT;
        if symbol !in positions {
          NoRowsNoNet(done, symbol);
        }
        TakeAcceptedRow(done, row);
        TotalTakesRow(done, row);
        var pnl;
        position, pnl := TradeOnPosition(position, SignedQty(row), row.price, LedgerOf(done, symbol));
        realized := realized + pnl - FeeInQuote(row);
        positions := positions[symbol := position];
      } else {
        SkipRow(done, row);
      }
    }
    assert rows[..|rows|] == rows;
    loss := LossOf(realized);
  }

  lemma NoSymbols()
    ensures Symbols([]) == {} && Total(Symbols([]), []) == 0.0
  {
  }

  /** The loop's branch on direction, returning the new position and the PnL it realized. */
  method TradeOnPosition(position: Position, signedQty: real, price: real, ghost l: Ledger)
    returns (next: Position, pnl: real)
    requires l.position == position
    ensures ApplyTrade(l, Trade(signedQty, price)) == Ledger(next, l.gross + pnl)
  {
    hide IncreasePosition, ApplyCloseAndReverse, ClosePnl;
    pnl := 0.0;
    if SameDirection(position.qty, signedQty) || IsZero(position.qty) {
      next := IncreasePosition(position, signedQty, price);
    } else {
      var closeQty := MinReal(Abs(position.qty), Abs(signedQty));
      pnl := ClosePnl(position, price, closeQty);
      next := ApplyCloseAndReverse(position, signedQty, price, closeQty);
    }
  }

  // ----- Order and granularity of the stream -----

  /** The stream matters only through each symbol's own subsequence: any
      interleaving of the same per-symbol streams gives the same loss. */
  lemma InterleavingIndependent(rows: seq<FillRow>, rows': seq<FillRow>)
    requires forall s :: RowsOf(rows, s) == RowsOf(rows', s)
    ensures Total(Symbols(rows), rows) == Total(Symbols(rows'), rows')
  {
    hide Accepted, SymbolOf;
    forall s ensures s in Symbols(rows) <==> s in Symbols(rows') {
      SymbolsHaveRows(rows, s);
      SymbolsHaveRows(rows', s);
    }
    assert Symbols(rows) == Symbols(rows');
    TotalCongruent(Symbols(rows), rows, rows');
  }

  lemma {:induction false} SymbolsHaveRows(rows: seq<FillRow>, s: string)
    ensures s in Symbols(rows) <==> RowsOf(rows, s) != []
  {
    hide Accepted, SymbolOf;
    if s !in Symbols(rows) {
      RowsOfEmpty(rows, s);
    } else {
      var n := |rows| - 1;
      assert rows == rows[..n] + [rows[n]];
      TakeRow(rows[..n], rows[n]);
      SymbolsHaveRows(rows[..n], s);
    }
  }

  ghost predicate RowsInLots(rows: seq<FillRow>, lot: real) {
    forall row :: row in rows && Accepted(row) ==> Multiple(row.quantity, lot)
  }

  lemma NegatedMultiple(q: real, lot: real)
    requires Multiple(q, lot)
    ensures Multiple(-q, lot)
  {
    var k: int :| IsLots(q, lot, k);
    assert (-k) as real == -(k as real);
    assert IsLots(-q, lot, -k);
  }

  lemma SignedInLots(row: FillRow, lot: real)
    requires Accepted(row) && Multiple(row.quantity, lot)
    ensures SignedQty(row) != 0.0 && Multiple(SignedQty(row), lot)
  {
    hide Multiple;
    NegatedMultiple(row.quantity, lot);
  }

  lemma TradesInLots(rows: seq<FillRow>, s: string, lot: real)
    requires RowsInLots(rows, lot)
    ensures InLots(TradesOf(RowsOf(rows, s)), lot)
  {
    hide Multiple, Accepted, SignedQty, SymbolOf, RowsOf, TradesOf;
    RowsOfAccepted(rows, s);
    var own := RowsOf(rows, s);
    forall i | 0 <= i < |own| ensures SignedQty(own[i]) != 0.0 && Multiple(SignedQty(own[i]), lot) {
      assert own[i] in own;
      SignedInLots(own[i], lot);
    }
  }

  /** `r1` and `r2` are one fill of `r` reported in two pieces. */
  ghost predicate Pieces(r: FillRow, r1: FillRow, r2: FillRow) {
    && Accepted(r) && Accepted(r1) && Accepted(r2)
    && SymbolOf(r1) == SymbolOf(r) == SymbolOf(r2)
    && SideOf(r1) == SideOf(r) == SideOf(r2)
    && r1.price == r.price == r2.price
    && r1.quantity + r2.quantity == r.quantity
    && FeeInQuote(r1) + FeeInQuote(r2) == FeeInQuote(r)
  }

  lemma FeesAppend(a: seq<FillRow>, b: seq<FillRow>)
    ensures FeesOf(a + b) == FeesOf(a) + FeesOf(b)
  {
    hide FeeInQuote;
    if b == [] {
      assert a + b == a;
    } else {
      assert (a + b)[..|a| + |b| - 1] == a + b[..|b| - 1];
      FeesAppend(a, b[..|b| - 1]);
    }
  }

  lemma FeesOfTwo(r1: FillRow, r2: FillRow)
    ensures FeesOf([r1]) == FeeInQuote(r1)
    ensures FeesOf([r1, r2]) == FeeInQuote(r1) + FeeInQuote(r2)
  {
    hide FeeInQuote;
    assert [r1][..0] == [];
    assert [r1, r2][..1] == [r1];
  }

  lemma RowsOfPieces(s: string, r: FillRow, r1: FillRow, r2: FillRow)
    requires Pieces(r, r1, r2)
    ensures RowsOf([r], s) == if s == SymbolOf(r) then [r] else []
    ensures RowsOf([r1, r2], s) == if s == SymbolOf(r) then [r1, r2] else []
  {
    assert [r][..0] == [];
    assert [r1][..0] == [];
    assert [r1, r2][..1] == [r1];
    assert RowsOf([r1], s) == if s == SymbolOf(r) then [r1] else [];
  }

  lemma SplitSymbolNet(a: seq<FillRow>, r: FillRow, r1: FillRow, r2: FillRow, b: seq<FillRow>, s: string, lot: real)
    requires lot > EPSILON && RowsInLots(a, lot)
    requires Pieces(r, r1, r2) && Multiple(r1.quantity, lot) && Multiple(r2.quantity, lot)
    ensures SymbolNet(a + [r1, r2] + b, s) == SymbolNet(a + [r] + b, s)
  {
    hide Run, FeesOf, RowsOf, Pieces, Accepted, SymbolOf, Multiple, RowsInLots, InLots;
    RowsOfAppend(a + [r1, r2], b, s);
    RowsOfAppend(a, [r1, r2], s);
    RowsOfAppend(a + [r], b, s);
    RowsOfAppend(a, [r], s);
    RowsOfPieces(s, r, r1, r2);
    if s == SymbolOf(r) {
      SplitFees(RowsOf(a, s), r, r1, r2, RowsOf(b, s));
      TradesInLots(a, s, lot);
      SplitRun(RowsOf(a, s), r, r1, r2, RowsOf(b, s), lot);
    }
  }

  lemma SplitFees(own: seq<FillRow>, r: FillRow, r1: FillRow, r2: FillRow, after: seq<FillRow>)
    requires Pieces(r, r1, r2)
    ensures FeesOf(own + [r1, r2] + after) == FeesOf(own + [r] + after)
  {
    hide FeesOf, FeeInQuote, Accepted, SymbolOf, SideOf;
    FeesAppend(own + [r1, r2], after);
    FeesAppend(own, [r1, r2]);
    FeesAppend(own + [r], after);
    FeesAppend(own, [r]);
    FeesOfTwo(r1, r2);
    FeesOfTwo(r, r);
  }

  lemma SplitRun(own: seq<FillRow>, r: FillRow, r1: FillRow, r2: FillRow, after: seq<FillRow>, lot: real)
    requires lot > EPSILON && InLots(TradesOf(own), lot)
    requires Pieces(r, r1, r2) && Multiple(r1.quantity, lot) && Multiple(r2.quantity, lot)
    ensures Run(OPENING, TradesOf(own + [r1, r2] + after)) == Run(OPENING, TradesOf(own + [r] + after))
  {
    hide Run, InLots, Multiple, Pieces, SideOf;
    var q1, q2 := SignedQty(r1), SignedQty(r2);
    PiecesAgree(r, r1, r2);
    assert TradesOf(own + [r1, r2] + after)
        == TradesOf(own) + [Trade(q1, r.price), Trade(q2, r.price)] + TradesOf(after);
    assert TradesOf(own + [r] + after) == TradesOf(own) + [Trade(q1 + q2, r.price)] + TradesOf(after);
    NegatedMultiple(r1.quantity, lot);
    NegatedMultiple(r2.quantity, lot);
    SplitTrade(TradesOf(own), q1, q2, r.price, TradesOf(after), lot);
  }

  lemma PiecesAgree(r: FillRow, r1: FillRow, r2: FillRow)
    requires Pieces(r, r1, r2)
    ensures SameDirection(SignedQty(r1), SignedQty(r2))
    ensures SignedQty(r) == SignedQty(r1) + SignedQty(r2) && r.price == r1.price == r2.price
  {
    hide SymbolOf, SideOf, FeeInQuote;
  }

  /** Reporting one fill as two consecutive fills at its price, with the same
      total fee, changes nothing anywhere in the stream. */
  lemma SplitFillSameLoss(a: seq<FillRow>, r: FillRow, r1: FillRow, r2: FillRow, b: seq<FillRow>, lot: real)
    requires lot > EPSILON && RowsInLots(a, lot)
    requires Pieces(r, r1, r2) && Multiple(r1.quantity, lot) && Multiple(r2.quantity, lot)
    ensures var whole, split := a + [r] + b, a + [r1, r2] + b;
            Total(Symbols(split), split) == Total(Symbols(whole), whole)
  {
    hide SymbolNet, FeeInQuote, Multiple, RowsInLots, Accepted, SymbolOf;
    var whole, split := a + [r] + b, a + [r1, r2] + b;
    forall s ensures s in Symbols(split) <==> s in Symbols(whole) {
      SymbolsHaveRows(split, s);
      SymbolsHaveRows(whole, s);
      RowsOfAppend(a + [r1, r2], b, s);
      RowsOfAppend(a, [r1, r2], s);
      RowsOfAppend(a + [r], b, s);
      RowsOfAppend(a, [r], s);
      RowsOfPieces(s, r, r1, r2);
    }
    assert Symbols(split) == Symbols(whole);
    forall s ensures SymbolNet(split, s) == SymbolNet(whole, s) {
      SplitSymbolNet(a, r, r1, r2, b, s, lot);
    }
    TotalCongruent(Symbols(whole), split, whole);
  }
}

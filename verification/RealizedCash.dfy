/** The daily realized loss in terms of cash: what the rows of the day say was
    paid and received, read from the rows themselves. */
module RealizedCash {
  import opened Numbers
  import opened PositionBook
  import opened Text
  import opened RealizedLoss

  // ----- Reference: cash and quantity straight from the rows -----

  /** Cash a row brings in: selling brings quantity times price, buying costs
      it, and either costs its fee.  A row without a symbol, a known side, a
      positive quantity and a positive price is no fill. */
  function CashIn(row: FillRow): real {
    if Strip(Upper(row.symbol)) == "" || row.quantity <= 0.0 || row.price <= 0.0 then 0.0
    else if Strip(Upper(row.side)) == "SELL" then row.quantity * row.price - FeeInQuote(row)
    else if Strip(Upper(row.side)) == "BUY" then -(row.quantity * row.price) - FeeInQuote(row)
    else 0.0
  }

  /** Quantity a row brings in, by the same reading. */
  function BoughtIn(row: FillRow): real {
    if Strip(Upper(row.symbol)) == "" || row.quantity <= 0.0 || row.price <= 0.0 then 0.0
    else if Strip(Upper(row.side)) == "BUY" then row.quantity
    else if Strip(Upper(row.side)) == "SELL" then -row.quantity
    else 0.0
  }

  function DayCash(rows: seq<FillRow>): real {
    if rows == [] then 0.0 else DayCash(rows[..|rows| - 1]) + CashIn(rows[|rows| - 1])
  }

  function CashOf(rows: seq<FillRow>, s: string): real {
    if rows == [] then 0.0
    else
      var row := rows[|rows| - 1];
      CashOf(rows[..|rows| - 1], s) + (if Strip(Upper(row.symbol)) == s then CashIn(row) else 0.0)
  }

  function BoughtOf(rows: seq<FillRow>, s: string): real {
    if rows == [] then 0.0
    else
      var row := rows[|rows| - 1];
      BoughtOf(rows[..|rows| - 1], s) + (if Strip(Upper(row.symbol)) == s then BoughtIn(row) else 0.0)
  }

  // ----- One symbol -----

  lemma NetTakes(own: seq<FillRow>, row: FillRow)
    ensures NetQty(TradesOf(own + [row])) == NetQty(TradesOf(own)) + SignedQty(row)
    ensures NetCash(TradesOf(own + [row])) == NetCash(TradesOf(own)) - SignedQty(row) * row.price
    ensures FeesOf(own + [row]) == FeesOf(own) + FeeInQuote(row)
  {
    hide SignedQty, FeeInQuote;
    assert (own + [row])[..|own|] == own;
    assert TradesOf(own + [row])[..|own|] == TradesOf(own);
  }

  /** The trades the book is fed are the fills the rows report. */
  lemma RowsAreTrades(row: FillRow)
    ensures Accepted(row) ==>
              CashIn(row) == -(SignedQty(row) * row.price) - FeeInQuote(row) && BoughtIn(row) == SignedQty(row)
    ensures !Accepted(row) ==> CashIn(row) == 0.0 && BoughtIn(row) == 0.0
    ensures SymbolOf(row) == Strip(Upper(row.symbol))
  {
    hide Strip, Upper, FeeInQuote;
  }

  lemma NothingNet(s: string)
    ensures RowsOf([], s) == [] && NetQty(TradesOf([])) == NetCash(TradesOf([])) == FeesOf([]) == 0.0
  {
    assert TradesOf([]) == [];
  }

  lemma {:induction false} CashIsNet(rows: seq<FillRow>, s: string)
    ensures CashOf(rows, s) == NetCash(TradesOf(RowsOf(rows, s))) - FeesOf(RowsOf(rows, s))
    ensures BoughtOf(rows, s) == NetQty(TradesOf(RowsOf(rows, s)))
  {
    hide CashIn, BoughtIn, Accepted, SymbolOf, SignedQty, FeeInQuote, Strip, Upper, RowsOf, TradesOf, FeesOf;
    hide NetQty, NetCash;
    if rows == [] {
      NothingNet(s);
    } else {
      var n := |rows| - 1;
      assert rows == rows[..n] + [rows[n]];
      CashIsNet(rows[..n], s);
      RowsAreTrades(rows[n]);
      TakeRow(rows[..n], rows[n]);
      NetTakes(RowsOf(rows[..n], s), rows[n]);
    }
  }

  /** Through increases, partial closes and reversals, a symbol holds what its
      rows bought and has realized the cash its rows brought in plus what it
      holds at its average price. */
  lemma SymbolConserves(rows: seq<FillRow>, s: string, lot: real)
    requires lot > 0.000000000001 && RowsInLots(rows, lot)
    ensures var p := LedgerOf(rows, s).position;
            p.qty == BoughtOf(rows, s) && SymbolNet(rows, s) == CashOf(rows, s) + p.qty * p.avgPrice
  {
    hide RowsInLots, InLots, Run, NetQty, NetCash, TradesOf, RowsOf, FeesOf, CashOf, BoughtOf, Multiple;
    TradesInLots(rows, s, lot);
    Conservation(TradesOf(RowsOf(rows, s)), lot);
    CashIsNet(rows, s);
  }

  // ----- The whole day -----

  ghost function SumCash(symbols: set<string>, rows: seq<FillRow>): real {
    if symbols == {} then 0.0
    else
      var s :| s in symbols;
      CashOf(rows, s) + SumCash(symbols - {s}, rows)
  }

  /** What a symbol still holds, at its average price. */
  function HeldOf(rows: seq<FillRow>, s: string): real {
    BoughtOf(rows, s) * LedgerOf(rows, s).position.avgPrice
  }

  /** What the symbols still hold, each at its average price. */
  ghost function Held(symbols: set<string>, rows: seq<FillRow>): real {
    if symbols == {} then 0.0
    else
      var s :| s in symbols;
      HeldOf(rows, s) + Held(symbols - {s}, rows)
  }

  lemma {:induction false} SumCashPick(symbols: set<string>, s: string, rows: seq<FillRow>)
    requires s in symbols
    ensures SumCash(symbols, rows) == CashOf(rows, s) + SumCash(symbols - {s}, rows)
  {
    hide CashOf;
    var p :| p in symbols && SumCash(symbols, rows) == CashOf(rows, p) + SumCash(symbols - {p}, rows);
    if p == s {
    } else {
      SumCashPick(symbols - {p}, s, rows);
      SumCashPick(symbols - {s}, p, rows);
      assert symbols - {p} - {s} == symbols - {s} - {p};
    }
  }

  lemma {:induction false} HeldPick(symbols: set<string>, s: string, rows: seq<FillRow>)
    requires s in symbols
    ensures Held(symbols, rows) == HeldOf(rows, s) + Held(symbols - {s}, rows)
  {
    hide HeldOf;
    var p :| p in symbols && Held(symbols, rows)
                             == HeldOf(rows, p) + Held(symbols - {p}, rows);
    if p == s {
    } else {
      HeldPick(symbols - {p}, s, rows);
      HeldPick(symbols - {s}, p, rows);
      assert symbols - {p} - {s} == symbols - {s} - {p};
    }
  }

  lemma {:induction false} SumCashCongruent(symbols: set<string>, rows: seq<FillRow>, rows': seq<FillRow>)
    requires forall s :: s in symbols ==> CashOf(rows, s) == CashOf(rows', s)
    ensures SumCash(symbols, rows) == SumCash(symbols, rows')
  {
    hide CashOf;
    if symbols == {} {
    } else {
      var s :| s in symbols;
      SumCashCongruent(symbols - {s}, rows, rows');
      SumCashPick(symbols, s, rows);
      SumCashPick(symbols, s, rows');
    }
  }

  lemma {:induction false} NoRowsNoCash(rows: seq<FillRow>, s: string)
    requires s !in Symbols(rows)
    ensures CashOf(rows, s) == 0.0
  {
    hide Accepted, SymbolOf;
    RowsOfEmpty(rows, s);
    CashIsNet(rows, s);
    assert TradesOf([]) == [];
  }

  lemma CashTakes(rows: seq<FillRow>, row: FillRow)
    ensures DayCash(rows + [row]) == DayCash(rows) + CashIn(row)
    ensures forall s :: CashOf(rows + [row], s) == CashOf(rows, s) + (if SymbolOf(row) == s then CashIn(row) else 0.0)
  {
    hide CashIn;
    RowsAreTrades(row);
    assert (rows + [row])[..|rows|] == rows;
  }

  /** The cash of the day is that of its symbols together. */
  lemma {:induction false} DayIsSymbols(rows: seq<FillRow>)
    ensures SumCash(Symbols(rows), rows) == DayCash(rows)
  {
    hide CashIn, Accepted, SymbolOf, CashOf;
    if rows == [] {
      assert Symbols(rows) == {};
    } else {
      var n := |rows| - 1;
      var before, row := rows[..n], rows[n];
      assert rows == before + [row];
      DayIsSymbols(before);
      CashTakes(before, row);
      TakeRow(before, row);
      RowsAreTrades(row);
      if Accepted(row) {
        var s := SymbolOf(row);
        var others := Symbols(before) - {s};
        assert Symbols(rows) - {s} == others;
        SumCashCongruent(others, before, rows);
        SumCashPick(Symbols(rows), s, rows);
        if s in Symbols(before) {
          SumCashPick(Symbols(before), s, before);
        } else {
          NoRowsNoCash(before, s);
          assert Symbols(before) == others;
        }
      } else {
        assert Symbols(rows) == Symbols(before);
        SumCashCongruent(Symbols(before), before, rows);
      }
    }
  }

  lemma {:induction false} SumsConserve(symbols: set<string>, rows: seq<FillRow>, lot: real)
    requires lot > 0.000000000001 && RowsInLots(rows, lot)
    ensures Total(symbols, rows) == SumCash(symbols, rows) + Held(symbols, rows)
  {
    hide RowsInLots, SymbolNet, CashOf, BoughtOf, LedgerOf;
    if symbols == {} {
    } else {
      var s :| s in symbols;
      SumsConserve(symbols - {s}, rows, lot);
      TotalPick(symbols, s, rows);
      SumCashPick(symbols, s, rows);
      HeldPick(symbols, s, rows);
      SymbolConserves(rows, s, lot);
    }
  }

  /** Main result: over any interleaved day the realized total is the cash the
      rows brought in, fees included, plus what is still held at its cost. */
  lemma DayConserves(rows: seq<FillRow>, lot: real)
    requires lot > 0.000000000001 && RowsInLots(rows, lot)
    ensures Total(Symbols(rows), rows) == DayCash(rows) + Held(Symbols(rows), rows)
  {
    hide RowsInLots;
    SumsConserve(Symbols(rows), rows, lot);
    DayIsSymbols(rows);
  }

  lemma NothingOf(rows: seq<FillRow>, s: string)
    requires BoughtOf(rows, s) == 0.0
    ensures HeldOf(rows, s) == 0.0
  {
  }

  lemma {:induction false} NothingHeld(symbols: set<string>, rows: seq<FillRow>)
    requires forall s :: s in symbols ==> BoughtOf(rows, s) == 0.0
    ensures Held(symbols, rows) == 0.0
  {
    hide BoughtOf, LedgerOf;
    if symbols == {} {
    } else {
      var s :| s in symbols && Held(symbols, rows)
                               == HeldOf(rows, s) + Held(symbols - {s}, rows);
      NothingOf(rows, s);
      NothingHeld(symbols - {s}, rows);
    }
  }

  /** When every symbol sold what it bought, the loss is the cash that left the
      account, and zero when none did. */
  lemma FlatDayLosesItsCash(rows: seq<FillRow>, lot: real)
    requires lot > 0.000000000001 && RowsInLots(rows, lot)
    requires forall s :: s in Symbols(rows) ==> BoughtOf(rows, s) == 0.0
    ensures LossOf(Total(Symbols(rows), rows)) == if DayCash(rows) < 0.0 then -DayCash(rows) else 0.0
  {
    hide RowsInLots, DayCash, BoughtOf;
    DayConserves(rows, lot);
    NothingHeld(Symbols(rows), rows);
  }

  // ----- Fees -----

  /** The fee of a fill in quote currency: one charged in the base asset counts
      at the price, every other at its amount. */
  ghost predicate FeeRule(row: FillRow, base: string, quote: string) {
    var amount := if row.fee < 0.0 then -row.fee else row.fee;
    FeeInQuote(row) == if Upper(row.feeAsset) == base && base != quote then amount * row.price else amount
  }

  lemma {:induction false} PartOfCode(s: string, d: char)
    requires s != "" && d !in s
    ensures Parts(s, d) == [s]
  {
    assert IndexOf(s, d) == |s|;
    assert s[..|s|] == s;
  }

  lemma {:induction false} FirstIndex(s: string, d: char, k: nat)
    requires k < |s| && s[k] == d && d !in s[..k]
    ensures IndexOf(s, d) == k
  {
    if k == 0 {
    } else {
      assert s[0] in s[..k];
      assert s[1..][..k - 1] == s[1..k] == s[..k][1..];
      FirstIndex(s[1..], d, k - 1);
    }
  }

  lemma PartsOfPair(base: string, d: char, quote: string)
    requires base != "" && quote != "" && d !in base && d !in quote
    ensures Parts(base + [d] + quote, d) == [base, quote]
  {
    var s := base + [d] + quote;
    assert s[..|base|] == base && s[|base| + 1..] == quote;
    FirstIndex(s, d, |base|);
    PartOfCode(quote, d);
  }

  lemma Delimiters(s: string)
    ensures SplitByDelimiter(s, "/-_")
         == if '/' in s && |Parts(s, '/')| >= 2 then (Parts(s, '/')[0], Parts(s, '/')[1])
            else if '-' in s && |Parts(s, '-')| >= 2 then (Parts(s, '-')[0], Parts(s, '-')[1])
            else if '_' in s && |Parts(s, '_')| >= 2 then (Parts(s, '_')[0], Parts(s, '_')[1])
            else SplitByQuote(s, KNOWN_QUOTES)
  {
    hide Parts, SplitByQuote;
    assert "/-_"[1..] == "-_" && "-_"[1..] == "_" && "_"[1..] == "";
    assert SplitByDelimiter(s, "") == SplitByQuote(s, KNOWN_QUOTES);
    assert SplitByDelimiter(s, "_")
        == if '_' in s && |Parts(s, '_')| >= 2 then (Parts(s, '_')[0], Parts(s, '_')[1]) else SplitByDelimiter(s, "");
    assert SplitByDelimiter(s, "-_")
        == if '-' in s && |Parts(s, '-')| >= 2 then (Parts(s, '-')[0], Parts(s, '-')[1]) else SplitByDelimiter(s, "_");
  }

  lemma CodesAreClean(s: string)
    requires forall c :: c in s ==> 'A' <= c <= 'Z' || '0' <= c <= '9' || c == '/' || c == '-' || c == '_'
    ensures Upper(s) == s && Strip(s) == s
  {
    CapitalsStay(s);
    if s == "" {
    } else {
      assert s[0] in s && s[|s| - 1] in s;
    }
  }

  /** Fees of a pair written with "/", "-" or "_" between its assets. */
  lemma FeeOfPair(row: FillRow, base: string, d: char, quote: string)
    requires Code(base) && Code(quote) && (d == '/' || d == '-' || d == '_')
    requires Upper(row.symbol) == base + [d] + quote
    ensures FeeRule(row, base, quote)
  {
    hide Strip, Upper, Parts, SplitByQuote;
    var s := base + [d] + quote;
    CodesAreClean(s);
    PartsOfPair(base, d, quote);
    assert forall c :: c in s ==> c in base || c == d || c in quote;
    assert s[|base|] == d;
    assert '/' in s ==> d == '/';
    assert '-' in s ==> d == '-';
    assert '_' in s ==> d == '_';
    Delimiters(s);
    assert SplitSymbolAssets(s) == (base, quote);
  }

  /** Fees of a pair written without: the quote asset is the known one at the
      end.  "USD" is not taken from "BUSD" and "FDUSD". */
  lemma FeeOfJoined(row: FillRow, base: string, quote: string)
    requires Code(base) && Code(quote)
    requires quote in ["USDT", "USDC", "BUSD", "USDP", "FDUSD", "DAI", "USD", "BTC", "ETH"]
    requires quote == "USD" ==> !EndsWith(base, "B") && !EndsWith(base, "FD")
    requires Upper(row.symbol) == base + quote
    ensures FeeRule(row, base, quote)
  {
    hide Strip, Upper, Parts, SplitByQuote, EndsWith;
    var s := base + quote;
    assert forall c :: c in s ==> c in base || c in quote;
    CodesAreClean(s);
    QuoteAtEnd(base, quote);
    assert '/' !in s && '-' !in s && '_' !in s;
    Delimiters(s);
    assert SplitSymbolAssets(s) == (base, quote);
  }

  lemma {:induction false} FirstQuote(s: string, quotes: seq<string>, i: nat)
    requires i < |quotes| && EndsWith(s, quotes[i]) && |s| > |quotes[i]|
    requires forall j :: 0 <= j < i ==> !EndsWith(s, quotes[j])
    ensures SplitByQuote(s, quotes) == (s[..|s| - |quotes[i]|], quotes[i])
  {
    if i == 0 {
    } else {
      FirstQuote(s, quotes[1..], i - 1);
    }
  }

  /** No quote listed before the one at the end is at the end too. */
  lemma QuoteAtEnd(base: string, quote: string)
    requires base != ""
    requires quote in ["USDT", "USDC", "BUSD", "USDP", "FDUSD", "DAI", "USD", "BTC", "ETH"]
    requires quote == "USD" ==> !EndsWith(base, "B") && !EndsWith(base, "FD")
    ensures SplitByQuote(base + quote, KNOWN_QUOTES) == (base, quote)
  {
    var s := base + quote;
    assert s[..|base|] == base && s[|base|..] == quote;
    var i :| 0 <= i < |KNOWN_QUOTES| && KNOWN_QUOTES[i] == quote;
    forall j | 0 <= j < i ensures !EndsWith(s, KNOWN_QUOTES[j]) {
      EarlierQuote(base, i, j);
    }
    FirstQuote(s, KNOWN_QUOTES, i);
  }

  lemma EarlierQuote(base: string, i: nat, j: nat)
    requires base != "" && j < i < |KNOWN_QUOTES|
    requires KNOWN_QUOTES[i] == "USD" ==> !EndsWith(base, "B") && !EndsWith(base, "FD")
    ensures !EndsWith(base + KNOWN_QUOTES[i], KNOWN_QUOTES[j])
  {
    hide EndsWith;
    var quote, q := KNOWN_QUOTES[i], KNOWN_QUOTES[j];
    var s := base + quote;
    assert s[|s| - 1] == quote[|quote| - 1] && s[|s| - 2] == quote[|quote| - 2];
    assert |quote| >= 4 ==> s[|s| - 4] == quote[|quote| - 4];
    if quote[|quote| - 1] != q[|q| - 1] {
      EndsOtherwise(s, q, 1);
    } else if quote[|quote| - 2] != q[|q| - 2] {
      EndsOtherwise(s, q, 2);
    } else if |quote| >= 4 {
      EndsOtherwise(s, q, 4);
    } else {
      BeforeUsd(base, q);
    }
  }

  lemma BeforeUsd(base: string, q: string)
    requires base != "" && !EndsWith(base, "B") && !EndsWith(base, "FD") && (q == "BUSD" || q == "FDUSD")
    ensures !EndsWith(base + "USD", q)
  {
    var s := base + "USD";
    assert base[|base| - 1..] == [base[|base| - 1]];
    assert s[|s| - 4] == base[|base| - 1];
    if q == "BUSD" {
      assert base[|base| - 1] != 'B';
      EndsOtherwise(s, q, 4);
    } else if base[|base| - 1] != 'D' {
      EndsOtherwise(s, q, 4);
    } else if |base| >= 2 {
      assert base[|base| - 2..] == [base[|base| - 2], 'D'];
      assert s[|s| - 5] == base[|base| - 2];
      EndsOtherwise(s, q, 5);
    }
  }
}

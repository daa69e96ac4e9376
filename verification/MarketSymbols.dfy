/** Exchange-specific spelling of market symbols. */
module MarketSymbols {
  import opened Text

  datatype Exchange = Binance | Okx

  datatype MarketType = Spot | Perp

  /** `Missing` stands for the error raised when no symbol is left. */
  datatype Normalized = Missing | Symbol(text: string)

  const QUOTES := ["USDT", "USDC", "USD", "BTC", "ETH"]

  /** The first listed quote the symbol ends with, leaving a base before it. */
  function QuoteOf(raw: string, quotes: seq<string>): (q: string)
    ensures q != "" ==> EndsWith(raw, q) && |raw| > |q|
  {
    if quotes == [] then ""
    else if EndsWith(raw, quotes[0]) && |raw| > |quotes[0]| then quotes[0]
    else QuoteOf(raw, quotes[1..])
  }

  function Clean(symbol: string): string {
    Remove(Remove(Upper(Strip(symbol)), '/'), ' ')
  }

  /** The spelling of an already cleaned symbol. */
  function Spell(exchange: Exchange, market: MarketType, raw: string): string {
    if exchange == Binance then Remove(raw, '-')
    else
      var q := QuoteOf(raw, QUOTES);
      var swap := market == Perp && !EndsWith(raw, "-SWAP");
      if '-' in raw then (if swap then raw + "-SWAP" else raw)
      else if q == "" then raw
      else raw[..|raw| - |q|] + "-" + q + (if swap then "-SWAP" else "")
  }

  /** `normalize_market_symbol`. */
  function Normalize(exchange: Exchange, market: MarketType, symbol: string): Normalized {
    var raw := Clean(symbol);
    if raw == "" then Missing else Symbol(Spell(exchange, market, raw))
  }

  // ----- Cleaned text -----

  /** What cleaning leaves: no small letters, no "/", no space; other white
      space may remain. */
  predicate Cleaned(s: string) {
    forall c :: c in s ==> !('a' <= c <= 'z') && c != '/' && c != ' '
  }

  /** Something is left, with no white space at either end. */
  predicate Lasting(s: string) {
    s != "" && !IsSpace(s[0]) && !IsSpace(s[|s| - 1])
  }

  lemma {:induction false} RemoveDrops(s: string, c: char)
    ensures c !in Remove(s, c)
    ensures forall d :: d in Remove(s, c) ==> d in s
  {
    if s == "" {
    } else {
      RemoveDrops(s[1..], c);
    }
  }

  lemma {:induction false} RemoveAbsent(s: string, c: char)
    requires c !in s
    ensures Remove(s, c) == s
  {
    if s == "" {
    } else {
      RemoveAbsent(s[1..], c);
    }
  }

  lemma {:induction false} StripLeftParts(s: string)
    ensures forall d :: d in StripLeft(s) ==> d in s
  {
    if s == "" {
    } else {
      StripLeftParts(s[1..]);
    }
  }

  lemma {:induction false} StripRightParts(s: string)
    ensures forall d :: d in StripRight(s) ==> d in s
  {
    if s == "" {
    } else {
      StripRightParts(s[..|s| - 1]);
    }
  }

  lemma CleanIsCleaned(s: string)
    ensures Cleaned(Clean(s))
  {
    var upper := Upper(Strip(s));
    assert forall i :: 0 <= i < |upper| ==> upper[i] == UpperChar(Strip(s)[i]);
    RemoveDrops(upper, '/');
    RemoveDrops(Remove(upper, '/'), ' ');
  }

  /** Cleaning cleaned text only strips it. */
  lemma CleanStrips(s: string)
    requires Cleaned(s)
    ensures Clean(s) == Strip(s) && Cleaned(Strip(s))
  {
    StripLeftParts(s);
    StripRightParts(StripLeft(s));
    var stripped := Strip(s);
    assert forall i :: 0 <= i < |stripped| ==> stripped[i] in stripped;
    assert Upper(stripped) == stripped;
    RemoveAbsent(stripped, '/');
    RemoveAbsent(stripped, ' ');
  }

  lemma {:induction false} StripLeftLasts(s: string)
    ensures StripLeft(s) == "" || (!IsSpace(StripLeft(s)[0]) && StripLeft(s)[|StripLeft(s)| - 1] == s[|s| - 1])
  {
    if s == "" {
    } else {
      StripLeftLasts(s[1..]);
    }
  }

  lemma {:induction false} StripRightLasts(s: string)
    ensures StripRight(s) == "" || (!IsSpace(StripRight(s)[|StripRight(s)| - 1]) && StripRight(s)[0] == s[0])
  {
    if s == "" {
    } else {
      StripRightLasts(s[..|s| - 1]);
    }
  }

  /** What stripping leaves has no white space at its ends, and text that had
      none is left as it is. */
  lemma StripLasts(s: string)
    ensures Strip(s) == "" || Lasting(Strip(s))
    ensures Lasting(s) ==> Strip(s) == s
  {
    StripLeftLasts(s);
    StripRightLasts(StripLeft(s));
  }

  /** Spelling adds nothing but dashes and capitals. */
  lemma SpellParts(exchange: Exchange, market: MarketType, raw: string)
    ensures forall c :: c in Spell(exchange, market, raw) ==> c in raw || c == '-' || 'A' <= c <= 'Z'
    ensures exchange == Binance ==> '-' !in Spell(exchange, market, raw)
  {
    var q := QuoteOf(raw, QUOTES);
    RemoveDrops(raw, '-');
    assert q != "" ==> q == raw[|raw| - |q|..];
  }

  /** Spelling keeps clean ends, provided Binance has no dash to remove, behind
      which white space could lie. */
  lemma SpellLasts(exchange: Exchange, market: MarketType, raw: string)
    requires Lasting(raw) && (exchange == Binance ==> '-' !in raw)
    ensures Lasting(Spell(exchange, market, raw))
  {
    var q, r := QuoteOf(raw, QUOTES), Spell(exchange, market, raw);
    if exchange == Binance {
      RemoveAbsent(raw, '-');
    } else if q != "" {
      assert q[|q| - 1] == raw[|raw| - 1];
    }
  }

  /** Spelling a spelled symbol changes nothing. */
  lemma SpellTwice(exchange: Exchange, market: MarketType, raw: string)
    ensures Spell(exchange, market, Spell(exchange, market, raw)) == Spell(exchange, market, raw)
  {
    var r := Spell(exchange, market, raw);
    if exchange == Binance {
      RemoveDrops(raw, '-');
      RemoveAbsent(r, '-');
    } else {
      var q := QuoteOf(raw, QUOTES);
      if EndsWith(raw, "-SWAP") {
        assert raw[|raw| - 5..][0] == '-';
      }
      if market == Perp && !EndsWith(raw, "-SWAP") && ('-' in raw || q != "") {
        assert r[|r| - 5..] == "-SWAP";
        assert r[|r| - 5] == '-';
      } else if '-' !in raw && q != "" {
        assert r[|raw| - |q|] == '-';
      }
    }
  }

  /** Normalizing what was normalized changes nothing exactly when something is
      left without white space at its ends. */
  lemma NormalizeIdempotent(exchange: Exchange, market: MarketType, symbol: string)
    ensures var r := Normalize(exchange, market, symbol);
            r.Symbol? ==> (Normalize(exchange, market, r.text) == r <==> Lasting(r.text))
  {
    hide Clean, Spell, Strip, Lasting;
    var raw := Clean(symbol);
    if raw != "" {
      var t := Spell(exchange, market, raw);
      var u := Strip(t);
      CleanIsCleaned(symbol);
      SpellParts(exchange, market, raw);
      CleanStrips(t);
      StripLasts(t);
      SpellTwice(exchange, market, raw);
      if u == "" {
        NothingLasts();
      } else {
        assert exchange == Binance ==> '-' !in u by {
          StripParts(t);
        }
        SpellLasts(exchange, market, u);
      }
    }
  }

  /** A second normalization settles every symbol: a third changes nothing. */
  lemma SecondIsLast(exchange: Exchange, market: MarketType, symbol: string)
    ensures var r := Normalize(exchange, market, symbol);
            r.Symbol? ==>
              var second := Normalize(exchange, market, r.text);
              second.Symbol? ==> Lasting(second.text) && Normalize(exchange, market, second.text) == second
  {
    hide Clean, Spell, Strip, Lasting;
    var raw := Clean(symbol);
    if raw != "" {
      var t := Spell(exchange, market, raw);
      CleanIsCleaned(symbol);
      SpellParts(exchange, market, raw);
      CleanStrips(t);
      StripLasts(t);
      StripParts(t);
      if Strip(t) != "" {
        SpellLasts(exchange, market, Strip(t));
      }
      NormalizeIdempotent(exchange, market, t);
      NormalizeIdempotent(exchange, market, Normalize(exchange, market, symbol).text);
    }
  }

  lemma StripParts(s: string)
    ensures forall c :: c in Strip(s) ==> c in s
  {
    StripLeftParts(s);
    StripRightParts(StripLeft(s));
  }

  lemma NothingLasts()
    ensures !Lasting("")
  {
  }

  // ----- Plain text -----

  /** ASCII letters, digits, "-", "/" and space. */
  predicate Plain(s: string) {
    forall c :: c in s ==> PlainChar(c)
  }

  predicate PlainChar(c: char) {
    'a' <= c <= 'z' || 'A' <= c <= 'Z' || '0' <= c <= '9' || c == '-' || c == '/' || c == ' '
  }

  lemma CleanKeepsPlain(s: string)
    requires Plain(s)
    ensures Plain(Clean(s))
  {
    StripParts(s);
    var upper := Upper(Strip(s));
    assert forall i :: 0 <= i < |upper| ==> upper[i] == UpperChar(Strip(s)[i]) && Strip(s)[i] in Strip(s);
    RemoveDrops(upper, '/');
    RemoveDrops(Remove(upper, '/'), ' ');
  }

  /** Plain text lasts unless nothing is left of it. */
  lemma PlainLasts(exchange: Exchange, market: MarketType, symbol: string)
    requires Plain(symbol)
    ensures var r := Normalize(exchange, market, symbol);
            r.Symbol? ==> (Lasting(r.text) <==> r.text != "")
  {
    hide Clean, Spell;
    var raw := Clean(symbol);
    var t := Spell(exchange, market, raw);
    CleanKeepsPlain(symbol);
    CleanIsCleaned(symbol);
    SpellParts(exchange, market, raw);
    assert forall i :: 0 <= i < |t| ==> t[i] in t;
  }

  /** A lone "-" on Binance normalizes to nothing instead of raising. */
  lemma DashVanishes(market: MarketType)
    ensures Plain("-") && Normalize(Binance, market, "-") == Symbol("")
    ensures Normalize(Binance, market, "") == Missing
  {
    assert Clean("-") == "-";
    assert Remove("-", '-') == Remove("", '-') == "";
    assert Clean("") == "";
  }

  lemma CleanTab()
    ensures Clean("/\tA") == "\tA"
  {
    hide QuoteOf, Spell;
    assert "/\tA"[1..] == "\tA";
    assert StripLeft("/\tA") == "/\tA" && StripRight("/\tA") == "/\tA";
    assert Upper("/\tA") == "/\tA";
    RemoveAbsent("\tA", '/');
    assert Remove("/\tA", '/') == "\tA";
    RemoveAbsent("\tA", ' ');
  }

  lemma CleanTabAgain()
    ensures Clean("\tA") == "A"
  {
    hide QuoteOf, Spell;
    assert "\tA"[1..] == "A";
    assert StripLeft("\tA") == "A" && StripRight("A") == "A";
    assert Upper("A") == "A";
    RemoveAbsent("A", '/');
    RemoveAbsent("A", ' ');
  }

  /** Outside plain text a second pass can change the symbol: removing "/" may
      bring other white space to the edge. */
  lemma TabNeedsTwoPasses(market: MarketType)
    ensures Normalize(Binance, market, "/\tA") == Symbol("\tA")
    ensures Normalize(Binance, market, "\tA") == Symbol("A")
  {
    hide Clean, QuoteOf;
    CleanTab();
    CleanTabAgain();
    RemoveAbsent("\tA", '-');
    RemoveAbsent("A", '-');
  }

  // ----- A base and a quote -----

  lemma {:induction false} RemoveAppend(a: string, b: string, c: char)
    ensures Remove(a + b, c) == Remove(a, c) + Remove(b, c)
  {
    if a == "" {
      assert a + b == b;
    } else {
      assert (a + b)[1..] == a[1..] + b;
      RemoveAppend(a[1..], b, c);
    }
  }

  lemma CodeHasNo(s: string, c: char)
    requires Code(s) && (c == '/' || c == ' ' || c == '-')
    ensures Remove(s, c) == s
  {
    RemoveAbsent(s, c);
  }

  lemma RemoveFromOne(s: string, c: char)
    requires |s| <= 1
    ensures Remove(s, c) == if s == [c] then "" else s
  {
    if s != "" {
      assert s[1..] == "" && Remove("", c) == "";
    }
  }

  lemma RemovePair(base: string, between: string, quote: string, c: char)
    requires Code(base) && Code(quote) && |between| <= 1 && (c == '/' || c == ' ' || c == '-')
    ensures Remove(base + between + quote, c) == base + (if between == [c] then "" else between) + quote
  {
    hide Remove, Code;
    RemoveAppend(base + between, quote, c);
    RemoveAppend(base, between, c);
    CodeHasNo(base, c);
    CodeHasNo(quote, c);
    RemoveFromOne(between, c);
  }

  lemma PairLasts(sent: string, base: string, between: string, quote: string)
    requires Code(base) && Code(quote) && Upper(sent) == base + between + quote
    ensures Strip(sent) == sent
  {
    hide Strip;
    var s := base + between + quote;
    assert base[0] in base && quote[|quote| - 1] in quote;
    assert sent != "" && UpperChar(sent[0]) == s[0] == base[0];
    assert UpperChar(sent[|sent| - 1]) == s[|s| - 1] == quote[|quote| - 1];
    StripLasts(sent);
  }

  /** What cleaning makes of a base and a quote in any case, written together or
      with "/", " " or "-" between. */
  lemma CleanPair(sent: string, base: string, between: string, quote: string)
    requires Code(base) && Code(quote) && (between == "" || between == "/" || between == " " || between == "-")
    requires Upper(sent) == base + between + quote
    ensures Clean(sent) == base + (if between == "-" then "-" else "") + quote
  {
    hide Remove, Code, Upper, Strip;
    PairLasts(sent, base, between, quote);
    RemovePair(base, between, quote, '/');
    RemovePair(base, if between == "/" then "" else between, quote, ' ');
  }

  lemma {:induction false} QuoteListed(raw: string, quotes: seq<string>, i: nat)
    requires i < |quotes| && EndsWith(raw, quotes[i]) && |raw| > |quotes[i]|
    requires forall j :: 0 <= j < i ==> !EndsWith(raw, quotes[j])
    ensures QuoteOf(raw, quotes) == quotes[i]
  {
    if i == 0 {
    } else {
      QuoteListed(raw, quotes[1..], i - 1);
    }
  }

  lemma EarlierQuote(base: string, i: nat, j: nat)
    requires base != "" && j < i < |QUOTES|
    ensures !EndsWith(base + QUOTES[i], QUOTES[j])
  {
    hide EndsWith;
    var quote, q := QUOTES[i], QUOTES[j];
    var raw := base + quote;
    assert raw[|raw| - 1] == quote[|quote| - 1] && raw[|raw| - 2] == quote[|quote| - 2];
    if quote[|quote| - 1] != q[|q| - 1] {
      EndsOtherwise(raw, q, 1);
    } else {
      EndsOtherwise(raw, q, 2);
    }
  }

  lemma QuoteOfPair(base: string, quote: string)
    requires base != "" && quote in ["USDT", "USDC", "USD", "BTC", "ETH"]
    ensures QuoteOf(base + quote, QUOTES) == quote
  {
    var raw := base + quote;
    assert raw[|raw| - |quote|..] == quote;
    var i :| 0 <= i < |QUOTES| && QUOTES[i] == quote;
    forall j | 0 <= j < i ensures !EndsWith(raw, QUOTES[j]) {
      EarlierQuote(base, i, j);
    }
    QuoteListed(raw, QUOTES, i);
  }

  lemma NotSwap(front: string, quote: string)
    requires quote in ["USDT", "USDC", "USD", "BTC", "ETH"]
    ensures !EndsWith(front + quote, "-SWAP")
  {
    var raw := front + quote;
    assert raw[|raw| - 1] == quote[|quote| - 1] != 'P';
    EndsOtherwise(raw, "-SWAP", 1);
  }

  lemma SpellTogether(exchange: Exchange, market: MarketType, base: string, quote: string)
    requires Code(base) && Code(quote) && quote in ["USDT", "USDC", "USD", "BTC", "ETH"]
    ensures Spell(exchange, market, base + quote)
         == if exchange == Binance then base + quote
            else if market == Perp then base + "-" + quote + "-SWAP"
            else base + "-" + quote
  {
    hide Remove, QuoteOf, EndsWith;
    var raw := base + quote;
    NotSwap(base, quote);
    QuoteOfPair(base, quote);
    RemovePair(base, "", quote, '-');
    assert base + "" + quote == raw;
    assert '-' !in base && '-' !in quote && raw[..|raw| - |quote|] == base;
  }

  lemma SpellDashed(exchange: Exchange, market: MarketType, base: string, quote: string)
    requires Code(base) && Code(quote) && quote in ["USDT", "USDC", "USD", "BTC", "ETH"]
    ensures Spell(exchange, market, base + "-" + quote)
         == if exchange == Binance then base + quote
            else if market == Perp then base + "-" + quote + "-SWAP"
            else base + "-" + quote
  {
    hide Remove, QuoteOf, EndsWith;
    NotSwap(base + "-", quote);
    RemovePair(base, "-", quote, '-');
    assert base + "" + quote == base + quote;
    assert (base + "-" + quote)[|base|] == '-';
  }

  /** A base and one of the quotes the service knows, in any case and written
      together or with "/", " " or "-" between, is spelled without anything
      between for Binance, with a dash for OKX, and with "-SWAP" after it for an
      OKX perpetual. */
  lemma PairSpelled(
    exchange: Exchange, market: MarketType, sent: string, base: string, between: string, quote: string)
    requires Code(base) && quote in ["USDT", "USDC", "USD", "BTC", "ETH"]
    requires between == "" || between == "/" || between == " " || between == "-"
    requires Upper(sent) == base + between + quote
    ensures Normalize(exchange, market, sent)
         == Symbol(if exchange == Binance then base + quote
                   else if market == Perp then base + "-" + quote + "-SWAP"
                   else base + "-" + quote)
  {
    QuotesAreCodes(quote);
    hide Clean, Spell, Upper, Code;
    CleanPair(sent, base, between, quote);
    if between == "-" {
      SpellDashed(exchange, market, base, quote);
    } else {
      assert base + "" + quote == base + quote;
      SpellTogether(exchange, market, base, quote);
    }
  }

  lemma QuotesAreCodes(quote: string)
    requires quote in ["USDT", "USDC", "USD", "BTC", "ETH"]
    ensures Code(quote) && quote != ""
  {
  }

  /** A perpetual already spelled for OKX stays as it is. */
  lemma SwapStays(base: string, quote: string)
    requires Code(base) && Code(quote)
    ensures Normalize(Okx, Perp, base + "-" + quote + "-SWAP") == Symbol(base + "-" + quote + "-SWAP")
  {
    hide Strip, QuoteOf;
    var s := base + "-" + quote + "-SWAP";
    assert Cleaned(s) && s[0] == base[0] && base[0] in base && s[|s| - 1] == 'P';
    CleanStrips(s);
    StripLasts(s);
    assert s[|s| - 5..] == "-SWAP" && s[|base|] == '-';
  }
}

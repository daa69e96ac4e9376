/** What a download brings, in terms of the trades themselves: rows told apart by
    trade, order and symbol, sides read from the account numbers, pages found by
    token, and a repeated page noticed. */
module TradeDownloads {
  import opened Numbers
  import opened Sequences
  import opened TradePages

  // ----- Rows -----

  /** The account that asked sold and the one that bid bought; an account that is
      both sold.  The maker pays the maker's fee, the other the taker's; a trade
      of others has no side and counts as taken. */
  lemma RowTells(t: RawTrade, a: Account)
    ensures var r := Normalize(t, a);
      && r.tradeId == t.tradeId && r.price == t.price && r.quantity == t.size && r.tradeTime == t.timestamp
      && (r.side == Sell <==> t.askAccountId == a.index)
      && (r.side == Buy <==> t.bidAccountId == a.index && t.askAccountId != a.index)
      && (r.side == Sell ==> r.orderId == t.askId && r.isMaker == t.isMakerAsk)
      && (r.side == Buy ==> r.orderId == t.bidId && r.isMaker == !t.isMakerAsk)
      && (r.side == UnknownSide ==> !r.isMaker && r.orderId == if t.bidId != "" then t.bidId else t.askId)
      && r.fee >= 0.0
      && (r.isMaker ==> r.fee == t.makerFee || r.fee == -t.makerFee)
      && (!r.isMaker ==> r.fee == t.takerFee || r.fee == -t.takerFee)
      && (t.marketId in a.symbols ==> r.symbol == a.symbols[t.marketId])
      && (t.marketId !in a.symbols ==> r.symbol == a.fallback(t.marketId))
  {
  }

  /** The same trade of the same order in the same symbol. */
  predicate SameTrade(r: Row, q: Row) {
    r.tradeId == q.tradeId && r.orderId == q.orderId && r.symbol == q.symbol
  }

  /** Deduplication keeps the first row of every trade and no other. */
  lemma {:induction false} FirstsKept(rows: seq<Row>)
    ensures forall i, j :: 0 <= i < j < |Deduped(rows)| ==> !SameTrade(Deduped(rows)[i], Deduped(rows)[j])
    ensures forall q :: q in rows ==> exists r :: r in Deduped(rows) && SameTrade(r, q)
    ensures forall r :: r in Deduped(rows) ==>
              exists i :: 0 <= i < |rows| && rows[i] == r && forall j :: 0 <= j < i ==> !SameTrade(rows[j], r)
  {
    DedupeExact(rows);
    SameTradeIsKey();
    forall q | q in rows ensures exists r :: r in Deduped(rows) && SameTrade(r, q) {
      assert KeyOf(q) in Keys(rows);
      var r :| r in Deduped(rows) && KeyOf(r) == KeyOf(q);
      assert SameTrade(r, q);
    }
    if rows == [] {
    } else {
      var n := |rows| - 1;
      FirstsKept(rows[..n]);
      forall r | r in Deduped(rows)
        ensures exists i :: 0 <= i < |rows| && rows[i] == r && forall j :: 0 <= j < i ==> !SameTrade(rows[j], r)
      {
        if r in Deduped(rows[..n]) {
          var i :| 0 <= i < n && rows[..n][i] == r && forall j :: 0 <= j < i ==> !SameTrade(rows[..n][j], r);
          assert rows[i] == r;
          assert forall j :: 0 <= j < i ==> rows[..n][j] == rows[j];
        } else {
          LastIsNew(rows);
        }
      }
    }
  }

  lemma SameTradeIsKey()
    ensures forall r, q :: SameTrade(r, q) <==> KeyOf(r) == KeyOf(q)
  {
  }

  lemma LastIsNew(rows: seq<Row>)
    requires rows != [] && rows[|rows| - 1] !in Deduped(rows[..|rows| - 1]) && rows[|rows| - 1] in Deduped(rows)
    ensures forall j :: 0 <= j < |rows| - 1 ==> !SameTrade(rows[j], rows[|rows| - 1])
  {
    var n := |rows| - 1;
    forall j | 0 <= j < n ensures !SameTrade(rows[j], rows[n]) {
      assert rows[..n][j] in rows[..n];
    }
  }

  // ----- A server that pages by token -----

  /** The token that asks for the trades from position `k` on; none for the first. */
  function Asking(token: nat -> string, k: nat): Option<string> {
    if k == 0 then None else Some(token(k))
  }

  /** Whatever else is asked, the token decides the page, and the page brings the
      next token while trades are left. */
  ghost predicate ServesTokens(server: Server, all: seq<RawTrade>, limit: nat, token: nat -> string) {
    forall n, p: Params, k: nat :: k <= |all| && p.cursor == Asking(token, k) ==>
      server(n, p) == TokenPage(all, limit, token, k)
  }

  function TokenPage(all: seq<RawTrade>, limit: nat, token: nat -> string, k: nat): Response
    requires k <= |all|
  {
    var end := PageEnd(all, limit, k);
    Page(all[k..end], if end < |all| then Some(token(end)) else None, end < |all|)
  }

  lemma TokenServed(server: Server, all: seq<RawTrade>, limit: nat, token: nat -> string, n: nat, p: Params, k: nat)
    requires ServesTokens(server, all, limit, token) && k <= |all| && p.cursor == Asking(token, k)
    ensures server(n, p) == TokenPage(all, limit, token, k)
  {
  }

  /** A token found is the token asked with next. */
  lemma TokenFollowed(p: Params, page: Response)
    requires page.Page? && page.nextCursor.Some?
    ensures NextParams(p, page) == Some(p.(cursor := page.nextCursor))
  {
  }

  lemma {:induction false} TokenPages(
    server: Server, all: seq<RawTrade>, limit: nat, token: nat -> string, a: Account,
    n: nat, maxPages: nat, k: nat, p: Params, seen: set<Signature>)
    requires NewestFirst(all) && limit >= 1 && ServesTokens(server, all, limit, token)
    requires n < maxPages && k < |all| && p.cursor == Asking(token, k) && SeenBefore(all, k, seen)
    decreases maxPages - n
    ensures (maxPages - n) * limit >= 0
    ensures var upto := PageEnd(all, (maxPages - n) * limit, k);
            Fetched(server, a, n, maxPages, p, seen)
            == Download(NormalizeAll(all[k..upto], a), if upto < |all| then [ReachedMaxPages] else [])
  {
    hide ServesTokens, NewestFirst, NextParams, SeenBefore, NormalizeAll, SignatureOf, Fetched;
    var mid := PageEnd(all, limit, k);
    PagesLeft(maxPages - n, limit);
    TokenServed(server, all, limit, token, n, p, k);
    NotSeen(all, k, all[k..mid], seen);
    FetchedUnrolls(server, a, n, maxPages, p, seen);
    if mid < |all| {
      TokenFollowed(p, server(n, p));
      if n < maxPages - 1 {
        TokenPages(server, all, limit, token, a, n + 1, maxPages, mid, p.(cursor := Some(token(mid))),
                   seen + {SignatureOf(all[k..mid])});
        JoinPages(all, a, k, mid, PageEnd(all, (maxPages - n - 1) * limit, mid));
      }
    } else {
      LastPage(p, server(n, p));
    }
  }

  /** Against a server that pages by token the download is the newest trades that
      fit in the pages, each once, with a warning exactly when some are left. */
  lemma TokenDownload(
    server: Server, all: seq<RawTrade>, limit: nat, token: nat -> string, a: Account, maxPages: nat)
    requires NewestFirst(all) && limit >= 1 && maxPages >= 1 && ServesTokens(server, all, limit, token)
    ensures maxPages * limit >= 0
    ensures var d, upto := Fetched(server, a, 0, maxPages, FIRST, {}), PageEnd(all, maxPages * limit, 0);
            Deduped(d.rows) == NormalizeAll(all[..upto], a) && (d.warnings == [] <==> upto == |all|)
  {
    hide ServesTokens, NewestFirst, NormalizeAll, Deduped, Fetched;
    PagesLeft(maxPages, limit);
    var upto := PageEnd(all, maxPages * limit, 0);
    if all == [] {
      TokenServed(server, all, limit, token, 0, FIRST, 0);
      FetchedUnrolls(server, a, 0, maxPages, FIRST, {});
      NothingNormalized(a);
    } else {
      TokenPages(server, all, limit, token, a, 0, maxPages, 0, FIRST, {});
      assert all[0..upto] == all[..upto];
    }
    PrefixNewestFirst(all, upto);
    RowsDistinct(all[..upto], a);
    DistinctUntouched(NormalizeAll(all[..upto], a));
  }

  lemma NothingNormalized(a: Account)
    ensures NormalizeAll([], a) == []
  {
  }

  // ----- Servers that do not move on -----

  /** A server that answers every request with one page is asked twice, and the
      second answer is noticed and dropped. */
  lemma RepeatedPageNoticed(server: Server, page: Response, a: Account, maxPages: nat)
    requires page.Page? && page.trades != [] && page.nextCursor.Some? && maxPages >= 2
    requires forall n, p :: server(n, p) == page
    ensures Fetched(server, a, 0, maxPages, FIRST, {}) == Download(NormalizeAll(page.trades, a), [RepeatedPage])
  {
    hide NormalizeAll, SignatureOf, Fetched;
    FetchedUnrolls(server, a, 0, maxPages, FIRST, {});
    TokenFollowed(FIRST, page);
    var next := FIRST.(cursor := page.nextCursor);
    assert server(0, FIRST) == page && server(1, next) == page;
    FetchedUnrolls(server, a, 1, maxPages, next, {} + {SignatureOf(page.trades)});
  }

  /** A server that fails on some request ends the download with what came before
      and the failure's own warning. */
  lemma FailureEnds(server: Server, a: Account, n: nat, maxPages: nat, p: Params, seen: set<Signature>)
    requires n < maxPages && !server(n, p).Page?
    ensures Fetched(server, a, n, maxPages, p, seen).rows == []
    ensures var w := Fetched(server, a, n, maxPages, p, seen).warnings;
            && (server(n, p).HttpError? <==> w == [HttpFailed])
            && (server(n, p).ApiError? <==> w == [ApiFailed])
            && (server(n, p).NotAList? <==> w == [BadShape])
  {
    FetchedUnrolls(server, a, n, maxPages, p, seen);
  }
}

/** Paged trade download: the page loop, the boundary it asks with next, and
    the final removal of rows that pages repeated. */
module TradePages {
  import opened Numbers
  import opened Sequences

  /** A trade as the server lists it; an absent or unusable number is `None`. */
  datatype RawTrade = RawTrade(
    tradeId: Option<int>,
    timestamp: Option<int>,
    marketId: int,
    askAccountId: int,
    bidAccountId: int,
    askId: string,
    bidId: string,
    isMakerAsk: bool,
    price: real,
    size: real,
    makerFee: real,
    takerFee: real)

  datatype Side = Buy | Sell | UnknownSide

  datatype Row = Row(
    tradeId: Option<int>, orderId: string, symbol: string, side: Side, isMaker: bool,
    price: real, quantity: real, fee: real, tradeTime: Option<int>)

  /** Paging parameters of a request; the fixed ones are left implicit. */
  datatype Params = Params(cursor: Option<string>, timestampTo: Option<int>, beforeTradeId: Option<int>)

  datatype Response =
    | HttpError
    | ApiError
    | NotAList
    | Page(trades: seq<RawTrade>, nextCursor: Option<string>, hasMore: bool)

  datatype Warning = HttpFailed | ApiFailed | BadShape | RepeatedPage | ReachedMaxPages

  /** The server as the loop meets it: the n-th request and its parameters. */
  type Server = (nat, Params) -> Response

  const FIRST := Params(None, None, None)

  // ----- Rows -----

  function SymbolOf(symbols: map<int, string>, marketId: int, fallback: int -> string): string {
    if marketId in symbols then symbols[marketId] else fallback(marketId)
  }

  /** Who is asking, and how markets are called. */
  datatype Account = Account(index: int, symbols: map<int, string>, fallback: int -> string)

  function Normalize(t: RawTrade, a: Account): Row {
    var symbol := SymbolOf(a.symbols, t.marketId, a.fallback);
    var (side, isMaker, orderId) :=
      if t.askAccountId == a.index then (Sell, t.isMakerAsk, t.askId)
      else if t.bidAccountId == a.index then (Buy, !t.isMakerAsk, t.bidId)
      else (UnknownSide, false, if t.bidId != "" then t.bidId else t.askId);
    var fee := if isMaker then t.makerFee else t.takerFee;
    Row(t.tradeId, orderId, symbol, side, isMaker, t.price, t.size, Abs(fee), t.timestamp)
  }

  function NormalizeAll(ts: seq<RawTrade>, a: Account): (r: seq<Row>)
    ensures |r| == |ts| && forall i :: 0 <= i < |ts| ==> r[i] == Normalize(ts[i], a)
  {
    seq(|ts|, i requires 0 <= i < |ts| => Normalize(ts[i], a))
  }

  datatype Key = Key(tradeId: Option<int>, orderId: string, symbol: string)

  function KeyOf(r: Row): Key {
    Key(r.tradeId, r.orderId, r.symbol)
  }

  function Keys(rows: seq<Row>): set<Key> {
    set r | r in rows :: KeyOf(r)
  }

  /** Each key's first row, in order. */
  function Deduped(rows: seq<Row>): seq<Row> {
    if rows == [] then []
    else
      var n := |rows| - 1;
      var before := Deduped(rows[..n]);
      if KeyOf(rows[n]) in Keys(rows[..n]) then before else before + [rows[n]]
  }

  /** `_dedupe_lighter_trades`. */
  method Dedupe(rows: seq<Row>) returns (result: seq<Row>)
    ensures result == Deduped(rows)
  {
    result := [];
    var seen: set<Key> := {};
    for i := 0 to |rows|
      invariant seen == Keys(rows[..i]) && result == Deduped(rows[..i])
    {
      assert rows[..i + 1] == rows[..i] + [rows[i]] && rows[..i + 1][..i] == rows[..i];
      KeysTake(rows[..i], rows[i]);
      if KeyOf(rows[i]) in seen {
        continue;
      }
      seen := seen + {KeyOf(rows[i])};
      result := result + [rows[i]];
    }
    assert rows[..|rows|] == rows;
  }

  lemma KeysTake(rows: seq<Row>, r: Row)
    ensures Keys(rows + [r]) == Keys(rows) + {KeyOf(r)}
  {
    forall k ensures k in Keys(rows + [r]) <==> k in Keys(rows) || k == KeyOf(r) {
      if k == KeyOf(r) {
        assert r in rows + [r];
      }
      if k in Keys(rows) {
        var q :| q in rows && KeyOf(q) == k;
        assert q in rows + [r];
      }
    }
  }

  // ----- The next request -----

  /** The oldest positive timestamp of a page, or 0. */
  function OldestTime(ts: seq<RawTrade>): int {
    if ts == [] then 0
    else
      var before, last := OldestTime(ts[..|ts| - 1]), ts[|ts| - 1].timestamp;
      if last.None? || last.value <= 0 then before
      else if before == 0 || EpochMs(last.value) < before then EpochMs(last.value)
      else before
  }

  /** The smallest usable trade id of a page. */
  function OldestId(ts: seq<RawTrade>): Option<int> {
    if ts == [] then None
    else
      var before, last := OldestId(ts[..|ts| - 1]), ts[|ts| - 1].tradeId;
      if last.None? || last.value < 0 then before
      else if before.None? || last.value < before.value then last
      else before
  }

  function NextParams(p: Params, page: Response): Option<Params>
    requires page.Page?
  {
    if page.nextCursor.Some? then Some(p.(cursor := page.nextCursor))
    else if !page.hasMore then None
    else
      var time, id := OldestTime(page.trades), OldestId(page.trades);
      var boundary := if time - 1 >= 0 then time - 1 else 0;
      var timeMoves := time > 0 && p.timestampTo != Some(boundary);
      var idMoves := id.Some? && p.beforeTradeId != id;
      if timeMoves || idMoves then
        Some(p.(timestampTo := if time > 0 then Some(boundary) else p.timestampTo,
                beforeTradeId := if id.Some? then id else p.beforeTradeId))
      else None
  }

  /** What two requests must not both return. */
  datatype Signature = Signature(
    firstId: Option<int>, lastId: Option<int>, firstTime: Option<int>, lastTime: Option<int>, size: nat)

  function SignatureOf(ts: seq<RawTrade>): Signature
    requires ts != []
  {
    Signature(ts[0].tradeId, ts[|ts| - 1].tradeId, ts[0].timestamp, ts[|ts| - 1].timestamp, |ts|)
  }

  // ----- The page loop -----

  datatype Download = Download(rows: seq<Row>, warnings: seq<Warning>)

  /** What requests `n, n + 1, ..` before `maxPages` bring, starting with `p`. */
  function Fetched(server: Server, a: Account, n: nat, maxPages: nat, p: Params, seen: set<Signature>): Download
    decreases maxPages - n
  {
    if n >= maxPages then Download([], [])
    else
      match server(n, p)
      case HttpError => Download([], [HttpFailed])
      case ApiError => Download([], [ApiFailed])
      case NotAList => Download([], [BadShape])
      case Page(trades, nextCursor, hasMore) =>
        if trades == [] then Download([], [])
        else if SignatureOf(trades) in seen then Download([], [RepeatedPage])
        else
          var rows, next := NormalizeAll(trades, a), NextParams(p, server(n, p));
          if next.None? then Download(rows, [])
          else if n == maxPages - 1 then Download(rows, [ReachedMaxPages])
          else
            var rest := Fetched(server, a, n + 1, maxPages, next.value, seen + {SignatureOf(trades)});
            Download(rows + rest.rows, rest.warnings)
  }

  /** One turn of the page loop. */
  lemma FetchedUnrolls(server: Server, a: Account, n: nat, maxPages: nat, p: Params, seen: set<Signature>)
    requires n < maxPages
    ensures var d, page := Fetched(server, a, n, maxPages, p, seen), server(n, p);
      && (!page.Page? ==>
            d == Download([], [if page.HttpError? then HttpFailed else if page.ApiError? then ApiFailed else BadShape]))
      && (page.Page? && page.trades == [] ==> d == Download([], []))
      && (page.Page? && page.trades != [] && SignatureOf(page.trades) in seen ==> d == Download([], [RepeatedPage]))
      && (page.Page? && page.trades != [] && SignatureOf(page.trades) !in seen ==>
            var rows, next := NormalizeAll(page.trades, a), NextParams(p, page);
            if next.None? then d == Download(rows, [])
            else if n == maxPages - 1 then d == Download(rows, [ReachedMaxPages])
            else
              var rest := Fetched(server, a, n + 1, maxPages, next.value, seen + {SignatureOf(page.trades)});
              d == Download(rows + rest.rows, rest.warnings))
  {
    hide NextParams, NormalizeAll, SignatureOf;
  }

  /** `_fetch_lighter_trades`. */
  method FetchTrades(server: Server, a: Account, maxPagesSetting: int) returns (rows: seq<Row>, warnings: seq<Warning>)
    ensures var d := Fetched(server, a, 0, if maxPagesSetting >= 1 then maxPagesSetting else 1, FIRST, {});
            rows == Deduped(d.rows) && warnings == d.warnings
  {
    hide Fetched, Deduped, NextParams, NormalizeAll, SignatureOf;
    var maxPages := if maxPagesSetting >= 1 then maxPagesSetting else 1;
    var params := FIRST;
    var seen: set<Signature> := {};
    var trades: seq<Row> := [];
    warnings := [];
    ghost var whole := Fetched(server, a, 0, maxPages, FIRST, {});
    var n := 0;
    while n < maxPages
      invariant 0 <= n <= maxPages
      invariant n < maxPages ==>
        var rest := Fetched(server, a, n, maxPages, params, seen);
        warnings == [] && whole == Download(trades + rest.rows, rest.warnings)
      invariant n == maxPages ==> whole == Download(trades, warnings)
    {
      FetchedUnrolls(server, a, n, maxPages, params, seen);
      var page := server(n, params);
      if !page.Page? {
        warnings := [if page.HttpError? then HttpFailed else if page.ApiError? then ApiFailed else BadShape];
        assert whole == Download(trades, warnings);
        break;
      }
      if page.trades == [] {
        assert whole == Download(trades, warnings);
        break;
      }
      if SignatureOf(page.trades) in seen {
        warnings := [RepeatedPage];
        assert whole == Download(trades, warnings);
        break;
      }
      var next := NextParams(params, page);
      ghost var before := trades;
      trades := trades + NormalizeAll(page.trades, a);
      if next.None? {
        assert whole == Download(trades, warnings);
        break;
      }
      seen := seen + {SignatureOf(page.trades)};
      if n == maxPages - 1 {
        warnings := [ReachedMaxPages];
        assert whole == Download(trades, warnings);
      } else {
        ghost var rest := Fetched(server, a, n + 1, maxPages, next.value, seen);
        assert before + (NormalizeAll(page.trades, a) + rest.rows) == trades + rest.rows;
      }
      params := next.value;
      n := n + 1;
    }
    assert whole == Download(trades, warnings);
    rows := Dedupe(trades);
  }

  // ----- Any server at all -----

  predicate DistinctKeys(rows: seq<Row>) {
    forall i, j :: 0 <= i < j < |rows| ==> KeyOf(rows[i]) != KeyOf(rows[j])
  }

  /** No key twice, no key lost, every row one that was fetched. */
  lemma {:induction false} DedupeExact(rows: seq<Row>)
    ensures DistinctKeys(Deduped(rows))
    ensures Keys(Deduped(rows)) == Keys(rows)
    ensures forall r :: r in Deduped(rows) ==> r in rows
  {
    if rows == [] {
    } else {
      var n := |rows| - 1;
      assert rows == rows[..n] + [rows[n]];
      DedupeExact(rows[..n]);
      KeysTake(rows[..n], rows[n]);
      var before := Deduped(rows[..n]);
      if KeyOf(rows[n]) !in Keys(rows[..n]) {
        KeysTake(before, rows[n]);
        forall i | 0 <= i < |before| ensures KeyOf(before[i]) != KeyOf(rows[n]) {
          assert before[i] in before;
        }
      }
    }
  }

  lemma {:induction false} DistinctUntouched(rows: seq<Row>)
    requires DistinctKeys(rows)
    ensures Deduped(rows) == rows
  {
    if rows == [] {
    } else {
      var n := |rows| - 1;
      DistinctUntouched(rows[..n]);
      forall r | r in rows[..n] ensures KeyOf(r) != KeyOf(rows[n]) {
        var i :| 0 <= i < n && rows[..n][i] == r;
        assert rows[i] == r;
      }
      assert rows == rows[..n] + [rows[n]];
    }
  }

  // ----- A server that pages newest first -----

  /** Unique ids, newest first. */
  predicate NewestFirst(all: seq<RawTrade>) {
    && (forall i :: 0 <= i < |all| ==> all[i].tradeId.Some? && all[i].tradeId.value >= 0)
    && (forall i, j :: 0 <= i < j < |all| ==> all[i].tradeId.value > all[j].tradeId.value)
  }

  function Below(all: seq<RawTrade>, before: Option<int>): seq<RawTrade> {
    if all == [] then []
    else
      var t := all[0];
      (if before.None? || (t.tradeId.Some? && t.tradeId.value < before.value) then [t] else [])
      + Below(all[1..], before)
  }

  /** The next `limit` trades below the id boundary, whatever else is asked. */
  function Serve(all: seq<RawTrade>, limit: nat, p: Params): Response {
    var rest := Below(all, p.beforeTradeId);
    if |rest| <= limit then Page(rest, None, false) else Page(rest[..limit], None, true)
  }

  ghost predicate Serves(server: Server, all: seq<RawTrade>, limit: nat) {
    forall n, p :: server(n, p) == Serve(all, limit, p)
  }

  lemma {:induction false} BelowNone(all: seq<RawTrade>)
    ensures Below(all, None) == all
  {
    if all == [] {
    } else {
      BelowNone(all[1..]);
    }
  }

  lemma {:induction false} BelowAll(all: seq<RawTrade>, id: int)
    requires forall i :: 0 <= i < |all| ==> all[i].tradeId.Some? && all[i].tradeId.value < id
    ensures Below(all, Some(id)) == all
  {
    if all == [] {
    } else {
      BelowAll(all[1..], id);
    }
  }

  lemma {:induction false} BelowSuffix(all: seq<RawTrade>, k: nat)
    requires NewestFirst(all) && 1 <= k <= |all|
    ensures Below(all, all[k - 1].tradeId) == all[k..]
  {
    if k == 1 {
      BelowAll(all[1..], all[0].tradeId.value);
    } else {
      BelowSuffix(all[1..], k - 1);
    }
  }

  lemma {:induction false} OldestIdIsLast(ts: seq<RawTrade>)
    requires NewestFirst(ts) && ts != []
    ensures OldestId(ts) == ts[|ts| - 1].tradeId
  {
    var n := |ts| - 1;
    if n > 0 {
      OldestIdIsLast(ts[..n]);
    }
  }

  /** The boundary with which the trades from position `k` on are asked for. */
  predicate AsksFrom(all: seq<RawTrade>, k: nat, p: Params)
    requires k <= |all|
  {
    p.cursor.None? && p.beforeTradeId == (if k == 0 then None else all[k - 1].tradeId)
  }

  predicate SeenBefore(all: seq<RawTrade>, k: nat, seen: set<Signature>)
    requires k <= |all|
  {
    forall s :: s in seen ==> exists i :: 0 <= i < k && s.firstId == all[i].tradeId
  }

  /** The position after a page starting at `k`. */
  function PageEnd(all: seq<RawTrade>, limit: nat, k: nat): (r: nat)
    requires k <= |all|
    ensures k <= r <= |all|
  {
    if k + limit <= |all| then k + limit else |all|
  }

  /** One page: the next trades, and whether any are left. */
  lemma PageContent(all: seq<RawTrade>, limit: nat, k: nat, p: Params)
    requires NewestFirst(all) && limit >= 1 && k < |all| && AsksFrom(all, k, p)
    ensures Serve(all, limit, p) == Page(all[k..PageEnd(all, limit, k)], None, PageEnd(all, limit, k) < |all|)
  {
    hide Below, NewestFirst;
    if k == 0 {
      BelowNone(all);
    } else {
      BelowSuffix(all, k);
    }
    assert Below(all, p.beforeTradeId) == all[k..];
    assert k + limit <= |all| ==> all[k..][..limit] == all[k..k + limit];
  }

  /** The next request asks from where the page ended: the id boundary strictly
      moves down. */
  lemma BoundaryDescends(all: seq<RawTrade>, k: nat, upto: nat, p: Params)
    requires NewestFirst(all) && k < upto < |all| && AsksFrom(all, k, p)
    ensures var next := NextParams(p, Page(all[k..upto], None, true));
            && next.Some? && AsksFrom(all, upto, next.value)
            && (p.beforeTradeId.Some? ==> next.value.beforeTradeId.value < p.beforeTradeId.value)
  {
    hide OldestTime, OldestId;
    var page := all[k..upto];
    assert forall i :: 0 <= i < |page| ==> page[i] == all[k + i];
    OldestIdIsLast(page);
    assert OldestId(page) == all[upto - 1].tradeId;
  }

  lemma NotSeen(all: seq<RawTrade>, k: nat, page: seq<RawTrade>, seen: set<Signature>)
    requires NewestFirst(all) && k < |all| && page != [] && page[0] == all[k] && SeenBefore(all, k, seen)
    ensures SignatureOf(page) !in seen
    ensures forall upto :: k < upto <= |all| ==> SeenBefore(all, upto, seen + {SignatureOf(page)})
  {
  }

  /** From position `k`, the remaining pages give the next trades in order. */
  lemma {:induction false} PagesInOrder(
    server: Server, all: seq<RawTrade>, limit: nat, a: Account, n: nat, maxPages: nat, k: nat, p: Params,
    seen: set<Signature>)
    requires NewestFirst(all) && limit >= 1 && Serves(server, all, limit)
    requires n < maxPages && k < |all| && AsksFrom(all, k, p) && SeenBefore(all, k, seen)
    decreases maxPages - n
    ensures (maxPages - n) * limit >= 0
    ensures var upto := PageEnd(all, (maxPages - n) * limit, k);
            Fetched(server, a, n, maxPages, p, seen)
            == Download(NormalizeAll(all[k..upto], a), if upto < |all| then [ReachedMaxPages] else [])
  {
    hide Serves, NewestFirst, NextParams, AsksFrom, SeenBefore, Serve, NormalizeAll, SignatureOf;
    var mid := PageEnd(all, limit, k);
    PagesLeft(maxPages - n, limit);
    PageContent(all, limit, k, p);
    ServesAt(server, all, limit, n, p);
    NotSeen(all, k, all[k..mid], seen);
    if mid < |all| {
      BoundaryDescends(all, k, mid, p);
      if n < maxPages - 1 {
        var next := NextParams(p, server(n, p)).value;
        PagesInOrder(server, all, limit, a, n + 1, maxPages, mid, next, seen + {SignatureOf(all[k..mid])});
        JoinPages(all, a, k, mid, PageEnd(all, (maxPages - n - 1) * limit, mid));
      }
    } else {
      LastPage(p, server(n, p));
    }
  }

  lemma ServesAt(server: Server, all: seq<RawTrade>, limit: nat, n: nat, p: Params)
    requires Serves(server, all, limit)
    ensures server(n, p) == Serve(all, limit, p)
  {
  }

  lemma LastPage(p: Params, page: Response)
    requires page.Page? && page.nextCursor.None? && !page.hasMore
    ensures NextParams(p, page) == None
  {
  }

  lemma JoinPages(all: seq<RawTrade>, a: Account, k: nat, mid: nat, upto: nat)
    requires k <= mid <= upto <= |all|
    ensures NormalizeAll(all[k..mid], a) + NormalizeAll(all[mid..upto], a) == NormalizeAll(all[k..upto], a)
  {
    assert all[k..mid] + all[mid..upto] == all[k..upto];
  }

  lemma PagesLeft(pages: nat, limit: nat)
    requires pages >= 1
    ensures pages * limit == limit + (pages - 1) * limit && (pages - 1) * limit >= 0
    ensures pages == 1 ==> pages * limit == limit
  {
  }

  lemma RowsDistinct(all: seq<RawTrade>, a: Account)
    requires NewestFirst(all)
    ensures DistinctKeys(NormalizeAll(all, a))
  {
  }

  /** Main result: against a server with unique ids that pages newest first and
      honours only the id boundary, the download is exactly the newest
      `maxPages * limit` trades, newest first, each once, with a warning exactly
      when some are left. */
  lemma DownloadIsNewest(server: Server, all: seq<RawTrade>, limit: nat, a: Account, maxPages: nat)
    requires NewestFirst(all) && limit >= 1 && maxPages >= 1 && Serves(server, all, limit)
    ensures maxPages * limit >= 0
    ensures var d, upto := Fetched(server, a, 0, maxPages, FIRST, {}), PageEnd(all, maxPages * limit, 0);
            Deduped(d.rows) == NormalizeAll(all[..upto], a) && (d.warnings == [] <==> upto == |all|)
  {
    hide NewestFirst, Serves, NormalizeAll, Deduped, Fetched;
    PagesLeft(maxPages, limit);
    var upto := PageEnd(all, maxPages * limit, 0);
    if all == [] {
      ServesAt(server, all, limit, 0, FIRST);
      NothingServed(server, a, limit, maxPages);
    } else {
      PagesInOrder(server, all, limit, a, 0, maxPages, 0, FIRST, {});
      assert all[0..upto] == all[..upto];
    }
    PrefixNewestFirst(all, upto);
    RowsDistinct(all[..upto], a);
    DistinctUntouched(NormalizeAll(all[..upto], a));
  }

  lemma NothingServed(server: Server, a: Account, limit: nat, maxPages: nat)
    requires maxPages >= 1 && server(0, FIRST) == Serve([], limit, FIRST)
    ensures Fetched(server, a, 0, maxPages, FIRST, {}) == Download(NormalizeAll([], a), [])
  {
    assert NormalizeAll([], a) == [];
  }

  lemma PrefixNewestFirst(all: seq<RawTrade>, upto: nat)
    requires NewestFirst(all) && upto <= |all|
    ensures NewestFirst(all[..upto])
  {
  }

  /** Everything is downloaded exactly when the pages suffice. */
  lemma CompleteIffPagesSuffice(server: Server, all: seq<RawTrade>, limit: nat, a: Account, maxPages: nat)
    requires NewestFirst(all) && limit >= 1 && maxPages >= 1 && Serves(server, all, limit)
    ensures Deduped(Fetched(server, a, 0, maxPages, FIRST, {}).rows) == NormalizeAll(all, a)
            <==> |all| <= maxPages * limit
  {
    hide NewestFirst, Serves, Deduped, Fetched;
    DownloadIsNewest(server, all, limit, a, maxPages);
    var upto := PageEnd(all, maxPages * limit, 0);
    if upto == |all| {
      assert all[..upto] == all;
    } else {
      assert |NormalizeAll(all[..upto], a)| < |NormalizeAll(all, a)|;
    }
  }

  // ----- A server that also honours the time boundary -----

  function TimeOf(t: RawTrade): int {
    if t.timestamp.Some? then EpochMs(t.timestamp.value) else 0
  }

  /** Timed trades, newest first by id and by time. */
  predicate TimedNewestFirst(all: seq<RawTrade>) {
    && NewestFirst(all)
    && (forall i :: 0 <= i < |all| ==> all[i].timestamp.Some? && all[i].timestamp.value > 0)
    && (forall i, j :: 0 <= i < j < |all| ==> TimeOf(all[i]) >= TimeOf(all[j]))
  }

  predicate Fits(t: RawTrade, p: Params) {
    && (p.beforeTradeId.None? || (t.tradeId.Some? && t.tradeId.value < p.beforeTradeId.value))
    && (p.timestampTo.None? || TimeOf(t) <= p.timestampTo.value)
  }

  function Fitting(all: seq<RawTrade>, p: Params): seq<RawTrade> {
    if all == [] then [] else (if Fits(all[0], p) then [all[0]] else []) + Fitting(all[1..], p)
  }

  /** The next `limit` trades within both boundaries. */
  function ServeTimed(all: seq<RawTrade>, limit: nat, p: Params): Response {
    var rest := Fitting(all, p);
    if |rest| <= limit then Page(rest, None, false) else Page(rest[..limit], None, true)
  }

  ghost predicate ServesTimed(server: Server, all: seq<RawTrade>, limit: nat) {
    forall n, p :: server(n, p) == ServeTimed(all, limit, p)
  }

  lemma {:induction false} FittingSuffix(all: seq<RawTrade>, k: nat, p: Params)
    requires k <= |all|
    requires forall i :: 0 <= i < |all| ==> (Fits(all[i], p) <==> i >= k)
    ensures Fitting(all, p) == all[k..]
  {
    hide Fits;
    if all == [] {
    } else {
      FittingSuffix(all[1..], if k == 0 then 0 else k - 1, p);
    }
  }

  /** The first trade from `mid` on that is older than the one before `mid`. */
  function Older(all: seq<RawTrade>, mid: nat, j: nat): (r: nat)
    requires 1 <= mid <= j <= |all|
    decreases |all| - j
    ensures j <= r <= |all|
    ensures r < |all| ==> TimeOf(all[r]) != TimeOf(all[mid - 1])
    ensures forall i :: j <= i < r ==> TimeOf(all[i]) == TimeOf(all[mid - 1])
  {
    if j < |all| && TimeOf(all[j]) == TimeOf(all[mid - 1]) then Older(all, mid, j + 1) else j
  }

  /** The parameters ask for exactly the trades from position `k` on. */
  predicate AsksTimed(all: seq<RawTrade>, k: nat, p: Params)
    requires k <= |all|
  {
    && p.cursor.None?
    && forall i :: 0 <= i < |all| ==> (Fits(all[i], p) <==> i >= k)
  }

  lemma TimedPage(all: seq<RawTrade>, limit: nat, k: nat, p: Params)
    requires limit >= 1 && k <= |all| && AsksTimed(all, k, p)
    ensures ServeTimed(all, limit, p) == Page(all[k..PageEnd(all, limit, k)], None, PageEnd(all, limit, k) < |all|)
  {
    hide Fits, Fitting;
    FittingSuffix(all, k, p);
    assert k + limit <= |all| ==> all[k..][..limit] == all[k..k + limit];
  }

  lemma {:induction false} OldestTimeIsLast(ts: seq<RawTrade>)
    requires TimedNewestFirst(ts) && ts != []
    ensures OldestTime(ts) == TimeOf(ts[|ts| - 1]) > 0
  {
    hide EpochMs;
    var n := |ts| - 1;
    NormalPositive(ts[n].timestamp.value);
    if n > 0 {
      OldestTimeIsLast(ts[..n]);
      assert TimeOf(ts[n - 1]) >= TimeOf(ts[n]);
    }
  }

  lemma NormalPositive(ts: int)
    requires ts > 0
    ensures EpochMs(ts) > 0
  {
  }

  /** The next request leaves out the rest of the millisecond in which the page
      ended. */
  lemma TimedBoundary(all: seq<RawTrade>, k: nat, mid: nat, p: Params)
    requires TimedNewestFirst(all) && k < mid < |all| && AsksTimed(all, k, p)
    ensures var next := NextParams(p, Page(all[k..mid], None, true));
            next.Some? && AsksTimed(all, Older(all, mid, mid), next.value)
  {
    hide OldestTime, OldestId, EpochMs, TimeOf;
    var page, last := all[k..mid], all[mid - 1];
    assert forall i :: 0 <= i < |page| ==> page[i] == all[k + i];
    assert Fits(last, p);
    OldestIdIsLast(page);
    OldestTimeIsLast(page);
    var j := Older(all, mid, mid);
    var next := NextParams(p, Page(page, None, true)).value;
    assert next.timestampTo == Some(TimeOf(last) - 1) && next.beforeTradeId == last.tradeId;
    forall i | 0 <= i < |all| ensures Fits(all[i], next) <==> i >= j {
      if i < mid {
        assert TimeOf(all[i]) >= TimeOf(last);
      } else if i >= j {
        assert TimeOf(all[i]) <= TimeOf(all[j]) <= TimeOf(last);
      }
    }
  }

  /** No page starting at `k`, `k + limit`, ... ends within a millisecond. */
  predicate CleanBreaks(all: seq<RawTrade>, limit: nat, k: nat)
    requires limit >= 1 && k <= |all|
    decreases |all| - k
  {
    k + limit < |all| ==> TimeOf(all[k + limit - 1]) != TimeOf(all[k + limit]) && CleanBreaks(all, limit, k + limit)
  }

  /** From position `k` the remaining pages never bring more than the remaining
      trades, and bring exactly those when every break is clean and the pages
      suffice; otherwise they bring fewer. */
  lemma {:induction false} TimedPages(
    server: Server, all: seq<RawTrade>, limit: nat, a: Account, n: nat, maxPages: nat, k: nat, p: Params,
    seen: set<Signature>)
    requires TimedNewestFirst(all) && limit >= 1 && ServesTimed(server, all, limit)
    requires n < maxPages && k < |all| && AsksTimed(all, k, p) && SeenBefore(all, k, seen)
    decreases maxPages - n
    ensures var rows := Fetched(server, a, n, maxPages, p, seen).rows;
      && |rows| <= |all| - k
      && if CleanBreaks(all, limit, k) && |all| - k <= (maxPages - n) * limit
         then rows == NormalizeAll(all[k..], a)
         else |rows| < |all| - k
  {
    hide ServesTimed, TimedNewestFirst, NextParams, AsksTimed, SeenBefore, ServeTimed, NormalizeAll;
    hide SignatureOf, TimeOf, Fetched, CleanBreaks, Older;
    var mid := PageEnd(all, limit, k);
    FirstBreak(all, limit, k);
    PagesLeft(maxPages - n, limit);
    TimedPage(all, limit, k, p);
    ServesTimedAt(server, all, limit, n, p);
    NotSeenTimed(all, k, all[k..mid], seen);
    FetchedUnrolls(server, a, n, maxPages, p, seen);
    if mid < |all| {
      TimedBoundary(all, k, mid, p);
      var j := Older(all, mid, mid);
      if n < maxPages - 1 {
        var next := NextParams(p, server(n, p)).value;
        var seen' := seen + {SignatureOf(all[k..mid])};
        if j < |all| {
          TimedPages(server, all, limit, a, n + 1, maxPages, j, next, seen');
          JoinPages(all, a, k, mid, |all|);
        } else {
          TimedPage(all, limit, j, next);
          ServesTimedAt(server, all, limit, n + 1, next);
          FetchedUnrolls(server, a, n + 1, maxPages, next, seen');
        }
      }
    } else {
      LastPage(p, server(n, p));
    }
  }

  /** The breaks are clean when the first one is and those after it are. */
  lemma FirstBreak(all: seq<RawTrade>, limit: nat, k: nat)
    requires limit >= 1 && k < |all|
    ensures var mid := PageEnd(all, limit, k);
            CleanBreaks(all, limit, k) <==> mid == |all| || (Older(all, mid, mid) == mid && CleanBreaks(all, limit, mid))
  {
    hide TimeOf;
  }

  lemma ServesTimedAt(server: Server, all: seq<RawTrade>, limit: nat, n: nat, p: Params)
    requires ServesTimed(server, all, limit)
    ensures server(n, p) == ServeTimed(all, limit, p)
  {
  }

  lemma NotSeenTimed(all: seq<RawTrade>, k: nat, page: seq<RawTrade>, seen: set<Signature>)
    requires TimedNewestFirst(all) && k < |all| && page != [] && page[0] == all[k] && SeenBefore(all, k, seen)
    ensures SignatureOf(page) !in seen
    ensures forall upto :: k < upto <= |all| ==> SeenBefore(all, upto, seen + {SignatureOf(page)})
  {
    NotSeen(all, k, page, seen);
  }

  lemma {:induction false} DedupedShorter(rows: seq<Row>)
    ensures |Deduped(rows)| <= |rows|
  {
    if rows == [] {
    } else {
      DedupedShorter(rows[..|rows| - 1]);
    }
  }

  /** Against a server that honours both boundaries the download is complete
      exactly when the pages suffice and no page ends within a millisecond. */
  lemma TimedCompleteIffCleanBreaks(server: Server, all: seq<RawTrade>, limit: nat, a: Account, maxPages: nat)
    requires TimedNewestFirst(all) && limit >= 1 && maxPages >= 1 && ServesTimed(server, all, limit)
    ensures Deduped(Fetched(server, a, 0, maxPages, FIRST, {}).rows) == NormalizeAll(all, a)
            <==> CleanBreaks(all, limit, 0) && |all| <= maxPages * limit
  {
    hide ServesTimed, NormalizeAll, Deduped, Fetched, TimeOf;
    var rows := Fetched(server, a, 0, maxPages, FIRST, {}).rows;
    PagesLeft(maxPages, limit);
    if all == [] {
      TimedPage(all, limit, 0, FIRST);
      ServesTimedAt(server, all, limit, 0, FIRST);
      NothingServed(server, a, limit, maxPages);
    } else {
      TimedPages(server, all, limit, a, 0, maxPages, 0, FIRST, {});
      assert all[0..] == all;
    }
    DedupedShorter(rows);
    RowsDistinct(all, a);
    DistinctUntouched(NormalizeAll(all, a));
  }

  /** An input: of two trades of one millisecond that do not fit in one page the
      older is never fetched, and no warning says so. */
  lemma SplitMillisecondLost(server: Server, newer: RawTrade, older: RawTrade, a: Account, maxPages: nat)
    requires TimedNewestFirst([newer, older]) && TimeOf(newer) == TimeOf(older) && maxPages >= 2
    requires ServesTimed(server, [newer, older], 1)
    ensures Fetched(server, a, 0, maxPages, FIRST, {}) == Download(NormalizeAll([newer], a), [])
  {
    hide ServesTimed, NextParams, ServeTimed, NormalizeAll, SignatureOf, EpochMs, Fetched;
    var all := [newer, older];
    assert all[1] == older && all[0] == newer && all[0..1] == [newer];
    assert PageEnd(all, 1, 0) == 1 && Older(all, 1, 1) == 2;
    ServesTimedAt(server, all, 1, 0, FIRST);
    TimedPage(all, 1, 0, FIRST);
    TimedBoundary(all, 0, 1, FIRST);
    var next := NextParams(FIRST, server(0, FIRST)).value;
    FetchedUnrolls(server, a, 0, maxPages, FIRST, {});
    TimedPage(all, 1, 2, next);
    ServesTimedAt(server, all, 1, 1, next);
    FetchedUnrolls(server, a, 1, maxPages, next, {} + {SignatureOf([newer])});
  }
}

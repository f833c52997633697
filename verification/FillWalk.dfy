/** The bounded walk over an indexer's table (`rust/chain/src/history_fill.rs`). */
module FillWalk {
  // The server is a parameter: any function from the call's number and the cursor to
  // a page or an error. Main results: `WalkIsHonest` (any server), `WalkCovers` (a
  // server that pages a fixed table), `WallMeansCluster` (when a walk stops at a wall)
  // and `ResumingLosesNothing` (a lane over any sequence of walks and erases).

  import opened Bytes

  type U64 = n: int | 0 <= n <= U64_MAX

  const PAGE_LIMIT := 50
  const PAGE_BUDGET := 40
  const FUTURE_SKEW_MS := 600_000

  datatype Item = Item(txid: string, time: U64, body: string)
  datatype Answer = Page(rows: seq<Item>) | Refused(message: string)
  datatype WalkError = FetchFailed(message: string) | PageWall

  datatype WalkOutcome = WalkOutcome(items: seq<Item>, cursor: U64, complete: bool, pages: nat, error: Option<WalkError>)

  /** What a walk has gathered; the ids it has seen are those of its items. */
  datatype Gathered = Gathered(items: seq<Item>, cursor: U64)

  function Ceiling(now: U64): (r: U64) {
    if now + FUTURE_SKEW_MS > U64_MAX then U64_MAX else now + FUTURE_SKEW_MS
  }

  predicate Has(items: seq<Item>, txid: string) {
    exists i :: 0 <= i < |items| && items[i].txid == txid
  }

  function TakeRow(g: Gathered, row: Item, ceiling: U64): Gathered {
    if row.time > ceiling then g
    else Gathered(if Has(g.items, row.txid) then g.items else g.items + [row], Max(g.cursor, row.time))
  }

  function TakePage(g: Gathered, rows: seq<Item>, ceiling: U64): Gathered {
    if rows == [] then g else TakeRow(TakePage(g, rows[..|rows| - 1], ceiling), rows[|rows| - 1], ceiling)
  }

  type Server = (nat, U64) -> Answer

  /** The walk from `g` with `pages` already fetched. */
  function Walk(server: Server, g: Gathered, pages: nat, ceiling: U64): WalkOutcome
    decreases PAGE_BUDGET - pages
  {
    if pages >= PAGE_BUDGET then WalkOutcome(g.items, g.cursor, false, pages, None)
    else match server(pages, g.cursor)
      case Refused(message) => WalkOutcome(g.items, g.cursor, false, pages, Some(FetchFailed(message)))
      case Page(rows) =>
        var next := TakePage(g, rows, ceiling);
        if |rows| < PAGE_LIMIT then WalkOutcome(next.items, next.cursor, true, pages + 1, None)
        else if next.items == g.items then WalkOutcome(next.items, next.cursor, false, pages + 1, Some(PageWall))
        else Walk(server, next, pages + 1, ceiling)
  }

  function WalkFrom(server: Server, start: U64, now: U64): WalkOutcome {
    Walk(server, Gathered([], start), 0, Ceiling(now))
  }

  // ---- the loops ----

  method FoldRows(items: seq<Item>, cursor: U64, seen: set<string>, rows: seq<Item>, ceiling: U64)
    returns (items': seq<Item>, cursor': U64, seen': set<string>, progressed: bool)
    requires forall t :: t in seen <==> Has(items, t)
    ensures Gathered(items', cursor') == TakePage(Gathered(items, cursor), rows, ceiling)
    ensures forall t :: t in seen' <==> Has(items', t)
    ensures progressed <==> items' != items
  {
    items', cursor', seen', progressed := items, cursor, seen, false;
    for i := 0 to |rows|
      invariant Gathered(items', cursor') == TakePage(Gathered(items, cursor), rows[..i], ceiling)
      invariant forall t :: t in seen' <==> Has(items', t)
      invariant items <= items'
      invariant progressed <==> items' != items
    {
      assert rows[..i + 1][..i] == rows[..i];
      var row := rows[i];
      if row.time <= ceiling {
        cursor' := Max(cursor', row.time);
        if row.txid !in seen' {
          HasMore(items', row);
          seen', progressed, items' := seen' + {row.txid}, true, items' + [row];
        }
      }
    }
    assert rows[..|rows|] == rows;
  }

  lemma HasMore(items: seq<Item>, row: Item)
    ensures forall t :: Has(items + [row], t) <==> Has(items, t) || t == row.txid
  {
    forall t
      ensures Has(items + [row], t) <==> Has(items, t) || t == row.txid
    {
      assert (items + [row])[|items|] == row;
      if Has(items, t) {
        var i :| 0 <= i < |items| && items[i].txid == t;
        assert (items + [row])[i].txid == t;
      }
    }
  }

  /** The bounded page loop: at most `PAGE_BUDGET` fetches, numbered in order. */
  method WalkPages(server: Server, start: U64, now: U64) returns (o: WalkOutcome)
    ensures o == WalkFrom(server, start, now)
    ensures o.pages <= PAGE_BUDGET && (o.complete ==> o.error == None)
    ensures Honest(Gathered(o.items, o.cursor), start, Ceiling(now))
  {
    var ceiling := Ceiling(now);
    var items: seq<Item>, cursor: U64, seen: set<string>, pages := [], start, {}, 0;
    ghost var whole := WalkFrom(server, start, now);
    WalkIsHonest(server, start, now);
    while pages < PAGE_BUDGET
      invariant pages <= PAGE_BUDGET
      invariant forall t :: t in seen <==> Has(items, t)
      invariant Walk(server, Gathered(items, cursor), pages, ceiling) == whole
      decreases PAGE_BUDGET - pages
    {
      match server(pages, cursor) {
        case Refused(message) =>
          return WalkOutcome(items, cursor, false, pages, Some(FetchFailed(message)));
        case Page(rows) =>
          pages := pages + 1;
          var progressed;
          items, cursor, seen, progressed := FoldRows(items, cursor, seen, rows, ceiling);
          if |rows| < PAGE_LIMIT {
            return WalkOutcome(items, cursor, true, pages, None);
          }
          if !progressed {
            return WalkOutcome(items, cursor, false, pages, Some(PageWall));
          }
      }
    }
    return WalkOutcome(items, cursor, false, pages, None);
  }

  // ---- against any server ----

  predicate Distinct(items: seq<Item>) {
    forall i, j :: 0 <= i < j < |items| ==> items[i].txid != items[j].txid
  }

  predicate Honest(g: Gathered, start: U64, ceiling: U64) {
    && Distinct(g.items)
    && start <= g.cursor <= Max(start, ceiling)
    && forall i :: 0 <= i < |g.items| ==> g.items[i].time <= g.cursor && g.items[i].time <= ceiling
  }

  lemma {:induction false} PageKeepsHonest(g: Gathered, rows: seq<Item>, start: U64, ceiling: U64)
    requires Honest(g, start, ceiling)
    ensures Honest(TakePage(g, rows, ceiling), start, ceiling)
    ensures g.items <= TakePage(g, rows, ceiling).items
    ensures g.cursor <= TakePage(g, rows, ceiling).cursor
  {
    if rows != [] {
      PageKeepsHonest(g, rows[..|rows| - 1], start, ceiling);
    }
  }

  lemma {:induction false} WalkKeepsHonest(server: Server, g: Gathered, pages: nat, start: U64, ceiling: U64)
    requires Honest(g, start, ceiling) && pages <= PAGE_BUDGET && pages <= |g.items|
    ensures var o := Walk(server, g, pages, ceiling);
      && Honest(Gathered(o.items, o.cursor), start, ceiling)
      && o.pages <= PAGE_BUDGET && o.pages <= |o.items| + 1
      && (o.complete ==> o.error == None)
    decreases PAGE_BUDGET - pages
  {
    if pages < PAGE_BUDGET && server(pages, g.cursor).Page? {
      var rows := server(pages, g.cursor).rows;
      PageKeepsHonest(g, rows, start, ceiling);
      if |rows| >= PAGE_LIMIT && TakePage(g, rows, ceiling).items != g.items {
        WalkKeepsHonest(server, TakePage(g, rows, ceiling), pages + 1, start, ceiling);
      }
    }
  }

  /** **No server can wedge or flood a walk.** Whatever it answers, a walk makes at
      most 40 fetches, each past the first paid for by a new row; its rows have
      distinct ids; and no row past the skew ceiling is taken or moves the cursor. */
  lemma WalkIsHonest(server: Server, start: U64, now: U64)
    ensures var o := WalkFrom(server, start, now);
      && o.pages <= PAGE_BUDGET && o.pages <= |o.items| + 1
      && (o.complete ==> o.error == None)
      && Honest(Gathered(o.items, o.cursor), start, Ceiling(now))
  {
    WalkKeepsHonest(server, Gathered([], start), 0, start, Ceiling(now));
  }

  // ---- how a walk ends ----

  /** What is gathered before page `p` is asked for. */
  function GatheredBefore(server: Server, start: U64, ceiling: U64, p: nat): Gathered {
    if p == 0 then Gathered([], start)
    else
      var g := GatheredBefore(server, start, ceiling, p - 1);
      match server(p - 1, g.cursor) { case Page(rows) => TakePage(g, rows, ceiling) case Refused(_) => g }
  }

  function AnswerTo(server: Server, start: U64, ceiling: U64, p: nat): Answer {
    server(p, GatheredBefore(server, start, ceiling, p).cursor)
  }

  /** A row not past the ceiling whose id is new. */
  predicate HasNewRow(items: seq<Item>, rows: seq<Item>, ceiling: U64) {
    exists i :: 0 <= i < |rows| && rows[i].time <= ceiling && !Has(items, rows[i].txid)
  }

  /** Page `p` is a full page with a new row: the walk goes on past it. */
  predicate GoesOn(server: Server, start: U64, ceiling: U64, p: nat) {
    var a := AnswerTo(server, start, ceiling, p);
    a.Page? && |a.rows| >= PAGE_LIMIT && HasNewRow(GatheredBefore(server, start, ceiling, p).items, a.rows, ceiling)
  }

  /** Page `p` is asked for, or is the one the budget denies. */
  predicate Reaches(server: Server, start: U64, ceiling: U64, p: nat) {
    p <= PAGE_BUDGET && forall q: nat :: q < p ==> GoesOn(server, start, ceiling, q)
  }

  /** The walk ends at page `p`. */
  predicate StopsAt(server: Server, start: U64, ceiling: U64, p: nat) {
    Reaches(server, start, ceiling, p) && (p == PAGE_BUDGET || !GoesOn(server, start, ceiling, p))
  }

  /** A page adds something exactly when it has a new row. */
  lemma {:induction false} GathersExactly(g: Gathered, rows: seq<Item>, ceiling: U64)
    ensures TakePage(g, rows, ceiling).items != g.items <==> HasNewRow(g.items, rows, ceiling)
    decreases |rows|
  {
    if rows != [] {
      var n := |rows| - 1;
      var front, last := rows[..n], rows[n];
      GathersExactly(g, front, ceiling);
      PageGrows(g, front, ceiling);
      PageGrows(g, rows, ceiling);
      assert forall i :: 0 <= i < n ==> front[i] == rows[i];
      assert HasNewRow(g.items, rows, ceiling) <==>
        HasNewRow(g.items, front, ceiling) || (last.time <= ceiling && !Has(g.items, last.txid));
    }
  }

  /** A walk still going at page `p` is the walk from what it has gathered. */
  lemma {:induction false} WalkFromPage(server: Server, start: U64, now: U64, p: nat)
    requires Reaches(server, start, Ceiling(now), p)
    ensures Walk(server, GatheredBefore(server, start, Ceiling(now), p), p, Ceiling(now)) == WalkFrom(server, start, now)
    decreases p
  {
    if p > 0 {
      var g := GatheredBefore(server, start, Ceiling(now), p - 1);
      assert GoesOn(server, start, Ceiling(now), p - 1);
      WalkFromPage(server, start, now, p - 1);
      GathersExactly(g, server(p - 1, g.cursor).rows, Ceiling(now));
    }
  }

  /** **A walk ends in one of four ways, and which it is follows from the page it stops
      at:** out of budget, refused, drained by a short page, or at a wall of nothing
      new. Only the drained walk is complete, and it always is. */
  lemma EndsExactly(server: Server, start: U64, now: U64, p: nat)
    requires StopsAt(server, start, Ceiling(now), p)
    ensures var o := WalkFrom(server, start, now); var g := GatheredBefore(server, start, Ceiling(now), p);
      if p == PAGE_BUDGET then o == WalkOutcome(g.items, g.cursor, false, PAGE_BUDGET, None)
      else
        match AnswerTo(server, start, Ceiling(now), p)
        case Refused(message) => o == WalkOutcome(g.items, g.cursor, false, p, Some(FetchFailed(message)))
        case Page(rows) =>
          var next := GatheredBefore(server, start, Ceiling(now), p + 1);
          o == WalkOutcome(next.items, next.cursor, |rows| < PAGE_LIMIT, p + 1, if |rows| < PAGE_LIMIT then None else Some(PageWall))
  {
    var g := GatheredBefore(server, start, Ceiling(now), p);
    WalkFromPage(server, start, now, p);
    if p < PAGE_BUDGET && server(p, g.cursor).Page? {
      GathersExactly(g, server(p, g.cursor).rows, Ceiling(now));
    }
  }

  /** Every walk ends, at one page. */
  lemma {:induction false} StopsSomewhere(server: Server, start: U64, ceiling: U64, from: nat) returns (p: nat)
    requires Reaches(server, start, ceiling, from)
    ensures from <= p && StopsAt(server, start, ceiling, p)
    decreases PAGE_BUDGET - from
  {
    if from == PAGE_BUDGET || !GoesOn(server, start, ceiling, from) {
      p := from;
    } else {
      p := StopsSomewhere(server, start, ceiling, from + 1);
    }
  }

  /** **What an answer tells.** An incomplete walk with no error has used its whole
      budget; a failed fetch is the server's refusal at the walk's cursor; a wall is a
      full page on which every row is past the ceiling or already gathered; a complete
      walk ended on a short page. */
  lemma AnswerTells(server: Server, start: U64, now: U64)
    ensures var o := WalkFrom(server, start, now);
      && (o.error.None? && !o.complete ==> o.pages == PAGE_BUDGET)
      && (o.error.Some? && o.error.value.FetchFailed? ==> server(o.pages, o.cursor) == Refused(o.error.value.message))
      && (o.error == Some(PageWall) ==> exists p: nat, at: U64 :: p + 1 == o.pages && WallAt(server, p, at, o.items, Ceiling(now)))
      && (o.complete ==> exists p: nat, at: U64 :: p + 1 == o.pages && ShortAt(server, p, at))
  {
    var p := StopsSomewhere(server, start, Ceiling(now), 0);
    EndsExactly(server, start, now, p);
    if p < PAGE_BUDGET && AnswerTo(server, start, Ceiling(now), p).Page? {
      PageTells(server, start, Ceiling(now), p);
    }
  }

  lemma PageTells(server: Server, start: U64, ceiling: U64, p: nat)
    requires !GoesOn(server, start, ceiling, p) && AnswerTo(server, start, ceiling, p).Page?
    ensures var at := GatheredBefore(server, start, ceiling, p).cursor;
      var rows := server(p, at).rows;
      if |rows| < PAGE_LIMIT then ShortAt(server, p, at)
      else WallAt(server, p, at, GatheredBefore(server, start, ceiling, p + 1).items, ceiling)
  {
    var g := GatheredBefore(server, start, ceiling, p);
    GathersExactly(g, server(p, g.cursor).rows, ceiling);
  }

  predicate WallAt(server: Server, page: nat, at: U64, items: seq<Item>, ceiling: U64) {
    var a := server(page, at);
    a.Page? && |a.rows| >= PAGE_LIMIT && !HasNewRow(items, a.rows, ceiling)
  }

  predicate ShortAt(server: Server, page: nat, at: U64) {
    var a := server(page, at);
    a.Page? && |a.rows| < PAGE_LIMIT
  }

  predicate ShortPage(server: Server, start: U64, ceiling: U64, p: nat) {
    ShortAt(server, p, GatheredBefore(server, start, ceiling, p).cursor)
  }

  /** **A walk is complete if and only if** one of the pages it asks for within its
      budget is short. */
  lemma CompleteExactly(server: Server, start: U64, now: U64)
    ensures WalkFrom(server, start, now).complete <==>
      exists p: nat :: p < PAGE_BUDGET && Reaches(server, start, Ceiling(now), p) && ShortPage(server, start, Ceiling(now), p)
  {
    var p := StopsSomewhere(server, start, Ceiling(now), 0);
    EndsExactly(server, start, now, p);
    forall q: nat | q < PAGE_BUDGET && Reaches(server, start, Ceiling(now), q) && ShortPage(server, start, Ceiling(now), q)
      ensures q == p
    {
      StopsOnce(server, start, Ceiling(now), p, q);
    }
  }

  lemma StopsOnce(server: Server, start: U64, ceiling: U64, p: nat, q: nat)
    requires StopsAt(server, start, ceiling, p) && StopsAt(server, start, ceiling, q)
    ensures p == q
  {
  }

  // ---- against a fixed table ----

  predicate Ascending(table: seq<Item>) {
    forall i, j :: 0 <= i < j < |table| ==> table[i].time <= table[j].time
  }

  /** How many leading rows lie below `since`. */
  function Below(table: seq<Item>, since: U64): (k: nat)
    requires Ascending(table)
    ensures k <= |table|
    ensures forall i :: 0 <= i < k ==> table[i].time < since
    ensures forall i :: k <= i < |table| ==> since <= table[i].time
  {
    if table == [] || table[0].time >= since then 0 else 1 + Below(table[1..], since)
  }

  /** The rows from an inclusive block time on, at most a page of them. */
  function Served(table: seq<Item>, since: U64): seq<Item>
    requires Ascending(table)
  {
    var k := Below(table, since);
    table[k..if k + PAGE_LIMIT < |table| then k + PAGE_LIMIT else |table|]
  }

  /** A server that answers from the table, or refuses. */
  ghost predicate Serves(server: Server, table: seq<Item>) {
    Ascending(table) && forall call: nat, since: U64 :: server(call, since).Refused? || server(call, since).rows == Served(table, since)
  }

  /** Every row from `from` up to, not including, `to` that the ceiling lets in. */
  predicate Covers(items: seq<Item>, table: seq<Item>, from: U64, to: int, ceiling: U64) {
    forall i :: 0 <= i < |table| && from <= table[i].time < to && table[i].time <= ceiling ==> Has(items, table[i].txid)
  }

  predicate Drawn(items: seq<Item>, table: seq<Item>, from: U64) {
    forall i :: 0 <= i < |items| ==> items[i] in table && from <= items[i].time
  }

  lemma {:induction false} PageGrows(g: Gathered, rows: seq<Item>, ceiling: U64)
    ensures g.items <= TakePage(g, rows, ceiling).items && g.cursor <= TakePage(g, rows, ceiling).cursor
  {
    if rows != [] {
      PageGrows(g, rows[..|rows| - 1], ceiling);
    }
  }

  lemma PrefixHas(items: seq<Item>, more: seq<Item>, t: string)
    requires items <= more && Has(items, t)
    ensures Has(more, t)
  {
    var i :| 0 <= i < |items| && items[i].txid == t;
    assert more[i].txid == t;
  }

  /** What was gathered stays gathered. */
  lemma Keeps(g: Gathered, rows: seq<Item>, ceiling: U64, t: string)
    requires Has(g.items, t)
    ensures Has(TakePage(g, rows, ceiling).items, t)
  {
    PageGrows(g, rows, ceiling);
    PrefixHas(g.items, TakePage(g, rows, ceiling).items, t);
  }

  /** Every row the ceiling lets in is gathered. */
  lemma {:induction false} Takes(g: Gathered, rows: seq<Item>, ceiling: U64, i: nat)
    requires i < |rows| && rows[i].time <= ceiling
    ensures Has(TakePage(g, rows, ceiling).items, rows[i].txid)
  {
    var front, last := rows[..|rows| - 1], rows[|rows| - 1];
    var before := TakePage(g, front, ceiling);
    if i < |front| {
      Takes(g, front, ceiling, i);
      PrefixHas(before.items, TakePage(g, rows, ceiling).items, rows[i].txid);
    } else {
      HasMore(before.items, last);
    }
  }

  /** Nothing is gathered that was not there or on the page. */
  lemma {:induction false} PageDraws(g: Gathered, rows: seq<Item>, ceiling: U64, x: Item)
    requires x in TakePage(g, rows, ceiling).items
    ensures x in g.items || x in rows
  {
    if rows != [] && x != rows[|rows| - 1] {
      PageDraws(g, rows[..|rows| - 1], ceiling, x);
    }
  }

  /** A cursor that moved stands on a row the ceiling let in. */
  lemma {:induction false} CursorRow(g: Gathered, rows: seq<Item>, ceiling: U64) returns (j: nat)
    requires TakePage(g, rows, ceiling).cursor != g.cursor
    ensures j < |rows| && rows[j].time == TakePage(g, rows, ceiling).cursor
  {
    var front := rows[..|rows| - 1];
    if TakePage(g, rows, ceiling).cursor == TakePage(g, front, ceiling).cursor {
      j := CursorRow(g, front, ceiling);
    } else {
      j := |front|;
    }
  }

  /** What a walk at `cursor` has gathered from the table's rows at `from` or later. */
  predicate Good(items: seq<Item>, cursor: U64, drained: bool, table: seq<Item>, from: U64, ceiling: U64) {
    && from <= cursor
    && Covers(items, table, from, cursor, ceiling)
    && Drawn(items, table, from)
    && (drained ==> Covers(items, table, from, U64_MAX + 1, ceiling))
  }

  lemma ServedIsTable(table: seq<Item>, since: U64, x: Item)
    requires Ascending(table) && x in Served(table, since)
    ensures x in table && since <= x.time
  {
    var j :| 0 <= j < |Served(table, since)| && Served(table, since)[j] == x;
    ServedRow(table, since, j);
  }

  /** On a slice of an ascending table, a row below some row of the slice is in it. */
  lemma WithinSlice(table: seq<Item>, k: nat, n: nat, j: nat, i: nat)
    requires Ascending(table) && k + n <= |table| && j < n && k <= i < |table| && table[i].time < table[k + j].time
    ensures i < k + n
  {
  }

  lemma ServedRow(table: seq<Item>, since: U64, j: nat)
    requires Ascending(table) && j < |Served(table, since)|
    ensures Below(table, since) + j < |table| && Served(table, since)[j] == table[Below(table, since) + j]
  {
  }

  /** A row behind the new cursor was gathered before, or stands on this page. */
  lemma RowTaken(g: Gathered, table: seq<Item>, from: U64, ceiling: U64, i: nat)
    requires Ascending(table) && Good(g.items, g.cursor, false, table, from, ceiling)
    requires i < |table| && from <= table[i].time <= ceiling
    requires table[i].time < TakePage(g, Served(table, g.cursor), ceiling).cursor || |Served(table, g.cursor)| < PAGE_LIMIT
    ensures Has(TakePage(g, Served(table, g.cursor), ceiling).items, table[i].txid)
  {
    var rows := Served(table, g.cursor);
    var k := Below(table, g.cursor);
    if i < k {
      Keeps(g, rows, ceiling, table[i].txid);
    } else {
      if |rows| >= PAGE_LIMIT {
        var j := CursorRow(g, rows, ceiling);
        ServedRow(table, g.cursor, j);
        WithinSlice(table, k, |rows|, j, i);
      }
      OnPage(g, table, ceiling, i);
    }
  }

  lemma OnPage(g: Gathered, table: seq<Item>, ceiling: U64, i: nat)
    requires Ascending(table) && Below(table, g.cursor) <= i < Below(table, g.cursor) + |Served(table, g.cursor)|
    requires i < |table| && table[i].time <= ceiling
    ensures Has(TakePage(g, Served(table, g.cursor), ceiling).items, table[i].txid)
  {
    ServedRow(table, g.cursor, i - Below(table, g.cursor));
    Takes(g, Served(table, g.cursor), ceiling, i - Below(table, g.cursor));
  }

  /** One served page carries coverage from the old cursor to the new. */
  lemma PageCovers(g: Gathered, table: seq<Item>, from: U64, ceiling: U64)
    requires Ascending(table) && Good(g.items, g.cursor, false, table, from, ceiling)
    ensures var rows := Served(table, g.cursor); var n := TakePage(g, rows, ceiling);
      Good(n.items, n.cursor, |rows| < PAGE_LIMIT, table, from, ceiling)
  {
    var rows := Served(table, g.cursor);
    var n := TakePage(g, rows, ceiling);
    PageGrows(g, rows, ceiling);
    forall m | 0 <= m < |n.items|
      ensures n.items[m] in table && from <= n.items[m].time
    {
      PageDraws(g, rows, ceiling, n.items[m]);
      if n.items[m] in rows {
        ServedIsTable(table, g.cursor, n.items[m]);
      }
    }
    forall i | 0 <= i < |table| && from <= table[i].time <= ceiling && (table[i].time < n.cursor || |rows| < PAGE_LIMIT)
      ensures Has(n.items, table[i].txid)
    {
      RowTaken(g, table, from, ceiling, i);
    }
  }

  lemma {:induction false} WalkCoversOn(server: Server, table: seq<Item>, g: Gathered, pages: nat, from: U64, ceiling: U64)
    requires Serves(server, table) && Good(g.items, g.cursor, false, table, from, ceiling)
    ensures var o := Walk(server, g, pages, ceiling); Good(o.items, o.cursor, o.complete, table, from, ceiling)
    decreases PAGE_BUDGET - pages
  {
    if pages < PAGE_BUDGET && server(pages, g.cursor).Page? {
      var rows := Served(table, g.cursor);
      var next := TakePage(g, rows, ceiling);
      assert server(pages, g.cursor) == Page(rows);
      PageCovers(g, table, from, ceiling);
      if |rows| >= PAGE_LIMIT && next.items != g.items {
        WalkCoversOn(server, table, next, pages + 1, from, ceiling);
      }
    }
  }

  /** **Nothing behind the cursor is missing.** On every exit the walk holds every
      row from its start up to its cursor, and only rows the table has from its
      start on; a complete walk holds every row up to the ceiling. */
  lemma WalkCovers(server: Server, table: seq<Item>, start: U64, now: U64)
    requires Serves(server, table)
    ensures var o := WalkFrom(server, start, now);
      && Good(o.items, o.cursor, o.complete, table, start, Ceiling(now))
      && (forall i :: 0 <= i < |table| && start <= table[i].time < o.cursor ==> table[i].time <= Ceiling(now))
  {
    WalkCoversOn(server, table, Gathered([], start), 0, start, Ceiling(now));
    WalkIsHonest(server, start, now);
  }

  /** **A server that never refuses completes a walk exactly when** some page within the
      budget, with no wall before it, has fewer than 50 of the table's rows left. */
  lemma TableCompletesExactly(server: Server, table: seq<Item>, start: U64, now: U64)
    requires Serves(server, table) && forall call: nat, since: U64 :: server(call, since).Page?
    ensures WalkFrom(server, start, now).complete <==>
      exists p: nat :: p < PAGE_BUDGET && Reaches(server, start, Ceiling(now), p)
                       && |table| - Below(table, GatheredBefore(server, start, Ceiling(now), p).cursor) < PAGE_LIMIT
  {
    CompleteExactly(server, start, now);
    forall p: nat
      ensures ShortPage(server, start, Ceiling(now), p) <==>
        |table| - Below(table, GatheredBefore(server, start, Ceiling(now), p).cursor) < PAGE_LIMIT
    {
      var since := GatheredBefore(server, start, Ceiling(now), p).cursor;
      assert server(p, since).rows == Served(table, since);
    }
  }

  /** So fewer than 50 rows from the start on are one page, complete, with no error. */
  lemma ShortTableCompletes(server: Server, table: seq<Item>, start: U64, now: U64)
    requires Serves(server, table) && server(0, start).Page? && |table| - Below(table, start) < PAGE_LIMIT
    ensures var o := WalkFrom(server, start, now); o.complete && o.pages == 1 && o.error == None
  {
    assert server(0, start).rows == Served(table, start);
    assert AnswerTo(server, start, Ceiling(now), 0) == server(0, start);
    EndsExactly(server, start, now, 0);
  }

  /** A page of rows from the `k`-th on share this block time. */
  predicate AllAt(table: seq<Item>, k: nat, time: U64) {
    k + PAGE_LIMIT <= |table| && forall i :: k <= i < k + PAGE_LIMIT ==> table[i].time == time
  }

  ghost predicate Cluster(table: seq<Item>, time: U64) {
    exists k: nat :: AllAt(table, k, time)
  }

  /** A row at or past the cursor whose id was seen stands exactly on the cursor. */
  lemma SeenStands(g: Gathered, table: seq<Item>, from: U64, ceiling: U64, i: nat)
    requires Distinct(table) && Drawn(g.items, table, from) && Honest(g, from, ceiling)
    requires i < |table| && g.cursor <= table[i].time && Has(g.items, table[i].txid)
    ensures table[i].time == g.cursor
  {
    var m :| 0 <= m < |g.items| && g.items[m].txid == table[i].txid;
    var h :| 0 <= h < |table| && table[h] == g.items[m];
  }

  /** A page that reaches past the ceiling leaves nothing below it unread. */
  lemma PastTheCeiling(g: Gathered, table: seq<Item>, from: U64, ceiling: U64, j: nat)
    requires Ascending(table) && Good(g.items, g.cursor, false, table, from, ceiling)
    requires var rows := Served(table, g.cursor); j < |rows| && rows[j].time > ceiling
    ensures Covers(TakePage(g, Served(table, g.cursor), ceiling).items, table, from, U64_MAX + 1, ceiling)
  {
    var rows := Served(table, g.cursor);
    var n := TakePage(g, rows, ceiling);
    var k := Below(table, g.cursor);
    ServedRow(table, g.cursor, j);
    forall i | 0 <= i < |table| && from <= table[i].time <= ceiling
      ensures Has(n.items, table[i].txid)
    {
      if i < k {
        Keeps(g, rows, ceiling, table[i].txid);
      } else {
        WithinSlice(table, k, |rows|, j, i);
        OnPage(g, table, ceiling, i);
      }
    }
  }

  /** A row at or past the cursor that was gathered stands on it. */
  predicate Stands(g: Gathered, row: Item) {
    g.cursor <= row.time && Has(g.items, row.txid) ==> row.time == g.cursor
  }

  /** With no new row on the page, each of its rows stands on the cursor. */
  lemma StaleRow(g: Gathered, table: seq<Item>, ceiling: U64, j: nat)
    requires Ascending(table) && TakePage(g, Served(table, g.cursor), ceiling).items == g.items
    requires var rows := Served(table, g.cursor); j < |rows| && rows[j].time <= ceiling && Stands(g, rows[j])
    ensures var k := Below(table, g.cursor); k + j < |table| && table[k + j] == Served(table, g.cursor)[j] && table[k + j].time == g.cursor
  {
    StaleRowIsHeld(g, table, ceiling, j);
  }

  lemma StaleRowIsHeld(g: Gathered, table: seq<Item>, ceiling: U64, j: nat)
    requires Ascending(table) && TakePage(g, Served(table, g.cursor), ceiling).items == g.items
    requires var rows := Served(table, g.cursor); j < |rows| && rows[j].time <= ceiling
    ensures var k := Below(table, g.cursor) + j;
      k < |table| && table[k] == Served(table, g.cursor)[j] && g.cursor <= table[k].time && Has(g.items, table[k].txid)
  {
    Takes(g, Served(table, g.cursor), ceiling, j);
    ServedRow(table, g.cursor, j);
  }

  lemma RowStands(g: Gathered, table: seq<Item>, from: U64, ceiling: U64, j: nat)
    requires Ascending(table) && Distinct(table) && Drawn(g.items, table, from) && Honest(g, from, ceiling)
    requires j < |Served(table, g.cursor)|
    ensures Stands(g, Served(table, g.cursor)[j])
  {
    ServedRow(table, g.cursor, j);
    var i := Below(table, g.cursor) + j;
    if g.cursor <= table[i].time && Has(g.items, table[i].txid) {
      SeenStands(g, table, from, ceiling, i);
    }
  }

  lemma StaleTimes(g: Gathered, table: seq<Item>, ceiling: U64)
    requires Ascending(table) && TakePage(g, Served(table, g.cursor), ceiling).items == g.items
    requires var rows := Served(table, g.cursor);
      forall j :: 0 <= j < |rows| ==> rows[j].time <= ceiling && Stands(g, rows[j])
    ensures var rows := Served(table, g.cursor); forall j :: 0 <= j < |rows| ==> rows[j].time == g.cursor
  {
    var rows := Served(table, g.cursor);
    forall j | 0 <= j < |rows|
      ensures rows[j].time == g.cursor
    {
      StaleRow(g, table, ceiling, j);
    }
  }

  lemma ServedAllAt(table: seq<Item>, since: U64)
    requires Ascending(table) && |Served(table, since)| >= PAGE_LIMIT
    requires var rows := Served(table, since); forall j :: 0 <= j < |rows| ==> rows[j].time == since
    ensures AllAt(table, Below(table, since), since)
  {
    var k := Below(table, since);
    forall i | k <= i < k + PAGE_LIMIT
      ensures i < |table| && table[i].time == since
    {
      ServedRow(table, since, i - k);
    }
  }

  lemma StalePage(g: Gathered, table: seq<Item>, from: U64, ceiling: U64)
    requires Ascending(table) && Distinct(table) && Drawn(g.items, table, from) && Honest(g, from, ceiling)
    requires var rows := Served(table, g.cursor); forall j :: 0 <= j < |rows| ==> rows[j].time <= ceiling
    requires TakePage(g, Served(table, g.cursor), ceiling).items == g.items
    requires |Served(table, g.cursor)| >= PAGE_LIMIT
    ensures AllAt(table, Below(table, g.cursor), TakePage(g, Served(table, g.cursor), ceiling).cursor)
  {
    var rows := Served(table, g.cursor);
    forall j | 0 <= j < |rows|
      ensures Stands(g, rows[j])
    {
      RowStands(g, table, from, ceiling, j);
    }
    StaleTimes(g, table, ceiling);
    ServedAllAt(table, g.cursor);
    if TakePage(g, rows, ceiling).cursor != g.cursor {
      var j := CursorRow(g, rows, ceiling);
    }
  }

  /** A full page with no new row: its rows all stand on the cursor, or the table
      has nothing left below the ceiling. */
  lemma WallPage(g: Gathered, table: seq<Item>, from: U64, ceiling: U64)
    requires Ascending(table) && Distinct(table)
    requires Good(g.items, g.cursor, false, table, from, ceiling) && Honest(g, from, ceiling)
    requires |Served(table, g.cursor)| >= PAGE_LIMIT
    requires TakePage(g, Served(table, g.cursor), ceiling).items == g.items
    ensures var n := TakePage(g, Served(table, g.cursor), ceiling);
      Covers(n.items, table, from, U64_MAX + 1, ceiling) || Cluster(table, n.cursor)
  {
    var rows := Served(table, g.cursor);
    if j :| 0 <= j < |rows| && rows[j].time > ceiling {
      PastTheCeiling(g, table, from, ceiling, j);
    } else {
      StalePage(g, table, from, ceiling);
    }
  }

  lemma {:induction false} WallOn(server: Server, table: seq<Item>, g: Gathered, pages: nat, from: U64, ceiling: U64)
    requires Serves(server, table) && Distinct(table)
    requires Good(g.items, g.cursor, false, table, from, ceiling) && Honest(g, from, ceiling)
    requires Walk(server, g, pages, ceiling).error == Some(PageWall)
    ensures var o := Walk(server, g, pages, ceiling);
      Covers(o.items, table, from, U64_MAX + 1, ceiling) || Cluster(table, o.cursor)
    decreases PAGE_BUDGET - pages
  {
    var rows := Served(table, g.cursor);
    var next := TakePage(g, rows, ceiling);
    assert server(pages, g.cursor) == Page(rows);
    PageCovers(g, table, from, ceiling);
    PageKeepsHonest(g, rows, from, ceiling);
    if next.items == g.items {
      WallPage(g, table, from, ceiling);
    } else {
      WallOn(server, table, next, pages + 1, from, ceiling);
    }
  }

  /** **What a wall means.** A walk of a table with distinct ids stops at a wall only
      where at least 50 rows share the cursor's block time, or when nothing up to
      the ceiling is missing (the rest of the page being dated past it). */
  lemma WallMeansCluster(server: Server, table: seq<Item>, start: U64, now: U64)
    requires Serves(server, table) && Distinct(table)
    requires WalkFrom(server, start, now).error == Some(PageWall)
    ensures var o := WalkFrom(server, start, now);
      Covers(o.items, table, start, U64_MAX + 1, Ceiling(now)) || Cluster(table, o.cursor)
  {
    WallOn(server, table, Gathered([], start), 0, start, Ceiling(now));
  }

  lemma {:induction false} FutureRowsTakeNothing(g: Gathered, rows: seq<Item>, ceiling: U64)
    requires forall i :: 0 <= i < |rows| ==> rows[i].time > ceiling
    ensures TakePage(g, rows, ceiling) == g
  {
    if rows != [] {
      FutureRowsTakeNothing(g, rows[..|rows| - 1], ceiling);
    }
  }

  /** **A wall with nothing missing.** A table whose rows from the start on fill a page
      and are all dated past the ceiling stops the walk at a wall, reported
      incomplete, though every row the ceiling lets in has been gathered. */
  lemma FutureWall(server: Server, table: seq<Item>, start: U64, now: U64)
    requires Serves(server, table) && server(0, start).Page?
    requires var rows := Served(table, start);
      |rows| >= PAGE_LIMIT && forall i :: 0 <= i < |rows| ==> rows[i].time > Ceiling(now)
    ensures var o := WalkFrom(server, start, now);
      o.error == Some(PageWall) && !o.complete && o.items == [] && Covers(o.items, table, start, U64_MAX + 1, Ceiling(now))
  {
    var g := Gathered([], start);
    var rows := Served(table, start);
    assert server(0, start) == Page(rows);
    FutureRowsTakeNothing(g, rows, Ceiling(now));
    assert WalkFrom(server, start, now) == WalkOutcome([], start, false, 1, Some(PageWall));
    FirstIsPast(table, start, Ceiling(now));
  }

  lemma FirstIsPast(table: seq<Item>, start: U64, ceiling: U64)
    requires Ascending(table) && Served(table, start) != [] && Served(table, start)[0].time > ceiling
    ensures Covers([], table, start, U64_MAX + 1, ceiling)
  {
    var k := Below(table, start);
    assert Served(table, start)[0] == table[k];
    forall i | 0 <= i < |table| && start <= table[i].time
      ensures table[i].time > ceiling
    {
      assert i >= k;
    }
  }

  // ---- the lanes and their floor ----

  function StartOf(floor: U64, cursor: Option<U64>): (r: U64)
    ensures r >= floor
  {
    Max(if cursor.Some? then cursor.value else 0, floor)
  }

  class FillCursors {
    var handshakes: map<string, U64>
    var comms: map<string, U64>
    var stash: map<string, U64>
    var floor_unix_ms: U64

    constructor ()
      ensures handshakes == map[] && comms == map[] && stash == map[] && floor_unix_ms == 0
    {
      handshakes, comms, stash, floor_unix_ms := map[], map[], map[], 0;
    }

    /** A lane's own cursor, never below the floor; a missing key starts at the floor. */
    function StartAt(lane: map<string, U64>, key: string): (r: U64)
      reads this
      ensures r >= floor_unix_ms && (key in lane ==> r >= lane[key])
      ensures r == floor_unix_ms || (key in lane && r == lane[key])
    {
      StartOf(floor_unix_ms, if key in lane then Some(lane[key]) else None)
    }

    method RaiseFloor(now: U64) returns (r: U64)
      modifies `floor_unix_ms
      ensures r == floor_unix_ms == Max(old(floor_unix_ms), now)
      ensures forall lane, key :: StartAt(lane, key) >= now && StartAt(lane, key) >= old(StartAt(lane, key))
    {
      floor_unix_ms := Max(floor_unix_ms, now);
      r := floor_unix_ms;
    }
  }

  /** One lane: its cursor, the floor over it, what it has kept since the last erase,
      and the block time it owes every row from. */
  datatype Lane = Lane(floor: U64, cursor: Option<U64>, owed: U64, kept: seq<Item>)

  /** A walk whose rows `refuses` cannot fold now, or an erase. */
  datatype Visit = Run(server: Server, now: U64, refuses: Item -> bool) | Erase(now: U64)

  function Kept(items: seq<Item>, refuses: Item -> bool): (r: seq<Item>)
    ensures forall i :: 0 <= i < |items| && !refuses(items[i]) ==> items[i] in r
    ensures forall i :: 0 <= i < |r| ==> r[i] in items
  {
    if items == [] then []
    else
      var rest := Kept(items[1..], refuses);
      if refuses(items[0]) then rest else [items[0]] + rest
  }

  /** The resume point: never past the lowest row held back. */
  function ResumeFrom(items: seq<Item>, refuses: Item -> bool, cursor: U64): (r: U64)
    ensures r <= cursor && forall i :: 0 <= i < |items| && refuses(items[i]) ==> r <= items[i].time
    ensures (forall i :: 0 <= i < |items| ==> !refuses(items[i])) ==> r == cursor
  {
    if items == [] then cursor
    else
      var rest := ResumeFrom(items[1..], refuses, cursor);
      if refuses(items[0]) && items[0].time < rest then items[0].time else rest
  }

  function After(l: Lane, v: Visit): Lane {
    match v
    case Erase(now) =>
      var floor := Max(l.floor, now);
      Lane(floor, l.cursor, StartOf(floor, l.cursor), [])
    case Run(server, now, refuses) =>
      var o := WalkFrom(server, StartOf(l.floor, l.cursor), now);
      Lane(l.floor, Some(ResumeFrom(o.items, refuses, o.cursor)), l.owed, l.kept + Kept(o.items, refuses))
  }

  function AfterAll(l: Lane, vs: seq<Visit>): Lane {
    if vs == [] then l else After(AfterAll(l, vs[..|vs| - 1]), vs[|vs| - 1])
  }

  ghost predicate LaneOk(l: Lane, table: seq<Item>) {
    && l.owed >= l.floor
    && (forall i :: 0 <= i < |l.kept| ==> l.kept[i] in table && l.kept[i].time >= l.floor)
    && (forall i :: 0 <= i < |table| && l.owed <= table[i].time < StartOf(l.floor, l.cursor) ==> table[i] in l.kept)
  }

  ghost predicate Faithful(v: Visit, table: seq<Item>) {
    v.Run? ==> Serves(v.server, table)
  }

  /** A row the walk holds, not refused and of a distinct id, is kept itself. */
  lemma HeldIsKept(items: seq<Item>, table: seq<Item>, refuses: Item -> bool, from: U64, i: nat)
    requires Distinct(table) && Drawn(items, table, from) && i < |table|
    requires Has(items, table[i].txid) && !refuses(table[i])
    ensures table[i] in Kept(items, refuses)
  {
    var m :| 0 <= m < |items| && items[m].txid == table[i].txid;
    var h :| 0 <= h < |table| && table[h] == items[m];
    assert h == i;
  }

  lemma RunKeepsLane(l: Lane, v: Visit, table: seq<Item>)
    requires Distinct(table) && LaneOk(l, table) && v.Run? && Serves(v.server, table)
    ensures LaneOk(After(l, v), table)
  {
    var start := StartOf(l.floor, l.cursor);
    var o := WalkFrom(v.server, start, v.now);
    var l' := After(l, v);
    WalkCovers(v.server, table, start, v.now);
    forall i | 0 <= i < |table| && l'.owed <= table[i].time < StartOf(l'.floor, l'.cursor)
      ensures table[i] in l'.kept
    {
      if table[i].time >= start {
        assert Has(o.items, table[i].txid);
        assert !v.refuses(table[i]) by {
          NotHeld(o.items, table, v.refuses, o.cursor, start, i);
        }
        HeldIsKept(o.items, table, v.refuses, start, i);
      }
    }
  }

  lemma NotHeld(items: seq<Item>, table: seq<Item>, refuses: Item -> bool, cursor: U64, from: U64, i: nat)
    requires Distinct(table) && Drawn(items, table, from) && i < |table| && Has(items, table[i].txid)
    requires table[i].time < ResumeFrom(items, refuses, cursor)
    ensures !refuses(table[i])
  {
    var m :| 0 <= m < |items| && items[m].txid == table[i].txid;
    var h :| 0 <= h < |table| && table[h] == items[m];
    assert h == i;
  }

  /** **Resuming loses nothing, erasing gives nothing back.** Over every sequence of
      walks (any of them stopped by an error, a wall or the budget, any rows held
      back) and erases on one table: every row from where the lane owes up to where
      it will next start is kept, and nothing kept lies below the floor. */
  lemma {:induction false} ResumingLosesNothing(l: Lane, vs: seq<Visit>, table: seq<Item>)
    requires Distinct(table) && LaneOk(l, table) && forall i :: 0 <= i < |vs| ==> Faithful(vs[i], table)
    ensures LaneOk(AfterAll(l, vs), table) && AfterAll(l, vs).floor >= l.floor
  {
    if vs != [] {
      var front := vs[..|vs| - 1];
      ResumingLosesNothing(l, front, table);
      var v := vs[|vs| - 1];
      if v.Run? {
        RunKeepsLane(AfterAll(l, front), v, table);
      }
    }
  }

  /** A complete walk with nothing held back settles the lane up to its ceiling. */
  lemma CompleteSettles(l: Lane, v: Visit, table: seq<Item>)
    requires Distinct(table) && LaneOk(l, table) && v.Run? && Serves(v.server, table)
    requires var o := WalkFrom(v.server, StartOf(l.floor, l.cursor), v.now);
      o.complete && forall i :: 0 <= i < |o.items| ==> !v.refuses(o.items[i])
    ensures forall i :: 0 <= i < |table| && l.owed <= table[i].time <= Ceiling(v.now) ==> table[i] in After(l, v).kept
  {
    var start := StartOf(l.floor, l.cursor);
    var o := WalkFrom(v.server, start, v.now);
    WalkCovers(v.server, table, start, v.now);
    forall i | 0 <= i < |table| && l.owed <= table[i].time <= Ceiling(v.now)
      ensures table[i] in After(l, v).kept
    {
      if table[i].time >= start {
        var m :| 0 <= m < |o.items| && o.items[m].txid == table[i].txid;
        var h :| 0 <= h < |table| && table[h] == o.items[m];
        assert h == i;
      }
    }
  }
}

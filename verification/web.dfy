/**
 * ItchClaim/web.py: the static site. Games are ordered by their last sale, newest first, then by
 * name; the active and upcoming lists are filtered from that order; each listed game becomes a
 * table row; and the three JSON exports are the `serialize_min` records of the lists.
 *
 * The `claimable` property of a game whose memo is unset fetches the game's page; `buyRow`
 * gives, for each game id, the buy row that page shows, always a readable one.
 */
module Web {
  import opened Sales
  import opened Games
  import Seqs
  import Sorting
  import Text
  import Feed

  /** `sales[-1].id`, the first part of the sort key; the site is only built from games with a sale. */
  function LastSaleId(g: ItchGame): int {
    if g.sales == [] then 0 else g.sales[|g.sales| - 1].id
  }

  /** The key `(-1 * sales[-1].id, name)` compared as Python compares tuples: later sale first, then by name. */
  predicate GameBefore(a: ItchGame, b: ItchGame) {
    LastSaleId(a) > LastSaleId(b) || (LastSaleId(a) == LastSaleId(b) && Text.LexLess(a.name, b.name))
  }

  lemma GameBeforeIsStrictOrder()
    ensures Sorting.StrictOrder(GameBefore)
  {
    forall g: ItchGame ensures !GameBefore(g, g) {
      Text.LexLessIrreflexive(g.name);
    }
    forall a: ItchGame, b: ItchGame, c: ItchGame | GameBefore(a, b) && GameBefore(b, c)
      ensures GameBefore(a, c)
    {
      if LastSaleId(a) == LastSaleId(b) == LastSaleId(c) {
        Text.LexLessTransitive(a.name, b.name, c.name);
      }
    }
  }

  /** `games.sort(key=lambda a: (-1*a.sales[-1].id, a.name))`. */
  function ByLastSale(games: seq<ItchGame>): seq<ItchGame> {
    Sorting.SortBy(games, GameBefore)
  }

  /**
   * The sorted list holds the same games, the later last sale first, and games whose last sales
   * share an id in name order.
   */
  lemma ByLastSaleOrder(games: seq<ItchGame>)
    ensures var s := ByLastSale(games);
      multiset(s) == multiset(games) &&
      forall i, j :: 0 <= i < j < |s| ==>
        LastSaleId(s[i]) >= LastSaleId(s[j]) &&
        (LastSaleId(s[i]) == LastSaleId(s[j]) ==> !Text.LexLess(s[j].name, s[i].name))
  {
    GameBeforeIsStrictOrder();
    Sorting.SortBySorted(games, GameBefore);
  }

  /** Which of the two tables a row is for: `generate_rows`' `type` argument. */
  datatype Table = ActiveTable | UpcomingTable

  /**
   * The filter of a table: `game.active_sale` for the active table, `game.last_upcoming_sale`
   * for the upcoming one (a window is always truthy, `None` never is).
   */
  predicate OnTable(table: Table, now: Micros, g: ItchGame) {
    match table
    case ActiveTable => ActiveSale(g.sales, now).Some?
    case UpcomingTable => |g.sales| > 0 && LastUpcomingSale(g.sales, now).Some?
  }

  /** `list(filter(..., games))` for a table. */
  function TableGames(sorted: seq<ItchGame>, table: Table, now: Micros): seq<ItchGame> {
    Seqs.Filter(sorted, g => OnTable(table, now, g))
  }

  /**
   * A table holds exactly the games with the table's sale, in the order of the sorted list it
   * is filtered from, and stays sorted.
   */
  lemma TableGamesSpec(games: seq<ItchGame>, table: Table, now: Micros)
    ensures var sorted := ByLastSale(games);
      var t := TableGames(sorted, table, now);
      Seqs.IsSubsequence(t, sorted) &&
      Sorting.SortedBy(t, GameBefore) &&
      forall g :: g in t <==> g in games && OnTable(table, now, g)
  {
    var sorted := ByLastSale(games);
    GameBeforeIsStrictOrder();
    Sorting.SortBySorted(games, GameBefore);
    Seqs.FilterIsSubsequence(sorted, g => OnTable(table, now, g));
    Sorting.FilterKeepsSorted(sorted, g => OnTable(table, now, g), GameBefore);
    forall g ensures g in sorted <==> g in games {
      assert g in sorted <==> g in multiset(sorted);
    }
  }

  /** The cell of a row that says whether the game is claimable: its title text and icon. */
  datatype Label = Label(text: string, icon: string)

  /** `False` reads "Not claimable", `True` "claimable", anything else "Unknown": one label per value. */
  function ClaimableLabel(t: Tri): (l: Label)
    ensures l.text == "Not claimable" <==> t == No
    ensures l.text == "claimable" <==> t == Yes
    ensures l.text == "Unknown" <==> t == Unknown
  {
    match t
    case No => Label("Not claimable", "&#x274C;")
    case Yes => Label("claimable", "&#x2714;")
    case Unknown => Label("Unknown", "&#x1F551;")
  }

  /**
   * The date a row shows: the end of the active sale, which is the earliest end among the active
   * windows, or the start of the last upcoming sale, which no window starts after.
   */
  function SaleDate(g: ItchGame, table: Table, now: Micros): (d: Micros)
    requires OnTable(table, now, g)
    ensures table == ActiveTable ==>
      (exists w :: w in g.sales && IsActive(w, now) && w.end == d) &&
      forall w :: w in g.sales && IsActive(w, now) ==> d <= w.end
    ensures table == UpcomingTable ==>
      (exists w :: w in g.sales && IsUpcoming(w, now) && w.start == d) &&
      forall w :: w in g.sales ==> w.start <= d
  {
    match table
    case ActiveTable =>
      ActiveSaleSpec(g.sales, now);
      ActiveSale(g.sales, now).value.end
    case UpcomingTable =>
      LastUpcomingSale(g.sales, now).value.start
  }

  const FirstSaleIcon: string := "&#x1F947;"

  /** One table row: the values `ROW_TEMPLATE` is filled with (the date before formatting). */
  datatype Row = Row(name: string, saleDate: Micros, firstSale: string, claimable: Label, url: string, id: int)

  /** The row `generate_rows` builds for a game, `claimable` being the value the property reads. */
  function RowFor(g: ItchGame, table: Table, buyRow: int -> Feed.ReadableRow, now: Micros): (r: Row)
    requires OnTable(table, now, g)
    ensures r.name == g.name && r.url == g.url && r.id == g.id
    ensures r.firstSale != "" <==> IsFirstSale(g)
    ensures r.claimable == ClaimableLabel(ClaimableOf(g, buyRow(g.id), now))
    ensures r.saleDate == SaleDate(g, table, now)
  {
    Row(g.name, SaleDate(g, table, now), if IsFirstSale(g) then FirstSaleIcon else "",
      ClaimableLabel(ClaimableOf(g, buyRow(g.id), now)), g.url, g.id)
  }

  /** The rows of a table, one per game in order. */
  function Rows(games: seq<ItchGame>, table: Table, buyRow: int -> Feed.ReadableRow, now: Micros): (rows: seq<Row>)
    requires forall g :: g in games ==> OnTable(table, now, g)
    ensures |rows| == |games|
    ensures forall i :: 0 <= i < |games| ==> rows[i] == RowFor(games[i], table, buyRow, now)
  {
    if games == [] then []
    else [RowFor(games[0], table, buyRow, now)] + Rows(games[1..], table, buyRow, now)
  }

  /** `generate_rows(games, type)`: one row appended per game. */
  method GenerateRows(games: seq<ItchGame>, table: Table, buyRow: int -> Feed.ReadableRow, now: Micros) returns (rows: seq<Row>)
    requires forall g :: g in games ==> OnTable(table, now, g)
    ensures rows == Rows(games, table, buyRow, now)
  {
    rows := [];
    for i := 0 to |games|
      invariant |rows| == i
      invariant forall k :: 0 <= k < i ==> rows[k] == RowFor(games[k], table, buyRow, now)
    {
      rows := rows + [RowFor(games[i], table, buyRow, now)];
    }
  }

  /** `[game.serialize_min() for game in games]`. */
  function MinList(games: seq<ItchGame>, buyRow: int -> Feed.ReadableRow, now: Micros): (r: seq<MinGame>)
    ensures |r| == |games|
    ensures forall i :: 0 <= i < |games| ==>
      r[i] == SerializeMin(games[i], ClaimableOf(games[i], buyRow(games[i].id), now))
  {
    if games == [] then []
    else [SerializeMin(games[0], ClaimableOf(games[0], buyRow(games[0].id), now))] + MinList(games[1..], buyRow, now)
  }

  /** What `generate_web` writes: the two tables of `index.html` and the three JSON exports. */
  datatype Site = Site(
    activeRows: seq<Row>,
    upcomingRows: seq<Row>,
    activeJson: seq<MinGame>,
    upcomingJson: seq<MinGame>,
    allJson: seq<MinGame>)

  /** The site built from the sorted list. */
  function SiteOf(sorted: seq<ItchGame>, buyRow: int -> Feed.ReadableRow, now: Micros): Site {
    var active := TableGames(sorted, ActiveTable, now);
    var upcoming := TableGames(sorted, UpcomingTable, now);
    Site(Rows(active, ActiveTable, buyRow, now), Rows(upcoming, UpcomingTable, buyRow, now),
      MinList(active, buyRow, now), MinList(upcoming, buyRow, now), MinList(sorted, buyRow, now))
  }

  /**
   * `generate_web(games)`: the list is sorted (the source sorts the caller's list in place; here
   * the sorted list is returned), then the tables and exports are built from it.
   */
  method GenerateWeb(games: seq<ItchGame>, buyRow: int -> Feed.ReadableRow, now: Micros) returns (sorted: seq<ItchGame>, site: Site)
    requires forall g :: g in games ==> |g.sales| > 0
    ensures sorted == ByLastSale(games)
    ensures site == SiteOf(sorted, buyRow, now)
  {
    sorted := ByLastSale(games);
    var active := TableGames(sorted, ActiveTable, now);
    var activeRows := GenerateRows(active, ActiveTable, buyRow, now);
    var upcoming := TableGames(sorted, UpcomingTable, now);
    var upcomingRows := GenerateRows(upcoming, UpcomingTable, buyRow, now);
    site := Site(activeRows, upcomingRows, MinList(active, buyRow, now), MinList(upcoming, buyRow, now),
      MinList(sorted, buyRow, now));
  }
}

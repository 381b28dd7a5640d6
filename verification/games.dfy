/**
 * ItchClaim/ItchGame.py: a game, the sale windows it has been seen in, and the decisions read
 * off them (the active sale, the last upcoming sale, the tri-state `claimable`), with the cache
 * record it is saved as.
 */
module Games {
  import opened Wrappers
  import opened Sales
  import Feed
  import Text

  /** Python's `True`, `False` and `None` as values of `claimable`. */
  datatype Tri = Yes | No | Unknown

  /**
   * An `ItchGame`. `claimable` is the memo of the cached property: `None` until it is evaluated
   * or assigned.
   */
  datatype ItchGame = ItchGame(
    id: int,
    name: string,
    url: string,
    price: Option<real>,
    sales: seq<SaleWindow>,
    coverImage: Option<string>,
    claimable: Option<Tri>)

  /** The JSON document `save_to_disk` writes as `{id}.json`. */
  datatype StoredGame = StoredGame(
    id: int,
    name: string,
    url: string,
    price: Option<real>,
    claimable: Tri,
    sales: seq<SaleDict>,
    coverImage: Option<string>)

  /** `serialize_min`'s dictionary. */
  datatype MinGame = MinGame(id: int, name: string, url: string, claimable: Tri, sales: seq<SaleDict>)

  /** The fields of the `data.json` detail record that `from_api` reads. */
  datatype ApiDetail = ApiDetail(id: int, price: real, title: string, coverImage: Option<string>, saleRate: Option<int>)

  /**
   * `active_sale`: of the active windows, the one ending first (the first such in list order,
   * as Python's `min` keeps), or `None` when no window is active.
   */
  function ActiveSale(sales: seq<SaleWindow>, now: Micros): Option<SaleWindow> {
    if sales == [] then None
    else
      var rest := ActiveSale(sales[1..], now);
      if IsActive(sales[0], now) && (rest.None? || sales[0].end <= rest.value.end) then Some(sales[0])
      else rest
  }

  /** `None` exactly when no window is active; otherwise an active window that ends no later than any other. */
  lemma {:induction false} ActiveSaleSpec(sales: seq<SaleWindow>, now: Micros)
    ensures var r := ActiveSale(sales, now);
      (r.None? <==> forall w :: w in sales ==> !IsActive(w, now)) &&
      (r.Some? ==> r.value in sales && IsActive(r.value, now)) &&
      (r.Some? ==> forall w :: w in sales && IsActive(w, now) ==> r.value.end <= w.end)
  {
    if sales != [] {
      ActiveSaleSpec(sales[1..], now);
      assert forall w :: w in sales ==> w == sales[0] || w in sales[1..];
    }
  }

  /** Ties go to the earliest window in list order, as Python's `min` keeps the first minimal element. */
  lemma {:induction false} ActiveSaleIsFirstMinimal(sales: seq<SaleWindow>, now: Micros)
    requires ActiveSale(sales, now).Some?
    ensures exists k :: (0 <= k < |sales| && sales[k] == ActiveSale(sales, now).value &&
      forall j :: 0 <= j < k && IsActive(sales[j], now) ==> sales[j].end > sales[k].end)
  {
    var r := ActiveSale(sales, now).value;
    var rest := ActiveSale(sales[1..], now);
    ActiveSaleSpec(sales, now);
    if IsActive(sales[0], now) && (rest.None? || sales[0].end <= rest.value.end) {
      assert sales[0] == r;
    } else {
      ActiveSaleIsFirstMinimal(sales[1..], now);
      var k :| 0 <= k < |sales[1..]| && sales[1..][k] == r &&
        forall j :: 0 <= j < k && IsActive(sales[1..][j], now) ==> sales[1..][j].end > sales[1..][k].end;
      assert sales[k + 1] == r;
      assert forall j :: 1 <= j < k + 1 ==> sales[j] == sales[1..][j - 1];
    }
  }

  /** The window with the latest start, the first such in list order as Python's `max` keeps. */
  function MaxByStart(sales: seq<SaleWindow>): (r: SaleWindow)
    requires |sales| > 0
    ensures r in sales
    ensures forall w :: w in sales ==> w.start <= r.start
    ensures exists k :: 0 <= k < |sales| && sales[k] == r && forall j :: 0 <= j < k ==> sales[j].start < r.start
  {
    if |sales| == 1 then sales[0]
    else
      var m := MaxByStart(sales[1..]);
      assert forall w :: w in sales ==> w == sales[0] || w in sales[1..];
      if sales[0].start >= m.start then sales[0]
      else
        var k :| 0 <= k < |sales[1..]| && sales[1..][k] == m && forall j :: 0 <= j < k ==> sales[1..][j].start < m.start;
        assert sales[k + 1] == m;
        m
  }

  /**
   * `last_upcoming_sale`: the window with the latest start when it is upcoming. It is `None`
   * exactly when no window is upcoming.
   */
  function LastUpcomingSale(sales: seq<SaleWindow>, now: Micros): (r: Option<SaleWindow>)
    requires |sales| > 0
    ensures r.None? <==> forall w :: w in sales ==> !IsUpcoming(w, now)
    ensures r.Some? ==> r.value in sales && IsUpcoming(r.value, now)
    ensures r.Some? ==> forall w :: w in sales ==> w.start <= r.value.start
  {
    var last := MaxByStart(sales);
    if IsUpcoming(last, now) then Some(last) else None
  }

  /** `is_first_sale`. */
  predicate IsFirstSale(g: ItchGame) {
    |g.sales| == 1
  }

  const BuyNow: string := "Buy Now"
  const DownloadOrClaim: string := "Download or claim"

  /**
   * The body of the `claimable` property, given the active sale and the game page's buy row:
   * unknown without an active sale or when the button says "Buy Now", false without a buy row,
   * otherwise whether the button reads exactly "Download or claim".
   */
  function ClaimableDecision(active: Option<SaleWindow>, row: Feed.ReadableRow): (r: Tri)
    ensures active.None? ==> r == Unknown
    ensures active.Some? && row.NoBuyRow? ==> r == No
    ensures r == Yes <==> active.Some? && row.BuyButton? && row.text == DownloadOrClaim
    ensures r == Unknown <==> active.None? || (row.BuyButton? && Text.Contains(row.text, BuyNow))
  {
    Text.NotContainedWithoutFirstChar(DownloadOrClaim, BuyNow);
    if active.None? then Unknown
    else
      match row
      case NoBuyRow => No
      case BuyButton(text) =>
        if Text.Contains(text, BuyNow) then Unknown
        else if text == DownloadOrClaim then Yes
        else No
  }

  /** Reading `game.claimable`: the memo when set, otherwise the property evaluated now. */
  function ClaimableOf(g: ItchGame, row: Feed.ReadableRow, now: Micros): (r: Tri)
    ensures g.claimable.Some? ==> r == g.claimable.value
    ensures g.claimable.None? && ActiveSale(g.sales, now).None? ==> r == Unknown
    ensures g.claimable.None? ==> r == ClaimableDecision(ActiveSale(g.sales, now), row)
  {
    match g.claimable
    case Some(t) => t
    case None => ClaimableDecision(ActiveSale(g.sales, now), row)
  }

  /** The start of `from_api`: one trailing `/` removed, nothing else touched. */
  function TrimTrailingSlash(url: string): (r: string)
    requires |url| > 0
    ensures url[|url| - 1] == '/' ==> r + "/" == url
    ensures url[|url| - 1] != '/' ==> r == url
  {
    if url[|url| - 1] == '/' then url[..|url| - 1] else url
  }

  /**
   * `from_api`: a game built from its `data.json` record. Its `sales` is empty unless the record
   * has a sale at rate 100; then it holds the window `ItchSale(game_id)` resolves to, looked up
   * by the GAME id. `None` stands for raising: on an empty URL (`url[-1]`) or in the lookup.
   */
  function FromApi(url: string, detail: ApiDetail, salePage: Feed.SalePage): (r: Option<ItchGame>)
    ensures r.Some? ==> |url| > 0 && r.value.id == detail.id && r.value.url == TrimTrailingSlash(url)
    ensures r.Some? ==> r.value.price == Some(detail.price) && r.value.name == detail.title
    ensures r.Some? ==> |r.value.sales| <= 1
    ensures r.Some? && |r.value.sales| == 1 ==> detail.saleRate == Some(100) && r.value.sales[0].id == detail.id
    ensures |url| > 0 && detail.saleRate != Some(100) ==> r.Some? && r.value.sales == []
    ensures r.Some? && detail.saleRate == Some(100) ==>
      match NewSale(detail.id, None, None, salePage)
      case Resolved(w) => r.value.sales == [w]
      case _ => r.value.sales == []
    ensures r.None? <==> |url| == 0 || (detail.saleRate == Some(100) && NewSale(detail.id, None, None, salePage).Raised?)
  {
    if |url| == 0 then None
    else
      var game := ItchGame(detail.id, detail.title, TrimTrailingSlash(url), Some(detail.price), [], detail.coverImage, None);
      if detail.saleRate == Some(100) then
        match NewSale(detail.id, None, None, salePage)
        case Resolved(w) => Some(game.(sales := [w]))
        case Unresolved(_, _) => Some(game)
        case Raised => None
      else Some(game)
  }

  /** `os.path.join(a, b)` for a relative `b`. */
  function PathJoin(a: string, b: string): (r: string)
    ensures r == a + b || r == a + "/" + b
    ensures a == [] ==> r == b
    ensures a != [] ==> (r == a + "/" + b <==> a[|a| - 1] != '/')
  {
    if a == [] || a[|a| - 1] == '/' then a + b else a + "/" + b
  }

  /** `get_default_game_filename`: `{id}.json` inside the games directory. */
  function GameFileName(gamesDir: string, id: int): (r: string)
    ensures |r| >= |gamesDir| && r[..|gamesDir|] == gamesDir
    ensures var name := Text.IntToString(id) + ".json"; |r| >= |name| && r[|r| - |name|..] == name
  {
    PathJoin(gamesDir, Text.IntToString(id) + ".json")
  }

  /** One file per game: two ids never share a cache file name. */
  lemma GameFileNameInjective(gamesDir: string, a: int, b: int)
    requires GameFileName(gamesDir, a) == GameFileName(gamesDir, b)
    ensures a == b
  {
    var sa, sb := Text.IntToString(a), Text.IntToString(b);
    var ta, tb := sa + ".json", sb + ".json";
    var p := if gamesDir == [] || gamesDir[|gamesDir| - 1] == '/' then gamesDir else gamesDir + "/";
    assert GameFileName(gamesDir, a) == p + ta;
    assert GameFileName(gamesDir, b) == p + tb;
    assert ta == (p + ta)[|p|..];
    assert tb == (p + tb)[|p|..];
    assert sa == ta[..|ta| - 5] == tb[..|tb| - 5] == sb;
    Text.IntToStringInjective(a, b);
  }

  /** The document `save_to_disk` writes, `claimable` being the value the property reads now. */
  function ToStored(g: ItchGame, claimable: Tri): (r: StoredGame)
    ensures r.id == g.id && r.claimable == claimable && r.sales == SerializeList(g.sales)
  {
    StoredGame(g.id, g.name, g.url, g.price, claimable, SerializeList(g.sales), g.coverImage)
  }

  /** `load_from_disk`: the stored `claimable` is adopted only when it is not `None`. */
  function LoadFromDisk(rec: StoredGame): (g: ItchGame)
    ensures g.id == rec.id && g.name == rec.name && g.url == rec.url && g.price == rec.price
    ensures rec.claimable != Unknown ==> g.claimable == Some(rec.claimable)
    ensures rec.claimable == Unknown ==> g.claimable.None?
    ensures SerializeList(g.sales) == rec.sales
  {
    DictListRoundTrip(rec.sales);
    ItchGame(rec.id, rec.name, rec.url, rec.price, FromDictList(rec.sales), rec.coverImage,
      if rec.claimable != Unknown then Some(rec.claimable) else None)
  }

  /**
   * Saving then loading keeps a game whose windows are on whole seconds, except that a
   * `None` claimable comes back as an unevaluated memo.
   */
  lemma SaveLoadRoundTrip(g: ItchGame, claimable: Tri)
    requires forall i :: 0 <= i < |g.sales| ==> WholeSeconds(g.sales[i])
    ensures LoadFromDisk(ToStored(g, claimable)) ==
      g.(claimable := if claimable == Unknown then None else Some(claimable))
  {
    ListRoundTrip(g.sales);
  }

  /** `serialize_min`, `claimable` being the value the property reads now. */
  function SerializeMin(g: ItchGame, claimable: Tri): (m: MinGame)
    ensures m.id == g.id && m.claimable == claimable && m.sales == SerializeList(g.sales)
  {
    MinGame(g.id, g.name, g.url, claimable, SerializeList(g.sales))
  }
}

/**
 * ItchClaim/DiskManager.py: merging a fetched sale page into the per-game cache files, and
 * the resumable crawl over consecutive sale ids.
 *
 * The games directory is `SaleCache.files`, a map from game id to the document stored as
 * `{id}.json` (`Games.GameFileNameInjective` shows the file names are one per id), and
 * `SaleCache.resumeIndex` is the content of `resume_index.txt`.
 */
module DiskManager {
  import opened Wrappers
  import opened Sales
  import opened Games
  import Feed
  import Sorting

  /** Above this sale id a 404 at the requested URL ends the crawl. */
  const LastKnownSaleId: int := 90000

  /** What `get_one_sale` returns: the number of games saved, -1, or an exception. */
  datatype SaleOutcome = Saved(count: nat) | NoMoreSales | Errored

  // ---------------------------------------------------------------------------------------
  // Merging one window into a game's history
  // ---------------------------------------------------------------------------------------

  /** The key of `sales.sort(key=lambda a: a.id)`. */
  predicate IdBefore(a: SaleWindow, b: SaleWindow) {
    a.id < b.id
  }

  lemma IdBeforeIsStrictOrder()
    ensures Sorting.StrictOrder(IdBefore)
  {
  }

  ghost predicate SortedById(s: seq<SaleWindow>) {
    forall i, j :: 0 <= i < j < |s| ==> s[i].id <= s[j].id
  }

  ghost predicate UniqueIds(s: seq<SaleWindow>) {
    forall i, j :: 0 <= i < j < |s| ==> s[i].id != s[j].id
  }

  /** The index the `for i, sale in enumerate(game.sales)` search stops at, if any. */
  function FirstIndexOfId(s: seq<SaleWindow>, id: int): (r: Option<nat>)
    ensures r.None? <==> forall k :: 0 <= k < |s| ==> s[k].id != id
    ensures r.Some? ==> r.value < |s| && s[r.value].id == id && forall k :: 0 <= k < r.value ==> s[k].id != id
  {
    if s == [] then None
    else if s[0].id == id then Some(0)
    else
      match FirstIndexOfId(s[1..], id)
      case None => None
      case Some(k) => Some(k + 1)
  }

  /**
   * Force mode: the first window with the same id is replaced in place; when there is none the
   * window is appended and the list re-sorted by id.
   */
  function ForceMerge(s: seq<SaleWindow>, w: SaleWindow): (r: seq<SaleWindow>)
    ensures w in r
    ensures |r| == |s| || |r| == |s| + 1
  {
    match FirstIndexOfId(s, w.id)
    case Some(i) =>
      var r := s[i := w];
      assert r[i] == w;
      r
    case None =>
      var r := Sorting.SortBy(s + [w], IdBefore);
      Sorting.SortByPermutes(s + [w], IdBefore);
      assert w in multiset(s + [w]);
      r
  }

  /** Force mode, id present: same length, the window in place of the first match, nothing else touched. */
  lemma ForceMergeReplacesFirst(s: seq<SaleWindow>, w: SaleWindow, i: nat)
    requires i < |s| && s[i].id == w.id && forall k :: 0 <= k < i ==> s[k].id != w.id
    ensures |ForceMerge(s, w)| == |s| && ForceMerge(s, w)[i] == w
    ensures forall k :: 0 <= k < |s| && k != i ==> ForceMerge(s, w)[k] == s[k]
  {
    var j := FirstIndexOfId(s, w.id);
    assert j == Some(i);
  }

  /** Force mode, id absent: one window more, sorted by id, a permutation of the old list plus the window. */
  lemma ForceMergeInsertsSorted(s: seq<SaleWindow>, w: SaleWindow)
    requires forall k :: 0 <= k < |s| ==> s[k].id != w.id
    ensures |ForceMerge(s, w)| == |s| + 1
    ensures SortedById(ForceMerge(s, w))
    ensures multiset(ForceMerge(s, w)) == multiset(s) + multiset{w}
  {
    IdBeforeIsStrictOrder();
    Sorting.SortBySorted(s + [w], IdBefore);
    var r := ForceMerge(s, w);
    assert r == Sorting.SortBy(s + [w], IdBefore);
    assert forall i, j :: 0 <= i < j < |r| ==> !IdBefore(r[j], r[i]);
  }

  /** Merging the same window twice in force mode is the same as merging it once. */
  lemma ForceMergeIdempotent(s: seq<SaleWindow>, w: SaleWindow)
    ensures ForceMerge(ForceMerge(s, w), w) == ForceMerge(s, w)
  {
    match FirstIndexOfId(s, w.id)
    case Some(i) => ReplacedIsFound(s, w, i);
    case None => InsertedIsFound(s, w);
  }

  lemma ReplacedIsFound(s: seq<SaleWindow>, w: SaleWindow, i: nat)
    requires FirstIndexOfId(s, w.id) == Some(i)
    ensures FirstIndexOfId(ForceMerge(s, w), w.id) == Some(i) && ForceMerge(s, w)[i] == w
  {
    var r := ForceMerge(s, w);
    assert r == s[i := w];
    assert forall k :: 0 <= k < i ==> r[k] == s[k];
    var f := FirstIndexOfId(r, w.id);
    assert r[i].id == w.id;
    assert f.Some? && f.value <= i;
    assert f.value < i ==> r[f.value] == s[f.value];
  }

  lemma InsertedIsFound(s: seq<SaleWindow>, w: SaleWindow)
    requires FirstIndexOfId(s, w.id).None?
    ensures ForceMerge(ForceMerge(s, w), w) == ForceMerge(s, w)
  {
    var r := ForceMerge(s, w);
    assert r == Sorting.SortBy(s + [w], IdBefore);
    Sorting.SortByPermutes(s + [w], IdBefore);
    var f := FirstIndexOfId(r, w.id);
    assert f.Some?;
    assert r[f.value] in multiset(s + [w]);
    assert r[f.value] == w;
    assert r[f.value := w] == r;
  }

  /** Force mode only ever holds windows of the old list and the merged one. */
  lemma ForceMergeElements(s: seq<SaleWindow>, w: SaleWindow)
    ensures forall x :: x in ForceMerge(s, w) ==> x in s || x == w
  {
    match FirstIndexOfId(s, w.id)
    case Some(i) =>
    case None =>
      Sorting.SortByPermutes(s + [w], IdBefore);
      forall x | x in ForceMerge(s, w) ensures x in s || x == w {
        assert x in multiset(s + [w]);
      }
  }

  /** Force mode keeps a list sorted by id. */
  lemma ForceMergeKeepsSorted(s: seq<SaleWindow>, w: SaleWindow)
    requires SortedById(s)
    ensures SortedById(ForceMerge(s, w))
  {
    match FirstIndexOfId(s, w.id)
    case Some(i) =>
    case None => ForceMergeInsertsSorted(s, w);
  }

  lemma {:induction false} InsertKeepsUniqueIds(x: SaleWindow, u: seq<SaleWindow>)
    requires UniqueIds(u) && forall y :: y in u ==> y.id != x.id
    ensures UniqueIds(Sorting.Insert(x, u, IdBefore))
  {
    if u != [] && !IdBefore(x, u[0]) {
      InsertKeepsUniqueIds(x, u[1..]);
      var t := Sorting.Insert(x, u[1..], IdBefore);
      Sorting.InsertPermutes(x, u[1..], IdBefore);
      forall y | y in t ensures y.id != u[0].id {
        assert y in multiset(t);
        assert y == x || y in u[1..];
      }
    }
  }

  lemma {:induction false} SortKeepsUniqueIds(t: seq<SaleWindow>)
    requires UniqueIds(t)
    ensures UniqueIds(Sorting.SortBy(t, IdBefore))
  {
    if t != [] {
      var init := t[..|t| - 1];
      SortKeepsUniqueIds(init);
      var u := Sorting.SortBy(init, IdBefore);
      Sorting.SortByPermutes(init, IdBefore);
      forall y | y in u ensures y.id != t[|t| - 1].id {
        assert y in multiset(init);
      }
      InsertKeepsUniqueIds(t[|t| - 1], u);
    }
  }

  /**
   * Deduplication: on a list without repeated ids, force mode leaves exactly one window with the
   * merged id, equal to the merged window, and still no repeated ids.
   */
  lemma ForceMergeDedup(s: seq<SaleWindow>, w: SaleWindow)
    requires UniqueIds(s)
    ensures UniqueIds(ForceMerge(s, w))
    ensures forall k :: 0 <= k < |ForceMerge(s, w)| && ForceMerge(s, w)[k].id == w.id ==> ForceMerge(s, w)[k] == w
  {
    var r := ForceMerge(s, w);
    match FirstIndexOfId(s, w.id)
    case Some(i) =>
    case None =>
      SortKeepsUniqueIds(s + [w]);
      Sorting.SortByPermutes(s + [w], IdBefore);
      forall k | 0 <= k < |r| && r[k].id == w.id ensures r[k] == w {
        assert r[k] in multiset(s + [w]);
      }
  }

  /**
   * Force mode cannot repair a history that is already dirty: a repeated id and a descending
   * pair, neither at the replaced position, are both left in place.
   */
  lemma ForceMergeCannotRepair()
    ensures var w := SaleWindow(5, 1, 20);
      !UniqueIds(ForceMerge([SaleWindow(5, 0, 10), SaleWindow(5, 0, 10)], w)) &&
      !SortedById(ForceMerge([SaleWindow(1, 0, 10), SaleWindow(5, 0, 10), SaleWindow(3, 0, 10)], w))
  {
    var w := SaleWindow(5, 1, 20);
    var d := [SaleWindow(5, 0, 10), SaleWindow(5, 0, 10)];
    assert FirstIndexOfId(d, 5) == Some(0);
    assert ForceMerge(d, w)[1].id == 5 == ForceMerge(d, w)[0].id;
    var u := [SaleWindow(1, 0, 10), SaleWindow(5, 0, 10), SaleWindow(3, 0, 10)];
    assert FirstIndexOfId(u, 5) == Some(1);
    assert ForceMerge(u, w)[1].id == 5 && ForceMerge(u, w)[2].id == 3;
  }

  // ---------------------------------------------------------------------------------------
  // One sale page
  // ---------------------------------------------------------------------------------------

  /** The response that makes `get_one_sale` return -1. */
  predicate IsTerminal(page: int, response: Feed.SalePage) {
    response.NotFound? && response.effectiveUrl == SaleUrl(page) && page > LastKnownSaleId
  }

  /** Every cached document sits under its own id and has at least one window. */
  ghost predicate WellFormed(files: map<int, StoredGame>) {
    forall id :: id in files ==> files[id].id == id && |files[id].sales| > 0
  }

  /** The last stored window has this id (append mode's "already saved" test). */
  predicate EndsWithSale(files: map<int, StoredGame>, id: int, page: int) {
    id in files && |files[id].sales| > 0 && files[id].sales[|files[id].sales| - 1].id == page
  }

  /** The history before the merge: the stored windows, or none for a game seen for the first time. */
  function PriorHistory(files: map<int, StoredGame>, id: int): seq<SaleWindow> {
    if id in files then FromDictList(files[id].sales) else []
  }

  /** The history a saved document is built from: appended in append mode, `ForceMerge`d in force mode. */
  function MergedHistory(files: map<int, StoredGame>, w: SaleWindow, id: int, force: bool): seq<SaleWindow> {
    if force then ForceMerge(PriorHistory(files, id), w) else PriorHistory(files, id) + [w]
  }

  /** What the loop body does with one free game cell. */
  datatype CellStep = Skip | Save(rec: StoredGame) | Crash

  /**
   * One free cell: load the stored history (an empty one raises on `sales[-1]`), skip in append
   * mode when the last stored window is this sale, merge, decide `claimable`, and save. Saving
   * evaluates `claimable` while the sale is active, which raises on an unreadable buy row before
   * anything is written.
   */
  function StepCell(files: map<int, StoredGame>, w: SaleWindow, c: Feed.GameCell, force: bool, now: Micros): CellStep
  {
    if c.id in files && |files[c.id].sales| == 0 then Crash
    else if !force && EndsWithSale(files, c.id, w.id) then Skip
    else if IsActive(w, now) && c.buyRow.Unreadable? then Crash
    else
      var merged := MergedHistory(files, w, c.id, force);
      var claimable := if !IsActive(w, now) then Unknown else ClaimableDecision(ActiveSale(merged, now), c.buyRow);
      var game := ItchGame(c.id, c.name, c.url, Some(c.price), merged, c.coverImage, Some(claimable));
      Save(ToStored(game, claimable))
  }

  /**
   * A saved document sits under the cell's id with at least one window, the page's last in append
   * mode; a cell raises on an empty stored history, or when it is not skipped and an active sale
   * meets an unreadable buy row.
   */
  lemma StepCellShape(files: map<int, StoredGame>, w: SaleWindow, c: Feed.GameCell, force: bool, now: Micros)
    ensures var r := StepCell(files, w, c, force, now);
      (r.Save? ==> r.rec.id == c.id && |r.rec.sales| > 0) &&
      (r.Save? && !force ==> r.rec.sales[|r.rec.sales| - 1].id == w.id) &&
      (r.Skip? <==> !force && EndsWithSale(files, c.id, w.id)) &&
      (r.Crash? <==>
        (c.id in files && |files[c.id].sales| == 0) ||
        (!(!force && EndsWithSale(files, c.id, w.id)) && IsActive(w, now) && c.buyRow.Unreadable?))
  {
  }

  /** The state of the loop over a page's cells: documents, games saved, ids saved in order, raised. */
  datatype PageState = PageState(files: map<int, StoredGame>, count: nat, saved: seq<int>, raised: bool)

  /** The loop body applied to the current documents and one free cell. */
  type CellStepper = (map<int, StoredGame>, Feed.GameCell) -> CellStep

  /** The loop body of `get_one_sale` for the page's window. */
  function CellStepFor(w: SaleWindow, force: bool, now: Micros): CellStepper {
    (f, c) => StepCell(f, w, c, force, now)
  }

  /** The loop over the cells from an intermediate state: stop at the first paid game or an exception. */
  function ProcessCells(st: PageState, step: CellStepper, cells: seq<Feed.GameCell>): PageState
    decreases |cells|
  {
    if st.raised || cells == [] || cells[0].price != 0.0 then st
    else
      var c := cells[0];
      match step(st.files, c)
      case Crash => st.(raised := true)
      case Skip => ProcessCells(st, step, cells[1..])
      case Save(rec) => ProcessCells(PageState(st.files[c.id := rec], st.count + 1, st.saved + [c.id], false), step, cells[1..])
  }

  predicate Listed(cells: seq<Feed.GameCell>, id: int) {
    exists i :: 0 <= i < |cells| && cells[i].id == id
  }

  lemma ListedInTail(cells: seq<Feed.GameCell>, id: int)
    requires cells != [] && Listed(cells[1..], id)
    ensures Listed(cells, id)
  {
    var i :| 0 <= i < |cells| - 1 && cells[1..][i].id == id;
    assert cells[i + 1].id == id;
  }

  /** `games_num` counts exactly the documents written, which are recorded in order, all from the page. */
  lemma {:induction false} ProcessCellsCounts(st: PageState, step: CellStepper, cells: seq<Feed.GameCell>)
    ensures var r := ProcessCells(st, step, cells);
      |r.saved| >= |st.saved| && r.saved[..|st.saved|] == st.saved && r.count == st.count + |r.saved| - |st.saved|
    ensures var r := ProcessCells(st, step, cells);
      forall id :: id in r.saved ==> id in st.saved || Listed(cells, id)
    decreases |cells|
  {
    if !(st.raised || cells == [] || cells[0].price != 0.0) {
      var c := cells[0];
      match step(st.files, c)
      case Crash =>
      case Skip =>
        ProcessCellsCounts(st, step, cells[1..]);
        forall id | Listed(cells[1..], id) ensures Listed(cells, id) {
          ListedInTail(cells, id);
        }
      case Save(rec) =>
        var next := PageState(st.files[c.id := rec], st.count + 1, st.saved + [c.id], false);
        ProcessCellsCounts(next, step, cells[1..]);
        forall id | Listed(cells[1..], id) ensures Listed(cells, id) {
          ListedInTail(cells, id);
        }
        assert Listed(cells, c.id) by { assert cells[0].id == c.id; }
        var r := ProcessCells(next, step, cells[1..]);
        assert r.saved[..|st.saved|] == next.saved[..|st.saved|];
    }
  }

  /** Documents of games not saved are left as they were, no document is removed, and each saved one exists. */
  lemma {:induction false} ProcessCellsFrame(st: PageState, step: CellStepper, cells: seq<Feed.GameCell>)
    requires forall id :: id in st.saved ==> id in st.files
    ensures var r := ProcessCells(st, step, cells);
      forall id :: id in r.files <==> id in st.files || id in r.saved
    ensures var r := ProcessCells(st, step, cells);
      forall id :: id in st.files && id !in r.saved ==> id in r.files && r.files[id] == st.files[id]
    decreases |cells|
  {
    if !(st.raised || cells == [] || cells[0].price != 0.0) {
      var c := cells[0];
      match step(st.files, c)
      case Crash =>
      case Skip => ProcessCellsFrame(st, step, cells[1..]);
      case Save(rec) =>
        var next := PageState(st.files[c.id := rec], st.count + 1, st.saved + [c.id], false);
        ProcessCellsFrame(next, step, cells[1..]);
        ProcessCellsCounts(next, step, cells[1..]);
        var r := ProcessCells(next, step, cells[1..]);
        assert c.id in r.saved by { assert r.saved[|st.saved|] == c.id; }
    }
  }

  /** A step that files every saved document under its own id with a window keeps the directory well formed. */
  lemma {:induction false} ProcessCellsWellFormed(st: PageState, step: CellStepper, cells: seq<Feed.GameCell>)
    requires WellFormed(st.files)
    requires forall f, c :: step(f, c).Save? ==> step(f, c).rec.id == c.id && |step(f, c).rec.sales| > 0
    ensures WellFormed(ProcessCells(st, step, cells).files)
    decreases |cells|
  {
    if !(st.raised || cells == [] || cells[0].price != 0.0) {
      var c := cells[0];
      match step(st.files, c)
      case Crash =>
      case Skip => ProcessCellsWellFormed(st, step, cells[1..]);
      case Save(rec) =>
        ProcessCellsWellFormed(PageState(st.files[c.id := rec], st.count + 1, st.saved + [c.id], false), step, cells[1..]);
    }
  }

  /** The outcome of `get_one_sale` and the documents after it; `saved` lists the games written. */
  datatype PageResult = PageResult(files: map<int, StoredGame>, outcome: SaleOutcome, saved: seq<int>)

  /** `get_one_sale(page, force)` given the response for the sale page. */
  function GetOneSaleEffect(files: map<int, StoredGame>, page: int, force: bool, response: Feed.SalePage, now: Micros): (r: PageResult)
    ensures r.outcome == NoMoreSales <==> IsTerminal(page, response)
    ensures r.outcome == NoMoreSales ==> r.files == files && r.saved == []
  {
    match NewSale(page, None, None, response)
    case Raised => PageResult(files, Errored, [])
    case Unresolved(_, err) =>
      if err == NoMoreSalesAvailable && page > LastKnownSaleId then PageResult(files, NoMoreSales, [])
      else PageResult(files, Saved(0), [])
    case Resolved(w) =>
      if |response.cells| == 0 then PageResult(files, Saved(0), [])
      else
        var st := ProcessCells(PageState(files, 0, [], false), CellStepFor(w, force, now), response.cells);
        PageResult(st.files, if st.raised then Errored else Saved(st.count), st.saved)
  }

  /**
   * `get_one_sale` returns the number of documents it wrote, writes only documents of games on
   * the page, leaves every other document as it was, and keeps the directory well formed.
   */
  lemma GetOneSaleEffectFrame(files: map<int, StoredGame>, page: int, force: bool, response: Feed.SalePage, now: Micros)
    ensures var r := GetOneSaleEffect(files, page, force, response, now);
      (r.outcome.Saved? ==> r.outcome.count == |r.saved|) &&
      (forall id :: id in files && id !in r.saved ==> id in r.files && r.files[id] == files[id]) &&
      (forall id :: id in r.files <==> id in files || id in r.saved) &&
      (forall id :: id in r.saved ==> response.Found? && Listed(response.cells, id)) &&
      (WellFormed(files) ==> WellFormed(r.files))
  {
    match NewSale(page, None, None, response)
    case Raised =>
    case Unresolved(_, _) =>
    case Resolved(w) =>
      if |response.cells| > 0 {
        var st := PageState(files, 0, [], false);
        var step := CellStepFor(w, force, now);
        ProcessCellsCounts(st, step, response.cells);
        ProcessCellsFrame(st, step, response.cells);
        if WellFormed(files) {
          forall f, c ensures step(f, c).Save? ==> step(f, c).rec.id == c.id && |step(f, c).rec.sales| > 0 {
            StepCellShape(f, w, c, force, now);
          }
          ProcessCellsWellFormed(st, step, response.cells);
        }
      }
  }

  /** Cells after the first paid game are never looked at. */
  lemma {:induction false} ProcessCellsStopsAtPaid(st: PageState, step: CellStepper, cells: seq<Feed.GameCell>, k: nat)
    requires k < |cells| && cells[k].price != 0.0
    ensures ProcessCells(st, step, cells) == ProcessCells(st, step, cells[..k])
    decreases k
  {
    if k > 0 && !st.raised && cells[0].price == 0.0 {
      assert cells[..k][0] == cells[0];
      assert cells[..k][1..] == cells[1..][..k - 1];
      var c := cells[0];
      match step(st.files, c)
      case Crash =>
      case Skip => ProcessCellsStopsAtPaid(st, step, cells[1..], k - 1);
      case Save(rec) =>
        ProcessCellsStopsAtPaid(PageState(st.files[c.id := rec], st.count + 1, st.saved + [c.id], false), step, cells[1..], k - 1);
    }
  }

  /** A free game whose stored history already ends with this sale is skipped; a saved one ends with it. */
  ghost predicate AppendsSale(step: CellStepper, page: int) {
    forall f, c :: (step(f, c).Skip? <==> EndsWithSale(f, c.id, page)) &&
      (step(f, c).Save? ==> |step(f, c).rec.sales| > 0 && step(f, c).rec.sales[|step(f, c).rec.sales| - 1].id == page)
  }

  /** Every free game before the first paid one has a stored history ending with this sale. */
  predicate SeenUntilPaid(files: map<int, StoredGame>, cells: seq<Feed.GameCell>, page: int)
    decreases |cells|
  {
    cells == [] || cells[0].price != 0.0 || (EndsWithSale(files, cells[0].id, page) && SeenUntilPaid(files, cells[1..], page))
  }

  /** After an append-mode pass that did not raise, every free game on the page is marked with the sale. */
  lemma {:induction false} AppendPassMarksPage(st: PageState, step: CellStepper, cells: seq<Feed.GameCell>, page: int)
    requires AppendsSale(step, page) && !ProcessCells(st, step, cells).raised
    ensures SeenUntilPaid(ProcessCells(st, step, cells).files, cells, page)
    ensures forall id :: EndsWithSale(st.files, id, page) ==> EndsWithSale(ProcessCells(st, step, cells).files, id, page)
    decreases |cells|
  {
    if !(st.raised || cells == [] || cells[0].price != 0.0) {
      var c := cells[0];
      match step(st.files, c)
      case Crash =>
      case Skip => AppendPassMarksPage(st, step, cells[1..], page);
      case Save(rec) =>
        var next := PageState(st.files[c.id := rec], st.count + 1, st.saved + [c.id], false);
        assert EndsWithSale(next.files, c.id, page);
        assert forall id :: EndsWithSale(st.files, id, page) ==> EndsWithSale(next.files, id, page);
        AppendPassMarksPage(next, step, cells[1..], page);
    }
  }

  /** An append-mode pass over a page whose free games are all marked changes nothing. */
  lemma {:induction false} AppendPassOverSeenPage(st: PageState, step: CellStepper, cells: seq<Feed.GameCell>, page: int)
    requires AppendsSale(step, page) && !st.raised && SeenUntilPaid(st.files, cells, page)
    ensures ProcessCells(st, step, cells) == st
    decreases |cells|
  {
    if cells != [] && cells[0].price == 0.0 {
      assert step(st.files, cells[0]).Skip?;
      AppendPassOverSeenPage(st, step, cells[1..], page);
    }
  }

  /** The loop body in append mode has the shape `AppendsSale` asks for. */
  lemma AppendStepAppendsSale(w: SaleWindow, now: Micros)
    ensures AppendsSale(CellStepFor(w, false, now), w.id)
  {
    forall f, c {
      StepCellShape(f, w, c, false, now);
    }
  }

  /**
   * Revisiting a sale page in append mode right after a run that did not raise saves nothing and
   * changes no document: what re-running from the resume cursor relies on.
   */
  lemma AppendRevisitIsNoOp(files: map<int, StoredGame>, page: int, response: Feed.SalePage, now: Micros)
    requires GetOneSaleEffect(files, page, false, response, now).outcome.Saved?
    ensures var r := GetOneSaleEffect(files, page, false, response, now);
      GetOneSaleEffect(r.files, page, false, response, now) == PageResult(r.files, Saved(0), [])
  {
    match NewSale(page, None, None, response)
    case Raised =>
    case Unresolved(_, _) =>
    case Resolved(w) =>
      if |response.cells| > 0 {
        var step := CellStepFor(w, false, now);
        AppendStepAppendsSale(w, now);
        var first := ProcessCells(PageState(files, 0, [], false), step, response.cells);
        AppendPassMarksPage(PageState(files, 0, [], false), step, response.cells, page);
        AppendPassOverSeenPage(PageState(first.files, 0, [], false), step, response.cells, page);
      }
  }

  /** Every window of the merged history comes from the stored history or is the new one. */
  lemma MergedHistoryWholeSeconds(files: map<int, StoredGame>, w: SaleWindow, id: int, force: bool)
    requires WholeSeconds(w)
    ensures forall i :: 0 <= i < |MergedHistory(files, w, id, force)| ==> WholeSeconds(MergedHistory(files, w, id, force)[i])
  {
    var prior := PriorHistory(files, id);
    ForceMergeElements(prior, w);
    var merged := MergedHistory(files, w, id, force);
    forall i | 0 <= i < |merged| ensures WholeSeconds(merged[i]) {
      assert merged[i] in merged;
    }
  }

  /** A saved document stores the merged history and carries the cell's name, url and price. */
  lemma StepCellRecord(files: map<int, StoredGame>, w: SaleWindow, c: Feed.GameCell, force: bool, now: Micros)
    requires StepCell(files, w, c, force, now).Save?
    ensures var rec := StepCell(files, w, c, force, now).rec;
      rec.sales == SerializeList(MergedHistory(files, w, c.id, force)) &&
      rec.id == c.id && rec.price == Some(c.price) && rec.name == c.name && rec.url == c.url
  {
  }

  /**
   * A saved document reads back as the old history merged with the window: appended in append
   * mode, `ForceMerge`d in force mode.
   */
  lemma StepCellHistory(files: map<int, StoredGame>, w: SaleWindow, c: Feed.GameCell, force: bool, now: Micros)
    requires StepCell(files, w, c, force, now).Save? && WholeSeconds(w)
    ensures LoadFromDisk(StepCell(files, w, c, force, now).rec).sales ==
      if force then ForceMerge(PriorHistory(files, c.id), w) else PriorHistory(files, c.id) + [w]
  {
    StepCellRecord(files, w, c, force, now);
    MergedHistoryWholeSeconds(files, w, c.id, force);
    ListRoundTrip(MergedHistory(files, w, c.id, force));
  }

  /** `claimable` only asks whether some sale is active, not which one. */
  lemma ClaimableDecisionOnlyPresence(a: Option<SaleWindow>, b: Option<SaleWindow>, row: Feed.ReadableRow)
    requires a.Some? <==> b.Some?
    ensures ClaimableDecision(a, row) == ClaimableDecision(b, row)
  {
  }

  /**
   * The saved `claimable` is unknown when the sale is not active; otherwise it is decided from
   * the buy row with this sale as the active one.
   */
  lemma StepCellClaimable(files: map<int, StoredGame>, w: SaleWindow, c: Feed.GameCell, force: bool, now: Micros)
    requires StepCell(files, w, c, force, now).Save?
    ensures StepCell(files, w, c, force, now).rec.claimable ==
      if IsActive(w, now) then ClaimableDecision(Some(w), c.buyRow) else Unknown
  {
    var merged := MergedHistory(files, w, c.id, force);
    if IsActive(w, now) {
      assert w in merged;
      ActiveSaleSpec(merged, now);
      ClaimableDecisionOnlyPresence(ActiveSale(merged, now), Some(w), c.buyRow);
    }
  }

  /**
   * Append mode compares only the last stored window: a window with the page's id stored earlier
   * in the history does not make the cell skip, and a saved document holds that id twice.
   */
  lemma AppendModeComparesOnlyLast(files: map<int, StoredGame>, w: SaleWindow, c: Feed.GameCell, now: Micros, j: nat)
    requires c.id in files
    requires var s := files[c.id].sales; j < |s| && s[j].id == w.id && s[|s| - 1].id != w.id
    ensures StepCell(files, w, c, false, now).Save? <==> !(IsActive(w, now) && c.buyRow.Unreadable?)
    ensures StepCell(files, w, c, false, now).Save? ==>
      var d := StepCell(files, w, c, false, now).rec.sales;
      |d| == |files[c.id].sales| + 1 && d[j].id == w.id && d[|d| - 1].id == w.id
  {
    if StepCell(files, w, c, false, now).Save? {
      StepCellRecord(files, w, c, false, now);
      var prior := PriorHistory(files, c.id);
      assert (prior + [w])[j] == prior[j];
    }
  }

  /** Force mode on a history without repeated ids leaves exactly one window of the sale, and no repeats. */
  lemma StepCellForceDedup(files: map<int, StoredGame>, w: SaleWindow, c: Feed.GameCell, now: Micros)
    requires StepCell(files, w, c, true, now).Save? && WholeSeconds(w)
    requires UniqueIds(PriorHistory(files, c.id))
    ensures var hist := LoadFromDisk(StepCell(files, w, c, true, now).rec).sales;
      UniqueIds(hist) && w in hist && forall k :: 0 <= k < |hist| && hist[k].id == w.id ==> hist[k] == w
  {
    StepCellHistory(files, w, c, true, now);
    ForceMergeDedup(PriorHistory(files, c.id), w);
  }

  /** Ids strictly increasing: sorted by id and no id twice. */
  ghost predicate IncreasingIds(s: seq<SaleWindow>) {
    forall i, j :: 0 <= i < j < |s| ==> s[i].id < s[j].id
  }

  /** Force mode keeps a history sorted by id without repeated ids. */
  lemma ForceMergeKeepsIncreasing(s: seq<SaleWindow>, w: SaleWindow)
    requires IncreasingIds(s)
    ensures IncreasingIds(ForceMerge(s, w))
  {
    ForceMergeKeepsSorted(s, w);
    ForceMergeDedup(s, w);
  }

  /** Every stored history is sorted by id without repeated ids. */
  ghost predicate CleanFiles(files: map<int, StoredGame>) {
    forall id :: id in files ==> IncreasingIds(FromDictList(files[id].sales))
  }

  /** A document saved in force mode over clean histories has a clean history. */
  lemma StepCellKeepsClean(files: map<int, StoredGame>, w: SaleWindow, c: Feed.GameCell, now: Micros)
    requires CleanFiles(files) && StepCell(files, w, c, true, now).Save?
    ensures IncreasingIds(FromDictList(StepCell(files, w, c, true, now).rec.sales))
  {
    StepCellRecord(files, w, c, true, now);
    ForceMergeKeepsIncreasing(PriorHistory(files, c.id), w);
    StoredIdsKept(MergedHistory(files, w, c.id, true));
  }

  /** Saving and loading keeps the ids of a history, whatever its timestamps. */
  lemma StoredIdsKept(s: seq<SaleWindow>)
    requires IncreasingIds(s)
    ensures IncreasingIds(FromDictList(SerializeList(s)))
  {
    var back := FromDictList(SerializeList(s));
    assert forall i :: 0 <= i < |back| ==> back[i].id == s[i].id;
  }

  /** A pass whose step saves only clean histories over clean files keeps the files clean. */
  lemma {:induction false} ProcessCellsKeepsClean(st: PageState, step: CellStepper, cells: seq<Feed.GameCell>)
    requires CleanFiles(st.files)
    requires forall f, c :: CleanFiles(f) && step(f, c).Save? ==> IncreasingIds(FromDictList(step(f, c).rec.sales))
    ensures CleanFiles(ProcessCells(st, step, cells).files)
    decreases |cells|
  {
    if !(st.raised || cells == [] || cells[0].price != 0.0) {
      var c := cells[0];
      match step(st.files, c)
      case Crash =>
      case Skip => ProcessCellsKeepsClean(st, step, cells[1..]);
      case Save(rec) =>
        ProcessCellsKeepsClean(PageState(st.files[c.id := rec], st.count + 1, st.saved + [c.id], false), step, cells[1..]);
    }
  }

  /**
   * Force mode keeps every stored history sorted by id without repeated ids, as `get_one_sale`
   * promises for the calls `refresh_sale_cache` makes with a list of sales.
   */
  lemma GetOneSaleKeepsClean(files: map<int, StoredGame>, page: int, response: Feed.SalePage, now: Micros)
    requires CleanFiles(files)
    ensures CleanFiles(GetOneSaleEffect(files, page, true, response, now).files)
  {
    match NewSale(page, None, None, response)
    case Raised =>
    case Unresolved(_, _) =>
    case Resolved(w) =>
      if |response.cells| > 0 {
        var step := CellStepFor(w, true, now);
        forall f, c | CleanFiles(f) && step(f, c).Save? ensures IncreasingIds(FromDictList(step(f, c).rec.sales)) {
          StepCellKeepsClean(f, w, c, now);
        }
        ProcessCellsKeepsClean(PageState(files, 0, [], false), step, response.cells);
      }
  }

  // ---------------------------------------------------------------------------------------
  // The crawl
  // ---------------------------------------------------------------------------------------

  /** Documents, cursor, ids visited, whether -1 was seen, and the running `games_num`. */
  datatype CrawlState = CrawlState(files: map<int, StoredGame>, cursor: Option<int>, visited: nat, stopped: bool, gamesNum: int)

  /** One more id: the page is fetched; on -1 the crawl stops, otherwise the cursor moves to it. */
  function Visit(st: CrawlState, page: int, eff: PageResult): CrawlState {
    match eff.outcome
    case NoMoreSales => st.(visited := st.visited + 1, stopped := true)
    case Saved(n) => CrawlState(eff.files, Some(page), st.visited + 1, false, st.gamesNum + n)
    case Errored => CrawlState(eff.files, Some(page), st.visited + 1, false, st.gamesNum)
  }

  /** What the crawl does with one id: the documents, the id and its response in, the page's result out. */
  type PageVisitor = (map<int, StoredGame>, int, Feed.SalePage) -> PageResult

  /** `get_one_sale(page, force=False)`, the call `get_all_sales` makes. */
  function AppendVisitor(now: Micros): PageVisitor {
    (f, p, r) => GetOneSaleEffect(f, p, false, r, now)
  }

  /** `visit` computes what `get_one_sale(page, force)` does at `now`. */
  ghost predicate IsGetOneSale(visit: PageVisitor, force: bool, now: Micros) {
    forall f, p, r {:trigger GetOneSaleEffect(f, p, force, r, now)} ::
      visit(f, p, r) == GetOneSaleEffect(f, p, force, r, now)
  }

  lemma AppendVisitorIsGetOneSale(now: Micros)
    ensures IsGetOneSale(AppendVisitor(now), false, now)
  {
  }

  /**
   * `get_all_sales(start)` after the first `n` responses: ids `start, start + 1, ...` in turn,
   * the cursor rewritten after each one, an exception logged and passed over, and nothing more
   * once -1 has been returned (the cursor is not written for that id). `responses[k]` is the
   * response for id `start + k`; when they run out the run has been interrupted there.
   */
  function CrawlPrefix(files: map<int, StoredGame>, cursor: Option<int>, start: int, responses: seq<Feed.SalePage>, n: nat, visit: PageVisitor): CrawlState
    requires n <= |responses|
  {
    if n == 0 then CrawlState(files, cursor, 0, false, 0)
    else
      var st := CrawlPrefix(files, cursor, start, responses, n - 1, visit);
      if st.stopped then st
      else Visit(st, start + n - 1, visit(st.files, start + n - 1, responses[n - 1]))
  }

  /** The crawl has reached `st` after the first `n` responses. */
  ghost predicate CrawlReached(files: map<int, StoredGame>, cursor: Option<int>, start: int, responses: seq<Feed.SalePage>, n: nat, visit: PageVisitor, st: CrawlState) {
    n <= |responses| && CrawlPrefix(files, cursor, start, responses, n, visit) == st
  }

  /** Once stopped, later responses change nothing. */
  lemma {:induction false} CrawlStaysStopped(files: map<int, StoredGame>, cursor: Option<int>, start: int, responses: seq<Feed.SalePage>, n: nat, m: nat, visit: PageVisitor, st: CrawlState)
    requires n <= m <= |responses| && st.stopped && CrawlReached(files, cursor, start, responses, n, visit, st)
    ensures CrawlReached(files, cursor, start, responses, m, visit, st)
    decreases m
  {
    if m > n {
      CrawlStaysStopped(files, cursor, start, responses, n, m - 1, visit, st);
    }
  }

  /** The whole run of `get_all_sales` over the responses at hand. */
  function Crawl(files: map<int, StoredGame>, cursor: Option<int>, start: int, responses: seq<Feed.SalePage>, now: Micros): CrawlState {
    CrawlPrefix(files, cursor, start, responses, |responses|, AppendVisitor(now))
  }

  /** A test on an id and the response for it, such as `IsTerminal`. */
  type PageTest = (int, Feed.SalePage) -> bool

  /** The position of the first of the first `n` responses that passes `terminal`, if any. */
  function FirstTerminal(terminal: PageTest, start: int, responses: seq<Feed.SalePage>, n: nat): (r: Option<nat>)
    requires n <= |responses|
    ensures r.Some? ==> (r.value < n && terminal(start + r.value, responses[r.value]) &&
      forall k :: 0 <= k < r.value ==> !terminal(start + k, responses[k]))
    ensures r.None? ==> forall k :: 0 <= k < n ==> !terminal(start + k, responses[k])
  {
    if n == 0 then None
    else
      match FirstTerminal(terminal, start, responses, n - 1)
      case Some(k) => Some(k)
      case None => if terminal(start + n - 1, responses[n - 1]) then Some(n - 1) else None
  }

  /** The visitor returns -1 exactly for the responses that pass `terminal`. */
  ghost predicate StopsOnTerminal(visit: PageVisitor, terminal: PageTest) {
    forall f, p, r :: visit(f, p, r).outcome == NoMoreSales <==> terminal(p, r)
  }

  /**
   * How far the crawl got after the first `n` responses: it stops exactly at the first terminal
   * response, having visited it; the cursor is the last id visited before it, or stays where it
   * was when no id was.
   */
  lemma {:induction false} CrawlPrefixProgress(files: map<int, StoredGame>, cursor: Option<int>, start: int, responses: seq<Feed.SalePage>, n: nat, visit: PageVisitor, terminal: PageTest)
    requires n <= |responses| && StopsOnTerminal(visit, terminal)
    ensures var st := CrawlPrefix(files, cursor, start, responses, n, visit);
      var first := FirstTerminal(terminal, start, responses, n);
      var done := first.GetOr(n);
      (st.stopped <==> first.Some?) &&
      st.visited == (if first.Some? then done + 1 else done) &&
      st.cursor == (if done == 0 then cursor else Some(start + done - 1))
    decreases n
  {
    if n > 0 {
      CrawlPrefixProgress(files, cursor, start, responses, n - 1, visit, terminal);
    }
  }

  /** The visitor keeps every document under its own id with at least one window. */
  ghost predicate KeepsWellFormed(visit: PageVisitor) {
    forall f, p, r :: WellFormed(f) ==> WellFormed(visit(f, p, r).files)
  }

  lemma {:induction false} CrawlPrefixKeepsWellFormed(files: map<int, StoredGame>, cursor: Option<int>, start: int, responses: seq<Feed.SalePage>, n: nat, visit: PageVisitor)
    requires n <= |responses| && WellFormed(files) && KeepsWellFormed(visit)
    ensures WellFormed(CrawlPrefix(files, cursor, start, responses, n, visit).files)
    decreases n
  {
    if n > 0 {
      CrawlPrefixKeepsWellFormed(files, cursor, start, responses, n - 1, visit);
    }
  }

  lemma AppendVisitorStopsOnTerminal(now: Micros)
    ensures StopsOnTerminal(AppendVisitor(now), IsTerminal)
  {
  }

  lemma AppendVisitorKeepsWellFormed(now: Micros)
    ensures KeepsWellFormed(AppendVisitor(now))
  {
    forall f, p, r | WellFormed(f) ensures WellFormed(AppendVisitor(now)(f, p, r).files) {
      GetOneSaleEffectFrame(f, p, false, r, now);
    }
  }

  /**
   * `get_all_sales` stops exactly when some response is the terminal one, having visited ids up
   * to the first such; otherwise it visits every id it has a response for. The cursor ends at the
   * last id visited before the terminal one, or stays where it was when there is none.
   */
  lemma CrawlStopsAtFirstTerminal(files: map<int, StoredGame>, cursor: Option<int>, start: int, responses: seq<Feed.SalePage>, now: Micros)
    ensures var r := Crawl(files, cursor, start, responses, now);
      var first := FirstTerminal(IsTerminal, start, responses, |responses|);
      var done := first.GetOr(|responses|);
      (r.stopped <==> first.Some?) &&
      r.visited == (if first.Some? then done + 1 else done) &&
      r.cursor == (if done == 0 then cursor else Some(start + done - 1))
  {
    AppendVisitorStopsOnTerminal(now);
    CrawlPrefixProgress(files, cursor, start, responses, |responses|, AppendVisitor(now), IsTerminal);
  }

  /** Every document the crawl leaves sits under its own id and has at least one window. */
  lemma CrawlKeepsWellFormed(files: map<int, StoredGame>, cursor: Option<int>, start: int, responses: seq<Feed.SalePage>, now: Micros)
    requires WellFormed(files)
    ensures WellFormed(Crawl(files, cursor, start, responses, now).files)
  {
    AppendVisitorKeepsWellFormed(now);
    CrawlPrefixKeepsWellFormed(files, cursor, start, responses, |responses|, AppendVisitor(now));
  }

  // ---------------------------------------------------------------------------------------
  // The games directory
  // ---------------------------------------------------------------------------------------

  class SaleCache {
    var files: map<int, StoredGame>
    var resumeIndex: Option<int>

    constructor (files: map<int, StoredGame>, resumeIndex: Option<int>)
      ensures this.files == files && this.resumeIndex == resumeIndex
    {
      this.files := files;
      this.resumeIndex := resumeIndex;
    }

    /** `get_one_sale(page, force)`: documents are written one game at a time, so a crash keeps earlier writes. */
    method GetOneSale(page: int, force: bool, response: Feed.SalePage, now: Micros, ghost visit: PageVisitor)
      returns (outcome: SaleOutcome)
      requires IsGetOneSale(visit, force, now)
      modifies this`files
      ensures var e := visit(old(files), page, response);
        files == e.files && outcome == e.outcome
      ensures outcome == NoMoreSales ==> files == old(files)
    {
      ghost var e := GetOneSaleEffect(files, page, force, response, now);
      var sale := NewSale(page, None, None, response);
      if sale.Raised? {
        return Errored;
      }
      if sale.Unresolved? {
        if sale.err == NoMoreSalesAvailable && page > LastKnownSaleId {
          return NoMoreSales;
        }
        return Saved(0);
      }
      var w := sale.window;
      var cells := response.cells;
      if |cells| == 0 {
        return Saved(0);
      }
      var count, raised := SaveCells(w, force, cells, now);
      return if raised then Errored else Saved(count);
    }

    /** The loop over a page's cells: stop at the first paid game; a crash keeps the documents written before it. */
    method SaveCells(w: SaleWindow, force: bool, cells: seq<Feed.GameCell>, now: Micros) returns (count: nat, raised: bool)
      modifies this`files
      ensures var r := ProcessCells(PageState(old(files), 0, [], false), CellStepFor(w, force, now), cells);
        files == r.files && count == r.count && raised == r.raised
    {
      count := 0;
      ghost var saved: seq<int> := [];
      ghost var step := CellStepFor(w, force, now);
      ghost var goal := ProcessCells(PageState(files, 0, [], false), step, cells);
      var i := 0;
      while i < |cells|
        invariant 0 <= i <= |cells|
        invariant ProcessCells(PageState(files, count, saved, false), step, cells[i..]) == goal
      {
        var c := cells[i];
        if c.price != 0.0 {
          break;
        }
        assert cells[i..] == [c] + cells[i + 1..];
        var result := LoadAndMerge(files, w, c, force, now);
        if result.Crash? {
          return count, true;
        }
        if result.Save? {
          files := files[c.id := result.rec];
          count := count + 1;
          saved := saved + [c.id];
        }
        i := i + 1;
      }
      return count, false;
    }

    /**
     * `get_all_sales(start)` over the responses for ids `start, start + 1, ...`; `visit` is
     * `get_one_sale` in append mode, so the run is `Crawl`.
     */
    method GetAllSales(start: int, responses: seq<Feed.SalePage>, now: Micros, ghost visit: PageVisitor)
      returns (visited: nat, stopped: bool, gamesNum: int)
      requires IsGetOneSale(visit, false, now)
      modifies this
      ensures var r := CrawlPrefix(old(files), old(resumeIndex), start, responses, |responses|, visit);
        files == r.files && resumeIndex == r.cursor && visited == r.visited && stopped == r.stopped && gamesNum == r.gamesNum
    {
      ghost var files0, cursor0 := files, resumeIndex;
      var page := start - 1;
      gamesNum := 0;
      visited, stopped := 0, false;
      while visited < |responses|
        invariant visited <= |responses| && page == start + visited - 1
        invariant CrawlReached(files0, cursor0, start, responses, visited, visit, CrawlState(files, resumeIndex, visited, false, gamesNum))
      {
        page := page + 1;
        assert page == start + visited;
        var added := GetOneSale(page, false, responses[visited], now, visit);
        if added == NoMoreSales {
          visited, stopped := visited + 1, true;
          CrawlStaysStopped(files0, cursor0, start, responses, visited, |responses|, visit, CrawlState(files, resumeIndex, visited, stopped, gamesNum));
          return;
        } else if added.Saved? {
          gamesNum := gamesNum + added.count;
        }
        resumeIndex := Some(page);
        visited := visited + 1;
      }
    }
  }

  /**
   * The body of the loop over cells for one free game: load the stored document, skip or merge,
   * decide `claimable`, and build the document to save.
   */
  method LoadAndMerge(files: map<int, StoredGame>, w: SaleWindow, c: Feed.GameCell, force: bool, now: Micros) returns (step: CellStep)
    ensures step == StepCell(files, w, c, force, now)
  {
    var sales: seq<SaleWindow> := [];
    if c.id in files {
      sales := FromDictList(files[c.id].sales);
      if |sales| == 0 {
        return Crash;
      }
      if sales[|sales| - 1].id == w.id && !force {
        return Skip;
      }
    }
    if !force {
      sales := sales + [w];
    } else {
      sales := MergeForce(sales, w);
    }
    if IsActive(w, now) && c.buyRow.Unreadable? {
      return Crash;
    }
    var claimable := if !IsActive(w, now) then Unknown else ClaimableDecision(ActiveSale(sales, now), c.buyRow);
    var game := ItchGame(c.id, c.name, c.url, Some(c.price), sales, c.coverImage, Some(claimable));
    return Save(ToStored(game, claimable));
  }

  /** Force mode's merge as `get_one_sale` performs it: a search loop, then an in-place replace or append-and-sort. */
  method MergeForce(sales: seq<SaleWindow>, w: SaleWindow) returns (r: seq<SaleWindow>)
    ensures r == ForceMerge(sales, w)
  {
    r := sales;
    var i := 0;
    while i < |r|
      invariant 0 <= i <= |r| && r == sales
      invariant forall k :: 0 <= k < i ==> sales[k].id != w.id
    {
      if r[i].id == w.id {
        r := r[i := w];
        assert FirstIndexOfId(sales, w.id) == Some(i);
        return;
      }
      i := i + 1;
    }
    r := Sorting.SortBy(r + [w], IdBefore);
  }
}

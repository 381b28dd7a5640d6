/**
 * src/ItchClaim/DiskManager.py, the older cache built from the "newest on sale" catalogue: a
 * catalogue page keeps its free games, an exhausted feed ends the walk, and games whose sale
 * has ended are swept out of the games directory.
 *
 * The older `ItchGame` class (src/ItchClaim/ItchGame.py) defines neither `get_games_dir` nor
 * `load_from_disk`; the directory is modelled as the map from file name to the game its file
 * holds, and loading a file as reading that entry.
 */
module LegacyDiskManager {
  import Seqs
  import opened Sales

  /** A catalogue cell as the older `ItchGame(div)` reads it; `price` is -1 when the cell shows none. */
  datatype CatalogueGame = CatalogueGame(name: string, url: string, price: real)

  /** The JSON answer for one catalogue page: its game cells and its `num_items`. */
  datatype CataloguePage = CataloguePage(cells: seq<CatalogueGame>, numItems: int)

  /** What `get_online_sale_page` returns: `False`, or the list of free games. */
  datatype PageGames = NoMoreItems | FreeList(games: seq<CatalogueGame>)

  predicate IsFree(g: CatalogueGame) {
    g.price == 0.0
  }

  /** The free games of a page, in page order. */
  function FreeGames(cells: seq<CatalogueGame>): seq<CatalogueGame> {
    Seqs.Filter(cells, IsFree)
  }

  /** Exactly the free games are kept, in the order of the page. */
  lemma FreeGamesSpec(cells: seq<CatalogueGame>)
    ensures Seqs.IsSubsequence(FreeGames(cells), cells)
    ensures forall g :: g in FreeGames(cells) <==> g in cells && IsFree(g)
  {
    Seqs.FilterIsSubsequence(cells, IsFree);
  }

  /**
   * `get_online_sale_page`: the free games of the page, or `False` when there are none and the
   * feed reports no items at all. A page of paid games only gives an empty list, not `False`.
   */
  method GetOnlineSalePage(page: CataloguePage) returns (r: PageGames)
    ensures r == NoMoreItems <==> FreeGames(page.cells) == [] && page.numItems == 0
    ensures r.FreeList? ==> r.games == FreeGames(page.cells)
  {
    var games: seq<CatalogueGame> := [];
    for i := 0 to |page.cells|
      invariant games == FreeGames(page.cells[..i])
    {
      Seqs.FilterSnoc(page.cells[..i], page.cells[i], IsFree);
      assert page.cells[..i + 1] == page.cells[..i] + [page.cells[i]];
      if page.cells[i].price == 0.0 {
        games := games + [page.cells[i]];
      }
    }
    assert page.cells[..|page.cells|] == page.cells;
    if |games| == 0 && page.numItems == 0 {
      return NoMoreItems;
    }
    return FreeList(games);
  }

  /** A saved game as `remove_expired_sales` reads it: its id and its `sale_end`. */
  datatype SavedGame = SavedGame(id: int, saleEnd: Micros)

  /** An element of a loaded list: the class object `ItchGame` itself, or the game read from a file. */
  datatype Loaded = GameClass | Game(file: string, game: SavedGame)

  predicate IsJsonName(name: string) {
    |name| >= 5 && name[|name| - 5..] == ".json"
  }

  /** `game.sale_end < datetime.datetime.now()`, for a loaded game. */
  predicate Expired(x: Loaded, now: Micros) {
    x.Game? && x.game.saleEnd < now
  }

  /** Where the loop over a loaded list meets the class object, or its length when it never does. */
  function FirstClass(l: seq<Loaded>): (k: nat)
    ensures k <= |l|
    ensures k < |l| ==> l[k].GameClass?
    ensures forall i :: 0 <= i < k ==> l[i].Game?
  {
    if l == [] || l[0].GameClass? then 0
    else
      var k := FirstClass(l[1..]);
      assert forall i :: 1 <= i < k + 1 ==> l[i] == l[1..][i - 1];
      k + 1
  }

  /** The files of the expired games in a loaded list. */
  function ExpiredFiles(l: seq<Loaded>, now: Micros): (r: set<string>)
    ensures forall n :: n in r <==> exists i :: 0 <= i < |l| && Expired(l[i], now) && l[i].file == n
  {
    if l == [] then {}
    else
      var init := l[..|l| - 1];
      var r := ExpiredFiles(init, now) + (if Expired(l[|l| - 1], now) then {l[|l| - 1].file} else {});
      assert forall i :: 0 <= i < |l| - 1 ==> init[i] == l[i];
      r
  }

  /** The games directory: file name to the game its file holds. */
  class GamesDir {
    var files: map<string, SavedGame>

    constructor (files: map<string, SavedGame>)
      ensures this.files == files
    {
      this.files := files;
    }

    /**
     * `os.listdir(games_dir)` walked in order (any order here), loading each file `keep` admits and
     * appending it to `prefix`.
     */
    method ListGames(prefix: seq<Loaded>, keep: string -> bool) returns (l: seq<Loaded>)
      ensures |l| >= |prefix| && l[..|prefix|] == prefix
      ensures forall i :: |prefix| <= i < |l| ==> l[i].Game? && l[i].file in files && keep(l[i].file) && files[l[i].file] == l[i].game
      ensures forall n :: n in files && keep(n) ==> exists i :: |prefix| <= i < |l| && l[i] == Game(n, files[n])
      ensures forall i, j :: |prefix| <= i < j < |l| ==> l[i].file != l[j].file
    {
      l := prefix;
      var pending := files.Keys;
      while pending != {}
        invariant pending <= files.Keys
        invariant |l| >= |prefix| && l[..|prefix|] == prefix
        invariant forall i :: |prefix| <= i < |l| ==> l[i].Game? && l[i].file in files && keep(l[i].file) && l[i].file !in pending && files[l[i].file] == l[i].game
        invariant forall n :: n in files && keep(n) && n !in pending ==> exists i :: |prefix| <= i < |l| && l[i] == Game(n, files[n])
        invariant forall i, j :: |prefix| <= i < j < |l| ==> l[i].file != l[j].file
        decreases |pending|
      {
        var n :| n in pending;
        ghost var prev := l;
        if keep(n) {
          l := l + [Game(n, files[n])];
          assert l[..|prefix|] == prev[..|prefix|];
        }
        forall m | m in files && keep(m) && m !in pending - {n}
          ensures exists i :: |prefix| <= i < |l| && l[i] == Game(m, files[m])
        {
          if m != n {
            var i :| |prefix| <= i < |prev| && prev[i] == Game(m, files[m]);
            assert l[i] == prev[i];
          } else {
            assert l[|l| - 1] == Game(m, files[m]);
          }
        }
        pending := pending - {n};
      }
    }

    /**
     * `load_all_games` as written: the list starts with the class `ItchGame` itself, then holds
     * one game per directory entry, `.json` or not.
     */
    method LoadAllGamesAsWritten() returns (l: seq<Loaded>)
      ensures |l| > 0 && l[0] == GameClass
      ensures forall i :: 1 <= i < |l| ==> l[i].Game? && l[i].file in files && files[l[i].file] == l[i].game
      ensures forall n :: n in files ==> exists i :: 1 <= i < |l| && l[i] == Game(n, files[n])
      ensures forall i, j :: 1 <= i < j < |l| ==> l[i].file != l[j].file
    {
      l := ListGames([GameClass], _ => true);
    }

    /**
     * `load_all_games` as the newer cache writes it (ItchClaim/DiskManager.py): one game per
     * `.json` file and nothing else.
     */
    method LoadAllGames() returns (l: seq<Loaded>)
      ensures forall i :: 0 <= i < |l| ==> l[i].Game? && l[i].file in files && IsJsonName(l[i].file) && files[l[i].file] == l[i].game
      ensures forall n :: n in files && IsJsonName(n) ==> exists i :: 0 <= i < |l| && l[i] == Game(n, files[n])
      ensures forall i, j :: 0 <= i < j < |l| ==> l[i].file != l[j].file
    {
      l := ListGames([], IsJsonName);
    }

    /**
     * The loop of `remove_expired_sales` over a loaded list: the file of each expired game is
     * deleted, and reading `sale_end` of the class object raises, ending the loop.
     */
    method Sweep(loaded: seq<Loaded>, now: Micros) returns (raised: bool)
      modifies this
      ensures var k := FirstClass(loaded);
        raised == (k < |loaded|) && files == old(files) - ExpiredFiles(loaded[..k], now)
    {
      var i := 0;
      while i < |loaded|
        invariant i <= FirstClass(loaded)
        invariant files == old(files) - ExpiredFiles(loaded[..i], now)
      {
        assert loaded[..i + 1][..i] == loaded[..i];
        match loaded[i]
        case GameClass =>
          return true;
        case Game(file, game) =>
          if game.saleEnd < now {
            files := files - {file};
          }
        i := i + 1;
      }
      assert loaded[..i] == loaded;
      return false;
    }

    /**
     * `remove_expired_sales` as written: the loop meets the class object first, so it raises
     * before any file is deleted, whatever the directory holds.
     */
    method RemoveExpiredSalesAsWritten(now: Micros) returns (raised: bool)
      modifies this
      ensures raised && files == old(files)
    {
      var loaded := LoadAllGamesAsWritten();
      raised := Sweep(loaded, now);
      assert loaded[..0] == [];
    }

    /**
     * `remove_expired_sales` over the games alone: the `.json` files of the games whose sale has
     * ended are deleted, every other file is kept unchanged, and nothing raises.
     */
    method RemoveExpiredSales(now: Micros) returns (raised: bool)
      modifies this
      ensures !raised
      ensures forall n :: n in files <==> n in old(files) && !(IsJsonName(n) && old(files)[n].saleEnd < now)
      ensures forall n :: n in files ==> files[n] == old(files)[n]
    {
      var loaded := LoadAllGames();
      ghost var before := files;
      raised := Sweep(loaded, now);
      assert loaded[..|loaded|] == loaded;
      forall n | n in before && IsJsonName(n) && before[n].saleEnd < now
        ensures n in ExpiredFiles(loaded, now)
      {
        var i :| 0 <= i < |loaded| && loaded[i] == Game(n, before[n]);
        assert Expired(loaded[i], now);
      }
    }
  }
}

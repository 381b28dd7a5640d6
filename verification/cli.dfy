/**
 * ItchClaim/__main__.py: the `claim` command (claim every listed game the user does not own and
 * that is claimable) and the `refresh_sale_cache` command (re-fetch chosen sales in force mode, or
 * resume the crawl from the cursor).
 */
module Cli {
  import opened Wrappers
  import opened Sales
  import opened Games
  import Seqs
  import Feed
  import Users
  import DiskManager

  /** A game of the list `claim` downloads: the fields `download_from_remote_cache` sets. */
  datatype ListedGame = ListedGame(id: int, url: string, name: string, claimable: Tri)

  /** The test in the claim loop: not owned (by the list as it is now), and `claimable` truthy, which only `True` is. */
  predicate Selected(owned: seq<int>, g: ListedGame) {
    g.id !in owned && g.claimable == Yes
  }

  /** The owned list, the ids `claim_game` was called on, in order, and whether the last call raised. */
  datatype ClaimRun = ClaimRun(owned: seq<int>, called: seq<int>, raised: bool)

  /**
   * The claim loop over the first `n` listed games, starting from the owned list `owned`; an
   * exception from `claim_game` ends it. `replies[i]` is what the site answers the claim of `games[i]`.
   */
  function ClaimPass(owned: seq<int>, games: seq<ListedGame>, replies: seq<seq<Users.ClaimAttempt>>, n: nat): ClaimRun
    requires n <= |games| == |replies|
  {
    if n == 0 then ClaimRun(owned, [], false)
    else
      var r := ClaimPass(owned, games, replies, n - 1);
      var g := games[n - 1];
      if !r.raised && Selected(r.owned, g) then
        ClaimRun(r.owned + (if Users.ClaimAdds(replies[n - 1]) then [g.id] else []), r.called + [g.id],
          Users.ClaimRaises(replies[n - 1]))
      else r
  }

  /** The ids of the listed games that are not in `owned` and are claimable, in list order. */
  function SelectedIds(owned: seq<int>, games: seq<ListedGame>): seq<int> {
    if games == [] then []
    else
      var last := games[|games| - 1];
      SelectedIds(owned, games[..|games| - 1]) + (if Selected(owned, last) then [last.id] else [])
  }

  /**
   * The claim loop only adds to the owned list, only games it tried to claim, and only tries
   * games that were not owned at the start and are claimable.
   */
  lemma {:induction false} ClaimPassGrows(owned: seq<int>, games: seq<ListedGame>, replies: seq<seq<Users.ClaimAttempt>>, n: nat)
    requires n <= |games| == |replies|
    ensures var r := ClaimPass(owned, games, replies, n);
      |r.owned| >= |owned| && r.owned[..|owned|] == owned &&
      (forall x :: x in r.owned[|owned|..] ==> x in r.called) &&
      (forall x :: x in r.owned ==> x in owned || x in r.called) &&
      (forall x :: x in r.called ==> x !in owned && exists i :: 0 <= i < n && games[i].id == x && games[i].claimable == Yes)
  {
    if n > 0 {
      ClaimPassGrows(owned, games, replies, n - 1);
      var r := ClaimPass(owned, games, replies, n - 1);
      var g := games[n - 1];
      if !r.raised && Selected(r.owned, g) {
        var added := if Users.ClaimAdds(replies[n - 1]) then [g.id] else [];
        var s := r.owned + added;
        assert s[..|owned|] == r.owned[..|owned|];
        assert s[|owned|..] == r.owned[|owned|..] + added;
        assert g.id !in owned by {
          assert forall k :: 0 <= k < |owned| ==> owned[k] == r.owned[k];
        }
      }
    }
  }

  /**
   * When no id is listed twice, the loop calls `claim_game` on exactly the games that were not
   * owned at the start and are claimable, in list order, until a call raises: then the games
   * called are those selected up to the one whose replies raise, and no later one.
   */
  lemma {:induction false} ClaimPassCallsSelected(owned: seq<int>, games: seq<ListedGame>, replies: seq<seq<Users.ClaimAttempt>>, n: nat)
    requires n <= |games| == |replies|
    requires forall i, j :: 0 <= i < j < |games| ==> games[i].id != games[j].id
    ensures var r := ClaimPass(owned, games, replies, n);
      !r.raised ==> r.called == SelectedIds(owned, games[..n])
    ensures var r := ClaimPass(owned, games, replies, n);
      r.raised ==>
        exists m :: 0 < m <= n && r.called == SelectedIds(owned, games[..m]) &&
          Selected(owned, games[m - 1]) && Users.ClaimRaises(replies[m - 1])
  {
    if n > 0 {
      ClaimPassCallsSelected(owned, games, replies, n - 1);
      ClaimPassGrows(owned, games, replies, n - 1);
      var r := ClaimPass(owned, games, replies, n - 1);
      var g := games[n - 1];
      assert games[..n][..n - 1] == games[..n - 1];
      if !r.raised && Selected(r.owned, g) {
        assert Selected(owned, g) by {
          assert forall k :: 0 <= k < |owned| ==> owned[k] == r.owned[k];
        }
      }
    }
  }

  /** After a call that raised, the loop tries no further game. */
  lemma {:induction false} ClaimPassStaysRaised(owned: seq<int>, games: seq<ListedGame>, replies: seq<seq<Users.ClaimAttempt>>, n: nat, m: nat)
    requires n <= m <= |games| == |replies|
    requires ClaimPass(owned, games, replies, n).raised
    ensures ClaimPass(owned, games, replies, m) == ClaimPass(owned, games, replies, n)
    decreases m
  {
    if m > n {
      ClaimPassStaysRaised(owned, games, replies, n, m - 1);
    }
  }

  class ItchClaim {
    var user: Users.ItchUser?

    constructor (user: Users.ItchUser?)
      ensures this.user == user
    {
      this.user := user;
    }

    /**
     * `claim`: nothing without a user; the library is reloaded when the owned list is empty; then
     * every listed game that is not owned and is claimable is claimed, in order, and counted. The
     * "No new games" message is printed exactly when none was. There is no `try`: an exception
     * from the reload or from a claim ends the command with the owned list as far as it got,
     * no further game tried, and neither count nor message.
     */
    method Claim(games: seq<ListedGame>, libraryPages: seq<Users.LibraryPage>, replies: seq<seq<Users.ClaimAttempt>>)
      returns (claimed: nat, noNewGames: bool, raised: bool)
      requires |replies| == |games|
      modifies user
      ensures user == null ==> claimed == 0 && !noNewGames && !raised
      ensures user != null ==>
        var k := Users.FirstEmptyPage(libraryPages);
        var reloadRaised := old(user.ownedGames) == [] && k < |libraryPages| && libraryPages[k].PageRaises?;
        var start := if old(user.ownedGames) == [] then Seqs.Flatten(Users.PageIds(libraryPages[..k]))
          else old(user.ownedGames);
        var run := ClaimPass(start, games, replies, |games|);
        if reloadRaised then user.ownedGames == start && raised && claimed == 0 && !noNewGames
        else
          user.ownedGames == run.owned && raised == run.raised &&
          (!raised ==> claimed == |run.called| && (noNewGames <==> claimed == 0)) &&
          (raised ==> claimed + 1 == |run.called| && !noNewGames)
    {
      if user == null {
        return 0, false, false;
      }
      var u := user;
      if |u.ownedGames| == 0 {
        raised := u.ReloadOwnedGames(libraryPages);
        if raised {
          return 0, false, true;
        }
      }
      claimed, raised := ClaimListed(u, games, replies);
      noNewGames := !raised && claimed == 0;
    }

    /**
     * The loop of `claim` over the listed games: an unowned, claimable game is claimed and
     * counted; an exception from `claim_game` ends the loop before that game is counted.
     */
    method ClaimListed(u: Users.ItchUser, games: seq<ListedGame>, replies: seq<seq<Users.ClaimAttempt>>)
      returns (claimed: nat, raised: bool)
      requires |replies| == |games|
      modifies u
      ensures var run := ClaimPass(old(u.ownedGames), games, replies, |games|);
        u.ownedGames == run.owned && raised == run.raised &&
        claimed == (if raised then |run.called| - 1 else |run.called|)
    {
      ghost var start := u.ownedGames;
      claimed := 0;
      var i := 0;
      while i < |games|
        invariant 0 <= i <= |games|
        invariant !ClaimPass(start, games, replies, i).raised
        invariant u.ownedGames == ClaimPass(start, games, replies, i).owned
        invariant claimed == |ClaimPass(start, games, replies, i).called|
      {
        var g := games[i];
        var owned := u.OwnsGame(g.id);
        if !owned && g.claimable == Yes {
          raised := u.ClaimGame(g.id, replies[i]);
          if raised {
            ClaimPassStaysRaised(start, games, replies, i + 1, |games|);
            return;
          }
          claimed := claimed + 1;
        }
        i := i + 1;
      }
      return claimed, false;
    }

    /**
     * `refresh_sale_cache`: with a non-empty list of sales, `get_one_sale` in force mode for each
     * in order, an exception ending the command, and the cursor neither read nor written;
     * otherwise the crawl from the stored cursor, or from 1 when there is none.
     * `saleResponses[i]` is the response for `sales[i]`.
     */
    method RefreshSaleCache(cache: DiskManager.SaleCache, sales: seq<int>, saleResponses: seq<Feed.SalePage>,
                            crawlResponses: seq<Feed.SalePage>, now: Micros) returns (raised: bool)
      requires |saleResponses| == |sales|
      modifies cache
      ensures |sales| > 0 ==>
        var r := RefreshSales(old(cache.files), sales, saleResponses, |sales|, ForceVisitor(now));
        cache.files == r.files && raised == r.raised && cache.resumeIndex == old(cache.resumeIndex)
      ensures |sales| == 0 ==>
        var r := DiskManager.Crawl(old(cache.files), old(cache.resumeIndex), old(cache.resumeIndex).GetOr(1), crawlResponses, now);
        cache.files == r.files && cache.resumeIndex == r.cursor && !raised
    {
      if |sales| > 0 {
        ForceVisitorIsGetOneSale(now);
        raised := RefreshListedSales(cache, sales, saleResponses, now, ForceVisitor(now));
        return;
      }
      var resume := if cache.resumeIndex.Some? then cache.resumeIndex.value else 1;
      DiskManager.AppendVisitorIsGetOneSale(now);
      var _, _, _ := cache.GetAllSales(resume, crawlResponses, now, DiskManager.AppendVisitor(now));
      return false;
    }
  }

  /**
   * The `--sales` branch of `refresh_sale_cache`: force mode over the listed sales until one
   * raises. `visit` is `get_one_sale` in force mode, `ForceVisitor(now)`.
   */
  method RefreshListedSales(cache: DiskManager.SaleCache, sales: seq<int>, responses: seq<Feed.SalePage>, now: Micros,
                            ghost visit: DiskManager.PageVisitor)
    returns (raised: bool)
    requires |responses| == |sales| && DiskManager.IsGetOneSale(visit, true, now)
    modifies cache`files
    ensures var r := RefreshSales(old(cache.files), sales, responses, |sales|, visit);
      cache.files == r.files && raised == r.raised
  {
    var i := 0;
    while i < |sales|
      invariant 0 <= i <= |sales|
      invariant RefreshReached(old(cache.files), sales, responses, i, visit, RefreshState(cache.files, i, false))
    {
      var outcome := cache.GetOneSale(sales[i], true, responses[i], now, visit);
      if outcome == DiskManager.Errored {
        RefreshStaysRaised(old(cache.files), sales, responses, i + 1, |sales|, visit, RefreshState(cache.files, i + 1, true));
        return true;
      }
      i := i + 1;
    }
    return false;
  }

  /** `get_one_sale(sale_id)` with its default, force mode. */
  function ForceVisitor(now: Micros): DiskManager.PageVisitor {
    (f, p, r) => DiskManager.GetOneSaleEffect(f, p, true, r, now)
  }

  lemma ForceVisitorIsGetOneSale(now: Micros)
    ensures DiskManager.IsGetOneSale(ForceVisitor(now), true, now)
  {
  }

  /** The documents, how many listed sales were fetched, and whether the last one raised. */
  datatype RefreshState = RefreshState(files: map<int, StoredGame>, done: nat, raised: bool)

  /** The loop over the first `n` listed sales; an exception ends it. */
  function RefreshSales(files: map<int, StoredGame>, sales: seq<int>, responses: seq<Feed.SalePage>, n: nat, visit: DiskManager.PageVisitor): RefreshState
    requires n <= |sales| == |responses|
  {
    if n == 0 then RefreshState(files, 0, false)
    else
      var st := RefreshSales(files, sales, responses, n - 1, visit);
      if st.raised then st
      else
        var e := visit(st.files, sales[n - 1], responses[n - 1]);
        RefreshState(e.files, n, e.outcome == DiskManager.Errored)
  }

  /** The loop has reached `st` after the first `n` listed sales. */
  ghost predicate RefreshReached(files: map<int, StoredGame>, sales: seq<int>, responses: seq<Feed.SalePage>, n: nat,
                                 visit: DiskManager.PageVisitor, st: RefreshState) {
    n <= |sales| == |responses| && RefreshSales(files, sales, responses, n, visit) == st
  }

  /** After an exception, later sales are not fetched. */
  lemma {:induction false} RefreshStaysRaised(files: map<int, StoredGame>, sales: seq<int>, responses: seq<Feed.SalePage>, n: nat, m: nat,
                                              visit: DiskManager.PageVisitor, st: RefreshState)
    requires n <= m <= |sales| && st.raised && RefreshReached(files, sales, responses, n, visit, st)
    ensures RefreshReached(files, sales, responses, m, visit, st)
    decreases m
  {
    if m > n {
      RefreshStaysRaised(files, sales, responses, n, m - 1, visit, st);
    }
  }

  /** Without an exception every listed sale is fetched; with one, the sales after it are not. */
  lemma {:induction false} RefreshSalesProgress(files: map<int, StoredGame>, sales: seq<int>, responses: seq<Feed.SalePage>, n: nat, visit: DiskManager.PageVisitor)
    requires n <= |sales| == |responses|
    ensures var r := RefreshSales(files, sales, responses, n, visit);
      r.done <= n && (!r.raised ==> r.done == n) && (r.raised ==> r.done >= 1)
  {
    if n > 0 {
      RefreshSalesProgress(files, sales, responses, n - 1, visit);
    }
  }

  /** The visitor keeps every stored history sorted by id without repeated ids. */
  ghost predicate KeepsClean(visit: DiskManager.PageVisitor) {
    forall f, p, r :: DiskManager.CleanFiles(f) ==> DiskManager.CleanFiles(visit(f, p, r).files)
  }

  lemma ForceVisitorKeepsClean(now: Micros)
    ensures KeepsClean(ForceVisitor(now))
  {
    forall f, p, r | DiskManager.CleanFiles(f) ensures DiskManager.CleanFiles(ForceVisitor(now)(f, p, r).files) {
      DiskManager.GetOneSaleKeepsClean(f, p, r, now);
    }
  }

  lemma {:induction false} RefreshSalesKeepsClean(files: map<int, StoredGame>, sales: seq<int>, responses: seq<Feed.SalePage>, n: nat, visit: DiskManager.PageVisitor)
    requires n <= |sales| == |responses| && DiskManager.CleanFiles(files) && KeepsClean(visit)
    ensures DiskManager.CleanFiles(RefreshSales(files, sales, responses, n, visit).files)
  {
    if n > 0 {
      RefreshSalesKeepsClean(files, sales, responses, n - 1, visit);
      var st := RefreshSales(files, sales, responses, n - 1, visit);
      if !st.raised {
        var prior, page, response := st.files, sales[n - 1], responses[n - 1];
        assert DiskManager.CleanFiles(prior) ==> DiskManager.CleanFiles(visit(prior, page, response).files);
      }
    }
  }

  /**
   * Refreshing chosen sales keeps every stored history sorted by id without repeated ids,
   * including the histories of games the command did not reach.
   */
  lemma RefreshKeepsClean(files: map<int, StoredGame>, sales: seq<int>, responses: seq<Feed.SalePage>, now: Micros)
    requires |sales| == |responses| && DiskManager.CleanFiles(files)
    ensures DiskManager.CleanFiles(RefreshSales(files, sales, responses, |sales|, ForceVisitor(now)).files)
  {
    ForceVisitorKeepsClean(now);
    RefreshSalesKeepsClean(files, sales, responses, |sales|, ForceVisitor(now));
  }
}

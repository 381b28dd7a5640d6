/**
 * ItchClaim/ItchUser.py: the library of owned games, the claim bookkeeping, and the session file.
 *
 * Owned games are held by id, the only field `owns_game` and `save_session` read. What the site
 * answers (library pages, the claim endpoints, the redirect check, the online ownership check)
 * is given as input.
 */
module Users {
  import opened Wrappers
  import Seqs
  import Text
  import Games

  /** The URL a claim that went wrong lands on. */
  const SiteRoot: string := "https://itch.io/"
  const InvalidGame: string := "invalid game"
  const InvalidUser: string := "invalid user"

  /** What one call of `claim_game` sees from the site. */
  datatype ClaimAttempt =
    | Rejected(firstError: string, redirected: bool)  // `errors` in the reply; the redirect check's answer
    | NoClaimBox                                      // the download page has no claim box
    | Claimed(finalUrl: string, ownedOnline: bool)    // the claim form was posted; where it landed, and the ownership check
    | Raises                                          // the call raised: a reply that is not JSON or has no `url`,
                                                      // a claim box without a form, or a failed request

  /** An error reply after which `claim_game` calls itself again. */
  predicate Retries(a: ClaimAttempt) {
    a.Rejected? && (a.firstError == InvalidGame || a.firstError == InvalidUser) && a.redirected
  }

  /** A reply after which the game is added: the claim landed elsewhere than the site root, or the game is owned. */
  predicate Adds(a: ClaimAttempt) {
    a.Claimed? && (a.finalUrl != SiteRoot || a.ownedOnline)
  }

  /**
   * Whether `claim_game` ends up adding the game, given the replies of its successive calls.
   * Running out of replies stands for a retry that is not modelled further.
   */
  function ClaimAdds(attempts: seq<ClaimAttempt>): bool {
    if attempts == [] then false
    else
      match attempts[0]
      case Rejected(e, redirected) =>
        if (e == InvalidGame || e == InvalidUser) && redirected then ClaimAdds(attempts[1..]) else false
      case NoClaimBox => false
      case Claimed(url, owned) => url != SiteRoot || owned
      case Raises => false
  }

  /** Whether `claim_game` raises, given the replies of its successive calls; a call that raises adds nothing. */
  function ClaimRaises(attempts: seq<ClaimAttempt>): (r: bool)
    ensures r ==> !ClaimAdds(attempts)
  {
    if attempts == [] then false
    else
      match attempts[0]
      case Rejected(e, redirected) =>
        if (e == InvalidGame || e == InvalidUser) && redirected then ClaimRaises(attempts[1..]) else false
      case NoClaimBox => false
      case Claimed(_, _) => false
      case Raises => true
  }

  /** The call raises exactly when some reply raises and every reply before it was a retried error. */
  lemma {:induction false} ClaimRaisesSpec(attempts: seq<ClaimAttempt>)
    ensures ClaimRaises(attempts) <==>
      exists k :: 0 <= k < |attempts| && attempts[k].Raises? && forall j :: 0 <= j < k ==> Retries(attempts[j])
  {
    if attempts != [] {
      ClaimRaisesSpec(attempts[1..]);
      if ClaimRaises(attempts) {
        if !attempts[0].Raises? {
          var k :| 0 <= k < |attempts[1..]| && attempts[1..][k].Raises? && forall j :: 0 <= j < k ==> Retries(attempts[1..][j]);
          assert attempts[k + 1].Raises?;
          assert forall j :: 1 <= j < k + 1 ==> attempts[j] == attempts[1..][j - 1];
        }
      } else {
        forall k | 0 <= k < |attempts| && attempts[k].Raises?
          ensures exists j :: 0 <= j < k && !Retries(attempts[j])
        {
          if k > 0 {
            if Retries(attempts[0]) {
              assert attempts[1..][k - 1] == attempts[k];
              var j :| 0 <= j < k - 1 && !Retries(attempts[1..][j]);
              assert attempts[j + 1] == attempts[1..][j];
            } else {
              assert !Retries(attempts[0]);
            }
          }
        }
      }
    }
  }

  /** The game is added exactly when some reply adds it and every reply before it was a retried error. */
  lemma {:induction false} ClaimAddsSpec(attempts: seq<ClaimAttempt>)
    ensures ClaimAdds(attempts) <==>
      exists k :: 0 <= k < |attempts| && Adds(attempts[k]) && forall j :: 0 <= j < k ==> Retries(attempts[j])
  {
    if attempts != [] {
      ClaimAddsSpec(attempts[1..]);
      if ClaimAdds(attempts) {
        if !Adds(attempts[0]) {
          var k :| 0 <= k < |attempts[1..]| && Adds(attempts[1..][k]) && forall j :: 0 <= j < k ==> Retries(attempts[1..][j]);
          assert Adds(attempts[k + 1]);
          assert forall j :: 1 <= j < k + 1 ==> attempts[j] == attempts[1..][j - 1];
        }
      } else {
        forall k | 0 <= k < |attempts| && Adds(attempts[k])
          ensures exists j :: 0 <= j < k && !Retries(attempts[j])
        {
          if k > 0 {
            if Retries(attempts[0]) {
              assert attempts[1..][k - 1] == attempts[k];
              var j :| 0 <= j < k - 1 && !Retries(attempts[1..][j]);
              assert attempts[j + 1] == attempts[1..][j];
            } else {
              assert !Retries(attempts[0]);
            }
          }
        }
      }
    }
  }

  /** The session file contents: the two tokens, and the owned game ids (absent in older files). */
  datatype SessionData = SessionData(csrfToken: string, itchio: string, ownedGames: Option<seq<int>>)

  /** `re.sub(r'\W', '_', username)`. */
  function SafeUsername(username: string): (r: string)
    ensures |r| == |username|
    ensures forall i :: 0 <= i < |r| ==> Text.IsWordChar(r[i])
    ensures forall i :: 0 <= i < |r| ==> (Text.IsWordChar(username[i]) <==> r[i] == username[i])
    ensures forall i :: 0 <= i < |r| && !Text.IsWordChar(username[i]) ==> r[i] == '_'
  {
    if username == [] then []
    else [if Text.IsWordChar(username[0]) then username[0] else '_'] + SafeUsername(username[1..])
  }

  /** `get_default_session_filename`: `session-{safe_username}.json` in the users directory. */
  function SessionFileName(usersDir: string, username: string): (r: string)
    ensures var name := "session-" + SafeUsername(username) + ".json";
      |r| >= |name| && r[|r| - |name|..] == name && |r| >= |usersDir| && r[..|usersDir|] == usersDir
  {
    Games.PathJoin(usersDir, "session-" + SafeUsername(username) + ".json")
  }

  /**
   * Two user names of the same length that differ only where both have a non-word character
   * share a session file.
   */
  lemma SessionFileNameCollides(usersDir: string, u1: string, u2: string)
    requires |u1| == |u2|
    requires forall i :: 0 <= i < |u1| ==> u1[i] == u2[i] || (!Text.IsWordChar(u1[i]) && !Text.IsWordChar(u2[i]))
    ensures SessionFileName(usersDir, u1) == SessionFileName(usersDir, u2)
  {
    var s1, s2 := SafeUsername(u1), SafeUsername(u2);
    forall i | 0 <= i < |s1| ensures s1[i] == s2[i] {
      if u1[i] != u2[i] {
        assert s1[i] == '_' == s2[i];
      }
    }
    assert s1 == s2;
  }

  /** The owned list `load_session` leaves: the stored ids, or the old list when the key is absent. */
  function LoadedOwned(data: SessionData, prior: seq<int>): seq<int> {
    match data.ownedGames
    case Some(ids) => ids
    case None => prior
  }

  /** What the request for one library page gives: the ids of its games, or an exception. */
  datatype LibraryPage = Page(ids: seq<int>) | PageRaises

  /** The ids of the pages, an exception counting as no ids. */
  function PageIds(pages: seq<LibraryPage>): (r: seq<seq<int>>)
    ensures |r| == |pages|
    ensures forall i :: 0 <= i < |pages| && pages[i].Page? ==> r[i] == pages[i].ids
  {
    if pages == [] then []
    else PageIds(pages[..|pages| - 1]) + [if pages[|pages| - 1].Page? then pages[|pages| - 1].ids else []]
  }

  /**
   * The library page at which `reload_owned_games` stops: the first empty page or the first that
   * raises, or the end of the input.
   */
  function FirstEmptyPage(pages: seq<LibraryPage>): (k: nat)
    ensures k <= |pages|
    ensures forall j :: 0 <= j < k ==> pages[j].Page? && pages[j].ids != []
    ensures k < |pages| ==> pages[k] == Page([]) || pages[k].PageRaises?
  {
    if pages == [] || pages[0] == Page([]) || pages[0].PageRaises? then 0
    else
      var k := FirstEmptyPage(pages[1..]);
      assert forall j :: 1 <= j < k + 1 ==> pages[j] == pages[1..][j - 1];
      k + 1
  }

  class ItchUser {
    const username: string
    var ownedGames: seq<int>

    constructor (username: string)
      ensures this.username == username && ownedGames == []
    {
      this.username := username;
      ownedGames := [];
    }

    /** `owns_game`: a scan over the owned ids. */
    method OwnsGame(gameId: int) returns (owned: bool)
      ensures owned <==> gameId in ownedGames
    {
      var ids := ownedGames;
      var i := 0;
      while i < |ids|
        invariant 0 <= i <= |ids|
        invariant forall j :: 0 <= j < i ==> ids[j] != gameId
      {
        if ids[i] == gameId {
          return true;
        }
        i := i + 1;
      }
      return false;
    }

    /**
     * `reload_owned_games`: the list is emptied, then library pages 1, 2, ... are appended in
     * order until the first empty one; a page request that raises ends it with the pages before
     * it appended. `pages[i]` is page `i + 1`.
     */
    method ReloadOwnedGames(pages: seq<LibraryPage>) returns (raised: bool)
      modifies this`ownedGames
      ensures ownedGames == Seqs.Flatten(PageIds(pages[..FirstEmptyPage(pages)]))
      ensures raised <==> FirstEmptyPage(pages) < |pages| && pages[FirstEmptyPage(pages)].PageRaises?
    {
      ownedGames := [];
      var i := 0;
      while i < |pages|
        invariant 0 <= i <= FirstEmptyPage(pages)
        invariant ownedGames == Seqs.Flatten(PageIds(pages[..i]))
      {
        match pages[i]
        case PageRaises =>
          return true;
        case Page(ids) =>
          if |ids| == 0 {
            break;
          }
          assert pages[..i + 1][..i] == pages[..i];
          ownedGames := ownedGames + ids;
          i := i + 1;
      }
      return false;
    }

    /**
     * `claim_game`: a retried error calls it again with the next reply; a claim that lands
     * elsewhere than the site root, or on it for a game the site says is owned, appends the game.
     */
    method ClaimGame(gameId: int, attempts: seq<ClaimAttempt>) returns (raised: bool)
      modifies this`ownedGames
      ensures ownedGames == old(ownedGames) + (if ClaimAdds(attempts) then [gameId] else [])
      ensures raised == ClaimRaises(attempts)
      decreases |attempts|
    {
      raised := false;
      if attempts == [] {
        return;
      }
      match attempts[0]
      case Rejected(e, redirected) =>
        if e == InvalidGame || e == InvalidUser {
          if redirected {
            raised := ClaimGame(gameId, attempts[1..]);
            return;
          }
        }
      case Raises =>
        raised := true;
      case NoClaimBox =>
      case Claimed(url, owned) =>
        if url == SiteRoot {
          if owned {
            ownedGames := ownedGames + [gameId];
          }
        } else {
          ownedGames := ownedGames + [gameId];
        }
    }

    /** `save_session`: the tokens and the owned ids in list order. */
    function SaveSession(csrfToken: string, itchio: string): (data: SessionData)
      reads this
      ensures forall prior :: LoadedOwned(data, prior) == ownedGames
      ensures data.csrfToken == csrfToken && data.itchio == itchio
    {
      SessionData(csrfToken, itchio, Some(ownedGames))
    }

    /** `load_session`: the owned list is rebuilt from the stored ids, and kept when they are absent. */
    method LoadSession(data: SessionData)
      modifies this`ownedGames
      ensures ownedGames == LoadedOwned(data, old(ownedGames))
    {
      if data.ownedGames.Some? {
        ownedGames := data.ownedGames.value;
      }
    }
  }
}

# ItchClaim, modelled in Dafny

ItchClaim keeps a cache of the games that itch.io gives away in 100% sales and claims them for a
user. It crawls the sale pages `https://itch.io/s/{id}` one id after another and stores, for each
free game, a JSON document with the sale windows it has been seen in. The `claim` command claims
every listed game marked claimable that the user does not own yet. The static site lists the active and upcoming sales,
and the three JSON exports hold the same lists.

This project models the bookkeeping behind those commands and proves what it promises:

- `Sales` (sales.dfy): a sale window `(id, start, end)`. It covers `is_active` and `is_upcoming`,
  the 404 classification of the sale page, and the whole-second dictionary a window is saved as.
- `Games` (games.dfy): a game. It covers the active sale, the last upcoming sale, the first-sale
  flag, the tri-state `claimable` decision, `from_api`, the cache file name, and the stored
  document with its load/save round trip.
- `DiskManager` (disk_manager.dfy): `get_one_sale`, which merges a sale page into the cached
  documents in append or force mode. It also covers `get_all_sales`, the crawl over consecutive
  sale ids with its resume cursor. The games directory is the class `SaleCache`, a map from game
  id to stored document plus the cursor.
- `Users` (users.dfy): the `ItchUser` class, its list of owned game ids, the claim bookkeeping and
  its retries, the library reload, and the session file.
- `Cli` (cli.dfy): the `claim` and `refresh_sale_cache` commands.
- `Web` (web.py, in web.dfy): the site's sort order, the active and upcoming tables, the row
  contents, and the JSON exports.
- `LegacyDiskManager` (legacy_disk_manager.dfy): the older cache built from the catalogue of games
  on sale. It covers the free-game page filter, the loader of the games directory, and the sweep
  of expired games.
- Helpers: `Seqs`, `Sorting` (insertion sort over a strict order, standing for `list.sort(key=...)`),
  `Text` (decimal rendering, substring search, Python's string order), `Feed` (the network's
  answers as values) and `Wrappers` (`Option`).

Time is an integer count of microseconds, and "now" is a parameter. Everything fetched from
itch.io is an input value: sale pages, game cells, buy rows, claim replies and library pages.

## Model

| member | source | states |
|---|---|---|
| Sales.NewSale | ItchClaim/ItchSale.py:33-69 | Given both dates, the constructor stays offline and keeps them. A 404 leaves the dates unset: `err` is "no more sales" exactly when the final URL is the requested one, "not found" otherwise. A page whose script names another sale id raises. A found page yields whole-second dates. |
| Sales.IsActive | ItchClaim/ItchSale.py:93-97 | Definition of `is_active` (no contract of its own): strictly after the start and strictly before the end; its properties are the two lemmas below |
| Sales.IsUpcoming | ItchClaim/ItchSale.py:100-102 | Definition of `is_upcoming` (no contract of its own): strictly before the start |
| Sales.ActiveExcludesBoundaries | ItchClaim/ItchSale.py:93-97 | Both comparisons are strict: a window is not active at its own start or end instant |
| Sales.ActiveAndUpcomingExclusive | ItchClaim/ItchSale.py:93-102 | No window is active and upcoming at the same instant |
| Sales.TruncSeconds | ItchClaim/ItchSale.py:75-76 | `int(timestamp())` truncates toward zero, for negative instants as well |
| Sales.Serialize | ItchClaim/ItchSale.py:70-75 | The dictionary keeps the window's id; how the dates are truncated is `Sales.TruncSeconds` and `Sales.SerializeTruncates` |
| Sales.FromDict | ItchClaim/ItchSale.py:80-85 | The window keeps the id and lies on whole seconds; the constructor never fetches, whatever the page would say |
| Sales.SerializeFromDict | ItchClaim/ItchSale.py:72-85 | Reading a stored dictionary and writing it again gives the same dictionary |
| Sales.FromDictSerialize | ItchClaim/ItchSale.py:72-85 | A window on whole seconds survives `serialize` then `from_dict` unchanged |
| Sales.SerializeTruncates | ItchClaim/ItchSale.py:72-85 | In general the round trip only drops the sub-second part, toward zero |
| Sales.SerializeList | ItchClaim/ItchSale.py:88-90 | One dictionary per window, same length, ids in the same order |
| Sales.SerializeListAt | ItchClaim/ItchSale.py:88-90 | Each dictionary is the serialisation of the window at the same position |
| Sales.FromDictList | ItchClaim/ItchGame.py:94 | One window per stored dictionary, same length, ids in the same order, every window on whole seconds |
| Sales.FromDictListAt | ItchClaim/ItchGame.py:94 | Each loaded window is read from the dictionary at the same position |
| Sales.ListRoundTrip | ItchClaim/ItchSale.py:72-90 | Saving, then loading, a list of whole-second windows gives the same list |
| Sales.DictListRoundTrip | ItchClaim/ItchSale.py:72-90 | Loading, then saving, a stored list gives the same dictionaries |
| Games.ActiveSale | ItchClaim/ItchGame.py:163-168 | Definition of `active_sale` (no contract of its own): the contract is `Games.ActiveSaleSpec` and `Games.ActiveSaleIsFirstMinimal` |
| Games.ActiveSaleSpec | ItchClaim/ItchGame.py:163-168 | `active_sale` is `None` exactly when no window is active; otherwise it is an active window of the list that ends no later than any other active one |
| Games.ActiveSaleIsFirstMinimal | ItchClaim/ItchGame.py:163-168 | On ties it is the first such window in list order, as `min` keeps |
| Games.MaxByStart | ItchClaim/ItchGame.py:171-172 | `max` by start: a window of the list, no window starts later, and it is the first one with that start |
| Games.LastUpcomingSale | ItchClaim/ItchGame.py:170-175 | `None` exactly when no window is upcoming; otherwise the upcoming window with the latest start |
| Games.IsFirstSale | ItchClaim/ItchGame.py:178-179 | Definition of `is_first_sale` (no contract of its own): exactly one window; `Web.RowFor` states the marker it controls |
| Games.ClaimableDecision | ItchClaim/ItchGame.py:146-161 | `None` without an active sale or when the button says "Buy Now"; `False` without a buy row; `True` exactly for an active sale and a button reading "Download or claim" |
| Games.ClaimableOf | ItchClaim/ItchGame.py:146-161 | The memo wins when set; an unset memo is the decision for the game's active sale and the buy row, so `None` without an active sale |
| Games.TrimTrailingSlash | ItchClaim/ItchGame.py:116-118 | Exactly one trailing `/` is removed, and nothing else changes |
| Games.FromApi | ItchClaim/ItchGame.py:107-139 | Id, trimmed URL, price and title come from the detail record. `sales` is empty unless the record has a sale at rate 100; then it holds exactly the window looked up by the game id when that lookup resolves. It raises exactly for an empty URL or a lookup that raises. |
| Games.PathJoin | ItchClaim/ItchGame.py:144 | `os.path.join` of a relative name: the two parts joined, with a `/` inserted exactly when the directory is non-empty and does not already end with one; an empty directory gives the name alone |
| Games.GameFileName | ItchClaim/ItchGame.py:141-144 | The file name starts with the games directory and ends with `{id}.json` |
| Games.GameFileNameInjective | ItchClaim/ItchGame.py:141-144 | Two ids never share a cache file |
| Games.ToStored | ItchClaim/ItchGame.py:69-80 | The saved document keeps the id and `claimable`, and its `sales` are the serialised windows |
| Games.LoadFromDisk | ItchClaim/ItchGame.py:85-97 | The fields are read back; a stored `claimable` overwrites the memo only when it is not `None`; the loaded windows serialise back to the stored list |
| Games.SaveLoadRoundTrip | ItchClaim/ItchGame.py:69-97 | Saving, then loading, gives back a game on whole seconds, except that a `None` claimable becomes an unset memo |
| Games.SerializeMin | ItchClaim/ItchGame.py:252-260 | The export record keeps the id and `claimable`, and its `sales` are the serialised windows |
| Sorting.SortBySorted | ItchClaim/DiskManager.py:113 | Sorting by a strict order gives a sorted permutation of the input |
| DiskManager.IdBeforeIsStrictOrder | ItchClaim/DiskManager.py:113 | Comparing by id is a strict order, so the sort key is well defined |
| DiskManager.FirstIndexOfId | ItchClaim/DiskManager.py:104-110 | The search finds the first window with the id, or none exactly when no window has it |
| DiskManager.ForceMerge | ItchClaim/DiskManager.py:103-113 | Force mode: the window is in the result, and the length grows by at most one |
| DiskManager.ForceMergeReplacesFirst | ItchClaim/DiskManager.py:104-110 | Id present: same length, the window replaces the first match, and every other window is unchanged |
| DiskManager.ForceMergeInsertsSorted | ItchClaim/DiskManager.py:111-113 | Id absent: one window more, sorted by id, a permutation of the old list plus the window |
| DiskManager.ForceMergeIdempotent | ItchClaim/DiskManager.py:103-113 | Merging the same window twice is the same as merging it once |
| DiskManager.ReplacedIsFound | ItchClaim/DiskManager.py:104-110 | After an in-place replace, the search finds the window at the same index |
| DiskManager.InsertedIsFound | ItchClaim/DiskManager.py:111-113 | After append-and-sort, merging the window again leaves the list unchanged |
| DiskManager.ForceMergeElements | ItchClaim/DiskManager.py:103-113 | Force mode holds only windows of the old list and the merged one |
| DiskManager.ForceMergeKeepsSorted | ItchClaim/DiskManager.py:103-113 | Force mode keeps a list sorted by id |
| DiskManager.InsertKeepsUniqueIds | ItchClaim/DiskManager.py:113 | Inserting a window with a new id keeps the ids distinct |
| DiskManager.SortKeepsUniqueIds | ItchClaim/DiskManager.py:113 | Sorting keeps the ids distinct |
| DiskManager.ForceMergeDedup | ItchClaim/DiskManager.py:103-113 | On a list without repeated ids, force mode keeps the ids distinct, and the only window with the page's id is the new one |
| DiskManager.ForceMergeCannotRepair | ItchClaim/DiskManager.py:62-63 | Counterexample to the docstring's "makes sure": force mode leaves a repeated id or a descending pair of an already dirty history in place, so it preserves cleanliness (`DiskManager.GetOneSaleKeepsClean`) but cannot restore it |
| DiskManager.AppendModeComparesOnlyLast | ItchClaim/DiskManager.py:97-102 | For every history whose last window is not the page's sale but an earlier one is: the cell is not skipped, it raises only on an unreadable buy row during an active sale, and the saved document holds the sale's id twice |
| DiskManager.StepCell | ItchClaim/DiskManager.py:88-116 | Definition of the loop body for one free game (no contract of its own): its contract is `DiskManager.StepCellShape`, `DiskManager.StepCellRecord`, `DiskManager.StepCellHistory` and `DiskManager.StepCellClaimable` |
| DiskManager.StepCellShape | ItchClaim/DiskManager.py:88-116 | A free game is skipped exactly in append mode when its last stored window is this sale. It raises exactly when its stored history is empty, or when it is not skipped and the active sale's `claimable` check meets an unreadable buy row (ItchClaim/ItchGame.py:150-158). A saved document sits under the game's id with a window, the page's last in append mode. |
| DiskManager.ProcessCells | ItchClaim/DiskManager.py:82-116 | Definition of the loop over a page's cells (no contract of its own): its contract is the `ProcessCells...` lemmas below |
| DiskManager.ProcessCellsCounts | ItchClaim/DiskManager.py:82-121 | `games_num` equals the number of documents written; they are written in order and only for games on the page |
| DiskManager.ProcessCellsFrame | ItchClaim/DiskManager.py:82-116 | Documents of games not written are left as they were, and none is removed |
| DiskManager.ProcessCellsWellFormed | ItchClaim/DiskManager.py:82-116 | A loop that files each document under its own id with a window keeps the directory well formed |
| DiskManager.GetOneSaleEffect | ItchClaim/DiskManager.py:57-121 | -1 exactly for a 404 at the requested URL with id above 90000, and then nothing is written |
| DiskManager.GetOneSaleEffectFrame | ItchClaim/DiskManager.py:57-121 | The count is the number of documents written; only games on the page are written; every other document is unchanged; the directory stays well formed |
| DiskManager.ProcessCellsStopsAtPaid | ItchClaim/DiskManager.py:82-87 | Cells after the first paid game are never looked at |
| DiskManager.AppendPassMarksPage | ItchClaim/DiskManager.py:97-102 | After an append pass that did not raise, every free game before the first paid one ends with this sale |
| DiskManager.AppendPassOverSeenPage | ItchClaim/DiskManager.py:97-99 | An append pass over a page whose free games all end with this sale changes nothing |
| DiskManager.AppendStepAppendsSale | ItchClaim/DiskManager.py:97-102 | The append-mode step skips exactly games already ending with the sale, and otherwise saves a history ending with it |
| DiskManager.AppendRevisitIsNoOp | ItchClaim/DiskManager.py:97-99 | Fetching the same sale again in append mode, right after a pass that did not raise, saves nothing and changes no document. Resuming from the cursor relies on this. |
| DiskManager.MergedHistoryWholeSeconds | ItchClaim/DiskManager.py:101-113 | Merging keeps every window on whole seconds |
| DiskManager.StepCellRecord | ItchClaim/DiskManager.py:93-116 | A saved document stores the merged history with the cell's id, name, URL and price |
| DiskManager.StepCellHistory | ItchClaim/DiskManager.py:93-113 | A saved document reads back as the stored history with the window appended (append mode) or merged by `ForceMerge` (force mode) |
| DiskManager.ClaimableDecisionOnlyPresence | ItchClaim/ItchGame.py:147-149 | `claimable` depends only on whether some sale is active, not on which one |
| DiskManager.StepCellClaimable | ItchClaim/DiskManager.py:89-91 | The saved `claimable` is `None` when the page's sale is not active; otherwise it is decided from the buy row |
| DiskManager.StepCellForceDedup | ItchClaim/DiskManager.py:103-113 | In force mode over a history without repeated ids, the saved history has no repeated ids and holds the window exactly once |
| DiskManager.ForceMergeKeepsIncreasing | ItchClaim/DiskManager.py:103-113 | Force mode keeps ids strictly increasing |
| DiskManager.StepCellKeepsClean | ItchClaim/DiskManager.py:103-116 | A document saved in force mode over clean histories has strictly increasing ids |
| DiskManager.StoredIdsKept | ItchClaim/ItchSale.py:88-90 | Saving and loading keeps the ids of a history |
| DiskManager.ProcessCellsKeepsClean | ItchClaim/DiskManager.py:82-116 | A loop whose step saves only clean histories keeps every history clean |
| DiskManager.GetOneSaleKeepsClean | ItchClaim/DiskManager.py:57-121 | Force mode preserves clean histories: over histories sorted by id without repeated ids, every history stays so. The docstring's stronger "makes sure" fails on dirty histories (`DiskManager.ForceMergeCannotRepair`) |
| DiskManager.AppendVisitor | ItchClaim/DiskManager.py:40 | Definition (no contract of its own): `get_one_sale(page, force=False)` as a function of the documents, the id and the response |
| DiskManager.Visit | ItchClaim/DiskManager.py:37-50 | Definition of one crawl step (no contract of its own): -1 stops the crawl without moving the cursor; otherwise the cursor moves to the id and `games_num` adds the count, nothing for an exception |
| DiskManager.CrawlPrefix | ItchClaim/DiskManager.py:35-50 | Definition of the crawl over the first `n` ids (no contract of its own): its contract is `DiskManager.CrawlPrefixProgress` and `DiskManager.CrawlStopsAtFirstTerminal` |
| DiskManager.AppendVisitorIsGetOneSale | ItchClaim/DiskManager.py:40 | The crawl calls `get_one_sale` in append mode |
| DiskManager.CrawlStaysStopped | ItchClaim/DiskManager.py:37-42 | Once -1 has been returned, later ids change nothing |
| DiskManager.FirstTerminal | ItchClaim/DiskManager.py:37-42 | The first id whose response ends the crawl, if any |
| DiskManager.CrawlPrefixProgress | ItchClaim/DiskManager.py:35-50 | The crawl stops exactly at the first terminal response, after visiting it. The cursor ends at the last id before it, or stays put when no id was visited. |
| DiskManager.CrawlPrefixKeepsWellFormed | ItchClaim/DiskManager.py:35-50 | A visitor that keeps the directory well formed keeps it so over the whole crawl |
| DiskManager.AppendVisitorStopsOnTerminal | ItchClaim/DiskManager.py:70-72 | Append-mode `get_one_sale` returns -1 exactly for the terminal response |
| DiskManager.AppendVisitorKeepsWellFormed | ItchClaim/DiskManager.py:57-121 | Append-mode `get_one_sale` keeps the directory well formed |
| DiskManager.CrawlStopsAtFirstTerminal | ItchClaim/DiskManager.py:35-50 | `get_all_sales` visits ids `start, start+1, ...`, stops right after the first terminal one, and otherwise visits every id it has a response for. The cursor is the last id visited before the terminal one. |
| DiskManager.CrawlKeepsWellFormed | ItchClaim/DiskManager.py:35-50 | Every document the crawl leaves sits under its own id with at least one window |
| DiskManager.SaleCache.GetOneSale | ItchClaim/DiskManager.py:57-121 | The new documents and the outcome are those of `get_one_sale`; -1 leaves the directory untouched |
| DiskManager.SaleCache.SaveCells | ItchClaim/DiskManager.py:82-116 | The loop over cells writes what the loop specification does, documents written before a crash included |
| DiskManager.SaleCache.GetAllSales | ItchClaim/DiskManager.py:29-50 | The documents, cursor, ids visited and `games_num` are those of the crawl |
| DiskManager.LoadAndMerge | ItchClaim/DiskManager.py:93-116 | The loop body loads, skips or merges, decides `claimable` (raising on an unreadable buy row during an active sale), and builds the document as `DiskManager.StepCell` says |
| DiskManager.MergeForce | ItchClaim/DiskManager.py:103-113 | The search loop with in-place replace or append-and-sort computes `ForceMerge` |
| Users.ClaimAdds | ItchClaim/ItchUser.py:145-178 | Definition (no contract of its own): whether the chain of claim replies adds the game; its contract is `Users.ClaimAddsSpec` |
| Users.ClaimRaises | ItchClaim/ItchUser.py:145-178 | Whether the call raises (a reply that is not JSON or has no `url`, a claim box without a form, a failed request); a call that raises never adds the game |
| Users.ClaimRaisesSpec | ItchClaim/ItchUser.py:145-178 | The call raises exactly when some reply raises and every earlier reply was a retried error |
| Users.ClaimAddsSpec | ItchClaim/ItchUser.py:145-178 | A claim adds the game exactly when some reply adds it and every earlier reply was a retried error ("invalid game"/"invalid user" plus a changed redirect) |
| Users.SafeUsername | ItchClaim/ItchUser.py:122 | Same length; every character is a word character; a character is kept exactly when it already was one, and every other character becomes `_` |
| Users.SessionFileName | ItchClaim/ItchUser.py:120-124 | The name starts with the users directory and ends with `session-{safe}.json` |
| Users.SessionFileNameCollides | ItchClaim/ItchUser.py:122-123 | Any two user names of the same length that differ only at positions where both have a non-word character share a session file |
| Users.LoadedOwned | ItchClaim/ItchUser.py:115-118 | Definition (no contract of its own): the stored ids, or the old list when the key is absent; `Users.ItchUser.LoadSession` and `Users.ItchUser.SaveSession` state it |
| Users.PageIds | ItchClaim/ItchUser.py:180-190 | One id list per library page, in order, holding that page's game ids |
| Users.FirstEmptyPage | ItchClaim/ItchUser.py:192-198 | Where the reload stops: the first page that is empty or whose request raises, every page before it read and non-empty |
| Users.ItchUser.OwnsGame | ItchClaim/ItchUser.py:131-135 | True exactly when the id is among the owned ids |
| Users.ItchUser.ReloadOwnedGames | ItchClaim/ItchUser.py:192-199 | The owned list becomes the concatenation of the pages before the first empty or raising one; it raises exactly when it stops at a page whose request raises |
| Users.ItchUser.ClaimGame | ItchClaim/ItchUser.py:145-178 | The owned list is kept, with the game appended exactly when the claim adds it; it raises exactly when `Users.ClaimRaises` says so, and then appends nothing |
| Users.ItchUser.SaveSession | ItchClaim/ItchUser.py:98-107 | The session keeps the tokens, and loading it gives back the owned ids in order |
| Users.ItchUser.LoadSession | ItchClaim/ItchUser.py:109-118 | The owned list is rebuilt from the stored ids, or kept when the key is absent |
| Cli.Selected | ItchClaim/__main__.py:105 | Definition of the loop's test (no contract of its own): not owned by the current list, and `claimable` is `True` |
| Cli.ClaimPass | ItchClaim/__main__.py:103-108 | Definition of the claim loop over the first `n` games, an exception from `claim_game` ending it (no contract of its own): its contract is `Cli.ClaimPassGrows`, `Cli.ClaimPassCallsSelected` and `Cli.ClaimPassStaysRaised` |
| Cli.ClaimPassGrows | ItchClaim/__main__.py:103-108 | The claim loop only extends the owned list, and only with games it tried to claim. It tries only listed games that were not owned at the start and are claimable. |
| Cli.ClaimPassCallsSelected | ItchClaim/__main__.py:104-108 | With no id listed twice and no exception, `claim_game` is called on exactly the unowned, claimable games, in list order. After an exception, the games called are exactly those selected up to the one whose claim raised. |
| Cli.ClaimPassStaysRaised | ItchClaim/__main__.py:103-108 | After a claim that raised, no further game is tried and nothing changes |
| Cli.ItchClaim.ClaimListed | ItchClaim/__main__.py:103-108 | The loop leaves the owned list the claim pass computes and raises exactly when it does; the count is the number of calls, less the one that raised |
| Cli.ItchClaim.Claim | ItchClaim/__main__.py:86-110 | Nothing happens without a user. The library is reloaded when the owned list is empty, and a reload that raises ends the command with the pages read so far and no claim tried. The count is the number of claims tried, and the "No new games" message shows exactly when it is 0 and nothing raised; a claim that raises ends the command without the message. |
| Cli.ItchClaim.RefreshSaleCache | ItchClaim/__main__.py:44-68 | With listed sales: force mode once per sale, and the cursor untouched. Otherwise: the crawl from the stored cursor, or from 1 without one. |
| Cli.RefreshListedSales | ItchClaim/__main__.py:55-59 | The documents after the force-mode loop over the listed sales, an exception ending it |
| Cli.ForceVisitor | ItchClaim/__main__.py:57-58 | Definition (no contract of its own): `get_one_sale(sale_id)` in its default force mode |
| Cli.RefreshSales | ItchClaim/__main__.py:55-59 | Definition of the loop over the first `n` listed sales (no contract of its own): its contract is `Cli.RefreshStaysRaised`, `Cli.RefreshSalesProgress` and `Cli.RefreshSalesKeepsClean` |
| Cli.ForceVisitorIsGetOneSale | ItchClaim/__main__.py:57-58 | The listed sales are fetched with `get_one_sale`'s default, force mode |
| Cli.RefreshStaysRaised | ItchClaim/__main__.py:57-58 | After an exception no further sale is fetched |
| Cli.RefreshSalesProgress | ItchClaim/__main__.py:55-59 | Without an exception every listed sale is fetched |
| Cli.ForceVisitorKeepsClean | ItchClaim/__main__.py:57-58 | Each force-mode fetch keeps every history sorted by id without repeated ids |
| Cli.RefreshSalesKeepsClean | ItchClaim/__main__.py:55-59 | The loop keeps every history clean |
| Cli.RefreshKeepsClean | ItchClaim/__main__.py:55-59 | Refreshing listed sales keeps every history sorted by id without repeated ids, unreached games included |
| Web.GameBeforeIsStrictOrder | ItchClaim/web.py:44 | The key `(-last sale id, name)` is a strict order |
| Web.ByLastSale | ItchClaim/web.py:44 | Definition (no contract of its own): the games sorted by `(-last sale id, name)`; its contract is `Web.ByLastSaleOrder` |
| Web.ByLastSaleOrder | ItchClaim/web.py:44 | The sorted list is a permutation with later last sales first; ties are in name order |
| Web.TableGames | ItchClaim/web.py:48-51 | Definition (no contract of its own): the sorted list filtered by the table's sale; its contract is `Web.TableGamesSpec` |
| Web.TableGamesSpec | ItchClaim/web.py:48-51 | Each table holds exactly the games with the table's sale, keeps the sorted order, and is a subsequence of the sorted list |
| Web.ClaimableLabel | ItchClaim/web.py:81-89 | `False` reads "Not claimable", `True` "claimable", anything else "Unknown", and each label belongs to exactly one value |
| Web.SaleDate | ItchClaim/web.py:91-94 | Active rows show the earliest end among active windows; upcoming rows show the start of an upcoming window that no window starts after |
| Web.RowFor | ItchClaim/web.py:96-104 | A row has the game's name, URL and id, the first-sale marker exactly for one sale, the label of its `claimable` and its sale date |
| Web.Rows | ItchClaim/web.py:78-105 | One row per game, in order |
| Web.GenerateRows | ItchClaim/web.py:78-105 | The loop builds exactly those rows |
| Web.MinList | ItchClaim/web.py:64-74 | One `serialize_min` record per game, in order |
| Web.SiteOf | ItchClaim/web.py:42-76 | Definition (no contract of its own): the two tables and the three exports built from the sorted list; `Web.GenerateWeb` is proved to compute it |
| Web.GenerateWeb | ItchClaim/web.py:42-76 | The games are sorted by the site's key; the tables and exports are built from the sorted list |
| LegacyDiskManager.FreeGames | src/ItchClaim/DiskManager.py:36-39 | Definition (no contract of its own): the page's games at price 0, in page order; its contract is `LegacyDiskManager.FreeGamesSpec` |
| LegacyDiskManager.FreeGamesSpec | src/ItchClaim/DiskManager.py:36-39 | Exactly the free games are kept, in page order |
| LegacyDiskManager.GetOnlineSalePage | src/ItchClaim/DiskManager.py:30-42 | `False` exactly when no free game was found and the feed reports no items; otherwise the free games, even when there are none |
| LegacyDiskManager.FirstClass | src/ItchClaim/DiskManager.py:52-53 | Where the loop first meets the class object, every element before it a game |
| LegacyDiskManager.ExpiredFiles | src/ItchClaim/DiskManager.py:53-54 | The files of exactly the expired games in a loaded list |
| LegacyDiskManager.GamesDir.ListGames | src/ItchClaim/DiskManager.py:46-48 | Every admitted file is loaded once, after the given prefix |
| LegacyDiskManager.GamesDir.LoadAllGamesAsWritten | src/ItchClaim/DiskManager.py:44-49 | The list starts with the class `ItchGame` itself, then one game per directory entry, with no `.json` filter |
| LegacyDiskManager.GamesDir.LoadAllGames | ItchClaim/DiskManager.py:123-131 | One game per `.json` file, each once, and nothing else |
| LegacyDiskManager.GamesDir.Sweep | src/ItchClaim/DiskManager.py:52-54 | The loop deletes the files of the expired games it reaches before the class object, and raises exactly when it meets it |
| LegacyDiskManager.GamesDir.RemoveExpiredSalesAsWritten | src/ItchClaim/DiskManager.py:51-54 | As written: it always raises, and deletes nothing |
| LegacyDiskManager.GamesDir.RemoveExpiredSales | src/ItchClaim/DiskManager.py:51-54 | Over the games alone: it deletes exactly the `.json` files of games whose sale ended before now, leaves every other file unchanged, and does not raise |

## Left out

- HTTP, HTML and JSON scraping, cookies and the Cloudflare wrapper: every answer from itch.io is an input value (`Feed`, claim replies, library pages, catalogue pages).
- Login and two-factor authentication (`login`, `send_top`, src/ItchClaim/ItchContext.py, src/ItchClaim/ItchUser.py): network and terminal input.
- File and JSON I/O: the games directory is a map from id (or file name) to document, and the cursor is an `Option<int>`. Writes go through the map, and a crash keeps the documents written before it.
- `get_all_sale_pages`, the category pass of `refresh_sale_cache`: it is not part of this model, so the model's `refresh_sale_cache` ends after the crawl.
- `check_redirect_url` and `owns_game_online`: their answers are fields of the claim replies.
- `Users.ClaimAdds`: a claim whose replies run out while retrying counts as not adding the game, because the retry chain is given as a finite list.
- `Users.ItchUser.ReloadOwnedGames`: the source keeps requesting library pages until one comes back empty. The model reads the pages it is given, and running out of them stands for a run that has not reached an empty page yet.
- `DiskManager.SaleCache.GetAllSales`: the source loops until the terminal page. The model walks the responses it is given, and running out of them stands for an interrupted run.
- `Users.SafeUsername`: `\W` is modelled on ASCII word characters. Python's Unicode word characters are not.
- `Games.FromApi`: when the sale lookup by game id resolves to nothing (a 404), the source keeps that `ItchSale` without dates in `sales`. The model drops it, because a window here always has both dates; `FromApi` then returns the game with no window.
- A game cell without a price, whose `from_api` lookup raises (ItchClaim/ItchGame.py:62-66): the cell's price is taken as already resolved, so that exception out of `get_one_sale` is not modelled.
- `DiskManager.ForceMerge`: an insertion sort stands for `list.sort`, and its stability is not proved. It can only matter for a history that already holds the same id twice.
- The clock is read once: `now` is one parameter per command, while the source calls `datetime.now()` at each `is_active` and `is_upcoming`, so a sale ending during a command can read both ways there.
- `Web.ByLastSale`: an insertion sort stands for `list.sort`. Sortedness and permutation are proved; stability is not, and the key is a strict order, so only games with the same last sale id and the same name could be reordered.
- `Web.GenerateWeb`: the source sorts the caller's list in place; the model returns the sorted list. A game page that cannot be read makes the source's `claimable` check raise and abort the site; `buyRow` yields readable rows only, so that exception is not modelled here (it is in `DiskManager.StepCell`).
- Date formatting (`strftime`), HTML templating, `index.html` and the JSON text: rows and exports are modelled as the values put into them.
- `generate_rows` with a type other than "active" or "upcoming" is not modelled. In the source `sale_date` is then unbound.
- The `save_session` calls inside `claim` and `refresh_library`: the session's contents are `Users.ItchUser.SaveSession`.
- `download_from_remote_cache`: its parsed list is the input of `Cli.ItchClaim.Claim`.
- `Games.ActiveSale` carries no `ensures` of its own: its contract is the lemma `Games.ActiveSaleSpec`, which keeps the recursive definition cheap to unfold. The other rows marked "no contract of its own" are definitions in the same way, each stated by the lemmas named in its row.
- `cached_property` memoisation: `claimable` is an explicit optional field. `active_sale` is recomputed where it is read.
- Float price parsing: a price is a real number, and "free" means equal to 0.
- `ItchSale`'s `STATUS_UPDATED` re-save in `load_from_disk` (ItchClaim/ItchGame.py:99-103): nothing in the modelled code sets that error.
- Time zones: `fromtimestamp` and `timestamp` are treated as inverse.
- The `ghost visit` parameter of `DiskManager.SaleCache.GetOneSale`, `DiskManager.SaleCache.GetAllSales` and `Cli.RefreshListedSales` is a proof device. It names the function `get_one_sale` computes and is not an argument of the source.
- The older `ItchGame` class (src/ItchClaim/ItchGame.py) defines neither `from_div`, `get_games_dir`, `load_from_disk` nor `sale_end`. The older catalogue cells and saved games are plain values here.
- `LegacyDiskManager.GamesDir.RemoveExpiredSales` deletes the file a game was loaded from. The source deletes `get_default_game_filename()`, taken here to name that same file.

## Findings

| source | as written | input that shows it | evidently intended | confidence | as-written member | corrected member |
|---|---|---|---|---|---|---|
| src/ItchClaim/DiskManager.py:44-54 | `load_all_games` starts its list with the class `ItchGame` itself and has no `.json` filter; `remove_expired_sales` reads `sale_end` on that class first, which raises before any file is deleted | a games directory holding one file `1.json` whose sale ended before now: the sweep raises and the file stays | the list holds only the loaded games, one per `.json` file, as ItchClaim/DiskManager.py:123-131 builds it, so every expired game's file is deleted | not executed; follows from the code as read | LegacyDiskManager.GamesDir.RemoveExpiredSalesAsWritten | LegacyDiskManager.GamesDir.RemoveExpiredSales |

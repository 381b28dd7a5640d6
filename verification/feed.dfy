/**
 * What the network gives the core, as plain values. Fetching and HTML/JSON scraping are
 * outside the model; each of these is the outcome a scrape would produce.
 */
module Feed {
  import opened Wrappers

  /** The `buy_row` div of a game's own page, as the claimable check reads it. */
  datatype BuyRow =
    | NoBuyRow                    // no `buy_row` div: a browser-only game
    | BuyButton(text: string)     // the text of its `button buy_btn` link
    | Unreadable                  // the page request raised, or the row has no such link
                                  // (reading `.text` of `None` raises)

  /** A buy row the claimable check can read without raising. */
  type ReadableRow = r: BuyRow | !r.Unreadable? witness NoBuyRow

  /**
   * One `game_cell` div of a sale page, as `ItchGame.from_div` turns it into a game:
   * its id, title, link, price (already resolved, through the detail record when the cell
   * shows none), cover image, and the buy row of the page its link points to.
   */
  datatype GameCell = GameCell(
    id: int,
    name: string,
    url: string,
    price: real,
    coverImage: Option<string>,
    buyRow: BuyRow)

  /** The response to a request for the sale page `https://itch.io/s/{id}`. */
  datatype SalePage =
    | NotFound(effectiveUrl: string)   // status 404; the URL after redirects
    | Found(saleId: int, startSeconds: int, endSeconds: int, cells: seq<GameCell>)
      // the id, start and end in the page's `init_Sale` script (whole seconds), and its game cells
    | Failed                           // the request or the parsing raised
}

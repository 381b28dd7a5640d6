/**
 * ItchClaim/ItchSale.py: one sale window (id, start, end), its status at a given instant,
 * and its conversion to and from the whole-second dictionary stored on disk.
 */
module Sales {
  import opened Wrappers
  import Feed
  import Text

  /** A Python datetime, as microseconds since the epoch. */
  type Micros = int

  const MicrosPerSecond: int := 1_000_000

  /** A resolved sale window: both dates known. */
  datatype SaleWindow = SaleWindow(id: int, start: Micros, end: Micros)

  /** `ItchSale.serialize`'s dictionary: whole-second timestamps. */
  datatype SaleDict = SaleDict(id: int, start: int, end: int)

  /** The `err` values `get_data_online` sets on a 404. */
  datatype SaleError = NoMoreSalesAvailable | NotFound404

  /** What constructing `ItchSale(id, end, start)` yields. */
  datatype SaleLookup =
    | Resolved(window: SaleWindow)        // start and end are set
    | Unresolved(id: int, err: SaleError) // a 404: err is set, start and end are not
    | Raised                              // the constructor raised

  /** The URL `get_data_online` requests for a sale id. */
  function SaleUrl(id: int): string {
    "https://itch.io/s/" + Text.IntToString(id)
  }

  /**
   * `ItchSale(id, end, start)`: a window given both dates stays offline; otherwise the sale page
   * is fetched. A 404 sets `err` (no more sales when the effective URL is the requested one, moved
   * otherwise); a page whose script names another sale id raises.
   */
  function NewSale(id: int, end: Option<Micros>, start: Option<Micros>, page: Feed.SalePage): (r: SaleLookup)
    ensures start.Some? && end.Some? ==> r == Resolved(SaleWindow(id, start.value, end.value))
    ensures r.Resolved? ==> r.window.id == id
    ensures r.Unresolved? <==> (start.None? || end.None?) && page.NotFound?
    ensures r.Unresolved? ==> r.id == id && (r.err == NoMoreSalesAvailable <==> page.effectiveUrl == SaleUrl(id))
    ensures r.Raised? <==> (start.None? || end.None?) && (page.Failed? || (page.Found? && page.saleId != id))
    ensures r.Resolved? && (start.None? || end.None?) ==>
      page.Found? && r.window.start == page.startSeconds * MicrosPerSecond && r.window.end == page.endSeconds * MicrosPerSecond
  {
    if start.Some? && end.Some? then Resolved(SaleWindow(id, start.value, end.value))
    else
      match page
      case NotFound(url) => Unresolved(id, if url == SaleUrl(id) then NoMoreSalesAvailable else NotFound404)
      case Found(saleId, s, e, _) =>
        if id != saleId then Raised
        else Resolved(SaleWindow(id, s * MicrosPerSecond, e * MicrosPerSecond))
      case Failed => Raised
  }

  /** `is_active`: strictly after the start and strictly before the end. */
  predicate IsActive(w: SaleWindow, now: Micros) {
    now < w.end && now > w.start
  }

  /** `is_upcoming`: strictly before the start. */
  predicate IsUpcoming(w: SaleWindow, now: Micros) {
    now < w.start
  }

  /** A window is never active at its own start or end instant. */
  lemma ActiveExcludesBoundaries(w: SaleWindow)
    ensures !IsActive(w, w.start) && !IsActive(w, w.end)
  {
  }

  /** No window is active and upcoming at the same instant. */
  lemma ActiveAndUpcomingExclusive(w: SaleWindow, now: Micros)
    ensures !(IsActive(w, now) && IsUpcoming(w, now))
  {
  }

  /** `int(dt.timestamp())`: seconds, truncated toward zero as Python's `int` does. */
  function TruncSeconds(t: Micros): (r: int)
    ensures t >= 0 ==> 0 <= r && r * MicrosPerSecond <= t < r * MicrosPerSecond + MicrosPerSecond
    ensures t < 0 ==> r <= 0 && r * MicrosPerSecond - MicrosPerSecond < t <= r * MicrosPerSecond
  {
    if t >= 0 then t / MicrosPerSecond else -((-t) / MicrosPerSecond)
  }

  /** The instant lies on a whole second. */
  predicate WholeSeconds(w: SaleWindow) {
    w.start % MicrosPerSecond == 0 && w.end % MicrosPerSecond == 0
  }

  /** `ItchSale.serialize`. */
  function Serialize(w: SaleWindow): (d: SaleDict)
    ensures d.id == w.id
  {
    SaleDict(w.id, TruncSeconds(w.start), TruncSeconds(w.end))
  }

  /** `ItchSale.from_dict`: the constructor with both dates given, so it never goes online. */
  function FromDict(d: SaleDict): (w: SaleWindow)
    ensures w.id == d.id && WholeSeconds(w)
    ensures forall page :: NewSale(d.id, Some(d.end * MicrosPerSecond), Some(d.start * MicrosPerSecond), page) == Resolved(w)
  {
    SaleWindow(d.id, d.start * MicrosPerSecond, d.end * MicrosPerSecond)
  }

  /** Reading back what was written gives the same dictionary. */
  lemma SerializeFromDict(d: SaleDict)
    ensures Serialize(FromDict(d)) == d
  {
    var k := MicrosPerSecond;
    assert TruncSeconds(d.start * k) == d.start;
    assert TruncSeconds(d.end * k) == d.end;
  }

  /** A window on whole seconds survives serialisation unchanged. */
  lemma FromDictSerialize(w: SaleWindow)
    requires WholeSeconds(w)
    ensures FromDict(Serialize(w)) == w
  {
  }

  /** Serialisation only drops the sub-second part, toward zero. */
  lemma SerializeTruncates(w: SaleWindow)
    ensures var r := FromDict(Serialize(w));
      r.id == w.id &&
      (w.start >= 0 ==> r.start <= w.start < r.start + MicrosPerSecond) &&
      (w.start < 0 ==> r.start - MicrosPerSecond < w.start <= r.start)
  {
  }

  /** `ItchSale.serialize_list`: `serialize` applied to each window, in order. */
  function SerializeList(ws: seq<SaleWindow>): (ds: seq<SaleDict>)
    ensures |ds| == |ws|
    ensures forall i :: 0 <= i < |ws| ==> ds[i].id == ws[i].id
  {
    if ws == [] then [] else [Serialize(ws[0])] + SerializeList(ws[1..])
  }

  /** The list comprehension `load_from_disk` applies to the stored `sales`. */
  function FromDictList(ds: seq<SaleDict>): (ws: seq<SaleWindow>)
    ensures |ws| == |ds|
    ensures forall i :: 0 <= i < |ds| ==> ws[i].id == ds[i].id && WholeSeconds(ws[i])
  {
    if ds == [] then [] else [FromDict(ds[0])] + FromDictList(ds[1..])
  }

  /** Each stored dictionary is the serialisation of the window at the same position. */
  lemma {:induction false} SerializeListAt(ws: seq<SaleWindow>)
    ensures forall i :: 0 <= i < |ws| ==> SerializeList(ws)[i] == Serialize(ws[i])
  {
    if ws != [] {
      SerializeListAt(ws[1..]);
      assert forall i :: 1 <= i < |ws| ==> ws[1..][i - 1] == ws[i];
    }
  }

  /** Each loaded window is read from the dictionary at the same position. */
  lemma {:induction false} FromDictListAt(ds: seq<SaleDict>)
    ensures forall i :: 0 <= i < |ds| ==> FromDictList(ds)[i] == FromDict(ds[i])
  {
    if ds != [] {
      FromDictListAt(ds[1..]);
      assert forall i :: 1 <= i < |ds| ==> ds[1..][i - 1] == ds[i];
    }
  }

  /** Saving then loading a list of whole-second windows gives it back, element by element. */
  lemma ListRoundTrip(ws: seq<SaleWindow>)
    requires forall i :: 0 <= i < |ws| ==> WholeSeconds(ws[i])
    ensures FromDictList(SerializeList(ws)) == ws
  {
    var ds := SerializeList(ws);
    var r := FromDictList(ds);
    SerializeListAt(ws);
    FromDictListAt(ds);
    forall i | 0 <= i < |ws| ensures r[i] == ws[i] {
      FromDictSerialize(ws[i]);
    }
  }

  /** Loading then saving a stored list gives the same dictionaries. */
  lemma DictListRoundTrip(ds: seq<SaleDict>)
    ensures SerializeList(FromDictList(ds)) == ds
  {
    var ws := FromDictList(ds);
    var r := SerializeList(ws);
    FromDictListAt(ds);
    SerializeListAt(ws);
    forall i | 0 <= i < |ds| ensures r[i] == ds[i] {
      SerializeFromDict(ds[i]);
    }
  }
}

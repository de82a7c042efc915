/**
 * The page's own state: the list of gifts last loaded and the value of
 * the current `kdo` filter, with the handlers that change them or read
 * them (`loadGifts`, `filterByKdo`, `filterByStatus`, `searchGifts`,
 * `toggleStatus`).
 */
module GiftPage {
  import opened JsText
  import opened GiftModel
  import opened Status
  import opened Stats
  import opened GiftFilters

  /** What the JSONP callback hands over: an array of records, or any
      other JSON value. */
  datatype Payload = GiftArray(items: seq<Gift>) | NotAnArray

  /** How a load ends: the callback ran with a payload, or the script tag
      failed or timed out. */
  datatype LoadOutcome = Received(payload: Payload) | LoadFailed

  /** What a successful load renders: the gift cards, the three counters
      and the filter bar. */
  datatype View = View(display: Display, stats: GiftStats, filters: seq<FilterOption>)

  /** The list a payload becomes: the array itself, or no gifts at all. */
  function LoadedGifts(payload: Payload): (gs: seq<Gift>)
    ensures payload.NotAnArray? ==> gs == []
    ensures payload.GiftArray? ==> gs == payload.items
  {
    if payload.GiftArray? then payload.items else []
  }

  /** The request parameters `toggleStatus` sends: `save` with the pair
      (kdo, co), the next status, and `odKoho` and `odkaz` copied from the
      first loaded gift with that pair, or '' when none is loaded. */
  function ToggleRequest(gs: seq<Gift>, kdo: string, co: string, currentStatus: string): (p: map<string, string>)
    ensures p.Keys == {"action", "kdo", "odKoho", "co", "odkaz", "status"}
    ensures p["action"] == "save" && p["kdo"] == kdo && p["co"] == co
    ensures p["status"] == GetNextStatus(currentStatus) && p["status"] in Cycle
    ensures (forall g :: g in gs ==> !IsKeyMatch(g, kdo, co)) ==> p["odKoho"] == "" && p["odkaz"] == ""
    ensures forall i :: 0 <= i < |gs| && IsKeyMatch(gs[i], kdo, co)
                        && (forall j :: 0 <= j < i ==> !IsKeyMatch(gs[j], kdo, co))
                        ==> p["odKoho"] == gs[i].odKoho && p["odkaz"] == gs[i].odkaz
  {
    NextStatusInCycle(currentStatus);
    var found := FindGift(gs, kdo, co);
    var odKoho := if found.Some? then found.value.odKoho else "";
    var odkaz := if found.Some? then found.value.odkaz else "";
    map["action" := "save", "kdo" := kdo, "odKoho" := odKoho, "co" := co,
        "odkaz" := odkaz, "status" := GetNextStatus(currentStatus)]
  }

  /** The page state of the gift list. */
  class GiftBoard {
    var gifts: seq<Gift>
    var currentFilter: string

    /** The page starts with no gifts and the `all` filter. */
    constructor()
      ensures gifts == [] && currentFilter == All
    {
      gifts := [];
      currentFilter := All;
    }

    /** `loadGifts` once the JSONP request has ended. A failed request
        changes nothing and renders no list. Otherwise the payload (or
        nothing, when it is not an array) becomes the list, which is
        rendered and counted in full; the filter bar is built while the
        previous filter is still current, and only then does the filter
        return to `all`. */
    method LoadGifts(outcome: LoadOutcome) returns (view: Option<View>)
      modifies this
      ensures outcome.LoadFailed? ==>
                view.None? && gifts == old(gifts) && currentFilter == old(currentFilter)
      ensures outcome.Received? ==>
                && gifts == LoadedGifts(outcome.payload)
                && currentFilter == All
                && view == Some(View(DisplayGifts(gifts), UpdateStats(gifts), GenerateFilters(gifts, old(currentFilter))))
    {
      if outcome.LoadFailed? {
        return None;
      }
      gifts := LoadedGifts(outcome.payload);
      var display := DisplayGifts(gifts);
      var stats := UpdateStats(gifts);
      var filters := GenerateFilters(gifts, currentFilter);
      currentFilter := All;
      view := Some(View(display, stats, filters));
    }

    /** `filterByKdo`: the chosen value becomes the current filter, and
        the gifts it selects are rendered and counted. */
    method FilterByKdo(kdoValue: string) returns (display: Display, stats: GiftStats)
      modifies this
      ensures gifts == old(gifts) && currentFilter == kdoValue
      ensures display == DisplayGifts(GiftFilters.FilterByKdo(gifts, kdoValue))
      ensures stats == UpdateStats(GiftFilters.FilterByKdo(gifts, kdoValue))
    {
      currentFilter := kdoValue;
      var shown := GiftFilters.FilterByKdo(gifts, kdoValue);
      display := DisplayGifts(shown);
      stats := UpdateStats(shown);
    }

    /** `filterByStatus`: renders, in order, the loaded gifts with exactly
        that status (every gift for `all`) that have a `kdo` and a `co`,
        each as often as it is loaded. */
    method FilterByStatus(status: string) returns (display: Display)
      ensures display == DisplayGifts(GiftFilters.FilterByStatus(gifts, status))
      ensures display.Cards? ==> IsSubsequence(display.shown, gifts)
      ensures display.Cards? && status != All ==>
                forall g :: g in display.shown <==> g in gifts && g.status == status && HasKey(g)
      ensures display.Cards? && status != All ==>
                forall g :: multiset(display.shown)[g]
                            == if g.status == status && HasKey(g) then multiset(gifts)[g] else 0
      ensures status == All ==> display == DisplayGifts(gifts)
      ensures display.NoGifts? <==> forall g :: g in gifts ==> status != All && g.status != status
      ensures display.InvalidData? <==>
                (exists g :: g in gifts && (status == All || g.status == status))
                && forall g :: g in gifts && (status == All || g.status == status) ==> !HasKey(g)
    {
      var shown := GiftFilters.FilterByStatus(gifts, status);
      display := DisplayGifts(shown);
      if display.Cards? {
        SubsequenceTransitive(display.shown, shown, gifts);
      }
      assert shown == [] || shown[0] in shown;
    }

    /** `searchGifts`: renders, in order, the loaded gifts whose `kdo` or
        `co` contains the query regardless of case, that have a `kdo` and
        a `co`, each as often as it is loaded. */
    method SearchGifts(query: string) returns (display: Display)
      ensures display == DisplayGifts(GiftFilters.SearchGifts(gifts, query))
      ensures display.Cards? ==> IsSubsequence(display.shown, gifts)
      ensures display.Cards? ==>
                forall g :: g in display.shown <==> g in gifts && MatchesQuery(g, query) && HasKey(g)
      ensures display.Cards? ==>
                forall g :: multiset(display.shown)[g]
                            == if MatchesQuery(g, query) && HasKey(g) then multiset(gifts)[g] else 0
      ensures display.NoGifts? <==> forall g :: g in gifts ==> !MatchesQuery(g, query)
      ensures display.InvalidData? <==>
                (exists g :: g in gifts && MatchesQuery(g, query))
                && forall g :: g in gifts && MatchesQuery(g, query) ==> !HasKey(g)
    {
      var shown := GiftFilters.SearchGifts(gifts, query);
      display := DisplayGifts(shown);
      if display.Cards? {
        SubsequenceTransitive(display.shown, shown, gifts);
      }
      assert shown == [] || shown[0] in shown;
    }

    /** `toggleStatus` up to the request it sends: `save` with the pair
        and the next status, `odKoho` and `odkaz` taken from the gift
        `gifts.find` returns, or '' when it finds none. */
    method ToggleStatus(kdo: string, co: string, currentStatus: string) returns (request: map<string, string>)
      ensures request.Keys == {"action", "kdo", "odKoho", "co", "odkaz", "status"}
      ensures request["action"] == "save" && request["kdo"] == kdo && request["co"] == co
      ensures request["status"] == GetNextStatus(currentStatus)
      ensures match FindGift(gifts, kdo, co)
              case None => request["odKoho"] == "" && request["odkaz"] == ""
              case Some(g) => request["odKoho"] == g.odKoho && request["odkaz"] == g.odkaz
    {
      request := ToggleRequest(gifts, kdo, co, currentStatus);
    }
  }
}

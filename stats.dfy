/**
 * The three counters of the page (`updateStats`): all gifts, gifts
 * counted as bought, gifts counted as pending, and how these counts agree
 * with the display buckets of `getStatusClass`.
 */
module Stats {
  import opened JsText
  import opened GiftModel
  import opened Status

  datatype GiftStats = GiftStats(total: nat, bought: nat, pending: nat)

  /** Lower-cased statuses counted as bought. */
  const BoughtStatuses: seq<string> := ["hotovo", "koupeno", "zabaleno", "darov\U{00E1}no"]
  /** Lower-cased statuses counted as pending. */
  const PendingStatuses: seq<string> := ["poslat tip", "nepo\U{0159}\U{00ED}zeno", ""]

  predicate CountsAsBought(g: Gift)
  {
    ToLower(g.status) in BoughtStatuses
  }

  predicate CountsAsPending(g: Gift)
  {
    ToLower(g.status) in PendingStatuses
  }

  /** No lower-cased status is in both lists. */
  lemma StatusListsDisjoint(s: string)
    ensures !(s in BoughtStatuses && s in PendingStatuses)
  {
    if s in PendingStatuses && s != "" {
      assert s[0] == 'p' || s[0] == 'n';
    }
  }

  /** `updateStats`: the total is the number of gifts, and since no gift is
      counted both as bought and as pending, the two counts together never
      exceed it. */
  function UpdateStats(gs: seq<Gift>): (st: GiftStats)
    ensures st.total == |gs|
    ensures st.bought + st.pending <= st.total
  {
    forall g | g in gs ensures !(CountsAsBought(g) && CountsAsPending(g)) {
      StatusListsDisjoint(ToLower(g.status));
    }
    FilterDisjoint(gs, CountsAsBought, CountsAsPending);
    GiftStats(|gs|, |Filter(gs, CountsAsBought)|, |Filter(gs, CountsAsPending)|)
  }

  /** The card of a gift is styled bought, wrapped or given. */
  predicate ShowsAsDone(g: Gift)
  {
    GetStatusClass(g.status) != Pending
  }

  predicate ShowsAsPending(g: Gift)
  {
    GetStatusClass(g.status) == Pending
  }

  /** A gift is counted as bought exactly when its card is not styled as
      pending. */
  lemma BoughtIffNotPendingClass(g: Gift)
    ensures CountsAsBought(g) <==> ShowsAsDone(g)
  {
    var s := ToLower(g.status);
    if CountsAsBought(g) {
      assert s == BoughtStatuses[0] || s == BoughtStatuses[1] || s == BoughtStatuses[2] || s == BoughtStatuses[3];
    }
  }

  /** A gift counted as pending is styled as pending. */
  lemma PendingCountIsPendingClass(g: Gift)
    ensures CountsAsPending(g) ==> ShowsAsPending(g)
  {
    BoughtIffNotPendingClass(g);
    StatusListsDisjoint(ToLower(g.status));
  }

  /** The bought counter is the number of gifts whose cards are styled
      bought, wrapped or given; the pending counter is at most the number
      of cards styled pending. */
  lemma StatsAgreeWithClasses(gs: seq<Gift>)
    ensures UpdateStats(gs).bought == |Filter(gs, ShowsAsDone)|
    ensures UpdateStats(gs).pending <= |Filter(gs, ShowsAsPending)|
  {
    forall g | g in gs ensures CountsAsBought(g) == ShowsAsDone(g) && (CountsAsPending(g) ==> ShowsAsPending(g)) {
      BoughtIffNotPendingClass(g);
      PendingCountIsPendingClass(g);
    }
    FilterSameTest(gs, CountsAsBought, ShowsAsDone);
    FilterWeaker(gs, CountsAsPending, ShowsAsPending);
  }

  /** The pending counter can be smaller than the pending-styled cards: a
      status outside both lists, such as `Vyjasnit`, is styled pending but
      counted nowhere. */
  lemma UnknownStatusIsCountedNowhere()
    ensures GetStatusClass("Vyjasnit") == Pending
    ensures UpdateStats([Gift("Ann", "", "Book", "", "Vyjasnit")]) == GiftStats(1, 0, 0)
  {
    var g := Gift("Ann", "", "Book", "", "Vyjasnit");
    var s := ToLower("Vyjasnit");
    assert s[0] == 'v';
    assert !CountsAsBought(g) && !CountsAsPending(g);
    assert Filter([g], CountsAsBought) == [];
    assert Filter([g], CountsAsPending) == [];
  }
}

/**
 * The status taxonomy of the page: the display bucket a free-text status
 * falls into (`getStatusClass`), and the four-step cycle a status button
 * walks through (`getNextStatus`, `getNextStatusText`).
 */
module Status {
  import opened JsText

  /** The display buckets, written `bought`, `wrapped`, `given` and
      `pending` as CSS class names. */
  datatype StatusClass = Bought | Wrapped | Given | Pending

  const NotObtained: string := "Nepo\U{0159}\U{00ED}zeno"
  const Purchased: string := "Koupeno"
  const Packed: string := "Zabaleno"
  const Presented: string := "Darov\U{00E1}no"

  /** The four statuses the toggle button cycles through, in order. */
  const Cycle: seq<string> := [NotObtained, Purchased, Packed, Presented]

  /** `getStatusClass`: the bucket of a status, chosen on its lower-cased
      form; `poslat tip`, `nepořízeno`, the empty status and every unknown
      value land in the default bucket. */
  function GetStatusClass(status: string): (c: StatusClass)
    ensures c == Pending <==> ToLower(status) !in ["hotovo", "koupeno", "zabaleno", "darov\U{00E1}no"]
    ensures c == Wrapped <==> ToLower(status) == "zabaleno"
    ensures c == Given <==> ToLower(status) == "darov\U{00E1}no"
  {
    var s := ToLower(status);
    if s == "hotovo" || s == "koupeno" then Bought
    else if s == "zabaleno" then Wrapped
    else if s == "darov\U{00E1}no" then Given
    else Pending
  }

  /** The bucket does not depend on letter case: lower-casing the status
      first does not change it. */
  lemma StatusClassIgnoresCase(status: string)
    ensures GetStatusClass(ToLower(status)) == GetStatusClass(status)
  {
    ToLowerIdempotent(status);
  }

  /** `getNextStatus`: the cycle is matched with case, and anything
      outside it (a lower-case `koupeno`, `Hotovo`, the empty status) moves
      to `Koupeno`. */
  function GetNextStatus(current: string): (next: string)
    ensures next in Cycle
    ensures next != current
  {
    CycleIsDistinct();
    if current == NotObtained then Purchased
    else if current == Purchased then Packed
    else if current == Packed then Presented
    else if current == Presented then NotObtained
    else Purchased
  }

  /** The icon the toggle button shows in front of the status it announces. */
  function ActionIcon(next: string): char
  {
    if next == NotObtained then '\U{1F504}'
    else if next == Packed then '\U{1F4E6}'
    else if next == Presented then '\U{1F381}'
    else '\U{2705}'
  }

  /** The four statuses of the cycle are different from one another, so
      the cycle really has four states. */
  lemma CycleIsDistinct()
    ensures forall i, j :: 0 <= i < j < |Cycle| ==> Cycle[i] != Cycle[j]
  {
    assert NotObtained[0] != Purchased[0] && NotObtained[0] != Packed[0] && NotObtained[0] != Presented[0];
    assert Purchased[0] != Packed[0] && Purchased[0] != Presented[0];
    assert Packed[0] != Presented[0];
  }

  /** Each status of the cycle moves to the next one, the last back to the
      first, so four steps return to the start and no step stays put. */
  lemma NextStatusCycles(i: nat)
    requires i < |Cycle|
    ensures GetNextStatus(Cycle[i]) == Cycle[(i + 1) % 4]
    ensures GetNextStatus(Cycle[i]) != Cycle[i]
    ensures GetNextStatus(GetNextStatus(GetNextStatus(GetNextStatus(Cycle[i])))) == Cycle[i]
  {
    CycleIsDistinct();
    assert GetNextStatus(NotObtained) == Purchased;
    assert GetNextStatus(Purchased) == Packed;
    assert GetNextStatus(Packed) == Presented;
    assert GetNextStatus(Presented) == NotObtained;
  }

  /** Whatever the current status, the next one is in the cycle; it is
      `Koupeno` exactly for `Nepořízeno` and for every status outside the
      cycle. */
  lemma NextStatusInCycle(current: string)
    ensures GetNextStatus(current) in Cycle
    ensures GetNextStatus(current) == Purchased <==> current == NotObtained || current !in Cycle
  {
    CycleIsDistinct();
  }

  /** `getNextStatusText`: the label of the toggle button. For every
      input, the unknown ones included, it announces the status
      `getNextStatus` moves to: its icon, then `Označit jako ` and the
      lower-cased status. */
  function GetNextStatusText(current: string): (caption: string)
    ensures caption == [ActionIcon(GetNextStatus(current))] + " Ozna\U{010D}it jako " + ToLower(GetNextStatus(current))
  {
    if current == NotObtained then
      AnnouncePurchased();
      "\U{2705} Ozna\U{010D}it jako koupeno"
    else if current == Purchased then
      AnnouncePacked();
      "\U{1F4E6} Ozna\U{010D}it jako zabaleno"
    else if current == Packed then
      AnnouncePresented();
      "\U{1F381} Ozna\U{010D}it jako darov\U{00E1}no"
    else if current == Presented then
      AnnounceNotObtained();
      "\U{1F504} Ozna\U{010D}it jako nepo\U{0159}\U{00ED}zeno"
    else
      AnnouncePurchased();
      "\U{2705} Ozna\U{010D}it jako koupeno"
  }

  /** The four button labels, one lemma each to keep every proof small. */
  lemma AnnouncePurchased()
    ensures "\U{2705} Ozna\U{010D}it jako koupeno" == [ActionIcon(Purchased)] + " Ozna\U{010D}it jako " + ToLower(Purchased)
  {
    assert ToLower(Purchased) == "koupeno";
  }
  lemma AnnouncePacked()
    ensures "\U{1F4E6} Ozna\U{010D}it jako zabaleno" == [ActionIcon(Packed)] + " Ozna\U{010D}it jako " + ToLower(Packed)
  {
    assert ToLower(Packed) == "zabaleno";
  }
  lemma AnnouncePresented()
    ensures "\U{1F381} Ozna\U{010D}it jako darov\U{00E1}no" == [ActionIcon(Presented)] + " Ozna\U{010D}it jako " + ToLower(Presented)
  {
    assert ToLower(Presented) == "darov\U{00E1}no";
  }
  lemma AnnounceNotObtained()
    ensures "\U{1F504} Ozna\U{010D}it jako nepo\U{0159}\U{00ED}zeno" == [ActionIcon(NotObtained)] + " Ozna\U{010D}it jako " + ToLower(NotObtained)
  {
    assert ToLower(NotObtained) == "nepo\U{0159}\U{00ED}zeno";
  }

  /** The lower-cased statuses of the cycle, as `getStatusClass` and the
      button labels spell them. */
  lemma LowerCycle(i: nat)
    requires i < |Cycle|
    ensures ToLower(Cycle[i]) == ["nepo\U{0159}\U{00ED}zeno", "koupeno", "zabaleno", "darov\U{00E1}no"][i]
  {
  }

  /** Each status of the cycle shows in its own bucket, and one step of the
      cycle moves pending to bought to wrapped to given and back to
      pending. */
  lemma CycleWalksThroughBuckets()
    ensures GetStatusClass(NotObtained) == Pending
    ensures GetStatusClass(Purchased) == Bought
    ensures GetStatusClass(Packed) == Wrapped
    ensures GetStatusClass(Presented) == Given
  {
    LowerCycle(0);
    LowerCycle(1);
    LowerCycle(2);
    LowerCycle(3);
  }

  /** The bucket is chosen without regard to case, the next status is not:
      `KOUPENO` shows as bought, yet its next status is `Koupeno` again. */
  lemma CaseMattersOnlyForTheCycle()
    ensures GetStatusClass("KOUPENO") == Bought
    ensures GetNextStatus("KOUPENO") == Purchased
  {
    assert ToLower("KOUPENO") == "koupeno";
  }
}

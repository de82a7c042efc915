/**
 * The list operations of the page: the validity filter of `displayGifts`,
 * the three filters (`filterByKdo`, `filterByStatus`, `searchGifts`), the
 * lookup of `toggleStatus`, and the filter buttons `generateFilters`
 * offers (distinct, sorted, non-blank `kdo` values with their counts).
 */
module GiftFilters {
  import opened JsText
  import opened GiftModel

  /** The value of the filter button that shows every gift. */
  const All: string := "all"

  /** What `displayGifts` puts on the page: the "no gifts yet" state for
      an empty list, the "invalid data" state when no gift has both `kdo`
      and `co`, otherwise one card per valid gift. */
  datatype Display = NoGifts | InvalidData | Cards(shown: seq<Gift>)

  /** The gifts `displayGifts` keeps: exactly those with non-empty `kdo`
      and `co`, in their order. */
  function ValidGifts(gs: seq<Gift>): (r: seq<Gift>)
    ensures forall g :: g in r <==> g in gs && HasKey(g)
    ensures IsSubsequence(r, gs)
    ensures forall g :: multiset(r)[g] == if HasKey(g) then multiset(gs)[g] else 0
  {
    Filter(gs, HasKey)
  }

  function DisplayGifts(gs: seq<Gift>): (d: Display)
    ensures d.NoGifts? <==> gs == []
    ensures d.InvalidData? <==> gs != [] && forall g :: g in gs ==> !HasKey(g)
    ensures d.Cards? ==> d.shown != [] && IsSubsequence(d.shown, gs)
    ensures d.Cards? ==> forall g :: g in d.shown <==> g in gs && HasKey(g)
    ensures d.Cards? ==> forall g :: multiset(d.shown)[g] == if HasKey(g) then multiset(gs)[g] else 0
  {
    if gs == [] then NoGifts
    else
      var valid := ValidGifts(gs);
      assert valid == [] || valid[0] in valid;
      if valid == [] then InvalidData else Cards(valid)
  }

  /** `filterByKdo`: `all` keeps the list as it is; any other value keeps,
      in order, the gifts whose `kdo` is exactly that value. */
  function FilterByKdo(gs: seq<Gift>, kdo: string): (r: seq<Gift>)
    ensures kdo == All ==> r == gs
    ensures kdo != All ==> forall g :: g in r <==> g in gs && g.kdo == kdo
    ensures kdo != All ==> forall g :: multiset(r)[g] == if g.kdo == kdo then multiset(gs)[g] else 0
    ensures IsSubsequence(r, gs)
  {
    SubsequenceReflexive(gs);
    if kdo == All then gs else Filter(gs, (g: Gift) => g.kdo == kdo)
  }

  /** `filterByStatus`: `all` keeps the list; any other value keeps the
      gifts whose status is exactly that value, with case. */
  function FilterByStatus(gs: seq<Gift>, status: string): (r: seq<Gift>)
    ensures status == All ==> r == gs
    ensures status != All ==> forall g :: g in r <==> g in gs && g.status == status
    ensures status != All ==> forall g :: multiset(r)[g] == if g.status == status then multiset(gs)[g] else 0
    ensures IsSubsequence(r, gs)
  {
    SubsequenceReflexive(gs);
    if status == All then gs else Filter(gs, (g: Gift) => g.status == status)
  }

  /** The test of `searchGifts`: the lower-cased query occurs in the
      lower-cased `kdo` or in the lower-cased `co`. */
  predicate MatchesQuery(g: Gift, query: string)
  {
    Includes(ToLower(g.kdo), ToLower(query)) || Includes(ToLower(g.co), ToLower(query))
  }

  function SearchGifts(gs: seq<Gift>, query: string): (r: seq<Gift>)
    ensures forall g :: g in r <==> g in gs && MatchesQuery(g, query)
    ensures forall g :: multiset(r)[g] == if MatchesQuery(g, query) then multiset(gs)[g] else 0
    ensures IsSubsequence(r, gs)
  {
    Filter(gs, g => MatchesQuery(g, query))
  }

  /** The empty query matches every gift. */
  lemma SearchEmptyQueryKeepsAll(gs: seq<Gift>)
    ensures SearchGifts(gs, "") == gs
  {
    forall g | g in gs ensures MatchesQuery(g, "") {
      IncludesEmpty(ToLower(g.kdo));
    }
    FilterAll(gs, g => MatchesQuery(g, ""));
  }

  /** The search does not depend on the case of the query. */
  lemma SearchIgnoresQueryCase(gs: seq<Gift>, query: string)
    ensures SearchGifts(gs, ToLower(query)) == SearchGifts(gs, query)
  {
    ToLowerIdempotent(query);
    FilterSameTest(gs, g => MatchesQuery(g, ToLower(query)), g => MatchesQuery(g, query));
  }

  predicate IsKeyMatch(g: Gift, kdo: string, co: string)
  {
    g.kdo == kdo && g.co == co
  }

  /** `gifts.find(g => g.kdo === kdo && g.co === co)`: the first gift with
      that `(kdo, co)` pair, or none when no gift has it. When two gifts
      share the pair, the later one is never found. */
  function FindGift(gs: seq<Gift>, kdo: string, co: string): (r: Option<Gift>)
    ensures r.None? <==> forall g :: g in gs ==> !IsKeyMatch(g, kdo, co)
    ensures r.Some? ==> exists i :: 0 <= i < |gs| && gs[i] == r.value && IsKeyMatch(gs[i], kdo, co)
                                    && forall j :: 0 <= j < i ==> !IsKeyMatch(gs[j], kdo, co)
    decreases |gs|
  {
    if gs == [] then None
    else if IsKeyMatch(gs[0], kdo, co) then Some(gs[0])
    else
      var r := FindGift(gs[1..], kdo, co);
      assert forall g :: g in gs ==> g == gs[0] || g in gs[1..];
      assert r.Some? ==> exists i :: 1 <= i < |gs| && gs[i] == r.value && IsKeyMatch(gs[i], kdo, co)
                                    && forall j :: 0 <= j < i ==> !IsKeyMatch(gs[j], kdo, co) by {
        if r.Some? {
          var i :| 0 <= i < |gs[1..]| && gs[1..][i] == r.value && IsKeyMatch(gs[1..][i], kdo, co)
                   && forall j :: 0 <= j < i ==> !IsKeyMatch(gs[1..][j], kdo, co);
          assert forall j :: 1 <= j < i + 1 ==> gs[j] == gs[1..][j - 1];
        }
      }
      r
  }

  /** One button of the filter bar: the value it filters by, the count it
      shows and whether it is highlighted as the current filter. */
  datatype FilterOption = FilterOption(value: string, count: nat, active: bool)

  /** `kdo && kdo.trim()`: the text has a non-space character. */
  predicate NonBlank(s: string)
  {
    Trim(s) != ""
  }

  predicate NonBlankKdo(g: Gift)
  {
    NonBlank(g.kdo)
  }

  predicate StrictlySorted(s: seq<string>)
  {
    forall i, j :: 0 <= i < j < |s| ==> Less(s[i], s[j])
  }

  /** Adds x to a sorted list of distinct strings, keeping it sorted and
      distinct. */
  function InsertSorted(s: seq<string>, x: string): (r: seq<string>)
    requires StrictlySorted(s)
    ensures StrictlySorted(r)
    ensures forall y :: y in r <==> y in s || y == x
    decreases |s|
  {
    if s == [] then [x]
    else if x == s[0] then s
    else if Less(x, s[0]) then
      assert forall j :: 0 < j < |s| ==> Less(x, s[j]) by {
        forall j | 0 < j < |s| ensures Less(x, s[j]) {
          LessTransitive(x, s[0], s[j]);
        }
      }
      [x] + s
    else
      LessTotal(x, s[0]);
      var rest := InsertSorted(s[1..], x);
      assert forall y :: y in rest ==> Less(s[0], y);
      [s[0]] + rest
  }

  /** The distinct non-blank `kdo` values of the gifts, sorted as
      `Array.prototype.sort` sorts strings. */
  function SortedKdoValues(gs: seq<Gift>): (ks: seq<string>)
    ensures StrictlySorted(ks)
    ensures forall k :: k in ks <==> exists g :: g in gs && NonBlankKdo(g) && g.kdo == k
    decreases |gs|
  {
    if gs == [] then []
    else
      var rest := SortedKdoValues(gs[1..]);
      assert forall g :: g in gs ==> g == gs[0] || g in gs[1..];
      if NonBlankKdo(gs[0]) then InsertSorted(rest, gs[0].kdo) else rest
  }

  /** `gifts.filter(gift => gift.kdo === kdo).length`. */
  function KdoCount(gs: seq<Gift>, kdo: string): nat
  {
    if gs == [] then 0 else (if gs[0].kdo == kdo then 1 else 0) + KdoCount(gs[1..], kdo)
  }

  /** The count on a person's button is the number of gifts that person's
      filter selects. */
  lemma {:induction false} KdoCountIsFilterSize(gs: seq<Gift>, kdo: string)
    requires kdo != All
    ensures KdoCount(gs, kdo) == |FilterByKdo(gs, kdo)|
    decreases |gs|
  {
    if gs != [] {
      KdoCountIsFilterSize(gs[1..], kdo);
    }
  }

  /** A person's count never exceeds the number of gifts, and falls
      short of it as soon as one gift is for someone else. */
  lemma {:induction false} KdoCountBelowTotal(gs: seq<Gift>, kdo: string)
    ensures KdoCount(gs, kdo) <= |gs|
    ensures (exists g :: g in gs && g.kdo != kdo) ==> KdoCount(gs, kdo) < |gs|
    decreases |gs|
  {
    if gs != [] {
      KdoCountBelowTotal(gs[1..], kdo);
      if exists g :: g in gs && g.kdo != kdo {
        var g :| g in gs && g.kdo != kdo;
        if gs[0].kdo == kdo {
          assert g in gs[1..];
        }
      }
    }
  }

  /** A person whose `kdo` is the text `all` gets a button of their own
      whose count is the number of their gifts; the value that button
      filters by is that of the `all` button, so it shows every gift,
      more than its count as soon as some gift is for someone else. */
  lemma PersonNamedAllIsMiscounted(gs: seq<Gift>, current: string)
    requires exists g :: g in gs && g.kdo == All
    requires exists g :: g in gs && g.kdo != All
    ensures var opts := GenerateFilters(gs, current);
      exists i :: 1 <= i < |opts| && opts[i].value == All
        && opts[i].count == KdoCount(gs, All) < |gs| == |FilterByKdo(gs, All)|
  {
    var g :| g in gs && g.kdo == All;
    TrimEmptyIffAllSpace(All);
    assert !IsJsSpace(All[0]);
    assert NonBlankKdo(g);
    var opts := GenerateFilters(gs, current);
    assert All in KdoValues(gs);
    assert All in ButtonValues(opts);
    var i :| 1 <= i < |opts| && opts[i].value == All;
    KdoCountBelowTotal(gs, All);
  }

  function KdoOptions(gs: seq<Gift>, current: string, ks: seq<string>): (opts: seq<FilterOption>)
    ensures |opts| == |ks|
    ensures forall i :: 0 <= i < |ks| ==> opts[i] == FilterOption(ks[i], KdoCount(gs, ks[i]), current == ks[i])
  {
    if ks == [] then [] else [FilterOption(ks[0], KdoCount(gs, ks[0]), current == ks[0])] + KdoOptions(gs, current, ks[1..])
  }

  /** The values of the buttons after the `all` button. */
  function ButtonValues(opts: seq<FilterOption>): set<string>
  {
    set i | 1 <= i < |opts| :: opts[i].value
  }

  /** The distinct non-blank `kdo` values of the gifts. */
  function KdoValues(gs: seq<Gift>): set<string>
  {
    set g | g in gs && NonBlankKdo(g) :: g.kdo
  }

  /** The buttons of a non-empty list: `all`, then one per key. */
  function Buttons(gs: seq<Gift>, current: string): seq<FilterOption>
  {
    [FilterOption(All, |gs|, current == All)] + KdoOptions(gs, current, SortedKdoValues(gs))
  }

  /** Button i >= 1 is for the key at i - 1. */
  lemma ButtonKeys(gs: seq<Gift>, current: string)
    ensures var b, ks := Buttons(gs, current), SortedKdoValues(gs);
      && |b| == |ks| + 1
      && forall i :: 1 <= i < |b| ==> b[i] == FilterOption(ks[i - 1], KdoCount(gs, ks[i - 1]), current == ks[i - 1])
  {
  }

  lemma ButtonsCountAndSort(gs: seq<Gift>, current: string)
    ensures var b := Buttons(gs, current);
      && (forall i :: 1 <= i < |b| ==>
            && NonBlank(b[i].value)
            && b[i].count == KdoCount(gs, b[i].value)
            && b[i].active == (current == b[i].value))
      && forall i, j :: 1 <= i < j < |b| ==> Less(b[i].value, b[j].value)
  {
    var b, ks := Buttons(gs, current), SortedKdoValues(gs);
    ButtonKeys(gs, current);
    forall i | 1 <= i < |b|
      ensures NonBlank(b[i].value)
    {
      assert ks[i - 1] in ks;
    }
  }

  lemma ButtonsMatchKeys(gs: seq<Gift>, current: string)
    ensures ButtonValues(Buttons(gs, current)) == KdoValues(gs)
  {
    var b, ks := Buttons(gs, current), SortedKdoValues(gs);
    var shown, kdos := ButtonValues(b), KdoValues(gs);
    ButtonKeys(gs, current);
    forall k | k in kdos
      ensures k in shown
    {
      var g :| g in gs && NonBlankKdo(g) && g.kdo == k;
      assert k in ks;
      var j :| 0 <= j < |ks| && ks[j] == k;
      assert b[j + 1].value == k;
    }
    forall k | k in shown
      ensures k in kdos
    {
      var i :| 1 <= i < |b| && b[i].value == k;
      assert ks[i - 1] in ks;
      var g :| g in gs && NonBlankKdo(g) && g.kdo == ks[i - 1];
    }
  }

  /** `generateFilters`: nothing for an empty list; otherwise the `all`
      button with the number of all gifts, then one button per distinct
      non-blank `kdo`, in sorted order, with the number of gifts having
      exactly that `kdo`. The current filter's button is highlighted. */
  function GenerateFilters(gs: seq<Gift>, current: string): (opts: seq<FilterOption>)
    ensures gs == [] ==> opts == []
    ensures gs != [] ==> |opts| >= 1 && opts[0] == FilterOption(All, |gs|, current == All)
    ensures forall i :: 1 <= i < |opts| ==>
              && NonBlank(opts[i].value)
              && opts[i].count == KdoCount(gs, opts[i].value)
              && opts[i].active == (current == opts[i].value)
    ensures forall i, j :: 1 <= i < j < |opts| ==> Less(opts[i].value, opts[j].value)
    ensures ButtonValues(opts) == KdoValues(gs)
  {
    if gs == [] then []
    else
      ButtonsCountAndSort(gs, current);
      ButtonsMatchKeys(gs, current);
      Buttons(gs, current)
  }

  function SumCounts(opts: seq<FilterOption>): nat
  {
    if opts == [] then 0 else opts[0].count + SumCounts(opts[1..])
  }

  /** The number of gifts whose `kdo` is one of ks. */
  function CountIn(gs: seq<Gift>, ks: seq<string>): nat
  {
    if gs == [] then 0 else (if gs[0].kdo in ks then 1 else 0) + CountIn(gs[1..], ks)
  }

  lemma {:induction false} CountInNothing(gs: seq<Gift>)
    ensures CountIn(gs, []) == 0
    decreases |gs|
  {
    if gs != [] {
      CountInNothing(gs[1..]);
    }
  }

  lemma {:induction false} CountInSplit(gs: seq<Gift>, ks: seq<string>)
    requires ks != [] && ks[0] !in ks[1..]
    ensures CountIn(gs, ks) == KdoCount(gs, ks[0]) + CountIn(gs, ks[1..])
    decreases |gs|
  {
    if gs != [] {
      CountInSplit(gs[1..], ks);
      assert gs[0].kdo in ks <==> gs[0].kdo == ks[0] || gs[0].kdo in ks[1..];
    }
  }

  lemma {:induction false} SumOfKdoOptions(gs: seq<Gift>, current: string, ks: seq<string>)
    requires StrictlySorted(ks)
    ensures SumCounts(KdoOptions(gs, current, ks)) == CountIn(gs, ks)
    decreases |ks|
  {
    if ks == [] {
      CountInNothing(gs);
    } else {
      var opts := KdoOptions(gs, current, ks);
      assert opts[1..] == KdoOptions(gs, current, ks[1..]);
      assert ks[0] !in ks[1..] by {
        LessIrreflexive(ks[0]);
      }
      SumOfKdoOptions(gs, current, ks[1..]);
      CountInSplit(gs, ks);
    }
  }

  lemma {:induction false} CountInNonBlank(gs: seq<Gift>, ks: seq<string>)
    requires forall g :: g in gs ==> (g.kdo in ks <==> NonBlankKdo(g))
    ensures CountIn(gs, ks) == |Filter(gs, NonBlankKdo)|
    decreases |gs|
  {
    if gs != [] {
      assert gs[0] in gs;
      CountInNonBlank(gs[1..], ks);
    }
  }

  /** The per-person counts add up to the number of gifts with a non-blank
      `kdo`, so never to more than the `all` button's count. */
  lemma FilterCountsAddUp(gs: seq<Gift>, current: string)
    requires gs != []
    ensures SumCounts(GenerateFilters(gs, current)[1..]) == |Filter(gs, NonBlankKdo)|
    ensures SumCounts(GenerateFilters(gs, current)[1..]) <= GenerateFilters(gs, current)[0].count
  {
    var ks := SortedKdoValues(gs);
    assert GenerateFilters(gs, current)[1..] == KdoOptions(gs, current, ks);
    SumOfKdoOptions(gs, current, ks);
    CountInNonBlank(gs, ks);
  }
}

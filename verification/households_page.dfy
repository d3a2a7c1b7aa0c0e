/** The Households page: grouping the fetched residents by household, the per-household
    count and the search box. */
module HouseholdsPage {
  import opened Wrappers
  import opened Schema
  import opened Text
  import Seqs

  /** The key a resident is grouped under: its `household_id` when that is truthy
      (neither `null` nor the empty string). */
  function GroupKey(r: ResidentRow): (k: Option<Id>)
    ensures k.Some? <==> r.householdId.Some? && r.householdId.value != ""
    ensures k.Some? ==> k == r.householdId
  {
    if r.householdId.Some? && r.householdId.value != "" then r.householdId else None
  }

  /** The residents that belong in group `k`. */
  function InHousehold(k: Id): ResidentRow -> bool {
    r => GroupKey(r) == Some(k)
  }

  /** The `reduce` in `fetchHouseholds`: walk the residents in order, appending each one
      with a truthy `household_id` to the array under that key, creating it on first use. */
  function Group(residents: seq<ResidentRow>): (g: map<Id, seq<ResidentRow>>)
    ensures forall k :: k in g ==> |g[k]| > 0
  {
    if |residents| == 0 then map[]
    else
      var g := Group(residents[..|residents| - 1]);
      var r := residents[|residents| - 1];
      match GroupKey(r)
      case None => g
      case Some(k) => g[k := (if k in g then g[k] else []) + [r]]
  }

  /** A key has a group iff some resident carries it; residents with a `null` or empty
      `household_id` create no group. */
  lemma {:induction false} GroupKeys(residents: seq<ResidentRow>, k: Id)
    ensures k in Group(residents) <==> exists i :: 0 <= i < |residents| && GroupKey(residents[i]) == Some(k)
  {
    if |residents| > 0 {
      var n := |residents| - 1;
      var init := residents[..n];
      GroupKeys(init, k);
      if k in Group(init) {
        var i :| 0 <= i < |init| && GroupKey(init[i]) == Some(k);
        assert GroupKey(residents[i]) == Some(k);
      }
      if exists i :: 0 <= i < |residents| && GroupKey(residents[i]) == Some(k) {
        var i :| 0 <= i < |residents| && GroupKey(residents[i]) == Some(k);
        if i < n {
          assert GroupKey(init[i]) == Some(k);
        }
      }
    }
  }

  /** One step of the `reduce`: the last resident is appended to its own group and every
      other group is unchanged. */
  lemma GroupStep(residents: seq<ResidentRow>, k: Id)
    requires |residents| > 0
    ensures var g := Group(residents[..|residents| - 1]);
      var r := residents[|residents| - 1];
      && (GroupKey(r) == Some(k) ==> k in Group(residents) && Group(residents)[k] == (if k in g then g[k] else []) + [r])
      && (GroupKey(r) != Some(k) ==> (k in Group(residents) <==> k in g))
      && (GroupKey(r) != Some(k) && k in g ==> Group(residents)[k] == g[k])
  {
  }

  /** Grouping agrees with filtering: each group is exactly the residents carrying its key,
      in input order, and a key without a group has no such resident. */
  lemma {:induction false} GroupIsFilter(residents: seq<ResidentRow>, k: Id)
    ensures k in Group(residents) ==> Group(residents)[k] == Seqs.Filter(residents, InHousehold(k))
    ensures k !in Group(residents) ==> Seqs.Filter(residents, InHousehold(k)) == []
  {
    if |residents| > 0 {
      var n := |residents| - 1;
      var init := residents[..n];
      GroupIsFilter(init, k);
      GroupStep(residents, k);
      assert residents == init + [residents[n]];
      Seqs.FilterSnoc(init, residents[n], InHousehold(k));
    }
  }

  /** `residentsMap[household.id]?.length || 0`. */
  function ResidentCount(groups: map<Id, seq<ResidentRow>>, hid: Id): (n: nat)
    ensures hid !in groups ==> n == 0
    ensures hid in groups ==> n == |groups[hid]|
  {
    if hid in groups && |groups[hid]| != 0 then |groups[hid]| else 0
  }

  /** The count shown for a household is the number of fetched residents linked to it. */
  lemma ResidentCountIsLinked(residents: seq<ResidentRow>, hid: Id)
    ensures ResidentCount(Group(residents), hid) == |Seqs.Filter(residents, InHousehold(hid))|
  {
    GroupIsFilter(residents, hid);
  }

  /** `filteredHouseholds`: the query occurs, ignoring ASCII case, in the house number or
      in a truthy purok. */
  predicate HouseholdMatches(h: HouseholdRow, query: string) {
    Matches(h.houseNumber, query) || (h.purok.Some? && h.purok.value != "" && Matches(h.purok.value, query))
  }

  function HouseholdQuery(query: string): HouseholdRow -> bool {
    h => HouseholdMatches(h, query)
  }

  function FilterHouseholds(households: seq<HouseholdRow>, query: string): (r: seq<HouseholdRow>)
    ensures forall h :: h in r <==> h in households && HouseholdMatches(h, query)
    ensures Seqs.IsSubsequence(r, households)
  {
    Seqs.Filter(households, HouseholdQuery(query))
  }

  /** An empty search box shows every household, in fetch order. */
  lemma EmptyQueryKeepsHouseholds(households: seq<HouseholdRow>)
    ensures FilterHouseholds(households, "") == households
  {
    forall h | h in households
      ensures HouseholdQuery("")(h)
    {
      MatchesEmptyQuery(h.houseNumber);
    }
    Seqs.FilterKeepsAll(households, HouseholdQuery(""));
  }

  /** The page's data: the household list and the residents grouped by household. */
  datatype PageState = PageState(households: seq<HouseholdRow>, groups: map<Id, seq<ResidentRow>>, loadError: bool)

  /** `fetchHouseholds`, with the two selects' answers as parameters (the residents select
      is only issued when at least one household came back). */
  function FetchHouseholds(st: PageState, householdSelect: Result<seq<HouseholdRow>>,
                           residentSelect: Result<seq<ResidentRow>>): (r: PageState)
    ensures householdSelect.Err? ==> r == st.(loadError := true)
    ensures householdSelect.Ok? ==> r.households == householdSelect.value
    ensures householdSelect.Ok? && householdSelect.value == [] ==> r == st.(households := [])
    ensures householdSelect.Ok? && householdSelect.value != [] && residentSelect.Ok? ==>
      r.groups == Group(residentSelect.value) && r.loadError == st.loadError
    ensures householdSelect.Ok? && householdSelect.value != [] && residentSelect.Err? ==>
      r.groups == st.groups && r.loadError
  {
    match householdSelect
    case Err(_) => st.(loadError := true)
    case Ok(hs) =>
      if |hs| == 0 then st.(households := hs)
      else
        match residentSelect
        case Err(_) => st.(households := hs, loadError := true)
        case Ok(rs) => st.(households := hs, groups := Group(rs))
  }

  /** When no household is returned the previous grouping survives: the residents map is
      not reassigned, so stale counts could remain from an earlier fetch. */
  lemma EmptyFetchKeepsGroups(st: PageState, residentSelect: Result<seq<ResidentRow>>)
    ensures FetchHouseholds(st, Ok([]), residentSelect).groups == st.groups
  {
  }
}

/**
  The record store of the second code generation (the `project` tree). It
  differs from the first in three places: update replaces only the FIRST
  record with the id (`findIndex`), either date bound may be left empty, and
  the text search looks at `productId` rather than `productName`.
 */
module ProjectStore {
  import opened Wrappers
  import opened Types
  import opened Seqs
  import opened Text
  import Store

  /** `addProductionData`: push the record after the existing ones. */
  function Add(store: seq<Record>, r: Record): (s: seq<Record>)
    ensures |s| == |store| + 1
    ensures s[..|store|] == store && s[|store|] == r
  {
    store + [r]
  }

  /** `Array.prototype.findIndex` on the id, with `None` for -1. */
  function FindIndex(store: seq<Record>, id: string): (k: Option<nat>)
    ensures k.Some? ==>
      k.value < |store| && store[k.value].id == id && forall j :: 0 <= j < k.value ==> store[j].id != id
    ensures k.None? ==> id !in IdsOf(store)
    decreases |store|
  {
    if |store| == 0 then None
    else if store[0].id == id then Some(0)
    else
      match FindIndex(store[1..], id)
      case None =>
        assert IdsOf(store) == {store[0].id} + IdsOf(store[1..]) by {
          forall x | x in IdsOf(store) ensures x in {store[0].id} + IdsOf(store[1..]) {
            var i :| 0 <= i < |store| && store[i].id == x;
            if i > 0 {
              assert store[1..][i - 1] == store[i];
            }
          }
        }
        None
      case Some(k) => Some(k + 1)
  }

  /** Position `j` holds the first record whose id is `id`. */
  ghost predicate IsFirstWithId(store: seq<Record>, id: string, j: int) {
    0 <= j < |store| && store[j].id == id && forall k :: 0 <= k < j ==> store[k].id != id
  }

  /** `updateProductionData`: only the first record with the id is replaced; without one nothing changes. */
  function Update(store: seq<Record>, u: Record): (s: seq<Record>)
    ensures |s| == |store|
    ensures forall j :: 0 <= j < |store| ==> s[j] == (if IsFirstWithId(store, u.id, j) then u else store[j])
    ensures u.id !in IdsOf(store) ==> s == store
  {
    match FindIndex(store, u.id)
    case None => store
    case Some(k) =>
      var s := store[k := u];
      assert forall j :: 0 <= j < |store| && j != k ==> !IsFirstWithId(store, u.id, j);
      assert u.id in IdsOf(store);
      s
  }

  /** `deleteProductionData`: keep the records with a different id, in order. */
  function Delete(store: seq<Record>, id: string): (s: seq<Record>)
    ensures forall i :: 0 <= i < |s| ==> s[i].id != id && s[i] in store
    ensures forall i :: 0 <= i < |store| && store[i].id != id ==> store[i] in s
    ensures id !in IdsOf(s)
  {
    Filter(store, Store.OtherId(id))
  }

  /** The two generations agree on add and delete. */
  lemma AddAndDeleteAgreeWithFirstStore(store: seq<Record>, r: Record, id: string)
    ensures Add(store, r) == Store.Add(store, r)
    ensures Delete(store, id) == Store.Delete(store, id)
  {
  }

  /** The ids of `store` are pairwise distinct. */
  ghost predicate UniqueIds(store: seq<Record>) {
    forall i, j :: 0 <= i < j < |store| ==> store[i].id != store[j].id
  }

  /** While ids are unique the first-match update and the every-match update coincide. */
  lemma UpdateAgreesOnUniqueIds(store: seq<Record>, u: Record)
    requires UniqueIds(store)
    ensures Update(store, u) == Store.Update(store, u)
  {
    var a, b := Update(store, u), Store.Update(store, u);
    forall j | 0 <= j < |store| ensures a[j] == b[j] {
      if store[j].id == u.id {
        assert IsFirstWithId(store, u.id, j);
      }
    }
  }

  /** With a duplicated id the two updates differ: only the first copy is replaced here. */
  lemma UpdateDiffersOnDuplicateIds(r: Record, u: Record)
    requires r.id == u.id && r != u
    ensures Update([r, r], u) == [u, r]
    ensures Store.Update([r, r], u) == [u, u]
  {
    assert IsFirstWithId([r, r], u.id, 0);
  }

  /**
    The predicate of `filterByDateRange` on day numbers: both bounds inclusive
    (the end bound is stretched to 23:59:59, which on whole days is `<=`), a
    single bound checked on its own, and no bound accepting everything.
   */
  function InDateRange(start: Option<Day>, end: Option<Day>): Record -> bool {
    (r: Record) =>
      match (start, end)
      case (Some(s), Some(e)) => s <= r.date <= e
      case (Some(s), None) => s <= r.date
      case (None, Some(e)) => r.date <= e
      case (None, None) => true
  }

  /** `filterByDateRange` with one-sided bounds. */
  function FilterByDateRange(store: seq<Record>, start: Option<Day>, end: Option<Day>): (s: seq<Record>)
    ensures forall i :: 0 <= i < |s| ==>
      s[i] in store && (start.Some? ==> start.value <= s[i].date) && (end.Some? ==> s[i].date <= end.value)
    ensures forall i :: 0 <= i < |store| ==>
      (start.Some? ==> start.value <= store[i].date) && (end.Some? ==> store[i].date <= end.value) ==>
      store[i] in s
    ensures start.None? && end.None? ==> s == store
  {
    if start.None? && end.None? then
      FilterAll(store, InDateRange(start, end));
      Filter(store, InDateRange(start, end))
    else
      Filter(store, InDateRange(start, end))
  }

  /** With both bounds given the two generations select the same records. */
  lemma DateFiltersAgreeOnClosedRanges(store: seq<Record>, start: Day, end: Day)
    ensures FilterByDateRange(store, Some(start), Some(end)) == Store.FilterByDateRange(store, Some(start), Some(end))
  {
    FilterExtensional(store, InDateRange(Some(start), Some(end)), Store.WithinDays(start, end));
  }

  /** The one-sided filters select an order-preserving subsequence of the store. */
  lemma DateFilterIsOrderedSelection(store: seq<Record>, start: Option<Day>, end: Option<Day>)
    ensures SubsequenceAt(FilterByDateRange(store, start, end), store,
      MatchingIndices(store, InDateRange(start, end)), InDateRange(start, end))
  {
    FilterIsOrderedSelection(store, InDateRange(start, end));
  }

  /** The predicate `item.productId.toLowerCase().includes(term.toLowerCase())`. */
  function ProductIdMatches(term: string): Record -> bool {
    (r: Record) => ContainsIgnoringCase(r.productId, term)
  }

  /** `filterByProductName`: case-insensitive substring search on the product id. */
  function FilterByProductName(store: seq<Record>, term: string): (s: seq<Record>)
    ensures forall i :: 0 <= i < |s| ==> s[i] in store && ContainsIgnoringCase(s[i].productId, term)
    ensures forall i :: 0 <= i < |store| && ContainsIgnoringCase(store[i].productId, term) ==> store[i] in s
  {
    Filter(store, ProductIdMatches(term))
  }

  /** The product-id search is an order-preserving selection of the store. */
  lemma NameFilterIsOrderedSelection(store: seq<Record>, term: string)
    ensures SubsequenceAt(FilterByProductName(store, term), store,
      MatchingIndices(store, ProductIdMatches(term)), ProductIdMatches(term))
  {
    FilterIsOrderedSelection(store, ProductIdMatches(term));
  }
}

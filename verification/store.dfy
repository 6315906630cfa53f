/**
  The record store of the first code generation, as a value: every operation
  takes the stored sequence and returns the new sequence or the selection.
  Update replaces EVERY record with the given id; the date filter compares
  both bounds and, when a bound is the empty string, parses it to an invalid
  date against which every comparison is false.
 */
module Store {
  import opened Wrappers
  import opened Types
  import opened Seqs
  import opened Text

  /** `addProductionData`: append the record after the existing ones. */
  function Add(store: seq<Record>, r: Record): (s: seq<Record>)
    ensures |s| == |store| + 1
    ensures s[..|store|] == store && s[|store|] == r
  {
    store + [r]
  }

  /** `updateProductionData`: every record carrying the id of `u` is replaced by `u`. */
  function Update(store: seq<Record>, u: Record): (s: seq<Record>)
    ensures |s| == |store|
    ensures forall i :: 0 <= i < |store| ==> s[i] == (if store[i].id == u.id then u else store[i])
    decreases |store|
  {
    if |store| == 0 then []
    else [if store[0].id == u.id then u else store[0]] + Update(store[1..], u)
  }

  /** With no record carrying the id, update leaves the store as it was. */
  lemma UpdateWithoutMatchIsIdentity(store: seq<Record>, u: Record)
    requires u.id !in IdsOf(store)
    ensures Update(store, u) == store
  {
    var s := Update(store, u);
    forall i | 0 <= i < |store| ensures s[i] == store[i] {
      assert store[i].id in IdsOf(store);
    }
  }

  /** Updating twice with the same record is updating once. */
  lemma UpdateIdempotent(store: seq<Record>, u: Record)
    ensures Update(Update(store, u), u) == Update(store, u)
  {
  }

  /** The predicate `item => item.id !== id`. */
  function OtherId(id: string): Record -> bool {
    (r: Record) => r.id != id
  }

  /** `deleteProductionData`: keep the records with a different id. */
  function Delete(store: seq<Record>, id: string): (s: seq<Record>)
    ensures forall i :: 0 <= i < |s| ==> s[i].id != id && s[i] in store
    ensures forall i :: 0 <= i < |store| && store[i].id != id ==> store[i] in s
    ensures id !in IdsOf(s)
  {
    Filter(store, OtherId(id))
  }

  /** Deletion keeps exactly the positions whose id differs, in their original order. */
  lemma DeleteIsOrderedSelection(store: seq<Record>, id: string)
    ensures SubsequenceAt(Delete(store, id), store, MatchingIndices(store, OtherId(id)), OtherId(id))
  {
    FilterIsOrderedSelection(store, OtherId(id));
  }

  /** Adding a record under a fresh id and deleting that id restores the store. */
  lemma DeleteUndoesAdd(store: seq<Record>, r: Record)
    requires r.id !in IdsOf(store)
    ensures Delete(Add(store, r), r.id) == store
  {
    FilterConcat(store, [r], OtherId(r.id));
    FilterSingleton(r, OtherId(r.id));
    forall i | 0 <= i < |store| ensures OtherId(r.id)(store[i]) {
      assert store[i].id in IdsOf(store);
    }
    FilterAll(store, OtherId(r.id));
  }

  /** The predicate `start <= item.date && item.date <= end` on day numbers. */
  function WithinDays(start: Day, end: Day): Record -> bool {
    (r: Record) => start <= r.date <= end
  }

  /**
    `filterByDateRange`: the records dated within both bounds, inclusive. An
    absent bound is the empty string, which parses to an invalid date, so no
    record satisfies the comparison against it.
   */
  function FilterByDateRange(store: seq<Record>, start: Option<Day>, end: Option<Day>): (s: seq<Record>)
    ensures start.None? || end.None? ==> s == []
    ensures forall i :: 0 <= i < |s| ==>
      s[i] in store && start.Some? && end.Some? && start.value <= s[i].date <= end.value
    ensures start.Some? && end.Some? ==>
      forall i :: 0 <= i < |store| && start.value <= store[i].date <= end.value ==> store[i] in s
  {
    if start.None? || end.None? then [] else Filter(store, WithinDays(start.value, end.value))
  }

  /** The predicate `item.productName.toLowerCase().includes(term.toLowerCase())`. */
  function NameMatches(term: string): Record -> bool {
    (r: Record) => ContainsIgnoringCase(r.productName, term)
  }

  /** `filterByProductName`: case-insensitive substring search on the product name. */
  function FilterByProductName(store: seq<Record>, term: string): (s: seq<Record>)
    ensures forall i :: 0 <= i < |s| ==> s[i] in store && ContainsIgnoringCase(s[i].productName, term)
    ensures forall i :: 0 <= i < |store| && ContainsIgnoringCase(store[i].productName, term) ==> store[i] in s
    ensures |term| == 0 ==> s == store
  {
    if |term| == 0 then
      forall i | 0 <= i < |store| ensures NameMatches(term)(store[i]) {
        ContainsEmpty(ToLower(store[i].productName));
      }
      FilterAll(store, NameMatches(term));
      Filter(store, NameMatches(term))
    else
      Filter(store, NameMatches(term))
  }

  /** The date filter is an order-preserving selection of the stored records. */
  lemma DateFilterIsOrderedSelection(store: seq<Record>, start: Day, end: Day)
    ensures SubsequenceAt(FilterByDateRange(store, Some(start), Some(end)), store,
      MatchingIndices(store, WithinDays(start, end)), WithinDays(start, end))
  {
    FilterIsOrderedSelection(store, WithinDays(start, end));
  }

  /** The product-name search is an order-preserving selection of the stored records. */
  lemma NameFilterIsOrderedSelection(store: seq<Record>, term: string)
    ensures SubsequenceAt(FilterByProductName(store, term), store,
      MatchingIndices(store, NameMatches(term)), NameMatches(term))
  {
    FilterIsOrderedSelection(store, NameMatches(term));
  }

  /** A January 1 record falls outside January 2 to 8; a January 8 record falls inside. */
  lemma DateRangeExample(a: Record, b: Record)
    requires a.date == 1 && b.date == 8
    ensures FilterByDateRange([a, b], Some(2), Some(8)) == [b]
  {
    var p := WithinDays(2, 8);
    assert [a, b] == [a] + [b];
    FilterConcat([a], [b], p);
    FilterSingleton(a, p);
    FilterSingleton(b, p);
  }
}

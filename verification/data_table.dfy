/**
  The production table: which column it is sorted by, how a header click
  changes that, the three-way comparator on the chosen column, and the sorted
  rows the table shows.
 */
module DataTable {
  import opened Wrappers
  import opened Types
  import opened Seqs
  import opened Ordering

  /** The sortable columns: date, product name, planned, actual and defect count. */
  datatype SortField = DateField | ProductNameField | PlannedField | ActualField | DefectsField

  datatype SortState = SortState(field: SortField, dir: Direction)

  /** The table opens sorted by date, newest first. */
  const InitialState := SortState(DateField, Desc)

  /** `handleSort`: the active column flips its direction; another column becomes active, ascending. */
  function HandleSort(st: SortState, f: SortField): (r: SortState)
    ensures r.field == f
    ensures st.field == f ==> r.dir != st.dir
    ensures st.field != f ==> r.dir == Asc
  {
    if st.field == f then SortState(f, if st.dir == Asc then Desc else Asc)
    else SortState(f, Asc)
  }

  /** Clicking the same header twice restores the sort state. */
  lemma HandleSortTwiceOnActive(st: SortState)
    ensures HandleSort(HandleSort(st, st.field), st.field) == st
  {
  }

  /** A header click settles on a state that a second click on the same header flips. */
  lemma HandleSortThenSame(st: SortState, f: SortField)
    ensures HandleSort(HandleSort(st, f), f).field == f
    ensures HandleSort(HandleSort(st, f), f).dir != HandleSort(st, f).dir
  {
  }

  /** The arrow after a header's title: only the active column shows one. */
  function Indicator(st: SortState, f: SortField): (a: string)
    ensures a != "" <==> f == st.field
    ensures a == " ↑" <==> f == st.field && st.dir == Asc
  {
    if st.field != f then "" else if st.dir == Asc then " ↑" else " ↓"
  }

  /** The value of the column in a record; `None` for an absent planned quantity. */
  function FieldKey(r: Record, f: SortField): Option<Key> {
    match f
    case DateField => Some(IntKey(r.date))
    case ProductNameField => Some(StrKey(r.productName))
    case PlannedField => if r.plannedQuantity.Some? then Some(IntKey(r.plannedQuantity.value)) else None
    case ActualField => Some(IntKey(r.actualQuantity))
    case DefectsField => Some(IntKey(r.defectCount))
  }

  /**
    The comparator given to `sort`: -1, 1 or 0 from the column's `<` and `>`.
    Both comparisons are false against an absent value, which therefore ties
    with everything.
   */
  function Compare(a: Record, b: Record, st: SortState): int {
    match (FieldKey(a, st.field), FieldKey(b, st.field))
    case (Some(x), Some(y)) =>
      if KeyLess(x, y) then (if st.dir == Asc then -1 else 1)
      else if KeyLess(y, x) then (if st.dir == Asc then 1 else -1)
      else 0
    case _ => 0
  }

  /** Negative means "goes first in the chosen direction", zero means an equal column value. */
  lemma CompareMeaning(a: Record, b: Record, st: SortState)
    ensures Compare(a, b, st) == 0 - Compare(b, a, st)
    ensures -1 <= Compare(a, b, st) <= 1
    ensures FieldKey(a, st.field).Some? && FieldKey(b, st.field).Some? ==>
      && (Compare(a, b, st) < 0 <==> Precedes(FieldKey(a, st.field).value, FieldKey(b, st.field).value, st.dir))
      && (Compare(a, b, st) == 0 <==> FieldKey(a, st.field) == FieldKey(b, st.field))
  {
    var ka, kb := FieldKey(a, st.field), FieldKey(b, st.field);
    if ka.Some? && kb.Some? {
      KeyLessStrictTotalOrder(ka.value, kb.value, ka.value);
      KeyLessStrictTotalOrder(kb.value, ka.value, kb.value);
    }
  }

  /** Every record has a value in the column (the planned column needs a planned quantity). */
  ghost predicate Sortable(data: seq<Record>, f: SortField) {
    forall i :: 0 <= i < |data| ==> FieldKey(data[i], f).Some?
  }

  /** The column value as a total sort key. */
  function SortKey(f: SortField): Record -> Key {
    (r: Record) => match FieldKey(r, f) case Some(k) => k case None => IntKey(0)
  }

  /**
    `sortedData`: a sorted copy of the rows. The rows are a permutation of the
    input, no later row compares as going before an earlier one, and rows
    with equal column values keep their input order.
   */
  function SortedData(data: seq<Record>, st: SortState): (r: seq<Record>)
    requires Sortable(data, st.field)
    ensures multiset(r) == multiset(data)
    ensures forall i, j :: 0 <= i < j < |r| ==> Compare(r[i], r[j], st) <= 0
    ensures forall k :: WithKey(r, SortKey(st.field), k) == WithKey(data, SortKey(st.field), k)
  {
    var key := SortKey(st.field);
    var r := Sort(data, key, st.dir);
    SortSorted(data, key, st.dir);
    forall k ensures WithKey(r, key, k) == WithKey(data, key, k) {
      SortStable(data, key, st.dir, k);
    }
    forall i, j | 0 <= i < j < |r| ensures Compare(r[i], r[j], st) <= 0 {
      assert r[i] in multiset(data) && r[j] in multiset(data);
      var m :| 0 <= m < |data| && data[m] == r[i];
      var n :| 0 <= n < |data| && data[n] == r[j];
      CompareMeaning(r[i], r[j], st);
    }
    r
  }

  /** Sorting the rows already shown in the same state shows them unchanged. */
  lemma SortedDataIdempotent(data: seq<Record>, st: SortState)
    requires Sortable(data, st.field)
    ensures Sortable(SortedData(data, st), st.field)
    ensures SortedData(SortedData(data, st), st) == SortedData(data, st)
  {
    var key := SortKey(st.field);
    var r := SortedData(data, st);
    forall i | 0 <= i < |r| ensures FieldKey(r[i], st.field).Some? {
      assert r[i] in multiset(data);
    }
    SortSorted(data, key, st.dir);
    SortOfSortedIsIdentity(r, key, st.dir);
  }
}

/**
  The data-entry page of the first code generation: the stored records, the
  page's copy of them, the list the table shows, the record being edited and
  the record shown in the detail dialog, and how each handler changes them.
  The store is the sequence kept in browser storage; `loadData` copies it
  into both the page's list and the shown list.
 */
module DataEntry {
  import opened Wrappers
  import opened Types
  import opened Text
  import Store

  datatype Page = Page(
    store: seq<Record>,          // the stored records
    productionData: seq<Record>, // the page's copy, refreshed by `loadData`
    filteredData: seq<Record>,   // what the table shows
    editing: Option<Record>,     // `editingData`
    viewing: Option<Record>,     // `viewingData`
    modalOpen: bool)             // `isModalOpen`

  /** The page's copy is the store, and the dialog is open exactly when it has a record to show. */
  predicate Consistent(p: Page) {
    p.productionData == p.store && (p.modalOpen <==> p.viewing.Some?)
  }

  /** `loadData`: the page's copy and the shown list both become the store. */
  function LoadData(p: Page): (q: Page)
    ensures q.productionData == q.store == p.store && q.filteredData == p.store
    ensures q.editing == p.editing && q.viewing == p.viewing && q.modalOpen == p.modalOpen
  {
    p.(productionData := p.store, filteredData := p.store)
  }

  /** The page as it opens on a store: everything shown, nothing edited or viewed. */
  function Opened(store: seq<Record>): (p: Page)
    ensures Consistent(p) && p.filteredData == store
    ensures p.editing.None? && !p.modalOpen
  {
    LoadData(Page([], [], [], None, None, false).(store := store))
  }

  /**
    `handleDataSubmit`: while editing, every stored record with the submitted
    id is replaced and editing ends; otherwise the record is appended. The
    page then reloads, so the table shows the whole store.
   */
  function HandleDataSubmit(p: Page, data: Record): (q: Page)
    ensures p.editing.Some? ==> |q.store| == |p.store|
    ensures p.editing.Some? ==>
      forall i :: 0 <= i < |p.store| ==> q.store[i] == (if p.store[i].id == data.id then data else p.store[i])
    ensures p.editing.None? ==> q.store == p.store + [data]
    ensures q.editing.None?
    ensures q.productionData == q.store && q.filteredData == q.store
    ensures q.viewing == p.viewing && q.modalOpen == p.modalOpen
  {
    var stored := if p.editing.Some? then Store.Update(p.store, data) else Store.Add(p.store, data);
    LoadData(p.(store := stored, editing := None))
  }

  /** `handleEdit`: the record becomes the one being edited; nothing else changes. */
  function HandleEdit(p: Page, data: Record): (q: Page)
    ensures q.editing == Some(data)
    ensures q == p.(editing := q.editing)
  {
    p.(editing := Some(data))
  }

  /**
    `handleDelete` with the user's answer to the confirmation: a refusal
    changes nothing; an acceptance removes every record with the id, keeps
    the others in the store, and reloads.
   */
  function HandleDelete(p: Page, id: string, confirmed: bool): (q: Page)
    ensures !confirmed ==> q == p
    ensures confirmed ==> id !in IdsOf(q.store)
    ensures confirmed ==> forall i :: 0 <= i < |q.store| ==> q.store[i] in p.store
    ensures confirmed ==> forall i :: 0 <= i < |p.store| && p.store[i].id != id ==> p.store[i] in q.store
    ensures confirmed ==> q.productionData == q.store && q.filteredData == q.store
    ensures q.editing == p.editing && q.viewing == p.viewing && q.modalOpen == p.modalOpen
  {
    if confirmed then LoadData(p.(store := Store.Delete(p.store, id))) else p
  }

  /** `handleViewDetails`: the dialog opens on the record. */
  function HandleViewDetails(p: Page, data: Record): (q: Page)
    ensures q.modalOpen && q.viewing == Some(data)
    ensures q == p.(viewing := q.viewing, modalOpen := q.modalOpen)
  {
    p.(viewing := Some(data), modalOpen := true)
  }

  /** `handleCloseModal`: the dialog closes and forgets its record. */
  function HandleCloseModal(p: Page): (q: Page)
    ensures !q.modalOpen && q.viewing.None?
    ensures q == p.(viewing := q.viewing, modalOpen := q.modalOpen)
  {
    p.(viewing := None, modalOpen := false)
  }

  /**
    `handleSearch`: a blank or whitespace-only term shows the page's copy;
    otherwise the store's case-insensitive product-name search.
   */
  function HandleSearch(p: Page, term: string): (q: Page)
    ensures IsBlank(term) ==> q.filteredData == p.productionData
    ensures !IsBlank(term) ==>
      && (forall i :: 0 <= i < |q.filteredData| ==>
            q.filteredData[i] in p.store && ContainsIgnoringCase(q.filteredData[i].productName, term))
      && (forall i :: 0 <= i < |p.store| && ContainsIgnoringCase(p.store[i].productName, term) ==>
            p.store[i] in q.filteredData)
    ensures q == p.(filteredData := q.filteredData)
  {
    if IsBlank(term) then p.(filteredData := p.productionData)
    else p.(filteredData := Store.FilterByProductName(p.store, term))
  }

  /**
    `handleDateRangeChange` on day numbers (an empty date input is `None`):
    with neither bound the page's copy is shown; otherwise the store's date
    filter, which yields nothing when only one bound is given and the
    records within both bounds, inclusive, when both are.
   */
  function HandleDateRange(p: Page, start: Option<Day>, end: Option<Day>): (q: Page)
    ensures start.None? && end.None? ==> q.filteredData == p.productionData
    ensures start.None? != end.None? ==> q.filteredData == []
    ensures start.Some? && end.Some? ==>
      && (forall i :: 0 <= i < |q.filteredData| ==>
            q.filteredData[i] in p.store && start.value <= q.filteredData[i].date <= end.value)
      && (forall i :: 0 <= i < |p.store| && start.value <= p.store[i].date <= end.value ==>
            p.store[i] in q.filteredData)
    ensures q == p.(filteredData := q.filteredData)
  {
    if start.None? && end.None? then p.(filteredData := p.productionData)
    else p.(filteredData := Store.FilterByDateRange(p.store, start, end))
  }

  /** Every handler keeps the page consistent. */
  lemma HandlersKeepConsistent(p: Page, data: Record, id: string, confirmed: bool, term: string,
                               start: Option<Day>, end: Option<Day>)
    requires Consistent(p)
    ensures Consistent(HandleDataSubmit(p, data))
    ensures Consistent(HandleEdit(p, data))
    ensures Consistent(HandleDelete(p, id, confirmed))
    ensures Consistent(HandleViewDetails(p, data))
    ensures Consistent(HandleCloseModal(p))
    ensures Consistent(HandleSearch(p, term))
    ensures Consistent(HandleDateRange(p, start, end))
  {
  }

  /** Opening the dialog on a closed, consistent page and closing it again restores the page. */
  lemma ViewThenCloseRestores(p: Page, data: Record)
    requires Consistent(p) && !p.modalOpen
    ensures HandleCloseModal(HandleViewDetails(p, data)) == p
  {
  }

  /** A new record under a fresh id, deleted again with confirmation, leaves the store as it was. */
  lemma DeleteUndoesNewSubmit(p: Page, data: Record)
    requires p.editing.None? && data.id !in IdsOf(p.store)
    ensures HandleDelete(HandleDataSubmit(p, data), data.id, true).store == p.store
  {
    assert HandleDataSubmit(p, data).store == Store.Add(p.store, data);
    Store.DeleteUndoesAdd(p.store, data);
  }

  /** Saving an edit under an id the store does not hold changes no stored record. */
  lemma EditWithUnknownIdKeepsStore(p: Page, data: Record)
    requires p.editing.Some? && data.id !in IdsOf(p.store)
    ensures HandleDataSubmit(p, data).store == p.store
  {
    Store.UpdateWithoutMatchIsIdentity(p.store, data);
  }

  /** On a consistent page, a blank search or an empty date range shows the whole store. */
  lemma ResetShowsStore(p: Page, term: string)
    requires Consistent(p) && IsBlank(term)
    ensures HandleSearch(p, term).filteredData == p.store
    ensures HandleDateRange(p, None, None).filteredData == p.store
  {
  }
}

/**
  The production record and the master-data entries. One record type carries
  the union of the fields the two code generations use: the entry form writes
  `productId`, `processName`, `workMinutes` and `workerName`; the calculation
  helpers and the data table read `productName`, `plannedQuantity`,
  `workHours` and `workers`. Dates are day numbers, so "earlier" is `<`.
 */
module Types {
  import opened Wrappers

  /** A calendar date, as a count of days. */
  type Day = int

  datatype Record = Record(
    id: string,
    date: Day,
    productId: string,
    productName: string,
    processId: string,
    processName: string,
    plannedQuantity: Option<int>,   // absent on records written by the entry form
    actualQuantity: int,
    defectCount: int,
    workMinutes: int,
    workHours: real,
    workers: int,
    workerName: string,
    notes: string)

  /** A product (`code`), process (`name`) or worker (`name`) of the master lists. */
  datatype Entry = Entry(id: string, name: string)

  /** The invariant the entry form establishes before a record is stored. */
  predicate ValidRecord(r: Record) {
    && 0 <= r.defectCount <= r.actualQuantity
    && r.workMinutes >= 0
    && r.workHours >= 0.0
    && r.workers >= 0
    && (r.plannedQuantity.Some? ==> r.plannedQuantity.value >= 0)
  }

  predicate AllValid(s: seq<Record>) {
    forall i :: 0 <= i < |s| ==> ValidRecord(s[i])
  }

  /** `item.plannedQuantity || 0`. */
  function PlannedOrZero(r: Record): int {
    r.plannedQuantity.GetOr(0)
  }

  /** The ids present in a collection of records. */
  function IdsOf(s: seq<Record>): set<string> {
    set i | 0 <= i < |s| :: s[i].id
  }
}

// Shared vocabulary of the league and knockout model: optional values
// (the backend's null), participant identifiers and time units.

module Common {

  /** A nullable value: `None` is the backend's null. */
  datatype Option<T> = None | Some(value: T)

  /** Profile identifiers are opaque; null is modelled as `None`. */
  type UserId = nat

  /** Timestamps are whole minutes. */
  const HOUR: int := 60
  const DAY: int := 24 * HOUR
  /** `setDate(getDate() + 7)`, taken as exactly seven days (no daylight-saving shift). */
  const WEEK: int := 7 * DAY

  /** All elements of `s` are pairwise different. */
  predicate Distinct<T(==)>(s: seq<T>)
  {
    forall i, j :: 0 <= i < j < |s| ==> s[i] != s[j]
  }
}

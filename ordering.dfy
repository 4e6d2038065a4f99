/** The record comparator given to the sort operator, and sortedness under it. */
module Ordering {
  import opened Records

  /** `le(a, b)` stands for `comparator.compare(a, b) <= 0`. */
  type Comparator = (Record, Record) -> bool

  /** What Java's Comparator contract guarantees: a total, transitive order that may have ties. */
  ghost predicate TotalPreorder(le: Comparator) {
    && (forall a, b :: le(a, b) || le(b, a))
    && (forall a, b, c :: le(a, b) && le(b, c) ==> le(a, c))
  }

  /** Non-decreasing under the comparator. */
  ghost predicate Sorted(le: Comparator, s: seq<Record>) {
    forall i, j :: 0 <= i < j < |s| ==> le(s[i], s[j])
  }

  ghost predicate AllSorted(le: Comparator, runs: seq<seq<Record>>) {
    forall k :: 0 <= k < |runs| ==> Sorted(le, runs[k])
  }
}

/** What an operation on a keyed table leaves of its rows. */
module Rows {
  /** At most the row of `k` is new or different. */
  ghost predicate OnlyRow<K(!new), V>(before: map<K, V>, after: map<K, V>, k: K) {
    k in after && (forall x :: x != k ==> (x in after <==> x in before))
    && forall x :: x in before && x != k ==> after[x] == before[x]
  }
}

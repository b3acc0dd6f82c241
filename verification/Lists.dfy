/** Lists without repetition. */
module Lists {

  ghost predicate NoRepeats<T>(s: seq<T>) {
    forall j, k | 0 <= j < k < |s| :: s[j] != s[k]
  }
}

/** One value for each of the two lists of a software cache. */
module ListPairs {
  /** The list of tiles that were only read, and that of tiles that were written. */
  datatype Which = RO | RW

  datatype Pair<T> = Pair(ro: T, rw: T) {
    function Get(w: Which): T { if w.RO? then ro else rw }
    function Set(w: Which, v: T): Pair<T> { if w.RO? then Pair(v, rw) else Pair(ro, v) }
  }
}

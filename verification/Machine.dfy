/** Machine words, and references to records as malloc hands them out. */
module Machine {
  /** One more than the largest size_t. */
  const WORD: nat := 0x1_0000_0000_0000_0000

  const NULL: nat := 0

  /** The record at position k of a list, or NULL past its ends. */
  function IdAt(ids: seq<nat>, k: int): nat { if 0 <= k < |ids| then ids[k] else NULL }

  /** No record is NULL, and none occurs twice. */
  predicate Distinct(ids: seq<nat>) {
    && (forall k :: 0 <= k < |ids| ==> ids[k] != NULL)
    && (forall i, j :: 0 <= i < j < |ids| ==> ids[i] != ids[j])
  }
}

/** The CBLAS enumerations of blas/xkblas.h and how the entry points decode them. */
module Cblas {
  import opened TileTasks
  import opened Machine

  const CBLAS_NO_TRANS := 111
  const CBLAS_TRANS := 112
  const CBLAS_CONJ_TRANS := 113
  const CBLAS_UPPER := 121
  const CBLAS_LOWER := 122
  const CBLAS_NON_UNIT := 131
  const CBLAS_UNIT := 132
  const CBLAS_LEFT := 141
  const CBLAS_RIGHT := 142

  predicate IsSide(side: int) { side == CBLAS_LEFT || side == CBLAS_RIGHT }
  predicate IsUplo(uplo: int) { uplo == CBLAS_UPPER || uplo == CBLAS_LOWER }
  predicate IsTrans(trans: int) { CBLAS_NO_TRANS <= trans <= CBLAS_CONJ_TRANS }
  predicate IsDiag(diag: int) { diag == CBLAS_UNIT || diag == CBLAS_NON_UNIT }

  function SideOf(side: int): Side { if side == CBLAS_LEFT then Left else Right }
  function UploOf(uplo: int): Uplo { if uplo == CBLAS_UPPER then Upper else Lower }
  function DiagOf(diag: int): Diag { if diag == CBLAS_UNIT then Unit else NonUnit }
  function TransOf(trans: int): Trans {
    if trans == CBLAS_NO_TRANS then NoTrans else if trans == CBLAS_TRANS then Trans else ConjTrans
  }

  // ----- Leading dimensions -----

  /** C's int. */
  type Int32 = x: int | -0x8000_0000 <= x < 0x8000_0000

  /** The conversion of an int to size_t. */
  function SizeT(x: Int32): nat { if x < 0 then WORD + x else x }

  function MaxSize(a: nat, b: nat): nat { if a < b then b else a }

  /** A leading dimension passes its test, which compares as size_t, for every negative value too. */
  predicate LdPasses(ld: Int32, dim: nat) {
    ld < 0 || (ld >= 1 && ld >= dim)
  }

  lemma LdTest(ld: Int32, dim: Int32)
    requires dim >= 0
    ensures SizeT(ld) >= MaxSize(1, SizeT(dim)) <==> LdPasses(ld, dim)
    ensures LdPasses(ld, dim) <==> ld < 0 || (ld >= 1 && ld >= dim)
    ensures SizeT(ld) == if ld < 0 then 0x1_0000_0000_0000_0000 + ld else ld
  {
  }
}

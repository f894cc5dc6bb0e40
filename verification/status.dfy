/** The library's error kinds and the total table that classifies the
    secure element's 32-bit response codes (`she_seco_ind_to_she_err_t`). */
module Status {

  /** The library's error taxonomy (`she_err_t`); `NoError` is the only
      success value. */
  datatype SheErr =
    | NoError
    | SequenceError
    | KeyNotAvailable
    | KeyInvalid
    | KeyEmpty
    | NoSecureBoot
    | KeyWriteProtected
    | KeyUpdateError
    | RngSeed
    | NoDebugging
    | Busy
    | MemoryFailure
    | GeneralError

  // Response codes of the secure element (AHAB_*_IND). Placeholder values:
  // only their pairwise distinctness is relied upon.
  const SuccessInd: bv32 := 0x00
  const SequenceErrorInd: bv32 := 0x1D1
  const KeyNotAvailableInd: bv32 := 0x2D1
  const KeyInvalidInd: bv32 := 0x3D1
  const KeyEmptyInd: bv32 := 0x4D1
  const NoSecureBootInd: bv32 := 0x5D1
  const KeyWriteProtectedInd: bv32 := 0x6D1
  const KeyUpdateErrorInd: bv32 := 0x7D1
  const RngSeedInd: bv32 := 0x8D1
  const NoDebuggingInd: bv32 := 0x9D1
  const BusyInd: bv32 := 0xAD1
  const MemoryFailureInd: bv32 := 0xBD1
  const GeneralErrorInd: bv32 := 0xCD1

  /** The twelve SHE-specific response codes the table names. */
  predicate IsNamedCode(code: bv32)
  {
    code in {SequenceErrorInd, KeyNotAvailableInd, KeyInvalidInd, KeyEmptyInd,
             NoSecureBootInd, KeyWriteProtectedInd, KeyUpdateErrorInd, RngSeedInd,
             NoDebuggingInd, BusyInd, MemoryFailureInd, GeneralErrorInd}
  }

  /** Independent reference: the response code that stands for each error
      kind; `NoError` has none (success is not an error code). */
  function CodeOf(e: SheErr): (code: bv32)
    requires e != NoError
    ensures IsNamedCode(code)
  {
    match e
    case SequenceError => SequenceErrorInd
    case KeyNotAvailable => KeyNotAvailableInd
    case KeyInvalid => KeyInvalidInd
    case KeyEmpty => KeyEmptyInd
    case NoSecureBoot => NoSecureBootInd
    case KeyWriteProtected => KeyWriteProtectedInd
    case KeyUpdateError => KeyUpdateErrorInd
    case RngSeed => RngSeedInd
    case NoDebugging => NoDebuggingInd
    case Busy => BusyInd
    case MemoryFailure => MemoryFailureInd
    case GeneralError => GeneralErrorInd
  }

  /** The classification of a response code. Total; never the success
      value; every code outside the twelve named ones (the success code
      included) is a general error. */
  function MapStatus(code: bv32): (e: SheErr)
    ensures e != NoError
    ensures !IsNamedCode(code) ==> e == GeneralError
    ensures IsNamedCode(code) ==> CodeOf(e) == code
  {
    if code == SequenceErrorInd then SequenceError
    else if code == KeyNotAvailableInd then KeyNotAvailable
    else if code == KeyInvalidInd then KeyInvalid
    else if code == KeyEmptyInd then KeyEmpty
    else if code == NoSecureBootInd then NoSecureBoot
    else if code == KeyWriteProtectedInd then KeyWriteProtected
    else if code == KeyUpdateErrorInd then KeyUpdateError
    else if code == RngSeedInd then RngSeed
    else if code == NoDebuggingInd then NoDebugging
    else if code == BusyInd then Busy
    else if code == MemoryFailureInd then MemoryFailure
    else GeneralError
  }

  /** Each error kind is recovered from its own code: the table is
      one-to-one from the named codes onto the eleven specific kinds and
      the general error. */
  lemma MapStatusOfCode(e: SheErr)
    requires e != NoError
    ensures MapStatus(CodeOf(e)) == e
  {
  }

  /** No two named codes share a kind. */
  lemma MapStatusInjective(c1: bv32, c2: bv32)
    requires IsNamedCode(c1) && IsNamedCode(c2)
    requires MapStatus(c1) == MapStatus(c2)
    ensures c1 == c2
  {
    assert CodeOf(MapStatus(c1)) == c1;
  }

  /** The success code is not a named code, so the table calls it a general
      error: success is decided before the table is consulted. */
  lemma SuccessIsNotClassified()
    ensures !IsNamedCode(SuccessInd)
    ensures MapStatus(SuccessInd) == GeneralError
  {
  }
}

/** The fields of one `Callback` object and what its methods do to them. */
module Callbacks {

  const WORD: nat := 0x1_0000_0000
  const SUCCESS: nat := 0
  const ERROR_KINDS: nat := 6

  /** Addition of `uint32_t` values. */
  function Add32(a: nat, b: nat): (r: nat) {
    (a + b) % WORD
  }

  /** Sets a bit of the error bitmap; offsets past its end are ignored. */
  function WithBit(bits: set<nat>, e: nat): (r: set<nat>) {
    if e < ERROR_KINDS then bits + {e} else bits
  }

  /** The first set bit, or the bitmap's size when no bit is set. */
  function MostCritical(bits: set<nat>): (r: nat)
    ensures r <= ERROR_KINDS
    ensures r < ERROR_KINDS ==> r in bits
    ensures forall e :: 0 <= e < r ==> e !in bits
  {
    FirstFrom(bits, 0)
  }

  function FirstFrom(bits: set<nat>, k: nat): (r: nat)
    requires k <= ERROR_KINDS
    ensures k <= r <= ERROR_KINDS
    ensures r < ERROR_KINDS ==> r in bits
    ensures forall e :: k <= e < r ==> e !in bits
    decreases ERROR_KINDS - k
  {
    if k == ERROR_KINDS || k in bits then k else FirstFrom(bits, k + 1)
  }

  /** What one uninterrupted record call leaves in the callee, and whether it says ok to call. */
  datatype Recorded = Recorded(errorCount: nat, bits: set<nat>, completion: nat, ok: bool)

  function Record(errorCount: nat, bits: set<nat>, completion: nat, waiting: nat,
                  errors: nat, errorBits: set<nat>, weight: nat): (r: Recorded)
  {
    var increased := Add32(completion, weight);
    if errors > 0 then
      Recorded(Add32(errorCount, errors), bits + errorBits, increased, increased == waiting)
    else
      Recorded(errorCount, bits, increased, increased == waiting)
  }

  class Callback {
    var errorCount: nat
    var errorBitMap: set<nat>
    var completionCount: nat
    var waitingCount: nat
    const weight: nat
    var callee: Callback?

    constructor (weight: nat)
      ensures errorCount == 0 && errorBitMap == {} && completionCount == 0 && waitingCount == 1
      ensures this.weight == weight && callee == null
    {
      errorCount, errorBitMap, completionCount, waitingCount := 0, {}, 0, 1;
      this.weight := weight;
      callee := null;
    }

    method InformError(e: nat)
      modifies this`errorCount, this`errorBitMap
      ensures e == SUCCESS ==> errorCount == old(errorCount) && errorBitMap == old(errorBitMap)
      ensures e != SUCCESS ==>
                errorCount == Add32(old(errorCount), 1) && errorBitMap == WithBit(old(errorBitMap), e)
    {
      if e != SUCCESS {
        errorCount := Add32(errorCount, 1);
        errorBitMap := WithBit(errorBitMap, e);
      }
    }

    method SetWaitingCount(count: nat)
      modifies this`waitingCount
      ensures waitingCount == count
    {
      waitingCount := count;
    }

    /** A callee is set once; a null callee and a second callee are refused. */
    method SetCallee(input: Callback?)
      modifies this`callee
      ensures callee == if old(callee) == null then input else old(callee)
    {
      if input == null || callee != null { return; }
      callee := input;
    }

    method RecordCallerCompletionAndCheckOkToCall(errors: nat, errorBits: set<nat>, weight: nat) returns (ok: bool)
      modifies this`errorCount, this`errorBitMap, this`completionCount
      ensures Recorded(errorCount, errorBitMap, completionCount, ok) ==
                old(Record(errorCount, errorBitMap, completionCount, waitingCount, errors, errorBits, weight))
    {
      if errors > 0 {
        errorBitMap := errorBitMap + errorBits;
        errorCount := Add32(errorCount, errors);
      }
      ok := false;
      var localWaitingCount := waitingCount;
      completionCount := Add32(completionCount, weight);
      if completionCount == localWaitingCount { ok := true; }
    }

    /** The first set bit of the error bitmap, found by a scan from bit 0. */
    method GetMostCriticalError() returns (e: nat)
      ensures e == MostCritical(errorBitMap)
    {
      e := 0;
      while e < ERROR_KINDS && e !in errorBitMap
        invariant e <= ERROR_KINDS
        invariant MostCritical(errorBitMap) == FirstFrom(errorBitMap, e)
      {
        e := e + 1;
      }
    }
  }
}

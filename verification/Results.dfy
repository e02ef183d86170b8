/** The return codes of the OPAE C API, and values that may be missing. */
module Results {
  datatype FpgaResult =
    | Ok
    | InvalidParam
    | Busy
    | Exception
    | NotFound
    | NoMemory
    | NotSupported
    | NoDriver
    | NoDaemon
    | NoAccess
    | ReconfError

  datatype Option<+V> = None | Some(value: V)

  /** Requests m to m + n - 1 are all granted. */
  predicate Granted(mallocOk: nat -> bool, m: nat, n: nat) {
    forall k :: m <= k < m + n ==> mallocOk(k)
  }

  /** What an enumerate call makes of its parameters before anything else happens. */
  function CheckParams(maxTokens: nat, hasTokens: bool, numFilters: nat, hasFilters: bool): FpgaResult {
    if 0 < maxTokens && !hasTokens then InvalidParam
    else if (0 < numFilters) != hasFilters then InvalidParam
    else Ok
  }

  /** Accepted are an array for any tokens that are asked for, and filters exactly if some are announced. */
  lemma CheckParamsIff(maxTokens: nat, hasTokens: bool, numFilters: nat, hasFilters: bool)
    ensures CheckParams(maxTokens, hasTokens, numFilters, hasFilters) == Ok <==>
            (maxTokens > 0 ==> hasTokens) && (hasFilters <==> numFilters > 0)
    ensures CheckParams(maxTokens, hasTokens, numFilters, hasFilters) in {Ok, InvalidParam}
  {
  }
}

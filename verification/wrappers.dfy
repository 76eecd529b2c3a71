/** Optional values, fallible results and repeated elements, used throughout
    the model. */
module Wrappers {

  /** Python's `None` or a present value. */
  datatype Option<+T> = None | Some(value: T)

  /** The outcome of an operation that either completes or aborts the run. */
  datatype Result<+T, +E> = Ok(value: T) | Err(error: E)

  /** Python's `[x] * n` (or `b"\x00" * n` for zero bytes): `n` copies of `x`. */
  function Repeat<T>(x: T, n: nat): (s: seq<T>)
    ensures |s| == n && forall i :: 0 <= i < n ==> s[i] == x
  {
    seq(n, _ => x)
  }

  /** The ways the evaluation engine aborts a run: each is an uncaught
      `assert` or `raise` in the source. */
  datatype Fatal =
    | CacheInconsistent   // re-adding a block whose core fields differ
    | RunStatsReset       // the running-mean reset branch asserts bb_cnt == 1
    | VexCallTarget       // a VEX call whose next expression is neither Const nor RdTmp
    | BapManyTargets      // a BAP statement with more than one immediate jump operand
    | BapManyRegisters    // a BAP statement with more than one register jump operand
    | UnknownCategory     // dump_json asked for a category other than MISS or FAIL
}

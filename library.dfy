/**
 * The library calls the feed code makes and whose code is not part of this model: number parsing,
 * the Maidenhead grid conversion and JSON serialisation of a record. They are passed in as
 * functions; only what the feed code does with their results is modelled.
 */
module Library {
  import opened Wrappers

  /**
   * `parseFloat` and `parseInt(_, 10)` of a defined string (`None` is `NaN`),
   * `locationToGrid6(lat, lon)` and `JSON.stringify` of a record of type `R`.
   */
  datatype Externals<!R> = Externals(
    parseFloat: string -> Option<real>,
    parseInt: string -> Option<int>,
    locationToGrid6: (real, real) -> string,
    stringify: R -> string)

  /** `Number.parseFloat(v) || 0`: `undefined` reads as `"undefined"`, which is `NaN`; `NaN` and 0 both give 0. */
  function FloatOrZero<R>(ext: Externals<R>, v: Option<string>): (r: real)
    ensures v.None? ==> r == 0.0
    ensures v.Some? && ext.parseFloat(v.value).None? ==> r == 0.0
    ensures v.Some? && ext.parseFloat(v.value).Some? ==> r == ext.parseFloat(v.value).value
  {
    match v
    case None => 0.0
    case Some(s) => ext.parseFloat(s).GetOr(0.0)
  }

  /** `Number.parseInt(v, 10) || 0`, with the same reading of `undefined`. */
  function IntOrZero<R>(ext: Externals<R>, v: Option<string>): (r: int)
    ensures v.None? ==> r == 0
    ensures v.Some? && ext.parseInt(v.value).None? ==> r == 0
    ensures v.Some? && ext.parseInt(v.value).Some? ==> r == ext.parseInt(v.value).value
  {
    match v
    case None => 0
    case Some(s) => ext.parseInt(s).GetOr(0)
  }
}

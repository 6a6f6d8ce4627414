/**
 * The gross-weight rule of `updateGW` in efb.js: GW is zero-fuel weight plus
 * fuel on board, and the calculate button is enabled only while GW lies
 * within [minGW, maxGW].
 */
module GrossWeight {

  // The slider ranges and weight limits, in pounds.
  const MinZFW: real := 10360.0
  const MaxZFW: real := 18300.0
  const MinFOB: real := 0.0
  const MaxFOB: real := 6240.0
  const MaxGW: real := 18300.0
  const MinGW: real := 0.0

  /** What `updateGW` shows: the GW with the button enabled, or one of its two warnings with the button disabled. */
  datatype Status = Enabled(gw: real) | OverMTOW(gw: real) | BelowMinimum(gw: real)

  /** The branch structure of `updateGW`. */
  function UpdateGW(zfw: real, fob: real): (status: Status)
    ensures status.gw == zfw + fob
    ensures status.Enabled? <==> MinGW <= zfw + fob <= MaxGW
    ensures status.OverMTOW? <==> zfw + fob > MaxGW
    ensures status.BelowMinimum? <==> zfw + fob < MinGW
  {
    var gw := zfw + fob;
    if gw > MaxGW || gw < MinGW then
      if gw > MaxGW then OverMTOW(gw) else BelowMinimum(gw)
    else Enabled(gw)
  }

  /** `calculateButton.disabled` is false exactly for an enabled status. */
  predicate CalculationEnabled(status: Status) {
    status.Enabled?
  }

  /**
   * Within the slider ranges the weight is never below the minimum, and it is
   * over the limit exactly when zero-fuel weight and fuel together exceed
   * 18300 lb (which the ranges allow, up to 24540 lb).
   */
  lemma SliderRangesOnlyExceedMTOW(zfw: real, fob: real)
    requires MinZFW <= zfw <= MaxZFW && MinFOB <= fob <= MaxFOB
    ensures !UpdateGW(zfw, fob).BelowMinimum?
    ensures CalculationEnabled(UpdateGW(zfw, fob)) <==> zfw + fob <= MaxGW
    ensures UpdateGW(zfw, fob).gw <= MaxZFW + MaxFOB
  {
  }
}

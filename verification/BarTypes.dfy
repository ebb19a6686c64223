/** The records that bars are made of. */
module BarTypes {
  datatype BarType = TimeBars | RangeBars | VolumeBars

  datatype BarSize = BarSize(kind: BarType, size: nat)

  predicate IsValidSize(b: BarSize) {
    match b.kind
    case TimeBars => 5 <= b.size <= 31 * 24 * 3600
    case RangeBars => 1 <= b.size <= 500
    case VolumeBars => 50 <= b.size <= 1_000_000
  }

  /** The volume of a bar at one price. */
  datatype Level = Level(price: real, bidVol: int, askVol: int, totalVol: int, delta: int, isPoc: bool)

  datatype BarRecord = BarRecord(
    open: real, high: real, low: real, close: real, totalVolume: int, openTs: int, closeTs: int,
    isBullish: bool, isComplete: bool, pocPrice: real, pocVolume: int, levels: seq<Level>,
    barDelta: int, maxDelta: int, minDelta: int, cumulativeDelta: int, deltaPct: real)
}

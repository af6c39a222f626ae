/** Foundation and Swift standard types shared by the stores and the value models. */
module SwiftTypes {
  /** Swift's fixed-width integer, used for the stores' site, order, item, coupon and user IDs. */
  newtype Int64 = x: int | -0x8000_0000_0000_0000 <= x < 0x8000_0000_0000_0000

  /** Foundation's `Date`: a point in time, as seconds since the reference date. */
  datatype Date = Date(timeIntervalSinceReferenceDate: real)
}

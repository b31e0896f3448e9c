/**
 * Values shared by the SRV selector: the SRV resource record handed back by
 * the resolver, the errors the selector raises, and the exact model of one
 * call of Ruby's `rand`.
 */
module SrvTypes {

  datatype Option<+T> = None | Some(value: T)

  datatype Result<+R, +E> = Success(value: R) | Failure(error: E)

  /** An SRV resource record: the four fields of RFC 2782's SRV RR. */
  datatype Srv = Srv(priority: nat, weight: nat, port: nat, target: string)

  /** The `ArgumentError` raised for a bad label; it carries the label (nil is `None`). */
  datatype Error =
    | InvalidService(service: Option<string>)
    | InvalidProtocol(protocol: Option<string>)

  /**
   * One value of `rand`, a number in [0, 1), held exactly as the fraction
   * num / den.
   */
  datatype Ratio = Ratio(num: nat, den: nat)

  type UnitRand = r: Ratio | r.num < r.den witness Ratio(0, 1)
}

/** Values shared by every component: addresses, networks and errors.
    Parsing of numeric addresses is abstracted: an address that splits into a numeric host and a
    port is a `HostPort`, every other string is `Unparsed`. */
module Net {

  datatype Option<+T> = None | Some(value: T)

  datatype Family = V4 | V6

  datatype Network = Tcp | Tcp4 | Tcp6

  /** `family` is V4 exactly when the source's `ip.To4()` is non-nil. */
  datatype IP = IP(family: Family, bits: nat)

  datatype Address = HostPort(ip: IP, port: string) | Unparsed(text: string)

  datatype Error =
    | Canceled
    | DeadlineExceeded
    | TargetConnectionFailed
    | NetError(code: nat, timeout: bool)
    | LookupFailed(cause: Error)
    | NoAllowedAddress

  /** What dials, lookups and contexts report: never one of the two policy failures. */
  type DialError = e: Error | !e.LookupFailed? && !e.NoAllowedAddress? witness Canceled

  /** One entry per address record; `None` is a record whose IP is nil. */
  type Records = seq<Option<IP>>

  /** What one DNS lookup returns. */
  datatype Answer = Records(records: Records) | LookupError(error: DialError)

  predicate Fits(network: Network, family: Family) {
    !(network == Tcp4 && family == V6) && !(network == Tcp6 && family == V4)
  }

  /** `familyByte`: None stands for 0. */
  function FamilyOf(a: Address): Option<Family> {
    if a.HostPort? then Some(a.ip.family) else None
  }

  predicate AllOf(s: seq<Address>, family: Family) {
    forall i :: 0 <= i < |s| ==> FamilyOf(s[i]) == Some(family)
  }

  predicate Distinct<T(==)>(s: seq<T>) {
    forall i, j :: 0 <= i < j < |s| ==> s[i] != s[j]
  }

  function Elements<T>(s: seq<T>): set<T> {
    set x | x in s
  }

  function Max(a: int, b: int): int {
    if a < b then b else a
  }
}

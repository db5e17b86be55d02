/** The verification status shared by the upload page and the admin dashboard:
    both spell it `"valid" | "suspicious" | "invalid"`. */
module Verdict {
  datatype Status = Valid | Suspicious | Invalid

  /** The status as the source spells it. */
  function StatusName(st: Status): string {
    match st
    case Valid => "valid"
    case Suspicious => "suspicious"
    case Invalid => "invalid"
  }
}

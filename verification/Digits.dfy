/** Decimal numbers as text. */
module Digits {
  /** The number that decimal digits denote. */
  function ReadDecimal(s: string): int {
    if s == "" then 0 else 10 * ReadDecimal(s[..|s| - 1]) + (s[|s| - 1] as int - '0' as int)
  }
}

/** The `Colours` style table of the interface: each member is an ANSI
    escape sequence, treated here as an opaque string constant. */
module Colours {

  const HEADER: string := "\U{1B}[95m"
  const BLUE: string := "\U{1B}[94m"
  const CYAN: string := "\U{1B}[96m"
  const GREEN: string := "\U{1B}[92m"
  const WARNING: string := "\U{1B}[93m"
  const FAIL: string := "\U{1B}[91m"
  /** Resets every style; printed after each piece of styled text. */
  const END: string := "\U{1B}[0m"
  const BOLD: string := "\U{1B}[1m"
  const UNDERLINE: string := "\U{1B}[4m"
}

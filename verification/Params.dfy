/** Kernel parameters. */
module Params {
  const MAXOPBLOCKS := 10
  const LOGSIZE := MAXOPBLOCKS * 3
  const NBUF := MAXOPBLOCKS * 3
}

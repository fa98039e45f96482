/** The sizes a tuple can have. */
module TupleSize {
  import opened Optional

  const SMALL: nat := 32
  const MEDIUM: nat := 128
  const LARGE: nat := 1024
  const HUGE: nat := 65536
  const MAX_LEN: nat := 0x3FFFFFFF

  /** The next size, unless the largest is reached. */
  function NewLen(max: nat): Option<nat> {
    if max == SMALL then Some(MEDIUM)
    else if max == MEDIUM then Some(LARGE)
    else if max == LARGE then Some(HUGE)
    else if max >= MAX_LEN then None
    else Some(max * 2)
  }
}

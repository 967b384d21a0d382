/** What several modules share. */
module Common {
  datatype Option<+T> = None | Some(value: T)

  const MAX_UINT64 := 0xFFFF_FFFF_FFFF_FFFF
}

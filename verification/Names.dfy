/** File and path names. */
module Names {
  import opened Bytes

  type Name = seq<Byte>

  const SLASH: Byte := 47

  /** The endings of a file moved aside and of a file being written. */
  const BAK: Name := [46, 98, 97, 107]
  const SWP: Name := [46, 115, 119, 112]
}

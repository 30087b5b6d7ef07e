/** What several components share. */
module Basics {

  datatype Option<T> = None | Some(value: T)

  /** One more than the largest size_t. */
  const WORD: nat := 0x1_0000_0000_0000_0000
}

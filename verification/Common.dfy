/** Small types and functions several components share. */
module Common {

  datatype Option<T> = None | Some(value: T)

  /** Where a user's messages go: an IO thread and a connection. */
  datatype Channel = Channel(io: nat, conn: nat)

  function Min(a: int, b: int): int
  {
    if a < b then a else b
  }
}

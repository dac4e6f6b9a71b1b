/** Names several parts of the client share. */
module Common {
  datatype Option<+T> = None | Some(value: T)

  type byte = x: int | 0 <= x < 256

  type Bytes = seq<byte>

  type Display = int

  /** The id of a UI session. */
  datatype SessionId = SessionId(uuid: nat)

  lemma ProductOrder(a: int, b: int, factor: nat)
    ensures a <= b ==> a * factor <= b * factor
  {}
}

/** Fixed-width unsigned integers of the i686 target, and the small types every
    component of the model shares. */
module MachineInts {

  const TWO_32: int := 0x1_0000_0000

  type Byte = b: int | 0 <= b < 256
  type U32 = x: int | 0 <= x < 0x1_0000_0000

  datatype Option<+T> = None | Some(value: T)

  /** Every element of the sequence occurs in it once. */
  ghost predicate Distinct<T>(s: seq<T>) {
    forall i, j | 0 <= i < j < |s| :: s[i] != s[j]
  }
}

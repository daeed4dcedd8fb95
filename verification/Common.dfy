/** What several components share. */
module Common {

  datatype Option<T> = None | Some(value: T)

  const TWO_32: nat := 0x1_0000_0000

  lemma ModSmall(n: nat)
    requires n < TWO_32
    ensures n % TWO_32 == n
  {
  }
}

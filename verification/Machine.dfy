/** What all parts of the system share: the size of a page and what a byte is. */
module Machine {

  const PAGE := 4096

  type Byte = n: nat | n < 256

  /** A value, or none: a pointer that may be NULL. */
  datatype Option<T> = None | Some(value: T)
}

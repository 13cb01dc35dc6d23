/** Small types shared by every module of the model. */
module Common {

  /** A value that may be missing; stands for a C pointer that may be NULL. */
  datatype Option<T> = None | Some(value: T)

  /** One byte of a C `char` buffer. */
  newtype Byte = b: int | 0 <= b < 256

  /** The C `unsigned` (32 bits) carried by the coroutine bus. */
  newtype U32 = x: int | 0 <= x < 0x1_0000_0000

  /** A NUL-terminated C string, without its terminator: it cannot hold a NUL. */
  type CString = s: string | '\0' !in s witness ""

  /** The byte '\n' that ends a chat line. */
  const NEWLINE: Byte := 10
}

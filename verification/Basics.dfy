/** What several modules need: optional values and results, Go's integers, and its white space. */
module Basics {

  datatype Option<+T> = None | Some(value: T)

  datatype Result<+T> = Ok(value: T) | Err

  const MAX_INT32 := 0x7fff_ffff

  /** What storing `x` in an int32 leaves. */
  function Wrap32(x: int): (r: int)
    ensures -0x8000_0000 <= r <= MAX_INT32
    ensures -0x8000_0000 <= x <= MAX_INT32 ==> r == x
    ensures MAX_INT32 < x <= 2 * MAX_INT32 ==> r < 0
  {
    (x + 0x8000_0000) % 0x1_0000_0000 - 0x8000_0000
  }

  /** unicode.IsSpace */
  predicate IsSpace(c: char) {
    var n := c as int;
    || 9 <= n <= 13 || n == 32 || n == 0x85 || n == 0xA0 || n == 0x1680
    || 0x2000 <= n <= 0x200A || n == 0x2028 || n == 0x2029 || n == 0x202F || n == 0x205F || n == 0x3000
  }
}

/** Small shared vocabulary: optional values, three-way comparison results,
    the fixed-width integer ranges the program uses, and ASCII letter helpers. */
module Common {

  datatype Option<+T> = None | Some(value: T)

  /** A value or the reason why there is none; stands for a thrown exception. */
  datatype Result<+T, +E> = Success(value: T) | Failure(error: E)

  /** Success without a value, or the reason for failure. */
  datatype Outcome<+E> = Pass | Fail(error: E)

  /** The result of a three-way comparison, as C++ `std::strong_ordering`. */
  datatype Ordering = Less | Equal | Greater

  /** The comparison seen from the other side: `Compare(b, a) == Reverse(Compare(a, b))`. */
  function Reverse(o: Ordering): Ordering
  {
    match o
    case Less => Greater
    case Equal => Equal
    case Greater => Less
  }

  /** `std::uint8_t` and `std::uint16_t`. */
  type U8 = x: int | 0 <= x < 0x100
  type U16 = x: int | 0 <= x < 0x1_0000

  /** A point in time, treated as an opaque value: nothing computes with it. */
  type Timestamp = int

  predicate IsUpper(c: char) { 'A' <= c <= 'Z' }
  predicate IsLower(c: char) { 'a' <= c <= 'z' }
  predicate IsLetter(c: char) { IsUpper(c) || IsLower(c) }

  /** `c - 'a' + 'A'` applied to lower-case ASCII letters only. */
  function ToUpper(c: char): (u: char)
    ensures IsUpper(u) <==> IsLetter(c)
    ensures !IsLower(c) ==> u == c
    ensures IsLower(c) ==> u as int == c as int - 'a' as int + 'A' as int
  {
    if IsLower(c) then (c as int - 'a' as int + 'A' as int) as char else c
  }
}

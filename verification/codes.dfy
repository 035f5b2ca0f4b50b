/** Promotion codes as the Go program sees them: strings, i.e. byte sequences.
    A byte is written as the character with the same number (0 to 255), so that
    a Go string literal of ASCII text reads the same here. */
module Codes {

  /** One byte of a Go string. */
  type Byte = c: char | c <= 'ÿ'

  /** A Go string: length is its byte count and equality is byte-wise. */
  type Code = seq<Byte>

  /** The lowercase ASCII letters `a` to `z`. */
  predicate IsLowercase(b: Byte) {
    'a' <= b <= 'z'
  }
}

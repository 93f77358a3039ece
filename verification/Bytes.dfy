/** The characters of C strings, and their classes in the C locale. The end of the input is no character. */
module Bytes {
  type byte = i: int | 0 <= i < 256

  predicate IsDigit(c: int) { '0' as int <= c <= '9' as int }
  predicate IsCntrl(c: int) { 0 <= c < 32 || c == 127 }
  predicate IsSpace(c: int) { c == 32 || 9 <= c <= 13 }
  predicate IsXDigit(c: int) { IsDigit(c) || 'a' as int <= c <= 'f' as int || 'A' as int <= c <= 'F' as int }
}

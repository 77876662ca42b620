/** Bytes, C strings and the character classes that the library tests for. */
module Bytes {
  newtype byte = x: int | 0 <= x < 256
  type Text = seq<byte>

  datatype Option<+T> = None | Some(value: T)

  const NUL: byte := 0
  const BACKSPACE: byte := 8
  const TAB: byte := 9
  const LF: byte := 10
  const VT: byte := 11
  const FORM_FEED: byte := 12
  const CR: byte := 13
  const SPACE: byte := 32
  const QUOTE: byte := 34
  const APOSTROPHE: byte := 39
  const STAR: byte := 42
  const PLUS: byte := 43
  const COMMA: byte := 44
  const MINUS: byte := 45
  const DOT: byte := 46
  const SLASH: byte := 47
  const ZERO: byte := 48
  const NINE: byte := 57
  const COLON: byte := 58
  const UPPER_E: byte := 69
  const UPPER_F: byte := 70
  const UPPER_I: byte := 73
  const UPPER_N: byte := 78
  const UPPER_T: byte := 84
  const LBRACKET: byte := 91
  const BACKSLASH: byte := 92
  const RBRACKET: byte := 93
  const LOWER_B: byte := 98
  const LOWER_E: byte := 101
  const LOWER_F: byte := 102
  const LOWER_I: byte := 105
  const LOWER_N: byte := 110
  const LOWER_R: byte := 114
  const LOWER_T: byte := 116
  const LOWER_U: byte := 117
  const LBRACE: byte := 123
  const RBRACE: byte := 125

  const NULL_WORD: Text := [110, 117, 108, 108]
  const NAN_WORD: Text := [78, 97, 78]
  const TRUE_WORD: Text := [116, 114, 117, 101]
  const FALSE_WORD: Text := [102, 97, 108, 115, 101]
  const INFINITY_WORD: Text := [73, 110, 102, 105, 110, 105, 116, 121]

  /** `isspace` in the "C" locale. */
  predicate IsSpace(c: byte) {
    c == SPACE || TAB <= c <= CR
  }

  predicate IsDigit(c: byte) {
    ZERO <= c <= NINE
  }

  /** Membership in json_number_chars. */
  predicate IsNumberChar(c: byte) {
    IsDigit(c) || c == DOT || c == PLUS || c == MINUS || c == LOWER_E || c == UPPER_E
  }

  predicate IsHex(c: byte) {
    IsDigit(c) || 65 <= c <= 70 || 97 <= c <= 102
  }

  /** The jt_hexdigit macro on a hexadecimal digit. */
  function HexValue(c: byte): (v: nat)
    requires IsHex(c)
    ensures v < 16
  {
    if c <= NINE then (c - ZERO) as nat else (c as int % 8 + 9)
  }

  function Lower(c: byte): byte {
    if 65 <= c <= 90 then c + 32 else c
  }

  function Min(a: nat, b: nat): nat {
    if a <= b then a else b
  }

  /** The C string at the start of a buffer: everything before the first NUL. */
  function CString(s: Text): Text {
    if s == [] || s[0] == NUL then [] else [s[0]] + CString(s[1..])
  }

  /** A text without NUL is its own C string. */
  lemma {:induction false} CStringNoNul(s: Text)
    requires NUL !in s
    ensures CString(s) == s
  {
    if s == [] {
    } else {
      assert s == [s[0]] + s[1..];
      CStringNoNul(s[1..]);
    }
  }
}

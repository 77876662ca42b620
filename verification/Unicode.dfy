/** The surrogate macros of json_tokener.c and the bytes appended for one code. */
module Unicode {
  import opened Bytes

  const REPLACEMENT: Text := [0xEF, 0xBF, 0xBD]

  /** IS_HIGH_SURROGATE: only bits 10 to 15 are looked at. */
  predicate IsHigh(uc: nat) {
    uc / 0x400 % 0x40 == 0x36
  }

  /** IS_LOW_SURROGATE, with the same mask. */
  predicate IsLow(uc: nat) {
    uc / 0x400 % 0x40 == 0x37
  }

  /** DECODE_SURROGATE_PAIR. */
  function DecodePair(hi: nat, lo: nat): (uc: nat)
    ensures 0x10000 <= uc < 0x110000
  {
    hi % 0x400 * 0x400 + lo % 0x400 + 0x10000
  }

  /** The bytes of a code of up to 21 bits, by length. */
  function Encode(uc: nat): Text
    requires uc < 0x200000
  {
    if uc < 0x80 then [uc as byte]
    else if uc < 0x800 then [(0xC0 + uc / 0x40) as byte, (0x80 + uc % 0x40) as byte]
    else if uc < 0x10000 then
      [(0xE0 + uc / 0x1000) as byte, (0x80 + uc / 0x40 % 0x40) as byte, (0x80 + uc % 0x40) as byte]
    else
      [(0xF0 + uc / 0x40000) as byte, (0x80 + uc / 0x1000 % 0x40) as byte,
       (0x80 + uc / 0x40 % 0x40) as byte, (0x80 + uc % 0x40) as byte]
  }

  /** What the escape state appends for a finished code that is not kept back as a high half. */
  function Append(uc: nat): Text {
    if uc < 0x800 then Encode(uc)
    else if IsHigh(uc) || IsLow(uc) || uc >= 0x110000 then REPLACEMENT
    else Encode(uc)
  }
}

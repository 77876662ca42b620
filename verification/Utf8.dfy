/** What unicode escapes append, against the UTF-8 of RFC 3629. */
module Utf8 {
  import opened Bytes
  import opened Unicode
  import opened Machine
  import opened Reference
  import opened Rfc8259

  predicate IsTail(b: byte) {
    0x80 <= b <= 0xBF
  }

  /** The length of the character at the start by the grammar of RFC 3629 section 4; 0 if there is none. */
  function CharLen(s: Text): (n: nat)
    requires s != []
    ensures n <= |s| && n <= 4
    ensures forall i :: 0 < i < n ==> IsTail(s[i])
    ensures s[0] < 0x80 <==> n == 1
  {
    var b := s[0];
    if b < 0x80 then 1
    else if 0xC2 <= b <= 0xDF && |s| >= 2 && IsTail(s[1]) then 2
    else if |s| >= 3 && IsTail(s[1]) && IsTail(s[2])
      && ((b == 0xE0 && s[1] >= 0xA0) || 0xE1 <= b <= 0xEC || (b == 0xED && s[1] <= 0x9F) || 0xEE <= b <= 0xEF)
      then 3
    else if |s| >= 4 && IsTail(s[1]) && IsTail(s[2]) && IsTail(s[3])
      && ((b == 0xF0 && s[1] >= 0x90) || 0xF1 <= b <= 0xF3 || (b == 0xF4 && s[1] <= 0x8F))
      then 4
    else 0
  }

  predicate WellFormed(s: Text) {
    s == [] || (CharLen(s) > 0 && WellFormed(s[CharLen(s)..]))
  }

  /** The code of one character. */
  function CodeOf(s: Text): nat
    requires s != [] && CharLen(s) == |s|
  {
    var b := s[0] as nat;
    if |s| == 1 then b
    else if |s| == 2 then (b - 0xC0) * 0x40 + (s[1] as nat - 0x80)
    else if |s| == 3 then (b - 0xE0) * 0x1000 + (s[1] as nat - 0x80) * 0x40 + (s[2] as nat - 0x80)
    else (b - 0xF0) * 0x40000 + (s[1] as nat - 0x80) * 0x1000 + (s[2] as nat - 0x80) * 0x40 + (s[3] as nat - 0x80)
  }

  /** A Unicode scalar value: a code that is not a surrogate. */
  predicate IsScalar(uc: nat) {
    uc < 0xD800 || 0xE000 <= uc < 0x110000
  }

  lemma CharLenPrefix(a: Text, b: Text)
    requires a != [] && CharLen(a) > 0
    ensures CharLen(a + b) == CharLen(a)
  {
  }

  lemma {:induction false} WellFormedConcat(a: Text, b: Text)
    requires WellFormed(a)
    ensures WellFormed(a + b) <==> WellFormed(b)
    decreases |a|
  {
    if a == [] {
      assert a + b == b;
    } else {
      hide CharLen;
      CharLenPrefix(a, b);
      var n := CharLen(a);
      assert (a + b)[n..] == a[n..] + b;
      WellFormedConcat(a[n..], b);
    }
  }

  /** The encoder is the inverse of the decoder on scalar values. */
  lemma EncodeIsUtf8(uc: nat)
    requires IsScalar(uc)
    ensures var s := Encode(uc); CharLen(s) == |s| && WellFormed(s) && CodeOf(s) == uc
  {
    var s := Encode(uc);
    EncodeLength(uc);
    hide CharLen, CodeOf, Encode;
    assert s[|s|..] == [];
  }

  /** The base-64 digits of a code. */
  lemma Digits(uc: nat)
    ensures uc == uc / 0x40 * 0x40 + uc % 0x40
    ensures uc == uc / 0x1000 * 0x1000 + uc / 0x40 % 0x40 * 0x40 + uc % 0x40
    ensures uc == uc / 0x40000 * 0x40000 + uc / 0x1000 % 0x40 * 0x1000 + uc / 0x40 % 0x40 * 0x40 + uc % 0x40
  {
    assert uc / 0x1000 == uc / 0x40 / 0x40 && uc / 0x40000 == uc / 0x1000 / 0x40;
  }

  lemma ThreeBytes(x: nat, y: nat, z: nat)
    requires x < 0x10 && y < 0x40 && z < 0x40 && var uc := x * 0x1000 + y * 0x40 + z; uc >= 0x800 && IsScalar(uc)
    ensures var s: Text := [(0xE0 + x) as byte, (0x80 + y) as byte, (0x80 + z) as byte];
            CharLen(s) == 3 && CodeOf(s) == x * 0x1000 + y * 0x40 + z
  {
  }

  lemma FourBytes(w: nat, x: nat, y: nat, z: nat)
    requires x < 0x40 && y < 0x40 && z < 0x40
    requires 0x10000 <= w * 0x40000 + x * 0x1000 + y * 0x40 + z < 0x110000
    ensures w < 5
    ensures var s: Text := [(0xF0 + w) as byte, (0x80 + x) as byte, (0x80 + y) as byte, (0x80 + z) as byte];
            CharLen(s) == 4 && CodeOf(s) == w * 0x40000 + x * 0x1000 + y * 0x40 + z
  {
  }

  lemma EncodeLength(uc: nat)
    requires IsScalar(uc)
    ensures var s := Encode(uc); s != [] && CharLen(s) == |s| && CodeOf(s) == uc
  {
    Digits(uc);
    if 0x800 <= uc < 0x10000 {
      hide CharLen, CodeOf;
      ThreeBytes(uc / 0x1000, uc / 0x40 % 0x40, uc % 0x40);
    } else if uc >= 0x10000 {
      hide CharLen, CodeOf;
      FourBytes(uc / 0x40000, uc / 0x1000 % 0x40, uc / 0x40 % 0x40, uc % 0x40);
    } else if uc >= 0x80 {
      assert 2 <= uc / 0x40 < 0x20;
    }
  }

  /** The mask of the surrogate macros on codes of one escape, where it is right, and on decoded pairs. */
  lemma MaskOnEscape(uc: nat)
    requires uc < 0x10000
    ensures IsHigh(uc) <==> 0xD800 <= uc <= 0xDBFF
    ensures IsLow(uc) <==> 0xDC00 <= uc <= 0xDFFF
  {
  }

  /** The low 16 bits of a code are those of a surrogate, which is all that the macros look at. */
  predicate Misread(uc: nat) {
    0xD800 <= uc % 0x10000 <= 0xDFFF
  }

  lemma MaskOnPair(uc: nat)
    ensures IsHigh(uc) || IsLow(uc) <==> Misread(uc)
  {
  }

  lemma ReplacementIsUtf8()
    ensures WellFormed(REPLACEMENT)
  {
    assert CharLen(REPLACEMENT) == 3 && REPLACEMENT[3..] == [];
  }

  /** Every finished code appends one well-formed character; a lone half is U+FFFD. */
  lemma AppendIsUtf8(uc: nat)
    requires uc < 0x110000
    ensures WellFormed(Append(uc)) && Append(uc) != []
    ensures 0xD800 <= uc <= 0xDFFF ==> Append(uc) == REPLACEMENT && CodeOf(REPLACEMENT) == 0xFFFD
  {
    MaskOnPair(uc);
    ReplacementIsUtf8();
    if uc < 0x800 || !Misread(uc) {
      EncodeIsUtf8(uc);
    }
  }

  /** The scalar value of a surrogate pair, by section 7 of RFC 8259 (section 2.1 of RFC 2781). */
  function PairScalar(high: nat, low: nat): nat
    requires 0xD800 <= high <= 0xDBFF && 0xDC00 <= low <= 0xDFFF
  {
    0x10000 + (high - 0xD800) * 0x400 + (low - 0xDC00)
  }

  /** What the code of a surrogate pair appends on its own. */
  lemma PairAppends(high: nat, low: nat)
    requires 0xD800 <= high <= 0xDBFF && 0xDC00 <= low <= 0xDFFF
    ensures var uc := PairScalar(high, low);
            && IsScalar(uc) && DecodePair(high, low) == uc
            && Append(uc) == if Misread(uc) then REPLACEMENT else Encode(uc)
  {
    MaskOnPair(PairScalar(high, low));
  }

  // ---------------------------------------------------------------- strings

  lemma ItemTextStart(item: Item)
    requires ValidItem(item)
    ensures ItemText(item) != [] && (!item.Plain? ==> ItemText(item)[0] == BACKSLASH)
    ensures item.Plain? ==> ItemText(item) == [item.c]
    ensures !item.Plain? ==> WellFormed(ItemText(item))
  {
    if !item.Plain? {
      AsciiIsUtf8(ItemText(item));
    }
  }

  lemma {:induction false} AsciiIsUtf8(s: Text)
    requires forall i :: 0 <= i < |s| ==> s[i] < 0x80
    ensures WellFormed(s)
  {
    if s == [] {
    } else {
      AsciiIsUtf8(s[1..]);
    }
  }

  lemma PlainFirst(items: seq<Item>)
    requires ValidItems(items) && items != [] && items[0].Plain?
    ensures ItemsText(items) == [items[0].c] + ItemsText(items[1..])
    ensures ItemsValue(items) == [items[0].c] + ItemsValue(items[1..])
  {
  }

  lemma HighByteIsPlain(items: seq<Item>)
    requires ValidItems(items) && ItemsText(items) != [] && ItemsText(items)[0] >= 0x80
    ensures items != [] && items[0].Plain?
  {
    assert ValidItem(items[0]);
    ItemTextStart(items[0]);
  }

  /** The tail bytes of a character are items that stand for themselves. */
  lemma {:induction false} PlainRun(items: seq<Item>, tails: Text, more: Text)
    requires ValidItems(items) && ItemsText(items) == tails + more
    requires forall i :: 0 <= i < |tails| ==> IsTail(tails[i])
    ensures |tails| <= |items| && ItemsText(items[|tails|..]) == more
    ensures ItemsValue(items) == tails + ItemsValue(items[|tails|..])
    decreases |tails|
  {
    hide ItemsText, ItemsValue;
    var n := |tails|;
    if n == 0 {
      assert items[0..] == items && tails + more == more;
    } else {
      assert (tails + more)[0] == tails[0];
      HighByteIsPlain(items);
      PlainFirst(items);
      var rest := items[1..];
      assert ItemsText(rest) == (tails + more)[1..] == tails[1..] + more;
      PlainRun(rest, tails[1..], more);
      assert rest[n - 1..] == items[n..];
      assert tails == [tails[0]] + tails[1..];
    }
  }

  /** Any code that the escapes of a string can give. */
  lemma CombineIsCode(hi: nat, uc: nat)
    requires uc < 0x10000
    ensures Combine(hi, uc).0 < 0x110000 && WellFormed(Combine(hi, uc).1)
  {
    ReplacementIsUtf8();
  }

  lemma ThreeParts(a: Text, b: Text, c: Text)
    requires WellFormed(a) && WellFormed(b) && WellFormed(c)
    ensures WellFormed(a + b + c)
  {
    WellFormedConcat(a, b);
    WellFormedConcat(a + b, c);
  }

  /**
   Escapes never spoil a text: when the characters of a string are well-formed UTF-8, escapes of
   halves in any order included, so is the string that the tokener makes of it.
   */
  lemma {:induction false} StringIsUtf8(items: seq<Item>)
    requires ValidItems(items) && WellFormed(ItemsText(items))
    ensures WellFormed(ItemsValue(items))
    decreases |items|, 1
  {
    if items == [] {
    } else {
      hide CharLen, WellFormed;
      assert ValidItem(items[0]);
      ItemTextStart(items[0]);
      match items[0]
      case Plain(c) => PlainIsUtf8(items);
      case Short(c) =>
        WellFormedConcat(ItemText(items[0]), ItemsText(items[1..]));
        StringIsUtf8(items[1..]);
        AsciiIsUtf8([Unescape(c).value]);
        WellFormedConcat([Unescape(c).value], ItemsValue(items[1..]));
      case Hex(_) => EscapesAreUtf8(items, 0);
    }
  }

  lemma PlainIsUtf8(items: seq<Item>)
    requires ValidItems(items) && items != [] && items[0].Plain? && WellFormed(ItemsText(items))
    ensures WellFormed(ItemsValue(items))
    decreases |items|, 0
  {
    hide ItemsText, ItemsValue, ValidItem, CharLen, WellFormed;
    PlainFirst(items);
    var text, rest := ItemsText(items), items[1..];
    FirstCharacter(text);
    var n := CharLen(text);
    var tails, more := text[1..n], text[n..];
    assert ItemsText(rest) == text[1..] == tails + more;
    PlainRun(rest, tails, more);
    StringIsUtf8(rest[n - 1..]);
    WellFormedConcat(text[..n], ItemsValue(rest[n - 1..]));
    assert text[..n] == [text[0]] + tails;
    assert ItemsValue(items) == text[..n] + ItemsValue(rest[n - 1..]);
  }

  lemma FirstCharacter(s: Text)
    requires s != [] && WellFormed(s)
    ensures CharLen(s) > 0 && WellFormed(s[..CharLen(s)]) && WellFormed(s[CharLen(s)..])
  {
    var n := CharLen(s);
    assert CharLen(s[..n]) == n;
    assert s[..n][n..] == [];
  }

  lemma EscapesAreUtf8(items: seq<Item>, hi: nat)
    requires ValidItems(items) && items != [] && items[0].Hex? && WellFormed(ItemsText(items))
    ensures WellFormed(HexValueOf(items, hi))
    decreases |items|, 0
  {
    hide CharLen, WellFormed, Append, Combine, DecodePair;
    assert ValidItem(items[0]);
    ItemTextStart(items[0]);
    var rest := items[1..];
    WellFormedConcat(ItemText(items[0]), ItemsText(rest));
    var (code, before) := Combine(hi, HexCode(items[0].digits));
    CombineIsCode(hi, HexCode(items[0].digits));
    if code >= 0x800 && IsHigh(code) && |items| > 1 && items[1].Hex? {
      EscapesAreUtf8(rest, code);
      WellFormedConcat(before, HexValueOf(rest, code));
    } else {
      StringIsUtf8(rest);
      AppendIsUtf8(code);
      ThreeParts(before, Append(code), ItemsValue(rest));
    }
  }

  // ---------------------------------------------------------------- pairs and lone halves

  lemma EncodeIsOneToOne(a: nat, b: nat)
    requires IsScalar(a) && IsScalar(b) && Encode(a) == Encode(b)
    ensures a == b
  {
    EncodeIsUtf8(a);
    EncodeIsUtf8(b);
  }

  /** While a half is pending, the bytes to come never start with the encoding of a misread code. */
  lemma {:induction false} NeverMisread(items: seq<Item>, hi: nat, uc: nat)
    requires ValidItems(items) && items != [] && items[0].Hex? && hi != 0
    requires Misread(uc) && 0x10000 <= uc < 0x110000
    ensures !(Encode(uc) <= HexValueOf(items, hi))
    decreases |items|
  {
    hide HexCode, DecodePair, IsHex, IsLow;
    assert ValidItem(items[0]);
    var low := HexCode(items[0].digits);
    var (code, before) := Combine(hi, low);
    if IsLow(low) {
      var rest := items[1..];
      assert before == [] && code == DecodePair(hi, low);
      if IsHigh(code) && |items| > 1 && items[1].Hex? {
        NeverMisread(rest, code, uc);
        assert HexValueOf(items, hi) == before + HexValueOf(rest, code) == HexValueOf(rest, code);
      } else {
        NotAppended(code, ItemsValue(rest), uc);
        assert HexValueOf(items, hi) == before + Append(code) + ItemsValue(rest) == Append(code) + ItemsValue(rest);
      }
    } else {
      assert HexValueOf(items, hi)[0] == REPLACEMENT[0];
    }
  }

  lemma NotAppended(code: nat, more: Text, uc: nat)
    requires 0x10000 <= code < 0x110000 && Misread(uc) && 0x10000 <= uc < 0x110000
    ensures !(Encode(uc) <= Append(code) + more)
  {
    MaskOnPair(code);
    assert |Encode(uc)| == 4 && Encode(uc)[0] >= 0xF0;
    if Misread(code) {
      assert (Append(code) + more)[0] == REPLACEMENT[0];
    } else if Encode(uc) <= Append(code) + more {
      assert Encode(uc) == (Append(code) + more)[..4] == Encode(code);
      EncodeIsOneToOne(uc, code);
    }
  }

  /**
   A surrogate pair in a string gives the encoding of its scalar value, and then what follows, if and
   only if the low 16 bits of that value are not those of a surrogate. This is so whatever follows,
   another escape included: the wrong bytes may then be U+FFFD, or a third character.
   */
  lemma PairReads(high: Text, low: Text, rest: seq<Item>)
    requires ValidItem(Hex(high)) && ValidItem(Hex(low)) && ValidItems(rest)
    requires 0xD800 <= HexCode(high) <= 0xDBFF && 0xDC00 <= HexCode(low) <= 0xDFFF
    ensures var uc := PairScalar(HexCode(high), HexCode(low));
            ItemsValue([Hex(high), Hex(low)] + rest) == Encode(uc) + ItemsValue(rest) <==> !Misread(uc)
  {
    var items, h, l := [Hex(high), Hex(low)] + rest, HexCode(high), HexCode(low);
    var uc := PairScalar(h, l);
    assert items[1..] == [Hex(low)] + rest && items[1..][1..] == rest;
    assert items[0] == Hex(high) && items[1] == Hex(low);
    MaskOnEscape(h);
    MaskOnEscape(l);
    MaskOnPair(uc);
    PairAppends(h, l);
    assert |Encode(uc)| == 4;
    hide HexCode, Append, DecodePair, Encode, IsHigh, IsLow, IsHex, Misread;
    assert ItemsValue(items) == [] + HexValueOf(items[1..], h) == HexValueOf(items[1..], h);
    if IsHigh(uc) && rest != [] && rest[0].Hex? {
      assert HexValueOf(items[1..], h) == [] + HexValueOf(rest, uc) == HexValueOf(rest, uc);
      NeverMisread(rest, uc, uc);
      assert Encode(uc) <= Encode(uc) + ItemsValue(rest);
    } else {
      assert HexValueOf(items[1..], h) == [] + Append(uc) + ItemsValue(rest) == Append(uc) + ItemsValue(rest);
      SameLength(Append(uc), Encode(uc), ItemsValue(rest));
    }
  }

  lemma SameLength(a: Text, b: Text, more: Text)
    ensures a + more == b + more <==> a == b
  {
    if a + more == b + more {
      assert |a| == |b| && a == (a + more)[..|a|] && b == (b + more)[..|b|];
    }
  }

  predicate StartsLow(items: seq<Item>)
    requires ValidItems(items)
  {
    items != [] && items[0].Hex? && (assert ValidItem(items[0]); IsLow(HexCode(items[0].digits)))
  }

  /** A low half takes less room in a pair than on its own. */
  lemma {:induction false} PairIsShort(items: seq<Item>, hi: nat)
    requires ValidItems(items) && StartsLow(items) && hi != 0
    ensures |HexValueOf(items, hi)| <= 4 + |ItemsValue(items[1..])|
    ensures |HexValueOf(items, 0)| == 3 + |ItemsValue(items[1..])|
    decreases |items|
  {
    assert ValidItem(items[0]);
    var low, rest := HexCode(items[0].digits), items[1..];
    MaskOnEscape(low);
    var code := DecodePair(hi, low);
    assert |Append(code)| <= 4;
    hide HexCode, DecodePair, IsHex, IsLow, IsHigh;
    if IsHigh(code) && rest != [] && rest[0].Hex? {
      assert HexValueOf(items, hi) == [] + HexValueOf(rest, code);
      assert ItemsValue(rest) == HexValueOf(rest, 0);
      if StartsLow(rest) {
        PairIsShort(rest, code);
      } else {
        Unpaired(rest, code);
      }
    }
  }

  /** A pending half that no low half follows. */
  lemma Unpaired(items: seq<Item>, hi: nat)
    requires ValidItems(items) && items != [] && items[0].Hex? && !StartsLow(items) && hi != 0
    ensures HexValueOf(items, hi) == REPLACEMENT + HexValueOf(items, 0)
  {
    hide HexCode, IsHex, IsLow, IsHigh, Append;
    assert ValidItem(items[0]);
  }

  /**
   Unpaired halves in a string: a low half with nothing pending is U+FFFD, and a high half is U+FFFD
   if and only if no escape of a low half comes right after it.
   */
  lemma LoneHalf(half: Text, rest: seq<Item>)
    requires ValidItem(Hex(half)) && ValidItems(rest) && 0xD800 <= HexCode(half) <= 0xDFFF
    ensures ItemsValue([Hex(half)] + rest) == REPLACEMENT + ItemsValue(rest)
            <==> HexCode(half) >= 0xDC00 || !StartsLow(rest)
  {
    var items, h := [Hex(half)] + rest, HexCode(half);
    assert items[1..] == rest && items[0] == Hex(half);
    MaskOnEscape(h);
    AppendIsUtf8(h);
    hide HexCode, Append, IsHigh, IsLow, IsHex;
    if h < 0xDC00 && rest != [] && rest[0].Hex? {
      assert ItemsValue(items) == [] + HexValueOf(rest, h) == HexValueOf(rest, h);
      if StartsLow(rest) {
        PairIsShort(rest, h);
      } else {
        Unpaired(rest, h);
      }
    } else {
      assert ItemsValue(items) == [] + Append(h) + ItemsValue(rest) == Append(h) + ItemsValue(rest);
    }
  }

  /** A misread pair: `\uD836\uDC00` is U+1D800, whose low 16 bits pass for a high half, so that a third
      escape joins it, and the string is the one character U+10000. */
  lemma MisreadPair()
    ensures var high, low := Hex([68, 56, 51, 54]), Hex([68, 67, 48, 48]);
            && ValidItems([high, low, low]) && Misread(PairScalar(0xD836, 0xDC00))
            && ItemsValue([high, low, low]) == Encode(0x10000)
  {
    var high, low := Hex([68, 56, 51, 54]), Hex([68, 67, 48, 48]);
    var items: seq<Item> := [high, low, low];
    assert items[1..] == [low, low] && [low, low][1..] == [low] && [low][1..] == [];
    assert HexCode(high.digits) == 0xD836 && HexCode(low.digits) == 0xDC00;
    assert Combine(0xD836, 0xDC00) == (0x1D800, []) && Combine(0x1D800, 0xDC00) == (0x10000, []);
    hide HexCode, Combine;
    assert HexValueOf([low], 0x1D800) == [] + Append(0x10000) + ItemsValue([]);
    assert HexValueOf([low, low], 0xD836) == [] + HexValueOf([low], 0x1D800);
    assert ItemsValue(items) == HexValueOf(items, 0) == [] + HexValueOf([low, low], 0xD836);
  }
}

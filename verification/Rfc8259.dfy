/**
 The JSON texts of RFC 8259 (sections 2 to 7), each given as a tree that records every space and
 every escape, with its text, its value and its height.
 */
module Rfc8259 {
  import opened Bytes
  import opened Json
  import opened Int64
  import opened Unicode
  import opened Machine
  import opened Reference

  // Section 7: a byte that stands for itself, a two-character escape, a unicode escape.
  datatype Item = Plain(c: byte) | Short(c: byte) | Hex(digits: Text)

  // Section 6: the exponent is a marker, an optional sign, and digits.
  datatype Exponent = Exponent(marker: byte, sign: Text, digits: Text)

  datatype Numeral = Numeral(negative: bool, digits: Text, fraction: Option<Text>, exponent: Option<Exponent>)

  // DDouble is not of the RFC: the text of a double in some other form that the library reads.
  datatype Doc =
    | DNull
    | DBool(b: bool)
    | DNumber(num: Numeral)
    | DDouble(text: Text)
    | DString(items: seq<Item>)
    | DArray(inside: Text, elems: seq<Elem>)
    | DObject(inside: Text, members: seq<Member>)

  // An element or a member with the spaces around its tokens.
  datatype Elem = Elem(before: Text, value: Doc, after: Text)
  datatype Member = Member(
    before: Text, key: seq<Item>, afterKey: Text, beforeValue: Text, value: Doc, after: Text)

  // ---------------------------------------------------------------- well-formedness

  predicate Blank(s: Text) {
    forall i :: 0 <= i < |s| ==> s[i] == SPACE || s[i] == TAB || s[i] == LF || s[i] == CR
  }

  lemma EmptyIsBlank()
    ensures Blank([])
  {
  }

  predicate ValidItem(item: Item) {
    match item
    case Plain(c) => c >= SPACE && c != QUOTE && c != BACKSLASH
    case Short(c) => Unescape(c).Some?
    case Hex(digits) => |digits| == 4 && forall i :: 0 <= i < 4 ==> IsHex(digits[i])
  }

  predicate ValidItems(items: seq<Item>) {
    forall i :: 0 <= i < |items| ==> ValidItem(items[i])
  }

  predicate ValidExponent(e: Exponent) {
    && (e.marker == LOWER_E || e.marker == UPPER_E)
    && (e.sign == [] || e.sign == [PLUS] || e.sign == [MINUS])
    && |e.digits| > 0 && AllDigits(e.digits)
  }

  predicate ValidNumeral(n: Numeral) {
    && Canonical(n.digits)
    && (n.fraction.Some? ==> |n.fraction.value| > 0 && AllDigits(n.fraction.value))
    && (n.exponent.Some? ==> ValidExponent(n.exponent.value))
  }

  predicate AllNumberChars(s: Text) {
    forall i :: 0 <= i < |s| ==> IsNumberChar(s[i])
  }

  /** A text that the tokener takes as a double. */
  predicate DoubleText(text: Text) {
    AllNumberChars(text) && text != [] && (IsDigit(text[0]) || text[0] == MINUS) && HasPoint(text)
  }

  predicate Valid(doc: Doc) {
    match doc
    case DNull => true
    case DBool(_) => true
    case DNumber(num) => ValidNumeral(num)
    case DDouble(text) => DoubleText(text)
    case DString(items) => ValidItems(items)
    case DArray(inside, elems) => Blank(inside) && ValidElems(elems)
    case DObject(inside, members) => Blank(inside) && ValidMembers(members)
  }

  predicate ValidElems(elems: seq<Elem>) {
    elems == []
    || (Blank(elems[0].before) && Valid(elems[0].value) && Blank(elems[0].after) && ValidElems(elems[1..]))
  }

  predicate ValidMembers(members: seq<Member>) {
    if members == [] then true
    else
      var m := members[0];
      && Blank(m.before) && ValidItems(m.key) && Blank(m.afterKey) && Blank(m.beforeValue)
      && Valid(m.value) && Blank(m.after) && ValidMembers(members[1..])
  }

  // ---------------------------------------------------------------- text

  function ItemText(item: Item): Text {
    match item
    case Plain(c) => [c]
    case Short(c) => [BACKSLASH, c]
    case Hex(digits) => [BACKSLASH, LOWER_U] + digits
  }

  function ItemsText(items: seq<Item>): Text {
    if items == [] then [] else ItemText(items[0]) + ItemsText(items[1..])
  }

  function FractionText(n: Numeral): Text {
    match n.fraction
    case None => []
    case Some(f) => [DOT] + f
  }

  function ExponentText(n: Numeral): Text {
    match n.exponent
    case None => []
    case Some(e) => [e.marker] + e.sign + e.digits
  }

  function NumeralText(n: Numeral): Text {
    (if n.negative then [MINUS] else []) + n.digits + FractionText(n) + ExponentText(n)
  }

  function DocText(doc: Doc): Text {
    match doc
    case DNull => NULL_WORD
    case DBool(b) => if b then TRUE_WORD else FALSE_WORD
    case DNumber(num) => NumeralText(num)
    case DDouble(text) => text
    case DString(items) => [QUOTE] + ItemsText(items) + [QUOTE]
    case DArray(inside, elems) =>
      if elems == [] then [LBRACKET] + inside + [RBRACKET] else [LBRACKET] + ElemsText(elems) + [RBRACKET]
    case DObject(inside, members) =>
      if members == [] then [LBRACE] + inside + [RBRACE] else [LBRACE] + MembersText(members) + [RBRACE]
  }

  function ElemsText(elems: seq<Elem>): Text {
    if elems == [] then []
    else
      elems[0].before + DocText(elems[0].value) + elems[0].after
      + if |elems| == 1 then [] else [COMMA] + ElemsText(elems[1..])
  }

  function MembersText(members: seq<Member>): Text {
    if members == [] then []
    else
      var m := members[0];
      m.before + [QUOTE] + ItemsText(m.key) + [QUOTE] + m.afterKey + [COLON]
      + m.beforeValue + DocText(m.value) + m.after
      + if |members| == 1 then [] else [COMMA] + MembersText(members[1..])
  }

  // ---------------------------------------------------------------- value and height

  /** The bytes of a string. A high half goes with the escape right after it. */
  function ItemsValue(items: seq<Item>): Text
    requires ValidItems(items)
    decreases |items|, 1
  {
    if items == [] then []
    else
      match items[0]
      case Plain(c) => [c] + ItemsValue(items[1..])
      case Short(c) => [Unescape(c).value] + ItemsValue(items[1..])
      case Hex(_) => HexValueOf(items, 0)
  }

  function HexValueOf(items: seq<Item>, hi: nat): Text
    requires ValidItems(items) && items != [] && items[0].Hex?
    decreases |items|, 0
  {
    assert ValidItem(items[0]);
    var (code, before) := Combine(hi, HexCode(items[0].digits));
    if code >= 0x800 && IsHigh(code) && |items| > 1 && items[1].Hex? then
      before + HexValueOf(items[1..], code)
    else before + Append(code) + ItemsValue(items[1..])
  }

  function NumeralValue(n: Numeral): Json
    requires ValidNumeral(n)
  {
    if n.fraction.None? && n.exponent.None? then
      Int(Clamp64(if n.negative then -Int64.Value(n.digits) else Int64.Value(n.digits)))
    else Double(NumeralText(n))
  }

  function DocValue(doc: Doc): Json
    requires Valid(doc)
  {
    match doc
    case DNull => Null
    case DBool(b) => Bool(b)
    case DNumber(num) => NumeralValue(num)
    case DDouble(text) => Double(text)
    case DString(items) => Str(ItemsValue(items))
    case DArray(_, elems) => Arr(ElemsValue(elems))
    case DObject(_, members) => Obj(MembersValue(members, []))
  }

  function ElemsValue(elems: seq<Elem>): seq<Json>
    requires ValidElems(elems)
  {
    if elems == [] then [] else [DocValue(elems[0].value)] + ElemsValue(elems[1..])
  }

  /** Later members with the same key replace the value of the first; a key ends at its first NUL. */
  function MembersValue(members: seq<Member>, acc: seq<Field>): seq<Field>
    requires ValidMembers(members)
  {
    if members == [] then acc
    else
      var key := CString(ItemsValue(members[0].key));
      MembersValue(members[1..], ObjectAdd(acc, key, DocValue(members[0].value)))
  }

  /** Nesting: 0 for a scalar or an empty container, one more than the tallest child otherwise. */
  function DocHeight(doc: Doc): nat {
    match doc
    case DArray(_, elems) => if elems == [] then 0 else 1 + ElemsDocHeight(elems)
    case DObject(_, members) => if members == [] then 0 else 1 + MembersDocHeight(members)
    case _ => 0
  }

  function Larger(a: nat, b: nat): nat {
    if a >= b then a else b
  }

  function ElemsDocHeight(elems: seq<Elem>): nat {
    if elems == [] then 0 else Larger(DocHeight(elems[0].value), ElemsDocHeight(elems[1..]))
  }

  function MembersDocHeight(members: seq<Member>): nat {
    if members == [] then 0 else Larger(DocHeight(members[0].value), MembersDocHeight(members[1..]))
  }

  // ---------------------------------------------------------------- doubles

  /** sscanf reads every double of the document. */
  predicate Readable(cfg: Config, doc: Doc) {
    match doc
    case DNumber(num) => num.fraction.Some? || num.exponent.Some? ==> cfg.readable(NumeralText(num))
    case DDouble(text) => cfg.readable(text)
    case DArray(_, elems) => ReadableElems(cfg, elems)
    case DObject(_, members) => ReadableMembers(cfg, members)
    case _ => true
  }

  predicate ReadableElems(cfg: Config, elems: seq<Elem>) {
    elems == [] || (Readable(cfg, elems[0].value) && ReadableElems(cfg, elems[1..]))
  }

  predicate ReadableMembers(cfg: Config, members: seq<Member>) {
    members == [] || (Readable(cfg, members[0].value) && ReadableMembers(cfg, members[1..]))
  }
}

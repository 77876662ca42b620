/** The grammar accepts every RFC 8259 text, with its value, exactly up to the depth limit. */
module Completeness {
  import opened Bytes
  import opened Json
  import opened Int64
  import opened Unicode
  import opened Machine
  import opened Reference
  import opened Rfc8259

  // ---------------------------------------------------------------- spaces

  lemma {:induction false} BlankSpaces(strict: bool, ws: Text, s: Text)
    requires Blank(ws)
    ensures Spaces(strict, ws + s) == Spaces(strict, s)
  {
    if ws == [] {
      assert ws + s == s;
    } else {
      assert (ws + s)[0] == ws[0];
      assert (ws + s)[1..] == ws[1..] + s;
      BlankSpaces(strict, ws[1..], s);
    }
  }

  predicate TokenByte(c: byte) {
    !IsSpace(c) && c != SLASH
  }

  /** Blanks before a token are passed over. */
  lemma GapParses(strict: bool, ws: Text, s: Text, depth: nat, v: Json)
    requires Blank(ws) && s != [] && TokenByte(s[0])
    ensures NextToken(strict, ws + s) == At(s)
    ensures AfterValue(strict, ws + s, depth, v) == At(s)
  {
    BlankSpaces(strict, ws, s);
  }

  lemma Assoc(a: Text, b: Text, c: Text)
    ensures a + b + c == a + (b + c)
  {
  }

  // ---------------------------------------------------------------- strings

  lemma BodyPlain(c: byte, tail: Text, acc: Text, pos: nat)
    requires ValidItem(Plain(c))
    ensures StringBody([c] + tail, QUOTE, acc, pos) == StringBody(tail, QUOTE, acc + [c], pos)
  {
    assert ([c] + tail)[1..] == tail;
  }

  lemma BodyShort(c: byte, tail: Text, acc: Text, pos: nat)
    requires ValidItem(Short(c))
    ensures StringBody([BACKSLASH, c] + tail, QUOTE, acc, pos)
            == StringBody(tail, QUOTE, acc + [Unescape(c).value], pos)
  {
    assert ([BACKSLASH, c] + tail)[2..] == tail;
  }

  lemma BodyHex(tail: Text, acc: Text, pos: nat)
    ensures StringBody([BACKSLASH, LOWER_U] + tail, QUOTE, acc, pos) == UnicodeBody(tail, QUOTE, acc, 0)
  {
    assert ([BACKSLASH, LOWER_U] + tail)[2..] == tail;
  }

  lemma BodyDigits(digits: Text, tail: Text, acc: Text, hi: nat)
    requires ValidItem(Hex(digits))
    ensures var (code, before) := Combine(hi, HexCode(digits));
            UnicodeBody(digits + tail, QUOTE, acc, hi)
            == if code >= 0x800 && IsHigh(code) && EscapeFollows(tail) then
                 UnicodeBody(tail[2..], QUOTE, acc + before, code)
               else StringBody(tail, QUOTE, acc + before + Append(code), 4)
  {
    hide Combine, IsHigh, Append, StringBody;
    var s := digits + tail;
    assert forall i :: 0 <= i < 4 ==> s[i] == digits[i];
    assert s[4..] == tail;
    if EscapeFollows(tail) {
      assert s[6..] == tail[2..];
    }
  }

  /** Some items, the closing quote, and what follows it. */
  function Quoted(items: seq<Item>, rest: Text): Text {
    ItemsText(items) + ([QUOTE] + rest)
  }

  lemma QuotedFirst(items: seq<Item>, rest: Text)
    requires items != []
    ensures Quoted(items, rest) == ItemText(items[0]) + Quoted(items[1..], rest)
    ensures items[0].Hex?
            ==> Quoted(items, rest) == [BACKSLASH, LOWER_U] + (items[0].digits + Quoted(items[1..], rest))
                && Quoted(items, rest)[2..] == items[0].digits + Quoted(items[1..], rest)
  {
    var close := [QUOTE] + rest;
    var tail := ItemsText(items[1..]);
    Assoc(ItemText(items[0]), tail, close);
    if items[0].Hex? {
      var prefix := [BACKSLASH, LOWER_U];
      var body := items[0].digits + (tail + close);
      Assoc(prefix, items[0].digits, tail + close);
      assert (prefix + body)[2..] == body;
    }
  }

  /** A string body is read to its closing quote, whatever follows. */
  lemma {:induction false} ItemsParse(items: seq<Item>, acc: Text, pos: nat, rest: Text) returns (p: nat)
    requires ValidItems(items)
    ensures StringBody(Quoted(items, rest), QUOTE, acc, pos) == Closed(acc + ItemsValue(items), rest, p)
    decreases |items|, 1
  {
    p := pos;
    if items == [] {
      assert Quoted(items, rest) == [QUOTE] + rest;
      assert ([QUOTE] + rest)[1..] == rest;
      assert acc + [] == acc;
    } else {
      hide StringBody, Quoted, UnicodeBody, HexValueOf;
      var item, tail, value := items[0], Quoted(items[1..], rest), ItemsValue(items[1..]);
      assert ValidItem(item);
      QuotedFirst(items, rest);
      match item
      case Plain(c) =>
        BodyPlain(c, tail, acc, pos);
        p := ItemsParse(items[1..], acc + [c], pos, rest);
        assert acc + [c] + value == acc + ([c] + value);
      case Short(c) =>
        var b := Unescape(c).value;
        BodyShort(c, tail, acc, pos);
        p := ItemsParse(items[1..], acc + [b], pos, rest);
        assert acc + [b] + value == acc + ([b] + value);
      case Hex(digits) =>
        BodyHex(digits + tail, acc, pos);
        p := HexParses(items, acc, 0, rest);
    }
  }

  /** The four digits of an escape and the items after them. */
  lemma {:induction false} HexParses(items: seq<Item>, acc: Text, hi: nat, rest: Text) returns (p: nat)
    requires ValidItems(items) && items != [] && items[0].Hex?
    ensures UnicodeBody(items[0].digits + Quoted(items[1..], rest), QUOTE, acc, hi)
            == Closed(acc + HexValueOf(items, hi), rest, p)
    decreases |items|, 0
  {
    hide UnicodeBody, StringBody, IsHigh, Append, ItemsValue, Combine, Quoted, EscapeFollows;
    assert ValidItem(items[0]);
    var digits := items[0].digits;
    var next := items[1..];
    var tail := Quoted(next, rest);
    var (code, before) := Combine(hi, HexCode(digits));
    BodyDigits(digits, tail, acc, hi);
    FollowsIffHex(next, rest);
    if code >= 0x800 && IsHigh(code) && |items| > 1 && items[1].Hex? {
      QuotedFirst(next, rest);
      p := HexParses(next, acc + before, code, rest);
      var value := HexValueOf(next, code);
      assert acc + before + value == acc + (before + value);
    } else {
      p := ItemsParse(next, acc + before + Append(code), 4, rest);
      var value := ItemsValue(next);
      assert acc + before + Append(code) + value == acc + (before + Append(code) + value);
    }
  }

  lemma FollowsIffHex(items: seq<Item>, rest: Text)
    requires ValidItems(items)
    ensures EscapeFollows(Quoted(items, rest)) <==> items != [] && items[0].Hex?
  {
    if items != [] {
      assert ValidItem(items[0]);
      QuotedFirst(items, rest);
    }
  }

  // ---------------------------------------------------------------- numbers

  lemma {:induction false} NumberLengthOf(text: Text, rest: Text)
    requires AllNumberChars(text) && (rest != [] ==> !IsNumberChar(rest[0]))
    ensures NumberLength(text + rest) == |text|
  {
    if text == [] {
      assert text + rest == rest;
    } else {
      assert (text + rest)[1..] == text[1..] + rest;
      NumberLengthOf(text[1..], rest);
    }
  }

  lemma NumeralChars(n: Numeral)
    requires ValidNumeral(n)
    ensures var text := NumeralText(n);
            && AllNumberChars(text) && |text| >= 1
            && (IsDigit(text[0]) || text[0] == MINUS) && (|text| == 1 ==> IsDigit(text[0]))
            && (HasPoint(text) <==> n.fraction.Some? || n.exponent.Some?)
  {
    var text := NumeralText(n);
    var head := (if n.negative then [MINUS] else []) + n.digits;
    var fraction, exponent := FractionText(n), ExponentText(n);
    assert text == head + fraction + exponent;
    assert forall i :: 0 <= i < |head| ==>
      text[i] == head[i] && IsNumberChar(head[i]) && !(head[i] in {DOT, LOWER_E, UPPER_E});
    assert forall i :: 0 <= i < |fraction| ==> text[|head| + i] == fraction[i] && IsNumberChar(fraction[i]);
    assert forall i :: 0 <= i < |exponent| ==>
      text[|head| + |fraction| + i] == exponent[i] && IsNumberChar(exponent[i]);
    if n.fraction.Some? {
      assert text[|head|] == DOT;
    } else if n.exponent.Some? {
      assert text[|head|] == n.exponent.value.marker;
    } else {
      assert text == head;
    }
  }

  lemma NumeralParses(cfg: Config, n: Numeral, rest: Text, pos: nat)
    requires ValidNumeral(n) && Readable(cfg, DNumber(n))
    requires rest != [] && !IsNumberChar(rest[0])
    ensures Scalar(cfg, NumeralText(n) + rest, pos) == Ok(NumeralValue(n), rest, pos)
  {
    hide HasPoint;
    var text := NumeralText(n);
    var s := text + rest;
    NumeralChars(n);
    NumberLengthOf(text, rest);
    assert s[..|text|] == text && s[|text|..] == rest && s[0] == text[0];
    if n.fraction.None? && n.exponent.None? {
      var sh := Shape(n.negative, n.digits, []);
      assert text == sh.Text();
      ShapeWritten(sh);
      if n.digits[0] == ZERO {
        assert n.digits == [ZERO];
        assert n.digits[..0] == [];
        assert Int64.Value(n.digits) == 0;
      }
    }
    assert NumberValue(cfg, text, HasPoint(text)) == Some(NumeralValue(n));
  }

  lemma DoubleParses(cfg: Config, text: Text, rest: Text, pos: nat)
    requires DoubleText(text) && cfg.readable(text)
    requires rest != [] && !IsNumberChar(rest[0])
    ensures Scalar(cfg, text + rest, pos) == Ok(Double(text), rest, pos)
  {
    var s := text + rest;
    NumberLengthOf(text, rest);
    assert s[..|text|] == text && s[|text|..] == rest && s[0] == text[0];
  }

  // ---------------------------------------------------------------- words

  lemma {:induction false} CommonLengthSelf(strict: bool, word: Text, rest: Text)
    ensures CommonLength(strict, word, word + rest) == |word|
  {
    if word == [] {
    } else {
      assert (word + rest)[1..] == word[1..] + rest;
      CommonLengthSelf(strict, word[1..], rest);
    }
  }

  lemma WordParses(cfg: Config, doc: Doc, rest: Text, pos: nat)
    requires (doc.DNull? || doc.DBool?) && rest != []
    ensures Scalar(cfg, DocText(doc) + rest, pos) == Ok(DocValue(doc), rest, |DocText(doc)|)
  {
    var word := DocText(doc);
    var s := word + rest;
    CommonLengthSelf(cfg.strict, word, rest);
    assert s[0] == word[0] && s[|word|..] == rest;
    if doc == DBool(false) {
      assert CommonLength(cfg.strict, TRUE_WORD, s) == 0;
    }
  }

  // ---------------------------------------------------------------- documents

  /** What has to come after a document for its end to be seen. */
  predicate Follows(doc: Doc, rest: Text) {
    match doc
    case DNull | DBool(_) => rest != []
    case DNumber(_) | DDouble(_) => rest != [] && !IsNumberChar(rest[0])
    case _ => true
  }

  /** A document of height `height` at depth `depth` is read, or it is too deep. */
  predicate Reads(cfg: Config, height: nat, depth: nat, value: Json, p: Parsed, rest: Text) {
    if height + depth <= cfg.maxDepth - 1 then p.Ok? && p.value == value && p.rest == rest
    else p == Halt(Reject(ErrDepth))
  }

  lemma DocFirst(doc: Doc, rest: Text)
    requires Valid(doc)
    ensures var s := DocText(doc) + rest;
            && s != [] && TokenByte(s[0]) && s[0] != NUL
            && s[0] != RBRACKET && s[0] != RBRACE
            && (s[0] == LBRACE <==> doc.DObject?) && (s[0] == LBRACKET <==> doc.DArray?)
  {
    if doc.DNumber? {
      NumeralChars(doc.num);
    }
    assert DocText(doc) != [];
    assert (DocText(doc) + rest)[0] == DocText(doc)[0];
  }

  /** A scalar is read at any depth. */
  lemma ScalarParses(cfg: Config, doc: Doc, rest: Text, pos: nat)
    requires Valid(doc) && Readable(cfg, doc) && Follows(doc, rest)
    requires !doc.DArray? && !doc.DObject?
    ensures var p := Scalar(cfg, DocText(doc) + rest, pos);
            p.Ok? && p.value == DocValue(doc) && p.rest == rest
  {
    match doc
    case DNumber(num) => NumeralParses(cfg, num, rest, pos);
    case DDouble(text) => DoubleParses(cfg, text, rest, pos);
    case DString(items) =>
      var s := DocText(doc) + rest;
      assert s == [QUOTE] + Quoted(items, rest) by {
        Assoc([QUOTE] + ItemsText(items), [QUOTE], rest);
        Assoc([QUOTE], ItemsText(items), [QUOTE] + rest);
      }
      assert s[1..] == Quoted(items, rest);
      var p := ItemsParse(items, [], pos, rest);
      assert [] + ItemsValue(items) == ItemsValue(items);
    case _ => WordParses(cfg, doc, rest, pos);
  }

  /** What follows an element: the closer of the array, or a comma and the other elements. */
  function ElemsTail(elems: seq<Elem>, rest: Text): Text
    requires elems != []
  {
    if |elems| == 1 then [RBRACKET] + rest else [COMMA] + (ElemsText(elems[1..]) + ([RBRACKET] + rest))
  }

  lemma ElemsSplit(elems: seq<Elem>, rest: Text)
    requires elems != []
    ensures ElemsText(elems) + ([RBRACKET] + rest)
            == elems[0].before + (DocText(elems[0].value) + (elems[0].after + ElemsTail(elems, rest)))
  {
    var close := [RBRACKET] + rest;
    var e := elems[0];
    var more := if |elems| == 1 then [] else [COMMA] + ElemsText(elems[1..]);
    assert more + close == ElemsTail(elems, rest);
    Assoc(e.before + DocText(e.value) + e.after, more, close);
    Assoc(e.before + DocText(e.value), e.after, ElemsTail(elems, rest));
    Assoc(e.before, DocText(e.value), e.after + ElemsTail(elems, rest));
  }

  lemma BlankFollows(doc: Doc, ws: Text, rest: Text)
    requires Blank(ws) && rest != [] && !IsNumberChar(rest[0])
    ensures Follows(doc, ws + rest)
  {
    if ws != [] {
      assert (ws + rest)[0] == ws[0];
    }
  }

  lemma {:induction false} ElemsParse(
    cfg: Config, elems: seq<Elem>, rest: Text, depth: nat, pos: nat, acc: seq<Json>, sep: bool)
    requires ValidElems(elems) && elems != [] && ReadableElems(cfg, elems) && depth < cfg.maxDepth
    ensures var p := Elements(cfg, ElemsText(elems) + ([RBRACKET] + rest), depth, pos, acc, sep);
            Reads(cfg, 1 + ElemsDocHeight(elems), depth, Arr(acc + ElemsValue(elems)), p, rest)
    decreases elems, 0
  {
    hide NextToken, AfterValue, Reference.Value, DocText, DocValue;
    var e := elems[0];
    var tail := ElemsTail(elems, rest);
    var s := ElemsText(elems) + ([RBRACKET] + rest);
    var r := DocText(e.value) + (e.after + tail);
    ElemsSplit(elems, rest);
    DocFirst(e.value, e.after + tail);
    GapParses(cfg.strict, e.before, r, 0, Null);
    if depth < cfg.maxDepth - 1 {
      BlankFollows(e.value, e.after, tail);
      DocParses(cfg, e.value, e.after + tail, depth + 1, pos);
      var p := Reference.Value(cfg, r, depth + 1, pos);
      if p.Ok? {
        GapParses(cfg.strict, e.after, tail, depth + 1, p.value);
        if |elems| > 1 {
          assert tail[1..] == ElemsText(elems[1..]) + ([RBRACKET] + rest);
          ElemsParse(cfg, elems[1..], rest, depth, p.pos, acc + [p.value], true);
          assert acc + [p.value] + ElemsValue(elems[1..]) == acc + ElemsValue(elems);
        } else {
          assert elems[1..] == [];
          assert acc + [p.value] == acc + ElemsValue(elems);
          assert tail[1..] == rest;
        }
      }
    }
  }

  function MembersTail(members: seq<Member>, rest: Text): Text
    requires members != []
  {
    if |members| == 1 then [RBRACE] + rest else [COMMA] + (MembersText(members[1..]) + ([RBRACE] + rest))
  }

  /** A member from the space before its value. */
  function ValuePart(members: seq<Member>, rest: Text): Text
    requires members != []
  {
    members[0].beforeValue + (DocText(members[0].value) + (members[0].after + MembersTail(members, rest)))
  }

  /** A member from its closing quote. */
  function ColonPart(members: seq<Member>, rest: Text): Text
    requires members != []
  {
    members[0].afterKey + ([COLON] + ValuePart(members, rest))
  }

  lemma MembersSplit(members: seq<Member>, rest: Text)
    requires members != []
    ensures MembersText(members) + ([RBRACE] + rest)
            == members[0].before + ([QUOTE] + Quoted(members[0].key, ColonPart(members, rest)))
  {
    var close := [RBRACE] + rest;
    var m := members[0];
    var q: Text := [QUOTE];
    var colon: Text := [COLON];
    var key := ItemsText(m.key);
    var value := DocText(m.value);
    var more := if |members| == 1 then [] else [COMMA] + MembersText(members[1..]);
    var tail := MembersTail(members, rest);
    assert more + close == tail;
    Assoc(m.before + q + key + q + m.afterKey + colon + m.beforeValue + value + m.after, more, close);
    Assoc(m.before + q + key + q + m.afterKey + colon + m.beforeValue + value, m.after, tail);
    Assoc(m.before + q + key + q + m.afterKey + colon + m.beforeValue, value, m.after + tail);
    Assoc(m.before + q + key + q + m.afterKey + colon, m.beforeValue, value + (m.after + tail));
    Assoc(m.before + q + key + q + m.afterKey, colon, ValuePart(members, rest));
    Assoc(m.before + q + key + q, m.afterKey, colon + ValuePart(members, rest));
    Assoc(m.before + q + key, q, ColonPart(members, rest));
    Assoc(m.before + q, key, q + ColonPart(members, rest));
    Assoc(m.before, q, Quoted(m.key, ColonPart(members, rest)));
  }

  lemma {:induction false} MembersParse(
    cfg: Config, members: seq<Member>, rest: Text, depth: nat, pos: nat, acc: seq<Field>, sep: bool)
    requires ValidMembers(members) && members != [] && ReadableMembers(cfg, members) && depth < cfg.maxDepth
    ensures var p := Members(cfg, MembersText(members) + ([RBRACE] + rest), depth, pos, acc, sep);
            Reads(cfg, 1 + MembersDocHeight(members), depth, Obj(MembersValue(members, acc)), p, rest)
    decreases members, 3
  {
    hide NextToken, StringBody, Quoted, ColonPart, ItemsValue, Colon;
    var m := members[0];
    var body := Quoted(m.key, ColonPart(members, rest));
    MembersSplit(members, rest);
    var r := [QUOTE] + body;
    assert r[1..] == body;
    GapParses(cfg.strict, m.before, r, 0, Null);
    var p := ItemsParse(m.key, [], pos, ColonPart(members, rest));
    assert [] + ItemsValue(m.key) == ItemsValue(m.key);
    ColonParses(cfg, members, rest, depth, p, acc);
  }

  /** A member from its closing quote, and the members after it. */
  lemma {:induction false} ColonParses(
    cfg: Config, members: seq<Member>, rest: Text, depth: nat, pos: nat, acc: seq<Field>)
    requires ValidMembers(members) && members != [] && ReadableMembers(cfg, members) && depth < cfg.maxDepth
    ensures var key := CString(ItemsValue(members[0].key));
            var p := Colon(cfg, ColonPart(members, rest), depth, pos, acc, key);
            Reads(cfg, 1 + MembersDocHeight(members), depth, Obj(MembersValue(members, acc)), p, rest)
    decreases members, 2
  {
    hide NextToken, ItemsValue, DocText, Rfc8259.DocValue, Reference.Member;
    var m := members[0];
    var key := CString(ItemsValue(m.key));
    var tail := MembersTail(members, rest);
    var r := DocText(m.value) + (m.after + tail);
    var colon := [COLON] + ValuePart(members, rest);
    assert colon[1..] == ValuePart(members, rest);
    GapParses(cfg.strict, m.afterKey, colon, 0, Null);
    DocFirst(m.value, m.after + tail);
    GapParses(cfg.strict, m.beforeValue, r, 0, Null);
    if depth < cfg.maxDepth - 1 {
      MemberParses(cfg, members, rest, depth, pos, acc);
    }
  }

  /** A member from its value, and the members after it. */
  lemma {:induction false} MemberParses(
    cfg: Config, members: seq<Member>, rest: Text, depth: nat, pos: nat, acc: seq<Field>)
    requires ValidMembers(members) && members != [] && ReadableMembers(cfg, members) && depth < cfg.maxDepth - 1
    ensures var m := members[0];
            var key := CString(ItemsValue(m.key));
            var p := Reference.Member(
              cfg, DocText(m.value) + (m.after + MembersTail(members, rest)), depth, pos, acc, key);
            Reads(cfg, 1 + MembersDocHeight(members), depth, Obj(MembersValue(members, acc)), p, rest)
    decreases members, 1
  {
    hide AfterValue, Reference.Value, ItemsValue, DocText, DocValue, ObjectAdd, Valid, Readable, DocHeight, ValidItems,
      CString, MembersText, Follows;
    var m := members[0];
    var key := CString(ItemsValue(m.key));
    var tail := MembersTail(members, rest);
    var r := DocText(m.value) + (m.after + tail);
    BlankFollows(m.value, m.after, tail);
    DocParses(cfg, m.value, m.after + tail, depth + 1, pos);
    var p := Reference.Value(cfg, r, depth + 1, pos);
    if p.Ok? {
      GapParses(cfg.strict, m.after, tail, depth + 1, p.value);
      if |members| > 1 {
        assert tail[1..] == MembersText(members[1..]) + ([RBRACE] + rest);
        MembersParse(cfg, members[1..], rest, depth, p.pos, ObjectAdd(acc, key, p.value), true);
      } else {
        assert members[1..] == [];
        assert tail[1..] == rest;
      }
    }
  }

  /** The text of a container after its opening byte. */
  function Inside(doc: Doc, rest: Text): Text
    requires doc.DArray? || doc.DObject?
  {
    match doc
    case DArray(inside, elems) => (if elems == [] then inside else ElemsText(elems)) + ([RBRACKET] + rest)
    case DObject(inside, members) => (if members == [] then inside else MembersText(members)) + ([RBRACE] + rest)
  }

  lemma DocOpens(doc: Doc, rest: Text)
    requires doc.DArray? || doc.DObject?
    ensures var s := DocText(doc) + rest;
            s != [] && s[1..] == Inside(doc, rest)
  {
    hide ElemsText, MembersText;
    match doc
    case DArray(inside, elems) =>
      var body := if elems == [] then inside else ElemsText(elems);
      Assoc([LBRACKET] + body, [RBRACKET], rest);
      Assoc([LBRACKET], body, [RBRACKET] + rest);
    case DObject(inside, members) =>
      var body := if members == [] then inside else MembersText(members);
      Assoc([LBRACE] + body, [RBRACE], rest);
      Assoc([LBRACE], body, [RBRACE] + rest);
  }

  /** An RFC 8259 text at some depth: read with its value, or too deep. */
  lemma {:induction false} DocParses(cfg: Config, doc: Doc, rest: Text, depth: nat, pos: nat)
    requires Valid(doc) && Readable(cfg, doc) && depth < cfg.maxDepth && Follows(doc, rest)
    ensures var p := Reference.Value(cfg, DocText(doc) + rest, depth, pos);
            Reads(cfg, DocHeight(doc), depth, DocValue(doc), p, rest)
    decreases doc, 4
  {
    hide NextToken, Scalar, Elements, Members, ElemsText, MembersText, DocText, Follows;
    var s := DocText(doc) + rest;
    DocFirst(doc, rest);
    assert [] + s == s;
    GapParses(cfg.strict, [], s, 0, Null);
    match doc
    case DArray(inside, elems) =>
      DocOpens(doc, rest);
      if elems == [] {
        EmptyParses(cfg, inside, rest, depth, pos);
      } else {
        ElemsParse(cfg, elems, rest, depth, pos, [], false);
        assert [] + ElemsValue(elems) == ElemsValue(elems);
      }
    case DObject(inside, members) =>
      DocOpens(doc, rest);
      if members == [] {
        EmptyParses(cfg, inside, rest, depth, pos);
      } else {
        MembersParse(cfg, members, rest, depth, pos, [], false);
      }
    case _ => ScalarParses(cfg, doc, rest, pos);
  }

  lemma EmptyParses(cfg: Config, inside: Text, rest: Text, depth: nat, pos: nat)
    requires Blank(inside)
    ensures Elements(cfg, inside + ([RBRACKET] + rest), depth, pos, [], false) == Ok(Arr([]), rest, pos)
    ensures Members(cfg, inside + ([RBRACE] + rest), depth, pos, [], false) == Ok(Obj([]), rest, pos)
  {
    hide NextToken;
    GapParses(cfg.strict, inside, [RBRACKET] + rest, 0, Null);
    GapParses(cfg.strict, inside, [RBRACE] + rest, 0, Null);
    assert ([RBRACKET] + rest)[1..] == rest && ([RBRACE] + rest)[1..] == rest;
  }

  /**
   RFC 8259 completeness and the exact depth limit. In either mode, a text of the RFC with any space
   around it and a NUL after it is accepted with its value if and only if its height is at most
   max_depth - 1; otherwise the error is error_depth and nothing else.
   */
  lemma AcceptsRfc8259(cfg: Config, before: Text, doc: Doc, after: Text, pos: nat)
    requires Blank(before) && Valid(doc) && Blank(after) && cfg.maxDepth > 0 && Readable(cfg, doc)
    ensures Document(cfg, before + (DocText(doc) + (after + [NUL])), pos)
            == if DocHeight(doc) <= cfg.maxDepth - 1 then Accept(DocValue(doc), 0, 1) else Reject(ErrDepth)
  {
    hide NextToken, AfterValue, DocText;
    var rest := after + [NUL];
    var s := DocText(doc) + rest;
    BlankFollows(doc, after, [NUL]);
    DocParses(cfg, doc, rest, 0, pos);
    ValueAfterBlank(cfg, before, s, doc, rest, pos);
    GapParses(cfg.strict, after, [NUL], 0, DocValue(doc));
  }

  lemma ValueAfterBlank(cfg: Config, before: Text, s: Text, doc: Doc, rest: Text, pos: nat)
    requires Blank(before) && Valid(doc) && s == DocText(doc) + rest
    ensures Reference.Value(cfg, before + s, 0, pos) == Reference.Value(cfg, s, 0, pos)
  {
    hide NextToken, Scalar, Elements, Members, DocText;
    DocFirst(doc, rest);
    GapParses(cfg.strict, before, s, 0, Null);
    GapParses(cfg.strict, [], s, 0, Null);
    assert [] + s == s;
  }

  /** With an explicit length an array, an object or a string needs no byte after it. */
  lemma AcceptsAtEnd(cfg: Config, before: Text, doc: Doc, after: Text, pos: nat)
    requires Blank(before) && Valid(doc) && Blank(after) && cfg.maxDepth > 0 && Readable(cfg, doc)
    requires doc.DArray? || doc.DObject? || doc.DString? || after != []
    ensures Document(cfg, before + (DocText(doc) + after), pos)
            == if DocHeight(doc) <= cfg.maxDepth - 1 then Accept(DocValue(doc), 0, 0) else Reject(ErrDepth)
  {
    hide NextToken, Spaces, DocText;
    var s := DocText(doc) + after;
    DocParses(cfg, doc, after, 0, pos);
    ValueAfterBlank(cfg, before, s, doc, after, pos);
    BlankSpaces(cfg.strict, after, []);
    assert after + [] == after;
    assert Spaces(cfg.strict, []) == GapEnd by { NothingLeft(cfg.strict); }
  }

  lemma NothingLeft(strict: bool)
    ensures Spaces(strict, []) == GapEnd
  {
  }
}

/** What the serializers write, the tokener reads back. */
module RoundTrip {
  import opened Bytes
  import opened Json
  import opened Int64
  import opened Unicode
  import opened Machine
  import opened Reference
  import opened Rfc8259
  import opened Serializer
  import Completeness
  import Simulation

  /** A tree whose integers fit 64 bits, whose doubles carry a text that reads as a double, and whose
      objects have distinct C strings as keys. */
  predicate Serializable(cfg: Config, v: Json) {
    match v
    case Int(i) => INT64_MIN <= i <= INT64_MAX
    case Double(text) => DoubleText(text) && cfg.readable(text)
    case Infinite(_) | NotANumber => false
    case Arr(elems) => SerializableElems(cfg, elems)
    case Obj(fields) => SerializableFields(cfg, fields)
    case _ => true
  }

  predicate SerializableElems(cfg: Config, elems: seq<Json>) {
    elems == [] || (Serializable(cfg, elems[0]) && SerializableElems(cfg, elems[1..]))
  }

  predicate SerializableFields(cfg: Config, fields: seq<Field>) {
    fields == []
    || (NUL !in fields[0].key && !HasKey(fields[1..], fields[0].key)
        && Serializable(cfg, fields[0].val) && SerializableFields(cfg, fields[1..]))
  }

  // ---------------------------------------------------------------- strings

  function ItemOf(c: byte): Item {
    match EscapeLetter(c)
    case Some(letter) => Short(letter)
    case None =>
      if c < SPACE then Hex([ZERO, ZERO, HexDigit(c as nat / 16), HexDigit(c as nat % 16)]) else Plain(c)
  }

  function ItemsOf(s: Text): seq<Item> {
    if s == [] then [] else [ItemOf(s[0])] + ItemsOf(s[1..])
  }

  lemma ItemOfByte(c: byte)
    ensures ValidItem(ItemOf(c)) && ItemText(ItemOf(c)) == EscapeByte(c)
    ensures ItemOf(c).Short? ==> Unescape(ItemOf(c).c) == Some(c)
    ensures ItemOf(c).Hex? ==> HexCode(ItemOf(c).digits) == c as nat && c < SPACE
  {
  }

  /** Every byte string, NUL and bytes above 0x7F included, survives escaping and unescaping. */
  lemma {:induction false} EscapeRoundTrip(s: Text)
    ensures ValidItems(ItemsOf(s)) && ItemsText(ItemsOf(s)) == Escape(s)
    ensures ItemsValue(ItemsOf(s)) == s
  {
    hide ItemOf, EscapeByte, ValidItem, Unescape, HexCode;
    if s == [] {
    } else {
      var items := ItemsOf(s);
      EscapeRoundTrip(s[1..]);
      ItemOfByte(s[0]);
      assert items[1..] == ItemsOf(s[1..]);
      assert forall i :: 0 < i < |items| ==> items[i] == items[1..][i - 1];
      FirstValue(items, s[0]);
      assert s == [s[0]] + s[1..];
    }
  }

  lemma FirstValue(items: seq<Item>, c: byte)
    requires ValidItems(items) && items != [] && items[0] == ItemOf(c)
    ensures ItemsValue(items) == [c] + ItemsValue(items[1..])
  {
    ItemOfByte(c);
    match items[0]
    case Plain(_) =>
    case Short(_) =>
    case Hex(digits) =>
      assert Combine(0, HexCode(digits)) == (c as nat, []);
      assert HexValueOf(items, 0) == [] + Append(c as nat) + ItemsValue(items[1..]);
      assert Append(c as nat) == [c];
  }

  /** The string states decode what json_escape_str writes, up to the closing quote. */
  lemma EscapeDecodes(s: Text, acc: Text, pos: nat, rest: Text) returns (p: nat)
    ensures StringBody(Escape(s) + ([QUOTE] + rest), QUOTE, acc, pos) == Closed(acc + s, rest, p)
  {
    EscapeRoundTrip(s);
    p := Completeness.ItemsParse(ItemsOf(s), acc, pos, rest);
  }

  // ---------------------------------------------------------------- documents

  /** The blanks before each child, and those of a container without children. */
  function Before(level: nat, f: Flags): Text {
    NewLine(f) + Space(f) + Indent(level + 1, f)
  }

  /** The RFC document that the serializers write for a value. */
  function DocOf(v: Json, level: nat, f: Flags): Doc
    decreases v, 1
  {
    match v
    case Null => DNull
    case Bool(b) => DBool(b)
    case Int(i) => DNumber(Numeral(i < 0, Decimal(if i < 0 then -i else i), None, None))
    case Double(text) => DDouble(text)
    case Str(bytes) => DString(ItemsOf(bytes))
    case Arr(elems) => DArray(NewLine(f) + Trail(false, level, f), ElemDocs(elems, level, f))
    case Obj(fields) => DObject(NewLine(f) + Trail(false, level, f), MemberDocs(fields, level, f))
    case Infinite(_) | NotANumber => DNull
  }

  function ElemDocs(elems: seq<Json>, level: nat, f: Flags): seq<Elem>
    decreases elems, 0
  {
    if elems == [] then []
    else
      [Elem(Before(level, f), DocOf(elems[0], level + 1, f), if |elems| == 1 then Trail(true, level, f) else [])]
      + ElemDocs(elems[1..], level, f)
  }

  function MemberDocs(fields: seq<Field>, level: nat, f: Flags): seq<Member>
    decreases fields, 0
  {
    if fields == [] then []
    else
      [Rfc8259.Member(Before(level, f), ItemsOf(fields[0].key), [], Space(f), DocOf(fields[0].val, level + 1, f),
                      if |fields| == 1 then Trail(true, level, f) else [])]
      + MemberDocs(fields[1..], level, f)
  }

  lemma BlankConcat(a: Text, b: Text)
    requires Blank(a) && Blank(b)
    ensures Blank(a + b)
  {
  }

  lemma LayoutIsBlank(had: bool, level: nat, f: Flags)
    ensures Blank(Before(level, f)) && Blank(Trail(had, level, f)) && Blank(Space(f))
    ensures Blank(NewLine(f) + Trail(had, level, f))
  {
    BlankConcat(NewLine(f), Space(f));
    BlankConcat(NewLine(f) + Space(f), Indent(level + 1, f));
    BlankConcat(if had then [LF] else [], Indent(level, f));
    BlankConcat(if f.pretty then (if had then [LF] else []) + Indent(level, f) else [], Space(f));
    BlankConcat(NewLine(f), Trail(had, level, f));
  }

  /** The document of a value is a text of the grammar with that value, and the serializers write it. */
  ghost predicate Faithful(cfg: Config, v: Json, level: nat, f: Flags) {
    var d := DocOf(v, level, f);
    && Valid(d) && DocText(d) == Serialize(v, level, f) && DocValue(d) == v
    && DocHeight(d) == Height(v) && Readable(cfg, d)
  }

  lemma IntIsFaithful(cfg: Config, i: int, level: nat, f: Flags)
    requires INT64_MIN <= i <= INT64_MAX
    ensures Faithful(cfg, Int(i), level, f)
  {
    hide Decimal;
    var n: nat := if i < 0 then -i else i;
    DecimalCanonical(n);
    var num := Numeral(i < 0, Decimal(n), None, None);
    assert NumeralText(num) == (if i < 0 then [MINUS] else []) + Decimal(n);
    assert [] + Decimal(n) == Decimal(n);
  }

  lemma StringIsFaithful(cfg: Config, bytes: Text, level: nat, f: Flags)
    ensures Faithful(cfg, Str(bytes), level, f)
  {
    hide ItemsOf, Escape, ItemsText, ItemsValue, ValidItems;
    EscapeRoundTrip(bytes);
  }

  lemma {:induction false} DocIsFaithful(cfg: Config, v: Json, level: nat, f: Flags)
    requires Serializable(cfg, v)
    ensures Faithful(cfg, v, level, f)
    decreases v, 1
  {
    hide Faithful;
    match v
    case Int(i) => IntIsFaithful(cfg, i, level, f);
    case Str(bytes) => StringIsFaithful(cfg, bytes, level, f);
    case Arr(elems) =>
      ElemsAreFaithful(cfg, elems, level, f);
      ArrayIsFaithful(cfg, elems, level, f);
    case Obj(fields) =>
      FieldsAreFaithful(cfg, fields, level, f);
      FieldsComeBack(cfg, fields, level, f, []);
      assert [] + fields == fields;
      ObjectIsFaithful(cfg, fields, level, f);
    case _ => WordIsFaithful(cfg, v, level, f);
  }

  lemma WordIsFaithful(cfg: Config, v: Json, level: nat, f: Flags)
    requires Serializable(cfg, v) && (v.Null? || v.Bool? || v.Double?)
    ensures Faithful(cfg, v, level, f)
  {
  }

  // ---------------------------------------------------------------- arrays

  /** The documents of the elements have the values, the heights and the layout of the elements. */
  ghost predicate FaithfulElems(cfg: Config, elems: seq<Json>, level: nat, f: Flags) {
    var docs := ElemDocs(elems, level, f);
    && |docs| == |elems| && ValidElems(docs) && ReadableElems(cfg, docs)
    && ElemsValue(docs) == elems && ElemsDocHeight(docs) == ElemsHeight(elems)
    && (elems != [] ==> ElemsText(docs) == NewLine(f) + SerializeElems(elems, false, level, f) + Trail(true, level, f))
  }

  lemma ArrayIsFaithful(cfg: Config, elems: seq<Json>, level: nat, f: Flags)
    requires FaithfulElems(cfg, elems, level, f)
    ensures Faithful(cfg, Arr(elems), level, f)
  {
    hide SerializeElems, ElemsText, Trail, NewLine, ElemDocs, ValidElems, ReadableElems, ElemsDocHeight, ElemsHeight;
    LayoutIsBlank(false, level, f);
    var nl, trail: Text := NewLine(f), Trail(elems != [], level, f);
    if elems == [] {
      NoElems(elems, false, level, f);
      assert [LBRACKET] + nl + [] + trail + [RBRACKET] == [LBRACKET] + (nl + trail) + [RBRACKET];
    } else {
      var all := SerializeElems(elems, false, level, f);
      assert [LBRACKET] + nl + all + trail == [LBRACKET] + (nl + all + trail);
    }
  }

  /** The layout before a first child, and before any other one. */
  lemma LeadIsBefore(level: nat, f: Flags)
    ensures NewLine(f) + Lead(false, level, f) == Before(level, f)
    ensures Lead(true, level, f) == [COMMA] + Before(level, f)
  {
    hide Indent, Space, NewLine;
    var nl, space, indent := NewLine(f), Space(f), Indent(level + 1, f);
    assert nl + ([] + space + indent) == nl + space + indent;
    assert [COMMA] + nl + space + indent == [COMMA] + (nl + space + indent);
  }

  lemma ElemsAfterComma(elems: seq<Json>, level: nat, f: Flags)
    requires elems != []
    ensures SerializeElems(elems, true, level, f) == [COMMA] + (NewLine(f) + SerializeElems(elems, false, level, f))
  {
    hide Lead, Before, NewLine, Serialize;
    LeadIsBefore(level, f);
    var nl, lead := NewLine(f), Lead(false, level, f);
    var text, rest := Serialize(elems[0], level + 1, f), SerializeElems(elems[1..], true, level, f);
    Regroup(nl, lead, text, rest);
    Regroup([COMMA], nl + lead, text, rest);
  }

  lemma JoinLast(nl: Text, lead: Text, text: Text, trail: Text)
    ensures nl + lead + text + trail + [] == nl + (lead + text + []) + trail
  {
  }

  lemma JoinMore(nl: Text, lead: Text, text: Text, more: Text, trail: Text)
    ensures nl + lead + text + [] + ([COMMA] + (nl + more + trail))
            == nl + (lead + text + ([COMMA] + (nl + more))) + trail
  {
    var tail := [COMMA] + (nl + more);
    assert [COMMA] + (nl + more + trail) == tail + trail;
    assert nl + lead + text + [] == nl + lead + text;
    assert nl + lead + text == nl + (lead + text);
    assert nl + (lead + text) + tail == nl + (lead + text + tail);
    assert nl + (lead + text) + (tail + trail) == nl + (lead + text) + tail + trail;
  }

  lemma {:induction false} ElemsLayout(elems: seq<Json>, level: nat, f: Flags)
    requires elems != [] && DocText(DocOf(elems[0], level + 1, f)) == Serialize(elems[0], level + 1, f)
    requires |elems| > 1
             ==> ElemsText(ElemDocs(elems[1..], level, f))
                 == NewLine(f) + SerializeElems(elems[1..], false, level, f) + Trail(true, level, f)
    requires |ElemDocs(elems[1..], level, f)| == |elems[1..]|
    ensures ElemsText(ElemDocs(elems, level, f))
            == NewLine(f) + SerializeElems(elems, false, level, f) + Trail(true, level, f)
  {
    hide Lead, Before, NewLine, Serialize, Trail, DocText, DocOf;
    var docs := ElemDocs(elems, level, f);
    assert docs[1..] == ElemDocs(elems[1..], level, f);
    var nl, lead, trail := NewLine(f), Lead(false, level, f), Trail(true, level, f);
    var text := Serialize(elems[0], level + 1, f);
    LeadIsBefore(level, f);
    if |elems| == 1 {
      NoElems(elems[1..], true, level, f);
      JoinLast(nl, lead, text, trail);
    } else {
      ElemsAfterComma(elems[1..], level, f);
      JoinMore(nl, lead, text, SerializeElems(elems[1..], false, level, f), trail);
    }
  }

  /** Putting a document before those of the other elements. */
  lemma {:induction false} ElemsCons(cfg: Config, first: Elem, docs: seq<Elem>, v: Json, elems: seq<Json>)
    requires Blank(first.before) && Blank(first.after) && Valid(first.value) && Readable(cfg, first.value)
    requires DocValue(first.value) == v && DocHeight(first.value) == Height(v)
    requires ValidElems(docs) && ReadableElems(cfg, docs)
    requires ElemsValue(docs) == elems && ElemsDocHeight(docs) == ElemsHeight(elems)
    ensures ValidElems([first] + docs) && ReadableElems(cfg, [first] + docs)
    ensures ElemsValue([first] + docs) == [v] + elems && ElemsDocHeight([first] + docs) == ElemsHeight([v] + elems)
  {
    hide Blank, Valid, Readable, DocValue, DocHeight, Height;
    assert ([first] + docs)[1..] == docs;
    assert ([v] + elems)[1..] == elems;
  }

  lemma {:induction false} ElemsAreFaithful(cfg: Config, elems: seq<Json>, level: nat, f: Flags)
    requires SerializableElems(cfg, elems)
    ensures FaithfulElems(cfg, elems, level, f)
    decreases elems, 0
  {
    if elems == [] {
    } else {
      hide Serialize, Lead, Trail, DocOf, DocText, ElemsText, SerializeElems, Before, NewLine, Blank, Valid,
        ValidElems, Readable, ReadableElems, DocValue, ElemsValue, DocHeight, ElemsDocHeight, Height, ElemsHeight;
      DocIsFaithful(cfg, elems[0], level + 1, f);
      ElemsAreFaithful(cfg, elems[1..], level, f);
      ElemsLayout(elems, level, f);
      LayoutIsBlank(true, level, f);
      EmptyIsBlank();
      var docs := ElemDocs(elems, level, f);
      ElemsCons(cfg, docs[0], ElemDocs(elems[1..], level, f), elems[0], elems[1..]);
      assert docs == [docs[0]] + ElemDocs(elems[1..], level, f);
      assert elems == [elems[0]] + elems[1..];
    }
  }

  // ---------------------------------------------------------------- objects

  /** The name, the colon and the value of a member, as the serializer writes them. */
  function MemberText(field: Field, level: nat, f: Flags): Text {
    [QUOTE] + Escape(field.key) + Serializer.Colon(f) + Serialize(field.val, level + 1, f)
  }

  ghost predicate FaithfulFields(cfg: Config, fields: seq<Field>, level: nat, f: Flags) {
    var docs := MemberDocs(fields, level, f);
    && |docs| == |fields| && ValidMembers(docs) && ReadableMembers(cfg, docs)
    && MembersDocHeight(docs) == FieldsHeight(fields)
    && (fields != []
        ==> MembersText(docs) == NewLine(f) + SerializeFields(fields, false, level, f) + Trail(true, level, f))
  }

  lemma ObjectIsFaithful(cfg: Config, fields: seq<Field>, level: nat, f: Flags)
    requires FaithfulFields(cfg, fields, level, f)
    requires MembersValue(MemberDocs(fields, level, f), []) == fields
    ensures Faithful(cfg, Obj(fields), level, f)
  {
    hide SerializeFields, MembersText, Trail, NewLine, MemberDocs, ValidMembers, ReadableMembers,
      MembersDocHeight, FieldsHeight, MembersValue;
    LayoutIsBlank(false, level, f);
    var nl, trail: Text := NewLine(f), Trail(fields != [], level, f);
    if fields == [] {
      NoFields(fields, false, level, f);
      assert [LBRACE] + nl + [] + trail + [RBRACE] == [LBRACE] + (nl + trail) + [RBRACE];
    } else {
      var all := SerializeFields(fields, false, level, f);
      assert [LBRACE] + nl + all + trail == [LBRACE] + (nl + all + trail);
    }
  }

  lemma FieldsFirst(fields: seq<Field>, had: bool, level: nat, f: Flags)
    requires fields != []
    ensures SerializeFields(fields, had, level, f)
            == Lead(had, level, f) + MemberText(fields[0], level, f) + SerializeFields(fields[1..], true, level, f)
  {
    hide Lead, Serialize, Escape, Serializer.Colon;
    var lead, key, colon := Lead(had, level, f), Escape(fields[0].key), Serializer.Colon(f);
    var text := Serialize(fields[0].val, level + 1, f);
    Regroup(lead, [QUOTE], key, colon);
    Completeness.Assoc(lead, [QUOTE] + key + colon, text);
  }

  lemma FieldsAfterComma(fields: seq<Field>, level: nat, f: Flags)
    requires fields != []
    ensures SerializeFields(fields, true, level, f)
            == [COMMA] + (NewLine(f) + SerializeFields(fields, false, level, f))
  {
    hide Lead, Before, NewLine, MemberText, SerializeFields;
    LeadIsBefore(level, f);
    FieldsFirst(fields, true, level, f);
    FieldsFirst(fields, false, level, f);
    var nl, lead := NewLine(f), Lead(false, level, f);
    var text, rest := MemberText(fields[0], level, f), SerializeFields(fields[1..], true, level, f);
    Regroup(nl, lead, text, rest);
    Regroup([COMMA], nl + lead, text, rest);
  }

  lemma MemberTextIs(field: Field, level: nat, f: Flags, before: Text)
    requires ItemsText(ItemsOf(field.key)) == Escape(field.key)
    requires DocText(DocOf(field.val, level + 1, f)) == Serialize(field.val, level + 1, f)
    ensures before + [QUOTE] + ItemsText(ItemsOf(field.key)) + [QUOTE] + [] + [COLON] + Space(f)
            + DocText(DocOf(field.val, level + 1, f))
            == before + MemberText(field, level, f)
  {
    hide Serialize, Escape, Space, DocText, DocOf, ItemsText, ItemsOf;
    var key, space, text := Escape(field.key), Space(f), Serialize(field.val, level + 1, f);
    assert before + [QUOTE] + key + [QUOTE] + [] + [COLON] == before + [QUOTE] + key + [QUOTE, COLON];
    assert before + [QUOTE] + key == before + ([QUOTE] + key);
    Completeness.Assoc(before + ([QUOTE] + key), [QUOTE, COLON], space);
    Completeness.Assoc(before, [QUOTE] + key, [QUOTE, COLON] + space);
    Completeness.Assoc(before, [QUOTE] + key + ([QUOTE, COLON] + space), text);
  }

  lemma {:induction false} FieldsLayout(fields: seq<Field>, level: nat, f: Flags)
    requires fields != []
    requires DocText(DocOf(fields[0].val, level + 1, f)) == Serialize(fields[0].val, level + 1, f)
    requires |fields| > 1
             ==> MembersText(MemberDocs(fields[1..], level, f))
                 == NewLine(f) + SerializeFields(fields[1..], false, level, f) + Trail(true, level, f)
    requires |MemberDocs(fields[1..], level, f)| == |fields[1..]|
    ensures MembersText(MemberDocs(fields, level, f))
            == NewLine(f) + SerializeFields(fields, false, level, f) + Trail(true, level, f)
  {
    hide Lead, Before, NewLine, Serialize, Trail, DocText, DocOf, MemberText, ItemsOf, ItemsText, Escape,
      SerializeFields, ItemsValue, Space;
    var docs := MemberDocs(fields, level, f);
    assert docs[1..] == MemberDocs(fields[1..], level, f);
    var nl, lead, trail := NewLine(f), Lead(false, level, f), Trail(true, level, f);
    EscapeRoundTrip(fields[0].key);
    LeadIsBefore(level, f);
    FieldsFirst(fields, false, level, f);
    MemberTextIs(fields[0], level, f, nl + lead);
    if |fields| == 1 {
      NoFields(fields[1..], true, level, f);
      JoinLast(nl, lead, MemberText(fields[0], level, f), trail);
    } else {
      FieldsAfterComma(fields[1..], level, f);
      JoinMore(nl, lead, MemberText(fields[0], level, f), SerializeFields(fields[1..], false, level, f), trail);
    }
  }

  lemma {:induction false} FieldsCons(
    cfg: Config, first: Rfc8259.Member, docs: seq<Rfc8259.Member>, field: Field, fields: seq<Field>)
    requires Blank(first.before) && Blank(first.afterKey) && Blank(first.beforeValue) && Blank(first.after)
    requires ValidItems(first.key) && Valid(first.value) && Readable(cfg, first.value)
    requires DocHeight(first.value) == Height(field.val)
    requires ValidMembers(docs) && ReadableMembers(cfg, docs) && MembersDocHeight(docs) == FieldsHeight(fields)
    ensures ValidMembers([first] + docs) && ReadableMembers(cfg, [first] + docs)
    ensures MembersDocHeight([first] + docs) == FieldsHeight([field] + fields)
  {
    hide Blank, Valid, Readable, DocHeight, Height, ValidItems;
    assert ([first] + docs)[1..] == docs;
    assert ([field] + fields)[1..] == fields;
  }

  lemma EmptyObjectIsFaithful(cfg: Config, level: nat, f: Flags)
    ensures FaithfulFields(cfg, [], level, f)
  {
  }

  lemma {:induction false} FieldsAreFaithful(cfg: Config, fields: seq<Field>, level: nat, f: Flags)
    requires SerializableFields(cfg, fields)
    ensures FaithfulFields(cfg, fields, level, f)
    decreases fields, 0
  {
    hide Serialize, Lead, Trail, DocOf, DocText, MembersText, SerializeFields, Before, NewLine, Blank, Space,
      ItemsOf, ItemsText, ItemsValue, Escape, Valid, ValidMembers, Readable, ReadableMembers, DocHeight,
      MembersDocHeight, Height, FieldsHeight, DocValue, ValidItems;
    if fields == [] {
      EmptyObjectIsFaithful(cfg, level, f);
    } else {
      DocIsFaithful(cfg, fields[0].val, level + 1, f);
      FieldsAreFaithful(cfg, fields[1..], level, f);
      FieldsLayout(fields, level, f);
      EscapeRoundTrip(fields[0].key);
      LayoutIsBlank(true, level, f);
      EmptyIsBlank();
      var docs := MemberDocs(fields, level, f);
      FieldsCons(cfg, docs[0], MemberDocs(fields[1..], level, f), fields[0], fields[1..]);
      assert docs == [docs[0]] + MemberDocs(fields[1..], level, f);
      assert fields == [fields[0]] + fields[1..];
    }
  }

  lemma {:induction false} MembersValueCons(first: Rfc8259.Member, docs: seq<Rfc8259.Member>, acc: seq<Field>)
    requires ValidMembers([first] + docs)
    ensures ValidItems(first.key) && Valid(first.value) && ValidMembers(docs)
    ensures MembersValue([first] + docs, acc)
            == MembersValue(docs, ObjectAdd(acc, CString(ItemsValue(first.key)), DocValue(first.value)))
  {
    hide Blank, Valid, DocValue, ItemsValue, ValidItems, ObjectAdd;
    assert ([first] + docs)[1..] == docs;
  }

  /** Distinct C-string keys come back in their order. */
  lemma {:induction false} FieldsComeBack(cfg: Config, fields: seq<Field>, level: nat, f: Flags, acc: seq<Field>)
    requires SerializableFields(cfg, fields)
    requires forall i :: 0 <= i < |fields| ==> !HasKey(acc, fields[i].key)
    ensures ValidMembers(MemberDocs(fields, level, f))
    ensures MembersValue(MemberDocs(fields, level, f), acc) == acc + fields
    decreases fields, 2
  {
    hide DocOf, DocText, MembersText, Before, NewLine, Space, ItemsOf, ItemsText, ItemsValue, Escape, Trail,
      Valid, ValidMembers, DocValue, ValidItems, ObjectAdd, HasKey, CString, DocHeight, Height, Readable,
      ReadableMembers, FieldsHeight, MembersDocHeight, SerializeFields, Serialize, Serializable, SerializeElems,
      Serializer.Colon;
    FieldsAreFaithful(cfg, fields, level, f);
    if fields == [] {
      assert acc + [] == acc;
    } else {
      hide MembersValue;
      var key, val := fields[0].key, fields[0].val;
      assert Valid(DocOf(val, level + 1, f)) && DocValue(DocOf(val, level + 1, f)) == val by {
        DocIsFaithful(cfg, val, level + 1, f);
      }
      EscapeRoundTrip(key);
      CStringNoNul(key);
      ObjectAddAbsent(acc, key, val);
      var next := acc + [Field(key, val)];
      NextIsAbsent(acc, fields);
      FieldsComeBack(cfg, fields[1..], level, f, next);
      var docs := MemberDocs(fields, level, f);
      assert docs == [docs[0]] + MemberDocs(fields[1..], level, f);
      MembersValueCons(docs[0], MemberDocs(fields[1..], level, f), acc);
      assert next + fields[1..] == acc + fields;
    }
  }

  lemma NextIsAbsent(acc: seq<Field>, fields: seq<Field>)
    requires fields != [] && !HasKey(fields[1..], fields[0].key)
    requires forall i :: 0 <= i < |fields| ==> !HasKey(acc, fields[i].key)
    ensures forall i :: 0 <= i < |fields[1..]| ==>
              !HasKey(acc + [Field(fields[0].key, fields[0].val)], fields[1..][i].key)
  {
    var next := acc + [Field(fields[0].key, fields[0].val)];
    forall i | 0 <= i < |fields[1..]|
      ensures !HasKey(next, fields[1..][i].key)
    {
      var key := fields[1..][i].key;
      assert key == fields[i + 1].key && key != fields[0].key;
      assert forall k :: 0 <= k < |acc| ==> next[k] == acc[k] && acc[k].key != key;
    }
  }

  // ---------------------------------------------------------------- the round trip

  /**
   The round trip. For every serializable tree, any formatting flags and either mode, the tokener
   reads the text back as the same tree with the same key order when the tree fits the depth limit,
   and reports error_depth when it does not.
   */
  lemma ParseSerialized(cfg: Config, v: Json, f: Flags, t: Tok)
    requires Serializable(cfg, v) && cfg.maxDepth > 0
    ensures Simulation.View(Call(cfg, Serialize(v, 0, f) + [NUL], Reset(t)))
            == if Height(v) <= cfg.maxDepth - 1 then Accept(v, 0, 1) else Reject(ErrDepth)
  {
    hide Serialize, DocOf, DocText, DocValue, DocHeight, Document, Valid, Readable, Call, Simulation.View;
    var d, s := DocOf(v, 0, f), Serialize(v, 0, f) + [NUL];
    DocIsFaithful(cfg, v, 0, f);
    assert [] + (DocText(d) + ([] + [NUL])) == s;
    EmptyIsBlank();
    Completeness.AcceptsRfc8259(cfg, [], d, [], t.stPos);
    Simulation.CallIsDocument(cfg, s, t);
  }
}

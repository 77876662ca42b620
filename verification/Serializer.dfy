/** json_object_to_json_string_ext: escaping and the serializers, appended to one print buffer. */
module Serializer {
  import opened Bytes
  import opened Json
  import Int64
  import PrintBuf

  // JSON_C_TO_STRING_SPACED and JSON_C_TO_STRING_PRETTY.
  datatype Flags = Flags(spaced: bool, pretty: bool)

  // ---------------------------------------------------------------- escaping

  /** json_hex_chars */
  function HexDigit(n: nat): (c: byte)
    requires n < 16
    ensures IsHex(c) && HexValue(c) == n
  {
    if n < 10 then ZERO + n as byte else 87 + n as byte
  }

  /** The letter of the two-character escape of a byte, if it has one. */
  function EscapeLetter(c: byte): Option<byte> {
    if c == BACKSPACE then Some(LOWER_B)
    else if c == LF then Some(LOWER_N)
    else if c == CR then Some(LOWER_R)
    else if c == TAB then Some(LOWER_T)
    else if c == FORM_FEED then Some(LOWER_F)
    else if c == QUOTE || c == BACKSLASH || c == SLASH then Some(c)
    else None
  }

  /** One byte on its own, escaped. */
  function EscapeByte(c: byte): Text {
    match EscapeLetter(c)
    case Some(letter) => [BACKSLASH, letter]
    case None =>
      if c < SPACE then
        [BACKSLASH, LOWER_U, ZERO, ZERO, HexDigit(c as nat / 16), HexDigit(c as nat % 16)]
      else [c]
  }

  /** The byte-by-byte escape of a string. */
  function Escape(s: Text): Text {
    if s == [] then [] else EscapeByte(s[0]) + Escape(s[1..])
  }

  lemma {:induction false} EscapeConcat(a: Text, b: Text)
    ensures Escape(a + b) == Escape(a) + Escape(b)
  {
    if a == [] {
      assert a + b == b;
    } else {
      assert (a + b)[1..] == a[1..] + b;
      EscapeConcat(a[1..], b);
    }
  }

  lemma EscapeSnoc(s: Text, c: byte)
    ensures Escape(s + [c]) == Escape(s) + EscapeByte(c)
  {
    EscapeConcat(s, [c]);
    assert Escape([c]) == EscapeByte(c) + Escape([]);
  }

  /** A byte that is copied as it is. */
  predicate Unchanged(c: byte) {
    EscapeLetter(c).None? && c >= SPACE
  }

  /** Read from the left, with the byte after every backslash passed over, the text has no quote. */
  predicate NoBareQuote(t: Text) {
    if t == [] then true
    else if t[0] == BACKSLASH then |t| >= 2 && NoBareQuote(t[2..])
    else t[0] != QUOTE && NoBareQuote(t[1..])
  }

  /** Escaped text has no control byte, and every quote and backslash in it belongs to an escape. */
  lemma {:induction false} EscapeIsClean(s: Text)
    ensures forall i :: 0 <= i < |Escape(s)| ==> Escape(s)[i] >= SPACE
    ensures NoBareQuote(Escape(s))
  {
    if s == [] {
    } else {
      EscapeIsClean(s[1..]);
      var head, tail := EscapeByte(s[0]), Escape(s[1..]);
      assert forall i :: 0 <= i < |tail| ==> Escape(s)[|head| + i] == tail[i];
      assert forall i :: 0 <= i < |head| ==> Escape(s)[i] == head[i];
      CleanByte(s[0], tail);
    }
  }

  lemma CleanByte(c: byte, more: Text)
    requires NoBareQuote(more)
    ensures NoBareQuote(EscapeByte(c) + more)
  {
    var t := EscapeByte(c) + more;
    if |EscapeByte(c)| == 6 {
      var high, low := HexDigit(c as nat / 16), HexDigit(c as nat % 16);
      PlainByte(low, more);
      PlainByte(high, [low] + more);
      PlainByte(ZERO, [high] + ([low] + more));
      PlainByte(ZERO, [ZERO] + ([high] + ([low] + more)));
      assert t[2..] == [ZERO] + ([ZERO] + ([high] + ([low] + more)));
    } else {
      assert t[|EscapeByte(c)|..] == more;
    }
  }

  lemma PlainByte(c: byte, more: Text)
    requires IsHex(c)
    ensures NoBareQuote([c] + more) <==> NoBareQuote(more)
  {
    assert ([c] + more)[1..] == more;
  }

  lemma {:induction false} UnchangedEscape(s: Text)
    requires forall i :: 0 <= i < |s| ==> Unchanged(s[i])
    ensures Escape(s) == s
  {
    if s == [] {
    } else {
      assert s == [s[0]] + s[1..];
      UnchangedEscape(s[1..]);
    }
  }

  lemma FlushAdds(before: Text, str: Text, from: nat, to: nat)
    requires from <= to <= |str| && forall i :: from <= i < to ==> Unchanged(str[i])
    ensures before + Escape(str[..to]) == before + Escape(str[..from]) + str[from..to]
  {
    hide Escape;
    UnchangedEscape(str[from..to]);
    EscapeConcat(str[..from], str[from..to]);
    assert str[..from] + str[from..to] == str[..to];
  }

  lemma EscapeAdds(before: Text, str: Text, pos: nat)
    requires pos < |str|
    ensures before + Escape(str[..pos + 1]) == before + Escape(str[..pos]) + EscapeByte(str[pos])
  {
    hide Escape, EscapeByte;
    assert str[..pos + 1] == str[..pos] + [str[pos]];
    EscapeSnoc(str[..pos], str[pos]);
  }

  /** The collected bytes str[from..to] are appended, if there are any. */
  method Flush(pb: PrintBuf.PrintBuf, str: Text, from: nat, to: nat)
    requires from <= to <= |str| && pb.Valid()
    modifies pb, pb.buf
    ensures pb.Valid() && (pb.buf == old(pb.buf) || fresh(pb.buf))
    ensures old(pb.bpos) <= pb.bpos && pb.peak <= PrintBuf.Max(old(pb.peak), pb.bpos + 1)
    ensures pb.Contents() == old(pb.Contents()) + str[from..to]
    ensures old(pb.Terminated()) ==> pb.Terminated()
  {
    if to - from > 0 {
      pb.MemAppend(str[from..to]);
    }
  }

  /** The escape of one byte that does not stay. */
  method AppendEscape(pb: PrintBuf.PrintBuf, c: byte)
    requires pb.Valid() && !Unchanged(c)
    modifies pb, pb.buf
    ensures pb.Valid() && pb.Terminated() && (pb.buf == old(pb.buf) || fresh(pb.buf))
    ensures old(pb.bpos) <= pb.bpos && pb.peak <= PrintBuf.Max(old(pb.peak), pb.bpos + 1)
    ensures pb.Contents() == old(pb.Contents()) + EscapeByte(c)
  {
    if c == BACKSPACE {
      pb.MemAppend([BACKSLASH, LOWER_B]);
    } else if c == LF {
      pb.MemAppend([BACKSLASH, LOWER_N]);
    } else if c == CR {
      pb.MemAppend([BACKSLASH, LOWER_R]);
    } else if c == TAB {
      pb.MemAppend([BACKSLASH, LOWER_T]);
    } else if c == FORM_FEED {
      pb.MemAppend([BACKSLASH, LOWER_F]);
    } else if c == QUOTE {
      pb.MemAppend([BACKSLASH, QUOTE]);
    } else if c == BACKSLASH {
      pb.MemAppend([BACKSLASH, BACKSLASH]);
    } else if c == SLASH {
      pb.MemAppend([BACKSLASH, SLASH]);
    } else {
      pb.MemAppend([BACKSLASH, LOWER_U, ZERO, ZERO, HexDigit(c as nat / 16), HexDigit(c as nat % 16)]);
    }
  }

  /**
   json_escape_str: bytes that stay are collected and appended in one piece before the next escape
   and at the end. The result is the byte-by-byte map.
   */
  method EscapeStr(pb: PrintBuf.PrintBuf, str: Text)
    requires pb.Valid()
    modifies pb, pb.buf
    ensures pb.Valid() && (pb.buf == old(pb.buf) || fresh(pb.buf))
    ensures old(pb.bpos) <= pb.bpos && pb.peak <= PrintBuf.Max(old(pb.peak), pb.bpos + 1)
    ensures pb.Contents() == old(pb.Contents()) + Escape(str)
    ensures old(pb.Terminated()) ==> pb.Terminated()
  {
    hide EscapeByte;
    ghost var before := pb.Contents();
    var pos, startOffset := 0, 0;
    assert before + Escape(str[..0]) == before;
    while pos < |str|
      invariant startOffset <= pos <= |str|
      invariant pb.Valid() && (pb.buf == old(pb.buf) || fresh(pb.buf))
      invariant old(pb.bpos) <= pb.bpos && pb.peak <= PrintBuf.Max(old(pb.peak), pb.bpos + 1)
      invariant old(pb.Terminated()) ==> pb.Terminated()
      invariant forall i :: startOffset <= i < pos ==> Unchanged(str[i])
      invariant pb.Contents() == before + Escape(str[..startOffset])
    {
      hide Escape, Unchanged;
      if !Unchanged(str[pos]) {
        FlushAdds(before, str, startOffset, pos);
        EscapeAdds(before, str, pos);
        Flush(pb, str, startOffset, pos);
        AppendEscape(pb, str[pos]);
        startOffset := pos + 1;
      }
      pos := pos + 1;
    }
    FlushAdds(before, str, startOffset, pos);
    Flush(pb, str, startOffset, pos);
    assert str[..pos] == str;
  }

  // ---------------------------------------------------------------- values

  function NewLine(f: Flags): Text {
    if f.pretty then [LF] else []
  }

  function Space(f: Flags): Text {
    if f.spaced then [SPACE] else []
  }

  function Indent(level: nat, f: Flags): Text {
    if f.pretty then PrintBuf.Fill(SPACE, level * 2) else []
  }

  /** Before a child: a comma unless it is the first, and its own line or space. */
  function Lead(had: bool, level: nat, f: Flags): Text {
    (if had then [COMMA] + NewLine(f) else []) + Space(f) + Indent(level + 1, f)
  }

  /** After the last child, up to the closer. */
  function Trail(had: bool, level: nat, f: Flags): Text {
    (if f.pretty then (if had then [LF] else []) + Indent(level, f) else []) + Space(f)
  }

  function Colon(f: Flags): Text {
    [QUOTE, COLON] + Space(f)
  }

  /** The text of a value nested `level` deep. */
  function Serialize(v: Json, level: nat, f: Flags): Text
    decreases v, 1
  {
    match v
    case Null => NULL_WORD
    case Bool(b) => if b then TRUE_WORD else FALSE_WORD
    case Int(i) => Int64.Signed(i)
    case Double(text) => text
    case Infinite(negative) => (if negative then [MINUS] else []) + INFINITY_WORD
    case NotANumber => NAN_WORD
    case Str(bytes) => [QUOTE] + Escape(bytes) + [QUOTE]
    case Arr(elems) =>
      [LBRACKET] + NewLine(f) + SerializeElems(elems, false, level, f) + Trail(elems != [], level, f) + [RBRACKET]
    case Obj(fields) =>
      [LBRACE] + NewLine(f) + SerializeFields(fields, false, level, f) + Trail(fields != [], level, f) + [RBRACE]
  }

  function SerializeElems(elems: seq<Json>, had: bool, level: nat, f: Flags): Text
    decreases elems, 0
  {
    if elems == [] then []
    else Lead(had, level, f) + Serialize(elems[0], level + 1, f) + SerializeElems(elems[1..], true, level, f)
  }

  function SerializeFields(fields: seq<Field>, had: bool, level: nat, f: Flags): Text
    decreases fields, 0
  {
    if fields == [] then []
    else
      Lead(had, level, f) + [QUOTE] + Escape(fields[0].key) + Colon(f)
      + Serialize(fields[0].val, level + 1, f) + SerializeFields(fields[1..], true, level, f)
  }

  // ---------------------------------------------------------------- the serializers

  method AppendIndent(pb: PrintBuf.PrintBuf, level: nat, f: Flags)
    requires pb.Valid()
    modifies pb, pb.buf
    ensures pb.Valid() && (pb.buf == old(pb.buf) || fresh(pb.buf))
    ensures old(pb.bpos) <= pb.bpos && pb.peak <= PrintBuf.Max(old(pb.peak), pb.bpos + 1)
    ensures pb.Contents() == old(pb.Contents()) + Indent(level, f)
  {
    if f.pretty {
      pb.MemSet(-1, SPACE, level * 2);
    }
  }

  method AppendLead(pb: PrintBuf.PrintBuf, had: bool, level: nat, f: Flags)
    requires pb.Valid()
    modifies pb, pb.buf
    ensures pb.Valid() && (pb.buf == old(pb.buf) || fresh(pb.buf))
    ensures old(pb.bpos) <= pb.bpos && pb.peak <= PrintBuf.Max(old(pb.peak), pb.bpos + 1)
    ensures pb.Contents() == old(pb.Contents()) + Lead(had, level, f)
  {
    hide Indent, PrintBuf.PrintBuf.Valid, PrintBuf.PrintBuf.Contents, PrintBuf.PrintBuf.Terminated;
    if had {
      pb.MemAppend([COMMA]);
      if f.pretty {
        pb.MemAppend([LF]);
      }
    }
    if f.spaced {
      pb.MemAppend([SPACE]);
    }
    AppendIndent(pb, level + 1, f);
  }

  method AppendTrail(pb: PrintBuf.PrintBuf, had: bool, level: nat, f: Flags, closer: byte)
    requires pb.Valid()
    modifies pb, pb.buf
    ensures pb.Valid() && pb.Terminated() && (pb.buf == old(pb.buf) || fresh(pb.buf))
    ensures old(pb.bpos) <= pb.bpos && pb.peak <= PrintBuf.Max(old(pb.peak), pb.bpos + 1)
    ensures pb.Contents() == old(pb.Contents()) + (Trail(had, level, f) + [closer])
  {
    hide Indent, PrintBuf.PrintBuf.Valid, PrintBuf.PrintBuf.Contents, PrintBuf.PrintBuf.Terminated;
    if f.pretty {
      if had {
        pb.MemAppend([LF]);
      }
      AppendIndent(pb, level, f);
    }
    if f.spaced {
      pb.MemAppend([SPACE, closer]);
    } else {
      pb.MemAppend([closer]);
    }
  }

  method AppendOpen(pb: PrintBuf.PrintBuf, opener: byte, f: Flags)
    requires pb.Valid()
    modifies pb, pb.buf
    ensures pb.Valid() && (pb.buf == old(pb.buf) || fresh(pb.buf))
    ensures old(pb.bpos) <= pb.bpos && pb.peak <= PrintBuf.Max(old(pb.peak), pb.bpos + 1)
    ensures pb.Contents() == old(pb.Contents()) + ([opener] + NewLine(f))
  {
    pb.MemAppend([opener]);
    if f.pretty {
      pb.MemAppend([LF]);
    }
  }

  /** The _to_json_string functions: the text of a value is appended, and a NUL after it. */
  method ToJsonString(pb: PrintBuf.PrintBuf, v: Json, level: nat, f: Flags)
    requires pb.Valid()
    modifies pb, pb.buf
    ensures pb.Valid() && pb.Terminated() && (pb.buf == old(pb.buf) || fresh(pb.buf))
    ensures old(pb.bpos) <= pb.bpos && pb.peak <= PrintBuf.Max(old(pb.peak), pb.bpos + 1)
    ensures pb.Contents() == old(pb.Contents()) + Serialize(v, level, f)
    decreases v, 2
  {
    match v {
      case Null => pb.MemAppend(NULL_WORD);
      case Bool(b) =>
        if b {
          pb.MemAppend(TRUE_WORD);
        } else {
          pb.MemAppend(FALSE_WORD);
        }
      case Int(i) => pb.MemAppend(Int64.Signed(i));
      case Double(text) => pb.MemAppend(text);
      case Infinite(negative) => pb.MemAppend((if negative then [MINUS] else []) + INFINITY_WORD);
      case NotANumber => pb.MemAppend(NAN_WORD);
      case Str(bytes) => StringToJsonString(pb, bytes);
      case Arr(elems) => ArrayToJsonString(pb, elems, level, f);
      case Obj(fields) => ObjectToJsonString(pb, fields, level, f);
    }
  }

  method StringToJsonString(pb: PrintBuf.PrintBuf, bytes: Text)
    requires pb.Valid()
    modifies pb, pb.buf
    ensures pb.Valid() && pb.Terminated() && (pb.buf == old(pb.buf) || fresh(pb.buf))
    ensures old(pb.bpos) <= pb.bpos && pb.peak <= PrintBuf.Max(old(pb.peak), pb.bpos + 1)
    ensures pb.Contents() == old(pb.Contents()) + ([QUOTE] + Escape(bytes) + [QUOTE])
  {
    hide Escape;
    pb.MemAppend([QUOTE]);
    EscapeStr(pb, bytes);
    pb.MemAppend([QUOTE]);
  }

  /** One turn of the array loop: what was written and what is left to write still make the whole. */
  lemma ElemsTurn(was: Text, elems: seq<Json>, ii: nat, had: bool, level: nat, f: Flags, whole: Text)
    requires ii < |elems| && was + SerializeElems(elems[ii..], had, level, f) == whole
    ensures was + Lead(had, level, f) + Serialize(elems[ii], level + 1, f)
            + SerializeElems(elems[ii + 1..], true, level, f) == whole
  {
    hide Lead, Serialize;
    var rest := elems[ii..];
    assert rest[1..] == elems[ii + 1..] && rest[0] == elems[ii];
    Regroup(was, Lead(had, level, f), Serialize(elems[ii], level + 1, f), SerializeElems(rest[1..], true, level, f));
  }

  lemma Regroup(a: Text, b: Text, c: Text, d: Text)
    ensures a + b + c + d == a + (b + c + d)
  {
  }

  lemma ContainerText(before: Text, open: Text, all: Text, trail: Text, close: Text)
    ensures before + open + all + (trail + close) == before + (open + all + trail + close)
  {
  }

  method ArrayToJsonString(pb: PrintBuf.PrintBuf, elems: seq<Json>, level: nat, f: Flags)
    requires pb.Valid()
    modifies pb, pb.buf
    ensures pb.Valid() && pb.Terminated() && (pb.buf == old(pb.buf) || fresh(pb.buf))
    ensures old(pb.bpos) <= pb.bpos && pb.peak <= PrintBuf.Max(old(pb.peak), pb.bpos + 1)
    ensures pb.Contents() == old(pb.Contents()) + Serialize(Arr(elems), level, f)
    decreases elems, 1
  {
    hide Lead, Trail, NewLine, SerializeElems, PrintBuf.PrintBuf.Valid, PrintBuf.PrintBuf.Contents,
      PrintBuf.PrintBuf.Terminated;
    ghost var before, open := pb.Contents(), [LBRACKET] + NewLine(f);
    ghost var all := SerializeElems(elems, false, level, f);
    AppendOpen(pb, LBRACKET, f);
    var hadChildren := false;
    var ii := 0;
    assert elems[0..] == elems;
    while ii < |elems|
      invariant ii <= |elems| && hadChildren == (ii > 0)
      invariant pb.Valid() && (pb.buf == old(pb.buf) || fresh(pb.buf))
      invariant old(pb.bpos) <= pb.bpos && pb.peak <= PrintBuf.Max(old(pb.peak), pb.bpos + 1)
      invariant pb.Contents() + SerializeElems(elems[ii..], hadChildren, level, f) == before + open + all
    {
      hide Serialize;
      ElemsTurn(pb.Contents(), elems, ii, hadChildren, level, f, before + open + all);
      AppendLead(pb, hadChildren, level, f);
      hadChildren := true;
      ToJsonString(pb, elems[ii], level + 1, f);
      ii := ii + 1;
    }
    NoElems(elems[ii..], hadChildren, level, f);
    assert pb.Contents() + [] == pb.Contents();
    AppendTrail(pb, hadChildren, level, f, RBRACKET);
    ContainerText(before, open, all, Trail(elems != [], level, f), [RBRACKET]);
  }

  lemma NoElems(elems: seq<Json>, had: bool, level: nat, f: Flags)
    requires |elems| == 0
    ensures SerializeElems(elems, had, level, f) == []
  {
  }

  /** The name of a member and its colon. */
  method AppendKey(pb: PrintBuf.PrintBuf, key: Text, f: Flags)
    requires pb.Valid()
    modifies pb, pb.buf
    ensures pb.Valid() && (pb.buf == old(pb.buf) || fresh(pb.buf))
    ensures old(pb.bpos) <= pb.bpos && pb.peak <= PrintBuf.Max(old(pb.peak), pb.bpos + 1)
    ensures pb.Contents() == old(pb.Contents()) + ([QUOTE] + Escape(key) + Colon(f))
  {
    hide Escape;
    pb.MemAppend([QUOTE]);
    EscapeStr(pb, key);
    if f.spaced {
      pb.MemAppend([QUOTE, COLON, SPACE]);
    } else {
      pb.MemAppend([QUOTE, COLON]);
    }
  }

  /** One turn of the object loop. */
  lemma FieldsTurn(was: Text, fields: seq<Field>, ii: nat, had: bool, level: nat, f: Flags, whole: Text)
    requires ii < |fields| && was + SerializeFields(fields[ii..], had, level, f) == whole
    ensures was + Lead(had, level, f) + ([QUOTE] + Escape(fields[ii].key) + Colon(f))
            + Serialize(fields[ii].val, level + 1, f) + SerializeFields(fields[ii + 1..], true, level, f) == whole
  {
    hide Lead, Serialize, Escape, Colon;
    var rest := fields[ii..];
    assert rest[1..] == fields[ii + 1..] && rest[0] == fields[ii];
    var lead, key, colon := Lead(had, level, f), Escape(fields[ii].key), Colon(f);
    Regroup(lead, [QUOTE], key, colon);
    var name := [QUOTE] + key + colon;
    Regroup(was, lead, name, Serialize(fields[ii].val, level + 1, f));
    Regroup(was, lead + name, Serialize(fields[ii].val, level + 1, f), SerializeFields(rest[1..], true, level, f));
  }

  method ObjectToJsonString(pb: PrintBuf.PrintBuf, fields: seq<Field>, level: nat, f: Flags)
    requires pb.Valid()
    modifies pb, pb.buf
    ensures pb.Valid() && pb.Terminated() && (pb.buf == old(pb.buf) || fresh(pb.buf))
    ensures old(pb.bpos) <= pb.bpos && pb.peak <= PrintBuf.Max(old(pb.peak), pb.bpos + 1)
    ensures pb.Contents() == old(pb.Contents()) + Serialize(Obj(fields), level, f)
    decreases fields, 1
  {
    hide Lead, Trail, NewLine, SerializeFields, Escape, Colon, PrintBuf.PrintBuf.Valid,
      PrintBuf.PrintBuf.Contents, PrintBuf.PrintBuf.Terminated;
    ghost var before, open := pb.Contents(), [LBRACE] + NewLine(f);
    ghost var all := SerializeFields(fields, false, level, f);
    AppendOpen(pb, LBRACE, f);
    var hadChildren := false;
    var ii := 0;
    assert fields[0..] == fields;
    while ii < |fields|
      invariant ii <= |fields| && hadChildren == (ii > 0)
      invariant pb.Valid() && (pb.buf == old(pb.buf) || fresh(pb.buf))
      invariant old(pb.bpos) <= pb.bpos && pb.peak <= PrintBuf.Max(old(pb.peak), pb.bpos + 1)
      invariant pb.Contents() + SerializeFields(fields[ii..], hadChildren, level, f) == before + open + all
    {
      hide Serialize;
      FieldsTurn(pb.Contents(), fields, ii, hadChildren, level, f, before + open + all);
      AppendLead(pb, hadChildren, level, f);
      hadChildren := true;
      AppendKey(pb, fields[ii].key, f);
      ToJsonString(pb, fields[ii].val, level + 1, f);
      ii := ii + 1;
    }
    NoFields(fields[ii..], hadChildren, level, f);
    assert pb.Contents() + [] == pb.Contents();
    AppendTrail(pb, hadChildren, level, f, RBRACE);
    ContainerText(before, open, all, Trail(fields != [], level, f), [RBRACE]);
  }

  lemma NoFields(fields: seq<Field>, had: bool, level: nat, f: Flags)
    requires |fields| == 0
    ensures SerializeFields(fields, had, level, f) == []
  {
  }

  /** json_object_to_json_string_ext: a C string in the object's own buffer. The buffer stays linear in
      the longest text that it ever held, and growing it has copied less than it holds room for. */
  method ToJsonStringExt(v: Json, pb: PrintBuf.PrintBuf, f: Flags) returns (text: Text)
    requires pb.Valid()
    modifies pb, pb.buf
    ensures text == Serialize(v, 0, f)
    ensures pb.Valid() && (!v.Null? ==> pb.Terminated() && pb.Contents() == text)
    ensures pb.peak <= PrintBuf.Max(old(pb.peak), |text| + 1)
    ensures pb.moved < pb.size <= PrintBuf.Max(PrintBuf.INITIAL_SIZE, 2 * pb.peak + 8)
  {
    if v.Null? {
      return NULL_WORD;
    }
    pb.Reset();
    ToJsonString(pb, v, 0, f);
    text := pb.buf[..pb.bpos];
  }
}

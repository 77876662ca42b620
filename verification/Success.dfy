/**
 What success means, in either mode: how the text that was read goes together with the value, and that
 the value can be serialized and read again.
 */
module Success {
  import opened Bytes
  import Int64
  import opened Json
  import opened Unicode
  import opened Machine
  import opened Reference
  import opened RoundTrip
  import Rfc8259
  import Serializer
  import Simulation

  predicate Suffix(r: Text, s: Text) {
    |r| <= |s| && r == s[|s| - |r|..]
  }

  lemma SuffixOn(a: Text, b: Text, c: Text)
    requires Suffix(a, b) && Suffix(b, c)
    ensures Suffix(a, c)
  {
    assert c[|c| - |b|..][|b| - |a|..] == c[|c| - |a|..];
  }

  lemma SuffixFrom(s: Text, n: nat)
    requires n <= |s|
    ensures Suffix(s[n..], s)
  {
  }

  // ---------------------------------------------------------------- values that fit

  /** A value without Infinity and NaN, which JSON cannot write. */
  predicate Plain(v: Json) {
    match v
    case Infinite(_) | NotANumber => false
    case Arr(elems) => forall i :: 0 <= i < |elems| ==> Plain(elems[i])
    case Obj(fields) => forall i :: 0 <= i < |fields| ==> Plain(fields[i].val)
    case _ => true
  }

  /** A value read at some depth: it is no higher than the limit allows, and it can be written. */
  predicate Fits(cfg: Config, depth: nat, v: Json) {
    depth + Height(v) < cfg.maxDepth && (Plain(v) ==> Serializable(cfg, v))
  }

  predicate FitElems(cfg: Config, depth: nat, elems: seq<Json>) {
    forall i :: 0 <= i < |elems| ==> Fits(cfg, depth, elems[i])
  }

  predicate FitFields(cfg: Config, depth: nat, fields: seq<Field>) {
    && (forall i :: 0 <= i < |fields| ==> Fits(cfg, depth, fields[i].val) && NUL !in fields[i].key)
    && (forall i, j :: 0 <= i < j < |fields| ==> fields[i].key != fields[j].key)
  }

  lemma {:induction false} ElemsFit(cfg: Config, depth: nat, elems: seq<Json>)
    requires FitElems(cfg, depth, elems) && depth < cfg.maxDepth
    ensures depth + ElemsHeight(elems) < cfg.maxDepth
    ensures (forall i :: 0 <= i < |elems| ==> Plain(elems[i])) ==> SerializableElems(cfg, elems)
  {
    hide Plain, Serializable, Height;
    if elems == [] {
    } else {
      ElemsFit(cfg, depth, elems[1..]);
    }
  }

  lemma {:induction false} FieldsFit(cfg: Config, depth: nat, fields: seq<Field>)
    requires FitFields(cfg, depth, fields) && depth < cfg.maxDepth
    ensures depth + FieldsHeight(fields) < cfg.maxDepth
    ensures (forall i :: 0 <= i < |fields| ==> Plain(fields[i].val)) ==> SerializableFields(cfg, fields)
  {
    hide Plain, Serializable, Height;
    if fields == [] {
    } else {
      FieldsFit(cfg, depth, fields[1..]);
    }
  }

  lemma ArrayFits(cfg: Config, depth: nat, elems: seq<Json>)
    requires FitElems(cfg, depth + 1, elems) && depth < cfg.maxDepth && (elems != [] ==> depth + 1 < cfg.maxDepth)
    ensures Fits(cfg, depth, Arr(elems))
  {
    hide SerializableElems;
    if elems == [] {
      EmptyIsSerializable(cfg);
    } else {
      ElemsFit(cfg, depth + 1, elems);
    }
  }

  lemma EmptyIsSerializable(cfg: Config)
    ensures SerializableElems(cfg, []) && SerializableFields(cfg, [])
  {
  }

  lemma ObjectFits(cfg: Config, depth: nat, fields: seq<Field>)
    requires FitFields(cfg, depth + 1, fields) && depth < cfg.maxDepth && (fields != [] ==> depth + 1 < cfg.maxDepth)
    ensures Fits(cfg, depth, Obj(fields))
  {
    hide SerializableFields;
    if fields == [] {
      EmptyIsSerializable(cfg);
    } else {
      FieldsFit(cfg, depth + 1, fields);
    }
  }

  lemma {:induction false} AddKeys(fields: seq<Field>, key: Text, val: Json, k: Text)
    ensures HasKey(ObjectAdd(fields, key, val), k) ==> k == key || HasKey(fields, k)
  {
    if fields == [] || fields[0].key == key {
    } else {
      AddKeys(fields[1..], key, val, k);
      var r := ObjectAdd(fields, key, val);
      assert r[1..] == ObjectAdd(fields[1..], key, val);
      if HasKey(r, k) && fields[0].key != k && k != key {
        var i :| 0 <= i < |r| && r[i].key == k;
        assert r[1..][i - 1].key == k && HasKey(r[1..], k);
        var j :| 0 <= j < |fields[1..]| && fields[1..][j].key == k;
        assert fields[j + 1].key == k;
      }
    }
  }

  lemma {:induction false} AddFits(cfg: Config, depth: nat, fields: seq<Field>, key: Text, val: Json)
    requires FitFields(cfg, depth, fields) && Fits(cfg, depth, val) && NUL !in key
    ensures FitFields(cfg, depth, ObjectAdd(fields, key, val)) && ObjectAdd(fields, key, val) != []
  {
    hide Fits;
    if fields == [] || fields[0].key == key {
    } else {
      var r := ObjectAdd(fields[1..], key, val);
      AddFits(cfg, depth, fields[1..], key, val);
      forall i | 0 <= i < |r|
        ensures r[i].key != fields[0].key
      {
        AddKeys(fields[1..], key, val, r[i].key);
        assert HasKey(r, r[i].key);
      }
    }
  }

  // ---------------------------------------------------------------- gaps

  predicate RestIs(s: Text, g: Gap) {
    match g
    case Token(rest) => Suffix(rest, s)
    case GapNul(left) => left < |s|
    case _ => true
  }

  lemma RestOn(s: Text, g: Gap)
    requires s != [] && RestIs(s[1..], g)
    ensures RestIs(s, g)
  {
    SuffixFrom(s, 1);
    if g.Token? {
      SuffixOn(g.rest, s[1..], s);
    }
  }

  /** What a gap leaves is the end of the text. */
  lemma {:induction false} GapEnds(strict: bool, s: Text)
    ensures RestIs(s, Spaces(strict, s)) && RestIs(s, CommentOpen(strict, s)) && RestIs(s, BlockComment(strict, s))
    ensures RestIs(s, AfterStar(strict, s)) && RestIs(s, LineComment(strict, s))
  {
    hide Suffix;
    SuffixFrom(s, 0);
    assert s[0..] == s;
    if s == [] {
    } else {
      var r := s[1..];
      GapEnds(strict, r);
      hide RestIs;
      RestOn(s, Spaces(strict, r));
      RestOn(s, CommentOpen(strict, r));
      RestOn(s, BlockComment(strict, r));
      RestOn(s, AfterStar(strict, r));
      RestOn(s, LineComment(strict, r));
      GapStops(strict, s);
    }
  }

  lemma GapStops(strict: bool, s: Text)
    requires s != []
    ensures RestIs(s, Token(s)) && RestIs(s, GapNul(|s| - 1)) && RestIs(s, GapUnclosed) && RestIs(s, GapBad(s[0]))
  {
  }

  predicate NextSound(s: Text, n: Next) {
    match n
    case At(r) => Suffix(r, s)
    case NextHalt(v) => !v.Accept?
  }

  lemma NextIsSound(strict: bool, s: Text)
    ensures NextSound(s, NextToken(strict, s))
  {
    GapEnds(strict, s);
  }

  predicate AfterSound(strict: bool, s: Text, depth: nat, v: Json, n: Next) {
    match n
    case At(r) => Suffix(r, s)
    case NextHalt(Accept(w, d, _)) => w == v && d == depth && (depth > 0 ==> !strict)
    case NextHalt(_) => true
  }

  /** Without comments a gap is nothing but spaces. */
  predicate OnlySpaces(s: Text, g: Gap) {
    match g
    case Token(r) => Suffix(r, s) && forall i :: 0 <= i < |s| - |r| ==> IsSpace(s[i])
    case GapEnd => forall i :: 0 <= i < |s| ==> IsSpace(s[i])
    case _ => false
  }

  lemma OnlySpacesOn(s: Text, g: Gap)
    requires s != [] && IsSpace(s[0]) && OnlySpaces(s[1..], g)
    ensures OnlySpaces(s, g)
  {
    assert forall i :: 0 < i < |s| ==> s[i] == s[1..][i - 1];
    SuffixFrom(s, 1);
    if g.Token? {
      SuffixOn(g.rest, s[1..], s);
    }
    hide Suffix;
  }

  lemma {:induction false} StrictSpaces(s: Text)
    ensures OnlySpaces(s, Spaces(true, s))
  {
    if s == [] {
    } else if IsSpace(s[0]) {
      hide OnlySpaces;
      StrictSpaces(s[1..]);
      OnlySpacesOn(s, Spaces(true, s));
    } else {
      SuffixFrom(s, 0);
      assert s[0..] == s;
    }
  }

  lemma AfterIsSound(strict: bool, s: Text, depth: nat, v: Json)
    ensures AfterSound(strict, s, depth, v, AfterValue(strict, s, depth, v))
  {
    GapEnds(strict, s);
    if strict {
      StrictSpaces(s);
    }
  }

  // ---------------------------------------------------------------- strings

  predicate BodySound(s: Text, b: Body) {
    match b
    case Closed(_, rest, _) => Suffix(rest, s)
    case BodyHalt(v) => !v.Accept?
  }

  lemma BodySoundFrom(s: Text, n: nat, b: Body)
    requires n <= |s| && BodySound(s[n..], b)
    ensures BodySound(s, b)
  {
    if b.Closed? {
      SuffixFrom(s, n);
      SuffixOn(b.rest, s[n..], s);
    }
  }

  lemma {:induction false} StringSound(s: Text, quote: byte, acc: Text, pos: nat)
    ensures BodySound(s, StringBody(s, quote, acc, pos))
    decreases |s|
  {
    hide BodySound, UnicodeBody, Unescape;
    if s == [] || s[0] == quote || s[0] == NUL || (s[0] == BACKSLASH && |s| == 1) {
      StringStops(s, quote, acc, pos);
    } else if s[0] != BACKSLASH {
      StringSound(s[1..], quote, acc + [s[0]], pos);
      BodySoundFrom(s, 1, StringBody(s, quote, acc, pos));
    } else if Unescape(s[1]).Some? {
      StringSound(s[2..], quote, acc + [Unescape(s[1]).value], pos);
      BodySoundFrom(s, 2, StringBody(s, quote, acc, pos));
    } else if s[1] == LOWER_U {
      UnicodeSound(s[2..], quote, acc, 0);
      BodySoundFrom(s, 2, StringBody(s, quote, acc, pos));
    } else {
      StringStops(s, quote, acc, pos);
    }
  }

  lemma StringStops(s: Text, quote: byte, acc: Text, pos: nat)
    requires s == [] || s[0] == quote || s[0] == NUL
             || (s[0] == BACKSLASH && (|s| == 1 || (Unescape(s[1]) == None && s[1] != LOWER_U)))
    ensures BodySound(s, StringBody(s, quote, acc, pos))
  {
  }

  lemma {:induction false} UnicodeSound(s: Text, quote: byte, acc: Text, hi: nat)
    ensures BodySound(s, UnicodeBody(s, quote, acc, hi))
    decreases |s|
  {
    if HexCount(s) < 4 {
    } else {
      hide BodySound, StringBody, Append;
      var (code, before) := Combine(hi, HexCode(s));
      if code >= 0x800 && IsHigh(code) && EscapeFollows(s[4..]) {
        UnicodeSound(s[6..], quote, acc + before, code);
        BodySoundFrom(s, 6, UnicodeBody(s, quote, acc, hi));
      } else {
        StringSound(s[4..], quote, acc + before + Append(code), 4);
        BodySoundFrom(s, 4, UnicodeBody(s, quote, acc, hi));
      }
    }
  }

  // ---------------------------------------------------------------- values

  /** A parse at some depth ends with a rest of the text and a value that fits there, or deeper down: that
      takes a NUL in a comment behind an element. */
  predicate ParseSound(cfg: Config, s: Text, depth: nat, p: Parsed) {
    match p
    case Ok(v, rest, _) => Suffix(rest, s) && Fits(cfg, depth, v)
    case Halt(v) => v.Accept? ==> !cfg.strict && v.depth > depth && Fits(cfg, v.depth, v.value)
  }

  lemma SoundOn(cfg: Config, r: Text, s: Text, depth: nat, p: Parsed)
    requires Suffix(r, s) && ParseSound(cfg, r, depth, p)
    ensures ParseSound(cfg, s, depth, p)
  {
    hide Fits;
    if p.Ok? {
      SuffixOn(p.rest, r, s);
    }
  }

  lemma Halts(cfg: Config, s: Text, depth: nat, v: Verdict)
    requires !v.Accept?
    ensures ParseSound(cfg, s, depth, Halt(v))
  {
  }

  lemma Succeeds(cfg: Config, s: Text, depth: nat, v: Json, n: nat, pos: nat)
    requires n <= |s| && Fits(cfg, depth, v)
    ensures ParseSound(cfg, s, depth, Ok(v, s[n..], pos))
  {
  }

  /** What ends an element ends the container. */
  lemma Deeper(cfg: Config, r: Text, s: Text, depth: nat, v: Verdict)
    requires ParseSound(cfg, r, depth + 1, Halt(v))
    ensures ParseSound(cfg, s, depth, Halt(v))
  {
  }

  lemma AfterHalts(cfg: Config, s: Text, r: Text, depth: nat, v: Json, h: Verdict)
    requires AfterSound(cfg.strict, r, depth + 1, v, NextHalt(h)) && Fits(cfg, depth + 1, v)
    ensures ParseSound(cfg, s, depth, Halt(h))
  {
    hide Fits;
  }

  lemma WordSound(
    cfg: Config, s: Text, depth: nat, first: Text, v1: Json, second: Text, v2: Json, e: Error)
    requires first != [] && second != [] && Fits(cfg, depth, v1) && Fits(cfg, depth, v2)
    ensures ParseSound(cfg, s, depth, Word(cfg.strict, s, first, v1, second, v2, e))
  {
    hide Fits;
  }

  lemma ScalarFits(cfg: Config, depth: nat, v: Json)
    requires depth < cfg.maxDepth && !v.Arr? && !v.Obj?
    requires v.Int? ==> Int64.INT64_MIN <= v.i <= Int64.INT64_MAX
    requires v.Double? ==> Rfc8259.DoubleText(v.text) && cfg.readable(v.text)
    ensures Fits(cfg, depth, v)
  {
  }

  lemma NumberFits(cfg: Config, depth: nat, s: Text, n: nat)
    requires depth < cfg.maxDepth && 0 < n <= NumberLength(s) && (IsDigit(s[0]) || s[0] == MINUS)
    ensures var v := NumberValue(cfg, s[..n], HasPoint(s[..n]));
            v.Some? ==> Fits(cfg, depth, v.value)
  {
    hide Int64.WrittenInt, HasPoint, Fits, Rfc8259.AllNumberChars;
    var text := s[..n];
    Simulation.NumberLengthSound(s);
    AllAreNumberChars(text, s);
    var v := NumberValue(cfg, text, HasPoint(text));
    if v.Some? {
      ScalarFits(cfg, depth, v.value);
    }
  }

  lemma AllAreNumberChars(text: Text, s: Text)
    requires |text| <= NumberLength(s) && text == s[..|text|]
    ensures Rfc8259.AllNumberChars(text)
  {
    Simulation.NumberLengthSound(s);
  }

  lemma NumberSound(cfg: Config, s: Text, depth: nat, pos: nat)
    requires s != [] && (IsDigit(s[0]) || s[0] == MINUS) && depth < cfg.maxDepth
    ensures ParseSound(cfg, s, depth, NumberToken(cfg, s, pos))
  {
    hide Word, HasPoint, NumberValue, Fits, NumberLength;
    NumberStarts(s);
    var n, i := NumberLength(s), Infinite(true);
    NumberFits(cfg, depth, s, n);
    SuffixFrom(s, n);
    if |s| > 1 {
      ScalarFits(cfg, depth, i);
      WordSound(cfg, s[1..], depth, INFINITY_WORD, i, INFINITY_WORD, i, ErrUnexpected);
      SuffixFrom(s, 1);
      SoundOn(cfg, s[1..], s, depth, Word(cfg.strict, s[1..], INFINITY_WORD, i, INFINITY_WORD, i, ErrUnexpected));
    }
  }

  lemma NumberStarts(s: Text)
    requires s != [] && IsNumberChar(s[0])
    ensures NumberLength(s) > 0
  {
  }

  lemma ScalarSound(cfg: Config, r: Text, depth: nat, pos: nat)
    requires r != [] && depth < cfg.maxDepth
    ensures ParseSound(cfg, r, depth, Scalar(cfg, r, pos))
  {
    hide Word, NumberToken, StringBody, Fits, Suffix;
    var i := Infinite(false);
    forall v: Json | v == i || v == Null || v == NotANumber || v.Bool? || v.Str?
      ensures Fits(cfg, depth, v)
    {
      ScalarFits(cfg, depth, v);
    }
    WordSound(cfg, r, depth, INFINITY_WORD, i, INFINITY_WORD, i, ErrUnexpected);
    WordSound(cfg, r, depth, NULL_WORD, Null, NAN_WORD, NotANumber, ErrNull);
    WordSound(cfg, r, depth, TRUE_WORD, Bool(true), FALSE_WORD, Bool(false), ErrBoolean);
    StringSound(r[1..], r[0], [], pos);
    BodySoundFrom(r, 1, StringBody(r[1..], r[0], [], pos));
    if IsDigit(r[0]) || r[0] == MINUS {
      NumberSound(cfg, r, depth, pos);
    }
  }

  /** No value of a document ends the parse with success at its own depth or above. */
  lemma {:induction false} ValueSound(cfg: Config, s: Text, depth: nat, pos: nat)
    requires depth < cfg.maxDepth
    ensures ParseSound(cfg, s, depth, Value(cfg, s, depth, pos))
    decreases |s|, 1
  {
    hide NextToken, Scalar, Elements, Members, ParseSound, Suffix;
    NextIsSound(cfg.strict, s);
    match NextToken(cfg.strict, s)
    case NextHalt(v) => Halts(cfg, s, depth, v);
    case At(r) =>
      SuffixFrom(r, 1);
      if r[0] == LBRACE {
        MembersSound(cfg, r[1..], depth, pos, [], false);
        SoundOn(cfg, r[1..], r, depth, Value(cfg, s, depth, pos));
      } else if r[0] == LBRACKET {
        ElementsSound(cfg, r[1..], depth, pos, [], false);
        SoundOn(cfg, r[1..], r, depth, Value(cfg, s, depth, pos));
      } else {
        ScalarSound(cfg, r, depth, pos);
      }
      SoundOn(cfg, r, s, depth, Value(cfg, s, depth, pos));
  }

  lemma {:induction false} ElementsSound(cfg: Config, s: Text, depth: nat, pos: nat, acc: seq<Json>, sep: bool)
    requires depth < cfg.maxDepth && FitElems(cfg, depth + 1, acc) && (acc != [] ==> depth + 1 < cfg.maxDepth)
    ensures ParseSound(cfg, s, depth, Elements(cfg, s, depth, pos, acc, sep))
    decreases |s|, 3
  {
    hide NextToken, Element, ParseSound, Suffix, FitElems, Fits;
    var p := Elements(cfg, s, depth, pos, acc, sep);
    NextIsSound(cfg.strict, s);
    match NextToken(cfg.strict, s)
    case NextHalt(v) => Halts(cfg, s, depth, v);
    case At(r) =>
      if p.Halt? && (r[0] == RBRACKET || depth >= cfg.maxDepth - 1) {
        Halts(cfg, r, depth, p.verdict);
      } else if r[0] == RBRACKET {
        ArrayFits(cfg, depth, acc);
        Succeeds(cfg, r, depth, Arr(acc), 1, pos);
      } else {
        ElementSound(cfg, r, depth, pos, acc);
      }
      SoundOn(cfg, r, s, depth, p);
  }

  lemma FitsSnoc(cfg: Config, depth: nat, acc: seq<Json>, v: Json)
    requires FitElems(cfg, depth, acc) && Fits(cfg, depth, v)
    ensures FitElems(cfg, depth, acc + [v])
  {
    hide Fits;
  }

  lemma ValueGave(cfg: Config, s: Text, depth: nat, v: Json, rest: Text, pos: nat)
    requires ParseSound(cfg, s, depth, Ok(v, rest, pos))
    ensures Suffix(rest, s) && Fits(cfg, depth, v)
  {
  }

  lemma {:induction false} ElementSound(cfg: Config, r: Text, depth: nat, pos: nat, acc: seq<Json>)
    requires depth + 1 < cfg.maxDepth && FitElems(cfg, depth + 1, acc)
    ensures ParseSound(cfg, r, depth, Element(cfg, r, depth, pos, acc))
    decreases |r|, 2
  {
    hide AfterValue, Value, Elements, Suffix, ParseSound, FitElems, Fits;
    var p := Element(cfg, r, depth, pos, acc);
    ValueSound(cfg, r, depth + 1, pos);
    match Value(cfg, r, depth + 1, pos)
    case Halt(v) => Deeper(cfg, r, r, depth, v);
    case Ok(elem, r1, pos1) =>
      ValueGave(cfg, r, depth + 1, elem, r1, pos1);
      FitsSnoc(cfg, depth + 1, acc, elem);
      AfterIsSound(cfg.strict, r1, depth + 1, elem);
      match AfterValue(cfg.strict, r1, depth + 1, elem)
      case NextHalt(v) => AfterHalts(cfg, r, r1, depth, elem, v);
      case At(r2) =>
        SuffixOn(r2, r1, r);
        SuffixFrom(r2, 1);
        if r2[0] == RBRACKET {
          ArrayFits(cfg, depth, acc + [elem]);
          Succeeds(cfg, r2, depth, Arr(acc + [elem]), 1, pos1);
        } else if r2[0] == COMMA {
          ElementsSound(cfg, r2[1..], depth, pos1, acc + [elem], true);
          SoundOn(cfg, r2[1..], r2, depth, p);
        } else {
          Halts(cfg, r2, depth, p.verdict);
        }
        SoundOn(cfg, r2, r, depth, p);
  }

  lemma {:induction false} MembersSound(cfg: Config, s: Text, depth: nat, pos: nat, acc: seq<Field>, sep: bool)
    requires depth < cfg.maxDepth && FitFields(cfg, depth + 1, acc) && (acc != [] ==> depth + 1 < cfg.maxDepth)
    ensures ParseSound(cfg, s, depth, Members(cfg, s, depth, pos, acc, sep))
    decreases |s|, 4
  {
    hide NextToken, Colon, StringBody, ParseSound, Suffix, CString, FitFields, Fits;
    var p := Members(cfg, s, depth, pos, acc, sep);
    NextIsSound(cfg.strict, s);
    match NextToken(cfg.strict, s)
    case NextHalt(v) => Halts(cfg, s, depth, v);
    case At(r) =>
      if r[0] == QUOTE || r[0] == APOSTROPHE {
        StringSound(r[1..], r[0], [], pos);
        BodySoundFrom(r, 1, StringBody(r[1..], r[0], [], pos));
        match StringBody(r[1..], r[0], [], pos)
        case BodyHalt(v) => Halts(cfg, r, depth, v);
        case Closed(key, r1, pos1) =>
          CStringIsClean(key);
          ColonSound(cfg, r1, depth, pos1, acc, CString(key));
          SoundOn(cfg, r1, r, depth, p);
      } else if p.Halt? {
        Halts(cfg, r, depth, p.verdict);
      } else {
        ObjectFits(cfg, depth, acc);
        Succeeds(cfg, r, depth, Obj(acc), 1, pos);
      }
      SoundOn(cfg, r, s, depth, p);
  }

  lemma {:induction false} CStringIsClean(s: Text)
    ensures NUL !in CString(s)
  {
    if s == [] || s[0] == NUL {
    } else {
      CStringIsClean(s[1..]);
    }
  }

  lemma {:induction false} ColonSound(
    cfg: Config, s: Text, depth: nat, pos: nat, acc: seq<Field>, key: Text)
    requires depth < cfg.maxDepth && FitFields(cfg, depth + 1, acc) && NUL !in key
    ensures ParseSound(cfg, s, depth, Colon(cfg, s, depth, pos, acc, key))
    decreases |s|, 3
  {
    hide NextToken, Member, ParseSound, Suffix, FitFields;
    var p := Colon(cfg, s, depth, pos, acc, key);
    NextIsSound(cfg.strict, s);
    match NextToken(cfg.strict, s)
    case NextHalt(v) => Halts(cfg, s, depth, v);
    case At(r) =>
      if r[0] != COLON {
        Halts(cfg, r, depth, p.verdict);
      } else {
        SuffixFrom(r, 1);
        NextIsSound(cfg.strict, r[1..]);
        match NextToken(cfg.strict, r[1..])
        case NextHalt(v) => Halts(cfg, r, depth, v);
        case At(r1) =>
          if depth >= cfg.maxDepth - 1 {
            Halts(cfg, r1, depth, p.verdict);
          } else {
            MemberSound(cfg, r1, depth, pos, acc, key);
          }
          SoundOn(cfg, r1, r[1..], depth, p);
          SoundOn(cfg, r[1..], r, depth, p);
      }
      SoundOn(cfg, r, s, depth, p);
  }

  lemma {:induction false} MemberSound(
    cfg: Config, r: Text, depth: nat, pos: nat, acc: seq<Field>, key: Text)
    requires depth + 1 < cfg.maxDepth && FitFields(cfg, depth + 1, acc) && NUL !in key
    ensures ParseSound(cfg, r, depth, Member(cfg, r, depth, pos, acc, key))
    decreases |r|, 2
  {
    hide AfterValue, Value, Members, Suffix, ObjectAdd, ParseSound, FitFields, Fits;
    var p := Member(cfg, r, depth, pos, acc, key);
    ValueSound(cfg, r, depth + 1, pos);
    match Value(cfg, r, depth + 1, pos)
    case Halt(v) => Deeper(cfg, r, r, depth, v);
    case Ok(val, r1, pos1) =>
      ValueGave(cfg, r, depth + 1, val, r1, pos1);
      AddFits(cfg, depth + 1, acc, key, val);
      var fields := ObjectAdd(acc, key, val);
      AfterIsSound(cfg.strict, r1, depth + 1, val);
      match AfterValue(cfg.strict, r1, depth + 1, val)
      case NextHalt(v) => AfterHalts(cfg, r, r1, depth, val, v);
      case At(r2) =>
        SuffixOn(r2, r1, r);
        SuffixFrom(r2, 1);
        if r2[0] == RBRACE {
          ObjectFits(cfg, depth, fields);
          Succeeds(cfg, r2, depth, Obj(fields), 1, pos1);
        } else if r2[0] == COMMA {
          MembersSound(cfg, r2[1..], depth, pos1, fields, true);
          SoundOn(cfg, r2[1..], r2, depth, p);
        } else {
          Halts(cfg, r2, depth, p.verdict);
        }
        SoundOn(cfg, r2, r, depth, p);
  }

  // ---------------------------------------------------------------- success

  /** Behind the value comes a gap, and then the text ends or `left` bytes are left over: from a token on,
      which strict mode allows for a NUL only, or from behind a NUL in a comment. */
  predicate FollowedBy(strict: bool, rest: Text, left: nat) {
    match Spaces(strict, rest)
    case GapEnd => left == 0
    case Token(r) => left == |r| && (strict ==> r[0] == NUL)
    case GapNul(n) => left == n
    case _ => false
  }

  /** The tokener stopped with a value whose depth and height are within the limit, and which can be
      written if nothing in it is Infinity or NaN. */
  predicate GaveValue(cfg: Config, t: Tok) {
    Fits(cfg, |t.below|, t.top.current) && (cfg.strict ==> t.below == [])
  }

  /** What was read is one value of the grammar, and the result is that value. */
  predicate GaveDocument(cfg: Config, s: Text, pos: nat, t: Tok, left: nat) {
    var p := Value(cfg, s, 0, pos);
    p.Ok? && p.value == t.top.current && Suffix(p.rest, s) && FollowedBy(cfg.strict, p.rest, left)
  }

  /**
   Success is sound in either mode: the value fits the depth limit and can be written, and the tokener
   is back at depth 0 exactly if what it read is one value of the grammar, with that value as the
   result and a gap behind it.
   */
  lemma SuccessIsSound(cfg: Config, s: Text, t: Tok)
    requires cfg.maxDepth > 0
    ensures var o := Call(cfg, s, Reset(t));
            o.Done?
            ==> GaveValue(cfg, o.last) && (o.last.below == [] <==> GaveDocument(cfg, s, t.stPos, o.last, o.left))
  {
    hide Run, Value, Inv, Fits;
    Simulation.CallIsDocument(cfg, s, t);
    ValueSound(cfg, s, 0, t.stPos);
    match Value(cfg, s, 0, t.stPos)
    case Halt(_) =>
    case Ok(value, rest, _) =>
  }

  /** In strict mode only spaces follow, and a NUL is what is left over. */
  lemma StrictlyFollowed(rest: Text, left: nat)
    requires FollowedBy(true, rest, left)
    ensures left <= |rest| && forall i :: 0 <= i < |rest| - left ==> IsSpace(rest[i])
    ensures left > 0 ==> rest[|rest| - left] == NUL
  {
    StrictSpaces(rest);
    hide Spaces;
  }

  lemma SuffixAt(rest: Text, s: Text, left: nat)
    requires Suffix(rest, s) && left <= |rest|
    requires forall i :: 0 <= i < |rest| - left ==> IsSpace(rest[i])
    ensures forall i :: |s| - |rest| <= i < |s| - left ==> IsSpace(s[i])
    ensures left > 0 ==> s[|s| - left] == rest[|rest| - left]
  {
    var n := |s| - |rest|;
    assert forall i :: n <= i < |s| ==> s[i] == rest[i - n];
    hide IsSpace;
  }

  /**
   Success in strict mode: the tokener is back at depth 0, what it read is one value of the grammar
   with that value as the result, nothing but spaces come after it, and then the text ends or a NUL
   is left over.
   */
  lemma StrictSuccess(cfg: Config, s: Text, t: Tok)
    requires cfg.strict && cfg.maxDepth > 0
    ensures var o := Call(cfg, s, Reset(t));
            o.Done?
            ==> && o.last.below == []
                && var p := Value(cfg, s, 0, t.stPos);
                   && p.Ok? && p.value == o.last.top.current && Suffix(p.rest, s) && o.left <= |p.rest|
                   && (forall i :: |s| - |p.rest| <= i < |s| - o.left ==> IsSpace(s[i]))
                   && (o.left > 0 ==> s[|s| - o.left] == NUL)
  {
    hide Run, Value, Fits, FollowedBy, Suffix;
    SuccessIsSound(cfg, s, t);
    var o := Call(cfg, s, Reset(t));
    if o.Done? {
      var rest := Value(cfg, s, 0, t.stPos).rest;
      StrictlyFollowed(rest, o.left);
      SuffixAt(rest, s, o.left);
      SuffixIsShort(rest, s);
      hide IsSpace;
    }
  }

  lemma SuffixIsShort(rest: Text, s: Text)
    ensures Suffix(rest, s) ==> |rest| <= |s|
  {
  }

  /**
   Every value that a call accepts can be written and read again: unless Infinity or NaN is in it,
   parsing its serialization, with any flags and in the same mode, gives the same value.
   */
  lemma ParseAgain(cfg: Config, s: Text, t: Tok, f: Serializer.Flags, u: Tok)
    requires cfg.maxDepth > 0
    ensures var o := Call(cfg, s, Reset(t));
            o.Done? && Plain(o.last.top.current)
            ==> Simulation.View(Call(cfg, Serializer.Serialize(o.last.top.current, 0, f) + [NUL], Reset(u)))
                == Accept(o.last.top.current, 0, 1)
  {
    hide Run, Serializer.Serialize, Serializable, Plain, GaveDocument;
    SuccessIsSound(cfg, s, t);
    var o := Call(cfg, s, Reset(t));
    if o.Done? && Plain(o.last.top.current) {
      ParseSerialized(cfg, o.last.top.current, f, u);
    }
  }
}

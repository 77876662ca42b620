/**
 The grammar that the tokener accepts, as a recursive descent parser over the whole text: one
 function for a value, one for the rest of an array, one for the rest of an object. It has no
 stack, no saved states and no scratch buffer.
 */
module Reference {
  import opened Bytes
  import opened Json
  import opened Unicode
  import opened Machine

  // How a whole parse ends. NeedMore: the text is a prefix of something acceptable.
  datatype Verdict = Accept(value: Json, depth: nat, left: nat) | NeedMore | Reject(error: Error)

  // What comes before the next token.
  datatype Gap = Token(rest: Text) | GapEnd | GapUnclosed | GapNul(left: nat) | GapBad(c: byte)

  datatype Next = At(rest: Text) | NextHalt(verdict: Verdict)

  // `pos` is the length of the last word or escape read so far; it decides whether "-Infinity" is read.
  datatype Parsed = Ok(value: Json, rest: Text, pos: nat) | Halt(verdict: Verdict)

  datatype Body = Closed(text: Text, rest: Text, pos: nat) | BodyHalt(verdict: Verdict)

  // ---------------------------------------------------------------- spaces and comments

  /** Any run of spaces and, outside strict mode, comments. */
  function Spaces(strict: bool, s: Text): (r: Gap)
    ensures r.Token? ==> 0 < |r.rest| <= |s| && !IsSpace(r.rest[0]) && (r.rest[0] == SLASH ==> strict)
  {
    if s == [] then GapEnd
    else if IsSpace(s[0]) then Spaces(strict, s[1..])
    else if s[0] == SLASH && !strict then CommentOpen(strict, s[1..])
    else Token(s)
  }

  function CommentOpen(strict: bool, s: Text): (r: Gap)
    ensures r.Token? ==> 0 < |r.rest| <= |s| && !IsSpace(r.rest[0]) && (r.rest[0] == SLASH ==> strict)
  {
    if s == [] then GapUnclosed
    else if s[0] == STAR then BlockComment(strict, s[1..])
    else if s[0] == SLASH then LineComment(strict, s[1..])
    else GapBad(s[0])
  }

  function BlockComment(strict: bool, s: Text): (r: Gap)
    ensures r.Token? ==> 0 < |r.rest| <= |s| && !IsSpace(r.rest[0]) && (r.rest[0] == SLASH ==> strict)
  {
    if s == [] then GapUnclosed
    else if s[0] == NUL then GapNul(|s| - 1)
    else if s[0] == STAR then AfterStar(strict, s[1..])
    else BlockComment(strict, s[1..])
  }

  /** The byte after a star is not looked at again: a star here does not count as the next one. */
  function AfterStar(strict: bool, s: Text): (r: Gap)
    ensures r.Token? ==> 0 < |r.rest| <= |s| && !IsSpace(r.rest[0]) && (r.rest[0] == SLASH ==> strict)
  {
    if s == [] then GapUnclosed
    else if s[0] == NUL then GapNul(|s| - 1)
    else if s[0] == SLASH then Spaces(strict, s[1..])
    else BlockComment(strict, s[1..])
  }

  function LineComment(strict: bool, s: Text): (r: Gap)
    ensures r.Token? ==> 0 < |r.rest| <= |s| && !IsSpace(r.rest[0]) && (r.rest[0] == SLASH ==> strict)
  {
    if s == [] then GapUnclosed
    else if s[0] == NUL then GapNul(|s| - 1)
    else if s[0] == LF then Spaces(strict, s[1..])
    else LineComment(strict, s[1..])
  }

  /** A NUL where something else was needed is reported as the end of the data. */
  function Fault(c: byte, e: Error): Verdict {
    Reject(if c == NUL then ErrEof else e)
  }

  /** The token after a gap in the middle of a document. */
  function NextToken(strict: bool, s: Text): (r: Next)
    ensures r.At? ==> 0 < |r.rest| <= |s| && !IsSpace(r.rest[0]) && (r.rest[0] == SLASH ==> strict)
  {
    match Spaces(strict, s)
    case Token(rest) => At(rest)
    case GapEnd => NextHalt(NeedMore)
    case GapUnclosed => NextHalt(NeedMore)
    case GapNul(_) => NextHalt(Reject(ErrEof))
    case GapBad(c) => NextHalt(Fault(c, ErrComment))
  }

  /** The token after a complete value at some depth. At depth 0 the end of the text suffices, but not
      inside a comment. */
  function AfterValue(strict: bool, s: Text, depth: nat, v: Json): (r: Next)
    ensures r.At? ==> 0 < |r.rest| <= |s| && !IsSpace(r.rest[0]) && (r.rest[0] == SLASH ==> strict)
  {
    match Spaces(strict, s)
    case Token(rest) => At(rest)
    case GapEnd => NextHalt(if depth == 0 then Accept(v, 0, 0) else NeedMore)
    case GapUnclosed => NextHalt(NeedMore)
    case GapNul(left) => NextHalt(Accept(v, depth, left))
    case GapBad(_) => NextHalt(Reject(ErrComment))
  }

  // ---------------------------------------------------------------- words and numbers

  function CommonLength(strict: bool, word: Text, s: Text): (n: nat)
    ensures n <= |word| && n <= |s|
  {
    if word == [] || s == [] || !SameByte(strict, word[0], s[0]) then 0
    else 1 + CommonLength(strict, word[1..], s[1..])
  }

  /** One of two words; the byte after the word has to be there. */
  function Word(strict: bool, s: Text, first: Text, v1: Json, second: Text, v2: Json, e: Error): (p: Parsed)
    requires first != [] && second != []
    ensures p.Ok? ==> |p.rest| < |s|
  {
    var a := CommonLength(strict, first, s);
    var b := CommonLength(strict, second, s);
    var m := if a >= b then a else b;
    if a == |first| then if |s| > a then Ok(v1, s[a..], a) else Halt(NeedMore)
    else if b == |second| then if |s| > b then Ok(v2, s[b..], b) else Halt(NeedMore)
    else if m == |s| then Halt(NeedMore)
    else Halt(Fault(s[m], e))
  }

  function NumberLength(s: Text): (n: nat)
    ensures n <= |s|
    ensures n < |s| ==> !IsNumberChar(s[n])
  {
    if s == [] || !IsNumberChar(s[0]) then 0 else 1 + NumberLength(s[1..])
  }

  predicate HasPoint(s: Text) {
    exists i :: 0 <= i < |s| && (s[i] == DOT || s[i] == LOWER_E || s[i] == UPPER_E)
  }

  lemma HasPointSnoc(s: Text, c: byte)
    ensures HasPoint(s + [c]) <==> HasPoint(s) || c == DOT || c == LOWER_E || c == UPPER_E
  {
    var t := s + [c];
    assert t[|s|] == c;
    assert forall i :: 0 <= i < |s| ==> t[i] == s[i];
  }

  function NumberToken(cfg: Config, s: Text, pos: nat): (p: Parsed)
    requires s != [] && IsNumberChar(s[0])
    ensures p.Ok? ==> |p.rest| < |s|
  {
    var n := NumberLength(s);
    if n == |s| then Halt(NeedMore)
    else if n == 1 && s[0] == MINUS && (s[1] == LOWER_I || s[1] == UPPER_I) then
      if pos == 0 then
        Word(cfg.strict, s[1..], INFINITY_WORD, Infinite(true), INFINITY_WORD, Infinite(true), ErrUnexpected)
      else Halt(Reject(ErrUnexpected))
    else
      match NumberValue(cfg, s[..n], HasPoint(s[..n]))
      case Some(v) => Ok(v, s[n..], pos)
      case None => Halt(Fault(s[n], ErrNumber))
  }

  // ---------------------------------------------------------------- strings

  /** The bytes of a string up to its closing quote. */
  function StringBody(s: Text, quote: byte, acc: Text, pos: nat): (b: Body)
    ensures b.Closed? ==> |b.rest| < |s|
    decreases |s|
  {
    if s == [] then BodyHalt(NeedMore)
    else if s[0] == quote then Closed(acc, s[1..], pos)
    else if s[0] == NUL then BodyHalt(Reject(ErrEof))
    else if s[0] != BACKSLASH then StringBody(s[1..], quote, acc + [s[0]], pos)
    else if |s| == 1 then BodyHalt(NeedMore)
    else
      match Unescape(s[1])
      case Some(b) => StringBody(s[2..], quote, acc + [b], pos)
      case None =>
        if s[1] == LOWER_U then UnicodeBody(s[2..], quote, acc, 0) else BodyHalt(Fault(s[1], ErrString))
  }

  function HexCount(s: Text): (n: nat)
    ensures n <= 4 && n <= |s| && forall i :: 0 <= i < n ==> IsHex(s[i])
    ensures n < 4 && n < |s| ==> !IsHex(s[n])
  {
    if |s| == 0 || !IsHex(s[0]) then 0
    else if |s| == 1 || !IsHex(s[1]) then 1
    else if |s| == 2 || !IsHex(s[2]) then 2
    else if |s| == 3 || !IsHex(s[3]) then 3
    else 4
  }

  function HexCode(s: Text): (uc: nat)
    requires |s| >= 4 && forall i :: 0 <= i < 4 ==> IsHex(s[i])
    ensures uc < 0x10000
  {
    HexValue(s[0]) * 0x1000 + HexValue(s[1]) * 0x100 + HexValue(s[2]) * 0x10 + HexValue(s[3])
  }

  predicate EscapeFollows(s: Text) {
    |s| >= 2 && s[0] == BACKSLASH && s[1] == LOWER_U
  }

  /** The four digits of a unicode escape, with a high half pending when `hi` is not 0. */
  function UnicodeBody(s: Text, quote: byte, acc: Text, hi: nat): (b: Body)
    ensures b.Closed? ==> |b.rest| < |s|
    decreases |s|
  {
    var n := HexCount(s);
    if n < 4 then BodyHalt(if n == |s| then NeedMore else Fault(s[n], ErrString))
    else
      var (code, before) := Combine(hi, HexCode(s));
      if code >= 0x800 && IsHigh(code) && EscapeFollows(s[4..]) then
        UnicodeBody(s[6..], quote, acc + before, code)
      else StringBody(s[4..], quote, acc + before + Append(code), 4)
  }

  // ---------------------------------------------------------------- values

  /** A value that is neither an array nor an object, at its first byte. */
  function Scalar(cfg: Config, r: Text, pos: nat): (p: Parsed)
    requires r != []
    ensures p.Ok? ==> |p.rest| < |r|
  {
    var c := r[0];
    if c == UPPER_I || c == LOWER_I then
      Word(cfg.strict, r, INFINITY_WORD, Infinite(false), INFINITY_WORD, Infinite(false), ErrUnexpected)
    else if c == UPPER_N || c == LOWER_N then
      Word(cfg.strict, r, NULL_WORD, Null, NAN_WORD, NotANumber, ErrNull)
    else if c == UPPER_T || c == LOWER_T || c == UPPER_F || c == LOWER_F then
      Word(cfg.strict, r, TRUE_WORD, Bool(true), FALSE_WORD, Bool(false), ErrBoolean)
    else if c == QUOTE || (c == APOSTROPHE && !cfg.strict) then
      match StringBody(r[1..], c, [], pos)
      case Closed(text, rest, p) => Ok(Str(text), rest, p)
      case BodyHalt(v) => Halt(v)
    else if IsDigit(c) || c == MINUS then NumberToken(cfg, r, pos)
    else Halt(Fault(c, ErrUnexpected))
  }

  function Value(cfg: Config, s: Text, depth: nat, pos: nat): (p: Parsed)
    ensures p.Ok? ==> |p.rest| < |s|
    decreases |s|, 1
  {
    match NextToken(cfg.strict, s)
    case NextHalt(v) => Halt(v)
    case At(r) =>
      if r[0] == LBRACE then Members(cfg, r[1..], depth, pos, [], false)
      else if r[0] == LBRACKET then Elements(cfg, r[1..], depth, pos, [], false)
      else Scalar(cfg, r, pos)
  }

  /** The elements of an array after `[` or, when `sep` is set, after a comma. */
  function Elements(cfg: Config, s: Text, depth: nat, pos: nat, acc: seq<Json>, sep: bool): (p: Parsed)
    ensures p.Ok? ==> |p.rest| < |s|
    decreases |s|, 3
  {
    match NextToken(cfg.strict, s)
    case NextHalt(v) => Halt(v)
    case At(r) =>
      if r[0] == RBRACKET then
        if sep && cfg.strict then Halt(Reject(ErrUnexpected)) else Ok(Arr(acc), r[1..], pos)
      else if depth >= cfg.maxDepth - 1 then Halt(Fault(r[0], ErrDepth))
      else Element(cfg, r, depth, pos, acc)
  }

  /** One element at its first byte, and then those that follow. */
  function Element(cfg: Config, r: Text, depth: nat, pos: nat, acc: seq<Json>): (p: Parsed)
    ensures p.Ok? ==> |p.rest| < |r|
    decreases |r|, 2
  {
    match Value(cfg, r, depth + 1, pos)
    case Halt(v) => Halt(v)
    case Ok(elem, r1, pos1) =>
      match AfterValue(cfg.strict, r1, depth + 1, elem)
      case NextHalt(v) => Halt(v)
      case At(r2) =>
        if r2[0] == RBRACKET then Ok(Arr(acc + [elem]), r2[1..], pos1)
        else if r2[0] == COMMA then Elements(cfg, r2[1..], depth, pos1, acc + [elem], true)
        else Halt(Fault(r2[0], ErrArray))
  }

  /** The members of an object after `{` or, when `sep` is set, after a comma. */
  function Members(cfg: Config, s: Text, depth: nat, pos: nat, acc: seq<Field>, sep: bool): (p: Parsed)
    ensures p.Ok? ==> |p.rest| < |s|
    decreases |s|, 4
  {
    match NextToken(cfg.strict, s)
    case NextHalt(v) => Halt(v)
    case At(r) =>
      if r[0] == RBRACE then
        if sep && cfg.strict then Halt(Reject(ErrUnexpected)) else Ok(Obj(acc), r[1..], pos)
      else if r[0] == QUOTE || r[0] == APOSTROPHE then
        match StringBody(r[1..], r[0], [], pos)
        case BodyHalt(v) => Halt(v)
        case Closed(key, r1, pos1) => Colon(cfg, r1, depth, pos1, acc, CString(key))
      else Halt(Fault(r[0], ErrKeyName))
  }

  /** The colon after a field name, and then the value. */
  function Colon(cfg: Config, s: Text, depth: nat, pos: nat, acc: seq<Field>, key: Text): (p: Parsed)
    ensures p.Ok? ==> |p.rest| < |s|
    decreases |s|, 3
  {
    match NextToken(cfg.strict, s)
    case NextHalt(v) => Halt(v)
    case At(r) =>
      if r[0] != COLON then Halt(Fault(r[0], ErrKeySep))
      else
        match NextToken(cfg.strict, r[1..])
        case NextHalt(v) => Halt(v)
        case At(r1) =>
          if depth >= cfg.maxDepth - 1 then Halt(Fault(r1[0], ErrDepth))
          else Member(cfg, r1, depth, pos, acc, key)
  }

  /** The value of one member at its first byte, and then the members that follow. */
  function Member(cfg: Config, r: Text, depth: nat, pos: nat, acc: seq<Field>, key: Text): (p: Parsed)
    ensures p.Ok? ==> |p.rest| < |r|
    decreases |r|, 2
  {
    match Value(cfg, r, depth + 1, pos)
    case Halt(v) => Halt(v)
    case Ok(val, r1, pos1) =>
      match AfterValue(cfg.strict, r1, depth + 1, val)
      case NextHalt(v) => Halt(v)
      case At(r2) =>
        var fields := ObjectAdd(acc, key, val);
        if r2[0] == RBRACE then Ok(Obj(fields), r2[1..], pos1)
        else if r2[0] == COMMA then Members(cfg, r2[1..], depth, pos1, fields, true)
        else Halt(Fault(r2[0], ErrValueSep))
  }

  /** A whole document. In strict mode nothing but a NUL may follow it. */
  function Document(cfg: Config, s: Text, pos: nat): Verdict {
    match Value(cfg, s, 0, pos)
    case Halt(v) => v
    case Ok(value, rest, _) =>
      match AfterValue(cfg.strict, rest, 0, value)
      case NextHalt(v) => v
      case At(r) => if r[0] != NUL && cfg.strict then Reject(ErrUnexpected) else Accept(value, 0, |r|)
  }
}

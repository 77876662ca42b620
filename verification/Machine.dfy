/**
 json_tokener_parse_ex as a step machine. One step is one pass through the switch for one byte:
 the bulk loops of the source are steps that consume a byte and stay in their state, and
 `goto redo_char` is a step that consumes nothing.
 */
module Machine {
  import opened Bytes
  import opened Json
  import opened Int64
  import opened Unicode

  datatype State =
    | Eatws | Start | Finish | NullWord | CommentStart | Comment | CommentEol | CommentEnd
    | InString | StringEscape | EscapeUnicode | BooleanWord | Number | Array | ArrayAdd | ArraySep
    | FieldStart | InField | FieldEnd | ObjectValue | ObjectValueAdd | ObjectSep
    | ArrayAfterSep | FieldStartAfterSep | InfinityWord

  datatype Error =
    | NoError | ErrContinue | ErrDepth | ErrEof | ErrUnexpected | ErrNull | ErrBoolean | ErrNumber
    | ErrArray | ErrKeyName | ErrKeySep | ErrValueSep | ErrString | ErrComment | ErrSize

  // One entry of tok->stack. A NULL `current` is Null.
  datatype Level = Level(state: State, saved: State, current: Json, field: Option<Text>)

  // The tokener between two bytes: the levels under the top one, the top one, the scratch fields.
  datatype Tok = Tok(
    below: seq<Level>, top: Level, pb: Text, isDouble: bool, stPos: nat, ucs: nat, quote: byte)

  // Locals of one call: obj, the bytes of the number seen in this call, got_hi_surrogate.
  datatype Local = Local(obj: Json, caseLen: nat, hi: nat)

  // The strict flag, max_depth, and the part of sscanf("%lf") that is left open.
  datatype Config = Config(strict: bool, maxDepth: nat, readable: Text -> bool)

  // One step: go on after `n` bytes, or jump to `out` with an error code.
  datatype Move = Go(n: nat, tok: Tok, loc: Local) | Out(out: Tok, error: Error)

  // How one call ends: with the value that is `current` on the top level and some bytes left over,
  // with a wait for more input, or with an error and the bytes from where it was found.
  datatype Outcome = Done(last: Tok, left: nat) | More(tok: Tok) | Failed(error: Error, left: nat)

  const FRESH: Level := Level(Eatws, Start, Null, None)
  const NO_LOCALS: Local := Local(Null, 0, 0)

  /** json_tokener_reset_level on every level: the tokener of json_tokener_new_ex or after a value. */
  function Reset(t: Tok): Tok {
    t.(below := [], top := FRESH)
  }

  function In(t: Tok, state: State): Tok {
    t.(top := t.top.(state := state))
  }

  /** state = eatws, saved_state = the argument. */
  function Skip(t: Tok, saved: State): Tok {
    t.(top := t.top.(state := Eatws, saved := saved))
  }

  /** A value is complete on the top level. */
  function Complete(t: Tok, v: Json): Tok {
    t.(top := t.top.(state := Eatws, saved := Finish, current := v))
  }

  /** The start of a word state: the buffer and the position are reset. */
  function BeginWord(t: Tok, word: State): Tok {
    t.(top := t.top.(state := word), pb := [], stPos := 0)
  }

  predicate SameByte(strict: bool, a: byte, b: byte) {
    a == b || (!strict && Lower(a) == Lower(b))
  }

  /** strncmp or, outside strict mode, strncasecmp of the first n bytes; n is at most |word|. */
  predicate SamePrefix(strict: bool, word: Text, s: Text, n: nat)
    requires n <= |word|
  {
    n <= |s| && forall i :: 0 <= i < n ==> SameByte(strict, word[i], s[i])
  }

  function StepEatws(cfg: Config, c: byte, t: Tok, loc: Local): Move {
    if IsSpace(c) then Go(1, t, loc)
    else if c == SLASH && !cfg.strict then Go(1, In(t, CommentStart).(pb := [c]), loc)
    else Go(0, In(t, t.top.saved), loc)
  }

  predicate InWord(s: State) {
    s == NullWord || s == BooleanWord || s == InfinityWord
  }

  function StepStart(cfg: Config, c: byte, t: Tok, loc: Local): Move {
    if c == LBRACE then Go(1, t.(top := Level(Eatws, FieldStart, Obj([]), t.top.field)), loc)
    else if c == LBRACKET then Go(1, t.(top := Level(Eatws, Array, Arr([]), t.top.field)), loc)
    else if c == UPPER_I || c == LOWER_I then Go(0, BeginWord(t, InfinityWord), loc)
    else if c == UPPER_N || c == LOWER_N then Go(0, BeginWord(t, NullWord), loc)
    else if c == APOSTROPHE && cfg.strict then Out(t, ErrUnexpected)
    else if c == APOSTROPHE || c == QUOTE then Go(1, In(t, InString).(pb := [], quote := c), loc)
    else if c == UPPER_T || c == LOWER_T || c == UPPER_F || c == LOWER_F then
      Go(0, BeginWord(t, BooleanWord), loc)
    else if IsDigit(c) || c == MINUS then
      Go(0, In(t, Number).(pb := [], isDouble := false), loc.(caseLen := 0))
    else Out(t, ErrUnexpected)
  }

  function StepFinish(t: Tok, loc: Local): Move {
    var d := |t.below|;
    if d == 0 then Out(t, NoError)
    else Go(0, t.(below := t.below[..d - 1], top := t.below[d - 1]), loc.(obj := t.top.current))
  }

  function StepInfinity(cfg: Config, c: byte, t: Tok, loc: Local): Move {
    var u := t.(pb := t.pb + [c]);
    var negative := u.pb[0] == MINUS;
    var word := if negative then u.pb[1..] else u.pb;
    if !SamePrefix(cfg.strict, INFINITY_WORD, word, Min(t.stPos + 1, |INFINITY_WORD|)) then Out(u, ErrUnexpected)
    else if t.stPos == |INFINITY_WORD| then Go(0, Complete(u, Infinite(negative)), loc)
    else Go(1, u.(stPos := t.stPos + 1), loc)
  }

  /** The null and boolean states: two words at once, the first one tried first. */
  function StepWords(
    cfg: Config, c: byte, t: Tok, loc: Local, first: Text, v1: Json, second: Text, v2: Json, e: Error): Move
  {
    var u := t.(pb := t.pb + [c]);
    if SamePrefix(cfg.strict, first, u.pb, Min(t.stPos + 1, |first|)) then
      if t.stPos == |first| then Go(0, Complete(u, v1), loc) else Go(1, u.(stPos := t.stPos + 1), loc)
    else if SamePrefix(cfg.strict, second, u.pb, Min(t.stPos + 1, |second|)) then
      if t.stPos == |second| then Go(0, Complete(u, v2), loc) else Go(1, u.(stPos := t.stPos + 1), loc)
    else Out(u, e)
  }

  function StepNull(cfg: Config, c: byte, t: Tok, loc: Local): Move {
    StepWords(cfg, c, t, loc, NULL_WORD, Null, NAN_WORD, NotANumber, ErrNull)
  }

  function StepBoolean(cfg: Config, c: byte, t: Tok, loc: Local): Move {
    StepWords(cfg, c, t, loc, TRUE_WORD, Bool(true), FALSE_WORD, Bool(false), ErrBoolean)
  }

  function StepCommentStart(c: byte, t: Tok, loc: Local): Move {
    var u := t.(pb := t.pb + [c]);
    if c == STAR then Go(1, In(u, Comment), loc)
    else if c == SLASH then Go(1, In(u, CommentEol), loc)
    else Out(t, ErrComment)
  }

  function StepCommentBody(c: byte, t: Tok, loc: Local): Move {
    var u := t.(pb := t.pb + [c]);
    if c == STAR then Go(1, In(u, CommentEnd), loc) else Go(1, u, loc)
  }

  function StepCommentEol(c: byte, t: Tok, loc: Local): Move {
    if c == LF then Go(1, In(t, Eatws), loc) else Go(1, t.(pb := t.pb + [c]), loc)
  }

  /** After a star: any byte but a slash is dropped, a second star included. */
  function StepCommentEnd(c: byte, t: Tok, loc: Local): Move {
    var u := t.(pb := t.pb + [c]);
    if c == SLASH then Go(1, In(u, Eatws), loc) else Go(1, In(u, Comment), loc)
  }

  function StepString(c: byte, t: Tok, loc: Local): Move {
    if c == t.quote then Go(1, Complete(t, Str(t.pb)), loc)
    else if c == BACKSLASH then Go(1, t.(top := t.top.(state := StringEscape, saved := InString)), loc)
    else Go(1, t.(pb := t.pb + [c]), loc)
  }

  function StepField(c: byte, t: Tok, loc: Local): Move {
    if c == t.quote then
      Go(1, t.(top := t.top.(state := Eatws, saved := FieldEnd, field := Some(CString(t.pb)))), loc)
    else if c == BACKSLASH then Go(1, t.(top := t.top.(state := StringEscape, saved := InField)), loc)
    else Go(1, t.(pb := t.pb + [c]), loc)
  }

  /** The byte that a two-character escape stands for. */
  function Unescape(c: byte): Option<byte> {
    if c == QUOTE || c == BACKSLASH || c == SLASH then Some(c)
    else if c == LOWER_B then Some(BACKSPACE)
    else if c == LOWER_N then Some(LF)
    else if c == LOWER_R then Some(CR)
    else if c == LOWER_T then Some(TAB)
    else if c == LOWER_F then Some(FORM_FEED)
    else None
  }

  function StepEscape(c: byte, t: Tok, loc: Local): Move {
    match Unescape(c)
    case Some(b) => Go(1, In(t, t.top.saved).(pb := t.pb + [b]), loc)
    case None =>
      if c == LOWER_U then Go(1, In(t, EscapeUnicode).(ucs := 0, stPos := 0), loc.(hi := 0))
      else Out(t, ErrString)
  }

  function Shift(digit: nat, place: int): nat {
    if place == 3 then digit * 0x1000
    else if place == 2 then digit * 0x100
    else if place == 1 then digit * 0x10
    else if place == 0 then digit
    else 0
  }

  /** The code after a pending high half: paired with a low one, otherwise the half is replaced. */
  function Combine(hi: nat, uc: nat): (r: (nat, Text)) {
    if hi == 0 then (uc, [])
    else if IsLow(uc) then (DecodePair(hi, uc), [])
    else (uc, REPLACEMENT)
  }

  /** Four digits are read: `uc` is their code, and `s` starts with the last of them. */
  function StepFourth(s: Text, uc: nat, t: Tok, loc: Local): Move
    requires s != []
  {
    var (code, before) := Combine(loc.hi, uc);
    var u := t.(stPos := 4, ucs := code, pb := t.pb + before);
    if code >= 0x800 && IsHigh(code) && |s| >= 3 && s[1] == BACKSLASH && s[2] == LOWER_U then
      if |s| == 3 then Go(3, u.(pb := u.pb + REPLACEMENT), loc.(hi := 0))
      else Go(3, u.(ucs := 0, stPos := 0), loc.(hi := code))
    else Go(1, In(u, t.top.saved).(pb := u.pb + Append(code)), loc.(hi := 0))
  }

  function StepUnicode(s: Text, t: Tok, loc: Local): Move
    requires s != []
  {
    var c := s[0];
    if c == NUL then Out(t, NoError)
    else if !IsHex(c) then Out(t, ErrString)
    else
      var uc := t.ucs + Shift(HexValue(c), 3 - t.stPos);
      if t.stPos + 1 == 4 then StepFourth(s, uc, t, loc)
      else
        Go(1, t.(ucs := uc, stPos := t.stPos + 1,
                 pb := t.pb + if |s| == 1 && loc.hi != 0 then REPLACEMENT else []), loc)
  }

  function StepNumber(cfg: Config, c: byte, t: Tok, loc: Local): Move {
    if IsNumberChar(c) then
      Go(1, t.(pb := t.pb + [c], isDouble := t.isDouble || c == DOT || c == LOWER_E || c == UPPER_E),
         loc.(caseLen := loc.caseLen + 1))
    else if t.pb != [] && t.pb[0] == MINUS && loc.caseLen == 1 && (c == LOWER_I || c == UPPER_I) then
      Go(0, In(t, InfinityWord), loc)
    else
      match NumberValue(cfg, t.pb, t.isDouble)
      case Some(v) => Go(0, Complete(t, v), loc)
      case None => Out(t, ErrNumber)
  }

  /** The json_object made of a finished number. */
  function NumberValue(cfg: Config, text: Text, isDouble: bool): Option<Json> {
    if isDouble then
      if cfg.readable(text) then Some(Double(text)) else None
    else
      match ParseInt64(text)
      case None => None
      case Some(i) =>
        if i != 0 && text != [] && text[0] == ZERO && cfg.strict then None else Some(Int(i))
  }

  /** depth++ with a reset level, the level left behind in state `waiting`. */
  function Push(t: Tok, waiting: State): Tok {
    t.(below := t.below + [t.top.(state := waiting)], top := FRESH)
  }

  function StepArray(cfg: Config, c: byte, t: Tok, loc: Local): Move {
    if c == RBRACKET then
      if t.top.state == ArrayAfterSep && cfg.strict then Out(t, ErrUnexpected)
      else Go(1, Skip(t, Finish), loc)
    else if |t.below| >= cfg.maxDepth - 1 then Out(t, ErrDepth)
    else Go(0, Push(t, ArrayAdd), loc)
  }

  function StepFieldStart(cfg: Config, c: byte, t: Tok, loc: Local): Move {
    if c == RBRACE then
      if t.top.state == FieldStartAfterSep && cfg.strict then Out(t, ErrUnexpected)
      else Go(1, Skip(t, Finish), loc)
    else if c == QUOTE || c == APOSTROPHE then Go(1, In(t, InField).(pb := [], quote := c), loc)
    else Out(t, ErrKeyName)
  }

  function StepFieldEnd(c: byte, t: Tok, loc: Local): Move {
    if c == COLON then Go(1, Skip(t, ObjectValue), loc) else Out(t, ErrKeySep)
  }

  function StepObjectValue(cfg: Config, t: Tok, loc: Local): Move {
    if |t.below| >= cfg.maxDepth - 1 then Out(t, ErrDepth)
    else Go(0, Push(t, ObjectValueAdd), loc)
  }

  /** A closer finishes the container, a comma goes on, anything else is the error. */
  function StepSep(c: byte, closer: byte, next: State, e: Error, t: Tok, loc: Local): Move {
    if c == closer then Go(1, Skip(t, Finish), loc)
    else if c == COMMA then Go(1, Skip(t, next), loc)
    else Out(t, e)
  }

  function StepArrayAdd(t: Tok, loc: Local): Move
    requires t.top.current.Arr?
  {
    var elems := t.top.current.elems + [loc.obj];
    Go(0, t.(top := t.top.(state := Eatws, saved := ArraySep, current := Arr(elems))), loc)
  }

  function StepObjectAdd(t: Tok, loc: Local): Move
    requires t.top.current.Obj? && t.top.field.Some?
  {
    var fields := ObjectAdd(t.top.current.fields, t.top.field.value, loc.obj);
    Go(0, t.(top := Level(Eatws, ObjectSep, Obj(fields), None)), loc)
  }

  function Step(cfg: Config, s: Text, t: Tok, loc: Local): Move
    requires s != [] && TopOk(t.top)
  {
    var c := s[0];
    match t.top.state
    case Eatws => StepEatws(cfg, c, t, loc)
    case Start => StepStart(cfg, c, t, loc)
    case Finish => StepFinish(t, loc)
    case InfinityWord => StepInfinity(cfg, c, t, loc)
    case NullWord => StepNull(cfg, c, t, loc)
    case BooleanWord => StepBoolean(cfg, c, t, loc)
    case CommentStart => StepCommentStart(c, t, loc)
    case Comment => StepCommentBody(c, t, loc)
    case CommentEol => StepCommentEol(c, t, loc)
    case CommentEnd => StepCommentEnd(c, t, loc)
    case InString => StepString(c, t, loc)
    case StringEscape => StepEscape(c, t, loc)
    case EscapeUnicode => StepUnicode(s, t, loc)
    case Number => StepNumber(cfg, c, t, loc)
    case Array => StepArray(cfg, c, t, loc)
    case ArrayAfterSep => StepArray(cfg, c, t, loc)
    case ArrayAdd => StepArrayAdd(t, loc)
    case ArraySep => StepSep(c, RBRACKET, ArrayAfterSep, ErrArray, t, loc)
    case FieldStart => StepFieldStart(cfg, c, t, loc)
    case FieldStartAfterSep => StepFieldStart(cfg, c, t, loc)
    case InField => StepField(c, t, loc)
    case FieldEnd => StepFieldEnd(c, t, loc)
    case ObjectValue => StepObjectValue(cfg, t, loc)
    case ObjectValueAdd => StepObjectAdd(t, loc)
    case ObjectSep => StepSep(c, RBRACE, FieldStartAfterSep, ErrValueSep, t, loc)
  }

  // ---------------------------------------------------------------- the invariant

  // What a level must hold: nothing, an array, an object, an object with a field name.
  datatype Need = NeedNothing | NeedArray | NeedObject | NeedField | Never

  /** The states in which spaces and comments are skipped. */
  predicate Skipping(s: State) {
    s.Eatws? || s.CommentStart? || s.Comment? || s.CommentEol? || s.CommentEnd?
  }

  /** What a level must hold while its token, or the gap before it, is read. */
  function TokenNeed(s: State): Need {
    match s
    case Start | Finish => NeedNothing
    case Array | ArrayAfterSep | ArraySep => NeedArray
    case FieldStart | FieldStartAfterSep | ObjectSep => NeedObject
    case FieldEnd | ObjectValue => NeedField
    case _ => Never
  }

  /** The pairs of state and saved_state that occur, and what goes with them. */
  function LevelNeed(s: State, saved: State): Need {
    if Skipping(s) then TokenNeed(saved)
    else if s == saved && TokenNeed(s) != Never then TokenNeed(s)
    else
      match s
      case NullWord | BooleanWord | InfinityWord | Number => if saved == Start then NeedNothing else Never
      case InString => if saved == Start || saved == InString then NeedNothing else Never
      case InField =>
        if saved == FieldStart || saved == FieldStartAfterSep || saved == InField then NeedObject else Never
      case StringEscape | EscapeUnicode =>
        if saved == InString then NeedNothing else if saved == InField then NeedObject else Never
      case ArrayAdd => if saved == Array || saved == ArrayAfterSep then NeedArray else Never
      case ObjectValueAdd => if saved == ObjectValue then NeedField else Never
      case _ => Never
  }

  predicate TopOk(l: Level) {
    var need := LevelNeed(l.state, l.saved);
    && need != Never
    && (need == NeedArray ==> l.current.Arr?)
    && (need == NeedObject || need == NeedField ==> l.current.Obj?)
    && (need == NeedField ==> l.field.Some?)
  }

  /** A level under the top one waits in array_add with an array, or in object_value_add with an
      object and a field name. */
  predicate Waits(l: Level) {
    TopOk(l) && (l.state.ArrayAdd? || l.state.ObjectValueAdd?)
  }

  predicate Inv(cfg: Config, t: Tok) {
    && |t.below| < cfg.maxDepth
    && (forall i :: 0 <= i < |t.below| ==> Waits(t.below[i]))
    && TopOk(t.top)
  }

  /** How many more dispatches one byte can take before it is consumed. */
  function Rank(l: Level): nat {
    match l.state
    case Eatws => PhaseRank(l.saved) + 1
    case other => PhaseRank(other)
  }

  function PhaseRank(s: State): nat {
    match s
    case ArrayAdd => 2
    case ObjectValueAdd => 2
    case Finish => 3
    case NullWord => 5
    case BooleanWord => 5
    case InfinityWord => 5
    case Number => 6
    case Start => 7
    case Array => 9
    case ArrayAfterSep => 9
    case ObjectValue => 9
    case _ => 0
  }

  const MAX_RANK: nat := 10

  /** What every step keeps: the invariant, and a lower rank when no byte is consumed. A step that
      consumes one never ends in the finish state. */
  predicate Kept(cfg: Config, s: Text, t: Tok, m: Move) {
    match m
    case Go(n, u, _) =>
      Inv(cfg, u) && n <= |s| && if n > 0 then u.top.state != Finish else Rank(u.top) < Rank(t.top)
    case Out(u, _) => Inv(cfg, u)
  }

  lemma KeptEatws(cfg: Config, s: Text, t: Tok, loc: Local)
    requires s != [] && Inv(cfg, t) && t.top.state == Eatws
    ensures Kept(cfg, s, t, StepEatws(cfg, s[0], t, loc))
  {
  }

  lemma KeptStart(cfg: Config, s: Text, t: Tok, loc: Local)
    requires s != [] && Inv(cfg, t) && t.top.state == Start
    ensures Kept(cfg, s, t, StepStart(cfg, s[0], t, loc))
  {
    hide Inv, Rank, IsDigit;
    var m := StepStart(cfg, s[0], t, loc);
    TopIsOk(cfg, t);
    SameBelow(cfg, t, if m.Go? then m.tok else m.out);
    StartRank(t.top, if m.Go? then m.tok.top else t.top);
  }

  lemma SameBelow(cfg: Config, t: Tok, u: Tok)
    requires Inv(cfg, t)
    ensures u.below == t.below && TopOk(u.top) ==> Inv(cfg, u)
  {
  }

  lemma TopIsOk(cfg: Config, t: Tok)
    requires Inv(cfg, t)
    ensures TopOk(t.top)
  {
  }

  lemma StartRank(l: Level, m: Level)
    ensures l.state == Start && (InWord(m.state) || m.state == Number) ==> Rank(m) < Rank(l)
  {
  }

  lemma KeptFinish(cfg: Config, s: Text, t: Tok, loc: Local)
    requires s != [] && Inv(cfg, t) && t.top.state == Finish
    ensures Kept(cfg, s, t, StepFinish(t, loc))
  {
  }

  lemma KeptCommentStart(cfg: Config, s: Text, t: Tok, loc: Local)
    requires s != [] && Inv(cfg, t) && t.top.state == CommentStart
    ensures Kept(cfg, s, t, StepCommentStart(s[0], t, loc))
  {
  }

  lemma KeptCommentBody(cfg: Config, s: Text, t: Tok, loc: Local)
    requires s != [] && Inv(cfg, t) && t.top.state == Comment
    ensures Kept(cfg, s, t, StepCommentBody(s[0], t, loc))
  {
  }

  lemma KeptCommentEol(cfg: Config, s: Text, t: Tok, loc: Local)
    requires s != [] && Inv(cfg, t) && t.top.state == CommentEol
    ensures Kept(cfg, s, t, StepCommentEol(s[0], t, loc))
  {
  }

  lemma KeptCommentEnd(cfg: Config, s: Text, t: Tok, loc: Local)
    requires s != [] && Inv(cfg, t) && t.top.state == CommentEnd
    ensures Kept(cfg, s, t, StepCommentEnd(s[0], t, loc))
  {
  }

  lemma KeptInfinity(cfg: Config, s: Text, t: Tok, loc: Local)
    requires s != [] && Inv(cfg, t) && t.top.state == InfinityWord
    ensures Kept(cfg, s, t, StepInfinity(cfg, s[0], t, loc))
  {
  }

  lemma KeptNull(cfg: Config, s: Text, t: Tok, loc: Local)
    requires s != [] && Inv(cfg, t) && t.top.state == NullWord
    ensures Kept(cfg, s, t, StepNull(cfg, s[0], t, loc))
  {
  }

  lemma KeptBoolean(cfg: Config, s: Text, t: Tok, loc: Local)
    requires s != [] && Inv(cfg, t) && t.top.state == BooleanWord
    ensures Kept(cfg, s, t, StepBoolean(cfg, s[0], t, loc))
  {
  }

  lemma KeptNumber(cfg: Config, s: Text, t: Tok, loc: Local)
    requires s != [] && Inv(cfg, t) && t.top.state == Number
    ensures Kept(cfg, s, t, StepNumber(cfg, s[0], t, loc))
  {
  }

  lemma KeptString(cfg: Config, s: Text, t: Tok, loc: Local)
    requires s != [] && Inv(cfg, t) && t.top.state == InString
    ensures Kept(cfg, s, t, StepString(s[0], t, loc))
  {
  }

  lemma KeptField(cfg: Config, s: Text, t: Tok, loc: Local)
    requires s != [] && Inv(cfg, t) && t.top.state == InField
    ensures Kept(cfg, s, t, StepField(s[0], t, loc))
  {
  }

  lemma KeptEscape(cfg: Config, s: Text, t: Tok, loc: Local)
    requires s != [] && Inv(cfg, t) && t.top.state == StringEscape
    ensures Kept(cfg, s, t, StepEscape(s[0], t, loc))
  {
  }

  lemma KeptUnicode(cfg: Config, s: Text, t: Tok, loc: Local)
    requires s != [] && Inv(cfg, t) && t.top.state == EscapeUnicode
    ensures Kept(cfg, s, t, StepUnicode(s, t, loc))
  {
  }

  lemma KeptArray(cfg: Config, s: Text, t: Tok, loc: Local)
    requires s != [] && Inv(cfg, t) && (t.top.state == Array || t.top.state == ArrayAfterSep)
    ensures Kept(cfg, s, t, StepArray(cfg, s[0], t, loc))
  {
  }

  lemma KeptArrayAdd(cfg: Config, s: Text, t: Tok, loc: Local)
    requires s != [] && Inv(cfg, t) && t.top.state == ArrayAdd
    ensures Kept(cfg, s, t, StepArrayAdd(t, loc))
  {
  }

  lemma KeptArraySep(cfg: Config, s: Text, t: Tok, loc: Local)
    requires s != [] && Inv(cfg, t) && t.top.state == ArraySep
    ensures Kept(cfg, s, t, StepSep(s[0], RBRACKET, ArrayAfterSep, ErrArray, t, loc))
  {
  }

  lemma KeptFieldStart(cfg: Config, s: Text, t: Tok, loc: Local)
    requires s != [] && Inv(cfg, t) && (t.top.state == FieldStart || t.top.state == FieldStartAfterSep)
    ensures Kept(cfg, s, t, StepFieldStart(cfg, s[0], t, loc))
  {
  }

  lemma KeptFieldEnd(cfg: Config, s: Text, t: Tok, loc: Local)
    requires s != [] && Inv(cfg, t) && t.top.state == FieldEnd
    ensures Kept(cfg, s, t, StepFieldEnd(s[0], t, loc))
  {
  }

  lemma KeptObjectValue(cfg: Config, s: Text, t: Tok, loc: Local)
    requires s != [] && Inv(cfg, t) && t.top.state == ObjectValue
    ensures Kept(cfg, s, t, StepObjectValue(cfg, t, loc))
  {
  }

  lemma KeptObjectAdd(cfg: Config, s: Text, t: Tok, loc: Local)
    requires s != [] && Inv(cfg, t) && t.top.state == ObjectValueAdd
    ensures Kept(cfg, s, t, StepObjectAdd(t, loc))
  {
  }

  lemma KeptObjectSep(cfg: Config, s: Text, t: Tok, loc: Local)
    requires s != [] && Inv(cfg, t) && t.top.state == ObjectSep
    ensures Kept(cfg, s, t, StepSep(s[0], RBRACE, FieldStartAfterSep, ErrValueSep, t, loc))
  {
  }

  predicate InContainer(s: State) {
    match s
    case Array | ArrayAfterSep | ArrayAdd | ArraySep | FieldStart | FieldStartAfterSep => true
    case FieldEnd | ObjectValue | ObjectValueAdd | ObjectSep => true
    case _ => false
  }

  lemma KeptContainer(cfg: Config, s: Text, t: Tok, loc: Local)
    requires s != [] && Inv(cfg, t) && InContainer(t.top.state)
    ensures Kept(cfg, s, t, Step(cfg, s, t, loc))
  {
    match t.top.state
    case Array => KeptArray(cfg, s, t, loc);
    case ArrayAfterSep => KeptArray(cfg, s, t, loc);
    case ArrayAdd => KeptArrayAdd(cfg, s, t, loc);
    case ArraySep => KeptArraySep(cfg, s, t, loc);
    case FieldStart => KeptFieldStart(cfg, s, t, loc);
    case FieldStartAfterSep => KeptFieldStart(cfg, s, t, loc);
    case FieldEnd => KeptFieldEnd(cfg, s, t, loc);
    case ObjectValue => KeptObjectValue(cfg, s, t, loc);
    case ObjectValueAdd => KeptObjectAdd(cfg, s, t, loc);
    case ObjectSep => KeptObjectSep(cfg, s, t, loc);
  }

  /**
   Every step keeps the stack invariant, and one that consumes nothing lowers the rank: redo_char
   cannot cycle.
   */
  lemma StepKeeps(cfg: Config, s: Text, t: Tok, loc: Local)
    requires s != [] && Inv(cfg, t)
    ensures Kept(cfg, s, t, Step(cfg, s, t, loc))
    ensures Rank(t.top) <= MAX_RANK
  {
    if InContainer(t.top.state) {
      KeptContainer(cfg, s, t, loc);
      return;
    }
    match t.top.state
    case Eatws => KeptEatws(cfg, s, t, loc);
    case Start => KeptStart(cfg, s, t, loc);
    case Finish => KeptFinish(cfg, s, t, loc);
    case CommentStart => KeptCommentStart(cfg, s, t, loc);
    case Comment => KeptCommentBody(cfg, s, t, loc);
    case CommentEol => KeptCommentEol(cfg, s, t, loc);
    case CommentEnd => KeptCommentEnd(cfg, s, t, loc);
    case InfinityWord => KeptInfinity(cfg, s, t, loc);
    case NullWord => KeptNull(cfg, s, t, loc);
    case BooleanWord => KeptBoolean(cfg, s, t, loc);
    case Number => KeptNumber(cfg, s, t, loc);
    case InString => KeptString(cfg, s, t, loc);
    case InField => KeptField(cfg, s, t, loc);
    case StringEscape => KeptEscape(cfg, s, t, loc);
    case EscapeUnicode => KeptUnicode(cfg, s, t, loc);
  }

  // ---------------------------------------------------------------- runs

  /** The code after the label `out`, for the last byte looked at. */
  function Final(cfg: Config, c: byte, t: Tok, e: Error, left: nat): Outcome {
    var e1 := if c != NUL && t.top.state == Finish && t.below == [] && cfg.strict then ErrUnexpected else e;
    var e2 := if c == NUL && t.top.state != Finish && t.top.saved != Finish then ErrEof else e1;
    if e2 == NoError then Done(t, left) else Failed(e2, left)
  }

  /** PEEK_CHAR at the end of the input. */
  function AtEnd(t: Tok): Outcome {
    if t.below == [] && t.top.state == Eatws && t.top.saved == Finish then Done(t, 0) else More(t)
  }

  /** A NUL among the digits of an escape is passed, because strchr finds it in its list of digits. */
  function Passed(c: byte, t: Tok): nat {
    if c == NUL && t.top.state == EscapeUnicode then 1 else 0
  }

  /** The main loop on the rest of the input. A NUL that is consumed ends it. */
  function Run(cfg: Config, s: Text, t: Tok, loc: Local): Outcome
    requires Inv(cfg, t)
    decreases |s|, Rank(t.top)
  {
    if s == [] then AtEnd(t)
    else
      StepKeeps(cfg, s, t, loc);
      match Step(cfg, s, t, loc)
      case Out(u, e) => Final(cfg, s[0], u, e, |s| - Passed(s[0], t))
      case Go(n, u, loc') =>
        if n > 0 && s[0] == NUL then Final(cfg, NUL, u, NoError, |s| - n) else Run(cfg, s[n..], u, loc')
  }

  /** One call of json_tokener_parse_ex: the locals start afresh. */
  function Call(cfg: Config, s: Text, t: Tok): Outcome
    requires Inv(cfg, t)
  {
    Run(cfg, s, t, NO_LOCALS)
  }

  /** How many dispatches a run takes. */
  function Dispatches(cfg: Config, s: Text, t: Tok, loc: Local): nat
    requires Inv(cfg, t)
    decreases |s|, Rank(t.top)
  {
    if s == [] then 0
    else
      StepKeeps(cfg, s, t, loc);
      match Step(cfg, s, t, loc)
      case Out(_, _) => 1
      case Go(n, u, loc') => 1 + if n > 0 && s[0] == NUL then 0 else Dispatches(cfg, s[n..], u, loc')
  }

  /** The work of one call is linear: at most MAX_RANK + 1 dispatches for a byte. */
  lemma {:induction false} DispatchBound(cfg: Config, s: Text, t: Tok, loc: Local)
    requires Inv(cfg, t)
    ensures s == [] ==> Dispatches(cfg, s, t, loc) == 0
    ensures s != [] ==> Dispatches(cfg, s, t, loc) <= (MAX_RANK + 1) * (|s| - 1) + Rank(t.top) + 1
    ensures Dispatches(cfg, s, t, loc) <= (MAX_RANK + 1) * |s|
    decreases |s|, Rank(t.top)
  {
    if s == [] {
    } else {
      StepKeeps(cfg, s, t, loc);
      match Step(cfg, s, t, loc)
      case Out(_, _) =>
      case Go(n, u, loc') =>
        DispatchBound(cfg, s[n..], u, loc');
        if |s| > n {
          StepKeeps(cfg, s[n..], u, loc');
        }
    }
  }

  /** A call that waits for more leaves a tokener that keeps the invariant. */
  lemma {:induction false} RunKeeps(cfg: Config, s: Text, t: Tok, loc: Local)
    requires Inv(cfg, t)
    ensures match Run(cfg, s, t, loc)
            case More(u) => Inv(cfg, u)
            case Done(u, left) => Inv(cfg, u) && left <= |s|
            case Failed(e, left) => e != NoError && left <= |s|
    decreases |s|, Rank(t.top)
  {
    if s == [] {
    } else {
      StepKeeps(cfg, s, t, loc);
      match Step(cfg, s, t, loc)
      case Out(_, _) =>
      case Go(n, u, loc') =>
        if !(n > 0 && s[0] == NUL) {
          RunKeeps(cfg, s[n..], u, loc');
        }
    }
  }

  /** A step passes over bytes that are not NUL, except for the first one. */
  lemma StepOverNul(cfg: Config, s: Text, t: Tok, loc: Local)
    requires s != [] && Inv(cfg, t)
    ensures match Step(cfg, s, t, loc)
            case Go(n, _, _) => n <= 1 || (n == 3 && |s| >= 3 && s[1] != NUL && s[2] != NUL)
            case Out(_, _) => true
  {
  }

  /** Input that ends in a NUL, as with len == -1, never leaves the tokener waiting. */
  lemma {:induction false} NulStops(cfg: Config, s: Text, t: Tok, loc: Local)
    requires Inv(cfg, t) && s != [] && s[|s| - 1] == NUL
    ensures !Run(cfg, s, t, loc).More?
    decreases |s|, Rank(t.top)
  {
    hide Step;
    StepKeeps(cfg, s, t, loc);
    StepOverNul(cfg, s, t, loc);
    match Step(cfg, s, t, loc)
    case Out(_, _) =>
    case Go(n, u, loc') =>
      if !(n > 0 && s[0] == NUL) {
        NulStops(cfg, s[n..], u, loc');
      }
  }
}

/** The steps of the machine by kinds of states, each with what the stack invariant says about it. */
module Steps {
  import opened Bytes
  import opened Machine
  import opened Reference
  import opened Unicode

  predicate InText(s: State) {
    s == InString || s == InField || s == StringEscape
  }

  predicate IsAdd(s: State) {
    s == ArrayAdd || s == ObjectValueAdd
  }

  /** The steps in a gap. */
  function StepGap(cfg: Config, c: byte, t: Tok, loc: Local): Move
    requires Skipping(t.top.state)
  {
    match t.top.state
    case Eatws => StepEatws(cfg, c, t, loc)
    case CommentStart => StepCommentStart(c, t, loc)
    case Comment => StepCommentBody(c, t, loc)
    case CommentEol => StepCommentEol(c, t, loc)
    case CommentEnd => StepCommentEnd(c, t, loc)
  }

  /** The steps in a string or a field name, outside of unicode escapes. */
  function StepText(c: byte, t: Tok, loc: Local): Move
    requires InText(t.top.state)
  {
    match t.top.state
    case InString => StepString(c, t, loc)
    case InField => StepField(c, t, loc)
    case StringEscape => StepEscape(c, t, loc)
  }

  function StepWord(cfg: Config, c: byte, t: Tok, loc: Local): Move
    requires InWord(t.top.state)
  {
    match t.top.state
    case NullWord => StepNull(cfg, c, t, loc)
    case BooleanWord => StepBoolean(cfg, c, t, loc)
    case InfinityWord => StepInfinity(cfg, c, t, loc)
  }

  /** The steps between the values of an array or an object. */
  function StepContainer(cfg: Config, c: byte, t: Tok, loc: Local): Move
    requires InContainer(t.top.state) && TopOk(t.top)
  {
    match t.top.state
    case Array | ArrayAfterSep => StepArray(cfg, c, t, loc)
    case ArrayAdd => StepArrayAdd(t, loc)
    case ArraySep => StepSep(c, RBRACKET, ArrayAfterSep, ErrArray, t, loc)
    case FieldStart | FieldStartAfterSep => StepFieldStart(cfg, c, t, loc)
    case FieldEnd => StepFieldEnd(c, t, loc)
    case ObjectValue => StepObjectValue(cfg, t, loc)
    case ObjectValueAdd => StepObjectAdd(t, loc)
    case ObjectSep => StepSep(c, RBRACE, FieldStartAfterSep, ErrValueSep, t, loc)
  }

  lemma GapIs(cfg: Config, s: Text, t: Tok, loc: Local)
    requires s != [] && Inv(cfg, t) && Skipping(t.top.state)
    ensures Step(cfg, s, t, loc) == StepGap(cfg, s[0], t, loc)
  {
    hide StepEatws, StepCommentStart, StepCommentBody, StepCommentEol, StepCommentEnd;
  }

  /** What comes after a gap. */
  lemma AfterGap(cfg: Config, t: Tok)
    requires Inv(cfg, t) && Skipping(t.top.state)
    ensures var saved := t.top.saved;
            !InText(saved) && saved != EscapeUnicode && saved != Number && !IsAdd(saved) && !Skipping(saved)
            && !InWord(saved)
  {
  }

  lemma TextIs(cfg: Config, s: Text, t: Tok, loc: Local)
    requires s != [] && Inv(cfg, t) && InText(t.top.state)
    ensures Step(cfg, s, t, loc) == StepText(s[0], t, loc)
    ensures t.top.state == StringEscape ==> t.top.saved == InString || t.top.saved == InField
  {
    hide StepString, StepField, StepEscape;
  }

  lemma WordIs(cfg: Config, s: Text, t: Tok, loc: Local)
    requires s != [] && Inv(cfg, t) && InWord(t.top.state)
    ensures Step(cfg, s, t, loc) == StepWord(cfg, s[0], t, loc)
  {
    hide StepNull, StepBoolean, StepInfinity;
  }

  lemma ContainerIs(cfg: Config, s: Text, t: Tok, loc: Local)
    requires s != [] && Inv(cfg, t) && InContainer(t.top.state)
    ensures TopOk(t.top) && Step(cfg, s, t, loc) == StepContainer(cfg, s[0], t, loc)
  {
    hide StepArray, StepArrayAdd, StepSep, StepFieldStart, StepFieldEnd, StepObjectValue, StepObjectAdd;
  }

  lemma StartIs(cfg: Config, s: Text, t: Tok, loc: Local)
    requires s != [] && Inv(cfg, t) && t.top.state == Start
    ensures Step(cfg, s, t, loc) == StepStart(cfg, s[0], t, loc)
  {
    hide StepStart;
  }

  lemma FinishIs(cfg: Config, s: Text, t: Tok, loc: Local)
    requires s != [] && Inv(cfg, t) && t.top.state == Finish
    ensures Step(cfg, s, t, loc) == StepFinish(t, loc)
    ensures t.below != [] ==> IsAdd(t.below[|t.below| - 1].state)
  {
    hide StepFinish;
  }

  lemma NumberIs(cfg: Config, s: Text, t: Tok, loc: Local)
    requires s != [] && Inv(cfg, t) && t.top.state == Number
    ensures Step(cfg, s, t, loc) == StepNumber(cfg, s[0], t, loc)
  {
    hide StepNumber;
  }

  lemma UnicodeIs(cfg: Config, s: Text, t: Tok, loc: Local)
    requires s != [] && Inv(cfg, t) && t.top.state == EscapeUnicode
    ensures Step(cfg, s, t, loc) == StepUnicode(s, t, loc)
    ensures t.top.saved == InString || t.top.saved == InField
  {
    hide StepUnicode;
  }

  /** The step at one digit of an escape that is not the fourth. */
  lemma DigitStep(s: Text, t: Tok, loc: Local)
    requires t.top.state == EscapeUnicode && t.stPos != 3 && s != [] && IsHex(s[0])
    ensures StepUnicode(s, t, loc)
            == Go(1, t.(ucs := t.ucs + Shift(HexValue(s[0]), 3 - t.stPos), stPos := t.stPos + 1,
                        pb := t.pb + if |s| == 1 && loc.hi != 0 then REPLACEMENT else []), loc)
  {
    hide StepFourth, HexValue, Shift;
  }
}

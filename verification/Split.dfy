/**
 The continue contract: a text given to json_tokener_parse_ex in pieces, one call after the other,
 is read as in one call, unless a cut falls where the locals of the call matter.
 */
module Split {
  import opened Bytes
  import opened Json
  import opened Unicode
  import opened Machine
  import opened Reference
  import opened Steps

  // ---------------------------------------------------------------- where a cut is not safe

  /** The byte is the last digit of a high half with another unicode escape right after it. */
  predicate HoldsHigh(s: Text, t: Tok, loc: Local) {
    && |s| >= 3 && t.top.state == EscapeUnicode && t.stPos == 3 && IsHex(s[0])
    && s[1] == BACKSLASH && s[2] == LOWER_U
    && var code := Combine(loc.hi, t.ucs + HexValue(s[0])).0; code >= 0x800 && IsHigh(code)
  }

  /** The digits from `place` on are there, and they finish the code of a low half. */
  predicate LowFollows(s: Text, ucs: nat, place: nat)
    decreases |s|
  {
    && s != [] && place < 4 && IsHex(s[0])
    && var uc := ucs + Shift(HexValue(s[0]), 3 - place);
       if place == 3 then IsLow(uc) else LowFollows(s[1..], uc, place + 1)
  }

  /** The bytes of the number are followed by the start of "Infinity". */
  predicate InfinityNext(s: Text) {
    var n := NumberLength(s); n < |s| && (s[n] == LOWER_I || s[n] == UPPER_I)
  }

  /** The test for "-Infinity" comes out differently when the count of bytes starts again. */
  predicate CountsAgain(s: Text, t: Tok, loc: Local) {
    && t.top.state == Number && t.pb != [] && t.pb[0] == MINUS && InfinityNext(s)
    && (loc.caseLen + NumberLength(s) == 1) != (NumberLength(s) == 1)
  }

  /** And that shows: it does not if strict mode refuses the "i" in any case, because the number is a
      whole value at depth 0. */
  predicate CutsMinus(cfg: Config, s: Text, t: Tok, loc: Local) {
    && CountsAgain(s, t, loc)
    && var digits := s[..NumberLength(s)];
       cfg.strict && t.below == [] ==> NumberValue(cfg, t.pb + digits, t.isDouble || HasPoint(digits)) == None
  }

  /**
   A cut k bytes after the start of the last digit of a high half that another escape follows. The
   text of that escape begins at s[3]. One call puts a pair together, where two calls do not. After
   the prefix of the escape the second call has lost the count of digits. A text that ends there or
   within the digits leaves another tokener waiting.
   */
  predicate SplitsPair(s: Text, k: nat)
    requires |s| >= 3
  {
    var rest := s[3..];
    k <= 6 && if k == 3 then var n := HexCount(rest); n > 0 && (n == 4 || n == |rest|)
              else rest == [] || LowFollows(rest, 0, 0)
  }

  /**
   A cut after k bytes of `s` falls inside a surrogate pair that one call would put together, or
   right after the prefix of the escape that follows a high half, or behind the start of a negative
   number that "i" follows.
   */
  predicate BadCut(cfg: Config, s: Text, t: Tok, loc: Local, k: nat)
    requires Inv(cfg, t) && k <= |s|
    decreases |s|, Rank(t.top)
  {
    if k == 0 then CutsMinus(cfg, s, t, loc)
    else
      StepKeeps(cfg, s, t, loc);
      || (HoldsHigh(s, t, loc) && SplitsPair(s, k))
      || match Step(cfg, s, t, loc)
         case Out(_, _) => false
         case Go(n, u, loc') => n <= k && !(n > 0 && s[0] == NUL) && BadCut(cfg, s[n..], u, loc', k - n)
  }

  // ---------------------------------------------------------------- locals that do not matter

  /** The two sets of locals lead to the same run. */
  predicate Agree(s: Text, t: Tok, l1: Local, l2: Local) {
    && (t.top.state == EscapeUnicode ==> l1.hi == l2.hi)
    && (t.top.state == ArrayAdd || t.top.state == ObjectValueAdd ==> l1.obj == l2.obj)
    && (t.top.state == Number && t.pb == [] ==> l1.caseLen == l2.caseLen)
    && (t.top.state == Number && t.pb != [] && t.pb[0] == MINUS && InfinityNext(s)
        ==> (l1.caseLen + NumberLength(s) == 1) == (l2.caseLen + NumberLength(s) == 1))
  }

  predicate SameMove(s: Text, m1: Move, m2: Move) {
    match (m1, m2)
    case (Out(u1, e1), Out(u2, e2)) => u1 == u2 && e1 == e2
    case (Go(n1, u1, l1), Go(n2, u2, l2)) => n1 == n2 && u1 == u2 && n1 <= |s| && Agree(s[n1..], u1, l1, l2)
    case _ => false
  }

  lemma AgreeNumber(cfg: Config, s: Text, t: Tok, l1: Local, l2: Local)
    requires s != [] && Inv(cfg, t) && t.top.state == Number && Agree(s, t, l1, l2)
    ensures SameMove(s, Step(cfg, s, t, l1), Step(cfg, s, t, l2))
  {
    hide Step, Inv, NumberValue;
    NumberIs(cfg, s, t, l1);
    NumberIs(cfg, s, t, l2);
  }

  lemma AgreeUnicode(cfg: Config, s: Text, t: Tok, l1: Local, l2: Local)
    requires s != [] && Inv(cfg, t) && t.top.state == EscapeUnicode && l1.hi == l2.hi
    ensures SameMove(s, Step(cfg, s, t, l1), Step(cfg, s, t, l2))
  {
    hide Step, Inv, NumberLength, InfinityNext, HexValue, Shift, Append, Combine, IsHigh, IsHex;
    UnicodeIs(cfg, s, t, l1);
    UnicodeIs(cfg, s, t, l2);
  }

  lemma AgreeText(cfg: Config, s: Text, t: Tok, l1: Local, l2: Local)
    requires s != [] && Inv(cfg, t) && InText(t.top.state)
    ensures SameMove(s, Step(cfg, s, t, l1), Step(cfg, s, t, l2))
  {
    hide Step, Inv, NumberLength, InfinityNext, CString, Unescape;
    TextIs(cfg, s, t, l1);
    TextIs(cfg, s, t, l2);
  }

  lemma AgreeWord(cfg: Config, s: Text, t: Tok, l1: Local, l2: Local)
    requires s != [] && Inv(cfg, t) && InWord(t.top.state)
    ensures SameMove(s, Step(cfg, s, t, l1), Step(cfg, s, t, l2))
  {
    hide Step, Inv, NumberLength, InfinityNext, SamePrefix;
    WordIs(cfg, s, t, l1);
    WordIs(cfg, s, t, l2);
  }

  lemma AgreeGap(cfg: Config, s: Text, t: Tok, l1: Local, l2: Local)
    requires s != [] && Inv(cfg, t) && Skipping(t.top.state)
    ensures SameMove(s, Step(cfg, s, t, l1), Step(cfg, s, t, l2))
  {
    hide Step, Inv, TopOk, NumberLength, InfinityNext;
    GapIs(cfg, s, t, l1);
    GapIs(cfg, s, t, l2);
    AfterGap(cfg, t);
  }

  lemma AgreeStart(cfg: Config, s: Text, t: Tok, l1: Local, l2: Local)
    requires s != [] && Inv(cfg, t) && t.top.state == Start
    ensures SameMove(s, Step(cfg, s, t, l1), Step(cfg, s, t, l2))
  {
    hide Step, Inv, NumberLength, InfinityNext;
    StartIs(cfg, s, t, l1);
    StartIs(cfg, s, t, l2);
  }

  lemma AgreeFinish(cfg: Config, s: Text, t: Tok, l1: Local, l2: Local)
    requires s != [] && Inv(cfg, t) && t.top.state == Finish
    ensures SameMove(s, Step(cfg, s, t, l1), Step(cfg, s, t, l2))
  {
    hide Step, Inv, NumberLength, InfinityNext;
    FinishIs(cfg, s, t, l1);
    FinishIs(cfg, s, t, l2);
  }

  lemma AgreeContainer(cfg: Config, s: Text, t: Tok, l1: Local, l2: Local)
    requires s != [] && Inv(cfg, t) && Agree(s, t, l1, l2) && InContainer(t.top.state)
    ensures SameMove(s, Step(cfg, s, t, l1), Step(cfg, s, t, l2))
  {
    hide Step, Inv, TopOk, NumberLength, InfinityNext, ObjectAdd;
    ContainerIs(cfg, s, t, l1);
    ContainerIs(cfg, s, t, l2);
  }

  lemma AgreeStep(cfg: Config, s: Text, t: Tok, l1: Local, l2: Local)
    requires s != [] && Inv(cfg, t) && Agree(s, t, l1, l2)
    ensures SameMove(s, Step(cfg, s, t, l1), Step(cfg, s, t, l2))
  {
    hide SameMove, Step;
    if t.top.state == Number {
      AgreeNumber(cfg, s, t, l1, l2);
    } else if t.top.state == EscapeUnicode {
      AgreeUnicode(cfg, s, t, l1, l2);
    } else if InContainer(t.top.state) {
      AgreeContainer(cfg, s, t, l1, l2);
    } else if InWord(t.top.state) {
      AgreeWord(cfg, s, t, l1, l2);
    } else if InText(t.top.state) {
      AgreeText(cfg, s, t, l1, l2);
    } else if Skipping(t.top.state) {
      AgreeGap(cfg, s, t, l1, l2);
    } else if t.top.state == Start {
      AgreeStart(cfg, s, t, l1, l2);
    } else {
      AgreeFinish(cfg, s, t, l1, l2);
    }
  }

  lemma {:induction false} RunAgrees(cfg: Config, s: Text, t: Tok, l1: Local, l2: Local)
    requires Inv(cfg, t) && Agree(s, t, l1, l2)
    ensures Run(cfg, s, t, l1) == Run(cfg, s, t, l2)
    decreases |s|, Rank(t.top)
  {
    if s == [] {
    } else {
      hide Step, Inv, Agree, Final, Rank;
      StepKeeps(cfg, s, t, l1);
      AgreeStep(cfg, s, t, l1, l2);
      match Step(cfg, s, t, l1)
      case Out(_, _) =>
      case Go(n, u, l) =>
        if !(n > 0 && s[0] == NUL) {
          RunAgrees(cfg, s[n..], u, l, Step(cfg, s, t, l2).loc);
        }
    }
  }

  // ---------------------------------------------------------------- steps on a prefix

  predicate NumberChars(s: Text) {
    forall i :: 0 <= i < |s| ==> IsNumberChar(s[i])
  }

  /** What holds in every run of a tokener from json_tokener_new: a half is kept back only while the
      next escape is read, a string or a name ends at a quote, and a number is made of its bytes. */
  predicate Sound(t: Tok, loc: Local) {
    && (loc.hi != 0 ==> t.top.state == EscapeUnicode && t.stPos < 4)
    && (t.top.state == Number ==> NumberChars(t.pb) && t.isDouble == HasPoint(t.pb))
    && (InText(t.top.state) || t.top.state == EscapeUnicode ==> t.quote == QUOTE || t.quote == APOSTROPHE)
  }

  /** No local matters: what holds after a byte was consumed, apart from a half kept back. */
  predicate Consumed(t: Tok) {
    && t.top.state != ArrayAdd && t.top.state != ObjectValueAdd
    && (t.top.state == Number ==> t.pb != [])
  }

  /** What a step keeps. One that reads a byte and leaves a number begun has read one of its bytes. */
  predicate SoundMove(s: Text, t: Tok, m: Move)
    requires s != []
  {
    match m
    case Out(_, _) => true
    case Go(n, u, loc) =>
      && Sound(u, loc) && (t.top.state != EscapeUnicode ==> loc.hi == 0)
      && (n > 0 ==> Consumed(u) && (u.top.state == Number ==> n == 1 && IsNumberChar(s[0])))
  }

  lemma SoundContainer(cfg: Config, s: Text, t: Tok, loc: Local)
    requires s != [] && Inv(cfg, t) && Sound(t, loc) && InContainer(t.top.state)
    ensures SoundMove(s, t, Step(cfg, s, t, loc))
  {
    hide Step, Inv, TopOk, ObjectAdd, HasPoint, NumberChars;
    ContainerIs(cfg, s, t, loc);
  }

  lemma SoundWord(cfg: Config, s: Text, t: Tok, loc: Local)
    requires s != [] && Inv(cfg, t) && Sound(t, loc) && InWord(t.top.state)
    ensures SoundMove(s, t, Step(cfg, s, t, loc))
  {
    hide Step, Inv, NumberChars, HasPoint;
    WordMoves(cfg, s, t, loc);
  }

  /** A word goes on, is complete, or fails. */
  lemma WordMoves(cfg: Config, s: Text, t: Tok, loc: Local)
    requires s != [] && Inv(cfg, t) && InWord(t.top.state)
    ensures match Step(cfg, s, t, loc)
            case Go(n, u, l) => l == loc && u.top.state == if n > 0 then t.top.state else Eatws
            case Out(_, e) => e != NoError
  {
    hide Step, Inv, SamePrefix;
    WordIs(cfg, s, t, loc);
  }

  lemma SoundText(cfg: Config, s: Text, t: Tok, loc: Local)
    requires s != [] && Inv(cfg, t) && Sound(t, loc) && InText(t.top.state)
    ensures SoundMove(s, t, Step(cfg, s, t, loc))
  {
    hide Step, Inv, CString, Unescape, HasPoint, NumberChars;
    TextIs(cfg, s, t, loc);
  }

  lemma SoundUnicode(cfg: Config, s: Text, t: Tok, loc: Local)
    requires s != [] && Inv(cfg, t) && Sound(t, loc) && t.top.state == EscapeUnicode
    ensures SoundMove(s, t, Step(cfg, s, t, loc))
  {
    hide Step, Inv, Append, Combine, HexValue, IsHigh, Shift, IsHex, HasPoint, NumberChars;
    UnicodeIs(cfg, s, t, loc);
  }

  lemma SoundNumber(cfg: Config, s: Text, t: Tok, loc: Local)
    requires s != [] && Inv(cfg, t) && Sound(t, loc) && t.top.state == Number
    ensures SoundMove(s, t, Step(cfg, s, t, loc))
  {
    hide Step, Inv, NumberValue, HasPoint;
    NumberIs(cfg, s, t, loc);
    HasPointSnoc(t.pb, s[0]);
  }

  lemma NoPoint()
    ensures !HasPoint([])
  {
  }

  lemma SoundGap(cfg: Config, s: Text, t: Tok, loc: Local)
    requires s != [] && Inv(cfg, t) && Sound(t, loc) && Skipping(t.top.state)
    ensures SoundMove(s, t, Step(cfg, s, t, loc))
  {
    hide Step, Inv, TopOk, HasPoint, NumberChars;
    GapIs(cfg, s, t, loc);
    AfterGap(cfg, t);
  }

  lemma SoundStart(cfg: Config, s: Text, t: Tok, loc: Local)
    requires s != [] && Inv(cfg, t) && Sound(t, loc) && t.top.state == Start
    ensures SoundMove(s, t, Step(cfg, s, t, loc))
  {
    hide Step, Inv, HasPoint;
    NoPoint();
    StartIs(cfg, s, t, loc);
  }

  lemma SoundFinish(cfg: Config, s: Text, t: Tok, loc: Local)
    requires s != [] && Inv(cfg, t) && Sound(t, loc) && t.top.state == Finish
    ensures SoundMove(s, t, Step(cfg, s, t, loc))
  {
    hide Step, Inv, HasPoint, NumberChars;
    FinishIs(cfg, s, t, loc);
  }

  lemma SoundStep(cfg: Config, s: Text, t: Tok, loc: Local)
    requires s != [] && Inv(cfg, t) && Sound(t, loc)
    ensures SoundMove(s, t, Step(cfg, s, t, loc))
  {
    hide SoundMove, Step;
    if InContainer(t.top.state) {
      SoundContainer(cfg, s, t, loc);
    } else if InWord(t.top.state) {
      SoundWord(cfg, s, t, loc);
    } else if InText(t.top.state) {
      SoundText(cfg, s, t, loc);
    } else if t.top.state == EscapeUnicode {
      SoundUnicode(cfg, s, t, loc);
    } else if t.top.state == Number {
      SoundNumber(cfg, s, t, loc);
    } else if Skipping(t.top.state) {
      SoundGap(cfg, s, t, loc);
    } else if t.top.state == Start {
      SoundStart(cfg, s, t, loc);
    } else {
      SoundFinish(cfg, s, t, loc);
    }
  }

  /** Outside an escape a step looks at one byte only. */
  lemma StepPrefix(cfg: Config, a: Text, b: Text, t: Tok, loc: Local)
    requires a != [] && Inv(cfg, t) && t.top.state != EscapeUnicode
    ensures Step(cfg, a + b, t, loc) == Step(cfg, a, t, loc)
  {
    assert (a + b)[0] == a[0];
  }

  /** Inside one, the last digit looks at two bytes more, and a pending half at the end of the input. */
  lemma UnicodePrefix(a: Text, b: Text, t: Tok, loc: Local)
    requires a != [] && t.top.state == EscapeUnicode
    requires t.stPos != 3 ==> |a| > 1 || loc.hi == 0
    requires t.stPos == 3 ==> |a| > 3 || !HoldsHigh(a + b, t, loc)
    ensures StepUnicode(a + b, t, loc) == StepUnicode(a, t, loc)
  {
    var s := a + b;
    assert s[0] == a[0];
    assert |a| > 1 ==> s[1] == a[1];
    assert |a| > 2 ==> s[2] == a[2];
  }

  // ---------------------------------------------------------------- a half kept back over a cut

  /** One step in an escape with the half kept, and one with the replacement appended instead. */
  lemma KeptLast(s: Text, t: Tok, loc: Local)
    requires t.top.state == EscapeUnicode && t.stPos == 3 && s != [] && loc.hi != 0
    requires IsHex(s[0]) && !LowFollows(s, t.ucs, 3)
    ensures StepUnicode(s, t, loc) == StepUnicode(s, t.(pb := t.pb + REPLACEMENT), loc.(hi := 0))
  {
    hide Append, DecodePair, IsHigh, IsLow, HexValue, Shift;
    assert t.pb + REPLACEMENT + [] == t.pb + REPLACEMENT;
  }

  lemma KeptDigit(s: Text, t: Tok, loc: Local)
    requires t.top.state == EscapeUnicode && t.stPos < 3 && s != [] && loc.hi != 0
    requires IsHex(s[0]) && !LowFollows(s, t.ucs, t.stPos)
    ensures var m := StepUnicode(s, t, loc);
            var m2 := StepUnicode(s, t.(pb := t.pb + REPLACEMENT), loc.(hi := 0));
            && m.Go? && m.n == 1 && m.tok.top == t.top && m.tok.stPos == t.stPos + 1
            && if |s| == 1 then m2 == Go(1, m.tok, loc.(hi := 0))
               else m.loc == loc && !LowFollows(s[1..], m.tok.ucs, m.tok.stPos)
                    && m2 == Go(1, m.tok.(pb := m.tok.pb + REPLACEMENT), loc.(hi := 0))
  {
    hide StepUnicode, HexValue, Shift, IsLow;
    assert t.pb + [] == t.pb && t.pb + REPLACEMENT + [] == t.pb + REPLACEMENT;
    DigitStep(s, t, loc);
    DigitStep(s, t.(pb := t.pb + REPLACEMENT), loc.(hi := 0));
  }

  /**
   A kept half that no low half follows is replaced in the end: it makes no difference whether the
   replacement is appended at once, with nothing kept, or later.
   */
  lemma {:induction false} KeptHalf(cfg: Config, s: Text, t: Tok, loc: Local)
    requires Inv(cfg, t) && t.top.state == EscapeUnicode && t.stPos < 4
    requires s != [] && loc.hi != 0 && !LowFollows(s, t.ucs, t.stPos)
    ensures Run(cfg, s, t, loc) == Run(cfg, s, t.(pb := t.pb + REPLACEMENT), loc.(hi := 0))
    decreases |s|
  {
    var t2, l2 := t.(pb := t.pb + REPLACEMENT), loc.(hi := 0);
    StepKeeps(cfg, s, t, loc);
    StepKeeps(cfg, s, t2, l2);
    assert Step(cfg, s, t, loc) == StepUnicode(s, t, loc);
    assert Step(cfg, s, t2, l2) == StepUnicode(s, t2, l2);
    assert t.top.saved == InString || t.top.saved == InField;
    if IsHex(s[0]) {
      hide Step, Inv, StepUnicode, LowFollows;
      if t.stPos == 3 {
        KeptLast(s, t, loc);
      } else {
        KeptDigit(s, t, loc);
        if |s| == 1 {
          assert s[1..] == [];
        } else {
          KeptHalf(cfg, s[1..], StepUnicode(s, t, loc).tok, loc);
        }
      }
    } else {
      hide StepFourth, Inv, LowFollows, Step;
    }
  }

  /** The two bytes that open a unicode escape, read in a string or a field name. */
  lemma EscapeOpens(cfg: Config, s: Text, t: Tok, loc: Local)
    requires Inv(cfg, t) && t.quote != BACKSLASH && (t.top.state == InString || t.top.state == InField)
    requires |s| >= 2 && s[0] == BACKSLASH && s[1] == LOWER_U
    ensures var mid := t.(top := t.top.(state := StringEscape, saved := t.top.state));
            && Inv(cfg, mid)
            && Run(cfg, s, t, loc) == Run(cfg, s[1..], mid, loc)
            && Run(cfg, [BACKSLASH], t, loc) == More(mid)
  {
    StepKeeps(cfg, s, t, loc);
    StepKeeps(cfg, [BACKSLASH], t, loc);
  }

  lemma EscapeBegins(cfg: Config, s: Text, t: Tok, loc: Local)
    requires Inv(cfg, t) && t.top.state == StringEscape && s != [] && s[0] == LOWER_U
    ensures var u := In(t, EscapeUnicode).(ucs := 0, stPos := 0);
            Inv(cfg, u) && Run(cfg, s, t, loc) == Run(cfg, s[1..], u, loc.(hi := 0))
  {
    StepKeeps(cfg, s, t, loc);
  }

  /** A step in an escape that is not an exit, seen from the run. */
  lemma UnicodeRuns(cfg: Config, s: Text, t: Tok, loc: Local)
    requires Inv(cfg, t) && t.top.state == EscapeUnicode && s != [] && IsHex(s[0])
    ensures var m := StepUnicode(s, t, loc);
            m.Go? && m.n <= |s| && Inv(cfg, m.tok) && Run(cfg, s, t, loc) == Run(cfg, s[m.n..], m.tok, m.loc)
  {
    StepKeeps(cfg, s, t, loc);
    assert Step(cfg, s, t, loc) == StepUnicode(s, t, loc);
    assert StepUnicode(s, t, loc).Go?;
    hide Step, Inv, StepUnicode;
  }

  function HighCode(c: byte, t: Tok, loc: Local): (nat, Text)
    requires IsHex(c)
  {
    Combine(loc.hi, t.ucs + HexValue(c))
  }

  lemma HoldMove(s: Text, t: Tok, loc: Local)
    requires HoldsHigh(s, t, loc) && |s| > 3
    ensures var (code, before) := HighCode(s[0], t, loc);
            && code != 0
            && StepUnicode(s, t, loc) == Go(3, t.(stPos := 0, ucs := 0, pb := t.pb + before), loc.(hi := code))
  {
    hide Append, DecodePair, HexValue, IsHigh, IsLow;
    assert Shift(HexValue(s[0]), 0) == HexValue(s[0]);
  }

  lemma HoldStep(cfg: Config, s: Text, t: Tok, loc: Local)
    requires Inv(cfg, t) && HoldsHigh(s, t, loc) && |s| > 3
    ensures var (code, before) := HighCode(s[0], t, loc);
            var held := t.(stPos := 0, ucs := 0, pb := t.pb + before);
            && Inv(cfg, held) && code != 0
            && Run(cfg, s, t, loc) == Run(cfg, s[3..], held, loc.(hi := code))
  {
    hide HighCode, StepUnicode, Inv, IsHigh, HexValue, Run, Combine;
    HoldMove(s, t, loc);
    UnicodeRuns(cfg, s, t, loc);
  }

  /** The tokener when a high half ends and the next two bytes cannot be seen. */
  function Dropped(c: byte, t: Tok, loc: Local): Tok
    requires IsHex(c)
  {
    var (code, before) := HighCode(c, t, loc);
    In(t, t.top.saved).(stPos := 4, ucs := code, pb := t.pb + before + REPLACEMENT)
  }

  lemma DropStep(cfg: Config, a: Text, b: Text, t: Tok, loc: Local)
    requires Inv(cfg, t) && HoldsHigh(a + b, t, loc) && 1 <= |a| <= 2
    ensures IsHex(a[0]) && Inv(cfg, Dropped(a[0], t, loc))
    ensures Dropped(a[0], t, loc).top.state == InString || Dropped(a[0], t, loc).top.state == InField
    ensures Run(cfg, a, t, loc) == Run(cfg, a[1..], Dropped(a[0], t, loc), loc.(hi := 0))
  {
    hide Run, Encode, DecodePair, HexValue, IsHigh, IsLow;
    assert (a + b)[0] == a[0] && t.stPos == 3;
    assert Shift(HexValue(a[0]), 0) == HexValue(a[0]);
    assert StepUnicode(a, t, loc) == Go(1, Dropped(a[0], t, loc), loc.(hi := 0));
    UnicodeRuns(cfg, a, t, loc);
  }

  lemma AtEndOfPiece(cfg: Config, t: Tok, loc: Local)
    requires Inv(cfg, t)
    ensures Run(cfg, [], t, loc) == AtEnd(t)
  {
  }

  /** A cut between the last digit of a high half and the `u` of the next escape. */
  lemma CutBeforeEscape(cfg: Config, a: Text, b: Text, t: Tok, loc: Local)
    requires Inv(cfg, t) && t.quote != BACKSLASH && 1 <= |a| <= 2 && |a + b| > 3
    requires HoldsHigh(a + b, t, loc) && !LowFollows((a + b)[3..], 0, 0)
    ensures Run(cfg, a, t, loc).More?
    ensures Inv(cfg, Run(cfg, a, t, loc).tok)
    ensures Run(cfg, a + b, t, loc) == Run(cfg, b, Run(cfg, a, t, loc).tok, NO_LOCALS)
  {
    hide Step, Run, Inv, LowFollows, Combine, IsHigh, IsHex, HexValue;
    var s, l := a + b, loc.(hi := 0);
    assert s[0] == a[0] && s[1] == BACKSLASH && s[2] == LOWER_U;
    HoldStep(cfg, s, t, loc);
    DropStep(cfg, a, b, t, loc);
    var (code, before) := HighCode(s[0], t, loc);
    var held := t.(stPos := 0, ucs := 0, pb := t.pb + before);
    var back := Dropped(a[0], t, loc);
    hide HoldsHigh, HighCode;
    KeptHalf(cfg, s[3..], held, loc.(hi := code));
    EscapeOpens(cfg, s[1..], back, l);
    var mid := back.(top := back.top.(state := StringEscape, saved := back.top.state));
    assert s[1..][1..] == s[2..] && s[2..][1..] == s[3..];
    EscapeBegins(cfg, s[2..], mid, l);
    assert Run(cfg, s, t, loc) == Run(cfg, s[1..], back, l) == Run(cfg, s[2..], mid, l);
    if |a| == 1 {
      assert a[1..] == [] && b == s[1..];
      AtEndOfPiece(cfg, back, l);
      RunAgrees(cfg, b, back, l, NO_LOCALS);
    } else {
      assert a[1] == s[1];
      assert a[1..] == [BACKSLASH] && b == s[2..];
      RunAgrees(cfg, b, mid, l, NO_LOCALS);
    }
  }

  /** Fewer than four digits and then a byte that is none: the escape fails there, unless it is at its
      end already. */
  lemma {:induction false} DigitsFail(cfg: Config, s: Text, t: Tok, loc: Local)
    requires Inv(cfg, t) && t.top.state == EscapeUnicode
    requires HexCount(s) < |s| && HexCount(s) < 4 && (t.stPos + HexCount(s) < 4 || t.stPos >= 4)
    ensures var n := HexCount(s);
            Run(cfg, s, t, loc) == Failed(if s[n] == NUL then ErrEof else ErrString, |s| - n - Passed(s[n], t))
    decreases |s|
  {
    hide Run, StepUnicode, HexValue, IsHex;
    if !IsHex(s[0]) {
      DigitFails(cfg, s, t, loc);
    } else {
      UnicodeRuns(cfg, s, t, loc);
      DigitMoves(s, t, loc);
      var m := StepUnicode(s, t, loc);
      DigitsFail(cfg, s[1..], m.tok, m.loc);
    }
  }

  lemma DigitFails(cfg: Config, s: Text, t: Tok, loc: Local)
    requires Inv(cfg, t) && t.top.state == EscapeUnicode && s != [] && !IsHex(s[0])
    ensures Run(cfg, s, t, loc) == Failed(if s[0] == NUL then ErrEof else ErrString, |s| - Passed(s[0], t))
  {
    hide IsHex;
    assert Step(cfg, s, t, loc) == StepUnicode(s, t, loc);
    assert t.top.saved == InString || t.top.saved == InField;
    StepKeeps(cfg, s, t, loc);
    hide Step, Inv;
  }

  lemma DigitMoves(s: Text, t: Tok, loc: Local)
    requires t.top.state == EscapeUnicode && s != [] && IsHex(s[0]) && t.stPos != 3
    ensures var m := StepUnicode(s, t, loc);
            m.Go? && m.n == 1 && m.tok.top == t.top && m.tok.stPos == t.stPos + 1 && m.loc == loc
  {
    hide StepFourth, HexValue, Shift;
  }

  /** A cut right after the prefix of an escape that does not get four digits: both calls fail. */
  lemma CutAfterPrefix(cfg: Config, a: Text, b: Text, t: Tok, loc: Local)
    requires Inv(cfg, t) && |a| == 3 && b != [] && HoldsHigh(a + b, t, loc) && !SplitsPair(a + b, 3)
    ensures Run(cfg, a, t, loc).More? && Inv(cfg, Run(cfg, a, t, loc).tok)
    ensures Run(cfg, a + b, t, loc) == Run(cfg, b, Run(cfg, a, t, loc).tok, NO_LOCALS)
  {
    hide Run, Inv, Combine, HexValue, IsHigh, IsHex, HexCount, StepUnicode;
    var s := a + b;
    assert s[0] == a[0] && s[1] == a[1] && s[2] == a[2] && s[3..] == b;
    var n := HexCount(b);
    HoldStep(cfg, s, t, loc);
    var (code, before) := HighCode(s[0], t, loc);
    DigitsFail(cfg, b, t.(stPos := 0, ucs := 0, pb := t.pb + before), loc.(hi := code));
    HeldAtEnd(a, t, loc);
    UnicodeRuns(cfg, a, t, loc);
    assert a[3..] == [];
    var left := StepUnicode(a, t, loc).tok;
    AtEndOfPiece(cfg, left, StepUnicode(a, t, loc).loc);
    DigitsFail(cfg, b, left, NO_LOCALS);
  }

  // ---------------------------------------------------------------- a number and what follows it

  /** The number state reads on to the end of the number. */
  lemma {:induction false} NumberGoesOn(cfg: Config, s: Text, t: Tok, loc: Local)
    requires Inv(cfg, t) && t.top.state == Number && NumberChars(t.pb)
    ensures var n := NumberLength(s);
            var u := t.(pb := t.pb + s[..n], isDouble := t.isDouble || HasPoint(s[..n]));
            && Inv(cfg, u) && NumberChars(u.pb)
            && Run(cfg, s, t, loc) == Run(cfg, s[n..], u, loc.(caseLen := loc.caseLen + n))
    decreases |s|
  {
    hide Run, HasPoint, NumberValue;
    var n := NumberLength(s);
    if n == 0 {
      assert s[..0] == [] && s[0..] == s && t.pb + [] == t.pb;
      NoPoint();
    } else {
      var c, rest := s[0], s[1..];
      var u := t.(pb := t.pb + [c], isDouble := t.isDouble || c == DOT || c == LOWER_E || c == UPPER_E);
      NumberByte(cfg, s, t, loc);
      NumberGoesOn(cfg, rest, u, loc.(caseLen := loc.caseLen + 1));
      assert t.pb + [c] + rest[..n - 1] == t.pb + s[..n] && rest[n - 1..] == s[n..];
      assert [c] + rest[..n - 1] == s[..n];
      PointFirst(c, rest[..n - 1]);
    }
  }

  lemma PointFirst(c: byte, s: Text)
    ensures HasPoint([c] + s) <==> HasPoint(s) || c == DOT || c == LOWER_E || c == UPPER_E
  {
    var t := [c] + s;
    assert t[0] == c;
    assert forall i :: 0 <= i < |s| ==> t[i + 1] == s[i];
  }

  lemma NumberByte(cfg: Config, s: Text, t: Tok, loc: Local)
    requires Inv(cfg, t) && t.top.state == Number && s != [] && IsNumberChar(s[0])
    ensures var c := s[0];
            var u := t.(pb := t.pb + [c], isDouble := t.isDouble || c == DOT || c == LOWER_E || c == UPPER_E);
            Inv(cfg, u) && Run(cfg, s, t, loc) == Run(cfg, s[1..], u, loc.(caseLen := loc.caseLen + 1))
  {
    StepKeeps(cfg, s, t, loc);
    assert Step(cfg, s, t, loc) == StepNumber(cfg, s[0], t, loc);
    hide Step, Inv, NumberValue;
  }

  /** The byte "i" after a negative number that is taken for the start of "Infinity". */
  lemma WordAfterNumber(cfg: Config, s: Text, t: Tok, loc: Local)
    requires Inv(cfg, t) && t.top.state == Number && NumberChars(t.pb) && |t.pb| > 1 && t.pb[0] == MINUS
    requires s != [] && (s[0] == LOWER_I || s[0] == UPPER_I) && loc.caseLen == 1
    ensures Run(cfg, s, t, loc) == Failed(ErrUnexpected, |s|)
  {
    var u := In(t, InfinityWord);
    assert Step(cfg, s, t, loc) == Go(0, u, loc);
    StepKeeps(cfg, s, t, loc);
    assert s[0..] == s;
    WordFails(cfg, s, u, loc);
    hide Step, Inv;
  }

  lemma WordFails(cfg: Config, s: Text, t: Tok, loc: Local)
    requires Inv(cfg, t) && t.top.state == InfinityWord && NumberChars(t.pb) && |t.pb| > 1 && t.pb[0] == MINUS
    requires s != [] && s[0] != NUL
    ensures Run(cfg, s, t, loc) == Failed(ErrUnexpected, |s|)
  {
    var word := (t.pb + [s[0]])[1..];
    assert word[0] == t.pb[1] && IsNumberChar(t.pb[1]);
    assert !SameByte(cfg.strict, INFINITY_WORD[0], word[0]);
    assert !SamePrefix(cfg.strict, INFINITY_WORD, word, Min(t.stPos + 1, |INFINITY_WORD|));
    StepKeeps(cfg, s, t, loc);
    assert Step(cfg, s, t, loc) == StepInfinity(cfg, s[0], t, loc);
    hide Step, Inv, SamePrefix;
  }

  /** The byte after a number that is a whole value at depth 0, in strict mode. */
  lemma ValueThenMore(cfg: Config, s: Text, t: Tok, loc: Local)
    requires Inv(cfg, t) && t.top.state == Number && t.below == [] && cfg.strict
    requires s != [] && (s[0] == LOWER_I || s[0] == UPPER_I) && NumberValue(cfg, t.pb, t.isDouble).Some?
    requires t.pb != [] && t.pb[0] == MINUS ==> loc.caseLen != 1
    ensures Run(cfg, s, t, loc) == Failed(ErrUnexpected, |s|)
  {
    var u := Complete(t, NumberValue(cfg, t.pb, t.isDouble).value);
    assert Step(cfg, s, t, loc) == Go(0, u, loc);
    StepKeeps(cfg, s, t, loc);
    assert s[0..] == s;
    FinishedThenMore(cfg, s, u, loc);
    hide Step, Inv;
  }

  lemma FinishedThenMore(cfg: Config, s: Text, t: Tok, loc: Local)
    requires Inv(cfg, t) && t.top.state == Eatws && t.top.saved == Finish && t.below == [] && cfg.strict
    requires s != [] && !IsSpace(s[0]) && s[0] != NUL
    ensures Run(cfg, s, t, loc) == Failed(ErrUnexpected, |s|)
  {
    var u := In(t, Finish);
    assert Step(cfg, s, t, loc) == Go(0, u, loc);
    StepKeeps(cfg, s, t, loc);
    assert s[0..] == s;
    assert Step(cfg, s, u, loc) == Out(u, NoError);
    StepKeeps(cfg, s, u, loc);
    hide Step, Inv;
  }

  lemma MinusAlone(cfg: Config)
    ensures NumberValue(cfg, [MINUS], HasPoint([MINUS])) == None
  {
    PointFirst(MINUS, []);
    assert [MINUS] + [] == [MINUS];
  }

  /** In strict mode an "i" after a negative number at depth 0 is refused whichever way it is read. */
  lemma RefusedAnyway(cfg: Config, s: Text, t: Tok, loc: Local, l: Local)
    requires Inv(cfg, t) && Sound(t, loc) && CountsAgain(s, t, loc) && !CutsMinus(cfg, s, t, loc)
    ensures Run(cfg, s, t, l) == Failed(ErrUnexpected, |s| - NumberLength(s))
  {
    hide Run, Inv, NumberValue, HasPoint, NumberChars;
    var n := NumberLength(s);
    NumberGoesOn(cfg, s, t, l);
    LongNumber(cfg, s, t, loc);
    var u := t.(pb := t.pb + s[..n], isDouble := t.isDouble || HasPoint(s[..n]));
    assert u.pb[0] == MINUS;
    var k := l.(caseLen := l.caseLen + n);
    if k.caseLen == 1 {
      WordAfterNumber(cfg, s[n..], u, k);
    } else {
      ValueThenMore(cfg, s[n..], u, k);
    }
  }

  lemma LongNumber(cfg: Config, s: Text, t: Tok, loc: Local)
    requires Inv(cfg, t) && Sound(t, loc) && CountsAgain(s, t, loc) && !CutsMinus(cfg, s, t, loc)
    ensures |t.pb| + NumberLength(s) > 1
  {
    hide NumberChars, Inv, NumberValue;
    var digits := s[..NumberLength(s)];
    NoPoint();
    MinusAlone(cfg);
    assert |t.pb| == 1 ==> t.pb == [MINUS];
    assert |digits| == 0 ==> digits == [] && t.pb + digits == t.pb;
  }

  // ---------------------------------------------------------------- the theorem for one cut

  /** A cut inside the digits after a kept half. */
  lemma CutInDigits(cfg: Config, a: Text, b: Text, t: Tok, loc: Local)
    requires Inv(cfg, t) && t.top.state == EscapeUnicode && t.stPos < 3 && |a| == 1 && b != [] && loc.hi != 0
    requires IsHex(a[0]) && !LowFollows(a + b, t.ucs, t.stPos)
    ensures Run(cfg, a, t, loc).More? && Inv(cfg, Run(cfg, a, t, loc).tok)
    ensures Run(cfg, a + b, t, loc) == Run(cfg, b, Run(cfg, a, t, loc).tok, NO_LOCALS)
  {
    hide Run, HexValue, Shift, StepFourth;
    var s := a + b;
    assert s[0] == a[0] && s[1..] == b && a[1..] == [];
    var u := t.(ucs := t.ucs + Shift(HexValue(a[0]), 3 - t.stPos), stPos := t.stPos + 1);
    assert StepUnicode(s, t, loc) == Go(1, u, loc) by { assert t.pb + [] == t.pb; }
    var u' := u.(pb := u.pb + REPLACEMENT);
    assert StepUnicode(a, t, loc) == Go(1, u', loc);
    assert !LowFollows(b, u.ucs, u.stPos);
    hide StepUnicode, LowFollows, IsHex;
    UnicodeRuns(cfg, s, t, loc);
    UnicodeRuns(cfg, a, t, loc);
    AtEndOfPiece(cfg, u', loc);
    KeptHalf(cfg, b, u, loc);
    RunAgrees(cfg, b, u', loc.(hi := 0), NO_LOCALS);
  }

  /** A half is kept, and the low half that goes with it is only complete after the cut. */
  predicate Pending(s: Text, t: Tok, loc: Local, k: nat) {
    loc.hi != 0 && k < 4 - t.stPos && LowFollows(s, t.ucs, t.stPos)
  }

  /** The two cuts at which the piece alone makes a step of its own. */
  predicate SpecialCut(a: Text, b: Text, t: Tok, loc: Local) {
    && t.top.state == EscapeUnicode
    && ((|a| == 1 && loc.hi != 0 && t.stPos < 3) || (|a| <= 2 && HoldsHigh(a + b, t, loc)))
  }

  /** A cut that is not bad at a last digit. */
  predicate GoodHold(s: Text, t: Tok, loc: Local, k: nat) {
    HoldsHigh(s, t, loc) && k <= 6 ==> k != 3 && |s| > 3 && !LowFollows(s[3..], 0, 0)
  }

  /** Any other step is the same with the rest of the text and without it. */
  lemma OrdinaryStep(cfg: Config, a: Text, b: Text, t: Tok, loc: Local)
    requires Inv(cfg, t) && Sound(t, loc) && a != [] && b != [] && !SpecialCut(a, b, t, loc)
    requires GoodHold(a + b, t, loc, |a|)
    ensures Step(cfg, a + b, t, loc) == Step(cfg, a, t, loc)
  {
    if t.top.state == EscapeUnicode {
      UnicodePrefix(a, b, t, loc);
      assert Step(cfg, a + b, t, loc) == StepUnicode(a + b, t, loc);
      assert Step(cfg, a, t, loc) == StepUnicode(a, t, loc);
    } else {
      StepPrefix(cfg, a, b, t, loc);
    }
  }

  lemma NextDigit(a: Text, b: Text, t: Tok, loc: Local)
    requires t.top.state == EscapeUnicode && Sound(t, loc) && a != [] && b != [] && !SpecialCut(a, b, t, loc)
    requires t.stPos != 3 && !Pending(a + b, t, loc, |a|)
    ensures match StepUnicode(a, t, loc)
            case Out(_, _) => true
            case Go(n, u, l) => n == 1 && !Pending(a[1..] + b, u, l, |a| - 1) && (|a| == 1 ==> l.hi == 0)
  {
    hide StepFourth, HexValue, Shift;
    var s := a + b;
    assert s[0] == a[0] && s[1..] == a[1..] + b;
  }

  lemma NextHold(a: Text, b: Text, t: Tok, loc: Local)
    requires t.top.state == EscapeUnicode && t.stPos == 3 && a != [] && b != [] && !SpecialCut(a, b, t, loc)
    requires GoodHold(a + b, t, loc, |a|)
    ensures match StepUnicode(a, t, loc)
            case Out(_, _) => true
            case Go(n, u, l) => n <= |a| && !Pending(a[n..] + b, u, l, |a| - n) && (|a| == n ==> l.hi == 0)
  {
    hide Encode, DecodePair, IsHigh, IsLow, LowFollows, Combine;
    var s := a + b;
    assert s[0] == a[0];
    if IsHex(a[0]) {
      assert Shift(HexValue(a[0]), 0) == HexValue(a[0]);
      if HoldsHigh(s, t, loc) {
        assert s[1] == a[1] && s[2] == a[2];
        assert s[3..] == a[3..] + b;
      } else {
        assert |a| > 1 ==> s[1] == a[1];
        assert |a| > 2 ==> s[2] == a[2];
      }
    }
  }

  lemma BadCutStep(cfg: Config, s: Text, t: Tok, loc: Local, k: nat)
    requires Inv(cfg, t) && 0 < k <= |s| && !BadCut(cfg, s, t, loc, k)
    ensures HoldsHigh(s, t, loc) ==> !SplitsPair(s, k)
    ensures (HoldsHigh(s, t, loc) && k == 3) || GoodHold(s, t, loc, k)
    ensures var m := Step(cfg, s, t, loc);
            m.Go? && m.n <= k && !(m.n > 0 && s[0] == NUL)
            ==> Inv(cfg, m.tok) && !BadCut(cfg, s[m.n..], m.tok, m.loc, k - m.n)
  {
    hide Step, Inv, LowFollows, CutsMinus, IsHigh, Combine, HexValue, IsHex, HexCount;
    StepKeeps(cfg, s, t, loc);
  }

  /** What the induction needs after a step. */
  lemma NextCut(cfg: Config, a: Text, b: Text, t: Tok, loc: Local)
    requires Inv(cfg, t) && Sound(t, loc) && a != [] && b != [] && !SpecialCut(a, b, t, loc)
    requires GoodHold(a + b, t, loc, |a|) && !Pending(a + b, t, loc, |a|)
    ensures var m := Step(cfg, a, t, loc);
            m.Go? ==> m.n <= |a| && !Pending(a[m.n..] + b, m.tok, m.loc, |a| - m.n) && (|a| == m.n ==> m.loc.hi == 0)
  {
    hide Step, TopOk, Waits, Rank, HoldsHigh, LowFollows, StepUnicode, Sound, Consumed, GoodHold;
    StepKeeps(cfg, a, t, loc);
    SoundStep(cfg, a, t, loc);
    if t.top.state == EscapeUnicode {
      UnicodeIs(cfg, a, t, loc);
      if t.stPos == 3 {
        NextHold(a, b, t, loc);
      } else {
        NextDigit(a, b, t, loc);
      }
    }
  }

  lemma NoDigitStops(cfg: Config, s: Text, t: Tok, loc: Local)
    requires Inv(cfg, t) && s != [] && t.top.state == EscapeUnicode && !IsHex(s[0])
    ensures !Run(cfg, s, t, loc).More?
  {
    UnicodeIs(cfg, s, t, loc);
  }

  lemma SplitSpecial(cfg: Config, a: Text, b: Text, t: Tok, loc: Local)
    requires Inv(cfg, t) && Sound(t, loc) && a != [] && b != [] && SpecialCut(a, b, t, loc)
    requires Run(cfg, a, t, loc).More?
    requires GoodHold(a + b, t, loc, |a|) && !Pending(a + b, t, loc, |a|)
    ensures Inv(cfg, Run(cfg, a, t, loc).tok)
    ensures Run(cfg, a + b, t, loc) == Run(cfg, b, Run(cfg, a, t, loc).tok, NO_LOCALS)
  {
    hide Run, Inv, HoldsHigh, LowFollows, IsHex;
    if HoldsHigh(a + b, t, loc) {
      CutBeforeEscape(cfg, a, b, t, loc);
    } else {
      if !IsHex(a[0]) {
        NoDigitStops(cfg, a, t, loc);
      }
      CutInDigits(cfg, a, b, t, loc);
    }
  }

  lemma SplitNow(cfg: Config, b: Text, t: Tok, loc: Local)
    requires Inv(cfg, t) && Sound(t, loc) && Consumed(t) && loc.hi == 0 && !BadCut(cfg, b, t, loc, 0)
    ensures Run(cfg, b, t, loc) == Run(cfg, b, t, NO_LOCALS) && Run(cfg, [], t, loc) == AtEnd(t)
  {
    hide Run, Inv, Step, NumberValue, InfinityNext;
    AtEndOfPiece(cfg, t, loc);
    if CountsAgain(b, t, loc) {
      RefusedAnyway(cfg, b, t, loc, loc);
      RefusedAnyway(cfg, b, t, loc, NO_LOCALS);
    } else {
      RunAgrees(cfg, b, t, loc, NO_LOCALS);
    }
  }

  /**
   One cut. If the first piece leaves the tokener waiting and the cut is not bad, the second call
   ends as one call with the whole text would have: with the same value or error, at the same byte,
   and with the same tokener.
   */
  lemma {:induction false} SplitRun(cfg: Config, a: Text, b: Text, t: Tok, loc: Local)
    requires Inv(cfg, t) && Sound(t, loc) && b != []
    requires a == [] ==> Consumed(t) && loc.hi == 0
    requires Run(cfg, a, t, loc).More?
    requires !BadCut(cfg, a + b, t, loc, |a|) && !Pending(a + b, t, loc, |a|)
    ensures Inv(cfg, Run(cfg, a, t, loc).tok)
    ensures Run(cfg, a + b, t, loc) == Run(cfg, b, Run(cfg, a, t, loc).tok, NO_LOCALS)
    decreases |a|, Rank(t.top)
  {
    hide Step, TopOk, Waits, BadCut, Pending, HoldsHigh, LowFollows, SpecialCut, Sound, Consumed, StepUnicode, Rank,
      GoodHold, SplitsPair;
    var s := a + b;
    if a == [] {
      assert s == b;
      SplitNow(cfg, b, t, loc);
    } else {
      BadCutStep(cfg, s, t, loc, |a|);
      if HoldsHigh(s, t, loc) && |a| == 3 {
        CutAfterPrefix(cfg, a, b, t, loc);
        return;
      }
      if SpecialCut(a, b, t, loc) {
        SplitSpecial(cfg, a, b, t, loc);
        return;
      }
      OrdinaryStep(cfg, a, b, t, loc);
      StepKeeps(cfg, a, t, loc);
      SoundStep(cfg, a, t, loc);
      NextCut(cfg, a, b, t, loc);
      assert s[0] == a[0];
      match Step(cfg, a, t, loc)
      case Out(_, _) =>
      case Go(n, u, l) =>
        if !(n > 0 && a[0] == NUL) {
          assert s[n..] == a[n..] + b;
          SplitRun(cfg, a[n..], b, u, l);
        }
    }
  }

  // ---------------------------------------------------------------- calls that end before the cut

  /** A step that uses up the piece and stays in the string leaves the tokener waiting. */
  lemma ReadsAll(cfg: Config, a: Text, t: Tok, loc: Local)
    requires Inv(cfg, t) && t.top.state == EscapeUnicode && a != [] && IsHex(a[0])
    requires StepUnicode(a, t, loc).Go? && StepUnicode(a, t, loc).n == |a|
    requires StepUnicode(a, t, loc).tok.top == t.top
    ensures Run(cfg, a, t, loc).More?
  {
    hide Run, StepUnicode;
    UnicodeRuns(cfg, a, t, loc);
    assert a[|a|..] == [];
    AtEndOfPiece(cfg, StepUnicode(a, t, loc).tok, StepUnicode(a, t, loc).loc);
  }

  lemma DropWaits(cfg: Config, a: Text, b: Text, t: Tok, loc: Local)
    requires Inv(cfg, t) && Sound(t, loc) && HoldsHigh(a + b, t, loc) && 1 <= |a| <= 2
    ensures Run(cfg, a, t, loc).More?
  {
    hide Run, Combine, HexValue, IsHigh, Append, IsHex;
    var back, l := Dropped(a[0], t, loc), loc.(hi := 0);
    DropStep(cfg, a, b, t, loc);
    if |a| == 1 {
      assert a[1..] == [];
      AtEndOfPiece(cfg, back, l);
    } else {
      assert a[1] == (a + b)[1] && a[1..] == [BACKSLASH];
      hide HoldsHigh;
      EscapeOpens(cfg, [BACKSLASH, LOWER_U], back, l);
    }
  }

  /** A piece that ends at one of the special places leaves the tokener waiting. */
  lemma SpecialWaits(cfg: Config, a: Text, b: Text, t: Tok, loc: Local)
    requires Inv(cfg, t) && Sound(t, loc) && t.top.state == EscapeUnicode && a != [] && IsHex(a[0])
    requires SpecialCut(a, b, t, loc) || (HoldsHigh(a + b, t, loc) && |a| == 3)
    ensures Run(cfg, a, t, loc).More?
  {
    hide Run, Inv, Combine, HexValue, Shift, IsHigh, StepFourth;
    if !HoldsHigh(a + b, t, loc) {
      ReadsAll(cfg, a, t, loc);
    } else if |a| == 3 {
      assert (a + b)[0] == a[0] && (a + b)[1] == a[1] && (a + b)[2] == a[2];
      HeldAtEnd(a, t, loc);
      ReadsAll(cfg, a, t, loc);
    } else {
      DropWaits(cfg, a, b, t, loc);
    }
  }

  lemma HeldAtEnd(s: Text, t: Tok, loc: Local)
    requires HoldsHigh(s, t, loc) && |s| == 3
    ensures var m := StepUnicode(s, t, loc); m.Go? && m.n == 3 && m.tok.top == t.top && m.tok.stPos == 4
  {
    hide Append, DecodePair, HexValue, IsHigh, IsLow;
    assert Shift(HexValue(s[0]), 0) == HexValue(s[0]);
  }

  /** Only the end of a piece stops a run in the state eatws. */
  lemma StopsElsewhere(cfg: Config, s: Text, t: Tok, loc: Local)
    requires s != [] && Inv(cfg, t) && Sound(t, loc)
    ensures match Step(cfg, s, t, loc)
            case Out(u, e) => e == NoError ==> u.top.state != Eatws
            case Go(n, u, _) => n > 0 && s[0] == NUL ==> u.top.state != Eatws
  {
    hide Step, Inv, HasPoint, NumberChars;
    if InWord(t.top.state) {
      WordMoves(cfg, s, t, loc);
    } else if InContainer(t.top.state) {
      hide ObjectAdd, TopOk;
      ContainerIs(cfg, s, t, loc);
    } else if InText(t.top.state) {
      TextIs(cfg, s, t, loc);
    } else if Skipping(t.top.state) {
      GapIs(cfg, s, t, loc);
    } else if t.top.state == EscapeUnicode {
      hide Append, Combine, HexValue, IsHigh, Shift;
      UnicodeIs(cfg, s, t, loc);
    } else if t.top.state == Number {
      hide NumberValue;
      NumberIs(cfg, s, t, loc);
    } else if t.top.state == Start {
      StartIs(cfg, s, t, loc);
    } else {
      FinishIs(cfg, s, t, loc);
    }
  }

  /** What a call that ended before the rest of the text came would have gone on to. */
  function Resume(cfg: Config, o: Outcome, rest: Text): Outcome
    requires match o case Done(u, _) => Inv(cfg, u) case More(u) => Inv(cfg, u) case _ => true
  {
    match o
    case Done(u, left) => if u.top.state == Eatws then Call(cfg, rest, u) else Done(u, left + |rest|)
    case More(u) => Call(cfg, rest, u)
    case Failed(e, left) => Failed(e, left + |rest|)
  }

  lemma {:induction false} EndsEarly(cfg: Config, a: Text, b: Text, t: Tok, loc: Local)
    requires Inv(cfg, t) && Sound(t, loc) && b != [] && !Run(cfg, a, t, loc).More?
    ensures Run(cfg, a, t, loc).Done? ==> Inv(cfg, Run(cfg, a, t, loc).last)
    ensures Run(cfg, a + b, t, loc) == Resume(cfg, Run(cfg, a, t, loc), b)
    decreases |a|, Rank(t.top)
  {
    hide Step, TopOk, Waits, HoldsHigh, SpecialCut, Sound, StepUnicode, Rank, IsHex, Inv;
    var s := a + b;
    RunKeeps(cfg, a, t, loc);
    TopIsOk(cfg, t);
    if a == [] {
      assert s == b;
      RunAgrees(cfg, b, t, loc, NO_LOCALS);
    } else {
      SameStep(cfg, a, b, t, loc);
      StepKeeps(cfg, a, t, loc);
      SoundStep(cfg, a, t, loc);
      StopsElsewhere(cfg, a, t, loc);
      assert s[0] == a[0];
      match Step(cfg, a, t, loc)
      case Out(_, _) =>
      case Go(n, u, l) =>
        if !(n > 0 && a[0] == NUL) {
          assert s[n..] == a[n..] + b;
          EndsEarly(cfg, a[n..], b, u, l);
        }
    }
  }

  lemma SameStep(cfg: Config, a: Text, b: Text, t: Tok, loc: Local)
    requires Inv(cfg, t) && Sound(t, loc) && a != [] && b != [] && !Run(cfg, a, t, loc).More?
    ensures Step(cfg, a + b, t, loc) == Step(cfg, a, t, loc)
  {
    hide Run, Step, StepUnicode, HoldsHigh;
    var s := a + b;
    assert s[0] == a[0];
    if t.top.state == EscapeUnicode {
      UnicodeIs(cfg, s, t, loc);
      UnicodeIs(cfg, a, t, loc);
      if IsHex(a[0]) {
        if SpecialCut(a, b, t, loc) || (HoldsHigh(s, t, loc) && |a| == 3) {
          SpecialWaits(cfg, a, b, t, loc);
        }
        UnicodePrefix(a, b, t, loc);
      } else {
        NotHex(a, t, loc);
        NotHex(s, t, loc);
      }
    } else {
      StepPrefix(cfg, a, b, t, loc);
    }
  }

  lemma NotHex(s: Text, t: Tok, loc: Local)
    requires s != [] && !IsHex(s[0])
    ensures StepUnicode(s, t, loc) == Out(t, if s[0] == NUL then NoError else ErrString)
  {
  }

  // ---------------------------------------------------------------- any number of pieces

  function Concat(pieces: seq<Text>): Text {
    if pieces == [] then [] else pieces[0] + Concat(pieces[1..])
  }

  /**
   A caller that goes on to the next piece as long as the result is json_tokener_continue: the
   result of the last call, and the text that was not given to the tokener.
   */
  function Feed(cfg: Config, pieces: seq<Text>, t: Tok): (Outcome, Text)
    requires Inv(cfg, t)
  {
    if pieces == [] then (More(t), [])
    else
      RunKeeps(cfg, pieces[0], t, NO_LOCALS);
      match Call(cfg, pieces[0], t)
      case More(u) => Feed(cfg, pieces[1..], u)
      case o => (o, Concat(pieces[1..]))
  }

  /** Every cut at which the tokener waits is a good one. */
  predicate GoodCuts(cfg: Config, pieces: seq<Text>, t: Tok)
    requires Inv(cfg, t)
  {
    if pieces == [] then true
    else
      RunKeeps(cfg, pieces[0], t, NO_LOCALS);
      match Call(cfg, pieces[0], t)
      case More(u) =>
        && (Concat(pieces[1..]) != [] ==> !BadCut(cfg, Concat(pieces), t, NO_LOCALS, |pieces[0]|))
        && GoodCuts(cfg, pieces[1..], u)
      case _ => true
  }

  /** A tokener that waits waits for any input. */
  lemma {:induction false} MoreWaits(cfg: Config, s: Text, t: Tok, loc: Local)
    requires Inv(cfg, t) && Sound(t, loc) && Run(cfg, s, t, loc).More?
    ensures AtEnd(Run(cfg, s, t, loc).tok) == Run(cfg, s, t, loc)
    ensures Sound(Run(cfg, s, t, loc).tok, NO_LOCALS)
    decreases |s|, Rank(t.top)
  {
    if s == [] {
    } else {
      hide Step, TopOk, Waits, Rank;
      StepKeeps(cfg, s, t, loc);
      SoundStep(cfg, s, t, loc);
      match Step(cfg, s, t, loc)
      case Out(_, _) =>
      case Go(n, u, l) =>
        if !(n > 0 && s[0] == NUL) {
          MoreWaits(cfg, s[n..], u, l);
        }
    }
  }

  lemma {:induction false} NothingFed(cfg: Config, pieces: seq<Text>, t: Tok)
    requires Inv(cfg, t) && Concat(pieces) == [] && AtEnd(t) == More(t)
    ensures Feed(cfg, pieces, t) == (More(t), [])
  {
    if pieces == [] {
    } else {
      hide Inv;
      assert pieces[0] == [];
      AtEndOfPiece(cfg, t, NO_LOCALS);
      NothingFed(cfg, pieces[1..], t);
    }
  }

  /**
   Split invariance. However a text is cut, as long as the cuts are good ones, feeding the pieces up
   to the first result other than continue gives the result of one call with the whole text: the
   same tokener that still waits, the same error, the same value with the same bytes left over. If
   the value was complete at the end of a piece, one call would only have gone on to what follows it.
   */
  lemma {:induction false} SplitInvariance(cfg: Config, pieces: seq<Text>, t: Tok)
    requires Inv(cfg, t) && Sound(t, NO_LOCALS) && AtEnd(t) == More(t) && GoodCuts(cfg, pieces, t)
    ensures var (o, rest) := Feed(cfg, pieces, t);
            && (o.Done? ==> Inv(cfg, o.last))
            && (o.More? ==> Inv(cfg, o.tok) && rest == [] && Call(cfg, Concat(pieces), t) == o)
            && (!o.More? ==> Call(cfg, Concat(pieces), t) == Resume(cfg, o, rest))
    decreases |pieces|
  {
    if pieces == [] {
      AtEndOfPiece(cfg, t, NO_LOCALS);
    } else {
      hide Run, Inv, Sound, BadCut, AtEnd;
      var a, b := pieces[0], Concat(pieces[1..]);
      RunKeeps(cfg, a, t, NO_LOCALS);
      if Call(cfg, a, t).More? {
        var u := Call(cfg, a, t).tok;
        MoreWaits(cfg, a, t, NO_LOCALS);
        SplitInvariance(cfg, pieces[1..], u);
        if b == [] {
          assert a + b == a;
          NothingFed(cfg, pieces[1..], u);
        } else if a == [] {
          assert a + b == b;
          AtEndOfPiece(cfg, t, NO_LOCALS);
        } else {
          assert !Pending(a + b, t, NO_LOCALS, |a|);
          SplitRun(cfg, a, b, t, NO_LOCALS);
        }
      } else {
        EndOfFeed(cfg, a, b, t);
      }
    }
  }

  lemma EndOfFeed(cfg: Config, a: Text, b: Text, t: Tok)
    requires Inv(cfg, t) && Sound(t, NO_LOCALS) && !Call(cfg, a, t).More?
    ensures Call(cfg, a, t).Done? ==> Inv(cfg, Call(cfg, a, t).last)
    ensures Call(cfg, a + b, t) == Resume(cfg, Call(cfg, a, t), b)
  {
    RunKeeps(cfg, a, t, NO_LOCALS);
    if b == [] {
      assert a + b == a;
      EndsWaitless(cfg, a, t, NO_LOCALS);
    } else {
      EndsEarly(cfg, a, b, t, NO_LOCALS);
    }
  }

  /** A call that ends in eatws has used up its input. */
  lemma {:induction false} EndsWaitless(cfg: Config, s: Text, t: Tok, loc: Local)
    requires Inv(cfg, t) && Sound(t, loc)
    ensures match Run(cfg, s, t, loc)
            case Done(u, left) => u.top.state == Eatws ==> left == 0 && AtEnd(u) == Done(u, 0)
            case _ => true
    decreases |s|, Rank(t.top)
  {
    if s == [] {
    } else {
      hide Step, TopOk, Waits, Rank, Sound;
      StepKeeps(cfg, s, t, loc);
      SoundStep(cfg, s, t, loc);
      StopsElsewhere(cfg, s, t, loc);
      match Step(cfg, s, t, loc)
      case Out(_, _) =>
      case Go(n, u, l) =>
        if !(n > 0 && s[0] == NUL) {
          EndsWaitless(cfg, s[n..], u, l);
        }
    }
  }
}

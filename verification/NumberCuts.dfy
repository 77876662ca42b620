/**
 Cuts at a negative number, seen in the text alone, and with them the exact condition under which a
 cut does not matter: it is in no surrogate pair, and it does not make "-Infinity" look different.
 */
module NumberCuts {
  import opened Bytes
  import opened Json
  import opened Machine
  import opened Reference
  import opened Scanner
  import opened Split
  import opened Steps
  import opened Unicode
  import Completeness
  import Cuts
  import Simulation

  /** Where the bytes of numbers that end at k begin. */
  function NumberStart(s: Text, k: nat): (p: nat)
    requires k <= |s|
    ensures p <= k && forall i :: p <= i < k ==> IsNumberChar(s[i])
    ensures p > 0 ==> !IsNumberChar(s[p - 1])
  {
    if k > 0 && IsNumberChar(s[k - 1]) then NumberStart(s, k - 1) else k
  }

  predicate SpacesTo(s: Text, k: nat)
    requires k <= |s|
  {
    forall i :: 0 <= i < k ==> IsSpace(s[i])
  }

  /**
   The cut is behind a minus that begins a number, an "i" follows the number, and either the cut is
   right between the two, as in "-" and "Infinity", or one byte of the number is behind the cut, as in
   "-1" and "2Infinity".
   */
  predicate MinusCut(cfg: Config, s: Text, k: nat)
    requires k <= |s|
  {
    var p, n := NumberStart(s, k), NumberLength(s[k..]);
    && p < k && s[p] == MINUS && Scan(cfg.strict, s, k) == Outside && InfinityNext(s[k..])
    && (n == 1 || (n == 0 && p + 1 == k)) && Shows(cfg, s, p, k + n)
  }

  /** The "i" behind a number matters, unless strict mode refuses it in any case, because the number
      is a whole value at the top. */
  predicate Shows(cfg: Config, s: Text, p: nat, e: nat)
    requires p <= e <= |s|
  {
    cfg.strict && SpacesTo(s, p) ==> NumberValue(cfg, s[p..e], HasPoint(s[p..e])) == None
  }

  lemma NextByte(s: Text, i: nat)
    requires i < |s|
    ensures NumberStart(s, i + 1) == if IsNumberChar(s[i]) then NumberStart(s, i) else i + 1
    ensures SpacesTo(s, i + 1) <==> SpacesTo(s, i) && IsSpace(s[i])
  {
  }

  // ---------------------------------------------------------------- what the tokener has counted

  predicate BeginsValue(s: State) {
    s == Start || s == Array || s == ArrayAfterSep || s == ObjectValue
  }

  /** A value comes next, with no byte of a number right before it. */
  predicate AtValue(l: Level) {
    BeginsValue(l.state) || (l.state == Eatws && BeginsValue(l.saved))
  }

  /** An array or an object was opened. */
  predicate Opened(t: Tok) {
    t.below != [] || t.top.current.Arr? || t.top.current.Obj?
  }

  predicate AtStart(l: Level) {
    l.state == Start || (l.state == Eatws && l.saved == Start)
  }

  predicate NumberRead(cfg: Config, s: Text, i: nat, t: Tok, loc: Local)
    requires i <= |s|
  {
    var p := NumberStart(s, i);
    t.pb == s[p..i] && loc.caseLen == i - p && (cfg.strict ==> (t.below == [] <==> SpacesTo(s, p)))
  }

  predicate WordRead(s: Text, i: nat, t: Tok)
    requires i <= |s|
  {
    var n := |Behind(t.pb)|; n <= i && Behind(t.pb) == s[i - n..i]
  }

  /** The tokener at place i of the text, all before it in one call. */
  predicate Counts(cfg: Config, s: Text, i: nat, t: Tok, loc: Local)
    requires i <= |s|
  {
    && (AtValue(t.top) ==> NumberStart(s, i) == i)
    && (Opened(t) ==> !SpacesTo(s, i))
    && (cfg.strict && Skipping(t.top.state) ==> t.top.state == Eatws)
    && (cfg.strict && t.below == [] && AtStart(t.top) ==> SpacesTo(s, i))
    && (t.top.state == Number ==> NumberRead(cfg, s, i, t, loc))
    && (InWord(t.top.state) ==> WordRead(s, i, t))
  }

  predicate CountsMove(cfg: Config, s: Text, i: nat, m: Move) {
    m.Go? && m.n <= 1 && i + m.n <= |s| ==> Counts(cfg, s, i + m.n, m.tok, m.loc)
  }

  lemma CountsGap(cfg: Config, s: Text, i: nat, t: Tok, loc: Local)
    requires Inv(cfg, t) && i < |s| && Counts(cfg, s, i, t, loc) && Skipping(t.top.state)
    ensures CountsMove(cfg, s, i, Step(cfg, s[i..], t, loc))
  {
    hide Step, Inv, TopOk, NumberStart, SpacesTo, NumberRead, WordRead;
    GapIs(cfg, s[i..], t, loc);
    AfterGap(cfg, t);
    NextByte(s, i);
  }

  lemma CountsStart(cfg: Config, s: Text, i: nat, t: Tok, loc: Local)
    requires Inv(cfg, t) && i < |s| && Counts(cfg, s, i, t, loc) && t.top.state == Start
    ensures CountsMove(cfg, s, i, Step(cfg, s[i..], t, loc))
  {
    hide Step, Inv, TopOk, NumberStart, SpacesTo;
    StartIs(cfg, s[i..], t, loc);
    NextByte(s, i);
    assert s[i..i] == [];
  }

  lemma CountsFinish(cfg: Config, s: Text, i: nat, t: Tok, loc: Local)
    requires Inv(cfg, t) && i < |s| && Counts(cfg, s, i, t, loc) && t.top.state == Finish
    ensures CountsMove(cfg, s, i, Step(cfg, s[i..], t, loc))
  {
    hide Step, Inv, TopOk, NumberStart, SpacesTo, NumberRead, WordRead;
    FinishIs(cfg, s[i..], t, loc);
  }

  /** A container stays open, and a value in it begins behind a byte that belongs to no number. */
  lemma StaysOpened(cfg: Config, s: Text, t: Tok, loc: Local)
    requires s != [] && Inv(cfg, t) && InContainer(t.top.state)
    ensures Opened(t)
    ensures var m := Step(cfg, s, t, loc);
            m.Go? ==> && (m.tok.below != [] || !AtStart(m.tok.top))
                      && (Skipping(m.tok.top.state) ==> m.tok.top.state == Eatws)
                      && m.tok.top.state != Number && !InWord(m.tok.top.state)
                      && (AtValue(m.tok.top) && m.n == 0 ==> BeginsValue(t.top.state))
                      && (m.n == 1 ==> !IsNumberChar(s[0]) && !IsSpace(s[0]))
  {
    hide Step, Inv, ObjectAdd;
    ContainerIs(cfg, s, t, loc);
  }

  lemma CountsContainer(cfg: Config, s: Text, i: nat, t: Tok, loc: Local)
    requires Inv(cfg, t) && i < |s| && Counts(cfg, s, i, t, loc) && InContainer(t.top.state)
    ensures CountsMove(cfg, s, i, Step(cfg, s[i..], t, loc))
  {
    hide Step, Inv, NumberStart, SpacesTo, NumberRead, WordRead, IsNumberChar, IsSpace;
    TopIsOk(cfg, t);
    StaysOpened(cfg, s[i..], t, loc);
    NextByte(s, i);
  }

  /** A level with a scalar that is done. */
  predicate Scalar(l: Level) {
    l.state == Eatws && l.saved == Finish && !l.current.Arr? && !l.current.Obj?
  }

  /** The tokener goes on within a value. */
  predicate Within(t: Tok, u: Tok) {
    && (Opened(u) ==> Opened(t)) && !AtValue(u.top) && u.top.state != Number && !InWord(u.top.state)
    && (Skipping(u.top.state) ==> u.top.state == Eatws)
  }

  lemma CountsWithin(cfg: Config, s: Text, i: nat, j: nat, t: Tok, loc: Local, u: Tok, l: Local)
    requires i <= j <= |s| && Counts(cfg, s, i, t, loc) && Within(t, u)
    ensures Counts(cfg, s, j, u, l)
  {
    hide NumberStart, NumberRead, WordRead;
  }

  lemma TextMoves(cfg: Config, s: Text, t: Tok, loc: Local)
    requires s != [] && Inv(cfg, t) && InText(t.top.state)
    ensures var m := Step(cfg, s, t, loc);
            m.Go? ==> Within(t, m.tok)
  {
    hide Step, Inv, CString, Unescape;
    TextIs(cfg, s, t, loc);
  }

  lemma UnicodeMoves(s: Text, t: Tok, loc: Local)
    requires s != [] && t.top.state == EscapeUnicode && (t.top.saved == InString || t.top.saved == InField)
    ensures var m := StepUnicode(s, t, loc);
            m.Go? ==> Within(t, m.tok) && LexOf(m.tok) != Outside
  {
    hide HexValue, Shift, Combine, Append, IsHigh, IsHex;
  }

  lemma CountsText(cfg: Config, s: Text, i: nat, t: Tok, loc: Local)
    requires Inv(cfg, t) && i < |s| && Counts(cfg, s, i, t, loc)
    requires InText(t.top.state) || t.top.state == EscapeUnicode
    ensures var m := Step(cfg, s[i..], t, loc);
            m.Go? && i + m.n <= |s| ==> Counts(cfg, s, i + m.n, m.tok, m.loc)
  {
    hide Step, Inv, Counts, StepUnicode, Within;
    var r := s[i..];
    TopIsOk(cfg, t);
    if InText(t.top.state) {
      TextMoves(cfg, r, t, loc);
    } else {
      UnicodeIs(cfg, r, t, loc);
      UnicodeMoves(r, t, loc);
    }
    var m := Step(cfg, r, t, loc);
    if m.Go? && i + m.n <= |s| {
      CountsWithin(cfg, s, i, i + m.n, t, loc, m.tok, m.loc);
    }
  }

  /** The number grows by one byte. */
  lemma NumberGrows(cfg: Config, s: Text, i: nat, t: Tok, loc: Local, u: Tok, l: Local)
    requires i < |s| && NumberRead(cfg, s, i, t, loc) && IsNumberChar(s[i])
    requires u.pb == t.pb + [s[i]] && l.caseLen == loc.caseLen + 1 && u.below == t.below
    ensures NumberRead(cfg, s, i + 1, u, l)
  {
    hide NumberStart, SpacesTo;
    NextByte(s, i);
    var p := NumberStart(s, i);
    assert s[p..i + 1] == s[p..i] + [s[i]];
  }

  /** A minus turns out to begin "-Infinity". */
  lemma MinusTurns(cfg: Config, s: Text, i: nat, t: Tok, loc: Local, u: Tok)
    requires i <= |s| && NumberRead(cfg, s, i, t, loc) && loc.caseLen == 1 && t.pb != [] && t.pb[0] == MINUS
    requires u.pb == t.pb
    ensures WordRead(s, i, u)
  {
    hide NumberStart;
    assert s[i..i] == [];
  }

  /** A step in a number: one byte more, the word of "-Infinity", or the value. */
  lemma NumberMoves(cfg: Config, s: Text, t: Tok, loc: Local)
    requires s != [] && Inv(cfg, t) && t.top.state == Number
    ensures var m := Step(cfg, s, t, loc);
            m.Go? ==> && m.tok.below == t.below
                      && if IsNumberChar(s[0]) then
                           && m.n == 1 && m.tok.top == t.top && m.tok.pb == t.pb + [s[0]]
                           && m.loc.caseLen == loc.caseLen + 1
                         else if m.tok.top.state == InfinityWord then
                           && m.n == 0 && m.tok.pb == t.pb && m.tok.top.current == t.top.current
                           && loc.caseLen == 1 && t.pb != [] && t.pb[0] == MINUS
                         else m.n == 0 && Scalar(m.tok.top)
  {
    hide Step, Inv, NumberValue, IsNumberChar;
    NumberIs(cfg, s, t, loc);
    ScalarNumber(cfg, t.pb, t.isDouble);
  }

  lemma CountsNumber(cfg: Config, s: Text, i: nat, t: Tok, loc: Local)
    requires Inv(cfg, t) && i < |s| && Counts(cfg, s, i, t, loc) && t.top.state == Number
    ensures CountsMove(cfg, s, i, Step(cfg, s[i..], t, loc))
  {
    hide Step, Inv, NumberStart, SpacesTo, NumberRead, WordRead, IsNumberChar;
    TopIsOk(cfg, t);
    NextByte(s, i);
    NumberMoves(cfg, s[i..], t, loc);
    var m := Step(cfg, s[i..], t, loc);
    if m.Go? {
      if IsNumberChar(s[i]) {
        NumberGrows(cfg, s, i, t, loc, m.tok, m.loc);
      } else if m.tok.top.state == InfinityWord {
        MinusTurns(cfg, s, i, t, loc, m.tok);
      }
    }
  }

  lemma ScalarNumber(cfg: Config, text: Text, isDouble: bool)
    ensures var v := NumberValue(cfg, text, isDouble);
            v.Some? ==> !v.value.Arr? && !v.value.Obj?
  {
  }

  // ---------------------------------------------------------------- words

  /** Bytes with no minus among them that a number cannot begin with. */
  predicate NoNumber(w: Text) {
    w != [] && !IsNumberChar(w[0]) && forall k :: 0 <= k < |w| ==> w[k] != MINUS
  }

  lemma BeginsIsNoNumber(strict: bool, word: Text, w: Text)
    requires word in {NULL_WORD, NAN_WORD, TRUE_WORD, FALSE_WORD, INFINITY_WORD}
    requires w != [] && Begins(strict, word, w)
    ensures NoNumber(w)
  {
    assert SameByte(strict, word[0], w[0]);
    forall k | 0 <= k < |w|
      ensures w[k] != MINUS
    {
      assert SameByte(strict, word[k], w[k]);
    }
  }

  /** A byte read in a word goes behind those read before, and they are no number. */
  lemma WordByte(cfg: Config, s: Text, t: Tok, loc: Local)
    requires s != [] && Inv(cfg, t) && InWord(t.top.state) && WordOk(cfg.strict, t)
    ensures var m := Step(cfg, s, t, loc);
            m.Go? && m.n == 1
            ==> Behind(m.tok.pb) == Behind(t.pb) + [s[0]] && NoNumber(Behind(m.tok.pb)) && InWord(m.tok.top.state)
  {
    hide Step, Inv, StepInfinity, StepWords, SamePrefix, Begins, NoNumber;
    WordIs(cfg, s, t, loc);
    WordMoves(cfg, s, t, loc);
    TopIsOk(cfg, t);
    var m := Step(cfg, s, t, loc);
    if m.Go? && m.n == 1 {
      if t.top.state == InfinityWord {
        LexInfinity(cfg, s[0], t, loc);
        BeginsIsNoNumber(cfg.strict, INFINITY_WORD, Behind(m.tok.pb));
      } else {
        TwoWords(cfg, s, t, loc);
      }
    }
  }

  lemma TwoWords(cfg: Config, s: Text, t: Tok, loc: Local)
    requires s != [] && Inv(cfg, t) && (t.top.state == NullWord || t.top.state == BooleanWord)
    requires WordOk(cfg.strict, t) && Step(cfg, s, t, loc).Go? && Step(cfg, s, t, loc).n == 1
    ensures var u := Step(cfg, s, t, loc).tok;
            Behind(u.pb) == Behind(t.pb) + [s[0]] && NoNumber(Behind(u.pb))
  {
    hide Step, Inv, StepWords, SamePrefix;
    WordIs(cfg, s, t, loc);
    assert Letters(NULL_WORD) && Letters(NAN_WORD) && Letters(TRUE_WORD) && Letters(FALSE_WORD);
    var pb := t.pb + [s[0]];
    if t.top.state == NullWord {
      NullIsNotNan(cfg.strict, t.pb);
      LexWords(cfg, s[0], t, loc, NULL_WORD, Null, NAN_WORD, NotANumber, ErrNull);
      BeginsIsNoNumber(cfg.strict, if Begins(cfg.strict, NULL_WORD, pb) then NULL_WORD else NAN_WORD, pb);
    } else {
      FalseIsNotTrue(cfg.strict, t.pb);
      LexWords(cfg, s[0], t, loc, TRUE_WORD, Bool(true), FALSE_WORD, Bool(false), ErrBoolean);
      BeginsIsNoNumber(cfg.strict, if Begins(cfg.strict, TRUE_WORD, pb) then TRUE_WORD else FALSE_WORD, pb);
    }
    assert t.pb != [] ==> pb[0] == t.pb[0];
  }

  lemma WordGrows(s: Text, i: nat, t: Tok, u: Tok)
    requires i < |s| && WordRead(s, i, t) && Behind(u.pb) == Behind(t.pb) + [s[i]]
    ensures WordRead(s, i + 1, u)
  {
    hide Behind;
    var n := |Behind(t.pb)|;
    assert s[i - n..i + 1] == s[i - n..i] + [s[i]];
  }

  lemma CountsWord(cfg: Config, s: Text, i: nat, t: Tok, loc: Local)
    requires Inv(cfg, t) && i < |s| && Counts(cfg, s, i, t, loc) && InWord(t.top.state) && WordOk(cfg.strict, t)
    ensures CountsMove(cfg, s, i, Step(cfg, s[i..], t, loc))
  {
    hide Step, Inv, TopOk, NumberStart, SpacesTo, WordOk, Behind, NumberRead, WordRead, NoNumber;
    TopIsOk(cfg, t);
    WordByte(cfg, s[i..], t, loc);
    WordSame(cfg, s[i..], t, loc);
    NextByte(s, i);
    var m := Step(cfg, s[i..], t, loc);
    if m.Go? && m.n == 1 {
      WordGrows(s, i, t, m.tok);
    }
  }

  lemma WordSame(cfg: Config, s: Text, t: Tok, loc: Local)
    requires s != [] && Inv(cfg, t) && InWord(t.top.state)
    ensures var m := Step(cfg, s, t, loc);
            m.Go? ==> m.tok.below == t.below && if m.n > 0 then m.tok.top == t.top else Scalar(m.tok.top)
  {
    hide Step, Inv, SamePrefix;
    WordIs(cfg, s, t, loc);
  }

  lemma CountsStep(cfg: Config, s: Text, i: nat, t: Tok, loc: Local)
    requires Inv(cfg, t) && i < |s| && Counts(cfg, s, i, t, loc) && Placed(cfg.strict, s, i, t, loc)
    ensures var m := Step(cfg, s[i..], t, loc);
            m.Go? && i + m.n <= |s| ==> Counts(cfg, s, i + m.n, m.tok, m.loc)
  {
    hide Step, Inv, Counts, WordOk, Sound, Scan;
    if InText(t.top.state) || t.top.state == EscapeUnicode {
      CountsText(cfg, s, i, t, loc);
    } else {
      OneByte(cfg, s[i..], t, loc);
      if InContainer(t.top.state) {
        CountsContainer(cfg, s, i, t, loc);
      } else if InWord(t.top.state) {
        CountsWord(cfg, s, i, t, loc);
      } else if Skipping(t.top.state) {
        CountsGap(cfg, s, i, t, loc);
      } else if t.top.state == Number {
        CountsNumber(cfg, s, i, t, loc);
      } else if t.top.state == Start {
        CountsStart(cfg, s, i, t, loc);
      } else {
        CountsFinish(cfg, s, i, t, loc);
      }
    }
  }

  // ---------------------------------------------------------------- where a byte leaves the tokener

  /** No number with a minus ends here, unless the tokener is in it. */
  predicate Landed(s: Text, i: nat, t: Tok)
    requires i <= |s|
  {
    var p := NumberStart(s, i);
    LexOf(t) == Outside && t.top.state != Number ==> p == i || s[p] != MINUS
  }

  /** Outside of words and numbers no byte of a number is read. */
  predicate LandMove(c: byte, m: Move) {
    m.Go? && m.n == 1 && LexOf(m.tok) == Outside && m.tok.top.state != Number ==> !IsNumberChar(c)
  }

  lemma LandsCalm(cfg: Config, s: Text, t: Tok, loc: Local)
    requires s != [] && Inv(cfg, t) && (Skipping(t.top.state) || InContainer(t.top.state))
    ensures LandMove(s[0], Step(cfg, s, t, loc))
  {
    if Skipping(t.top.state) {
      hide Step, Inv, TopOk;
      GapIs(cfg, s, t, loc);
    } else {
      hide Step, Inv;
      StaysOpened(cfg, s, t, loc);
    }
  }

  lemma LandsText(cfg: Config, s: Text, t: Tok, loc: Local)
    requires s != [] && Inv(cfg, t) && Sound(t, loc) && InText(t.top.state)
    ensures LandMove(s[0], Step(cfg, s, t, loc))
  {
    hide Step, Inv, CString, Unescape, HasPoint, NumberChars;
    TextIs(cfg, s, t, loc);
  }

  lemma LandsOther(cfg: Config, s: Text, t: Tok, loc: Local)
    requires s != [] && Inv(cfg, t)
    requires t.top.state == Start || t.top.state == Finish || t.top.state == Number || t.top.state == EscapeUnicode
    ensures LandMove(s[0], Step(cfg, s, t, loc))
  {
    hide Step, Inv, StepUnicode;
    if t.top.state == Start {
      StartIs(cfg, s, t, loc);
    } else if t.top.state == Finish {
      FinishIs(cfg, s, t, loc);
    } else if t.top.state == Number {
      NumberMoves(cfg, s, t, loc);
    } else {
      UnicodeIs(cfg, s, t, loc);
      UnicodeMoves(s, t, loc);
    }
  }

  /** Where the letters of a word end, no number ends. */
  lemma WordLands(s: Text, i: nat, w: Text)
    requires |w| <= i <= |s| && NoNumber(w) && w == s[i - |w|..i]
    ensures var p := NumberStart(s, i); p == i || s[p] != MINUS
  {
    var p, b := NumberStart(s, i), i - |w|;
    assert s[b] == w[0];
    if b < p < i {
      assert s[p] == w[p - b];
    }
  }

  lemma LandsWord(cfg: Config, s: Text, i: nat, t: Tok, loc: Local)
    requires Inv(cfg, t) && i < |s| && WordRead(s, i, t) && InWord(t.top.state) && WordOk(cfg.strict, t)
    ensures var m := Step(cfg, s[i..], t, loc);
            m.Go? && m.n == 1 ==> Landed(s, i + 1, m.tok)
  {
    hide Step, Inv, NumberStart, WordOk, Behind, NoNumber, WordRead;
    TopIsOk(cfg, t);
    var m := Step(cfg, s[i..], t, loc);
    WordByte(cfg, s[i..], t, loc);
    if m.Go? && m.n == 1 {
      WordGrows(s, i, t, m.tok);
      WordEnds(s, i + 1, m.tok);
    }
  }

  lemma WordEnds(s: Text, i: nat, t: Tok)
    requires i <= |s| && WordRead(s, i, t) && NoNumber(Behind(t.pb))
    ensures Landed(s, i, t)
  {
    hide NoNumber, NumberStart, Behind;
    WordLands(s, i, Behind(t.pb));
  }

  lemma LandsPlain(cfg: Config, s: Text, i: nat, t: Tok, loc: Local)
    requires Inv(cfg, t) && i < |s| && Sound(t, loc) && !InWord(t.top.state)
    ensures var m := Step(cfg, s[i..], t, loc);
            m.Go? && m.n == 1 ==> Landed(s, i + 1, m.tok)
  {
    hide Step, Inv, Sound, LandMove, Landed;
    var r := s[i..];
    TopIsOk(cfg, t);
    if InText(t.top.state) {
      LandsText(cfg, r, t, loc);
    } else if Skipping(t.top.state) || InContainer(t.top.state) {
      LandsCalm(cfg, r, t, loc);
    } else {
      LandsOther(cfg, r, t, loc);
    }
    LandedByte(s, i, Step(cfg, r, t, loc));
  }

  lemma LandedByte(s: Text, i: nat, m: Move)
    requires i < |s| && LandMove(s[i], m)
    ensures m.Go? && m.n == 1 ==> Landed(s, i + 1, m.tok)
  {
    hide NumberStart;
    NextByte(s, i);
  }

  lemma Lands(cfg: Config, s: Text, i: nat, t: Tok, loc: Local)
    requires Inv(cfg, t) && i < |s| && Counts(cfg, s, i, t, loc) && Placed(cfg.strict, s, i, t, loc)
    ensures var m := Step(cfg, s[i..], t, loc);
            m.Go? && m.n == 1 ==> Landed(s, i + 1, m.tok)
  {
    hide Step, Inv, NumberStart, NumberRead, WordRead, WordOk, Sound, Scan, Landed, SpacesTo, AtValue, AtStart, Opened;
    if InWord(t.top.state) {
      LandsWord(cfg, s, i, t, loc);
    } else {
      LandsPlain(cfg, s, i, t, loc);
    }
  }

  // ---------------------------------------------------------------- the tokener's bad cuts and the text's

  lemma PointSplits(a: Text, b: Text)
    ensures HasPoint(a + b) <==> HasPoint(a) || HasPoint(b)
  {
    var s := a + b;
    assert forall i :: 0 <= i < |a| ==> s[i] == a[i];
    assert forall i :: 0 <= i < |b| ==> s[|a| + i] == b[i];
  }

  /** The count of one call and that after the cut lead to different tests. */
  lemma AgainIs(cfg: Config, s: Text, k: nat, t: Tok, loc: Local)
    requires k <= |s| && t.top.state == Number && NumberRead(cfg, s, k, t, loc)
    ensures var p, n := NumberStart(s, k), NumberLength(s[k..]);
            CountsAgain(s[k..], t, loc)
            <==> p < k && s[p] == MINUS && InfinityNext(s[k..]) && (n == 1 || (n == 0 && p + 1 == k))
  {
    hide NumberStart, NumberLength, SpacesTo, InfinityNext;
  }

  lemma Adjacent(s: Text, p: nat, k: nat, n: nat)
    requires p <= k && k + n <= |s|
    ensures s[p..k] + s[k..][..n] == s[p..k + n]
  {
    assert s[k..][..n] == s[k..k + n];
  }

  /** What is read of the number and what comes behind the cut are the whole number. */
  lemma WholeNumber(cfg: Config, s: Text, k: nat, t: Tok, loc: Local)
    requires k <= |s| && NumberRead(cfg, s, k, t, loc) && t.isDouble == HasPoint(t.pb)
    ensures var p, n := NumberStart(s, k), NumberLength(s[k..]);
            && t.pb + s[k..][..n] == s[p..k + n]
            && (t.isDouble || HasPoint(s[k..][..n])) == HasPoint(s[p..k + n])
  {
    hide NumberStart, NumberLength, HasPoint, SpacesTo;
    var p, n := NumberStart(s, k), NumberLength(s[k..]);
    Adjacent(s, p, k, n);
    PointSplits(s[p..k], s[k..][..n]);
  }

  lemma ShowsIs(cfg: Config, s: Text, k: nat, t: Tok, loc: Local)
    requires k <= |s| && NumberRead(cfg, s, k, t, loc) && t.isDouble == HasPoint(t.pb)
    ensures var n := NumberLength(s[k..]);
            var digits := s[k..][..n];
            (cfg.strict && t.below == [] ==> NumberValue(cfg, t.pb + digits, t.isDouble || HasPoint(digits)) == None)
            <==> Shows(cfg, s, NumberStart(s, k), k + n)
  {
    hide NumberStart, NumberLength, NumberValue, HasPoint, SpacesTo, NumberRead;
    WholeNumber(cfg, s, k, t, loc);
    if cfg.strict {
      TopNumber(cfg, s, k, t, loc);
    }
  }

  /** In strict mode a number is at the top if only spaces are before it. */
  lemma TopNumber(cfg: Config, s: Text, k: nat, t: Tok, loc: Local)
    requires k <= |s| && NumberRead(cfg, s, k, t, loc) && cfg.strict
    ensures t.below == [] <==> SpacesTo(s, NumberStart(s, k))
  {
  }

  /** At the cut, the tokener's condition is that of the text. */
  lemma MinusIs(cfg: Config, s: Text, k: nat, t: Tok, loc: Local)
    requires k <= |s| && t.top.state == Number && NumberRead(cfg, s, k, t, loc) && t.isDouble == HasPoint(t.pb)
    requires Scan(cfg.strict, s, k) == Outside
    ensures CutsMinus(cfg, s[k..], t, loc) <==> MinusCut(cfg, s, k)
  {
    hide NumberStart, NumberLength, NumberValue, HasPoint, Scan, InfinityNext, CountsAgain, NumberRead, Shows;
    AgainIs(cfg, s, k, t, loc);
    ShowsIs(cfg, s, k, t, loc);
  }

  /** Outside of strings is not within an escape. */
  lemma OutsideIsAhead(strict: bool, s: Text, i: nat, k: nat)
    requires i < k <= |s| && Scan(strict, s, k) == Outside && IsHex(s[i])
    requires Scan(strict, s, i) == Inside(QUOTE) || Scan(strict, s, i) == Inside(APOSTROPHE)
    ensures i + 1 < k
    ensures i + 2 < |s| && s[i + 1] == BACKSLASH && s[i + 2] == LOWER_U ==> i + 3 < k
  {
    assert Scan(strict, s, i + 1) == Scan(strict, s, i);
    if i + 2 < |s| && s[i + 1] == BACKSLASH && s[i + 2] == LOWER_U {
      assert Scan(strict, s, i + 2).Escaped? && Scan(strict, s, i + 3).Inside?;
    }
  }

  lemma GoesOn(cfg: Config, a: Text, t: Tok, loc: Local)
    requires Inv(cfg, t) && a != [] && Run(cfg, a, t, loc).More?
    ensures var m := Step(cfg, a, t, loc);
            && m.Go? && m.n <= |a| && !(m.n > 0 && a[0] == NUL) && Inv(cfg, m.tok)
            && (m.n > 0 || Rank(m.tok.top) < Rank(t.top)) && Run(cfg, a[m.n..], m.tok, m.loc).More?
  {
    hide Step, TopOk, Waits, Rank;
    StepKeeps(cfg, a, t, loc);
  }

  /** Before a cut outside of strings the step on the piece is that on the whole text. */
  lemma SameAhead(cfg: Config, s: Text, i: nat, k: nat, t: Tok, loc: Local)
    requires Inv(cfg, t) && i < k < |s| && Placed(cfg.strict, s, i, t, loc) && Scan(cfg.strict, s, k) == Outside
    requires Run(cfg, s[i..k], t, loc).More?
    ensures Step(cfg, s[i..k], t, loc) == Step(cfg, s[i..], t, loc)
  {
    hide Step, Inv, Run, Scan, WordOk, HoldsHigh, StepUnicode, NumberChars, HasPoint, IsHex;
    var a, b := s[i..k], s[k..];
    assert a + b == s[i..] && a[0] == s[i];
    if t.top.state == EscapeUnicode {
      UnicodeIs(cfg, a, t, loc);
      UnicodeIs(cfg, s[i..], t, loc);
      if !IsHex(s[i]) {
        NoDigitStops(cfg, a, t, loc);
      }
      OutsideIsAhead(cfg.strict, s, i, k);
      HoldsPrefix(s[i..], t, loc);
      UnicodePrefix(a, b, t, loc);
    } else {
      StepPrefix(cfg, a, b, t, loc);
    }
  }

  lemma HoldsPrefix(s: Text, t: Tok, loc: Local)
    ensures HoldsHigh(s, t, loc) ==> |s| >= 3 && s[1] == BACKSLASH && s[2] == LOWER_U
  {
  }

  /** One step of the tokener is no bad cut, or the pair that it splits is seen. */
  lemma BadSteps(cfg: Config, s: Text, i: nat, k: nat, t: Tok, loc: Local)
    requires Inv(cfg, t) && i < k < |s| && Tracks(cfg.strict, s, i, t, loc, true)
    ensures var m := Step(cfg, s[i..], t, loc);
            m.Go? && i + m.n <= k && !(m.n > 0 && s[i] == NUL)
            ==> && Inv(cfg, m.tok)
                && (BadCut(cfg, s[i + m.n..], m.tok, m.loc, k - i - m.n) ==> BadCut(cfg, s[i..], t, loc, k - i))
                && (BadCut(cfg, s[i..], t, loc, k - i) && !PairCut(cfg.strict, s, k)
                    ==> BadCut(cfg, s[i + m.n..], m.tok, m.loc, k - i - m.n))
  {
    hide Step, Inv, HoldsHigh, SplitsPair, CutsMinus, Tracks, PairCut;
    var r := s[i..];
    StepKeeps(cfg, r, t, loc);
    TopIsOk(cfg, t);
    var m := Step(cfg, r, t, loc);
    if m.Go? && m.n <= |r| {
      assert r[m.n..] == s[i + m.n..] && r[0] == s[i];
    }
    Cuts.HoldsLong(r, t, loc);
    if HoldsHigh(r, t, loc) && SplitsPair(r, k - i) {
      PairNow(cfg.strict, s, i, t, loc, k, true);
    }
  }

  /** One step on the way to the cut. */
  lemma StepToCut(cfg: Config, s: Text, i: nat, k: nat, t: Tok, loc: Local)
    requires Inv(cfg, t) && i < k < |s| && Tracks(cfg.strict, s, i, t, loc, true) && Counts(cfg, s, i, t, loc)
    requires Run(cfg, s[i..k], t, loc).More? && Scan(cfg.strict, s, k) == Outside
    ensures TopOk(t.top)
    ensures var m := Step(cfg, s[i..], t, loc);
            && m.Go? && i + m.n <= k && !(m.n > 0 && s[i] == NUL) && Inv(cfg, m.tok)
            && (m.n > 0 || Rank(m.tok.top) < Rank(t.top)) && Run(cfg, s[i + m.n..k], m.tok, m.loc).More?
            && Tracks(cfg.strict, s, i + m.n, m.tok, m.loc, true) && Counts(cfg, s, i + m.n, m.tok, m.loc)
            && (m.n > 0 ==> Landed(s, i + m.n, m.tok))
  {
    hide Step, Inv, Run, Rank, Tracks, Counts, Landed, Scan;
    var a := s[i..k];
    TopIsOk(cfg, t);
    TracksPlaced(cfg.strict, s, i, t, loc);
    GoesOn(cfg, a, t, loc);
    SameAhead(cfg, s, i, k, t, loc);
    var m := Step(cfg, a, t, loc);
    assert a[0] == s[i] && a[m.n..] == s[i + m.n..k];
    TracksStep(cfg, s, i, t, loc, true);
    CountsStep(cfg, s, i, t, loc);
    LandsAt(cfg, s, i, t, loc);
  }

  /** Reading on to the cut, the two conditions are the same. */
  lemma {:induction false} MinusWalk(cfg: Config, s: Text, i: nat, k: nat, t: Tok, loc: Local)
    requires Inv(cfg, t) && i <= k < |s| && Tracks(cfg.strict, s, i, t, loc, true) && Counts(cfg, s, i, t, loc)
    requires i == k ==> Landed(s, i, t)
    requires Run(cfg, s[i..k], t, loc).More? && Scan(cfg.strict, s, k) == Outside
    ensures MinusCut(cfg, s, k) ==> BadCut(cfg, s[i..], t, loc, k - i)
    ensures BadCut(cfg, s[i..], t, loc, k - i) && !PairCut(cfg.strict, s, k) ==> MinusCut(cfg, s, k)
    decreases |s| - i, Rank(t.top)
  {
    hide Step, Inv, Run, Rank, Tracks, Counts, Landed, BadCut, PairCut, MinusCut, Scan;
    if i == k {
      AtCut(cfg, s, k, t, loc);
    } else {
      StepToCut(cfg, s, i, k, t, loc);
      BadSteps(cfg, s, i, k, t, loc);
      var m := Step(cfg, s[i..], t, loc);
      MinusWalk(cfg, s, i + m.n, k, m.tok, m.loc);
    }
  }

  lemma TracksPlaced(strict: bool, s: Text, i: nat, t: Tok, loc: Local)
    requires i <= |s| && Tracks(strict, s, i, t, loc, true)
    ensures Placed(strict, s, i, t, loc)
  {
  }

  lemma LandsAt(cfg: Config, s: Text, i: nat, t: Tok, loc: Local)
    requires Inv(cfg, t) && i < |s| && Counts(cfg, s, i, t, loc) && Placed(cfg.strict, s, i, t, loc)
    ensures var m := Step(cfg, s[i..], t, loc);
            m.Go? && m.n > 0 && i + m.n < |s| ==> Landed(s, i + m.n, m.tok)
  {
    hide Step, Inv, Counts, Placed, Landed;
    Lands(cfg, s, i, t, loc);
    if t.top.state == EscapeUnicode {
      UnicodeIs(cfg, s[i..], t, loc);
      HeldLands(s, i, t, loc);
    } else {
      PlacedIsSound(cfg.strict, s, i, t, loc);
      OneByte(cfg, s[i..], t, loc);
    }
  }

  lemma PlacedIsSound(strict: bool, s: Text, i: nat, t: Tok, loc: Local)
    requires i <= |s| && Placed(strict, s, i, t, loc)
    ensures Sound(t, loc) && WordOk(strict, t)
  {
  }

  lemma HeldLands(s: Text, i: nat, t: Tok, loc: Local)
    requires i < |s| && t.top.state == EscapeUnicode
    ensures var m := StepUnicode(s[i..], t, loc);
            m.Go? && m.n > 1 && i + m.n < |s| ==> Landed(s, i + m.n, m.tok)
  {
    hide HexValue, Shift, Combine, Append, IsHigh, IsHex, NumberStart;
  }

  lemma AtCut(cfg: Config, s: Text, k: nat, t: Tok, loc: Local)
    requires Inv(cfg, t) && k < |s| && Tracks(cfg.strict, s, k, t, loc, true) && Counts(cfg, s, k, t, loc)
    requires Landed(s, k, t) && Scan(cfg.strict, s, k) == Outside
    ensures MinusCut(cfg, s, k) <==> BadCut(cfg, s[k..], t, loc, 0)
  {
    hide Inv, Scan, NumberRead, WordRead, NumberStart, NumberLength, NumberValue, HasPoint, SpacesTo, NumberChars,
      WordOk, Shows;
    TracksPlaced(cfg.strict, s, k, t, loc);
    if t.top.state == Number {
      MinusIs(cfg, s, k, t, loc);
    }
  }

  /** A cut is bad for a fresh tokener if and only if the text shows it. */
  lemma BadIffSeen(cfg: Config, s: Text, t: Tok, k: nat)
    requires cfg.maxDepth > 0 && 0 < k < |s| && Inv(cfg, Reset(t)) && Call(cfg, s[..k], Reset(t)).More?
    ensures BadCut(cfg, s, Reset(t), NO_LOCALS, k) <==> PairCut(cfg.strict, s, k) || MinusCut(cfg, s, k)
  {
    hide Run, Inv, BadCut, Tracks, PairCutAt, MinusCut, NumberCut, Counts, Scan;
    var r := Reset(t);
    StartTracks(cfg, s, t, true);
    StartCounts(cfg, s, t);
    assert s[0..] == s && s[0..k] == s[..k];
    if PairCut(cfg.strict, s, k) {
      var p :| 0 <= p <= k && PairCutAt(cfg.strict, s, p, k);
      CutIsBehind(cfg.strict, s, p, k);
      SeenIsBad(cfg, s, 0, r, NO_LOCALS, p, k);
    } else if Scan(cfg.strict, s, k) == Outside {
      MinusWalk(cfg, s, 0, k, r, NO_LOCALS);
    } else {
      MinusIsOutside(cfg, s, k);
      if BadCut(cfg, s, r, NO_LOCALS, k) {
        BadIsSeen(cfg, s, 0, r, NO_LOCALS, k, true);
      }
    }
  }

  lemma MinusIsOutside(cfg: Config, s: Text, k: nat)
    requires k <= |s|
    ensures MinusCut(cfg, s, k) || NumberCut(cfg.strict, s, k) ==> Scan(cfg.strict, s, k) == Outside
  {
  }

  lemma StartCounts(cfg: Config, s: Text, t: Tok)
    ensures Counts(cfg, s, 0, Reset(t), NO_LOCALS)
  {
  }

  /**
   Split invariance, in terms of the text alone. A fresh tokener that waits after a piece goes on as
   if both pieces had come in one call, at every beginning of the rest that does not end within an
   escape, if and only if the cut is in no surrogate pair, not right after the prefix of an escape
   behind a high half, and does not make a minus and an "i" look different.
   */
  lemma SplitSeen(cfg: Config, a: Text, b: Text, t: Tok)
    requires cfg.maxDepth > 0 && a != [] && b != []
    requires Inv(cfg, Reset(t)) && Call(cfg, a, Reset(t)).More?
    ensures Inv(cfg, Call(cfg, a, Reset(t)).tok)
    ensures (forall j :: 0 < j <= |b| && (j == |b| || !Cuts.Midway(Call(cfg, a + b[..j], Reset(t))))
                         ==> Cuts.SameAt(cfg, a, b, Reset(t), j))
            <==> !PairCut(cfg.strict, a + b, |a|) && !MinusCut(cfg, a + b, |a|)
  {
    hide Run, Inv, BadCut, Cuts.Midway, MinusCut, PairCut, Sound;
    assert (a + b)[..|a|] == a;
    StartIsSound(t);
    Cuts.SplitExact(cfg, a, b, Reset(t));
    BadIffSeen(cfg, a + b, t, |a|);
  }

  /** "-" alone reads as no number. */
  lemma MinusIsNoNumber(cfg: Config)
    ensures NumberValue(cfg, [MINUS], false) == None && !HasPoint([MINUS])
  {
  }

  lemma MinusWhole(cfg: Config, s: Text)
    requires s == [MINUS] + (INFINITY_WORD + [SPACE])
    ensures Document(cfg, s, 0) == Accept(Infinite(true), 0, 0)
  {
    var behind, i := INFINITY_WORD + [SPACE], Infinite(true);
    assert s[1..] == behind && NumberLength(s) == 1;
    Completeness.CommonLengthSelf(cfg.strict, INFINITY_WORD, [SPACE]);
    assert behind[8..] == [SPACE];
    assert NumberToken(cfg, s, 0) == Ok(i, [SPACE], 8);
    assert [SPACE][1..] == [] && Spaces(cfg.strict, []) == GapEnd;
    assert AfterValue(cfg.strict, [SPACE], 0, i) == NextHalt(Accept(i, 0, 0));
    hide NumberToken, AfterValue;
    assert Value(cfg, s, 0, 0) == Ok(i, [SPACE], 8);
  }

  lemma MinusIsCut(cfg: Config, s: Text)
    requires s == [MINUS] + (INFINITY_WORD + [SPACE])
    ensures MinusCut(cfg, s, 1)
  {
    MinusIsNoNumber(cfg);
    assert NumberStart(s, 0) == 0 && NumberStart(s, 1) == 0;
    assert s[1..][0] == UPPER_I && NumberLength(s[1..]) == 0;
    assert Scan(cfg.strict, s, 0) == Outside && Scan(cfg.strict, s, 1) == Outside;
    assert s[0..1] == [MINUS];
  }

  /** A token begins where a gap ends. */
  lemma GapEnds(cfg: Config, s: Text, t: Tok, loc: Local)
    requires Inv(cfg, t) && t.top.state == Eatws && s != [] && !IsSpace(s[0]) && s[0] != SLASH
    ensures Inv(cfg, In(t, t.top.saved)) && Run(cfg, s, t, loc) == Run(cfg, s, In(t, t.top.saved), loc)
  {
    hide Step, Inv, Run, IsSpace;
    TopIsOk(cfg, t);
    GapIs(cfg, s, t, loc);
    var u, l, rest := Simulation.OneStep(cfg, s, t, loc);
  }

  lemma MinusBegins(cfg: Config, s: Text, t: Tok) returns (u: Tok, l: Local)
    requires Inv(cfg, t) && t.top.state == Start && s != [] && s[0] == MINUS
    ensures u == In(t, Number).(pb := [], isDouble := false) && Inv(cfg, u)
    ensures Run(cfg, s, t, NO_LOCALS) == Run(cfg, s, u, l)
  {
    hide Step, Inv, Run;
    TopIsOk(cfg, t);
    StartIs(cfg, s, t, NO_LOCALS);
    var s';
    u, l, s' := Simulation.OneStep(cfg, s, t, NO_LOCALS);
  }

  lemma OneMinus(cfg: Config, t: Tok) returns (u: Tok)
    requires cfg.maxDepth > 0 && Inv(cfg, Reset(t))
    ensures u == In(Reset(t), Number).(pb := [MINUS], isDouble := false)
    ensures Inv(cfg, u) && Call(cfg, [MINUS], Reset(t)) == More(u)
  {
    hide Step, Inv, Run;
    GapEnds(cfg, [MINUS], Reset(t), NO_LOCALS);
    var r, l := MinusBegins(cfg, [MINUS], In(Reset(t), Start));
    TopIsOk(cfg, r);
    NumberIs(cfg, [MINUS], r, l);
    var l', s';
    u, l', s' := Simulation.OneStep(cfg, [MINUS], r, l);
    assert s' == [];
    Simulation.EndOfInput(cfg, u, l');
  }

  lemma MinusFails(cfg: Config, s: Text, u: Tok)
    requires Inv(cfg, u) && u.top.state == Number && u.pb == [MINUS] && !u.isDouble && s != [] && s[0] == UPPER_I
    ensures Call(cfg, s, u) == Failed(ErrNumber, |s|)
  {
    MinusIsNoNumber(cfg);
    NumberIs(cfg, s, u, NO_LOCALS);
    TopIsOk(cfg, u);
    hide NumberValue;
    assert Step(cfg, s, u, NO_LOCALS) == Out(u, ErrNumber);
    hide Step, Inv;
  }

  /** A cut at a minus that matters: "-Infinity" is a number in one call and an error in two. */
  lemma MinusCanMatter(cfg: Config, t: Tok)
    requires cfg.maxDepth > 0 && t.stPos == 0 && Inv(cfg, Reset(t))
    ensures var behind := INFINITY_WORD + [SPACE];
            && MinusCut(cfg, [MINUS] + behind, 1)
            && Simulation.View(Call(cfg, [MINUS] + behind, Reset(t))) == Accept(Infinite(true), 0, 0)
            && var o := Call(cfg, [MINUS], Reset(t));
               o.More? && Inv(cfg, o.tok) && Call(cfg, behind, o.tok) == Failed(ErrNumber, |behind|)
  {
    hide Step, Run, Inv, MinusCut, Document;
    var behind := INFINITY_WORD + [SPACE];
    MinusIsCut(cfg, [MINUS] + behind);
    MinusWhole(cfg, [MINUS] + behind);
    Simulation.CallIsDocument(cfg, [MINUS] + behind, t);
    var u := OneMinus(cfg, t);
    MinusFails(cfg, behind, u);
  }
}

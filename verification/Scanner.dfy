/**
 Bad cuts in strings, seen in the text alone: a scanner that knows strings and comments finds the
 surrogate escapes of a text, and the tokener is at their digits exactly where the text has them.
 */
module Scanner {
  import opened Bytes
  import opened Json
  import opened Unicode
  import opened Machine
  import opened Reference
  import opened Split
  import opened Steps
  import Cuts
  import Simulation

  // Where a text ends: between tokens or in one that is no string, in a comment, or in a string or a
  // field name, perhaps right after a backslash.
  datatype Lex = Outside | Slash | Block | Star | Line | Inside(quote: byte) | Escaped(quote: byte)

  function NextLex(strict: bool, l: Lex, c: byte): Lex {
    match l
    case Outside =>
      if c == QUOTE || c == APOSTROPHE then Inside(c) else if c == SLASH && !strict then Slash else Outside
    case Slash => if c == STAR then Block else if c == SLASH then Line else Outside
    case Block => if c == STAR then Star else Block
    case Star => if c == SLASH then Outside else Block
    case Line => if c == LF then Outside else Line
    case Inside(q) => if c == q then Outside else if c == BACKSLASH then Escaped(q) else Inside(q)
    case Escaped(q) => Inside(q)
  }

  /** Where the text before place i ends. */
  function Scan(strict: bool, s: Text, i: nat): Lex
    requires i <= |s|
  {
    if i == 0 then Outside else NextLex(strict, Scan(strict, s, i - 1), s[i - 1])
  }

  /** A unicode escape begins at p. */
  predicate EscapeAt(strict: bool, s: Text, p: nat) {
    p + 2 <= |s| && s[p] == BACKSLASH && s[p + 1] == LOWER_U && Scan(strict, s, p).Inside?
  }

  /** It has its four digits. */
  predicate WholeEscape(strict: bool, s: Text, p: nat) {
    EscapeAt(strict, s, p) && HexCount(s[p + 2..]) == 4
  }

  /** The code that the escape finishes: its own, or that of the pair that it makes with the one before. */
  function CodeAt(strict: bool, s: Text, p: nat): nat
    requires WholeEscape(strict, s, p)
    decreases p, 1
  {
    Combine(PendingAt(strict, s, p), HexCode(s[p + 2..])).0
  }

  /** The high half that the escape right before p leaves to the one at p, or 0. */
  function PendingAt(strict: bool, s: Text, p: nat): nat
    requires p <= |s|
    decreases p, 0
  {
    if p >= 6 && WholeEscape(strict, s, p - 6) && CodeAt(strict, s, p - 6) >= 0x800 && IsHigh(CodeAt(strict, s, p - 6))
    then CodeAt(strict, s, p - 6) else 0
  }

  /** The escape at p is a high half, and another escape comes right after it. */
  predicate Held(strict: bool, s: Text, p: nat) {
    && WholeEscape(strict, s, p) && p + 8 <= |s| && s[p + 6] == BACKSLASH && s[p + 7] == LOWER_U
    && PendingAt(strict, s, p + 6) != 0
  }

  /** A cut at k splits the high half at p from a low half that one call would pair with it, or comes
      right after the prefix of the escape behind it. */
  predicate PairCutAt(strict: bool, s: Text, p: nat, k: nat) {
    p + 6 <= k && Held(strict, s, p) && SplitsPair(s[p + 5..], k - (p + 5))
  }

  predicate PairCut(strict: bool, s: Text, k: nat) {
    exists p :: 0 <= p <= k && PairCutAt(strict, s, p, k)
  }

  /** The cut is in or behind a number that an "i" follows, as in no RFC 8259 text. */
  predicate NumberCut(strict: bool, s: Text, k: nat)
    requires k <= |s|
  {
    k > 0 && Scan(strict, s, k) == Outside && IsNumberChar(s[k - 1]) && InfinityNext(s[k..])
  }

  predicate CleanCut(strict: bool, s: Text, k: nat)
    requires k <= |s|
  {
    !PairCut(strict, s, k) && !NumberCut(strict, s, k)
  }

  // ---------------------------------------------------------------- words

  /** A byte that opens neither a string nor a comment. */
  predicate OpensNothing(c: byte) {
    c != QUOTE && c != APOSTROPHE && c != SLASH
  }

  predicate Letters(s: Text) {
    forall i :: 0 <= i < |s| ==> 65 <= s[i] <= 90 || 97 <= s[i] <= 122
  }

  /** What was read is the start of a word. */
  predicate Begins(strict: bool, word: Text, read: Text) {
    |read| <= |word| && SamePrefix(strict, word, read, |read|)
  }

  /** The letters of a word behind the minus. */
  function Behind(pb: Text): Text {
    if pb != [] && pb[0] == MINUS then pb[1..] else pb
  }

  /** What the buffer of a word state holds. After a minus the position may be stale. */
  predicate WordOk(strict: bool, t: Tok) {
    match t.top.state
    case NullWord => t.stPos == |t.pb| && (Begins(strict, NULL_WORD, t.pb) || Begins(strict, NAN_WORD, t.pb))
    case BooleanWord => t.stPos == |t.pb| && (Begins(strict, TRUE_WORD, t.pb) || Begins(strict, FALSE_WORD, t.pb))
    case InfinityWord =>
      || (t.stPos == |Behind(t.pb)| && Begins(strict, INFINITY_WORD, Behind(t.pb)))
      || (t.pb != [] && t.pb[0] == MINUS && forall i :: 0 < i < |t.pb| ==> IsNumberChar(t.pb[i]))
    case _ => true
  }

  lemma LetterOpensNothing(strict: bool, word: Text, i: nat, c: byte)
    requires i < |word| && Letters(word) && SameByte(strict, word[i], c)
    ensures OpensNothing(c)
  {
  }

  /** One more byte of a word. */
  lemma OneMore(strict: bool, word: Text, read: Text, c: byte)
    requires Letters(word) && |read| < |word| && SamePrefix(strict, word, read + [c], |read| + 1)
    ensures Begins(strict, word, read + [c]) && OpensNothing(c)
  {
    LetterOpensNothing(strict, word, |read|, (read + [c])[|read|]);
  }

  lemma NoMore(strict: bool, word: Text, read: Text, c: byte)
    requires |read| >= |word| && SamePrefix(strict, word, read + [c], |word|)
    ensures SamePrefix(strict, word, read, |word|)
  {
    assert forall i :: 0 <= i < |word| ==> (read + [c])[i] == read[i];
  }

  /** A step in a state with two words reads a letter of one of them. */
  lemma LexWords(
    cfg: Config, c: byte, t: Tok, loc: Local, first: Text, v1: Json, second: Text, v2: Json, e: Error)
    requires Letters(first) && Letters(second) && t.stPos == |t.pb|
    requires Begins(cfg.strict, first, t.pb) || Begins(cfg.strict, second, t.pb)
    requires |t.pb| > |first| ==> !SamePrefix(cfg.strict, first, t.pb, |first|)
    requires |t.pb| > |second| ==> !SamePrefix(cfg.strict, second, t.pb, |second|)
    ensures var m := StepWords(cfg, c, t, loc, first, v1, second, v2, e);
            m.Go? && m.n == 1
            ==> && OpensNothing(c) && m.tok == t.(pb := t.pb + [c], stPos := t.stPos + 1)
                && (Begins(cfg.strict, first, m.tok.pb) || Begins(cfg.strict, second, m.tok.pb))
  {
    hide SamePrefix, Begins, Letters, OpensNothing;
    var k, pb := |t.pb|, t.pb + [c];
    if SamePrefix(cfg.strict, first, pb, Min(k + 1, |first|)) {
      if k < |first| {
        OneMore(cfg.strict, first, t.pb, c);
      } else if k > |first| {
        NoMore(cfg.strict, first, t.pb, c);
      }
    } else if SamePrefix(cfg.strict, second, pb, Min(k + 1, |second|)) {
      if k < |second| {
        OneMore(cfg.strict, second, t.pb, c);
      } else if k > |second| {
        NoMore(cfg.strict, second, t.pb, c);
      }
    }
  }

  lemma SameLower(strict: bool, a: byte, b: byte, c: byte)
    ensures SameByte(strict, a, c) && SameByte(strict, b, c) ==> Lower(a) == Lower(b)
  {
  }

  /** The words of a state differ early. */
  lemma FalseIsNotTrue(strict: bool, s: Text)
    requires Begins(strict, FALSE_WORD, s) || Begins(strict, TRUE_WORD, s)
    ensures |s| > |TRUE_WORD| ==> !SamePrefix(strict, TRUE_WORD, s, |TRUE_WORD|)
    ensures |s| <= |FALSE_WORD|
  {
    if |s| > |TRUE_WORD| {
      SameLower(strict, TRUE_WORD[0], FALSE_WORD[0], s[0]);
      hide SameByte;
    }
  }

  lemma NullIsNotNan(strict: bool, s: Text)
    requires Begins(strict, NULL_WORD, s) || Begins(strict, NAN_WORD, s)
    ensures |s| > |NAN_WORD| ==> !SamePrefix(strict, NAN_WORD, s, |NAN_WORD|)
    ensures |s| <= |NULL_WORD|
  {
    if |s| > |NAN_WORD| {
      SameLower(strict, NULL_WORD[1], NAN_WORD[1], s[1]);
      hide SameByte;
    }
  }

  lemma LexInfinity(cfg: Config, c: byte, t: Tok, loc: Local)
    requires t.top.state == InfinityWord && WordOk(cfg.strict, t)
    ensures var m := StepInfinity(cfg, c, t, loc);
            m.Go? && m.n == 1
            ==> && OpensNothing(c) && m.tok == t.(pb := t.pb + [c], stPos := t.stPos + 1)
                && Begins(cfg.strict, INFINITY_WORD, Behind(m.tok.pb)) && m.tok.stPos == |Behind(m.tok.pb)|
  {
    var m := StepInfinity(cfg, c, t, loc);
    if m.Go? && m.n == 1 {
      var word := Behind(t.pb + [c]);
      assert SamePrefix(cfg.strict, INFINITY_WORD, word, Min(t.stPos + 1, |INFINITY_WORD|));
      FirstIsI(cfg.strict, word, Min(t.stPos + 1, |INFINITY_WORD|));
      var read := Behind(t.pb);
      assert word == read + [c] by {
        assert t.pb == [] ==> t.pb + [c] == [c];
      }
      if read != [] {
        assert !IsNumberChar(read[0]) && read[0] == word[0];
      }
      hide SamePrefix, Begins, IsNumberChar, OpensNothing;
      WordGrows(cfg.strict, t, read, c);
    }
  }

  lemma FirstIsI(strict: bool, word: Text, n: nat)
    requires 0 < n <= |INFINITY_WORD| && SamePrefix(strict, INFINITY_WORD, word, n)
    ensures word != [] && !IsNumberChar(word[0])
  {
    assert SameByte(strict, INFINITY_WORD[0], word[0]);
  }

  lemma WordGrows(strict: bool, t: Tok, read: Text, c: byte)
    requires read == [] || (|read| == t.stPos && Begins(strict, INFINITY_WORD, read))
    requires t.stPos != |INFINITY_WORD|
    requires SamePrefix(strict, INFINITY_WORD, read + [c], Min(t.stPos + 1, |INFINITY_WORD|))
    ensures |read| == t.stPos && Begins(strict, INFINITY_WORD, read + [c]) && OpensNothing(c)
  {
    assert Letters(INFINITY_WORD);
    assert |read| == t.stPos;
    hide SamePrefix, SameByte, OpensNothing, Letters;
    OneMore(strict, INFINITY_WORD, read, c);
  }

  // ---------------------------------------------------------------- the tokener and the scanner

  function LexOf(t: Tok): Lex {
    match t.top.state
    case CommentStart => Slash
    case Comment => Block
    case CommentEnd => Star
    case CommentEol => Line
    case InString | InField | EscapeUnicode => Inside(t.quote)
    case StringEscape => Escaped(t.quote)
    case _ => Outside
  }

  /** A step as the scanner sees it. */
  predicate LexMove(strict: bool, s: Text, t: Tok, m: Move)
    requires s != []
  {
    match m
    case Out(_, _) => true
    case Go(n, u, _) =>
      && WordOk(strict, u)
      && (n == 0 ==> LexOf(u) == LexOf(t))
      && (n == 1 ==> LexOf(u) == NextLex(strict, LexOf(t), s[0]))
      && (n > 1 ==> n == 3 && t.top.state == EscapeUnicode && u.top == t.top && u.quote == t.quote)
  }

  lemma LexGap(cfg: Config, s: Text, t: Tok, loc: Local)
    requires s != [] && Inv(cfg, t) && Skipping(t.top.state)
    ensures LexMove(cfg.strict, s, t, Step(cfg, s, t, loc))
  {
    hide Step, Inv, TopOk, Begins, SamePrefix;
    GapIs(cfg, s, t, loc);
    AfterGap(cfg, t);
  }

  lemma WordStays(cfg: Config, s: Text, t: Tok, loc: Local)
    requires s != [] && Inv(cfg, t) && InWord(t.top.state)
    ensures match Step(cfg, s, t, loc)
            case Go(n, _, _) => n <= 1
            case Out(_, _) => true
  {
    hide Step, Inv, SamePrefix;
    WordIs(cfg, s, t, loc);
  }

  lemma LexBoolean(cfg: Config, s: Text, t: Tok, loc: Local)
    requires s != [] && Inv(cfg, t) && t.top.state == BooleanWord && WordOk(cfg.strict, t)
    ensures var m := Step(cfg, s, t, loc);
            m.Go? && m.n == 1 ==> OpensNothing(s[0]) && WordOk(cfg.strict, m.tok)
  {
    hide Step, Inv, StepWords, SamePrefix;
    assert Letters(TRUE_WORD) && Letters(FALSE_WORD);
    WordIs(cfg, s, t, loc);
    FalseIsNotTrue(cfg.strict, t.pb);
    LexWords(cfg, s[0], t, loc, TRUE_WORD, Bool(true), FALSE_WORD, Bool(false), ErrBoolean);
  }

  lemma LexNull(cfg: Config, s: Text, t: Tok, loc: Local)
    requires s != [] && Inv(cfg, t) && t.top.state == NullWord && WordOk(cfg.strict, t)
    ensures var m := Step(cfg, s, t, loc);
            m.Go? && m.n == 1 ==> OpensNothing(s[0]) && WordOk(cfg.strict, m.tok)
  {
    hide Step, Inv, StepWords, SamePrefix;
    assert Letters(NULL_WORD) && Letters(NAN_WORD);
    WordIs(cfg, s, t, loc);
    NullIsNotNan(cfg.strict, t.pb);
    LexWords(cfg, s[0], t, loc, NULL_WORD, Null, NAN_WORD, NotANumber, ErrNull);
  }

  lemma LexWord(cfg: Config, s: Text, t: Tok, loc: Local)
    requires s != [] && Inv(cfg, t) && InWord(t.top.state) && WordOk(cfg.strict, t)
    ensures LexMove(cfg.strict, s, t, Step(cfg, s, t, loc))
  {
    hide Step, Inv, StepInfinity, StepWords, Begins, SamePrefix, Behind, IsNumberChar;
    WordMoves(cfg, s, t, loc);
    WordStays(cfg, s, t, loc);
    if t.top.state == InfinityWord {
      WordIs(cfg, s, t, loc);
      LexInfinity(cfg, s[0], t, loc);
    } else if t.top.state == NullWord {
      LexNull(cfg, s, t, loc);
    } else {
      LexBoolean(cfg, s, t, loc);
    }
  }


  lemma LexText(cfg: Config, s: Text, t: Tok, loc: Local)
    requires s != [] && Inv(cfg, t) && Sound(t, loc) && InText(t.top.state)
    ensures LexMove(cfg.strict, s, t, Step(cfg, s, t, loc))
  {
    hide Step, Inv, CString, Begins, Behind, IsNumberChar, Unescape, HasPoint, NumberChars;
    TextIs(cfg, s, t, loc);
  }

  lemma LexUnicode(cfg: Config, s: Text, t: Tok, loc: Local)
    requires s != [] && Inv(cfg, t) && Sound(t, loc) && t.top.state == EscapeUnicode
    ensures LexMove(cfg.strict, s, t, Step(cfg, s, t, loc))
  {
    hide Step, Inv, Append, Combine, HexValue, IsHigh, Shift, Begins, Behind, HasPoint, NumberChars;
    UnicodeIs(cfg, s, t, loc);
    assert IsHex(s[0]) ==> s[0] != t.quote && s[0] != BACKSLASH;
  }

  lemma LexNumber(cfg: Config, s: Text, t: Tok, loc: Local)
    requires s != [] && Inv(cfg, t) && Sound(t, loc) && t.top.state == Number
    ensures LexMove(cfg.strict, s, t, Step(cfg, s, t, loc))
  {
    hide Step, Inv, NumberValue, HasPoint, Begins;
    NumberIs(cfg, s, t, loc);
  }

  lemma LexStart(cfg: Config, s: Text, t: Tok, loc: Local)
    requires s != [] && Inv(cfg, t) && t.top.state == Start
    ensures LexMove(cfg.strict, s, t, Step(cfg, s, t, loc))
  {
    hide Step, Inv;
    StartIs(cfg, s, t, loc);
  }

  lemma LexFinish(cfg: Config, s: Text, t: Tok, loc: Local)
    requires s != [] && Inv(cfg, t) && t.top.state == Finish
    ensures LexMove(cfg.strict, s, t, Step(cfg, s, t, loc))
  {
    hide Step, Inv, Begins, Behind;
    FinishIs(cfg, s, t, loc);
  }

  lemma LexContainer(cfg: Config, s: Text, t: Tok, loc: Local)
    requires s != [] && Inv(cfg, t) && InContainer(t.top.state)
    ensures LexMove(cfg.strict, s, t, Step(cfg, s, t, loc))
  {
    hide Step, Inv, TopOk, ObjectAdd, Begins, SamePrefix, Behind;
    ContainerIs(cfg, s, t, loc);
  }

  lemma LexStep(cfg: Config, s: Text, t: Tok, loc: Local)
    requires s != [] && Inv(cfg, t) && Sound(t, loc) && WordOk(cfg.strict, t)
    ensures LexMove(cfg.strict, s, t, Step(cfg, s, t, loc))
  {
    hide Step, LexMove, WordOk, Sound;
    if InContainer(t.top.state) {
      LexContainer(cfg, s, t, loc);
    } else if InWord(t.top.state) {
      LexWord(cfg, s, t, loc);
    } else if InText(t.top.state) {
      LexText(cfg, s, t, loc);
    } else if Skipping(t.top.state) {
      LexGap(cfg, s, t, loc);
    } else if t.top.state == EscapeUnicode {
      LexUnicode(cfg, s, t, loc);
    } else if t.top.state == Number {
      LexNumber(cfg, s, t, loc);
    } else if t.top.state == Start {
      LexStart(cfg, s, t, loc);
    } else {
      LexFinish(cfg, s, t, loc);
    }
  }

  // ---------------------------------------------------------------- the tokener at a place of the text

  /** Place i is not within the digits of an escape. */
  ghost predicate NotWithin(strict: bool, s: Text, i: nat) {
    forall p :: 0 <= p && p + 2 <= i <= p + 5 ==> !EscapeAt(strict, s, p)
  }

  /** If a pair was cut before place i, it shows no difference. */
  predicate NoLoss(strict: bool, s: Text, i: nat, whole: bool)
    requires i <= |s|
  {
    PendingAt(strict, s, i) != 0 && EscapeFollows(s[i..]) ==> !whole && !LowFollows(s[i + 2..], 0, 0)
  }

  predicate HexBetween(s: Text, from: nat, to: nat)
    requires to <= |s|
  {
    forall k :: from <= k < to ==> IsHex(s[k])
  }

  /** Within the escape at p, `t.stPos` digits are read. A half that the text has pending may be lost
      only where that makes no difference. */
  predicate InEscape(strict: bool, s: Text, i: nat, t: Tok, loc: Local, whole: bool)
    requires i <= |s| && t.stPos < 4
  {
    && i >= t.stPos + 2
    && var p := i - t.stPos - 2;
       && EscapeAt(strict, s, p) && HexBetween(s, p + 2, i) && t.ucs == Simulation.Partial(s[p + 2..], t.stPos)
       && (loc.hi == PendingAt(strict, s, p) || (!whole && loc.hi == 0 && !LowFollows(s[i..], t.ucs, t.stPos)))
  }

  /** The escape is lost, and will fail. */
  predicate DeadEscape(s: Text, i: nat)
    requires i <= |s|
  {
    HexCount(s[i..]) < |s| - i && HexCount(s[i..]) < 4
  }

  /** The part of the invariant that is about the place, not about escapes. */
  predicate Placed(strict: bool, s: Text, i: nat, t: Tok, loc: Local)
    requires i <= |s|
  {
    && Scan(strict, s, i) == LexOf(t) && WordOk(strict, t) && Sound(t, loc)
    && (t.top.state == Number && t.pb != [] ==> i > 0 && IsNumberChar(s[i - 1]))
  }

  /** The part that is about escapes. */
  ghost predicate Escapes(strict: bool, s: Text, i: nat, t: Tok, loc: Local, whole: bool)
    requires i <= |s|
  {
    match t.top.state
    case EscapeUnicode =>
      if t.stPos < 4 then InEscape(strict, s, i, t, loc, whole) else !whole && DeadEscape(s, i)
    case StringEscape => i > 0 && NotWithin(strict, s, i - 1) && NoLoss(strict, s, i - 1, whole)
    case InString | InField => NotWithin(strict, s, i) && NoLoss(strict, s, i, whole)
    case _ => NotWithin(strict, s, i)
  }

  /** The tokener at place i of the text `s`. If `whole` is set, all before i came in one call. */
  ghost predicate Tracks(strict: bool, s: Text, i: nat, t: Tok, loc: Local, whole: bool)
    requires i <= |s|
  {
    Placed(strict, s, i, t, loc) && Escapes(strict, s, i, t, loc, whole)
  }

  lemma {:induction false} InsideQuote(strict: bool, s: Text, i: nat)
    requires i <= |s|
    ensures match Scan(strict, s, i)
            case Inside(q) => q == QUOTE || q == APOSTROPHE
            case Escaped(q) => (q == QUOTE || q == APOSTROPHE) && i > 0 && s[i - 1] == BACKSLASH
                               && Scan(strict, s, i - 1) == Inside(q)
            case _ => true
  {
    if i == 0 {
    } else {
      InsideQuote(strict, s, i - 1);
    }
  }

  /** Only right after its backslash is an escape not yet seen. */
  lemma NotYetEscape(strict: bool, s: Text, i: nat)
    requires 0 < i <= |s| && !Scan(strict, s, i).Escaped?
    ensures !EscapeAt(strict, s, i - 1)
  {
    InsideQuote(strict, s, i - 1);
  }

  lemma StillNotWithin(strict: bool, s: Text, i: nat)
    requires i < |s| && NotWithin(strict, s, i) && !Scan(strict, s, i).Escaped?
    ensures NotWithin(strict, s, i + 1) && PendingAt(strict, s, i + 1) == 0
  {
    hide Scan;
    if i > 0 {
      NotYetEscape(strict, s, i);
    }
    forall p | 0 <= p && p + 2 <= i + 1 <= p + 5
      ensures !EscapeAt(strict, s, p)
    {
      if p + 2 <= i {
        assert p + 2 <= i <= p + 5;
      } else {
        assert p == i - 1;
      }
    }
    if i >= 5 {
      assert (i - 5) + 2 <= i <= (i - 5) + 5;
    }
  }

  lemma AfterShortEscape(strict: bool, s: Text, i: nat)
    requires 0 < i < |s| && NotWithin(strict, s, i - 1) && Scan(strict, s, i).Escaped? && s[i] != LOWER_U
    ensures NotWithin(strict, s, i + 1) && PendingAt(strict, s, i + 1) == 0
  {
    InsideQuote(strict, s, i);
    hide Scan;
    forall p | 0 <= p && p + 2 <= i + 1 <= p + 5
      ensures !EscapeAt(strict, s, p)
    {
      if p + 2 <= i - 1 {
        assert p + 2 <= i - 1 <= p + 5;
      } else {
        assert p == i - 1 || p == i - 2;
      }
    }
    if i >= 5 {
      assert (i - 5) + 2 <= i - 1 <= (i - 5) + 5;
    }
  }

  // ---------------------------------------------------------------- steps in an escape

  lemma PartialStep(s: Text, p: nat, i: nat)
    requires p + 2 <= i < |s| && i <= p + 5 && HexBetween(s, p + 2, i + 1)
    ensures var r, n := s[p + 2..], i - p - 2;
            Simulation.Partial(r, n + 1) == Simulation.Partial(r, n) + Shift(HexValue(s[i]), 3 - n)
  {
    hide HexValue, Shift;
  }

  lemma WholeCode(s: Text, p: nat)
    requires p + 6 <= |s| && HexBetween(s, p + 2, p + 6)
    ensures HexCount(s[p + 2..]) == 4
    ensures HexCode(s[p + 2..]) == Simulation.Partial(s[p + 2..], 3) + HexValue(s[p + 5])
  {
    hide HexValue;
    var r := s[p + 2..];
    assert Simulation.Partial(r, 1) == HexValue(r[0]) * 0x1000;
    assert Simulation.Partial(r, 2) == HexValue(r[0]) * 0x1000 + HexValue(r[1]) * 0x100;
  }

  lemma WholeIsHex(s: Text, p: nat)
    requires p + 2 <= |s| && HexCount(s[p + 2..]) == 4
    ensures p + 6 <= |s| && HexBetween(s, p + 2, p + 6)
  {
    var r := s[p + 2..];
    assert forall k :: p + 2 <= k < p + 6 ==> s[k] == r[k - p - 2];
  }

  /** At its last digit the tokener has the code that the text has. */
  lemma CodeIs(strict: bool, s: Text, i: nat, t: Tok, loc: Local, whole: bool)
    requires i < |s| && t.stPos == 3 && InEscape(strict, s, i, t, loc, whole) && IsHex(s[i])
    ensures WholeEscape(strict, s, i - 5)
    ensures Combine(loc.hi, t.ucs + HexValue(s[i])).0 == CodeAt(strict, s, i - 5)
  {
    var p := i - 5;
    WholeCode(s, p);
    hide HexValue, HexCode, IsLow, DecodePair;
    assert Shift(HexValue(s[i]), 0) == HexValue(s[i]);
    assert s[i..][0] == s[i];
  }

  lemma DigitTracks(strict: bool, s: Text, i: nat, t: Tok, loc: Local, whole: bool)
    requires i < |s| && t.top.state == EscapeUnicode && t.stPos < 3 && InEscape(strict, s, i, t, loc, whole)
    requires IsHex(s[i])
    ensures var m := StepUnicode(s[i..], t, loc);
            m.Go? && m.n == 1 && m.tok.stPos == t.stPos + 1 && InEscape(strict, s, i + 1, m.tok, m.loc, whole)
  {
    hide HexValue, Shift, PendingAt, Scan, IsLow, StepFourth;
    var r := s[i..];
    assert r[0] == s[i] && r[1..] == s[i + 1..];
    DigitStep(r, t, loc);
    PartialStep(s, i - t.stPos - 2, i);
  }

  lemma DeadTracks(s: Text, i: nat, t: Tok, loc: Local)
    requires i < |s| && t.top.state == EscapeUnicode && t.stPos >= 4 && DeadEscape(s, i)
    ensures var m := StepUnicode(s[i..], t, loc);
            m.Go? ==> m.n == 1 && i + 1 < |s| && DeadEscape(s, i + 1) && m.tok.top == t.top && m.tok.stPos >= 4
  {
    hide HexValue, Shift, StepFourth, IsHex;
    var r := s[i..];
    assert r[0] == s[i] && r[1..] == s[i + 1..];
    if IsHex(s[i]) {
      DigitMoves(r, t, loc);
    }
  }

  /** The text has a half pending after place i, and an escape follows: then the tokener keeps it. */
  lemma PendingIsHeld(strict: bool, s: Text, i: nat, t: Tok, loc: Local, whole: bool)
    requires i < |s| && t.top.state == EscapeUnicode && t.stPos == 3 && InEscape(strict, s, i, t, loc, whole)
    requires IsHex(s[i])
    ensures WholeEscape(strict, s, i - 5)
    ensures PendingAt(strict, s, i + 1) != 0 && EscapeFollows(s[i + 1..])
            <==> HoldsHigh(s[i..], t, loc)
  {
    var r := s[i..];
    assert r[0] == s[i];
    CodeIs(strict, s, i, t, loc, whole);
    var code := CodeAt(strict, s, i - 5);
    PendingIs(strict, s, i);
    hide Combine, HexValue, IsHigh, HexCode, IsHex, Scan, PendingAt, CodeAt, InEscape, WholeEscape;
    assert |r| >= 3 ==> r[1] == s[i + 1] && r[2] == s[i + 2] && s[i + 1..][0] == s[i + 1] && s[i + 1..][1] == s[i + 2];
  }

  lemma PendingIs(strict: bool, s: Text, i: nat)
    requires 5 <= i < |s| && WholeEscape(strict, s, i - 5)
    ensures var code := CodeAt(strict, s, i - 5);
            PendingAt(strict, s, i + 1) == if code >= 0x800 && IsHigh(code) then code else 0
  {
    hide Combine, HexCode, IsHigh, Scan, EscapeAt;
    assert (i + 1) - 6 == i - 5;
  }

  lemma HoldScans(strict: bool, s: Text, i: nat)
    requires i + 3 <= |s| && IsHex(s[i]) && s[i + 1] == BACKSLASH && s[i + 2] == LOWER_U
    requires Scan(strict, s, i) == Inside(QUOTE) || Scan(strict, s, i) == Inside(APOSTROPHE)
    ensures EscapeAt(strict, s, i + 1) && Scan(strict, s, i + 3) == Scan(strict, s, i)
  {
    assert Scan(strict, s, i + 1) == Scan(strict, s, i);
    assert Scan(strict, s, i + 2).Escaped?;
  }

  /** After a half that is kept the tokener is in the next escape, with the half pending. */
  lemma HoldTracks(strict: bool, s: Text, i: nat, t: Tok, loc: Local, whole: bool)
    requires i + 3 < |s| && HoldsHigh(s[i..], t, loc) && InEscape(strict, s, i, t, loc, whole)
    requires Scan(strict, s, i) == Inside(t.quote) && (t.quote == QUOTE || t.quote == APOSTROPHE)
    ensures var m := StepUnicode(s[i..], t, loc);
            && m.Go? && m.n == 3 && m.tok.stPos == 0 && m.tok.top == t.top && m.tok.quote == t.quote
            && InEscape(strict, s, i + 3, m.tok, m.loc, whole)
            && Scan(strict, s, i + 3) == Inside(t.quote)
  {
    var r := s[i..];
    assert r[0] == s[i] && r[1] == s[i + 1] && r[2] == s[i + 2];
    HoldMove(r, t, loc);
    CodeIs(strict, s, i, t, loc, whole);
    PendingIs(strict, s, i);
    HoldScans(strict, s, i);
    hide Combine, HexValue, IsHigh, StepUnicode, HexCode, PendingAt, CodeAt, EscapeAt, WholeEscape, Scan;
  }

  /** A finished escape leaves the tokener in the string. */
  lemma FinishTracks(strict: bool, s: Text, i: nat, t: Tok, loc: Local, whole: bool)
    requires i < |s| && t.top.state == EscapeUnicode && t.stPos == 3 && InEscape(strict, s, i, t, loc, whole)
    requires IsHex(s[i]) && !HoldsHigh(s[i..], t, loc)
    ensures var m := StepUnicode(s[i..], t, loc);
            && m.Go? && m.n == 1 && m.tok.top.state == t.top.saved
            && NotWithin(strict, s, i + 1) && NoLoss(strict, s, i + 1, whole)
  {
    FourthEnds(s[i..], t, loc);
    PendingIsHeld(strict, s, i, t, loc, whole);
    assert EscapeAt(strict, s, i - 5) && HexBetween(s, i - 3, i + 1);
    WithinNoMore(strict, s, i);
    hide StepUnicode, HoldsHigh, PendingAt, EscapeAt, InEscape;
  }

  lemma FourthEnds(r: Text, t: Tok, loc: Local)
    requires r != [] && t.top.state == EscapeUnicode && t.stPos == 3 && IsHex(r[0]) && !HoldsHigh(r, t, loc)
    ensures var m := StepUnicode(r, t, loc);
            m.Go? && m.n == 1 && m.tok.top.state == t.top.saved
  {
    hide HexValue, Append, DecodePair, IsLow, IsHigh;
    assert Shift(HexValue(r[0]), 0) == HexValue(r[0]);
  }

  /** No escape begins within an escape. */
  lemma WithinNoMore(strict: bool, s: Text, i: nat)
    requires 5 <= i < |s| && EscapeAt(strict, s, i - 5) && HexBetween(s, i - 3, i + 1)
    ensures NotWithin(strict, s, i + 1)
  {
    forall p | 0 <= p && p + 2 <= i + 1 <= p + 5
      ensures !EscapeAt(strict, s, p)
    {
      assert i - 4 <= p <= i - 1;
      if p == i - 4 {
        assert s[p] == LOWER_U;
      } else {
        assert IsHex(s[p]);
      }
    }
  }

  // ---------------------------------------------------------------- every step

  predicate EntersRight(t: Tok, m: Move) {
    match m
    case Out(_, _) => true
    case Go(n, u, _) =>
      && (u.top.state == EscapeUnicode ==> t.top.state == StringEscape || t.top.state == EscapeUnicode)
      && (u.top.state == StringEscape ==> t.top.state == InString || t.top.state == InField)
      && (n == 0 ==> (u.top.state == Number ==> u.pb == []) && !InText(u.top.state))
      && (InText(t.top.state) ==> n == 1)
  }

  lemma EntersCalm(cfg: Config, s: Text, t: Tok, loc: Local)
    requires s != [] && Inv(cfg, t) && (InContainer(t.top.state) || InWord(t.top.state))
    ensures EntersRight(t, Step(cfg, s, t, loc))
  {
    hide Step, Inv, TopOk, ObjectAdd;
    if InWord(t.top.state) {
      WordMoves(cfg, s, t, loc);
    } else {
      ContainerIs(cfg, s, t, loc);
    }
  }

  lemma EntersGap(cfg: Config, s: Text, t: Tok, loc: Local)
    requires s != [] && Inv(cfg, t) && Skipping(t.top.state)
    ensures EntersRight(t, Step(cfg, s, t, loc))
  {
    hide Step, Inv, TopOk;
    GapIs(cfg, s, t, loc);
    AfterGap(cfg, t);
  }

  lemma EntersOther(cfg: Config, s: Text, t: Tok, loc: Local)
    requires s != [] && Inv(cfg, t) && Sound(t, loc) && (InText(t.top.state) || t.top.state == Number)
    ensures EntersRight(t, Step(cfg, s, t, loc))
  {
    hide Step, Inv, NumberValue, Sound, Unescape, CString;
    if t.top.state == Number {
      NumberIs(cfg, s, t, loc);
    } else {
      TextIs(cfg, s, t, loc);
    }
  }

  lemma EntersUnicode(cfg: Config, s: Text, t: Tok, loc: Local)
    requires s != [] && Inv(cfg, t) && t.top.state == EscapeUnicode
    ensures EntersRight(t, Step(cfg, s, t, loc))
  {
    hide Step, Inv, Append, Combine, HexValue, IsHigh, Shift;
    UnicodeIs(cfg, s, t, loc);
  }

  lemma EntersStart(cfg: Config, s: Text, t: Tok, loc: Local)
    requires s != [] && Inv(cfg, t) && (t.top.state == Start || t.top.state == Finish)
    ensures EntersRight(t, Step(cfg, s, t, loc))
  {
    hide Step, Inv;
    if t.top.state == Start {
      StartIs(cfg, s, t, loc);
    } else {
      FinishIs(cfg, s, t, loc);
    }
  }

  lemma Enters(cfg: Config, s: Text, t: Tok, loc: Local)
    requires s != [] && Inv(cfg, t) && Sound(t, loc)
    ensures EntersRight(t, Step(cfg, s, t, loc))
  {
    hide Step, EntersRight, Inv, Sound;
    if InContainer(t.top.state) || InWord(t.top.state) {
      EntersCalm(cfg, s, t, loc);
    } else if Skipping(t.top.state) {
      EntersGap(cfg, s, t, loc);
    } else if InText(t.top.state) || t.top.state == Number {
      EntersOther(cfg, s, t, loc);
    } else if t.top.state == EscapeUnicode {
      EntersUnicode(cfg, s, t, loc);
    } else {
      EntersStart(cfg, s, t, loc);
    }
  }

  lemma PlacedStep(cfg: Config, s: Text, i: nat, t: Tok, loc: Local)
    requires Inv(cfg, t) && i < |s| && Placed(cfg.strict, s, i, t, loc)
    ensures var m := Step(cfg, s[i..], t, loc);
            m.Go? && m.n <= 1 ==> i + m.n <= |s| && Placed(cfg.strict, s, i + m.n, m.tok, m.loc)
  {
    hide Step, Inv, WordOk, Sound, Consumed;
    var r := s[i..];
    assert r[0] == s[i];
    LexStep(cfg, r, t, loc);
    SoundStep(cfg, r, t, loc);
    Enters(cfg, r, t, loc);
  }

  lemma EscapeDigit(strict: bool, s: Text, i: nat, t: Tok, loc: Local, whole: bool)
    requires i < |s| && t.top.state == EscapeUnicode && Escapes(strict, s, i, t, loc, whole)
    requires t.top.saved == InString || t.top.saved == InField
    requires !HoldsHigh(s[i..], t, loc)
    ensures var m := StepUnicode(s[i..], t, loc);
            m.Go? ==> m.n == 1 && Escapes(strict, s, i + 1, m.tok, m.loc, whole)
  {
    var r := s[i..];
    assert r[0] == s[i];
    HexIfGo(r, t, loc);
    hide InEscape, HoldsHigh, DeadEscape, NotWithin, NoLoss, IsHex, StepUnicode;
    if StepUnicode(r, t, loc).Go? {
      if t.stPos < 3 {
        DigitTracks(strict, s, i, t, loc, whole);
        SameTop(r, t, loc);
      } else if t.stPos > 3 {
        DeadTracks(s, i, t, loc);
      } else {
        FinishTracks(strict, s, i, t, loc, whole);
      }
    }
  }

  lemma EscapeHold(strict: bool, s: Text, i: nat, t: Tok, loc: Local, whole: bool)
    requires i < |s| && t.top.state == EscapeUnicode && Escapes(strict, s, i, t, loc, whole)
    requires HoldsHigh(s[i..], t, loc) && Placed(strict, s, i, t, loc)
    ensures var m := StepUnicode(s[i..], t, loc);
            && m.Go? && m.n == 3 && i + 3 <= |s|
            && (i + 3 < |s| && Sound(m.tok, m.loc)
                ==> Escapes(strict, s, i + 3, m.tok, m.loc, whole) && Placed(strict, s, i + 3, m.tok, m.loc))
  {
    HoldAtEnd(s[i..], t, loc);
    InsideQuote(strict, s, i);
    HoldShort(s[i..], t, loc);
    hide InEscape, DeadEscape, NotWithin, NoLoss, IsHex, StepUnicode, Scan, HoldsHigh, Begins, HasPoint, NumberChars;
    if i + 3 < |s| {
      HoldTracks(strict, s, i, t, loc, whole);
    }
  }

  lemma HoldShort(s: Text, t: Tok, loc: Local)
    ensures HoldsHigh(s, t, loc) ==> |s| >= 3 && t.stPos == 3
  {
  }

  lemma TracksUnicode(cfg: Config, s: Text, i: nat, t: Tok, loc: Local, whole: bool)
    requires Inv(cfg, t) && i < |s| && Tracks(cfg.strict, s, i, t, loc, whole) && t.top.state == EscapeUnicode
    ensures var m := Step(cfg, s[i..], t, loc);
            m.Go? && i + m.n < |s| ==> Tracks(cfg.strict, s, i + m.n, m.tok, m.loc, whole)
  {
    hide Step, Inv, Sound, HoldsHigh, StepUnicode, Escapes, Placed;
    var r := s[i..];
    UnicodeIs(cfg, r, t, loc);
    if HoldsHigh(r, t, loc) {
      PlacedSoundly(cfg, s, i, t, loc);
      EscapeHold(cfg.strict, s, i, t, loc, whole);
    } else {
      PlacedStep(cfg, s, i, t, loc);
      EscapeDigit(cfg.strict, s, i, t, loc, whole);
    }
  }

  lemma PlacedSoundly(cfg: Config, s: Text, i: nat, t: Tok, loc: Local)
    requires Inv(cfg, t) && i < |s| && Placed(cfg.strict, s, i, t, loc)
    ensures var m := Step(cfg, s[i..], t, loc);
            m.Go? ==> Sound(m.tok, m.loc)
  {
    hide Step, Inv, Sound, Consumed, WordOk, Scan;
    SoundStep(cfg, s[i..], t, loc);
  }

  lemma HexIfGo(r: Text, t: Tok, loc: Local)
    requires r != []
    ensures StepUnicode(r, t, loc).Go? ==> IsHex(r[0])
  {
    hide HexValue, StepFourth, Shift;
  }

  lemma SameTop(r: Text, t: Tok, loc: Local)
    requires r != [] && t.stPos < 3
    ensures StepUnicode(r, t, loc).Go? ==> StepUnicode(r, t, loc).tok.top == t.top
  {
    hide HexValue, StepFourth, Shift;
  }

  /** Only at the end of the text does a hold use up the text. */
  lemma HoldAtEnd(r: Text, t: Tok, loc: Local)
    requires HoldsHigh(r, t, loc)
    ensures |r| == 3 ==> StepUnicode(r, t, loc).Go? && StepUnicode(r, t, loc).n == 3
  {
    if |r| == 3 {
      HeldAtEnd(r, t, loc);
    }
  }

  lemma TracksEscape(cfg: Config, s: Text, i: nat, t: Tok, loc: Local, whole: bool)
    requires Inv(cfg, t) && i < |s| && Tracks(cfg.strict, s, i, t, loc, whole) && t.top.state == StringEscape
    ensures var m := Step(cfg, s[i..], t, loc);
            m.Go? && i + m.n < |s| ==> Tracks(cfg.strict, s, i + m.n, m.tok, m.loc, whole)
  {
    hide Step, Inv, Placed, Scan, NotWithin, LowFollows, PendingAt, Unescape, InEscape, NoLoss;
    var r := s[i..];
    assert r[0] == s[i];
    PlacedStep(cfg, s, i, t, loc);
    BackslashBefore(cfg.strict, s, i, t, loc);
    EscapeIs(cfg, r, t, loc);
    if s[i] != LOWER_U {
      AfterShortEscape(cfg.strict, s, i);
      NothingPends(cfg.strict, s, i + 1, whole);
    } else {
      EscapeTracks(cfg.strict, s, i, t, loc, whole);
    }
  }

  lemma NothingPends(strict: bool, s: Text, i: nat, whole: bool)
    requires i <= |s| && PendingAt(strict, s, i) == 0
    ensures NoLoss(strict, s, i, whole)
  {
  }

  lemma BackslashBefore(strict: bool, s: Text, i: nat, t: Tok, loc: Local)
    requires i <= |s| && Placed(strict, s, i, t, loc) && t.top.state == StringEscape
    ensures Scan(strict, s, i).Escaped? && i > 0 && s[i - 1] == BACKSLASH && Scan(strict, s, i - 1).Inside?
  {
    InsideQuote(strict, s, i);
  }

  /** The step after a backslash. */
  lemma EscapeIs(cfg: Config, s: Text, t: Tok, loc: Local)
    requires s != [] && Inv(cfg, t) && t.top.state == StringEscape
    ensures var m := Step(cfg, s, t, loc);
            m.Go? ==> m.n == 1 && if s[0] == LOWER_U then
                                    m.tok.top.state == EscapeUnicode && m.tok.ucs == m.tok.stPos == 0 && m.loc.hi == 0
                                  else m.tok.top.state == InString || m.tok.top.state == InField
  {
    hide Step, Inv;
    TextIs(cfg, s, t, loc);
  }

  /** An escape has begun at i - 1, and its digits begin at i + 1. */
  lemma EscapeTracks(strict: bool, s: Text, i: nat, t: Tok, loc: Local, whole: bool)
    requires 0 < i < |s| && s[i] == LOWER_U && s[i - 1] == BACKSLASH && Scan(strict, s, i - 1).Inside?
    requires NoLoss(strict, s, i - 1, whole)
    ensures forall u: Tok, l: Local :: u.ucs == u.stPos == 0 && l.hi == 0 ==> InEscape(strict, s, i + 1, u, l, whole)
  {
    hide Scan, PendingAt, LowFollows;
    assert s[i - 1..][0] == s[i - 1] && s[i - 1..][1] == s[i] && s[(i - 1) + 2..] == s[i + 1..];
    assert Simulation.Partial(s[i + 1..], 0) == 0;
  }

  lemma TracksOther(cfg: Config, s: Text, i: nat, t: Tok, loc: Local, whole: bool)
    requires Inv(cfg, t) && i < |s| && Tracks(cfg.strict, s, i, t, loc, whole)
    requires t.top.state != EscapeUnicode && t.top.state != StringEscape
    ensures var m := Step(cfg, s[i..], t, loc);
            m.Go? && i + m.n < |s| ==> Tracks(cfg.strict, s, i + m.n, m.tok, m.loc, whole)
  {
    hide Step, Inv, WordOk, Sound, Scan, NotWithin, LowFollows, PendingAt, InEscape, Placed;
    var r := s[i..];
    assert r[0] == s[i];
    PlacedStep(cfg, s, i, t, loc);
    ScannedOutside(cfg.strict, s, i, t, loc);
    Enters(cfg, r, t, loc);
    StillNotWithin(cfg.strict, s, i);
    NothingPends(cfg.strict, s, i + 1, whole);
    OneByte(cfg, r, t, loc);
  }

  lemma ScannedOutside(strict: bool, s: Text, i: nat, t: Tok, loc: Local)
    requires i <= |s| && Placed(strict, s, i, t, loc) && t.top.state != StringEscape
    ensures !Scan(strict, s, i).Escaped? && Sound(t, loc) && WordOk(strict, t)
  {
    hide Scan;
  }

  lemma OneByte(cfg: Config, s: Text, t: Tok, loc: Local)
    requires s != [] && Inv(cfg, t) && Sound(t, loc) && WordOk(cfg.strict, t) && t.top.state != EscapeUnicode
    ensures Step(cfg, s, t, loc).Go? ==> Step(cfg, s, t, loc).n <= 1
  {
    hide Step, Inv, WordOk, Sound;
    LexStep(cfg, s, t, loc);
  }

  /** Every step goes on from one place of the text to the next. */
  lemma TracksStep(cfg: Config, s: Text, i: nat, t: Tok, loc: Local, whole: bool)
    requires Inv(cfg, t) && i < |s| && Tracks(cfg.strict, s, i, t, loc, whole)
    ensures var m := Step(cfg, s[i..], t, loc);
            m.Go? && i + m.n < |s| ==> Tracks(cfg.strict, s, i + m.n, m.tok, m.loc, whole)
  {
    hide Step, Tracks;
    if t.top.state == EscapeUnicode {
      TracksUnicode(cfg, s, i, t, loc, whole);
    } else if t.top.state == StringEscape {
      TracksEscape(cfg, s, i, t, loc, whole);
    } else {
      TracksOther(cfg, s, i, t, loc, whole);
    }
  }

  // ---------------------------------------------------------------- the tokener's bad cuts and the text's

  /** At the last digit of a half the tokener holds it exactly if the text does. */
  lemma HeldIs(strict: bool, s: Text, i: nat, t: Tok, loc: Local, whole: bool)
    requires i < |s| && t.top.state == EscapeUnicode && t.stPos == 3 && InEscape(strict, s, i, t, loc, whole)
    requires IsHex(s[i])
    ensures Held(strict, s, i - 5) <==> HoldsHigh(s[i..], t, loc)
  {
    PendingIsHeld(strict, s, i, t, loc, whole);
    hide HoldsHigh, PendingAt, InEscape, WholeEscape, IsHex;
    assert (i - 5) + 6 == i + 1;
    if i + 3 <= |s| {
      assert s[i + 1..][0] == s[i + 1] && s[i + 1..][1] == s[i + 2];
    }
  }

  lemma PairNow(strict: bool, s: Text, i: nat, t: Tok, loc: Local, k: nat, whole: bool)
    requires i < k <= |s| && HoldsHigh(s[i..], t, loc) && Tracks(strict, s, i, t, loc, whole)
    requires SplitsPair(s[i..], k - i)
    ensures PairCut(strict, s, k)
  {
    assert s[i..][0] == s[i];
    HeldIs(strict, s, i, t, loc, whole);
    hide HoldsHigh, SplitsPair, Held, InEscape, Placed, IsHex;
    assert (i - 5) + 5 == i;
    assert PairCutAt(strict, s, i - 5, k);
  }

  /** A cut that is bad for the tokener is one of the cuts that the text shows. */
  lemma {:induction false} BadIsSeen(cfg: Config, s: Text, i: nat, t: Tok, loc: Local, k: nat, whole: bool)
    requires Inv(cfg, t) && i <= k < |s| && Tracks(cfg.strict, s, i, t, loc, whole)
    requires BadCut(cfg, s[i..], t, loc, k - i)
    ensures !CleanCut(cfg.strict, s, k)
    decreases |s| - i, Rank(t.top)
  {
    hide Step, TopOk, Waits, HoldsHigh, SplitsPair, Rank, PairCut, Tracks, BadCut;
    var r := s[i..];
    if i == k {
      NumberSeen(cfg, s, i, t, loc, whole);
    } else {
      Cuts.HoldsLong(r, t, loc);
      if HoldsHigh(r, t, loc) && SplitsPair(r, k - i) {
        PairNow(cfg.strict, s, i, t, loc, k, whole);
      } else {
        Cuts.BadNow(cfg, r, t, loc, k - i);
        TracksStep(cfg, s, i, t, loc, whole);
        StepKeeps(cfg, r, t, loc);
        var m := Step(cfg, r, t, loc);
        assert r[m.n..] == s[i + m.n..];
        BadIsSeen(cfg, s, i + m.n, m.tok, m.loc, k, whole);
      }
    }
  }

  lemma NumberSeen(cfg: Config, s: Text, i: nat, t: Tok, loc: Local, whole: bool)
    requires Inv(cfg, t) && i < |s| && Tracks(cfg.strict, s, i, t, loc, whole)
    requires BadCut(cfg, s[i..], t, loc, 0)
    ensures NumberCut(cfg.strict, s, i)
  {
    Cuts.NotInEscape(cfg, s[i..], t, loc);
    hide NumberValue, HasPoint, BadCut, InfinityNext;
  }

  /** And a cut that the text shows is bad for the tokener that has read all before it in one call. */
  lemma {:induction false} SeenIsBad(
    cfg: Config, s: Text, i: nat, t: Tok, loc: Local, p: nat, k: nat)
    requires Inv(cfg, t) && i <= p + 5 < k < |s| && Tracks(cfg.strict, s, i, t, loc, true)
    requires PairCutAt(cfg.strict, s, p, k) && Run(cfg, s[i..k], t, loc).More?
    ensures BadCut(cfg, s[i..], t, loc, k - i)
    decreases |s| - i, Rank(t.top)
  {
    hide Step, TopOk, Waits, HoldsHigh, SplitsPair, Rank, Tracks, Held;
    var a, b := s[i..k], s[k..];
    assert a + b == s[i..];
    if i == p + 5 {
      AtLastDigit(cfg.strict, s, p, t, loc);
      HoldShort(s[i..], t, loc);
    } else {
      StepBefore(cfg, s, i, t, loc, p, k);
      TracksStep(cfg, s, i, t, loc, true);
      StepKeeps(cfg, a, t, loc);
      var m := Step(cfg, s[i..], t, loc);
      assert a[0] == s[i] && a[m.n..] == s[i + m.n..k] && s[i..][m.n..] == s[i + m.n..];
      SeenIsBad(cfg, s, i + m.n, m.tok, m.loc, p, k);
    }
  }

  /** The place of the last digit of an escape. */
  lemma AtLastDigit(strict: bool, s: Text, p: nat, t: Tok, loc: Local)
    requires p + 5 < |s| && Tracks(strict, s, p + 5, t, loc, true) && Held(strict, s, p)
    ensures HoldsHigh(s[p + 5..], t, loc)
  {
    WholeIsHex(s, p);
    DigitsScan(strict, s, p, 3);
    AtDigit(strict, s, p, 3, t, loc);
    hide Scan, WordOk, Sound, NotWithin, CodeAt, PendingAt;
    HeldIs(strict, s, p + 5, t, loc, true);
  }

  lemma DigitsOpenNothing(s: Text, from: nat, to: nat)
    requires to <= |s| && HexBetween(s, from, to)
    ensures forall k :: from <= k < to ==> s[k] != BACKSLASH && s[k] != LOWER_U
  {
  }

  lemma {:induction false} DigitsScan(strict: bool, s: Text, p: nat, n: nat)
    requires WholeEscape(strict, s, p) && n <= 4
    ensures p + 2 + n <= |s| && Scan(strict, s, p + 2 + n) == Scan(strict, s, p)
  {
    WholeIsHex(s, p);
    InsideQuote(strict, s, p);
    if n == 0 {
      assert Scan(strict, s, p + 1).Escaped?;
    } else {
      DigitsScan(strict, s, p, n - 1);
      assert IsHex(s[p + 1 + n]);
      hide WholeEscape, HexBetween;
    }
  }

  /** Within the digits of an escape the tokener is in that escape. */
  lemma AtDigit(strict: bool, s: Text, p: nat, n: nat, t: Tok, loc: Local)
    requires n <= 3 && WholeEscape(strict, s, p) && p + 2 + n <= |s| && Tracks(strict, s, p + 2 + n, t, loc, true)
    requires Scan(strict, s, p + 2 + n).Inside?
    ensures t.top.state == EscapeUnicode && t.stPos == n
  {
    var i := p + 2 + n;
    assert p + 2 <= i <= p + 5 && EscapeAt(strict, s, p);
    hide Scan, WordOk, Sound, PendingAt, LowFollows;
    if t.top.state == EscapeUnicode {
      WholeIsHex(s, p);
      var p' := i - t.stPos - 2;
      assert s[p'] == BACKSLASH && s[p' + 1] == LOWER_U;
      DigitsOpenNothing(s, p + 2, p + 6);
      DigitsOpenNothing(s, p' + 2, i);
    }
  }

  /** Before the last digit every step of one call is the same with the rest of the text. */
  lemma StepBefore(cfg: Config, s: Text, i: nat, t: Tok, loc: Local, p: nat, k: nat)
    requires Inv(cfg, t) && i < p + 5 && p + 6 <= k < |s| && Tracks(cfg.strict, s, i, t, loc, true)
    requires Held(cfg.strict, s, p) && Run(cfg, s[i..k], t, loc).More?
    ensures var m := Step(cfg, s[i..], t, loc);
            && m == Step(cfg, s[i..k], t, loc) && m.Go? && !(m.n > 0 && s[i] == NUL) && i + m.n <= p + 5
  {
    hide Step, Sound, WordOk, Scan, NotWithin, PendingAt, LowFollows, CodeAt;
    var a, b := s[i..k], s[k..];
    assert a + b == s[i..] && a[0] == s[i] && s[i..][0] == s[i];
    StepKeeps(cfg, a, t, loc);
    if t.top.state != EscapeUnicode {
      StepPrefix(cfg, a, b, t, loc);
      LexStep(cfg, s[i..], t, loc);
    } else {
      NoEarlierHold(cfg.strict, s, i, t, loc, p);
      UnicodeIs(cfg, a, t, loc);
      UnicodeIs(cfg, s[i..], t, loc);
      UnicodePrefix(a, b, t, loc);
      OneOrThree(s[i..], t, loc);
    }
  }

  lemma OneOrThree(s: Text, t: Tok, loc: Local)
    requires s != []
    ensures var m := StepUnicode(s, t, loc);
            m.Go? ==> m.n == 1 || (m.n == 3 && t.stPos == 3 && |s| >= 3 && s[1] == BACKSLASH && s[2] == LOWER_U)
  {
    hide HexValue, Shift, Combine, Append, IsHigh;
  }

  /** A half that is held before the last digit of the escape at p ends before it begins. */
  lemma NoEarlierHold(strict: bool, s: Text, i: nat, t: Tok, loc: Local, p: nat)
    requires i < p + 5 && p + 6 <= |s| && Tracks(strict, s, i, t, loc, true) && Held(strict, s, p)
    requires t.top.state == EscapeUnicode
    ensures t.stPos == 3 && |s| >= i + 3 && s[i + 1] == BACKSLASH && s[i + 2] == LOWER_U && IsHex(s[i])
            ==> i + 3 <= p + 2
    ensures HoldsHigh(s[i..], t, loc) ==> i + 3 <= p + 2
  {
    hide Scan, WordOk, Sound, NotWithin, PendingAt, LowFollows, CodeAt, Combine, IsHigh, HexValue;
    WholeIsHex(s, p);
    if t.stPos == 3 && |s| >= i + 3 && s[i + 1] == BACKSLASH && s[i + 2] == LOWER_U {
      DigitsOpenNothing(s, p + 2, p + 6);
    }
  }

  // ---------------------------------------------------------------- a fresh tokener

  lemma StartTracks(cfg: Config, s: Text, t: Tok, whole: bool)
    requires cfg.maxDepth > 0
    ensures Inv(cfg, Reset(t)) && Tracks(cfg.strict, s, 0, Reset(t), NO_LOCALS, whole)
    ensures AtEnd(Reset(t)) == More(Reset(t))
  {
  }

  lemma CutIsBehind(strict: bool, s: Text, p: nat, k: nat)
    ensures PairCutAt(strict, s, p, k) ==> p + 5 < k
  {
  }

  lemma StartIsSound(t: Tok)
    ensures Sound(Reset(t), NO_LOCALS)
  {
  }

  // ---------------------------------------------------------------- one piece after the other

  lemma {:induction false} LowSkip(s: Text, p: nat, n: nat)
    requires p + 2 + n <= |s| && n < 4 && HexBetween(s, p + 2, p + 2 + n)
    ensures LowFollows(s[p + 2..], 0, 0) <==> LowFollows(s[p + 2 + n..], Simulation.Partial(s[p + 2..], n), n)
  {
    hide HexValue, Shift, IsLow;
    if n == 0 {
    } else {
      LowSkip(s, p, n - 1);
      PartialStep(s, p, p + 2 + n - 1);
      var r := s[p + 2 + n - 1..];
      assert r[0] == s[p + 1 + n] && r[1..] == s[p + 2 + n..];
    }
  }

  /** Between two calls a pending half is lost, and the replacement has been appended. */
  lemma LosesHalf(strict: bool, s: Text, i: nat, t: Tok, loc: Local, u: Tok)
    requires i <= |s| && t.top.state == EscapeUnicode && Tracks(strict, s, i, t, loc, false) && u == t.(pb := u.pb)
    requires t.stPos < 4 && !LowFollows(s[i..], t.ucs, t.stPos)
    ensures Tracks(strict, s, i, u, NO_LOCALS, false)
  {
    hide Scan, PendingAt, LowFollows, EscapeAt, HexBetween;
  }

  lemma LowStep(cfg: Config, s: Text, i: nat, t: Tok, loc: Local) returns (u: Tok)
    requires Inv(cfg, t) && i + 1 < |s|
    requires t.top.state == EscapeUnicode && t.stPos < 3 && loc.hi != 0 && IsHex(s[i])
    ensures Run(cfg, [s[i]], t, loc) == More(u) && Inv(cfg, u)
    ensures var m := StepUnicode(s[i..], t, loc);
            && Step(cfg, s[i..], t, loc) == m && m.Go? && m.n == 1 && m.loc == loc && u == m.tok.(pb := u.pb)
            && m.tok.top == t.top && m.tok.stPos == t.stPos + 1
  {
    var a := [s[i]];
    ShortStep(s, i, t, loc);
    UnicodeRuns(cfg, a, t, loc);
    UnicodeIs(cfg, s[i..], t, loc);
    u := StepUnicode(a, t, loc).tok;
    hide Run, Inv, Step, StepUnicode;
    assert a[1..] == [];
    AtEndOfPiece(cfg, u, loc);
  }

  lemma TracksInside(strict: bool, s: Text, i: nat, t: Tok, loc: Local)
    requires i <= |s| && Tracks(strict, s, i, t, loc, false) && t.top.state == EscapeUnicode && t.stPos < 4
    ensures InEscape(strict, s, i, t, loc, false)
  {
    hide InEscape, Placed;
  }

  /** A piece that ends within the digits after a pending half. */
  lemma EndsInLow(cfg: Config, s: Text, i: nat, t: Tok, loc: Local) returns (u: Tok)
    requires Inv(cfg, t) && i + 1 < |s| && Tracks(cfg.strict, s, i, t, loc, false)
    requires t.top.state == EscapeUnicode && t.stPos < 3 && loc.hi != 0 && IsHex(s[i])
    requires !PairCut(cfg.strict, s, i + 1)
    ensures Run(cfg, [s[i]], t, loc) == More(u) && Inv(cfg, u)
    ensures Tracks(cfg.strict, s, i + 1, u, NO_LOCALS, false)
  {
    hide Run, Inv, Step, StepUnicode, Tracks, LowFollows, PairCut, IsHex, InEscape;
    TracksInside(cfg.strict, s, i, t, loc);
    NoLowHere(cfg.strict, s, i, t, loc);
    u := LowStep(cfg, s, i, t, loc);
    TracksStep(cfg, s, i, t, loc, false);
    LosesHalf(cfg.strict, s, i + 1, StepUnicode(s[i..], t, loc).tok, loc, u);
  }

  lemma ShortStep(s: Text, i: nat, t: Tok, loc: Local)
    requires i + 1 < |s| && t.top.state == EscapeUnicode && t.stPos < 3 && loc.hi != 0 && IsHex(s[i])
    ensures var m, n := StepUnicode([s[i]], t, loc), StepUnicode(s[i..], t, loc);
            && m.Go? && n.Go? && m.n == n.n == 1 && m.loc == n.loc == loc
            && m.tok == n.tok.(pb := m.tok.pb) && n.tok.top == t.top && n.tok.stPos == t.stPos + 1
  {
    hide HexValue, Shift, IsHex;
    DigitStep([s[i]], t, loc);
    DigitStep(s[i..], t, loc);
  }

  /** Where a good cut loses a pending half, no low half follows. */
  lemma NoLowHere(strict: bool, s: Text, i: nat, t: Tok, loc: Local)
    requires i + 1 < |s| && t.top.state == EscapeUnicode && t.stPos < 3 && loc.hi != 0 && IsHex(s[i])
    requires InEscape(strict, s, i, t, loc, false) && !PairCut(strict, s, i + 1)
    ensures var m := StepUnicode(s[i..], t, loc);
            m.Go? && !LowFollows(s[i + 1..], m.tok.ucs, m.tok.stPos)
  {
    hide HexValue, Shift, Scan, LowFollows, HexCode, Combine, IsHigh, Simulation.Partial, HexCount, IsHex;
    DigitStep(s[i..], t, loc);
    var p := i - t.stPos - 2;
    PartialStep(s, p, i);
    assert (p - 6) + 6 == p && PendingAt(strict, s, p) != 0;
    assert Held(strict, s, p - 6);
    assert s[p - 6 + 5..][3..] == s[p + 2..];
    assert !PairCutAt(strict, s, p - 6, i + 1);
    LowSkip(s, p, t.stPos + 1);
  }

  lemma TracksText(strict: bool, s: Text, i: nat, t: Tok)
    requires i <= |s| && (t.top.state == InString || t.top.state == InField)
    requires Scan(strict, s, i) == Inside(t.quote) && (t.quote == QUOTE || t.quote == APOSTROPHE)
    requires NotWithin(strict, s, i) && NoLoss(strict, s, i, false)
    ensures Tracks(strict, s, i, t, NO_LOCALS, false)
  {
    hide Scan, NotWithin, NoLoss;
  }

  lemma TracksBackslash(strict: bool, s: Text, i: nat, t: Tok)
    requires i < |s| && t.top.state == StringEscape
    requires Scan(strict, s, i + 1) == Escaped(t.quote) && (t.quote == QUOTE || t.quote == APOSTROPHE)
    requires NotWithin(strict, s, i) && NoLoss(strict, s, i, false)
    ensures Tracks(strict, s, i + 1, t, NO_LOCALS, false)
  {
    hide Scan, NotWithin, NoLoss;
  }

  /** A piece that ends after the last digit of a half, or after the backslash behind it. */
  lemma EndsAtHalf(cfg: Config, s: Text, i: nat, e: nat, t: Tok, loc: Local) returns (u: Tok)
    requires Inv(cfg, t) && i < e <= i + 2 && e < |s| && Tracks(cfg.strict, s, i, t, loc, false)
    requires HoldsHigh(s[i..], t, loc) && !PairCut(cfg.strict, s, e)
    ensures Run(cfg, s[i..e], t, loc) == More(u) && Inv(cfg, u)
    ensures Tracks(cfg.strict, s, e, u, NO_LOCALS, false)
  {
    hide Run, Inv, HoldsHigh, PairCut, Scan, NotWithin, NoLoss, Tracks, Dropped, IsHex;
    var a, b := s[i..e], s[e..];
    assert a + b == s[i..] && a[0] == s[i] && s[i..][0] == s[i];
    HoldShort(s[i..], t, loc);
    BackslashNext(s[i..], t, loc);
    DropStep(cfg, a, b, t, loc);
    DroppedIs(cfg, s, i, t, loc, e);
    var back := Dropped(a[0], t, loc);
    if e == i + 1 {
      assert a[1..] == [];
      TextWaits(cfg, back, loc.(hi := 0));
      TracksText(cfg.strict, s, e, back);
      u := back;
    } else {
      assert a[1..] == [BACKSLASH];
      EscapeOpens(cfg, [BACKSLASH, LOWER_U], back, loc.(hi := 0));
      u := back.(top := back.top.(state := StringEscape, saved := back.top.state));
      TracksBackslash(cfg.strict, s, i + 1, u);
    }
  }

  lemma TextWaits(cfg: Config, t: Tok, loc: Local)
    requires Inv(cfg, t) && (t.top.state == InString || t.top.state == InField)
    ensures Run(cfg, [], t, loc) == More(t)
  {
  }

  lemma BackslashNext(s: Text, t: Tok, loc: Local)
    ensures HoldsHigh(s, t, loc) ==> |s| >= 3 && s[1] == BACKSLASH && IsHex(s[0]) && t.top.state == EscapeUnicode
  {
  }

  /** The tokener with the half dropped, back in the string. */
  lemma DroppedIs(cfg: Config, s: Text, i: nat, t: Tok, loc: Local, e: nat)
    requires Inv(cfg, t) && i < e <= i + 2 && e < |s| && Tracks(cfg.strict, s, i, t, loc, false)
    requires HoldsHigh(s[i..], t, loc) && !PairCut(cfg.strict, s, e)
    ensures IsHex(s[i]) && Dropped(s[i], t, loc).quote == t.quote && (t.quote == QUOTE || t.quote == APOSTROPHE)
    ensures NotWithin(cfg.strict, s, i + 1) && NoLoss(cfg.strict, s, i + 1, false)
    ensures Scan(cfg.strict, s, i + 1) == Inside(t.quote)
    ensures e == i + 2 ==> Scan(cfg.strict, s, e) == Escaped(t.quote)
  {
    assert s[i..][0] == s[i] && s[i..][1] == s[i + 1];
    HeldIs(cfg.strict, s, i, t, loc, false);
    InsideQuote(cfg.strict, s, i);
    assert EscapeAt(cfg.strict, s, i - 5) && HexBetween(s, i - 3, i + 1);
    WithinNoMore(cfg.strict, s, i);
    hide HighCode, LowFollows, PendingAt, WholeEscape, CodeAt, WordOk;
    assert (i - 5) + 5 == i && s[i..][3..] == s[(i + 1) + 2..];
    assert !PairCutAt(cfg.strict, s, i - 5, e);
  }

  /** A piece that ends right after the prefix of the escape behind a high half. */
  lemma EndsInPrefix(cfg: Config, s: Text, i: nat, t: Tok, loc: Local) returns (u: Tok)
    requires Inv(cfg, t) && i + 3 < |s| && Tracks(cfg.strict, s, i, t, loc, false)
    requires HoldsHigh(s[i..], t, loc) && !PairCut(cfg.strict, s, i + 3)
    ensures Run(cfg, s[i..i + 3], t, loc) == More(u) && Inv(cfg, u)
    ensures Tracks(cfg.strict, s, i + 3, u, NO_LOCALS, false)
  {
    var a := s[i..i + 3];
    BackslashNext(s[i..], t, loc);
    HoldShort(s[i..], t, loc);
    assert a[0] == s[i] && s[i..][0] == s[i] && s[i..][1] == s[i + 1] && s[i..][2] == s[i + 2];
    StillHolds(s[i..], a, t, loc);
    HeldAtEnd(a, t, loc);
    UnicodeRuns(cfg, a, t, loc);
    u := StepUnicode(a, t, loc).tok;
    assert a[3..] == [];
    AtEndOfPiece(cfg, u, StepUnicode(a, t, loc).loc);
    InsideQuote(cfg.strict, s, i);
    HoldScans(cfg.strict, s, i);
    DeadHere(cfg.strict, s, i, t, loc);
    hide Run, Inv, HoldsHigh, PairCut, Scan, InEscape, HexCount;
  }

  lemma StillHolds(r: Text, a: Text, t: Tok, loc: Local)
    requires HoldsHigh(r, t, loc) && |a| == 3 && |r| >= 3 && a == r[..3]
    ensures HoldsHigh(a, t, loc) && a[2] == LOWER_U && r[2] == LOWER_U && StepUnicode(a, t, loc).tok.quote == t.quote
  {
    hide Append, DecodePair, HexValue, IsHigh, IsLow;
    assert Shift(HexValue(a[0]), 0) == HexValue(a[0]);
  }

  lemma DeadHere(strict: bool, s: Text, i: nat, t: Tok, loc: Local)
    requires i + 3 < |s| && Tracks(strict, s, i, t, loc, false)
    requires HoldsHigh(s[i..], t, loc) && !PairCut(strict, s, i + 3)
    ensures DeadEscape(s, i + 3)
  {
    assert s[i..][0] == s[i];
    HeldIs(strict, s, i, t, loc, false);
    hide LowFollows, PendingAt, WholeEscape, CodeAt, WordOk, Scan, HexCount;
    assert (i - 5) + 5 == i && s[i..][3..] == s[i + 3..];
    assert !PairCutAt(strict, s, i - 5, i + 3);
  }

  /** A piece that ends at a cut that is no pair cut leaves the tokener at that place of the text. */
  lemma {:induction false} PieceTracks(cfg: Config, s: Text, i: nat, e: nat, t: Tok, loc: Local)
    requires Inv(cfg, t) && i <= e < |s| && Tracks(cfg.strict, s, i, t, loc, false)
    requires i == e ==> loc.hi == 0
    requires Run(cfg, s[i..e], t, loc).More? && !PairCut(cfg.strict, s, e)
    ensures var u := Run(cfg, s[i..e], t, loc).tok;
            Inv(cfg, u) && Tracks(cfg.strict, s, e, u, NO_LOCALS, false)
    decreases |s| - i, Rank(t.top)
  {
    hide Step, TopOk, Waits, HoldsHigh, Rank, PairCut, Tracks, SpecialCut, IsHex;
    var a, b := s[i..e], s[e..];
    assert a + b == s[i..];
    Cuts.HoldsLong(a + b, t, loc);
    if i == e {
      AtPlace(cfg, s, i, t, loc);
    } else if HoldsHigh(a + b, t, loc) && e <= i + 2 {
      var u := EndsAtHalf(cfg, s, i, e, t, loc);
    } else if HoldsHigh(a + b, t, loc) && e == i + 3 {
      var u := EndsInPrefix(cfg, s, i, t, loc);
    } else if t.top.state == EscapeUnicode && e == i + 1 && loc.hi != 0 && t.stPos < 3 {
      assert a == [s[i]];
      UnicodeIs(cfg, a, t, loc);
      var u := EndsInLow(cfg, s, i, t, loc);
    } else {
      TracksSoundly(cfg.strict, s, i, t, loc);
      OrdinaryPiece(cfg, s, i, e, t, loc);
      TracksStep(cfg, s, i, t, loc, false);
      StepKeeps(cfg, a, t, loc);
      var m := Step(cfg, a, t, loc);
      assert a[0] == s[i] && a[m.n..] == s[i + m.n..e];
      PieceTracks(cfg, s, i + m.n, e, m.tok, m.loc);
    }
  }

  lemma TracksSoundly(strict: bool, s: Text, i: nat, t: Tok, loc: Local)
    requires i <= |s| && Tracks(strict, s, i, t, loc, false)
    ensures Sound(t, loc)
  {
  }

  lemma AtPlace(cfg: Config, s: Text, i: nat, t: Tok, loc: Local)
    requires Inv(cfg, t) && i <= |s| && Tracks(cfg.strict, s, i, t, loc, false) && loc.hi == 0
    requires Run(cfg, [], t, loc).More?
    ensures Run(cfg, [], t, loc) == More(t) && Tracks(cfg.strict, s, i, t, NO_LOCALS, false)
  {
    hide Scan, PendingAt, LowFollows, NotWithin, WordOk;
  }

  lemma OrdinaryPiece(cfg: Config, s: Text, i: nat, e: nat, t: Tok, loc: Local)
    requires Inv(cfg, t) && i < e < |s| && Sound(t, loc) && Run(cfg, s[i..e], t, loc).More?
    requires HoldsHigh(s[i..], t, loc) ==> e > i + 3
    requires !(t.top.state == EscapeUnicode && e == i + 1 && loc.hi != 0 && t.stPos < 3)
    ensures var m := Step(cfg, s[i..e], t, loc);
            && m == Step(cfg, s[i..], t, loc) && m.Go? && !(m.n > 0 && s[i] == NUL) && i + m.n <= e
            && (i + m.n == e ==> m.loc.hi == 0)
  {
    hide Step, HasPoint, NumberChars, HoldsHigh, Waits;
    var a, b := s[i..e], s[e..];
    assert a + b == s[i..] && a[0] == s[i];
    StepKeeps(cfg, a, t, loc);
    SoundStep(cfg, a, t, loc);
    if t.top.state != EscapeUnicode {
      StepPrefix(cfg, a, b, t, loc);
    } else {
      UnicodeIs(cfg, a, t, loc);
      UnicodeIs(cfg, s[i..], t, loc);
      UnicodePrefix(a, b, t, loc);
      HalfAtEnd(a, t, loc);
    }
  }

  /** A step that uses up a piece leaves a half pending only within the digits. */
  lemma HalfAtEnd(a: Text, t: Tok, loc: Local)
    requires a != [] && t.top.state == EscapeUnicode
    ensures var m := StepUnicode(a, t, loc);
            m.Go? && m.n == |a| && m.loc.hi != 0 ==> |a| == 1 && loc.hi != 0 && t.stPos != 3
  {
    hide HexValue, Shift, Combine, Append, IsHigh;
  }
}

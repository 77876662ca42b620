/**
 Which cuts change anything: the tokener reads every beginning of a text in two calls as in one if
 and only if the cut is not one of the bad ones.
 */
module Cuts {
  import opened Bytes
  import opened Json
  import opened Unicode
  import opened Machine
  import opened Reference
  import opened Split
  import opened Steps
  import Simulation

  /** The text ended within a unicode escape. */
  predicate Midway(o: Outcome) {
    o.More? && o.tok.top.state == EscapeUnicode
  }

  // ---------------------------------------------------------------- digits of an escape

  predicate AllHex(s: Text) {
    forall i :: 0 <= i < |s| ==> IsHex(s[i])
  }

  lemma HexCountAll(s: Text)
    requires HexCount(s) == |s|
    ensures AllHex(s)
  {
  }

  /** Digits that do not make up the four leave the tokener in the escape. */
  lemma {:induction false} DigitsWait(cfg: Config, s: Text, t: Tok, loc: Local)
    requires Inv(cfg, t) && t.top.state == EscapeUnicode && AllHex(s) && (t.stPos + |s| < 4 || t.stPos >= 4)
    ensures var o := Run(cfg, s, t, loc);
            o.More? && o.tok.top == t.top && o.tok.stPos == t.stPos + |s|
    decreases |s|
  {
    hide Run, StepUnicode, IsHex;
    if s == [] {
      AtEndOfPiece(cfg, t, loc);
    } else {
      UnicodeRuns(cfg, s, t, loc);
      DigitMoves(s, t, loc);
      var m := StepUnicode(s, t, loc);
      DigitsWait(cfg, s[1..], m.tok, m.loc);
    }
  }

  /** The code of the digits is finished: the half that was pending is used up, and at most four bytes
      are appended; without one the half that the digits make is replaced. */
  predicate FinishesLow(o: Outcome, t: Tok, hi: nat) {
    && o.More? && o.tok.top == t.top.(state := t.top.saved)
    && if hi == 0 then |o.tok.pb| == |t.pb| + 3 else |o.tok.pb| <= |t.pb| + 4
  }

  lemma {:induction false} LowDigits(cfg: Config, s: Text, t: Tok, loc: Local)
    requires Inv(cfg, t) && t.top.state == EscapeUnicode && t.stPos < 4 && |s| == 4 - t.stPos
    requires LowFollows(s, t.ucs, t.stPos)
    ensures FinishesLow(Run(cfg, s, t, loc), t, loc.hi)
    decreases |s|
  {
    hide Run, StepUnicode, IsHex, HexValue, Shift, Inv, IsLow;
    UnicodeRuns(cfg, s, t, loc);
    var m := StepUnicode(s, t, loc);
    if t.stPos == 3 {
      LastLow(cfg, s, t, loc);
      assert s[1..] == [];
      AtEndOfPiece(cfg, m.tok, m.loc);
    } else {
      DigitStep(s, t, loc);
      LowDigits(cfg, s[1..], m.tok, m.loc);
    }
  }

  lemma LastLow(cfg: Config, s: Text, t: Tok, loc: Local)
    requires Inv(cfg, t) && t.top.state == EscapeUnicode && t.stPos == 3 && |s| == 1 && LowFollows(s, t.ucs, 3)
    ensures var m := StepUnicode(s, t, loc);
            && m.Go? && m.n == 1 && Inv(cfg, m.tok) && AtEnd(m.tok) == More(m.tok)
            && FinishesLow(More(m.tok), t, loc.hi)
  {
    hide HexValue, Encode, DecodePair, Step, Inv, Run;
    UnicodeIs(cfg, s, t, loc);
    var uc := t.ucs + Shift(HexValue(s[0]), 0);
    LowIsLarge(uc);
    AppendIsShort(uc);
    AppendIsShort(DecodePair(loc.hi, uc));
    UnicodeRuns(cfg, s, t, loc);
    hide Append, IsLow, IsHigh;
  }

  lemma LowIsLarge(uc: nat)
    requires IsLow(uc)
    ensures uc >= 0x800 && !IsHigh(uc) && Append(uc) == REPLACEMENT
  {
  }

  lemma AppendIsShort(uc: nat)
    ensures |Append(uc)| <= 4
  {
  }

  /** A piece that ends within the digits after a pending half. */
  lemma {:induction false} DigitsCut(cfg: Config, s: Text, rest: Text, t: Tok, loc: Local)
    requires Inv(cfg, t) && t.top.state == EscapeUnicode && s != [] && t.stPos + |s| < 4 && loc.hi != 0
    requires LowFollows(s + rest, t.ucs, t.stPos)
    ensures var o := Run(cfg, s, t, loc);
            && o.More? && Inv(cfg, o.tok) && o.tok.top == t.top && o.tok.stPos == t.stPos + |s|
            && |o.tok.pb| == |t.pb| + 3 && LowFollows(rest, o.tok.ucs, o.tok.stPos)
    decreases |s|
  {
    hide Run, StepUnicode, IsHex, HexValue, Shift, Inv;
    assert (s + rest)[0] == s[0] && (s + rest)[1..] == s[1..] + rest;
    UnicodeRuns(cfg, s, t, loc);
    DigitStep(s, t, loc);
    var m := StepUnicode(s, t, loc);
    if |s| == 1 {
      assert s[1..] == [] && s[1..] + rest == rest;
      AtEndOfPiece(cfg, m.tok, m.loc);
    } else {
      assert t.pb + [] == t.pb;
      DigitsCut(cfg, s[1..], rest, m.tok, m.loc);
    }
  }

  /** The digits of a low half are in the first bytes. */
  lemma {:induction false} LowPrefix(s: Text, more: Text, ucs: nat, place: nat)
    requires LowFollows(s, ucs, place)
    ensures LowFollows(s + more, ucs, place)
    decreases |s|
  {
    hide HexValue, Shift, IsHex, IsLow;
    assert (s + more)[0] == s[0] && (s + more)[1..] == s[1..] + more;
    if place != 3 {
      LowPrefix(s[1..], more, ucs + Shift(HexValue(s[0]), 3 - place), place + 1);
    }
  }

  lemma {:induction false} LowStart(s: Text, ucs: nat, place: nat)
    requires LowFollows(s, ucs, place)
    ensures |s| >= 4 - place && LowFollows(s[..4 - place], ucs, place)
    decreases |s|
  {
    hide HexValue, Shift, IsHex, IsLow;
    if place != 3 {
      LowStart(s[1..], ucs + Shift(HexValue(s[0]), 3 - place), place + 1);
      assert s[..4 - place][1..] == s[1..][..3 - place];
    }
  }

  // ---------------------------------------------------------------- a pair that is cut

  /** The state in which a high half is finished, and two bytes more are read. */
  lemma FirstHalf(cfg: Config, s: Text, t: Tok, loc: Local)
    requires Inv(cfg, t) && HoldsHigh(s, t, loc) && |s| == 7 && LowFollows(s[3..], 0, 0)
    ensures var p := |t.pb| + |HighCode(s[0], t, loc).1|;
            var o := Run(cfg, s, t, loc);
            o.More? && !Midway(o) && |o.tok.pb| <= p + 4
  {
    hide Run, Inv, LowFollows, Combine, HexValue, IsHigh, IsHex;
    HoldStep(cfg, s, t, loc);
    var (code, before) := HighCode(s[0], t, loc);
    var held := t.(stPos := 0, ucs := 0, pb := t.pb + before);
    LowDigits(cfg, s[3..], held, loc.(hi := code));
    SavedIsText(cfg, t);
  }

  lemma SavedIsText(cfg: Config, t: Tok)
    requires Inv(cfg, t) && t.top.state == EscapeUnicode
    ensures t.top.saved == InString || t.top.saved == InField
  {
  }

  /** What the second call makes of the escape when the first one could not see it. */
  lemma SeparateHalf(cfg: Config, a: Text, b: Text, t: Tok, loc: Local)
    requires Inv(cfg, t) && Sound(t, loc) && 1 <= |a| <= 2 && |a + b| == 7 && HoldsHigh(a + b, t, loc)
    requires LowFollows((a + b)[3..], 0, 0)
    ensures Run(cfg, a, t, loc).More? && Inv(cfg, Run(cfg, a, t, loc).tok)
    ensures var p := |t.pb| + |HighCode(a[0], t, loc).1|;
            var o := Run(cfg, b, Run(cfg, a, t, loc).tok, NO_LOCALS);
            o.More? && |o.tok.pb| == p + 6
  {
    hide Run, Inv, LowFollows, Combine, HexValue, IsHigh, IsHex;
    var s := a + b;
    var mid := Separated(cfg, a, b, t, loc);
    LowDigits(cfg, s[3..], mid, NO_LOCALS);
  }

  /** The second call up to the digits of the escape. */
  lemma Separated(cfg: Config, a: Text, b: Text, t: Tok, loc: Local) returns (u: Tok)
    requires Inv(cfg, t) && Sound(t, loc) && 1 <= |a| <= 2 && HoldsHigh(a + b, t, loc)
    ensures Run(cfg, a, t, loc).More? && Inv(cfg, Run(cfg, a, t, loc).tok)
    ensures Inv(cfg, u) && u.top.state == EscapeUnicode && u.stPos == 0 && u.ucs == 0
    ensures |u.pb| == |t.pb| + |HighCode(a[0], t, loc).1| + 3
    ensures Run(cfg, b, Run(cfg, a, t, loc).tok, NO_LOCALS) == Run(cfg, (a + b)[3..], u, NO_LOCALS)
  {
    hide Run, Inv, Combine, HexValue, IsHigh, IsHex;
    var s := a + b;
    assert s[0] == a[0] && s[1] == BACKSLASH && s[2] == LOWER_U;
    DropStep(cfg, a, b, t, loc);
    var back := Dropped(a[0], t, loc);
    var mid := back.(top := back.top.(state := StringEscape, saved := back.top.state));
    hide HoldsHigh, HighCode;
    EscapeOpens(cfg, s[1..], back, NO_LOCALS);
    EscapeOpens(cfg, s[1..], back, loc.(hi := 0));
    assert s[1..][1..] == s[2..] && s[2..][1..] == s[3..];
    EscapeBegins(cfg, s[2..], mid, NO_LOCALS);
    u := In(mid, EscapeUnicode).(ucs := 0, stPos := 0);
    if |a| == 1 {
      assert a[1..] == [] && b == s[1..];
      AtEndOfPiece(cfg, back, loc.(hi := 0));
    } else {
      assert a[1] == s[1] && a[1..] == [BACKSLASH] && b == s[2..];
    }
  }

  lemma CutInLow(cfg: Config, a: Text, b: Text, t: Tok, loc: Local)
    requires Inv(cfg, t) && 4 <= |a| <= 6 && |a + b| == 7 && HoldsHigh(a + b, t, loc)
    requires LowFollows((a + b)[3..], 0, 0)
    ensures Run(cfg, a, t, loc).More? && Inv(cfg, Run(cfg, a, t, loc).tok)
    ensures var p := |t.pb| + |HighCode(a[0], t, loc).1|;
            var o := Run(cfg, b, Run(cfg, a, t, loc).tok, NO_LOCALS);
            o.More? && |o.tok.pb| == p + 6
  {
    hide Run, Inv, LowFollows, Combine, HexValue, IsHigh, IsHex;
    var s := a + b;
    assert s[0] == a[0] && s[1] == a[1] && s[2] == a[2] && s[3..] == a[3..] + b;
    HoldStep(cfg, a, t, loc);
    var (code, before) := HighCode(a[0], t, loc);
    var held := t.(stPos := 0, ucs := 0, pb := t.pb + before);
    DigitsCut(cfg, a[3..], b, held, loc.(hi := code));
    LowDigits(cfg, b, Run(cfg, a, t, loc).tok, NO_LOCALS);
  }

  /** After the prefix of the second escape. */
  lemma CutsPrefix(cfg: Config, a: Text, b: Text, t: Tok, loc: Local)
    requires Inv(cfg, t) && |a| == 3 && HoldsHigh(a + b, t, loc) && b != [] && |b| <= 4 && AllHex(b)
    ensures Run(cfg, a, t, loc).More? && Inv(cfg, Run(cfg, a, t, loc).tok)
    ensures Run(cfg, a + b, t, loc) != Run(cfg, b, Run(cfg, a, t, loc).tok, NO_LOCALS)
    ensures |b| == 4 ==> !Midway(Run(cfg, a + b, t, loc))
  {
    hide Run, Inv, Combine, HexValue, IsHigh, IsHex, AllHex;
    var s := a + b;
    assert s[0] == a[0] && s[1] == a[1] && s[2] == a[2] && s[3..] == b;
    HoldStep(cfg, s, t, loc);
    var (code, before) := HighCode(s[0], t, loc);
    var held := t.(stPos := 0, ucs := 0, pb := t.pb + before);
    HeldAtEnd(a, t, loc);
    UnicodeRuns(cfg, a, t, loc);
    assert a[3..] == [];
    var left := StepUnicode(a, t, loc).tok;
    AtEndOfPiece(cfg, left, StepUnicode(a, t, loc).loc);
    DigitsWait(cfg, b, left, NO_LOCALS);
    if |b| < 4 {
      DigitsWait(cfg, b, held, loc.(hi := code));
    } else {
      FourDigits(cfg, b, held, loc.(hi := code));
      SavedIsText(cfg, t);
    }
  }

  /** The last digits of an escape at the end of a text. */
  lemma {:induction false} FourDigits(cfg: Config, s: Text, t: Tok, loc: Local)
    requires Inv(cfg, t) && t.top.state == EscapeUnicode && t.stPos < 4 && |s| == 4 - t.stPos && AllHex(s)
    ensures var o := Run(cfg, s, t, loc);
            o.More? && o.tok.top.state == t.top.saved
    decreases |s|
  {
    hide Run, StepUnicode, IsHex, Inv;
    UnicodeRuns(cfg, s, t, loc);
    var m := StepUnicode(s, t, loc);
    if t.stPos == 3 {
      LastDigit(cfg, s, t, loc);
      assert s[1..] == [];
      AtEndOfPiece(cfg, m.tok, m.loc);
    } else {
      DigitMoves(s, t, loc);
      FourDigits(cfg, s[1..], m.tok, m.loc);
    }
  }

  lemma LastDigit(cfg: Config, s: Text, t: Tok, loc: Local)
    requires Inv(cfg, t) && t.top.state == EscapeUnicode && t.stPos == 3 && |s| == 1 && IsHex(s[0])
    ensures var m := StepUnicode(s, t, loc);
            && m.Go? && m.n == 1 && m.tok.top == t.top.(state := t.top.saved) && AtEnd(m.tok) == More(m.tok)
  {
    hide HexValue, Append, Combine, IsHigh, Shift;
    SavedIsText(cfg, t);
  }

  /** A cut that splits a pair shows, at the end of the second escape or of the text. */
  lemma PairShows(cfg: Config, a: Text, b: Text, t: Tok, loc: Local) returns (j: nat)
    requires Inv(cfg, t) && Sound(t, loc) && a != [] && b != []
    requires HoldsHigh(a + b, t, loc) && SplitsPair(a + b, |a|)
    ensures Run(cfg, a, t, loc).More? && Inv(cfg, Run(cfg, a, t, loc).tok)
    ensures 0 < j <= |b| && (j == |b| || !Midway(Run(cfg, a + b[..j], t, loc)))
    ensures Run(cfg, a + b[..j], t, loc) != Run(cfg, b[..j], Run(cfg, a, t, loc).tok, NO_LOCALS)
  {
    hide Run, Inv, LowFollows, HexCount, Midway, HighCode, Sound;
    var s := a + b;
    if |a| == 3 {
      assert s[3..] == b;
      j := HexCount(b);
      assert AllHex(b[..j]);
      HoldsStart(a, b, j, t, loc);
      CutsPrefix(cfg, a, b[..j], t, loc);
    } else if s[3..] == [] {
      j := |b|;
      assert b[..j] == b;
      TextEnds(cfg, a, b, t, loc);
    } else {
      LowStart(s[3..], 0, 0);
      j := 7 - |a|;
      var c := a + b[..j];
      assert c == s[..7] && c[3..] == s[3..][..4];
      HoldsStart(a, b, j, t, loc);
      FirstHalf(cfg, c, t, loc);
      assert c[0] == a[0];
      if |a| <= 2 {
        SeparateHalf(cfg, a, b[..j], t, loc);
      } else {
        CutInLow(cfg, a, b[..j], t, loc);
      }
    }
  }

  lemma HoldsStart(a: Text, b: Text, j: nat, t: Tok, loc: Local)
    requires j <= |b| && |a| + j >= 3
    ensures HoldsHigh(a + b[..j], t, loc) <==> HoldsHigh(a + b, t, loc)
  {
    hide Combine, HexValue, IsHigh, IsHex;
    assert a + b[..j] == (a + b)[..|a| + j];
  }

  /** The text ends right after the prefix of the second escape. */
  lemma TextEnds(cfg: Config, a: Text, b: Text, t: Tok, loc: Local)
    requires Inv(cfg, t) && Sound(t, loc) && 1 <= |a| <= 2 && |a + b| == 3 && HoldsHigh(a + b, t, loc)
    ensures Run(cfg, a, t, loc).More? && Inv(cfg, Run(cfg, a, t, loc).tok)
    ensures Run(cfg, a + b, t, loc) != Run(cfg, b, Run(cfg, a, t, loc).tok, NO_LOCALS)
    ensures Midway(Run(cfg, a + b, t, loc))
  {
    hide Run, Inv, Sound, HighCode;
    var s := a + b;
    EndsInPrefix(cfg, s, t, loc);
    var u := Separated(cfg, a, b, t, loc);
    assert s[3..] == [];
    AtEndOfPiece(cfg, u, NO_LOCALS);
    AtEndMidway(u);
  }

  lemma AtEndMidway(t: Tok)
    requires t.top.state == EscapeUnicode
    ensures AtEnd(t) == More(t)
  {
  }

  lemma EndsInPrefix(cfg: Config, s: Text, t: Tok, loc: Local)
    requires Inv(cfg, t) && HoldsHigh(s, t, loc) && |s| == 3
    ensures var o := Run(cfg, s, t, loc);
            o.More? && o.tok.top == t.top && o.tok.stPos == 4 && Midway(o)
  {
    hide Run, StepUnicode, Inv;
    HeldAtEnd(s, t, loc);
    UnicodeRuns(cfg, s, t, loc);
    assert s[3..] == [];
    AtEndOfPiece(cfg, StepUnicode(s, t, loc).tok, StepUnicode(s, t, loc).loc);
  }

  // ---------------------------------------------------------------- a number that is cut

  /** Read as "-Infinity", or refused as such. */
  lemma AsWord(cfg: Config, c: byte, t: Tok, loc: Local)
    requires Inv(cfg, t) && Sound(t, loc) && t.top.state == Number && t.pb != [] && t.pb[0] == MINUS
    requires (c == LOWER_I || c == UPPER_I) && loc.caseLen == 1
    ensures var o := Run(cfg, [c], t, loc);
            !Midway(o) && (o.More? || (o.Failed? && o.error == ErrUnexpected))
  {
    var s := [c];
    if |t.pb| > 1 {
      hide HasPoint;
      WordAfterNumber(cfg, s, t, loc);
    } else {
      var u := In(t, InfinityWord);
      assert Step(cfg, s, t, loc) == Go(0, u, loc);
      StepKeeps(cfg, s, t, loc);
      assert s[0..] == s;
      AsFirstLetter(cfg, s, u, loc);
      hide Step, Inv;
    }
  }

  lemma AsFirstLetter(cfg: Config, s: Text, t: Tok, loc: Local)
    requires Inv(cfg, t) && t.top.state == InfinityWord && t.pb == [MINUS] && |s| == 1 && s[0] != NUL
    ensures var o := Run(cfg, s, t, loc);
            !Midway(o) && (o.More? || (o.Failed? && o.error == ErrUnexpected))
  {
    StepKeeps(cfg, s, t, loc);
    assert Step(cfg, s, t, loc) == StepInfinity(cfg, s[0], t, loc);
    assert |(t.pb + s)[1..]| == 1;
    assert s[1..] == [];
    var m := Step(cfg, s, t, loc);
    if m.Go? {
      AtEndOfPiece(cfg, m.tok, m.loc);
    }
    hide Step, Inv;
  }

  /** Read as a number, and refused after it unless it is a whole value. */
  lemma AsNumber(cfg: Config, c: byte, t: Tok, loc: Local)
    requires Inv(cfg, t) && t.top.state == Number && t.pb != [] && t.pb[0] == MINUS
    requires (c == LOWER_I || c == UPPER_I) && loc.caseLen != 1
    requires cfg.strict && t.below == [] ==> NumberValue(cfg, t.pb, t.isDouble) == None
    ensures var o := Run(cfg, [c], t, loc);
            o.Done? || (o.Failed? && o.error != ErrUnexpected)
  {
    var s := [c];
    StepKeeps(cfg, s, t, loc);
    assert Step(cfg, s, t, loc) == StepNumber(cfg, c, t, loc);
    match NumberValue(cfg, t.pb, t.isDouble)
    case None =>
      hide Step, Inv;
    case Some(v) =>
      assert s[0..] == s;
      AfterNumber(cfg, s, Complete(t, v), loc);
      hide Step, Inv;
  }

  lemma AfterNumber(cfg: Config, s: Text, t: Tok, loc: Local)
    requires Inv(cfg, t) && t.top.state == Eatws && t.top.saved == Finish
    requires |s| == 1 && (s[0] == LOWER_I || s[0] == UPPER_I) && !(cfg.strict && t.below == [])
    ensures var o := Run(cfg, s, t, loc);
            o.Done? || (o.Failed? && o.error != ErrUnexpected)
  {
    var u := In(t, Finish);
    assert Step(cfg, s, t, loc) == Go(0, u, loc);
    StepKeeps(cfg, s, t, loc);
    assert s[0..] == s;
    AfterFinish(cfg, s, u, loc);
    hide Step, Inv;
  }

  lemma AfterFinish(cfg: Config, s: Text, t: Tok, loc: Local)
    requires Inv(cfg, t) && t.top.state == Finish
    requires |s| == 1 && (s[0] == LOWER_I || s[0] == UPPER_I) && !(cfg.strict && t.below == [])
    ensures var o := Run(cfg, s, t, loc);
            o.Done? || (o.Failed? && o.error != ErrUnexpected)
  {
    assert Step(cfg, s, t, loc) == StepFinish(t, loc);
    StepKeeps(cfg, s, t, loc);
    var d := |t.below|;
    if d > 0 {
      var u, l := t.(below := t.below[..d - 1], top := t.below[d - 1]), loc.(obj := t.top.current);
      assert Waits(t.below[d - 1]);
      assert s[0..] == s;
      hide Step;
      var v, w;
      if u.top.state == ArrayAdd {
        v := Simulation.AddElement(cfg, s, u, l);
      } else {
        v := Simulation.AddMember(cfg, s, u, l);
      }
      w := Simulation.SepRun(cfg, s, v, l);
    }
  }

  /** A cut that restarts the count of the bytes of a number shows at the "i". */
  lemma MinusShows(cfg: Config, b: Text, t: Tok, loc: Local) returns (j: nat)
    requires Inv(cfg, t) && Sound(t, loc) && CutsMinus(cfg, b, t, loc)
    ensures 0 < j <= |b| && !Midway(Run(cfg, b[..j], t, loc))
    ensures Run(cfg, b[..j], t, loc) != Run(cfg, b[..j], t, NO_LOCALS)
  {
    hide Run, Inv, NumberValue, HasPoint, NumberChars, Midway;
    var n := NumberLength(b);
    j := n + 1;
    var c := b[..j];
    SameLength(b, j);
    NumberGoesOn(cfg, c, t, loc);
    NumberGoesOn(cfg, c, t, NO_LOCALS);
    assert c[..n] == b[..n] && c[n..] == [b[n]];
    var u := t.(pb := t.pb + c[..n], isDouble := t.isDouble || HasPoint(c[..n]));
    assert u.pb[0] == MINUS;
    BothPoints(t.pb, c[..n]);
    if n == 1 {
      AsNumber(cfg, b[n], u, loc.(caseLen := loc.caseLen + n));
      AsWord(cfg, b[n], u, NO_LOCALS.(caseLen := n));
      NotMidway(Run(cfg, [b[n]], u, loc.(caseLen := loc.caseLen + n)));
    } else {
      AsWord(cfg, b[n], u, loc.(caseLen := loc.caseLen + n));
      AsNumber(cfg, b[n], u, NO_LOCALS.(caseLen := n));
    }
  }

  lemma NotMidway(o: Outcome)
    ensures !o.More? ==> !Midway(o)
  {
  }

  lemma BothPoints(a: Text, b: Text)
    ensures HasPoint(a + b) <==> HasPoint(a) || HasPoint(b)
  {
    assert forall i :: 0 <= i < |a| ==> (a + b)[i] == a[i];
    assert forall i :: 0 <= i < |b| ==> (a + b)[|a| + i] == b[i];
  }

  lemma {:induction false} SameLength(s: Text, j: nat)
    requires NumberLength(s) < j <= |s|
    ensures NumberLength(s[..j]) == NumberLength(s)
  {
    if NumberLength(s) == 0 {
    } else {
      SameLength(s[1..], j - 1);
      assert s[..j][1..] == s[1..][..j - 1];
    }
  }

  // ---------------------------------------------------------------- bad cuts show

  lemma BadNow(cfg: Config, s: Text, t: Tok, loc: Local, k: nat)
    requires Inv(cfg, t) && 0 < k <= |s| && BadCut(cfg, s, t, loc, k) && !(HoldsHigh(s, t, loc) && SplitsPair(s, k))
    ensures var m := Step(cfg, s, t, loc);
            && m.Go? && m.n <= k && !(m.n > 0 && s[0] == NUL) && Inv(cfg, m.tok)
            && BadCut(cfg, s[m.n..], m.tok, m.loc, k - m.n)
  {
    hide Step, Inv, HoldsHigh, SplitsPair, CutsMinus;
    StepKeeps(cfg, s, t, loc);
  }

  lemma NotInEscape(cfg: Config, s: Text, t: Tok, loc: Local)
    requires Inv(cfg, t) && BadCut(cfg, s, t, loc, 0)
    ensures t.top.state == Number && CutsMinus(cfg, s, t, loc)
  {
  }

  /** A step at which a bad cut lies further on is an ordinary one. */
  lemma BadIsOrdinary(cfg: Config, a: Text, b: Text, t: Tok, loc: Local)
    requires Inv(cfg, t) && Sound(t, loc) && a != [] && b != [] && BadCut(cfg, a + b, t, loc, |a|)
    requires !(HoldsHigh(a + b, t, loc) && SplitsPair(a + b, |a|))
    ensures !SpecialCut(a, b, t, loc) && GoodHold(a + b, t, loc, |a|)
  {
    hide Step, LowFollows, CutsMinus, IsHigh, Combine, HexValue, IsHex, HexCount, StepFourth, Sound, Waits;
    var s := a + b;
    BadNow(cfg, s, t, loc, |a|);
    var m := Step(cfg, s, t, loc);
    if t.top.state == EscapeUnicode {
      UnicodeIs(cfg, s, t, loc);
      if HoldsHigh(s, t, loc) {
        if |s| > 3 {
          HoldMove(s, t, loc);
        }
        if |a| == 3 {
          NotInEscape(cfg, s[m.n..], m.tok, m.loc);
        }
      } else if |a| == 1 && loc.hi != 0 && t.stPos < 3 {
        DigitMovesOn(s, t, loc);
        NotInEscape(cfg, s[m.n..], m.tok, m.loc);
      }
    }
  }

  lemma DigitMovesOn(s: Text, t: Tok, loc: Local)
    requires t.top.state == EscapeUnicode && s != [] && t.stPos < 3
    ensures var m := StepUnicode(s, t, loc);
            m.Go? ==> m.n == 1 && m.tok.top == t.top
  {
    hide StepFourth, HexValue, Shift;
  }

  /** The same for a beginning of the rest. */
  lemma OrdinaryPrefix(cfg: Config, a: Text, b: Text, j: nat, t: Tok, loc: Local)
    requires Inv(cfg, t) && Sound(t, loc) && a != [] && 0 < j <= |b|
    requires !SpecialCut(a, b, t, loc) && GoodHold(a + b, t, loc, |a|)
    ensures Step(cfg, a + b[..j], t, loc) == Step(cfg, a + b, t, loc) == Step(cfg, a, t, loc)
  {
    hide Step, Inv, LowFollows, IsHigh, Combine, HexValue, IsHex, Sound, HoldsHigh;
    OrdinaryStep(cfg, a, b, t, loc);
    HoldsLong(a + b, t, loc);
    if |a| + j >= 3 {
      HoldsStart(a, b, j, t, loc);
      if HoldsHigh(a + b, t, loc) && |a| <= 6 {
        assert a + b[..j] + b[j..] == a + b;
        assert (a + b)[3..] == (a + b[..j])[3..] + b[j..];
        if |a| > 3 && LowFollows((a + b[..j])[3..], 0, 0) {
          LowPrefix((a + b[..j])[3..], b[j..], 0, 0);
        }
      }
    } else {
      HoldsLong(a + b[..j], t, loc);
    }
    OrdinaryStep(cfg, a, b[..j], t, loc);
  }

  lemma HoldsLong(s: Text, t: Tok, loc: Local)
    ensures HoldsHigh(s, t, loc) ==> |s| >= 3 && t.top.state == EscapeUnicode
  {
  }

  /** A bad cut shows, at the end of some beginning of the text. */
  lemma {:induction false} BadShows(cfg: Config, a: Text, b: Text, t: Tok, loc: Local) returns (j: nat)
    requires Inv(cfg, t) && Sound(t, loc) && b != [] && BadCut(cfg, a + b, t, loc, |a|)
    requires a == [] ==> Consumed(t) && loc.hi == 0
    requires Run(cfg, a, t, loc).More? && !Pending(a + b, t, loc, |a|)
    ensures Inv(cfg, Run(cfg, a, t, loc).tok)
    ensures 0 < j <= |b| && (j == |b| || !Midway(Run(cfg, a + b[..j], t, loc)))
    ensures Run(cfg, a + b[..j], t, loc) != Run(cfg, b[..j], Run(cfg, a, t, loc).tok, NO_LOCALS)
    decreases |a|, Rank(t.top)
  {
    hide Step, TopOk, Waits, BadCut, Pending, HoldsHigh, LowFollows, SpecialCut, Sound, Consumed, Rank, GoodHold,
      SplitsPair, Midway;
    var s := a + b;
    HoldsLong(s, t, loc);
    if a == [] {
      assert s == b;
      NotInEscape(cfg, b, t, loc);
      j := MinusShows(cfg, b, t, loc);
      assert a + b[..j] == b[..j];
      AtNumber(cfg, t, loc);
    } else if HoldsHigh(s, t, loc) && SplitsPair(s, |a|) {
      j := PairShows(cfg, a, b, t, loc);
    } else {
      BadIsOrdinary(cfg, a, b, t, loc);
      var m := BadGoesOn(cfg, a, b, t, loc);
      j := BadShows(cfg, a[m.n..], b, m.tok, m.loc);
      ShowsBefore(cfg, a, b, j, t, loc);
    }
  }

  /** An ordinary step towards a bad cut. */
  lemma BadGoesOn(cfg: Config, a: Text, b: Text, t: Tok, loc: Local) returns (m: Move)
    requires Inv(cfg, t) && Sound(t, loc) && a != [] && b != [] && BadCut(cfg, a + b, t, loc, |a|)
    requires !(HoldsHigh(a + b, t, loc) && |a + b| >= 3 && SplitsPair(a + b, |a|))
    requires !SpecialCut(a, b, t, loc) && GoodHold(a + b, t, loc, |a|) && !Pending(a + b, t, loc, |a|)
    requires Run(cfg, a, t, loc).More?
    ensures m == Step(cfg, a, t, loc) && m.Go? && m.n <= |a| && Inv(cfg, m.tok) && Sound(m.tok, m.loc)
    ensures m.n == 0 ==> Rank(m.tok.top) < Rank(t.top)
    ensures BadCut(cfg, a[m.n..] + b, m.tok, m.loc, |a| - m.n) && !Pending(a[m.n..] + b, m.tok, m.loc, |a| - m.n)
    ensures |a| == m.n ==> Consumed(m.tok) && m.loc.hi == 0
    ensures Run(cfg, a, t, loc) == Run(cfg, a[m.n..], m.tok, m.loc) && !(m.n > 0 && a[0] == NUL)
  {
    hide Step, TopOk, Waits, BadCut, Pending, HoldsHigh, LowFollows, SpecialCut, Sound, Consumed, Rank, GoodHold,
      SplitsPair;
    var s := a + b;
    HoldsLong(s, t, loc);
    BadNow(cfg, s, t, loc, |a|);
    OrdinaryStep(cfg, a, b, t, loc);
    SoundStep(cfg, a, t, loc);
    NextCut(cfg, a, b, t, loc);
    assert s[0] == a[0];
    m := Step(cfg, a, t, loc);
    StepKeeps(cfg, a, t, loc);
    assert s[m.n..] == a[m.n..] + b;
    Consumes(a, t, m);
  }

  /** A difference after an ordinary step is a difference before it. */
  lemma ShowsBefore(cfg: Config, a: Text, b: Text, j: nat, t: Tok, loc: Local)
    requires Inv(cfg, t) && Sound(t, loc) && a != [] && 0 < j <= |b|
    requires !SpecialCut(a, b, t, loc) && GoodHold(a + b, t, loc, |a|)
    requires var m := Step(cfg, a, t, loc); m.Go? && m.n <= |a| && !(m.n > 0 && a[0] == NUL) && Inv(cfg, m.tok)
    ensures var m, c := Step(cfg, a, t, loc), a + b[..j];
            Run(cfg, c, t, loc) == Run(cfg, a[m.n..] + b[..j], m.tok, m.loc)
  {
    hide Step, Waits, HoldsHigh, LowFollows, SpecialCut, Sound, Rank, GoodHold;
    OrdinaryPrefix(cfg, a, b, j, t, loc);
    var m, c := Step(cfg, a, t, loc), a + b[..j];
    assert c[0] == a[0] && c[m.n..] == a[m.n..] + b[..j];
    StepKeeps(cfg, c, t, loc);
  }

  lemma Consumes(s: Text, t: Tok, m: Move)
    requires s != [] && SoundMove(s, t, m) && m.Go?
    ensures Sound(m.tok, m.loc) && (m.n > 0 ==> Consumed(m.tok))
  {
  }

  lemma AtNumber(cfg: Config, t: Tok, loc: Local)
    requires Inv(cfg, t) && t.top.state == Number
    ensures Run(cfg, [], t, loc) == More(t)
  {
  }

  // ---------------------------------------------------------------- good cuts stay good

  /** A cut that is good for a text is good for a beginning of it that does not end in an escape. */
  lemma {:induction false} GoodPrefix(cfg: Config, a: Text, b: Text, j: nat, t: Tok, loc: Local)
    requires Inv(cfg, t) && Sound(t, loc) && 0 < j <= |b| && !BadCut(cfg, a + b, t, loc, |a|)
    requires !Midway(Run(cfg, a + b[..j], t, loc))
    ensures !BadCut(cfg, a + b[..j], t, loc, |a|)
    decreases |a|, Rank(t.top)
  {
    hide Step, TopOk, Waits, HoldsHigh, LowFollows, Sound, Rank, SplitsPair, Midway, CutsMinus;
    var s, c := a + b, a + b[..j];
    if a == [] {
      assert s == b && c == b[..j];
      MinusPrefix(cfg, b, j, t, loc);
    } else {
      HoldsLong(c, t, loc);
      if HoldsHigh(c, t, loc) && SplitsPair(c, |a|) {
        HoldsStart(a, b, j, t, loc);
        NoSplit(cfg, s, t, loc, |a|);
        PairPrefix(cfg, a, b, j, t, loc);
        assert false;
      } else if BadCut(cfg, c, t, loc, |a|) {
        BadNow(cfg, c, t, loc, |a|);
        PrefixStep(cfg, a, b, j, t, loc);
        var m := Step(cfg, c, t, loc);
        assert c[0] == s[0] == a[0];
        assert c[m.n..] == a[m.n..] + b[..j] && s[m.n..] == a[m.n..] + b;
        StepKeeps(cfg, s, t, loc);
        SoundStep(cfg, c, t, loc);
        Consumes(c, t, m);
        GoodPrefix(cfg, a[m.n..], b, j, m.tok, m.loc);
      }
    }
  }

  lemma NoSplit(cfg: Config, s: Text, t: Tok, loc: Local, k: nat)
    requires Inv(cfg, t) && 0 < k <= |s| && !BadCut(cfg, s, t, loc, k) && HoldsHigh(s, t, loc)
    ensures |s| >= 3 && !SplitsPair(s, k)
  {
  }

  lemma MinusPrefix(cfg: Config, b: Text, j: nat, t: Tok, loc: Local)
    requires 0 < j <= |b|
    ensures CutsMinus(cfg, b[..j], t, loc) ==> CutsMinus(cfg, b, t, loc)
  {
    hide NumberValue;
    var n := NumberLength(b[..j]);
    if n < j {
      LengthPrefix(b, j);
      assert b[..j][..n] == b[..n] && b[..j][n] == b[n];
    }
  }

  lemma {:induction false} LengthPrefix(s: Text, j: nat)
    requires j <= |s| && NumberLength(s[..j]) < j
    ensures NumberLength(s) == NumberLength(s[..j])
  {
    if s[..j][0] != s[0] || !IsNumberChar(s[0]) {
    } else {
      assert s[..j][1..] == s[1..][..j - 1];
      LengthPrefix(s[1..], j - 1);
    }
  }

  /** Where a beginning of the text shows a split that the whole text does not, it ends in the escape. */
  lemma PairPrefix(cfg: Config, a: Text, b: Text, j: nat, t: Tok, loc: Local)
    requires Inv(cfg, t) && a != [] && 0 < j <= |b| && HoldsHigh(a + b, t, loc) && |a| + j >= 3
    requires SplitsPair(a + b[..j], |a|) && |a + b| >= 3 && !SplitsPair(a + b, |a|)
    ensures Midway(Run(cfg, a + b[..j], t, loc))
  {
    hide Run, Inv, LowFollows, IsHex, Midway;
    var s, c := a + b, a + b[..j];
    var rest := c[3..];
    HoldsStart(a, b, j, t, loc);
    assert s == c + b[j..] && s[3..] == rest + b[j..];
    if rest == [] {
      EndsInPrefix(cfg, c, t, loc);
    } else if |a| == 3 {
      assert rest == b[..j] && s[3..] == b;
      CountPrefix(b, j);
      EndsInDigits(cfg, c, t, loc);
    } else {
      LowPrefix(rest, b[j..], 0, 0);
    }
  }

  lemma CountPrefix(s: Text, j: nat)
    requires j <= |s|
    ensures HexCount(s[..j]) == 4 ==> HexCount(s) == 4
    ensures 0 < HexCount(s[..j]) ==> HexCount(s) > 0
  {
  }

  lemma EndsInDigits(cfg: Config, s: Text, t: Tok, loc: Local)
    requires Inv(cfg, t) && HoldsHigh(s, t, loc) && |s| > 3 && HexCount(s[3..]) == |s[3..]| < 4
    ensures Midway(Run(cfg, s, t, loc))
  {
    hide Run, Inv, HexCount, IsHex, HexValue, Combine, IsHigh;
    HoldStep(cfg, s, t, loc);
    var (code, before) := HighCode(s[0], t, loc);
    HexCountAll(s[3..]);
    DigitsWait(cfg, s[3..], t.(stPos := 0, ucs := 0, pb := t.pb + before), loc.(hi := code));
  }

  /** A step that leads a beginning of the text on to a bad cut is the step of the text. */
  lemma PrefixStep(cfg: Config, a: Text, b: Text, j: nat, t: Tok, loc: Local)
    requires Inv(cfg, t) && Sound(t, loc) && a != [] && 0 < j <= |b| && BadCut(cfg, a + b[..j], t, loc, |a|)
    requires !(HoldsHigh(a + b[..j], t, loc) && SplitsPair(a + b[..j], |a|))
    ensures Step(cfg, a + b[..j], t, loc) == Step(cfg, a + b, t, loc)
  {
    hide Step, HexCount, LowFollows, CutsMinus, Sound, Waits, Combine, IsHigh, HexValue, StepFourth, BadCut;
    var s, c := a + b, a + b[..j];
    assert s == c + b[j..];
    if t.top.state != EscapeUnicode {
      StepPrefix(cfg, c, b[j..], t, loc);
    } else {
      UnicodeIs(cfg, c, t, loc);
      UnicodeIs(cfg, s, t, loc);
      if t.stPos == 3 && |c| <= 3 && HoldsHigh(s, t, loc) {
        BadNow(cfg, c, t, loc, |a|);
        ShortHold(cfg, a, b, j, t, loc);
      } else {
        UnicodePrefix(c, b[j..], t, loc);
      }
    }
  }

  /** A beginning that ends within the prefix of the escape shows nothing yet. */
  lemma ShortHold(cfg: Config, a: Text, b: Text, j: nat, t: Tok, loc: Local)
    requires Inv(cfg, t) && a != [] && 0 < j <= |b| && |a| + j <= 3 && HoldsHigh(a + b, t, loc)
    requires !(HoldsHigh(a + b[..j], t, loc) && SplitsPair(a + b[..j], |a|))
    ensures !BadCut(cfg, a + b[..j], t, loc, |a|)
  {
    var s, c := a + b, a + b[..j];
    if |c| == 3 {
      HoldsStart(a, b, j, t, loc);
    } else {
      hide Step, Combine, HexValue, IsHigh, Append, IsHex;
      assert c[0] == s[0];
      assert |a| == 1 && |c| == 2;
      UnicodeIs(cfg, c, t, loc);
      DropsHigh(c, t, loc);
      SavedIsText(cfg, t);
      if BadCut(cfg, c, t, loc, 1) {
        HoldsLong(c, t, loc);
        BadNow(cfg, c, t, loc, 1);
        var m := Step(cfg, c, t, loc);
        NotInEscape(cfg, c[1..], m.tok, m.loc);
      }
    }
  }

  lemma DropsHigh(s: Text, t: Tok, loc: Local)
    requires t.top.state == EscapeUnicode && t.stPos == 3 && 0 < |s| < 3
    ensures var m := StepUnicode(s, t, loc);
            m.Go? ==> m.n == 1 && m.tok.top.state == t.top.saved
  {
    hide Combine, HexValue, IsHigh, Append, IsHex, Shift;
  }

  // ---------------------------------------------------------------- exactly when a cut does not matter

  /** A text given in two calls, after each of which the tokener is as after one call. */
  ghost predicate SameAt(cfg: Config, a: Text, b: Text, t: Tok, j: nat)
    requires Inv(cfg, t) && Call(cfg, a, t).More? && Inv(cfg, Call(cfg, a, t).tok) && j <= |b|
  {
    Call(cfg, a + b[..j], t) == Call(cfg, b[..j], Call(cfg, a, t).tok)
  }

  /**
   Split invariance, exactly. A tokener that waits after a piece goes on as if both pieces had come in
   one call if and only if the cut is not bad: the second call with the whole rest, or with any part
   of it that does not end within a unicode escape, leads to the same tokener, value or error, at the
   same byte.
   */
  lemma SplitExact(cfg: Config, a: Text, b: Text, t: Tok)
    requires Inv(cfg, t) && Sound(t, NO_LOCALS) && a != [] && b != [] && Call(cfg, a, t).More?
    ensures Inv(cfg, Call(cfg, a, t).tok)
    ensures (forall j :: 0 < j <= |b| && (j == |b| || !Midway(Call(cfg, a + b[..j], t))) ==> SameAt(cfg, a, b, t, j))
            <==> !BadCut(cfg, a + b, t, NO_LOCALS, |a|)
  {
    hide Run, Inv, Sound, BadCut, Midway;
    RunKeeps(cfg, a, t, NO_LOCALS);
    assert !Pending(a + b, t, NO_LOCALS, |a|);
    if BadCut(cfg, a + b, t, NO_LOCALS, |a|) {
      var j := BadShows(cfg, a, b, t, NO_LOCALS);
      assert !SameAt(cfg, a, b, t, j);
    } else {
      forall j | 0 < j <= |b| && (j == |b| || !Midway(Call(cfg, a + b[..j], t)))
        ensures SameAt(cfg, a, b, t, j)
      {
        if j == |b| {
          assert b[..j] == b;
        } else {
          GoodPrefix(cfg, a, b, j, t, NO_LOCALS);
        }
        SplitRun(cfg, a, b[..j], t, NO_LOCALS);
      }
    }
  }
}

/**
 Incomplete success: a NUL in a comment behind an element ends the call with success, although the array
 or the object around the element is not closed. Exactly when that happens.
 */
module Unclosed {
  import opened Bytes
  import opened Json
  import opened Unicode
  import opened Machine
  import opened Reference
  import opened Scanner
  import opened Split
  import opened Steps
  import Int64
  import NumberCuts
  import Pieces
  import RfcScan
  import Simulation
  import Success

  // ---------------------------------------------------------------- cuts outside of strings

  lemma {:induction false} HexScans(strict: bool, s: Text, from: nat, to: nat)
    requires from <= to <= |s|
    requires Scan(strict, s, from) == Inside(QUOTE) || Scan(strict, s, from) == Inside(APOSTROPHE)
    requires forall k :: from <= k < to ==> IsHex(s[k])
    ensures Scan(strict, s, to) == Scan(strict, s, from)
  {
    if from == to {
    } else {
      HexScans(strict, s, from, to - 1);
      assert IsHex(s[to - 1]);
    }
  }

  lemma LowIsHex(s: Text, ucs: nat, place: nat, n: nat)
    requires LowFollows(s, ucs, place) && place + n <= 4
    ensures n <= |s| && forall k :: 0 <= k < n ==> IsHex(s[k])
    decreases n
  {
    hide IsHex, Shift, HexValue, IsLow;
    if n == 0 {
    } else if place == 3 {
    } else {
      LowIsHex(s[1..], ucs + Shift(HexValue(s[0]), 3 - place), place + 1, n - 1);
      assert forall k :: 0 < k < n ==> s[k] == s[1..][k - 1];
    }
  }

  /** A cut in a pair is a cut in a string. */
  lemma PairIsInside(strict: bool, s: Text, p: nat, k: nat)
    requires k <= |s| && PairCutAt(strict, s, p, k)
    ensures Scan(strict, s, k) != Outside
  {
    InsideQuote(strict, s, p);
    WholeIsHex(s, p);
    DigitsScan(strict, s, p, 4);
    var r := s[p + 5..][3..];
    assert r == s[p + 8..];
    assert Scan(strict, s, p + 7).Escaped? && Scan(strict, s, p + 8) == Scan(strict, s, p);
    if k > p + 8 {
      assert LowFollows(r, 0, 0);
      LowIsHex(r, 0, 0, k - (p + 8));
      assert forall i :: p + 8 <= i < k ==> s[i] == r[i - (p + 8)];
      HexScans(strict, s, p + 8, k);
    }
  }

  /** Outside of strings a cut matters only before the bytes of a number or an "i". */
  lemma OutsideIsGood(cfg: Config, s: Text, t: Tok, p: nat)
    requires cfg.maxDepth > 0 && 0 < p < |s| && Inv(cfg, Reset(t)) && Call(cfg, s[..p], Reset(t)).More?
    requires Scan(cfg.strict, s, p) == Outside && (IsSpace(s[p]) || s[p] == SLASH || s[p] == COMMA)
    ensures var u := Call(cfg, s[..p], Reset(t)).tok;
            && Inv(cfg, u) && Tracks(cfg.strict, s, p, u, NO_LOCALS, false)
            && Call(cfg, s, Reset(t)) == Call(cfg, s[p..], u)
  {
    hide Run, Inv, BadCut, Tracks, Scan, PairCutAt, Sound;
    var a, b, r := s[..p], s[p..], Reset(t);
    assert s == a + b && s[0..p] == a;
    assert s[p..][0] == s[p] && !InfinityNext(s[p..]);
    forall q | 0 <= q <= p
      ensures !PairCutAt(cfg.strict, s, q, p)
    {
      if PairCutAt(cfg.strict, s, q, p) {
        PairIsInside(cfg.strict, s, q, p);
      }
    }
    NumberCuts.BadIffSeen(cfg, s, t, p);
    StartIsSound(t);
    StartTracks(cfg, s, t, false);
    assert s[0..] == s;
    PieceTracks(cfg, s, 0, p, r, NO_LOCALS);
    SplitRun(cfg, a, b, r, NO_LOCALS);
  }

  // ---------------------------------------------------------------- where a tokener waits

  predicate IsSep(s: State) {
    s == ArraySep || s == ObjectSep
  }

  /** Between a value and the comma or the closer after it. */
  predicate AtSep(l: Level) {
    l.state == Finish || IsAdd(l.state) || IsSep(l.state) || (Skipping(l.state) && IsSep(l.saved))
  }

  /** The tokener is there only at a byte that ends the gap behind the value. */
  predicate SepOk(strict: bool, s: Text, l: Level) {
    AtSep(l) ==> (Skipping(l.state) ==> l.state == Eatws) && s != [] && !IsSpace(s[0]) && (s[0] == SLASH ==> strict)
  }

  /** In a token or in a gap. */
  predicate Calm(s: State) {
    s != Start && s != Finish && !InContainer(s)
  }

  predicate SepMove(strict: bool, s: Text, m: Move) {
    m.Go? && m.n <= |s| ==> SepOk(strict, s[m.n..], m.tok.top) && (m.n > 0 ==> Calm(m.tok.top.state))
  }

  lemma SepGap(cfg: Config, s: Text, t: Tok, loc: Local)
    requires s != [] && Inv(cfg, t) && SepOk(cfg.strict, s, t.top) && Skipping(t.top.state)
    ensures SepMove(cfg.strict, s, Step(cfg, s, t, loc))
  {
    hide Step, Inv, TopOk, IsSpace;
    GapIs(cfg, s, t, loc);
    AfterGap(cfg, t);
    assert s[0..] == s;
  }

  lemma SepContainer(cfg: Config, s: Text, t: Tok, loc: Local)
    requires s != [] && Inv(cfg, t) && SepOk(cfg.strict, s, t.top) && InContainer(t.top.state)
    ensures SepMove(cfg.strict, s, Step(cfg, s, t, loc))
  {
    hide Step, Inv, TopOk, IsSpace, ObjectAdd;
    ContainerIs(cfg, s, t, loc);
    assert s[0..] == s;
  }

  lemma SepFinish(cfg: Config, s: Text, t: Tok, loc: Local)
    requires s != [] && Inv(cfg, t) && SepOk(cfg.strict, s, t.top) && t.top.state == Finish
    ensures SepMove(cfg.strict, s, Step(cfg, s, t, loc))
  {
    hide Step, Inv, TopOk, IsSpace;
    FinishIs(cfg, s, t, loc);
    assert s[0..] == s;
  }

  lemma SepText(cfg: Config, s: Text, t: Tok, loc: Local)
    requires s != [] && Inv(cfg, t) && (InText(t.top.state) || t.top.state == EscapeUnicode)
    ensures SepMove(cfg.strict, s, Step(cfg, s, t, loc))
  {
    hide Step, Inv, CString, Unescape, HexValue, Shift, Combine, Append, IsHigh, IsHex;
    if InText(t.top.state) {
      TextIs(cfg, s, t, loc);
    } else {
      UnicodeIs(cfg, s, t, loc);
    }
  }

  lemma SepOther(cfg: Config, s: Text, t: Tok, loc: Local)
    requires s != [] && Inv(cfg, t) && (t.top.state == Start || t.top.state == Number || InWord(t.top.state))
    ensures SepMove(cfg.strict, s, Step(cfg, s, t, loc))
  {
    hide Step, Inv, NumberValue, SamePrefix;
    if t.top.state == Start {
      StartIs(cfg, s, t, loc);
    } else if t.top.state == Number {
      NumberIs(cfg, s, t, loc);
    } else {
      WordIs(cfg, s, t, loc);
    }
  }

  lemma SepStep(cfg: Config, s: Text, t: Tok, loc: Local)
    requires s != [] && Inv(cfg, t) && SepOk(cfg.strict, s, t.top)
    ensures SepMove(cfg.strict, s, Step(cfg, s, t, loc))
  {
    hide Step, SepOk, SepMove, Inv;
    TopIsOk(cfg, t);
    if Skipping(t.top.state) {
      SepGap(cfg, s, t, loc);
    } else if InContainer(t.top.state) {
      SepContainer(cfg, s, t, loc);
    } else if InText(t.top.state) || t.top.state == EscapeUnicode {
      SepText(cfg, s, t, loc);
    } else if t.top.state == Finish {
      SepFinish(cfg, s, t, loc);
    } else {
      SepOther(cfg, s, t, loc);
    }
  }

  /** A tokener that waits does so in a token, or in a gap before one. */
  lemma {:induction false} WaitsCalmly(cfg: Config, s: Text, t: Tok, loc: Local)
    requires Inv(cfg, t) && SepOk(cfg.strict, s, t.top) && Run(cfg, s, t, loc).More?
    requires s == [] ==> Calm(t.top.state)
    ensures var u := Run(cfg, s, t, loc).tok.top;
            Calm(u.state) && !AtSep(u)
    decreases |s|, Rank(t.top)
  {
    if s == [] {
    } else {
      hide Step, Inv, Run, SepOk, Calm, AtSep, Rank;
      NumberCuts.GoesOn(cfg, s, t, loc);
      TopIsOk(cfg, t);
      SepStep(cfg, s, t, loc);
      var m := Step(cfg, s, t, loc);
      RunOn(cfg, s, t, loc);
      WaitsCalmly(cfg, s[m.n..], m.tok, m.loc);
    }
  }

  lemma RunOn(cfg: Config, s: Text, t: Tok, loc: Local)
    requires Inv(cfg, t) && s != [] && TopOk(t.top)
    ensures var m := Step(cfg, s, t, loc);
            m.Go? && !(m.n > 0 && s[0] == NUL)
            ==> m.n <= |s| && Inv(cfg, m.tok) && Run(cfg, s, t, loc) == Run(cfg, s[m.n..], m.tok, m.loc)
  {
    hide Step;
    StepKeeps(cfg, s, t, loc);
  }

  // ---------------------------------------------------------------- the tokener at a comma

  /** The call ended with success in the middle of an array or an object. */
  predicate Nested(o: Outcome) {
    o.Done? && o.last.below != []
  }

  /** An element is complete. */
  predicate ElementDone(t: Tok) {
    t.top.saved == Finish && t.below != []
  }

  lemma NothingMore(cfg: Config, t: Tok, loc: Local)
    requires Inv(cfg, t) && t.top.state == Eatws && !ElementDone(t) && !IsSep(t.top.saved)
    ensures !Run(cfg, [COMMA], t, loc).More?
  {
    hide Step, Inv, Run, Calm;
    var s: Text := [COMMA];
    var saved := t.top.saved;
    NumberCuts.GapEnds(cfg, s, t, loc);
    var u := In(t, saved);
    AfterGap(cfg, t);
    TopIsOk(cfg, u);
    if saved == Finish {
      NoneBelow(cfg, u, loc);
    } else if saved == Start {
      StartIs(cfg, s, u, loc);
      Simulation.OutStep(cfg, s, u, loc);
    } else {
      ContainerRefuses(cfg, u, loc);
    }
  }

  lemma NoneBelow(cfg: Config, t: Tok, loc: Local)
    requires Inv(cfg, t) && t.top.state == Finish && t.below == []
    ensures !Run(cfg, [COMMA], t, loc).More?
  {
    hide Step, Inv, Run;
    TopIsOk(cfg, t);
    FinishIs(cfg, [COMMA], t, loc);
    Simulation.OutStep(cfg, [COMMA], t, loc);
  }

  lemma FreshRefuses(cfg: Config, t: Tok, loc: Local)
    requires Inv(cfg, t) && t.top == FRESH
    ensures !Run(cfg, [COMMA], t, loc).More?
  {
    hide Step, Inv, Run;
    NumberCuts.GapEnds(cfg, [COMMA], t, loc);
    var u := In(t, Start);
    TopIsOk(cfg, u);
    StartIs(cfg, [COMMA], u, loc);
    Simulation.OutStep(cfg, [COMMA], u, loc);
  }

  /** Where a value or a name is needed, a comma fails, or leads to a level where a value is needed. */
  lemma CommaMove(cfg: Config, t: Tok, loc: Local)
    requires Inv(cfg, t) && InContainer(t.top.state) && !IsSep(t.top.state) && !IsAdd(t.top.state)
    ensures TopOk(t.top)
    ensures match Step(cfg, [COMMA], t, loc)
            case Out(_, e) => e != NoError
            case Go(n, u, _) => n == 0 && u.top == FRESH
  {
    hide Step, Inv;
    TopIsOk(cfg, t);
    ContainerIs(cfg, [COMMA], t, loc);
  }

  lemma ContainerRefuses(cfg: Config, t: Tok, loc: Local)
    requires Inv(cfg, t) && InContainer(t.top.state) && !IsSep(t.top.state) && !IsAdd(t.top.state)
    ensures !Run(cfg, [COMMA], t, loc).More?
  {
    hide Step, Inv, Run, IsSep, IsAdd, TopOk;
    CommaMove(cfg, t, loc);
    if Step(cfg, [COMMA], t, loc).Out? {
      Simulation.OutStep(cfg, [COMMA], t, loc);
    } else {
      RunOn(cfg, [COMMA], t, loc);
      assert [COMMA][0..] == [COMMA];
      FreshRefuses(cfg, Step(cfg, [COMMA], t, loc).tok, Step(cfg, [COMMA], t, loc).loc);
    }
  }

  /** Behind an element a comma is read, and the next element is waited for. */
  lemma CommaIsRead(cfg: Config, t: Tok, loc: Local)
    requires Inv(cfg, t) && t.top.state == Eatws && ElementDone(t)
    ensures Run(cfg, [COMMA], t, loc).More?
  {
    hide Step, Inv, Run;
    var s: Text := [COMMA];
    NumberCuts.GapEnds(cfg, s, t, loc);
    var f := In(t, Finish);
    TopIsOk(cfg, f);
    FinishIs(cfg, s, f, loc);
    var u, l, rest := Simulation.OneStep(cfg, s, f, loc);
    assert rest == s;
    SepWaits(cfg, u, l);
  }

  lemma AddMove(cfg: Config, t: Tok, loc: Local)
    requires Inv(cfg, t) && IsAdd(t.top.state)
    ensures TopOk(t.top)
    ensures match Step(cfg, [COMMA], t, loc)
            case Out(_, _) => false
            case Go(n, u, _) => n == 0 && u.top.state == Eatws && IsSep(u.top.saved)
  {
    hide Step, Inv;
    TopIsOk(cfg, t);
    ContainerIs(cfg, [COMMA], t, loc);
  }

  lemma SepMoves(cfg: Config, t: Tok, loc: Local)
    requires Inv(cfg, t) && IsSep(t.top.state)
    ensures TopOk(t.top)
    ensures match Step(cfg, [COMMA], t, loc)
            case Out(_, _) => false
            case Go(n, u, _) => n == 1 && u.top.state == Eatws && u.top.saved != Finish
  {
    hide Step, Inv;
    TopIsOk(cfg, t);
    ContainerIs(cfg, [COMMA], t, loc);
  }

  lemma AtSepWaits(cfg: Config, t: Tok, loc: Local)
    requires Inv(cfg, t) && IsSep(t.top.state)
    ensures Run(cfg, [COMMA], t, loc).More?
  {
    hide Step, Inv, Run, TopOk, IsSep;
    SepMoves(cfg, t, loc);
    RunOn(cfg, [COMMA], t, loc);
    var m := Step(cfg, [COMMA], t, loc);
    assert [COMMA][1..] == [];
    Simulation.EndOfInput(cfg, m.tok, m.loc);
  }

  lemma SepWaits(cfg: Config, t: Tok, loc: Local)
    requires Inv(cfg, t) && IsAdd(t.top.state)
    ensures Run(cfg, [COMMA], t, loc).More?
  {
    hide Step, Inv, Run, TopOk, IsSep;
    AddMove(cfg, t, loc);
    RunOn(cfg, [COMMA], t, loc);
    var m := Step(cfg, [COMMA], t, loc);
    assert [COMMA][0..] == [COMMA];
    NumberCuts.GapEnds(cfg, [COMMA], m.tok, m.loc);
    AtSepWaits(cfg, In(m.tok, m.tok.top.saved), m.loc);
  }

  /** In a gap: the comma is read if and only if a NUL in a comment would pass for the end. */
  lemma GapTells(cfg: Config, s: Text, t: Tok, loc: Local, l: Local)
    requires Inv(cfg, t) && t.top.state == Eatws && !IsSep(t.top.saved) && Spaces(cfg.strict, s).GapNul?
    ensures Run(cfg, [COMMA], t, l).More? <==> Nested(Run(cfg, s, t, loc))
    ensures Nested(Run(cfg, s, t, loc)) ==> Run(cfg, s, t, loc).left == Spaces(cfg.strict, s).left
  {
    hide Inv, Run;
    var u := Simulation.SpacesRun(cfg, s, t, loc);
    if ElementDone(t) {
      CommaIsRead(cfg, t, l);
    } else {
      NothingMore(cfg, t, l);
    }
  }

  // ---------------------------------------------------------------- numbers and words

  /** A byte that ends a number or a word. */
  predicate Delimits(c: byte) {
    IsSpace(c) || c == SLASH || c == COMMA
  }

  /** Two moves that differ in the scratch buffer at most: both fail, or both complete the same value. */
  predicate Alike(t: Tok, m: Move, n: Move) {
    match (m, n)
    case (Out(_, e), Out(_, f)) => e != NoError && f != NoError
    case (Go(a, u, _), Go(b, w, _)) =>
      && a == b == 0 && u == w.(pb := u.pb) && u.below == t.below && u.top.state == Eatws && u.top.saved == Finish
    case _ => false
  }

  lemma NumberAlike(cfg: Config, c: byte, d: byte, t: Tok, l1: Local, l2: Local)
    requires Delimits(c) && Delimits(d)
    ensures Alike(t, StepNumber(cfg, c, t, l1), StepNumber(cfg, d, t, l2))
  {
    hide NumberValue;
  }

  lemma DelimitsWord(strict: bool, word: Text, pb: Text, c: byte, d: byte, n: nat)
    requires Letters(word) && n <= |word| && Delimits(c) && Delimits(d)
    ensures SamePrefix(strict, word, pb + [c], n) <==> SamePrefix(strict, word, pb + [d], n)
    ensures n > |pb| ==> !SamePrefix(strict, word, pb + [c], n)
  {
    if n > |pb| {
      assert !SameByte(strict, word[|pb|], c) && !SameByte(strict, word[|pb|], d);
      assert (pb + [c])[|pb|] == c && (pb + [d])[|pb|] == d;
    } else {
      assert forall i :: 0 <= i < n ==> (pb + [c])[i] == (pb + [d])[i];
    }
  }

  lemma WordsAlike(
    cfg: Config, c: byte, d: byte, t: Tok, l1: Local, l2: Local,
    first: Text, v1: Json, second: Text, v2: Json, e: Error)
    requires Delimits(c) && Delimits(d) && e != NoError && t.stPos == |t.pb| && Letters(first) && Letters(second)
    requires Begins(cfg.strict, first, t.pb) || Begins(cfg.strict, second, t.pb)
    requires |t.pb| > |first| ==> !SamePrefix(cfg.strict, first, t.pb, |first|)
    requires |t.pb| > |second| ==> !SamePrefix(cfg.strict, second, t.pb, |second|)
    ensures Alike(t, StepWords(cfg, c, t, l1, first, v1, second, v2, e),
                  StepWords(cfg, d, t, l2, first, v1, second, v2, e))
  {
    hide SamePrefix, Begins, Letters, Delimits;
    var k := |t.pb|;
    DelimitsWord(cfg.strict, first, t.pb, c, d, Min(k + 1, |first|));
    DelimitsWord(cfg.strict, second, t.pb, c, d, Min(k + 1, |second|));
    if k > |first| && SamePrefix(cfg.strict, first, t.pb + [c], |first|) {
      NoMore(cfg.strict, first, t.pb, c);
    }
    if k > |second| && SamePrefix(cfg.strict, second, t.pb + [c], |second|) {
      NoMore(cfg.strict, second, t.pb, c);
    }
  }

  lemma BehindSnoc(pb: Text, c: byte)
    requires pb != [] || c != MINUS
    ensures Behind(pb + [c]) == Behind(pb) + [c] && ((pb + [c])[0] == MINUS <==> pb != [] && pb[0] == MINUS)
  {
    if pb == [] {
      assert pb + [c] == [c] && [] + [c] == [c];
    }
  }

  /** The word is read to its end, or it fails, whichever byte ends it. */
  lemma InfinityTells(cfg: Config, c: byte, t: Tok)
    requires Delimits(c) && t.top.state == InfinityWord && WordOk(cfg.strict, t)
    ensures SamePrefix(cfg.strict, INFINITY_WORD, Behind(t.pb) + [c], Min(t.stPos + 1, |INFINITY_WORD|))
            ==> t.stPos == |INFINITY_WORD|
  {
    var read, n := Behind(t.pb), Min(t.stPos + 1, |INFINITY_WORD|);
    DelimitsWord(cfg.strict, INFINITY_WORD, read, c, c, n);
    if read != [] && IsNumberChar(read[0]) {
      assert (read + [c])[0] == read[0] && !SameByte(cfg.strict, INFINITY_WORD[0], read[0]);
    } else if read == [] {
      assert ([] + [c])[0] == c && !SameByte(cfg.strict, INFINITY_WORD[0], c);
    }
    hide SamePrefix, Delimits, IsNumberChar, Letters, Begins;
  }

  lemma InfinityAlike(cfg: Config, c: byte, d: byte, t: Tok, l1: Local, l2: Local)
    requires Delimits(c) && Delimits(d) && t.top.state == InfinityWord && WordOk(cfg.strict, t)
    ensures Alike(t, StepInfinity(cfg, c, t, l1), StepInfinity(cfg, d, t, l2))
  {
    assert Letters(INFINITY_WORD) && c != MINUS && d != MINUS;
    var n := Min(t.stPos + 1, |INFINITY_WORD|);
    BehindSnoc(t.pb, c);
    BehindSnoc(t.pb, d);
    InfinityTells(cfg, c, t);
    InfinityTells(cfg, d, t);
    hide SamePrefix, Delimits, IsNumberChar, Letters, Begins, WordOk, Behind;
    DelimitsWord(cfg.strict, INFINITY_WORD, Behind(t.pb), c, d, n);
  }

  /** A number or a word at a byte that ends it does what it does at any other. */
  lemma TokenAlike(cfg: Config, s: Text, r: Text, t: Tok, l1: Local, l2: Local)
    requires s != [] && r != [] && Delimits(s[0]) && Delimits(r[0]) && Inv(cfg, t) && WordOk(cfg.strict, t)
    requires t.top.state == Number || InWord(t.top.state)
    ensures TopOk(t.top) && Alike(t, Step(cfg, s, t, l1), Step(cfg, r, t, l2))
  {
    hide Step, Inv, StepNumber, StepInfinity, StepWords, Alike, Delimits, SamePrefix, TopOk;
    TopIsOk(cfg, t);
    if t.top.state == Number {
      NumberIs(cfg, s, t, l1);
      NumberIs(cfg, r, t, l2);
      NumberAlike(cfg, s[0], r[0], t, l1, l2);
    } else {
      WordIs(cfg, s, t, l1);
      WordIs(cfg, r, t, l2);
      if t.top.state == InfinityWord {
        InfinityAlike(cfg, s[0], r[0], t, l1, l2);
      } else {
        WordPairAlike(cfg, s[0], r[0], t, l1, l2);
      }
    }
  }

  lemma WordPairAlike(cfg: Config, c: byte, d: byte, t: Tok, l1: Local, l2: Local)
    requires Delimits(c) && Delimits(d) && WordOk(cfg.strict, t)
    requires t.top.state == NullWord || t.top.state == BooleanWord
    ensures Alike(t, StepWord(cfg, c, t, l1), StepWord(cfg, d, t, l2))
  {
    hide StepWords, Alike, Delimits, SamePrefix;
    assert Letters(NULL_WORD) && Letters(NAN_WORD) && Letters(TRUE_WORD) && Letters(FALSE_WORD);
    if t.top.state == NullWord {
      NullIsNotNan(cfg.strict, t.pb);
      WordsAlike(cfg, c, d, t, l1, l2, NULL_WORD, Null, NAN_WORD, NotANumber, ErrNull);
    } else {
      FalseIsNotTrue(cfg.strict, t.pb);
      WordsAlike(cfg, c, d, t, l1, l2, TRUE_WORD, Bool(true), FALSE_WORD, Bool(false), ErrBoolean);
    }
  }

  /** The first byte of a gap with a NUL in a comment. */
  lemma GapFirst(strict: bool, s: Text)
    requires Spaces(strict, s).GapNul?
    ensures s != [] && !strict && (IsSpace(s[0]) || s[0] == SLASH) && s[0] != NUL && Spaces(strict, s).left < |s|
  {
    Success.GapEnds(strict, s);
    if strict {
      Success.StrictSpaces(s);
    }
  }

  lemma OutIsFailure(cfg: Config, s: Text, t: Tok, loc: Local)
    requires Inv(cfg, t) && s != [] && s[0] != NUL && TopOk(t.top)
    requires Step(cfg, s, t, loc).Out? && Step(cfg, s, t, loc).error != NoError
    ensures Run(cfg, s, t, loc).Failed?
  {
    hide Step;
    Simulation.OutStep(cfg, s, t, loc);
  }

  /** Outside of strings: a comma is read if and only if a NUL in a comment would pass for the end. */
  lemma CommaTells(cfg: Config, s: Text, t: Tok)
    requires Inv(cfg, t) && Calm(t.top.state) && !AtSep(t.top) && LexOf(t) == Outside && WordOk(cfg.strict, t)
    requires Spaces(cfg.strict, s).GapNul?
    ensures Call(cfg, [COMMA], t).More? <==> Nested(Call(cfg, s, t))
    ensures Nested(Call(cfg, s, t)) ==> Call(cfg, s, t).left == Spaces(cfg.strict, s).left
  {
    hide Inv, Run, Step, Spaces, WordOk, IsSpace, Alike;
    if t.top.state == Eatws {
      GapTells(cfg, s, t, NO_LOCALS, NO_LOCALS);
    } else {
      GapFirst(cfg.strict, s);
      TokenAlike(cfg, s, [COMMA], t, NO_LOCALS, NO_LOCALS);
      TokenTells(cfg, s, t);
    }
  }

  lemma TokenTells(cfg: Config, s: Text, t: Tok)
    requires Inv(cfg, t) && Spaces(cfg.strict, s).GapNul? && s != [] && s[0] != NUL && TopOk(t.top)
    requires Alike(t, Step(cfg, s, t, NO_LOCALS), Step(cfg, [COMMA], t, NO_LOCALS))
    ensures Call(cfg, [COMMA], t).More? <==> Nested(Call(cfg, s, t))
    ensures Nested(Call(cfg, s, t)) ==> Call(cfg, s, t).left == Spaces(cfg.strict, s).left
  {
    hide Inv, Run, Step, Spaces, TopOk;
    var m, n := Step(cfg, s, t, NO_LOCALS), Step(cfg, [COMMA], t, NO_LOCALS);
    if m.Out? {
      OutIsFailure(cfg, s, t, NO_LOCALS);
      OutIsFailure(cfg, [COMMA], t, NO_LOCALS);
    } else {
      RunOn(cfg, s, t, NO_LOCALS);
      RunOn(cfg, [COMMA], t, NO_LOCALS);
      assert s[0..] == s && [COMMA][0..] == [COMMA];
      GapTells(cfg, s, m.tok, m.loc, m.loc);
      BufferTells(cfg, m.tok, n.tok, m.loc, n.loc);
    }
  }

  lemma BufferTells(cfg: Config, t: Tok, u: Tok, l1: Local, l2: Local)
    requires Inv(cfg, t) && Inv(cfg, u) && t.top == u.top && t.below == u.below
    requires t.top.state == Eatws && t.top.saved == Finish
    ensures Run(cfg, [COMMA], t, l1).More? <==> Run(cfg, [COMMA], u, l2).More?
  {
    hide Inv, Run;
    if ElementDone(t) {
      CommaIsRead(cfg, t, l1);
      CommaIsRead(cfg, u, l2);
    } else {
      NothingMore(cfg, t, l1);
      NothingMore(cfg, u, l2);
    }
  }

  // ---------------------------------------------------------------- the gap in which the text ended

  /** What is left of a gap, from one of the states that skip it. */
  function GapOf(strict: bool, state: State, s: Text): Gap
    requires Skipping(state)
  {
    match state
    case Eatws => Spaces(strict, s)
    case CommentStart => CommentOpen(strict, s)
    case Comment => BlockComment(strict, s)
    case CommentEnd => AfterStar(strict, s)
    case CommentEol => LineComment(strict, s)
  }

  lemma GapGoesOn(cfg: Config, s: Text, t: Tok, loc: Local)
    requires s != [] && Inv(cfg, t) && Skipping(t.top.state)
    ensures var m := Step(cfg, s, t, loc);
            && (m.Go? && m.n == 0 ==> !Skipping(m.tok.top.state))
            && (m.Go? && m.n > 0 && s[0] != NUL
                ==> && m.n == 1 && Skipping(m.tok.top.state)
                    && GapOf(cfg.strict, t.top.state, s) == GapOf(cfg.strict, m.tok.top.state, s[1..]))
            && (m.Go? && m.n > 0 && s[0] == NUL ==> m.n == 1 && GapOf(cfg.strict, t.top.state, s) == GapNul(|s| - 1))
  {
    hide Step, Inv, TopOk;
    TopIsOk(cfg, t);
    GapIs(cfg, s, t, loc);
    AfterGap(cfg, t);
  }

  lemma GapAtEatws(cfg: Config, s: Text, t: Tok, loc: Local)
    requires s != [] && Inv(cfg, t) && !Skipping(t.top.state) && TopOk(t.top)
    ensures var m := Step(cfg, s, t, loc);
            m.Go? && Skipping(m.tok.top.state) ==> m.tok.top.state == Eatws
  {
    hide Step, Inv, TopOk, StepUnicode;
    if InWord(t.top.state) {
      WordMoves(cfg, s, t, loc);
    } else if InContainer(t.top.state) {
      NumberCuts.StaysOpened(cfg, s, t, loc);
    } else if InText(t.top.state) {
      NumberCuts.TextMoves(cfg, s, t, loc);
    } else if t.top.state == EscapeUnicode {
      UnicodeIs(cfg, s, t, loc);
      NumberCuts.UnicodeMoves(s, t, loc);
    } else if t.top.state == Number {
      NumberCuts.NumberMoves(cfg, s, t, loc);
    } else if t.top.state == Start {
      StartIs(cfg, s, t, loc);
    } else {
      FinishIs(cfg, s, t, loc);
    }
  }

  /** A step that does not end in success inside of something. */
  predicate EndsWell(c: byte, t: Tok, m: Move) {
    match m
    case Out(u, e) => e != NoError || u.below == [] || (c == NUL && u.top.state != Finish && u.top.saved != Finish)
    case Go(n, u, _) => n > 0 && c == NUL && !Skipping(t.top.state) ==> u.top.state != Finish && u.top.saved != Finish
  }

  lemma GapEndsWell(cfg: Config, s: Text, t: Tok, loc: Local)
    requires s != [] && Inv(cfg, t) && (Skipping(t.top.state) || InContainer(t.top.state))
    ensures EndsWell(s[0], t, Step(cfg, s, t, loc))
  {
    hide Step, Inv, ObjectAdd;
    TopIsOk(cfg, t);
    if Skipping(t.top.state) {
      GapIs(cfg, s, t, loc);
    } else {
      ContainerIs(cfg, s, t, loc);
    }
  }

  lemma TextEndsWell(cfg: Config, s: Text, t: Tok, loc: Local)
    requires s != [] && Inv(cfg, t) && Sound(t, loc) && (InText(t.top.state) || t.top.state == EscapeUnicode)
    ensures EndsWell(s[0], t, Step(cfg, s, t, loc))
  {
    SavedIsText(cfg, t);
    hide Step, Inv, CString, Unescape, StepFourth, HexValue, Shift, HasPoint, NumberChars;
    if InText(t.top.state) {
      TextIs(cfg, s, t, loc);
    } else {
      UnicodeIs(cfg, s, t, loc);
    }
  }

  lemma SavedIsText(cfg: Config, t: Tok)
    requires Inv(cfg, t) && (InText(t.top.state) || t.top.state == EscapeUnicode)
    ensures t.top.saved != Finish
  {
  }

  lemma TokenEndsWell(cfg: Config, s: Text, t: Tok, loc: Local)
    requires s != [] && Inv(cfg, t) && (t.top.state == Number || InWord(t.top.state))
    ensures EndsWell(s[0], t, Step(cfg, s, t, loc))
  {
    hide Step, Inv, SamePrefix, NumberValue, IsNumberChar;
    if t.top.state == Number {
      NulIsNoNumber();
      NumberIs(cfg, s, t, loc);
    } else {
      WordMoves(cfg, s, t, loc);
      SavedIsStart(cfg, t);
      WordStaysSaved(cfg, s, t, loc);
    }
  }

  lemma NulIsNoNumber()
    ensures !IsNumberChar(NUL)
  {
  }

  lemma SavedIsStart(cfg: Config, t: Tok)
    requires Inv(cfg, t) && InWord(t.top.state)
    ensures t.top.saved == Start
  {
  }

  lemma WordStaysSaved(cfg: Config, s: Text, t: Tok, loc: Local)
    requires s != [] && Inv(cfg, t) && InWord(t.top.state)
    ensures var m := Step(cfg, s, t, loc);
            m.Go? && m.n > 0 ==> m.tok.top == t.top
  {
    hide Step, Inv;
    NumberCuts.WordSame(cfg, s, t, loc);
  }

  lemma StepEndsWell(cfg: Config, s: Text, t: Tok, loc: Local)
    requires s != [] && Inv(cfg, t) && Sound(t, loc)
    ensures EndsWell(s[0], t, Step(cfg, s, t, loc))
  {
    hide Step, Inv, Sound, EndsWell;
    if Skipping(t.top.state) || InContainer(t.top.state) {
      GapEndsWell(cfg, s, t, loc);
    } else if InText(t.top.state) || t.top.state == EscapeUnicode {
      TextEndsWell(cfg, s, t, loc);
    } else if t.top.state == Number || InWord(t.top.state) {
      TokenEndsWell(cfg, s, t, loc);
    } else {
      StartEndsWell(cfg, s, t, loc);
    }
  }

  lemma StartEndsWell(cfg: Config, s: Text, t: Tok, loc: Local)
    requires s != [] && Inv(cfg, t) && (t.top.state == Start || t.top.state == Finish)
    ensures EndsWell(s[0], t, Step(cfg, s, t, loc))
  {
    hide Step, Inv;
    if t.top.state == Start {
      StartIs(cfg, s, t, loc);
    } else {
      FinishIs(cfg, s, t, loc);
    }
  }

  /** Success in the middle comes from a NUL in a comment only. */
  lemma NestedNul(cfg: Config, s: Text, t: Tok, loc: Local)
    requires s != [] && Inv(cfg, t) && Sound(t, loc)
    ensures match Step(cfg, s, t, loc)
            case Out(u, e) => !Nested(Final(cfg, s[0], u, e, 0))
            case Go(n, u, _) =>
              n > 0 && s[0] == NUL && !Skipping(t.top.state) ==> !Nested(Final(cfg, NUL, u, NoError, 0))
  {
    hide Step, Inv, Sound;
    TopIsOk(cfg, t);
    StepEndsWell(cfg, s, t, loc);
  }

  lemma NotNested(cfg: Config, c: byte, t: Tok, e: Error, n: nat)
    ensures Nested(Final(cfg, c, t, e, n)) <==> Nested(Final(cfg, c, t, e, 0))
    ensures Nested(Final(cfg, c, t, e, n)) ==> Final(cfg, c, t, e, n).left == n
  {
  }

  lemma EndIsNotNested(cfg: Config, t: Tok, loc: Local)
    requires Inv(cfg, t)
    ensures !Nested(Run(cfg, [], t, loc))
  {
  }

  /** Where a run that is nested at the end goes after one step. */
  lemma NestedStep(cfg: Config, s: Text, t: Tok, loc: Local)
    requires Inv(cfg, t) && Sound(t, loc) && s != [] && Nested(Run(cfg, s, t, loc))
    ensures TopOk(t.top)
    ensures var m, o := Step(cfg, s, t, loc), Run(cfg, s, t, loc);
            && m.Go? && m.n <= |s| && Inv(cfg, m.tok) && (m.n > 0 || Rank(m.tok.top) < Rank(t.top))
            && if m.n > 0 && s[0] == NUL then Skipping(t.top.state) && o.left == |s| - m.n
               else m.n < |s| && o == Run(cfg, s[m.n..], m.tok, m.loc)
  {
    hide Step, Sound, TopOk, Waits, Nested, Final, Rank;
    TopIsOk(cfg, t);
    StepKeeps(cfg, s, t, loc);
    NestedNul(cfg, s, t, loc);
    var m := Step(cfg, s, t, loc);
    match m
    case Out(u, e) => NotNested(cfg, s[0], u, e, |s| - Passed(s[0], t));
    case Go(n, u, l) =>
      NotNested(cfg, NUL, u, NoError, |s| - n);
      if n == |s| && s[0] != NUL {
        EndIsNotNested(cfg, u, l);
      }
  }

  /** The gap in which the NUL lies, where `p` is the beginning of the gap that the tokener is in. */
  lemma {:induction false} FindGap(cfg: Config, s: Text, i: nat, p: nat, t: Tok, loc: Local) returns (q: nat)
    requires Inv(cfg, t) && p <= i < |s| && Tracks(cfg.strict, s, i, t, loc, true)
    requires Skipping(t.top.state)
             ==> Scan(cfg.strict, s, p) == Outside
                 && Spaces(cfg.strict, s[p..]) == GapOf(cfg.strict, t.top.state, s[i..])
    requires Nested(Run(cfg, s[i..], t, loc))
    ensures q < |s| && Scan(cfg.strict, s, q) == Outside
    ensures Spaces(cfg.strict, s[q..]) == GapNul(Run(cfg, s[i..], t, loc).left)
    decreases |s| - i, Rank(t.top)
  {
    hide Step, Inv, Run, Rank, Tracks, Scan, Nested, Spaces, TopOk;
    var r := s[i..];
    NumberCuts.TracksPlaced(cfg.strict, s, i, t, loc);
    NumberCuts.PlacedIsSound(cfg.strict, s, i, t, loc);
    NestedStep(cfg, r, t, loc);
    var m := Step(cfg, r, t, loc);
    if Skipping(t.top.state) {
      GapGoesOn(cfg, r, t, loc);
    } else {
      GapAtEatws(cfg, r, t, loc);
    }
    if m.n > 0 && s[i] == NUL {
      q := p;
    } else {
      var j := i + m.n;
      assert r[m.n..] == s[j..] && r[0] == s[i];
      TracksStep(cfg, s, i, t, loc, true);
      GapBegins(cfg, s, j, m.tok, m.loc);
      q := FindGap(cfg, s, j, if Skipping(t.top.state) && Skipping(m.tok.top.state) then p else j, m.tok, m.loc);
    }
  }

  /** Where the tokener begins to skip, the scanner is outside of strings and comments. */
  lemma GapBegins(cfg: Config, s: Text, i: nat, t: Tok, loc: Local)
    requires i <= |s| && Tracks(cfg.strict, s, i, t, loc, true)
    ensures t.top.state == Eatws ==> Scan(cfg.strict, s, i) == Outside
  {
  }

  // ---------------------------------------------------------------- exactly when

  lemma FinishedBelow(cfg: Config, s: Text, t: Tok, loc: Local)
    requires s != [] && Inv(cfg, t) && Pieces.Finished(t)
    ensures match Step(cfg, s, t, loc)
            case Go(_, u, _) => Pieces.Finished(u) && u.below == []
            case Out(u, _) => u.below == []
  {
  }

  lemma FinalBelow(cfg: Config, c: byte, t: Tok, e: Error, n: nat)
    requires t.below == []
    ensures !Nested(Final(cfg, c, t, e, n))
  {
  }

  /** What comes after a complete document does not lead into one. */
  lemma {:induction false} FinishedStays(cfg: Config, s: Text, t: Tok, loc: Local)
    requires Inv(cfg, t) && Pieces.Finished(t)
    ensures !Nested(Run(cfg, s, t, loc))
    decreases |s|, Rank(t.top)
  {
    if s == [] {
      EndIsNotNested(cfg, t, loc);
    } else {
      hide Step, TopOk, Waits, Rank, Pieces.Finished, Final, Nested;
      StepKeeps(cfg, s, t, loc);
      FinishedBelow(cfg, s, t, loc);
      match Step(cfg, s, t, loc)
      case Out(u, e) => FinalBelow(cfg, s[0], u, e, |s| - Passed(s[0], t));
      case Go(n, u, l) =>
        if n > 0 && s[0] == NUL {
          FinalBelow(cfg, NUL, u, NoError, |s| - n);
        } else {
          FinishedStays(cfg, s[n..], u, l);
        }
    }
  }

  /** A text that ended before the gap neither reads a comma nor ends in the gap. */
  lemma EndedBefore(cfg: Config, s: Text, t: Tok, p: nat)
    requires cfg.maxDepth > 0 && p < |s| && Inv(cfg, Reset(t)) && !Call(cfg, s[..p], Reset(t)).More?
    ensures !Call(cfg, s[..p] + [COMMA], Reset(t)).More?
    ensures var o := Call(cfg, s, Reset(t));
            Nested(o) ==> o.left >= |s| - p
  {
    hide Run, Inv, Nested;
    var a, b, r := s[..p], s[p..], Reset(t);
    assert s == a + b;
    StartIsSound(t);
    hide Sound;
    EndsEarly(cfg, a, b, r, NO_LOCALS);
    EndsEarly(cfg, a, [COMMA], r, NO_LOCALS);
    EndsWaitless(cfg, a, r, NO_LOCALS);
    var o := Call(cfg, a, r);
    if o.Done? && o.last.top.state == Eatws {
      IsFinished(o.last);
      FinishedStays(cfg, b, o.last, NO_LOCALS);
      NothingMore(cfg, o.last, NO_LOCALS);
    } else {
      FailedIsNotNested(o);
    }
  }

  lemma IsFinished(t: Tok)
    requires AtEnd(t) == Done(t, 0)
    ensures Pieces.Finished(t) && t.top.state == Eatws && !ElementDone(t) && !IsSep(t.top.saved)
  {
  }

  lemma FailedIsNotNested(o: Outcome)
    ensures o.Failed? ==> !Nested(o)
  {
  }

  /** In an array or an object, right behind an element (a comma would be read there), a gap begins in
      which a comment holds a NUL. */
  ghost predicate NulBehindElement(cfg: Config, s: Text, t: Tok, p: nat)
    requires Inv(cfg, Reset(t))
  {
    && p < |s| && Scan(cfg.strict, s, p) == Outside && Spaces(cfg.strict, s[p..]).GapNul?
    && Call(cfg, s[..p] + [COMMA], Reset(t)).More?
  }

  /** The tokener at the beginning of the gap. */
  lemma AtGap(cfg: Config, s: Text, t: Tok, p: nat) returns (u: Tok)
    requires cfg.maxDepth > 0 && p < |s| && Inv(cfg, Reset(t)) && Call(cfg, s[..p], Reset(t)).More?
    requires Scan(cfg.strict, s, p) == Outside && Spaces(cfg.strict, s[p..]).GapNul?
    ensures Inv(cfg, u) && Calm(u.top.state) && !AtSep(u.top) && LexOf(u) == Outside && WordOk(cfg.strict, u)
    ensures Call(cfg, s, Reset(t)) == Call(cfg, s[p..], u)
    ensures Call(cfg, s[..p] + [COMMA], Reset(t)) == Call(cfg, [COMMA], u)
  {
    hide Run, Inv, Scan, Spaces, Tracks, Calm, AtSep, SepOk, IsSpace, WordOk;
    var a, r, d := s[..p], Reset(t), s[..p] + [COMMA];
    GapFirst(cfg.strict, s[p..]);
    ResetWaits(cfg.strict, a, t);
    if p == 0 {
      u := r;
      assert s[p..] == s && d == [COMMA];
      StartTracks(cfg, s, t, false);
    } else {
      u := Call(cfg, a, r).tok;
      OutsideIsGood(cfg, s, t, p);
      assert d[..p] == a && d[p..] == [COMMA];
      assert s == a + s[p..];
      RfcScan.ScanPrefix(cfg.strict, a, s[p..], p);
      RfcScan.ScanPrefix(cfg.strict, a, [COMMA], p);
      OutsideIsGood(cfg, d, t, p);
      WaitsCalmly(cfg, a, r, NO_LOCALS);
    }
    PlaceOf(cfg.strict, s, p, u);
  }

  lemma ResetWaits(strict: bool, s: Text, t: Tok)
    ensures SepOk(strict, s, Reset(t).top) && Calm(Reset(t).top.state) && !AtSep(Reset(t).top)
  {
  }

  lemma PlaceOf(strict: bool, s: Text, i: nat, t: Tok)
    requires i <= |s| && Tracks(strict, s, i, t, NO_LOCALS, false)
    ensures Scan(strict, s, i) == LexOf(t) && WordOk(strict, t)
  {
  }

  lemma GapEndsCall(cfg: Config, s: Text, t: Tok, p: nat)
    requires cfg.maxDepth > 0 && Inv(cfg, Reset(t)) && NulBehindElement(cfg, s, t, p)
    ensures var o := Call(cfg, s, Reset(t));
            Nested(o) && o.left == Spaces(cfg.strict, s[p..]).left
  {
    hide Run, Inv, Scan, Spaces, Nested, WordOk, AtSep, Calm;
    if !Call(cfg, s[..p], Reset(t)).More? {
      EndedBefore(cfg, s, t, p);
    } else {
      var u := AtGap(cfg, s, t, p);
      CommaTells(cfg, s[p..], u);
    }
  }

  lemma GapIsThere(cfg: Config, s: Text, t: Tok) returns (p: nat)
    requires cfg.maxDepth > 0 && Inv(cfg, Reset(t)) && Nested(Call(cfg, s, Reset(t)))
    ensures NulBehindElement(cfg, s, t, p)
  {
    hide Run, Inv, Scan, Spaces, Nested, WordOk, AtSep, Calm, Tracks;
    var r := Reset(t);
    assert s[0..] == s;
    if s == [] {
      EndIsNotNested(cfg, r, NO_LOCALS);
    }
    StartTracks(cfg, s, t, true);
    OutsideAtStart(cfg.strict, s);
    p := FindGap(cfg, s, 0, 0, r, NO_LOCALS);
    GapFirst(cfg.strict, s[p..]);
    if !Call(cfg, s[..p], r).More? {
      EndedBefore(cfg, s, t, p);
    } else {
      var u := AtGap(cfg, s, t, p);
      CommaTells(cfg, s[p..], u);
    }
  }

  lemma OutsideAtStart(strict: bool, s: Text)
    ensures Scan(strict, s, 0) == Outside
  {
  }

  /**
   Incomplete success, exactly: a call ends with success inside an array or an object if and only if
   the text has a place, right behind an element of it, from which a gap goes up to a NUL in a comment.
   The element is then taken for the result. A caller can look at that: outside of strings and comments,
   a comma instead of the gap would leave the tokener waiting.
   */
  lemma NestedSuccess(cfg: Config, s: Text, t: Tok)
    requires cfg.maxDepth > 0 && Inv(cfg, Reset(t))
    ensures Nested(Call(cfg, s, Reset(t))) <==> exists p :: NulBehindElement(cfg, s, t, p)
  {
    hide Run, Inv, Nested, NulBehindElement;
    if Nested(Call(cfg, s, Reset(t))) {
      var p := GapIsThere(cfg, s, t);
    }
    if p :| NulBehindElement(cfg, s, t, p) {
      GapEndsCall(cfg, s, t, p);
    }
  }

  /** `[1/ *` as a C string, without the space: the result is the number 1, although the array is not closed. */
  lemma UnclosedArray(cfg: Config, t: Tok)
    requires cfg.maxDepth > 1 && !cfg.strict && Inv(cfg, Reset(t))
    ensures Simulation.View(Call(cfg, [LBRACKET, ZERO + 1, SLASH, STAR, NUL], Reset(t))) == Accept(Int(1), 1, 0)
  {
    var s: Text := [LBRACKET, ZERO + 1, SLASH, STAR, NUL];
    Simulation.CallIsDocument(cfg, s, t);
    OneIsRead(cfg, s, t.stPos);
  }

  lemma OneIsOne(cfg: Config)
    requires !cfg.strict
    ensures NumberValue(cfg, [ZERO + 1], HasPoint([ZERO + 1])) == Some(Int(1))
  {
    var one: Text := [ZERO + 1];
    assert Int64.Decimal(1) == one && Int64.Signed(1) == [] + one == one;
    Int64.SignedRoundTrip(1);
  }

  lemma OneIsRead(cfg: Config, s: Text, pos: nat)
    requires cfg.maxDepth > 1 && !cfg.strict && s == [LBRACKET, ZERO + 1, SLASH, STAR, NUL]
    ensures Document(cfg, s, pos) == Accept(Int(1), 1, 0)
  {
    hide NumberValue, HasPoint;
    var r, e, c: Text := s[1..], [SLASH, STAR, NUL], [STAR, NUL];
    OneIsOne(cfg);
    assert r == [ZERO + 1] + e && NumberLength(r) == 1 && r[..1] == [ZERO + 1] && r[1..] == e;
    assert NumberToken(cfg, r, pos) == Ok(Int(1), e, pos);
    assert e[1..] == c && c[1..] == [NUL];
    assert CommentOpen(false, c) == BlockComment(false, [NUL]) == GapNul(0);
    assert Spaces(false, e) == GapNul(0);
    hide NumberToken, Spaces;
    assert AfterValue(false, e, 1, Int(1)) == NextHalt(Accept(Int(1), 1, 0));
    ArrayHalts(cfg, s, r, e, pos);
  }

  lemma ArrayHalts(cfg: Config, s: Text, r: Text, e: Text, pos: nat)
    requires cfg.maxDepth > 1 && !cfg.strict && s == [LBRACKET] + r && r == [ZERO + 1] + e
    requires NumberToken(cfg, r, pos) == Ok(Int(1), e, pos)
    requires AfterValue(false, e, 1, Int(1)) == NextHalt(Accept(Int(1), 1, 0))
    ensures Document(cfg, s, pos) == Accept(Int(1), 1, 0)
  {
    hide NumberToken, AfterValue;
    assert s[1..] == r;
    assert Reference.Value(cfg, r, 1, pos) == Ok(Int(1), e, pos);
    assert Elements(cfg, r, 0, pos, [], false) == Element(cfg, r, 0, pos, []) == Halt(Accept(Int(1), 1, 0));
  }
}

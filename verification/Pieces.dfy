/** RFC 8259 texts given to the tokener in pieces, and the cuts that lose a character. */
module Pieces {
  import opened Bytes
  import opened Json
  import opened Unicode
  import opened Machine
  import opened Reference
  import opened Rfc8259
  import opened Scanner
  import opened Split
  import Completeness
  import RfcScan
  import JsonTokener
  import Simulation

  /** No cut between two pieces of `s`, of which those from place i on are given, is one that matters. */
  predicate CleanCuts(strict: bool, s: Text, i: nat, pieces: seq<Text>)
    requires i <= |s| && s[i..] == Concat(pieces)
    decreases |pieces|
  {
    if pieces == [] then true
    else
      var e := PieceEnd(s, i, pieces);
      (pieces[0] != [] && e < |s| ==> CleanCut(strict, s, e)) && CleanCuts(strict, s, e, pieces[1..])
  }

  function PieceEnd(s: Text, i: nat, pieces: seq<Text>): (e: nat)
    requires i <= |s| && s[i..] == Concat(pieces) && pieces != []
    ensures i <= e <= |s| && s[e..] == Concat(pieces[1..]) && s[i..e] == pieces[0]
  {
    assert s[i..] == pieces[0] + Concat(pieces[1..]);
    i + |pieces[0]|
  }

  predicate CleanPieces(strict: bool, pieces: seq<Text>) {
    assert Concat(pieces)[0..] == Concat(pieces);
    CleanCuts(strict, Concat(pieces), 0, pieces)
  }

  lemma {:induction false} CleanCutsAreGood(cfg: Config, s: Text, i: nat, pieces: seq<Text>, t: Tok)
    requires Inv(cfg, t) && i <= |s| && s[i..] == Concat(pieces) && CleanCuts(cfg.strict, s, i, pieces)
    requires i < |s| ==> Tracks(cfg.strict, s, i, t, NO_LOCALS, false)
    requires AtEnd(t) == More(t)
    ensures GoodCuts(cfg, pieces, t)
    decreases |pieces|
  {
    hide Inv, Run, Sound, CleanCut, AtEnd, TopOk, Tracks, BadCut, PairCut, NumberCut;
    if pieces == [] {
    } else if Concat(pieces[1..]) == [] {
      NothingToCut(cfg, pieces, t);
    } else {
      var a, rest, e := pieces[0], pieces[1..], PieceEnd(s, i, pieces);
      RunKeeps(cfg, a, t, NO_LOCALS);
      match Call(cfg, a, t)
      case More(u) =>
        if a == [] {
          EmptyIsGood(cfg, Concat(pieces), t);
          AtEndOfPiece(cfg, t, NO_LOCALS);
        } else {
          OneCut(cfg, s, i, e, t);
        }
        WaitsStill(cfg, s, i, t, a);
        CleanCutsAreGood(cfg, s, e, rest, u);
      case _ =>
    }
  }

  /** One clean cut, and the tokener behind it. */
  lemma OneCut(cfg: Config, s: Text, i: nat, e: nat, t: Tok)
    requires Inv(cfg, t) && i < e < |s| && Tracks(cfg.strict, s, i, t, NO_LOCALS, false)
    requires CleanCut(cfg.strict, s, e) && Call(cfg, s[i..e], t).More?
    ensures !BadCut(cfg, s[i..], t, NO_LOCALS, e - i)
    ensures var u := Call(cfg, s[i..e], t).tok;
            Inv(cfg, u) && Tracks(cfg.strict, s, e, u, NO_LOCALS, false)
  {
    hide Inv, Run, Tracks, BadCut, PairCut, NumberCut;
    if BadCut(cfg, s[i..], t, NO_LOCALS, e - i) {
      BadIsSeen(cfg, s, i, t, NO_LOCALS, e, false);
    }
    PieceTracks(cfg, s, i, e, t, NO_LOCALS);
  }

  lemma WaitsStill(cfg: Config, s: Text, i: nat, t: Tok, a: Text)
    requires Inv(cfg, t) && i < |s| && Tracks(cfg.strict, s, i, t, NO_LOCALS, false) && Call(cfg, a, t).More?
    ensures AtEnd(Call(cfg, a, t).tok) == Call(cfg, a, t)
  {
    TracksSoundly(cfg.strict, s, i, t, NO_LOCALS);
    MoreWaits(cfg, a, t, NO_LOCALS);
  }

  /** Where only empty pieces follow there is nothing to cut. */
  lemma {:induction false} NothingToCut(cfg: Config, pieces: seq<Text>, t: Tok)
    requires Inv(cfg, t) && pieces != [] && Concat(pieces[1..]) == []
    ensures GoodCuts(cfg, pieces, t)
    decreases |pieces|
  {
    hide Inv, Run, BadCut;
    RunKeeps(cfg, pieces[0], t, NO_LOCALS);
    match Call(cfg, pieces[0], t)
    case More(u) =>
      if |pieces| > 1 {
        EmptyAll(pieces[1..]);
        NothingToCut(cfg, pieces[1..], u);
      }
    case _ =>
  }

  lemma EmptyAll(pieces: seq<Text>)
    requires pieces != [] && Concat(pieces) == []
    ensures Concat(pieces[1..]) == []
  {
    assert |Concat(pieces)| == |pieces[0]| + |Concat(pieces[1..])|;
  }

  lemma EmptyIsGood(cfg: Config, s: Text, t: Tok)
    requires Inv(cfg, t)
    ensures !BadCut(cfg, s, t, NO_LOCALS, 0)
  {
    hide NumberValue, HasPoint, InfinityNext;
  }

  // ---------------------------------------------------------------- after a complete value

  /** The value of the tokener is complete and only space or comments are read. */
  predicate Finished(t: Tok) {
    t.below == [] && (t.top.state == Finish || (Skipping(t.top.state) && t.top.saved == Finish))
  }

  lemma FinishedStep(cfg: Config, s: Text, t: Tok, loc: Local)
    requires s != [] && Inv(cfg, t) && Finished(t)
    ensures match Step(cfg, s, t, loc)
            case Go(_, u, _) => Finished(u) && u.top.current == t.top.current
            case Out(u, e) => u.top.current == t.top.current && (e == NoError || e == ErrComment)
  {
  }

  /** What follows a complete value can make the call fail, but it does not change the value. */
  lemma {:induction false} ValueStands(cfg: Config, s: Text, t: Tok, loc: Local)
    requires Inv(cfg, t) && Finished(t)
    ensures match Run(cfg, s, t, loc)
            case Done(u, _) => u.top.current == t.top.current
            case Failed(e, _) => e != ErrDepth
            case More(_) => true
    decreases |s|, Rank(t.top)
  {
    if s == [] {
    } else {
      hide Step, TopOk, Waits, Rank, Finished;
      StepKeeps(cfg, s, t, loc);
      FinishedStep(cfg, s, t, loc);
      match Step(cfg, s, t, loc)
      case Out(_, _) =>
      case Go(n, u, l) =>
        if !(n > 0 && s[0] == NUL) {
          ValueStands(cfg, s[n..], u, l);
        }
    }
  }

  /** Feed that ends in eatws ends with a complete value. */
  lemma {:induction false} FeedFinishes(cfg: Config, pieces: seq<Text>, t: Tok)
    requires Inv(cfg, t) && Sound(t, NO_LOCALS)
    ensures match Feed(cfg, pieces, t).0
            case Done(u, _) => u.top.state == Eatws ==> Finished(u)
            case _ => true
    decreases |pieces|
  {
    if pieces == [] {
    } else {
      hide Inv, Run, Sound;
      var a := pieces[0];
      RunKeeps(cfg, a, t, NO_LOCALS);
      match Call(cfg, a, t)
      case More(u) =>
        MoreWaits(cfg, a, t, NO_LOCALS);
        FeedFinishes(cfg, pieces[1..], u);
      case Done(u, _) => EndsWaitless(cfg, a, t, NO_LOCALS);
      case Failed(_, _) =>
    }
  }

  /** One call with the whole text and the pieces one after the other come to the same: the same tokener
      that still waits, or what the last piece read came to and one call would have gone on to. */
  ghost predicate SameOutcome(cfg: Config, pieces: seq<Text>, t: Tok)
    requires Inv(cfg, t)
  {
    var (o, rest) := Feed(cfg, pieces, t);
    && (o.Done? ==> Inv(cfg, o.last))
    && (o.More? ==> Inv(cfg, o.tok) && rest == [] && Call(cfg, Concat(pieces), t) == o)
    && (!o.More? ==> Call(cfg, Concat(pieces), t) == Resume(cfg, o, rest))
  }

  /** With clean cuts, any text in pieces comes to what one call comes to. */
  lemma CleanIsSame(cfg: Config, pieces: seq<Text>, t: Tok)
    requires cfg.maxDepth > 0 && CleanPieces(cfg.strict, pieces)
    ensures Inv(cfg, Reset(t)) && SameOutcome(cfg, pieces, Reset(t))
  {
    var r := Reset(t);
    assert Inv(cfg, r) && Sound(r, NO_LOCALS) && AtEnd(r) == More(r);
    hide Inv, Run, Sound, AtEnd, CleanCuts, Tracks;
    StartTracks(cfg, Concat(pieces), t, false);
    assert Concat(pieces)[0..] == Concat(pieces);
    CleanCutsAreGood(cfg, Concat(pieces), 0, pieces, r);
    SplitInvariance(cfg, pieces, r);
  }

  /**
   With clean cuts, a text that one call accepts is accepted in pieces with the same value, and one
   that it takes for too deep is too deep in pieces.
   */
  lemma SameValue(cfg: Config, pieces: seq<Text>, t: Tok)
    requires cfg.maxDepth > 0 && CleanPieces(cfg.strict, pieces)
    ensures var (o, _) := Feed(cfg, pieces, Reset(t));
            match Call(cfg, Concat(pieces), Reset(t))
            case Done(w, _) => o.Done? && o.last.top.current == w.top.current
            case Failed(e, _) => e == ErrDepth ==> o.Failed? && o.error == ErrDepth
            case More(_) => true
  {
    var r := Reset(t);
    assert Sound(r, NO_LOCALS);
    hide Inv, Run, Sound, CleanCuts;
    CleanIsSame(cfg, pieces, t);
    FeedFinishes(cfg, pieces, r);
    var (o, rest) := Feed(cfg, pieces, r);
    if o.Done? && o.last.top.state == Eatws {
      ValueStands(cfg, rest, o.last, NO_LOCALS);
    }
  }

  /** No cut between two pieces splits a surrogate pair. */
  predicate PairsWhole(strict: bool, pieces: seq<Text>) {
    forall n :: 0 < n < |pieces| && Concat(pieces[n..]) != [] && pieces[n - 1] != []
      ==> !PairCut(strict, Concat(pieces), |Concat(pieces[..n])|)
  }

  lemma {:induction false} ConcatAt(pieces: seq<Text>, n: nat)
    requires n <= |pieces|
    ensures Concat(pieces) == Concat(pieces[..n]) + Concat(pieces[n..])
  {
    if n == 0 {
      assert pieces[..0] == [] && pieces[0..] == pieces;
    } else {
      ConcatAt(pieces[1..], n - 1);
      assert pieces[..n][1..] == pieces[1..][..n - 1] && pieces[1..][n - 1..] == pieces[n..];
    }
  }

  lemma ConcatNext(pieces: seq<Text>, n: nat)
    requires n < |pieces|
    ensures |Concat(pieces[..n + 1])| == |Concat(pieces[..n])| + |pieces[n]|
    ensures pieces[n..][1..] == pieces[n + 1..] && Concat(pieces[n..]) == pieces[n] + Concat(pieces[n + 1..])
  {
    ConcatAt(pieces, n);
    ConcatAt(pieces, n + 1);
    assert pieces[n..][1..] == pieces[n + 1..];
  }

  /** In an RFC 8259 text those are all the cuts that matter. */
  lemma {:induction false} RfcCutsAreClean(
    strict: bool, pieces: seq<Text>, before: Text, doc: Doc, after: Text, n: nat)
    requires Blank(before) && Valid(doc) && Blank(after) && n <= |pieces|
    requires Concat(pieces) == before + (DocText(doc) + after) && PairsWhole(strict, pieces)
    ensures Concat(pieces) == Concat(pieces[..n]) + Concat(pieces[n..])
    ensures Concat(pieces)[|Concat(pieces[..n])|..] == Concat(pieces[n..])
    ensures CleanCuts(strict, Concat(pieces), |Concat(pieces[..n])|, pieces[n..])
    decreases |pieces| - n
  {
    hide Concat, Blank, Valid, DocText, PairCut, NumberCut;
    ConcatAt(pieces, n);
    if n == |pieces| {
    } else {
      ConcatNext(pieces, n);
      RfcCutsAreClean(strict, pieces, before, doc, after, n + 1);
      var e := PieceEnd(Concat(pieces), |Concat(pieces[..n])|, pieces[n..]);
      RfcScan.NoNumberCut(strict, before, doc, after, e);
      NonEmptyAfter(pieces, n + 1);
    }
  }

  lemma NonEmptyAfter(pieces: seq<Text>, n: nat)
    requires n <= |pieces|
    ensures Concat(pieces[n..]) != [] ==> n < |pieces|
  {
  }

  /**
   RFC 8259 texts in pieces: if no cut splits a surrogate pair, any such text, however deep and whatever
   its numbers read as, comes to what one call comes to: to the same waiting tokener, the same error at
   the same byte, or the same value with the same bytes left over.
   */
  lemma SplitRfc8259(cfg: Config, pieces: seq<Text>, before: Text, doc: Doc, after: Text, t: Tok)
    requires Blank(before) && Valid(doc) && Blank(after) && cfg.maxDepth > 0
    requires Concat(pieces) == before + (DocText(doc) + after) && PairsWhole(cfg.strict, pieces)
    ensures Inv(cfg, Reset(t)) && SameOutcome(cfg, pieces, Reset(t))
  {
    RfcIsClean(cfg.strict, pieces, before, doc, after);
    hide Inv, SameOutcome, CleanPieces;
    CleanIsSame(cfg, pieces, t);
  }

  lemma RfcIsClean(strict: bool, pieces: seq<Text>, before: Text, doc: Doc, after: Text)
    requires Blank(before) && Valid(doc) && Blank(after)
    requires Concat(pieces) == before + (DocText(doc) + after) && PairsWhole(strict, pieces)
    ensures CleanPieces(strict, pieces)
  {
    hide CleanCuts, DocText, Valid, Blank;
    assert pieces[..0] == [] && pieces[0..] == pieces;
    RfcCutsAreClean(strict, pieces, before, doc, after, 0);
  }

  /** So every text whose height fits the limit is accepted with its value, and every other one is
      refused with error_depth, unless it is a number or a word whose end is not yet seen. */
  lemma FeedRfc8259(cfg: Config, pieces: seq<Text>, before: Text, doc: Doc, after: Text, t: Tok)
    requires Blank(before) && Valid(doc) && Blank(after) && cfg.maxDepth > 0 && Readable(cfg, doc)
    requires doc.DArray? || doc.DObject? || doc.DString? || after != []
    requires Concat(pieces) == before + (DocText(doc) + after) && PairsWhole(cfg.strict, pieces)
    ensures var (o, _) := Feed(cfg, pieces, Reset(t));
            if DocHeight(doc) <= cfg.maxDepth - 1 then o.Done? && o.last.top.current == DocValue(doc)
            else o.Failed? && o.error == ErrDepth
  {
    RfcIsClean(cfg.strict, pieces, before, doc, after);
    hide Inv, Run, Feed, CleanPieces, DocText, DocValue, DocHeight, Valid, Blank, Readable, Document;
    Completeness.AcceptsAtEnd(cfg, before, doc, after, t.stPos);
    Simulation.CallIsDocument(cfg, Concat(pieces), t);
    SameValue(cfg, pieces, t);
  }

  /**
   The loop that json_tokener.h recommends: json_tokener_parse_ex is called with the next piece as
   long as json_tokener_get_error says json_tokener_continue.
   */
  method ParseInPieces(tok: JsonTokener.Tokener, pieces: seq<Text>) returns (obj: Json)
    requires tok.Resting()
    modifies tok, tok.stack
    ensures tok.Valid() && tok.Cfg() == old(tok.Cfg())
    ensures match old(Feed(tok.Cfg(), pieces, tok.Abs()).0)
            case Done(u, _) => tok.err == NoError && obj == u.top.current
            case Failed(e, _) => tok.err == e && obj == Null
            case More(u) => tok.Abs() == u && tok.Resting() && obj == Null && (pieces != [] ==> tok.err == ErrContinue)
  {
    hide Run, Inv;
    obj := Null;
    var i := 0;
    ghost var r := Feed(tok.Cfg(), pieces, tok.Abs()).0;
    assert pieces[0..] == pieces;
    while i < |pieces|
      invariant i <= |pieces| && tok.Resting() && tok.Cfg() == old(tok.Cfg()) && obj == Null
      invariant Feed(tok.Cfg(), pieces[i..], tok.Abs()).0 == r
      invariant i > 0 ==> tok.err == ErrContinue
    {
      var s := pieces[i];
      assert s[..|s|] == s;
      FeedOne(tok.Cfg(), pieces[i..], tok.Abs());
      assert pieces[i..][1..] == pieces[i + 1..];
      ghost var o := Call(tok.Cfg(), s, tok.Abs());
      obj := tok.ParseEx(s, |s|);
      if tok.err != ErrContinue {
        return;
      }
      i := i + 1;
    }
    assert pieces[i..] == [];
  }

  lemma StepNeverContinues(cfg: Config, s: Text, t: Tok, loc: Local)
    requires s != [] && Inv(cfg, t)
    ensures Step(cfg, s, t, loc).Out? ==> Step(cfg, s, t, loc).error != ErrContinue
  {
    hide SamePrefix, NumberValue, ObjectAdd;
  }

  /** json_tokener_continue is no failure. */
  lemma {:induction false} NeverContinues(cfg: Config, s: Text, t: Tok, loc: Local)
    requires Inv(cfg, t)
    ensures Run(cfg, s, t, loc).Failed? ==> Run(cfg, s, t, loc).error != ErrContinue
    decreases |s|, Rank(t.top)
  {
    if s == [] {
    } else {
      hide Step, TopOk, Waits, Rank;
      StepKeeps(cfg, s, t, loc);
      StepNeverContinues(cfg, s, t, loc);
      match Step(cfg, s, t, loc)
      case Out(_, _) =>
      case Go(n, u, l) =>
        if !(n > 0 && s[0] == NUL) {
          NeverContinues(cfg, s[n..], u, l);
        }
    }
  }

  lemma FeedOne(cfg: Config, pieces: seq<Text>, t: Tok)
    requires Inv(cfg, t) && pieces != []
    ensures match Call(cfg, pieces[0], t)
            case More(u) => Inv(cfg, u) && Feed(cfg, pieces, t) == Feed(cfg, pieces[1..], u)
            case o => Feed(cfg, pieces, t).0 == o
    ensures Call(cfg, pieces[0], t).Failed? ==> Call(cfg, pieces[0], t).error != ErrContinue
  {
    RunKeeps(cfg, pieces[0], t, NO_LOCALS);
    NeverContinues(cfg, pieces[0], t, NO_LOCALS);
  }

  // ---------------------------------------------------------------- a cut between two halves

  predicate FourHex(digits: Text) {
    |digits| == 4 && forall i :: 0 <= i < 4 ==> IsHex(digits[i])
  }

  function EscapeOf(digits: Text): Text {
    [BACKSLASH, LOWER_U] + digits
  }

  /** The first three digits of an escape with nothing kept back. */
  lemma ThreeDigits(cfg: Config, digits: Text, rest: Text, t: Tok, loc: Local)
    requires Inv(cfg, t) && t.top.state == EscapeUnicode && t.stPos == 0 && t.ucs == 0 && loc.hi == 0
    requires FourHex(digits)
    ensures var u := t.(ucs := HexCode(digits) - HexValue(digits[3]), stPos := 3);
            Inv(cfg, u) && Run(cfg, digits + rest, t, loc) == Run(cfg, [digits[3]] + rest, u, loc)
  {
    hide Run, Inv, HexValue, IsHex;
    var s := digits + rest;
    assert s[1..][1..] == s[2..] && s[2..][1..] == [digits[3]] + rest;
    Simulation.OneDigit(cfg, s, t, loc);
    var t1 := t.(ucs := HexValue(digits[0]) * 0x1000, stPos := 1);
    Simulation.OneDigit(cfg, s[1..], t1, loc);
    var t2 := t.(ucs := t1.ucs + HexValue(digits[1]) * 0x100, stPos := 2);
    Simulation.OneDigit(cfg, s[2..], t2, loc);
  }

  /** An escape of a half with no other escape after it, read in a string. */
  lemma HalfAlone(cfg: Config, digits: Text, rest: Text, t: Tok, loc: Local) returns (u: Tok, l: Local)
    requires Inv(cfg, t) && t.top.state == InString && t.quote == QUOTE && FourHex(digits)
    requires IsHigh(HexCode(digits)) || IsLow(HexCode(digits))
    requires rest == [] || rest[0] != BACKSLASH
    ensures Inv(cfg, u) && u.below == t.below && u.top == t.top.(saved := InString)
    ensures u.pb == t.pb + REPLACEMENT && u.quote == QUOTE
    ensures Run(cfg, EscapeOf(digits) + rest, t, loc) == Run(cfg, rest, u, l)
  {
    hide Run, HexValue, IsHex;
    var s := EscapeOf(digits) + rest;
    assert s[1..][1..] == digits + rest;
    EscapeOpens(cfg, s, t, loc);
    var mid := t.(top := t.top.(state := StringEscape, saved := InString));
    EscapeBegins(cfg, s[1..], mid, loc);
    var begun := In(mid, EscapeUnicode).(ucs := 0, stPos := 0);
    ThreeDigits(cfg, digits, rest, begun, loc.(hi := 0));
    var last := begun.(ucs := HexCode(digits) - HexValue(digits[3]), stPos := 3);
    u, l := HalfEnds(cfg, digits, rest, last, loc.(hi := 0));
  }

  lemma HalfEnds(cfg: Config, digits: Text, rest: Text, t: Tok, loc: Local) returns (u: Tok, l: Local)
    requires Inv(cfg, t) && t.top.state == EscapeUnicode && t.stPos == 3 && FourHex(digits) && loc.hi == 0
    requires IsHigh(HexCode(digits)) || IsLow(HexCode(digits))
    requires t.ucs == HexCode(digits) - HexValue(digits[3]) && (rest == [] || rest[0] != BACKSLASH)
    ensures Inv(cfg, u) && u == In(t, t.top.saved).(pb := t.pb + REPLACEMENT, ucs := u.ucs, stPos := u.stPos)
    ensures Run(cfg, [digits[3]] + rest, t, loc) == Run(cfg, rest, u, l)
  {
    hide Run, HexCode, HexValue, Inv, StepUnicode, IsHex;
    var s := [digits[3]] + rest;
    UnicodeRuns(cfg, s, t, loc);
    LastHalf(s, t, loc, HexCode(digits));
    assert s[1..] == rest;
    u, l := StepUnicode(s, t, loc).tok, StepUnicode(s, t, loc).loc;
  }

  /** The step on the last digit of a half. */
  lemma LastHalf(s: Text, t: Tok, loc: Local, code: nat)
    requires s != [] && IsHex(s[0]) && t.stPos == 3 && t.ucs + HexValue(s[0]) == code && loc.hi == 0
    requires (IsHigh(code) || IsLow(code)) && (|s| > 1 ==> s[1] != BACKSLASH)
    ensures var m := StepUnicode(s, t, loc);
            m.Go? && m.n == 1
            && m.tok == In(t, t.top.saved).(pb := t.pb + REPLACEMENT, ucs := m.tok.ucs, stPos := m.tok.stPos)
  {
    hide HexValue, Encode;
    assert Shift(HexValue(s[0]), 0) == HexValue(s[0]);
    assert t.pb + [] == t.pb;
  }

  /** The opening quote, and the closing one. */
  lemma StringOpens(cfg: Config, s: Text, t: Tok) returns (u: Tok)
    requires cfg.maxDepth > 0 && s != [] && s[0] == QUOTE
    ensures Inv(cfg, u) && u.below == [] && u.top == FRESH.(state := InString, saved := Start)
    ensures u.pb == [] && u.quote == QUOTE
    ensures Call(cfg, s, Reset(t)) == Run(cfg, s[1..], u, NO_LOCALS)
  {
    var r := Reset(t);
    StepKeeps(cfg, s, r, NO_LOCALS);
    var r1 := In(r, Start);
    assert Step(cfg, s, r, NO_LOCALS) == Go(0, r1, NO_LOCALS);
    assert s[0..] == s;
    assert Run(cfg, s, r, NO_LOCALS) == Run(cfg, s, r1, NO_LOCALS);
    u := In(r1, InString).(pb := [], quote := QUOTE);
    StepKeeps(cfg, s, r1, NO_LOCALS);
    assert Step(cfg, s, r1, NO_LOCALS) == Go(1, u, NO_LOCALS);
    hide Step;
    assert Run(cfg, s, r1, NO_LOCALS) == Run(cfg, s[1..], u, NO_LOCALS);
  }

  lemma StringCloses(cfg: Config, t: Tok, loc: Local)
    requires Inv(cfg, t) && t.below == [] && t.top.state == InString && t.quote == QUOTE
    ensures Run(cfg, [QUOTE], t, loc) == Done(Complete(t, Str(t.pb)), 0)
  {
    StepKeeps(cfg, [QUOTE], t, loc);
    assert [QUOTE][1..] == [];
  }

  /**
   The cuts shut out above are real: for every surrogate pair, a cut between its two escapes turns
   the one character of the string into two replacement characters.
   */
  lemma CutLosesPair(cfg: Config, high: Text, low: Text, t: Tok)
    requires cfg.maxDepth > 0 && FourHex(high) && FourHex(low) && IsHigh(HexCode(high)) && IsLow(HexCode(low))
    ensures var (o, _) := Feed(cfg, [[QUOTE] + EscapeOf(high), EscapeOf(low) + [QUOTE]], Reset(t));
            o.Done? && o.last.top.current == Str(REPLACEMENT + REPLACEMENT)
    ensures var whole := [QUOTE] + EscapeOf(high) + (EscapeOf(low) + [QUOTE]);
            && Simulation.View(Call(cfg, whole, Reset(t)))
               == Accept(Str(Append(DecodePair(HexCode(high), HexCode(low)))), 0, 0)
            && Append(DecodePair(HexCode(high), HexCode(low))) != REPLACEMENT + REPLACEMENT
  {
    PairWhole(cfg, high, low, t);
    hide Run, HexCode, IsHex, IsHigh, IsLow, Append;
    var a, b := [QUOTE] + EscapeOf(high), EscapeOf(low) + [QUOTE];
    var u := StringOpens(cfg, a, t);
    assert a[1..] == EscapeOf(high) + [];
    var v, l := HalfAlone(cfg, high, [], u, NO_LOCALS);
    AtEndOfPiece(cfg, v, l);
    var w, l2 := HalfAlone(cfg, low, [QUOTE], v, NO_LOCALS);
    StringCloses(cfg, w, l2);
    FeedTwo(cfg, a, b, Reset(t), v);
  }

  lemma FeedTwo(cfg: Config, a: Text, b: Text, t: Tok, u: Tok)
    requires Inv(cfg, t) && Inv(cfg, u) && Call(cfg, a, t) == More(u) && Call(cfg, b, u).Done?
    ensures Feed(cfg, [a, b], t).0 == Call(cfg, b, u)
  {
    hide Run, Inv;
    RunKeeps(cfg, a, t, NO_LOCALS);
    RunKeeps(cfg, b, u, NO_LOCALS);
    assert [a, b][1..] == [b];
  }

  lemma PairWhole(cfg: Config, high: Text, low: Text, t: Tok)
    requires cfg.maxDepth > 0 && FourHex(high) && FourHex(low) && IsHigh(HexCode(high)) && IsLow(HexCode(low))
    ensures var whole := [QUOTE] + EscapeOf(high) + (EscapeOf(low) + [QUOTE]);
            && Simulation.View(Call(cfg, whole, Reset(t)))
               == Accept(Str(Append(DecodePair(HexCode(high), HexCode(low)))), 0, 0)
            && Append(DecodePair(HexCode(high), HexCode(low))) != REPLACEMENT + REPLACEMENT
  {
    var items := [Hex(high), Hex(low)];
    var doc, whole := DString(items), [QUOTE] + EscapeOf(high) + (EscapeOf(low) + [QUOTE]);
    PairItems(high, low);
    EmptyIsBlank();
    hide ItemsText, ItemsValue, HexCode, Document, Append, Call, Simulation.View, DecodePair, IsHex, IsHigh, IsLow,
      ValidItems, Blank;
    assert [] + (DocText(doc) + []) == whole;
    Completeness.AcceptsAtEnd(cfg, [], doc, [], t.stPos);
    Simulation.CallIsDocument(cfg, whole, t);
  }

  lemma PairItems(high: Text, low: Text)
    requires FourHex(high) && FourHex(low) && IsHigh(HexCode(high)) && IsLow(HexCode(low))
    ensures var items := [Hex(high), Hex(low)];
            && ValidItems(items) && ItemsText(items) == EscapeOf(high) + EscapeOf(low)
            && ItemsValue(items) == Append(DecodePair(HexCode(high), HexCode(low)))
    ensures Append(DecodePair(HexCode(high), HexCode(low))) != REPLACEMENT + REPLACEMENT
  {
    var items, h, l := [Hex(high), Hex(low)], HexCode(high), HexCode(low);
    assert h >= 0x800 && |Append(DecodePair(h, l))| <= 4;
    hide HexCode, IsHex, IsHigh, IsLow, Append, DecodePair;
    assert items[1..] == [Hex(low)] && items[1..][1..] == [];
    assert ItemsText(items[1..]) == EscapeOf(low) + [];
    assert ItemsValue([]) == [];
    assert HexValueOf(items[1..], h) == [] + Append(DecodePair(h, l)) + [];
    assert ItemsValue(items) == [] + HexValueOf(items[1..], h);
  }
}

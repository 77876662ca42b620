/** The step machine computes what the grammar says, on every input. */
module Simulation {
  import opened Bytes
  import opened Json
  import opened Unicode
  import opened Machine
  import opened Reference
  import opened Steps

  function View(o: Outcome): Verdict {
    match o
    case Done(t, left) => Accept(t.top.current, |t.below|, left)
    case More(_) => NeedMore
    case Failed(e, _) => Reject(e)
  }

  /** A run `o` does what the grammar says: `below` is the stack under the value. */
  ghost predicate Reaches(cfg: Config, o: Outcome, below: seq<Level>, p: Parsed, u: Tok, l: Local) {
    match p
    case Ok(v, rest, pos) =>
      && Inv(cfg, u) && u.below == below && u.top == Level(Eatws, Finish, v, None) && u.stPos == pos
      && o == Run(cfg, rest, u, l)
    case Halt(v) => View(o) == v
  }

  /** A run `o` goes on from the next token, in the level `top`. */
  ghost predicate Comes(cfg: Config, o: Outcome, t: Tok, top: Level, next: Next, u: Tok, l: Local) {
    match next
    case At(rest) => Inv(cfg, u) && u == t.(top := top, pb := u.pb) && o == Run(cfg, rest, u, l)
    case NextHalt(v) => View(o) == v
  }

  /** One step that goes on. */
  lemma OneStep(cfg: Config, s: Text, t: Tok, loc: Local) returns (u: Tok, l: Local, rest: Text)
    requires s != [] && Inv(cfg, t)
    requires s != [] && Step(cfg, s, t, loc).Go?
    requires Step(cfg, s, t, loc).n > 0 ==> s[0] != NUL
    ensures |rest| <= |s| && Step(cfg, s, t, loc) == Go(|s| - |rest|, u, l) && Inv(cfg, u)
    ensures rest == s[|s| - |rest|..]
    ensures Run(cfg, s, t, loc) == Run(cfg, rest, u, l)
  {
    StepKeeps(cfg, s, t, loc);
    var m := Step(cfg, s, t, loc);
    u, l, rest := m.tok, m.loc, s[m.n..];
  }

  /** One step that jumps to `out`. */
  lemma OutStep(cfg: Config, s: Text, t: Tok, loc: Local)
    requires s != [] && Inv(cfg, t)
    requires Step(cfg, s, t, loc).Out?
    ensures var m := Step(cfg, s, t, loc);
            Run(cfg, s, t, loc) == Final(cfg, s[0], m.out, m.error, |s| - Passed(s[0], t))
  {
    StepKeeps(cfg, s, t, loc);
  }

  /** A NUL that a step consumes. */
  lemma NulStep(cfg: Config, s: Text, t: Tok, loc: Local)
    requires s != [] && s[0] == NUL && Inv(cfg, t)
    requires Step(cfg, s, t, loc).Go? && Step(cfg, s, t, loc).n > 0
    ensures var m := Step(cfg, s, t, loc);
            m.n <= |s| && Run(cfg, s, t, loc) == Final(cfg, NUL, m.tok, NoError, |s| - m.n)
  {
    StepKeeps(cfg, s, t, loc);
  }

  lemma EndOfInput(cfg: Config, t: Tok, loc: Local)
    requires Inv(cfg, t)
    ensures Run(cfg, [], t, loc) == AtEnd(t)
  {
  }

  // ---------------------------------------------------------------- gaps

  /** What a gap leads to when the saved state is that of `t`. */
  ghost predicate GapRun(cfg: Config, s: Text, t: Tok, loc: Local, gap: Gap, u: Tok)
    requires Inv(cfg, t)
  {
    var finished := t.top.saved == Finish;
    match gap
    case Token(rest) =>
      u == In(t, Eatws).(pb := u.pb) && Inv(cfg, u) && Run(cfg, s, t, loc) == Run(cfg, rest, u, loc)
    case GapEnd =>
      View(Run(cfg, s, t, loc)) ==
      if finished && t.below == [] then Accept(t.top.current, 0, 0) else NeedMore
    case GapUnclosed => View(Run(cfg, s, t, loc)) == NeedMore
    case GapNul(left) =>
      View(Run(cfg, s, t, loc)) == if finished then Accept(t.top.current, |t.below|, left) else Reject(ErrEof)
    case GapBad(c) =>
      View(Run(cfg, s, t, loc)) == if finished then Reject(ErrComment) else Fault(c, ErrComment)
  }

  /** What a gap does from its second byte on, it does from its first. */
  lemma GapPasses(cfg: Config, s: Text, t: Tok, loc: Local, rest: Text, v: Tok, gap: Gap, u: Tok)
    requires Inv(cfg, t) && Inv(cfg, v) && v == In(t, v.top.state).(pb := v.pb)
    requires Run(cfg, s, t, loc) == Run(cfg, rest, v, loc)
    requires GapRun(cfg, rest, v, loc, gap, u)
    ensures GapRun(cfg, s, t, loc, gap, u)
  {
    hide Run;
  }

  lemma {:induction false} SpacesRun(cfg: Config, s: Text, t: Tok, loc: Local) returns (u: Tok)
    requires Inv(cfg, t) && t.top.state == Eatws
    ensures GapRun(cfg, s, t, loc, Spaces(cfg.strict, s), u)
    decreases |s|
  {
    hide Run;
    u := t;
    if s == [] {
      EndOfInput(cfg, t, loc);
    } else if IsSpace(s[0]) {
      var v, l, rest := OneStep(cfg, s, t, loc);
      u := SpacesRun(cfg, rest, v, l);
    } else if s[0] == SLASH && !cfg.strict {
      var v, l, rest := OneStep(cfg, s, t, loc);
      u := OpenRun(cfg, rest, v, l);
    } else {
      assert In(t, Eatws) == t;
    }
  }

  lemma {:induction false} OpenRun(cfg: Config, s: Text, t: Tok, loc: Local) returns (u: Tok)
    requires Inv(cfg, t) && t.top.state == CommentStart
    ensures GapRun(cfg, s, t, loc, CommentOpen(cfg.strict, s), u)
    decreases |s|
  {
    hide Run, Step;
    u := t;
    if s == [] {
      EndOfInput(cfg, t, loc);
    } else {
      GapIs(cfg, s, t, loc);
      if s[0] == STAR || s[0] == SLASH {
        hide GapRun;
        var v, l, rest := OneStep(cfg, s, t, loc);
        if s[0] == STAR {
          u := BlockRun(cfg, rest, v, l);
        } else {
          u := LineRun(cfg, rest, v, l);
        }
        GapPasses(cfg, s, t, loc, rest, v, CommentOpen(cfg.strict, s), u);
      } else {
        OutStep(cfg, s, t, loc);
      }
    }
  }

  lemma {:induction false} BlockRun(cfg: Config, s: Text, t: Tok, loc: Local) returns (u: Tok)
    requires Inv(cfg, t) && t.top.state == Comment
    ensures GapRun(cfg, s, t, loc, BlockComment(cfg.strict, s), u)
    decreases |s|
  {
    hide Run, Step;
    u := t;
    if s == [] {
      EndOfInput(cfg, t, loc);
    } else {
      GapIs(cfg, s, t, loc);
      if s[0] == NUL {
        NulStep(cfg, s, t, loc);
      } else {
        hide GapRun;
        var v, l, rest := OneStep(cfg, s, t, loc);
        if s[0] == STAR {
          u := StarRun(cfg, rest, v, l);
        } else {
          u := BlockRun(cfg, rest, v, l);
        }
        GapPasses(cfg, s, t, loc, rest, v, BlockComment(cfg.strict, s), u);
      }
    }
  }

  lemma {:induction false} StarRun(cfg: Config, s: Text, t: Tok, loc: Local) returns (u: Tok)
    requires Inv(cfg, t) && t.top.state == CommentEnd
    ensures GapRun(cfg, s, t, loc, AfterStar(cfg.strict, s), u)
    decreases |s|
  {
    hide Run, Step;
    u := t;
    if s == [] {
      EndOfInput(cfg, t, loc);
    } else {
      GapIs(cfg, s, t, loc);
      if s[0] == NUL {
        NulStep(cfg, s, t, loc);
      } else {
        hide GapRun;
        var v, l, rest := OneStep(cfg, s, t, loc);
        if s[0] == SLASH {
          u := SpacesRun(cfg, rest, v, l);
        } else {
          u := BlockRun(cfg, rest, v, l);
        }
        GapPasses(cfg, s, t, loc, rest, v, AfterStar(cfg.strict, s), u);
      }
    }
  }

  lemma {:induction false} LineRun(cfg: Config, s: Text, t: Tok, loc: Local) returns (u: Tok)
    requires Inv(cfg, t) && t.top.state == CommentEol
    ensures GapRun(cfg, s, t, loc, LineComment(cfg.strict, s), u)
    decreases |s|
  {
    hide Run, Step;
    u := t;
    if s == [] {
      EndOfInput(cfg, t, loc);
    } else {
      GapIs(cfg, s, t, loc);
      if s[0] == NUL {
        NulStep(cfg, s, t, loc);
      } else {
        hide GapRun;
        var v, l, rest := OneStep(cfg, s, t, loc);
        if s[0] == LF {
          u := SpacesRun(cfg, rest, v, l);
        } else {
          u := LineRun(cfg, rest, v, l);
        }
        GapPasses(cfg, s, t, loc, rest, v, LineComment(cfg.strict, s), u);
      }
    }
  }

  /** The same for the token after a gap, where nothing is complete yet: the saved state is entered. */
  lemma TokenRun(cfg: Config, s: Text, t: Tok, loc: Local) returns (u: Tok)
    requires Inv(cfg, t) && t.top.state == Eatws && t.top.saved != Finish
    ensures Comes(cfg, Run(cfg, s, t, loc), t, t.top.(state := t.top.saved), NextToken(cfg.strict, s), u, loc)
  {
    hide Run;
    u := SpacesRun(cfg, s, t, loc);
    match Spaces(cfg.strict, s)
    case Token(r) =>
      var v, l, rest := OneStep(cfg, r, u, loc);
      u := v;
    case _ =>
  }

  /** The token after a complete value. */
  lemma AfterRun(cfg: Config, s: Text, t: Tok, loc: Local) returns (u: Tok)
    requires Inv(cfg, t) && t.top.state == Eatws && t.top.saved == Finish
    ensures var next := AfterValue(cfg.strict, s, |t.below|, t.top.current);
            Comes(cfg, Run(cfg, s, t, loc), t, t.top.(state := Finish), next, u, loc)
  {
    hide Run;
    u := SpacesRun(cfg, s, t, loc);
    match Spaces(cfg.strict, s)
    case Token(r) =>
      var v, l, rest := OneStep(cfg, r, u, loc);
      u := v;
    case _ =>
  }

  // ---------------------------------------------------------------- words

  lemma {:induction false} CommonLengthSound(strict: bool, word: Text, s: Text)
    ensures var n := CommonLength(strict, word, s);
            && (forall i :: 0 <= i < n ==> SameByte(strict, word[i], s[i]))
            && (n < |word| && n < |s| ==> !SameByte(strict, word[n], s[n]))
  {
    if word != [] && s != [] && SameByte(strict, word[0], s[0]) {
      CommonLengthSound(strict, word[1..], s[1..]);
    }
  }

  lemma PrefixByLength(strict: bool, word: Text, s: Text, read: Text, n: nat)
    requires read <= s && n <= |read| && n <= |word|
    ensures SamePrefix(strict, word, read, n) <==> n <= CommonLength(strict, word, s)
  {
    CommonLengthSound(strict, word, s);
  }

  // Two words tried in one state, with their values and the error.
  datatype Words = Words(first: Text, v1: Json, second: Text, v2: Json, e: Error)

  /** The words of a state; `lead` is what the buffer holds before the word. */
  function WordsOf(state: State, lead: Text): Option<Words> {
    match state
    case NullWord => if lead == [] then Some(Words(NULL_WORD, Null, NAN_WORD, NotANumber, ErrNull)) else None
    case BooleanWord =>
      if lead == [] then Some(Words(TRUE_WORD, Bool(true), FALSE_WORD, Bool(false), ErrBoolean)) else None
    case InfinityWord =>
      var v := Infinite(lead != []);
      if lead == [] || lead == [MINUS] then Some(Words(INFINITY_WORD, v, INFINITY_WORD, v, ErrUnexpected)) else None
    case _ => None
  }

  predicate NoNul(word: Text) {
    forall i :: 0 <= i < |word| ==> word[i] != NUL
  }

  /** A word state that has read `lead` and then `read`, whose last byte is the current one. */
  function WordMove(strict: bool, read: Text, k: nat, u: Tok, loc: Local, w: Words): Move {
    if SamePrefix(strict, w.first, read, Min(k + 1, |w.first|)) then
      if k == |w.first| then Go(0, Complete(u, w.v1), loc) else Go(1, u.(stPos := k + 1), loc)
    else if SamePrefix(strict, w.second, read, Min(k + 1, |w.second|)) then
      if k == |w.second| then Go(0, Complete(u, w.v2), loc) else Go(1, u.(stPos := k + 1), loc)
    else Out(u, w.e)
  }

  lemma StepIsWords(cfg: Config, s: Text, t: Tok, loc: Local, lead: Text, read: Text, w: Words)
    requires s != [] && Inv(cfg, t) && WordsOf(t.top.state, lead) == Some(w)
    requires t.pb == lead + read && (lead == [] ==> (read + [s[0]])[0] != MINUS)
    ensures Step(cfg, s, t, loc)
            == WordMove(cfg.strict, read + [s[0]], t.stPos, t.(pb := lead + (read + [s[0]])), loc, w)
  {
    hide SamePrefix, Inv;
    var pb := t.pb + [s[0]];
    assert lead + (read + [s[0]]) == pb;
    if lead == [] {
      assert read + [s[0]] == pb;
    } else {
      assert pb[1..] == read + [s[0]];
    }
  }

  lemma WordFacts(cfg: Config, t: Tok, lead: Text, w: Words)
    requires Inv(cfg, t) && WordsOf(t.top.state, lead) == Some(w)
    ensures w.first != [] && w.second != [] && NoNul(w.first) && NoNul(w.second)
    ensures t.top.saved == Start && t.top.state != Finish && w.e != NoError
    ensures View(AtEnd(t)) == NeedMore
  {
  }

  lemma LettersAreNotNul(strict: bool, word: Text, s: Text, k: nat)
    requires NoNul(word) && k < CommonLength(strict, word, s)
    ensures s[k] != NUL
  {
    CommonLengthSound(strict, word, s);
  }

  /** The buffer of a word state that has read r[..k]. */
  predicate HasRead(t: Tok, lead: Text, r: Text, k: nat) {
    k <= |r| && t.stPos == k && t.pb == lead + r[..k] && (lead == [] && r != [] ==> r[0] != MINUS)
  }

  /** A word state that has read r[..k] meets one more byte: the step in terms of the two matches. */
  lemma WordStep(cfg: Config, r: Text, k: nat, t: Tok, loc: Local, lead: Text, w: Words)
    requires Inv(cfg, t) && WordsOf(t.top.state, lead) == Some(w)
    requires k < |r| && HasRead(t, lead, r, k)
    ensures var a := CommonLength(cfg.strict, w.first, r);
            var b := CommonLength(cfg.strict, w.second, r);
            var u := t.(pb := lead + r[..k + 1]);
            Step(cfg, r[k..], t, loc)
            == if Min(k + 1, |w.first|) <= a then
                 if k == |w.first| then Go(0, Complete(u, w.v1), loc) else Go(1, u.(stPos := k + 1), loc)
               else if Min(k + 1, |w.second|) <= b then
                 if k == |w.second| then Go(0, Complete(u, w.v2), loc) else Go(1, u.(stPos := k + 1), loc)
               else Out(u, w.e)
  {
    hide Step, WordsOf, SamePrefix, CommonLength;
    var s := r[k..];
    var read := r[..k] + [s[0]];
    assert read == r[..k + 1];
    StepIsWords(cfg, s, t, loc, lead, r[..k], w);
    PrefixByLength(cfg.strict, w.first, r, read, Min(k + 1, |w.first|));
    PrefixByLength(cfg.strict, w.second, r, read, Min(k + 1, |w.second|));
  }

  /** A word state reads on from k to j while one of the words matches. */
  lemma {:induction false} WordAdvance(
    cfg: Config, r: Text, k: nat, j: nat, t: Tok, loc: Local, lead: Text, w: Words)
    requires Inv(cfg, t) && WordsOf(t.top.state, lead) == Some(w)
    requires k <= j <= |r| && HasRead(t, lead, r, k)
    requires var a := CommonLength(cfg.strict, w.first, r);
             j <= a || (a < |w.first| && j <= CommonLength(cfg.strict, w.second, r))
    ensures var u := t.(stPos := j, pb := lead + r[..j]);
            Inv(cfg, u) && Run(cfg, r[k..], t, loc) == Run(cfg, r[j..], u, loc)
    decreases j - k
  {
    hide Step, Run, SamePrefix, CommonLength;
    if k == j {
      assert t == t.(stPos := j, pb := lead + r[..j]);
    } else {
      WordStep(cfg, r, k, t, loc, lead, w);
      WordFacts(cfg, t, lead, w);
      if k < CommonLength(cfg.strict, w.first, r) {
        LettersAreNotNul(cfg.strict, w.first, r, k);
      } else {
        LettersAreNotNul(cfg.strict, w.second, r, k);
      }
      var v, l, rest := OneStep(cfg, r[k..], t, loc);
      assert rest == r[k + 1..];
      WordAdvance(cfg, r, k + 1, j, v, l, lead, w);
    }
  }

  /** No text starts with a second word and with as much of a first one that differs. */
  lemma SecondIsNotFirst(strict: bool, state: State, lead: Text, r: Text)
    requires WordsOf(state, lead).Some?
    ensures var w := WordsOf(state, lead).value;
            CommonLength(strict, w.second, r) == |w.second|
            ==> w.first == w.second || CommonLength(strict, w.first, r) < |w.second|
  {
    hide CommonLength;
    var w := WordsOf(state, lead).value;
    CommonLengthSound(strict, w.second, r);
    CommonLengthSound(strict, w.first, r);
    assert w.first == w.second || (w.second[1] == 97 && w.first[1] != 97);
  }

  /** The last step of a word state. */
  lemma WordStop(cfg: Config, r: Text, j: nat, t: Tok, loc: Local, lead: Text, w: Words) returns (u: Tok)
    requires Inv(cfg, t) && WordsOf(t.top.state, lead) == Some(w)
    requires HasRead(t, lead, r, j) && w.first != [] && w.second != [] && t.top.field == None
    requires var a := CommonLength(cfg.strict, w.first, r);
             var b := CommonLength(cfg.strict, w.second, r);
             j == if a == |w.first| || a >= b then a else b
    ensures var p := Word(cfg.strict, r, w.first, w.v1, w.second, w.v2, w.e);
            Reaches(cfg, Run(cfg, r[j..], t, loc), t.below, p, u, loc)
  {
    hide Step, Run, SamePrefix, CommonLength, WordsOf;
    u := t;
    var s := r[j..];
    SecondIsNotFirst(cfg.strict, t.top.state, lead, r);
    WordFacts(cfg, t, lead, w);
    if s == [] {
      EndOfInput(cfg, t, loc);
    } else {
      WordStep(cfg, r, j, t, loc, lead, w);
      if Step(cfg, s, t, loc).Go? {
        var v, l, rest := OneStep(cfg, s, t, loc);
        u := v;
      } else {
        OutStep(cfg, s, t, loc);
      }
    }
  }

  /** A word state entered at the start of r. */
  lemma WordRun(cfg: Config, r: Text, t: Tok, loc: Local, lead: Text, w: Words) returns (u: Tok)
    requires Inv(cfg, t) && WordsOf(t.top.state, lead) == Some(w)
    requires HasRead(t, lead, r, 0) && w.first != [] && w.second != [] && t.top.field == None
    ensures var p := Word(cfg.strict, r, w.first, w.v1, w.second, w.v2, w.e);
            Reaches(cfg, Run(cfg, r, t, loc), t.below, p, u, loc)
  {
    hide Step, Run, SamePrefix, CommonLength, WordsOf, Word, View;
    var a := CommonLength(cfg.strict, w.first, r);
    var b := CommonLength(cfg.strict, w.second, r);
    var j := if a == |w.first| || a >= b then a else b;
    WordAdvance(cfg, r, 0, j, t, loc, lead, w);
    assert r[0..] == r;
    u := WordStop(cfg, r, j, t.(stPos := j, pb := lead + r[..j]), loc, lead, w);
  }

  // ---------------------------------------------------------------- strings

  predicate TextState(s: State) {
    s == InString || s == InField
  }

  /** The run of a string body or a field name, up to its closing quote. */
  ghost predicate BodyRun(cfg: Config, s: Text, t: Tok, loc: Local, body: Body, home: Level, u: Tok, l: Local)
    requires Inv(cfg, t)
  {
    match body
    case Closed(text, rest, pos) =>
      && Inv(cfg, u) && u.below == t.below && u.quote == t.quote && u.pb == text && u.stPos == pos
      && u.top.state == home.state && u.top.current == home.current && u.top.field == home.field
      && Run(cfg, s, t, loc) == Run(cfg, [t.quote] + rest, u, l)
    case BodyHalt(v) => View(Run(cfg, s, t, loc)) == v
  }

  lemma {:induction false} StringRun(cfg: Config, s: Text, t: Tok, loc: Local) returns (u: Tok, l: Local)
    requires Inv(cfg, t) && TextState(t.top.state)
    ensures BodyRun(cfg, s, t, loc, StringBody(s, t.quote, t.pb, t.stPos), t.top, u, l)
    decreases |s|
  {
    u, l := t, loc;
    if s == [] {
      EndOfInput(cfg, t, loc);
    } else if s[0] == t.quote {
      assert [t.quote] + s[1..] == s;
    } else if s[0] == NUL {
      NulStep(cfg, s, t, loc);
    } else {
      var v, k, rest := OneStep(cfg, s, t, loc);
      if s[0] != BACKSLASH {
        u, l := StringRun(cfg, rest, v, k);
      } else {
        u, l := EscapeRun(cfg, s, v, k, t.top);
      }
    }
  }

  /** After the backslash that starts s. */
  lemma {:induction false} EscapeRun(cfg: Config, s: Text, t: Tok, loc: Local, home: Level) returns (u: Tok, l: Local)
    requires s != [] && s[0] == BACKSLASH != t.quote
    requires Inv(cfg, t) && TextState(home.state)
    requires t.top == home.(state := StringEscape, saved := home.state)
    ensures BodyRun(cfg, s[1..], t, loc, StringBody(s, t.quote, t.pb, t.stPos), home, u, l)
    decreases |s|, 0
  {
    u, l := t, loc;
    var s1 := s[1..];
    if s1 == [] {
      EndOfInput(cfg, t, loc);
    } else if Unescape(s1[0]).Some? {
      var v, k, rest := OneStep(cfg, s1, t, loc);
      assert rest == s[2..];
      u, l := StringRun(cfg, rest, v, k);
    } else if s1[0] == LOWER_U {
      var v, k, rest := OneStep(cfg, s1, t, loc);
      assert rest == s[2..];
      u, l := UnicodeRun(cfg, rest, v, k, home);
    } else {
      OutStep(cfg, s1, t, loc);
    }
  }

  /** At the four digits of a unicode escape. */
  lemma {:induction false} UnicodeRun(cfg: Config, s: Text, t: Tok, loc: Local, home: Level) returns (u: Tok, l: Local)
    requires Inv(cfg, t) && TextState(home.state)
    requires t.top == home.(state := EscapeUnicode, saved := home.state)
    requires t.stPos == 0 && t.ucs == 0
    ensures BodyRun(cfg, s, t, loc, UnicodeBody(s, t.quote, t.pb, loc.hi), home, u, l)
    decreases |s|, 1
  {
    u, l := t, loc;
    var n := HexCount(s);
    assert s[0..] == s;
    DigitsRun(cfg, s, 0, t, loc);
    if n == 4 {
      u, l := FourthRun(cfg, s, t.(ucs := Partial(s, 3), stPos := 3), loc, home);
    }
  }

  /** The code of the first k of four digits. */
  function Partial(r: Text, k: nat): nat
    requires k <= 4 && k <= |r| && forall i :: 0 <= i < k ==> IsHex(r[i])
  {
    if k == 0 then 0 else Partial(r, k - 1) + Shift(HexValue(r[k - 1]), 4 - k)
  }

  lemma DigitsEnd(cfg: Config, t: Tok, loc: Local)
    requires Inv(cfg, t) && t.top.state == EscapeUnicode
    ensures View(Run(cfg, [], t, loc)) == NeedMore
  {
  }

  lemma NoDigit(cfg: Config, s: Text, t: Tok, loc: Local)
    requires Inv(cfg, t) && t.top.state == EscapeUnicode && s != [] && !IsHex(s[0])
    ensures View(Run(cfg, s, t, loc)) == Fault(s[0], ErrString)
  {
    hide Run, StepFourth, HexValue, Shift;
    OutStep(cfg, s, t, loc);
  }

  lemma OneDigit(cfg: Config, s: Text, t: Tok, loc: Local)
    requires Inv(cfg, t) && t.top.state == EscapeUnicode && t.stPos < 3 && s != [] && IsHex(s[0])
    requires |s| > 1 || loc.hi == 0
    ensures var v := t.(ucs := t.ucs + Shift(HexValue(s[0]), 3 - t.stPos), stPos := t.stPos + 1);
            Inv(cfg, v) && Run(cfg, s, t, loc) == Run(cfg, s[1..], v, loc)
  {
    hide Run, StepFourth, HexValue, Shift;
    var v, l, rest := OneStep(cfg, s, t, loc);
    assert t.pb + [] == t.pb;
  }

  lemma LastDigit(cfg: Config, s: Text, t: Tok, loc: Local)
    requires Inv(cfg, t) && t.top.state == EscapeUnicode && t.stPos < 3 && |s| == 1 && IsHex(s[0])
    ensures View(Run(cfg, s, t, loc)) == NeedMore
  {
    hide Run, StepFourth, HexValue, Shift;
    var v, l, rest := OneStep(cfg, s, t, loc);
    EndOfInput(cfg, v, l);
  }

  /** The first three digits, of which k are read. */
  lemma {:induction false} DigitsRun(cfg: Config, r: Text, k: nat, t: Tok, loc: Local)
    requires Inv(cfg, t) && t.top.state == EscapeUnicode
    requires k <= 3 && k <= HexCount(r) && t.stPos == k && t.ucs == Partial(r, k)
    ensures var n := HexCount(r);
            if n < 4 then View(Run(cfg, r[k..], t, loc)) == if n == |r| then NeedMore else Fault(r[n], ErrString)
            else
              var v := t.(ucs := Partial(r, 3), stPos := 3);
              Inv(cfg, v) && Run(cfg, r[k..], t, loc) == Run(cfg, r[3..], v, loc)
    decreases 3 - k
  {
    hide Run, Step, Inv, StepFourth, HexValue, Shift, IsHex, View;
    var s := r[k..];
    if s == [] {
      DigitsEnd(cfg, t, loc);
    } else if k == HexCount(r) {
      NoDigit(cfg, s, t, loc);
    } else if k == 3 {
      assert t == t.(ucs := Partial(r, 3), stPos := 3);
    } else if |s| == 1 {
      LastDigit(cfg, s, t, loc);
    } else {
      OneDigit(cfg, s, t, loc);
      assert s[1..] == r[k + 1..];
      DigitsRun(cfg, r, k + 1, t.(ucs := Partial(r, k + 1), stPos := k + 1), loc);
    }
  }

  /** The fourth digit. */
  lemma {:induction false} FourthRun(cfg: Config, r: Text, t: Tok, loc: Local, home: Level) returns (u: Tok, l: Local)
    requires Inv(cfg, t) && TextState(home.state)
    requires t.top == home.(state := EscapeUnicode, saved := home.state)
    requires HexCount(r) == 4 && t.stPos == 3 && t.ucs == Partial(r, 3)
    ensures BodyRun(cfg, r[3..], t, loc, UnicodeBody(r, t.quote, t.pb, loc.hi), home, u, l)
    decreases |r|, 0
  {
    u, l := t, loc;
    var s := r[3..];
    assert Partial(r, 1) == HexValue(r[0]) * 0x1000;
    assert Partial(r, 2) == HexValue(r[0]) * 0x1000 + HexValue(r[1]) * 0x100;
    assert Partial(r, 4) == HexCode(r);
    var (code, before) := Combine(loc.hi, HexCode(r));
    assert Step(cfg, s, t, loc) == StepFourth(s, HexCode(r), t, loc);
    var v, k, rest := OneStep(cfg, s, t, loc);
    if code >= 0x800 && IsHigh(code) && EscapeFollows(r[4..]) {
      assert rest == r[6..];
      if rest == [] {
        EndOfInput(cfg, v, k);
      } else {
        u, l := UnicodeRun(cfg, rest, v, k, home);
      }
    } else {
      assert rest == r[4..];
      u, l := StringRun(cfg, rest, v, k);
    }
  }

  // ---------------------------------------------------------------- numbers

  lemma {:induction false} NumberLengthSound(s: Text)
    ensures forall i :: 0 <= i < NumberLength(s) ==> IsNumberChar(s[i])
  {
    if s == [] || !IsNumberChar(s[0]) {
    } else {
      NumberLengthSound(s[1..]);
    }
  }

  /** The number state reads on from k to j. */
  lemma {:induction false} NumberAdvance(cfg: Config, r: Text, k: nat, j: nat, t: Tok, loc: Local)
    requires Inv(cfg, t) && t.top.state == Number
    requires k <= j <= NumberLength(r) && t.pb == r[..k] && t.isDouble == HasPoint(r[..k]) && loc.caseLen == k
    ensures var u := t.(pb := r[..j], isDouble := HasPoint(r[..j]));
            Inv(cfg, u) && Run(cfg, r[k..], t, loc) == Run(cfg, r[j..], u, loc.(caseLen := j))
    decreases j - k
  {
    hide Run, HasPoint;
    if k == j {
      assert t == t.(pb := r[..j], isDouble := HasPoint(r[..j])) && loc == loc.(caseLen := j);
    } else {
      NumberLengthSound(r);
      assert r[..k] + [r[k]] == r[..k + 1];
      HasPointSnoc(r[..k], r[k]);
      var v, l, rest := OneStep(cfg, r[k..], t, loc);
      assert rest == r[k + 1..];
      NumberAdvance(cfg, r, k + 1, j, v, l);
    }
  }

  /** The infinity state entered after a minus: st_pos is what the last word or escape left. */
  lemma MinusInfinityRun(cfg: Config, s: Text, t: Tok, loc: Local) returns (u: Tok)
    requires Inv(cfg, t) && t.top.state == InfinityWord && t.top.field == None
    requires s != [] && (s[0] == LOWER_I || s[0] == UPPER_I) && t.pb == [MINUS]
    ensures var i := Infinite(true);
            var p := if t.stPos == 0 then Word(cfg.strict, s, INFINITY_WORD, i, INFINITY_WORD, i, ErrUnexpected)
                     else Halt(Reject(ErrUnexpected));
            Reaches(cfg, Run(cfg, s, t, loc), t.below, p, u, loc)
  {
    hide Run, Word;
    u := t;
    if t.stPos == 0 {
      var i := Infinite(true);
      assert t.pb == [MINUS] + s[..0];
      u := WordRun(cfg, s, t, loc, [MINUS], Words(INFINITY_WORD, i, INFINITY_WORD, i, ErrUnexpected));
    } else {
      assert (t.pb + [s[0]])[1..] == [s[0]];
      OutStep(cfg, s, t, loc);
    }
  }

  /** A number read whole: the byte after it decides. */
  lemma NumberStop(cfg: Config, r: Text, n: nat, t: Tok, loc: Local) returns (u: Tok, l: Local)
    requires Inv(cfg, t) && t.top.state == Number && t.top.field == None
    requires n == NumberLength(r) > 0 && t.pb == r[..n] && t.isDouble == HasPoint(r[..n]) && loc.caseLen == n
    ensures Reaches(cfg, Run(cfg, r[n..], t, loc), t.below, NumberToken(cfg, r, t.stPos), u, l)
  {
    hide Run, HasPoint, Word, NumberValue;
    u, l := t, loc;
    var s := r[n..];
    if s == [] {
      EndOfInput(cfg, t, loc);
    } else if r[0] == MINUS && n == 1 && (s[0] == LOWER_I || s[0] == UPPER_I) {
      var v, k, rest := OneStep(cfg, s, t, loc);
      assert r[1..] == s;
      u := MinusInfinityRun(cfg, s, v, k);
      l := k;
    } else if NumberValue(cfg, r[..n], HasPoint(r[..n])).Some? {
      var v, k, rest := OneStep(cfg, s, t, loc);
      u, l := v, k;
    } else {
      OutStep(cfg, s, t, loc);
    }
  }

  /** The number state entered at the start of r. */
  lemma NumberRun(cfg: Config, r: Text, t: Tok, loc: Local) returns (u: Tok, l: Local)
    requires Inv(cfg, t) && t.top.state == Number && t.top.field == None
    requires r != [] && IsNumberChar(r[0]) && t.pb == [] && !t.isDouble && loc.caseLen == 0
    ensures Reaches(cfg, Run(cfg, r, t, loc), t.below, NumberToken(cfg, r, t.stPos), u, l)
  {
    hide Run, NumberToken, View, Step;
    var n := NumberLength(r);
    NumberAdvance(cfg, r, 0, n, t, loc);
    assert r[0..] == r;
    u, l := NumberStop(cfg, r, n, t.(pb := r[..n], isDouble := HasPoint(r[..n])), loc.(caseLen := n));
  }

  // ---------------------------------------------------------------- values

  predicate FirstOfWord(c: byte) {
    c in {UPPER_I, LOWER_I, UPPER_N, LOWER_N, UPPER_T, LOWER_T, UPPER_F, LOWER_F}
  }

  /** The word state that a first letter starts. */
  function WordStart(c: byte): State {
    if c == UPPER_I || c == LOWER_I then InfinityWord
    else if c == UPPER_N || c == LOWER_N then NullWord
    else BooleanWord
  }

  lemma WordEntry(cfg: Config, r: Text, t: Tok, loc: Local, pos: nat)
    requires Inv(cfg, t) && r != [] && t.top == FRESH.(state := Start) && FirstOfWord(r[0])
    ensures Step(cfg, r, t, loc) == Go(0, BeginWord(t, WordStart(r[0])), loc)
    ensures WordsOf(WordStart(r[0]), []).Some?
    ensures var w := WordsOf(WordStart(r[0]), []).value;
            && w.first != [] && w.second != []
            && Scalar(cfg, r, pos) == Word(cfg.strict, r, w.first, w.v1, w.second, w.v2, w.e)
  {
    hide Word;
  }

  /** A word, at its first letter. */
  lemma WordScalarRun(cfg: Config, r: Text, t: Tok, loc: Local) returns (u: Tok, l: Local)
    requires Inv(cfg, t) && r != [] && t.top == FRESH.(state := Start) && FirstOfWord(r[0])
    ensures Reaches(cfg, Run(cfg, r, t, loc), t.below, Scalar(cfg, r, t.stPos), u, l)
  {
    hide Run, Word, Scalar, Step, View, WordsOf;
    WordEntry(cfg, r, t, loc, t.stPos);
    var v, k, rest := OneStep(cfg, r, t, loc);
    var w := WordsOf(v.top.state, []).value;
    assert [] + r[..0] == [];
    u := WordRun(cfg, r, v, k, [], w);
    l := k;
  }

  /** A string, at its opening quote. */
  lemma StringScalarRun(cfg: Config, r: Text, t: Tok, loc: Local) returns (u: Tok, l: Local)
    requires Inv(cfg, t) && r != [] && t.top == FRESH.(state := Start)
    requires r[0] == QUOTE || (r[0] == APOSTROPHE && !cfg.strict)
    ensures Reaches(cfg, Run(cfg, r, t, loc), t.below, Scalar(cfg, r, t.stPos), u, l)
  {
    hide Run, StringBody;
    var v, k, rest := OneStep(cfg, r, t, loc);
    u, l := StringRun(cfg, rest, v, k);
    match StringBody(rest, r[0], [], t.stPos)
    case Closed(text, after, pos) =>
      var x, y, z := OneStep(cfg, [r[0]] + after, u, l);
      assert z == after;
      u, l := x, y;
    case BodyHalt(_) =>
  }

  /** A scalar, at its first byte. */
  lemma ScalarRun(cfg: Config, r: Text, t: Tok, loc: Local) returns (u: Tok, l: Local)
    requires Inv(cfg, t) && r != [] && t.top == FRESH.(state := Start)
    requires r[0] != LBRACE && r[0] != LBRACKET
    ensures Reaches(cfg, Run(cfg, r, t, loc), t.below, Scalar(cfg, r, t.stPos), u, l)
  {
    hide Run, Word, StringBody, NumberToken;
    if FirstOfWord(r[0]) {
      u, l := WordScalarRun(cfg, r, t, loc);
    } else if r[0] == QUOTE || (r[0] == APOSTROPHE && !cfg.strict) {
      u, l := StringScalarRun(cfg, r, t, loc);
    } else if IsDigit(r[0]) || r[0] == MINUS {
      var v, k, rest := OneStep(cfg, r, t, loc);
      u, l := NumberRun(cfg, r, v, k);
    } else {
      u, l := t, loc;
      OutStep(cfg, r, t, loc);
    }
  }

  /** An opening brace or bracket. */
  lemma OpenStep(cfg: Config, r: Text, t: Tok, loc: Local, saved: State, empty: Json) returns (u: Tok)
    requires Inv(cfg, t) && r != [] && t.top.state == Start
    requires (r[0] == LBRACE && saved == FieldStart && empty == Obj([]))
             || (r[0] == LBRACKET && saved == Array && empty == Arr([]))
    ensures u == t.(top := Level(Eatws, saved, empty, t.top.field)) && Inv(cfg, u)
    ensures Run(cfg, r, t, loc) == Run(cfg, r[1..], u, loc)
  {
    hide Run;
    var v, k, rest := OneStep(cfg, r, t, loc);
    u := v;
  }

  /** A value, from a reset level. */
  lemma {:induction false} ValueSimulates(cfg: Config, s: Text, t: Tok, loc: Local) returns (u: Tok, l: Local)
    requires Inv(cfg, t) && t.top == FRESH
    ensures Reaches(cfg, Run(cfg, s, t, loc), t.below, Value(cfg, s, |t.below|, t.stPos), u, l)
    decreases |s|, 1
  {
    hide Run, Scalar, View, Step, Elements, Members;
    l := loc;
    u := TokenRun(cfg, s, t, loc);
    match NextToken(cfg.strict, s)
    case NextHalt(_) =>
    case At(r) =>
      if r[0] == LBRACE {
        u := OpenStep(cfg, r, u, loc, FieldStart, Obj([]));
        u, l := MembersSimulate(cfg, r[1..], u, loc);
      } else if r[0] == LBRACKET {
        u := OpenStep(cfg, r, u, loc, Array, Arr([]));
        u, l := ElementsSimulate(cfg, r[1..], u, loc);
      } else {
        u, l := ScalarRun(cfg, r, u, loc);
      }
  }

  /** A run `o` has read the child `p` of the top of `below` and is back with the value in `obj`. */
  ghost predicate Returns(cfg: Config, o: Outcome, below: seq<Level>, p: Parsed, u: Tok, l: Local)
    requires below != []
  {
    match p
    case Halt(v) => View(o) == v
    case Ok(v, rest, pos) =>
      match AfterValue(cfg.strict, rest, |below|, v)
      case NextHalt(h) => View(o) == h
      case At(after) =>
        var d := |below| - 1;
        && Inv(cfg, u) && u.below == below[..d] && u.top == below[d] && u.stPos == pos
        && l.obj == v && o == Run(cfg, after, u, l)
  }

  /** A value one level down, and the token after it. */
  lemma {:induction false} ChildSimulates(cfg: Config, r: Text, t: Tok, loc: Local) returns (u: Tok, l: Local)
    requires Inv(cfg, t) && t.top == FRESH && t.below != []
    ensures Returns(cfg, Run(cfg, r, t, loc), t.below, Value(cfg, r, |t.below|, t.stPos), u, l)
    decreases |r|, 2
  {
    hide Run, View, Value, AfterValue;
    u, l := ValueSimulates(cfg, r, t, loc);
    match Value(cfg, r, |t.below|, t.stPos)
    case Halt(_) =>
    case Ok(v, r1, _) =>
      u := AfterRun(cfg, r1, u, l);
      match AfterValue(cfg.strict, r1, |t.below|, v)
      case NextHalt(_) =>
      case At(r2) =>
        var w, k, rest := OneStep(cfg, r2, u, l);
        u, l := w, k;
  }

  /** array_add, and on to the separator. */
  lemma AddElement(cfg: Config, r: Text, t: Tok, loc: Local) returns (u: Tok)
    requires Inv(cfg, t) && t.top.state == ArrayAdd
    requires r != [] && !IsSpace(r[0]) && (r[0] == SLASH ==> cfg.strict)
    ensures t.top.current.Arr?
    ensures u == t.(top := Level(ArraySep, ArraySep, Arr(t.top.current.elems + [loc.obj]), t.top.field))
    ensures Inv(cfg, u) && Run(cfg, r, t, loc) == Run(cfg, r, u, loc)
  {
    hide Run;
    var v, k, rest := OneStep(cfg, r, t, loc);
    var w, l, tail := OneStep(cfg, r, v, k);
    u := w;
  }

  /** object_value_add, and on to the separator. */
  lemma AddMember(cfg: Config, r: Text, t: Tok, loc: Local) returns (u: Tok)
    requires Inv(cfg, t) && t.top.state == ObjectValueAdd
    requires r != [] && !IsSpace(r[0]) && (r[0] == SLASH ==> cfg.strict)
    ensures t.top.current.Obj? && t.top.field.Some?
    ensures var fields := ObjectAdd(t.top.current.fields, t.top.field.value, loc.obj);
            u == t.(top := Level(ObjectSep, ObjectSep, Obj(fields), None))
    ensures Inv(cfg, u) && Run(cfg, r, t, loc) == Run(cfg, r, u, loc)
  {
    hide Run, ObjectAdd;
    var v, k, rest := OneStep(cfg, r, t, loc);
    var w, l, tail := OneStep(cfg, r, v, k);
    u := w;
  }

  /** A separator state: the closer, a comma or the error. */
  lemma SepRun(cfg: Config, r: Text, t: Tok, loc: Local) returns (u: Tok)
    requires Inv(cfg, t) && r != []
    requires t.top.state == ArraySep || t.top.state == ObjectSep
    ensures var (closer, next, e) := if t.top.state == ArraySep then (RBRACKET, ArrayAfterSep, ErrArray)
                                     else (RBRACE, FieldStartAfterSep, ErrValueSep);
            if r[0] == closer || r[0] == COMMA then
              && Inv(cfg, u) && u == Skip(t, if r[0] == closer then Finish else next)
              && Run(cfg, r, t, loc) == Run(cfg, r[1..], u, loc)
            else View(Run(cfg, r, t, loc)) == Fault(r[0], e)
  {
    hide Run;
    u := t;
    if Step(cfg, r, t, loc).Out? {
      OutStep(cfg, r, t, loc);
    } else {
      var v, k, rest := OneStep(cfg, r, t, loc);
      u := v;
    }
  }

  /** The rest of an array. */
  lemma {:induction false} ElementsSimulate(cfg: Config, s: Text, t: Tok, loc: Local) returns (u: Tok, l: Local)
    requires Inv(cfg, t) && t.top.state == Eatws && t.top.field == None && t.top.current.Arr?
    requires t.top.saved == Array || t.top.saved == ArrayAfterSep
    ensures var sep := t.top.saved == ArrayAfterSep;
            var p := Elements(cfg, s, |t.below|, t.stPos, t.top.current.elems, sep);
            Reaches(cfg, Run(cfg, s, t, loc), t.below, p, u, l)
    decreases |s|, 4
  {
    hide Run, Element, Value, NextToken;
    l := loc;
    u := TokenRun(cfg, s, t, loc);
    match NextToken(cfg.strict, s)
    case NextHalt(_) =>
    case At(r) =>
      if Step(cfg, r, u, l).Out? {
        OutStep(cfg, r, u, l);
      } else {
        var v, k, rest := OneStep(cfg, r, u, l);
        u, l := v, k;
        if r[0] != RBRACKET {
          u, l := ElementSimulates(cfg, r, v, k);
        }
      }
  }

  /** The rest of an array from the start of an element, one level down. */
  lemma {:induction false} ElementSimulates(cfg: Config, r: Text, t: Tok, loc: Local) returns (u: Tok, l: Local)
    requires Inv(cfg, t) && t.top == FRESH && t.below != []
    requires var w := t.below[|t.below| - 1]; w.state == ArrayAdd && w.field == None && w.current.Arr?
    ensures var d := |t.below| - 1;
            var p := Element(cfg, r, d, t.stPos, t.below[d].current.elems);
            Reaches(cfg, Run(cfg, r, t, loc), t.below[..d], p, u, l)
    decreases |r|, 3
  {
    hide Run, View, Step, Value, Elements, AfterValue;
    u, l := ChildSimulates(cfg, r, t, loc);
    match Value(cfg, r, |t.below|, t.stPos)
    case Halt(_) =>
    case Ok(elem, r1, _) =>
      match AfterValue(cfg.strict, r1, |t.below|, elem)
      case NextHalt(_) =>
      case At(r2) =>
        u := AddElement(cfg, r2, u, l);
        u := SepRun(cfg, r2, u, l);
        if r2[0] == COMMA {
          u, l := ElementsSimulate(cfg, r2[1..], u, l);
        }
  }

  /** A run `o` has read the field name `body` for the object `home`. */
  ghost predicate Named(cfg: Config, o: Outcome, below: seq<Level>, home: Json, body: Body, u: Tok, l: Local) {
    match body
    case Closed(key, rest, pos) =>
      && Inv(cfg, u) && u.below == below && u.top == Level(Eatws, FieldEnd, home, Some(CString(key)))
      && u.stPos == pos && o == Run(cfg, rest, u, l)
    case BodyHalt(v) => View(o) == v
  }

  /** A field name, at its opening quote. */
  lemma FieldRun(cfg: Config, r: Text, t: Tok, loc: Local) returns (u: Tok, l: Local)
    requires Inv(cfg, t) && r != [] && (r[0] == QUOTE || r[0] == APOSTROPHE)
    requires t.top.state == FieldStart || t.top.state == FieldStartAfterSep
    ensures var body := StringBody(r[1..], r[0], [], t.stPos);
            Named(cfg, Run(cfg, r, t, loc), t.below, t.top.current, body, u, l)
  {
    hide Run, StringBody, CString;
    var v, k, rest := OneStep(cfg, r, t, loc);
    u, l := StringRun(cfg, rest, v, k);
    match StringBody(rest, r[0], [], t.stPos)
    case BodyHalt(_) =>
    case Closed(key, r1, _) =>
      var x, y, z := OneStep(cfg, [r[0]] + r1, u, l);
      assert z == r1;
      u, l := x, y;
  }

  /** The rest of an object. */
  lemma {:induction false} MembersSimulate(cfg: Config, s: Text, t: Tok, loc: Local) returns (u: Tok, l: Local)
    requires Inv(cfg, t) && t.top.state == Eatws && t.top.field == None && t.top.current.Obj?
    requires t.top.saved == FieldStart || t.top.saved == FieldStartAfterSep
    ensures var sep := t.top.saved == FieldStartAfterSep;
            var p := Members(cfg, s, |t.below|, t.stPos, t.top.current.fields, sep);
            Reaches(cfg, Run(cfg, s, t, loc), t.below, p, u, l)
    decreases |s|, 5
  {
    hide Run, Colon, StringBody, NextToken;
    l := loc;
    u := TokenRun(cfg, s, t, loc);
    match NextToken(cfg.strict, s)
    case NextHalt(_) =>
    case At(r) =>
      if r[0] == QUOTE || r[0] == APOSTROPHE {
        u, l := FieldRun(cfg, r, u, loc);
        match StringBody(r[1..], r[0], [], t.stPos)
        case BodyHalt(_) =>
        case Closed(key, r1, _) => u, l := ColonSimulates(cfg, r1, u, l);
      } else if Step(cfg, r, u, l).Out? {
        OutStep(cfg, r, u, l);
      } else {
        var v, k, rest := OneStep(cfg, r, u, l);
        u, l := v, k;
      }
  }

  /** A run `o` has read the colon of a member, or has failed for want of one. */
  ghost predicate PastColon(cfg: Config, o: Outcome, t: Tok, next: Next, u: Tok, l: Local)
    requires next.At? ==> next.rest != []
  {
    match next
    case NextHalt(v) => View(o) == v
    case At(rest) =>
      if rest[0] != COLON then View(o) == Fault(rest[0], ErrKeySep)
      else u == Skip(t, ObjectValue).(pb := u.pb) && Inv(cfg, u) && o == Run(cfg, rest[1..], u, l)
  }

  /** The colon of a member, and on to the gap before its value. */
  lemma ColonStep(cfg: Config, s: Text, t: Tok, loc: Local) returns (u: Tok)
    requires Inv(cfg, t) && t.top.state == Eatws && t.top.saved == FieldEnd
    ensures PastColon(cfg, Run(cfg, s, t, loc), t, NextToken(cfg.strict, s), u, loc)
  {
    hide Run;
    u := TokenRun(cfg, s, t, loc);
    match NextToken(cfg.strict, s)
    case NextHalt(_) =>
    case At(r) =>
      if r[0] != COLON {
        OutStep(cfg, r, u, loc);
      } else {
        var v, k, rest := OneStep(cfg, r, u, loc);
        u := v;
      }
  }

  /** A run `o` has gone down to the level of a member's value, or has met the depth limit. */
  ghost predicate Descends(cfg: Config, o: Outcome, t: Tok, next: Next, u: Tok, l: Local)
    requires next.At? ==> next.rest != []
  {
    match next
    case NextHalt(v) => View(o) == v
    case At(rest) =>
      if |t.below| >= cfg.maxDepth - 1 then View(o) == Fault(rest[0], ErrDepth)
      else
        && Inv(cfg, u) && u.top == FRESH && u.stPos == t.stPos
        && u.below == t.below + [t.top.(state := ObjectValueAdd, saved := ObjectValue)]
        && o == Run(cfg, rest, u, l)
  }

  /** The gap before a member's value, and down to the level of the value. */
  lemma DownStep(cfg: Config, s: Text, t: Tok, loc: Local) returns (u: Tok)
    requires Inv(cfg, t) && t.top.state == Eatws && t.top.saved == ObjectValue
    ensures Descends(cfg, Run(cfg, s, t, loc), t, NextToken(cfg.strict, s), u, loc)
  {
    hide Run;
    u := TokenRun(cfg, s, t, loc);
    match NextToken(cfg.strict, s)
    case NextHalt(_) =>
    case At(r) =>
      if |t.below| >= cfg.maxDepth - 1 {
        OutStep(cfg, r, u, loc);
      } else {
        var v, k, rest := OneStep(cfg, r, u, loc);
        u := v;
      }
  }

  /** The colon and the rest of an object. */
  lemma {:induction false} ColonSimulates(cfg: Config, s: Text, t: Tok, loc: Local) returns (u: Tok, l: Local)
    requires Inv(cfg, t) && t.top.state == Eatws && t.top.saved == FieldEnd
    requires t.top.current.Obj? && t.top.field.Some?
    ensures var p := Colon(cfg, s, |t.below|, t.stPos, t.top.current.fields, t.top.field.value);
            Reaches(cfg, Run(cfg, s, t, loc), t.below, p, u, l)
    decreases |s|, 4
  {
    hide Run, Member, View, Step, NextToken, Inv, TopOk, Waits;
    l := loc;
    u := ColonStep(cfg, s, t, loc);
    match NextToken(cfg.strict, s)
    case NextHalt(_) =>
    case At(r) =>
      if r[0] == COLON {
        u := DownStep(cfg, r[1..], u, loc);
        match NextToken(cfg.strict, r[1..])
        case NextHalt(_) =>
        case At(r1) =>
          if |t.below| < cfg.maxDepth - 1 {
            assert u.below[..|t.below|] == t.below;
            u, l := MemberSimulates(cfg, r1, u, l);
          }
      }
  }

  /** The rest of an object from the start of a member's value, one level down. */
  lemma {:induction false} MemberSimulates(cfg: Config, r: Text, t: Tok, loc: Local) returns (u: Tok, l: Local)
    requires Inv(cfg, t) && t.top == FRESH && t.below != []
    requires var w := t.below[|t.below| - 1]; w.state == ObjectValueAdd && w.field.Some? && w.current.Obj?
    ensures var d := |t.below| - 1;
            var p := Member(cfg, r, d, t.stPos, t.below[d].current.fields, t.below[d].field.value);
            Reaches(cfg, Run(cfg, r, t, loc), t.below[..d], p, u, l)
    decreases |r|, 3
  {
    hide Run, View, Step, Value, Members, ObjectAdd, AfterValue;
    u, l := ChildSimulates(cfg, r, t, loc);
    match Value(cfg, r, |t.below|, t.stPos)
    case Halt(_) =>
    case Ok(val, r1, _) =>
      match AfterValue(cfg.strict, r1, |t.below|, val)
      case NextHalt(_) =>
      case At(r2) =>
        u := AddMember(cfg, r2, u, l);
        u := SepRun(cfg, r2, u, l);
        if r2[0] == COMMA {
          u, l := MembersSimulate(cfg, r2[1..], u, l);
        }
  }

  /**
   The tokener refines the grammar: for every input, mode and depth limit, and whatever the scratch
   fields hold, one call from a reset tokener has the value, the error and the number of bytes
   consumed that recursive descent gives.
   */
  lemma CallIsDocument(cfg: Config, s: Text, t: Tok)
    requires cfg.maxDepth > 0
    ensures View(Call(cfg, s, Reset(t))) == Document(cfg, s, t.stPos)
  {
    hide Value, Run;
    var r := Reset(t);
    var u, l := ValueSimulates(cfg, s, r, NO_LOCALS);
    match Value(cfg, s, 0, t.stPos)
    case Halt(_) =>
    case Ok(v, rest, _) =>
      var w := AfterRun(cfg, rest, u, l);
      match AfterValue(cfg.strict, rest, 0, v)
      case NextHalt(_) =>
      case At(tail) => OutStep(cfg, tail, w, l);
  }
}

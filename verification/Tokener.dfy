/**
 The json_tokener structure and json_tokener_parse_ex, updated in place: a fixed stack of levels,
 a depth, the scratch fields, and inner loops that collect whole tokens.
 */
module JsonTokener {
  import opened Bytes
  import opened Json
  import opened Int64
  import opened Unicode
  import opened Machine
  import opened Reference
  import opened Simulation
  import opened Steps

  const INT32_MAX_LENGTH: nat := 0x7FFF_FFFF
  const DEFAULT_DEPTH: nat := 32

  // How a case of the switch ends: `goto redo_char`, `break`, or `goto out`.
  datatype Ctl = Redo | Break | GotoOut

  /** The bytes a call can reach: `len` of them, or the C string with its NUL when len is -1. */
  function Input(str: Text, len: int): Text
    requires 0 <= len <= |str| || (len == -1 && NUL in str)
  {
    if len == -1 then CString(str) + [NUL] else str[..len]
  }

  /** What is left to compute when a case ends with `ctl` at the start of `rest`. */
  ghost function Remainder(cfg: Config, ctl: Ctl, rest: Text, c: byte, t: Tok, e: Error, loc: Local): Outcome
    requires Inv(cfg, t)
    requires ctl != GotoOut ==> rest != []
  {
    match ctl
    case Redo => Run(cfg, rest, t, loc)
    case Break => if rest[0] == NUL then Final(cfg, NUL, t, NoError, |rest| - 1) else Run(cfg, rest[1..], t, loc)
    case GotoOut =>
      if e == ErrContinue && c != NUL && t.top.state != Finish then More(t) else Final(cfg, c, t, e, |rest|)
  }

  /** The locals of the number and escape cases start afresh with each dispatch. */
  predicate Settled(l: Level, loc: Local) {
    (l.state == Number ==> loc.caseLen == 0) && (l.state == EscapeUnicode ==> loc.hi == 0)
  }

  /** The states whose case has an inner loop. */
  predicate Loops(s: State) {
    match s
    case Eatws | Comment | CommentEol | InString | InField | Number | EscapeUnicode => true
    case _ => false
  }

  /** Every level up to the top one reset, as after a value. */
  ghost function Cleared(t: Tok): Tok {
    t.(below := seq(|t.below|, _ => FRESH), top := FRESH)
  }

  lemma FreshInv(cfg: Config, t: Tok)
    requires cfg.maxDepth > 0
    ensures t.below == [] && t.top == FRESH ==> Inv(cfg, t)
  {
  }

  class Tokener {
    const maxDepth: nat
    const readable: Text -> bool
    const stack: array<Level>
    var depth: nat
    var pb: Text
    var isDouble: bool
    var stPos: nat
    var ucs: nat
    var quote: byte
    var charOffset: nat
    var err: Error
    var strict: bool

    ghost predicate Valid()
      reads this
    {
      stack.Length == maxDepth && depth < maxDepth
    }

    ghost function Cfg(): Config
      reads this
    {
      Config(strict, maxDepth, readable)
    }

    /** The tokener as the step machine sees it. */
    ghost function Abs(): Tok
      requires Valid()
      reads this, stack
    {
      Tok(stack[..depth], stack[depth], pb, isDouble, stPos, ucs, quote)
    }

    /** The stack invariant. */
    ghost predicate Ready()
      reads this, stack
    {
      Valid() && Inv(Cfg(), Abs())
    }

    /** The stack invariant between two calls. */
    ghost predicate Resting()
      reads this, stack
    {
      Ready() && stack[depth].state != Finish
    }

    constructor (max: nat, readable: Text -> bool)
      requires max > 0
      ensures Resting() && Abs() == Reset(Abs()) && stPos == 0
      ensures maxDepth == max && this.readable == readable && !strict && err == NoError && fresh(stack)
    {
      maxDepth := max;
      this.readable := readable;
      stack := new Level[max](_ => FRESH);
      depth, pb, isDouble, stPos, ucs, quote := 0, [], false, 0, 0, 0;
      charOffset, err, strict := 0, NoError, false;
    }

    /** json_tokener_reset_level on the levels from the top one down to the first. */
    method ResetLevels()
      requires Valid()
      modifies stack
      ensures forall i :: 0 <= i <= depth ==> stack[i] == FRESH
      ensures forall i :: depth < i < stack.Length ==> stack[i] == old(stack[i])
    {
      var i: int := depth;
      while i >= 0
        invariant -1 <= i <= depth
        invariant forall k :: i < k <= depth ==> stack[k] == FRESH
        invariant forall k :: depth < k < stack.Length ==> stack[k] == old(stack[k])
      {
        stack[i] := FRESH;
        i := i - 1;
      }
    }

    /** json_tokener_reset: usable again, whatever error came before. */
    method ResetAll()
      requires Valid()
      modifies this`depth, this`err, stack
      ensures Resting() && Abs() == Reset(old(Abs())) && err == NoError
    {
      ResetLevels();
      depth := 0;
      err := NoError;
    }

    method SetTop(l: Level)
      requires Valid()
      modifies stack
      ensures Abs() == old(Abs()).(top := l)
    {
      stack[depth] := l;
    }

    /** depth++ and a reset level. */
    method Descend()
      requires Valid() && depth + 1 < maxDepth
      modifies this`depth, stack
      ensures Valid() && depth == old(depth) + 1
      ensures Abs() == old(Abs()).(below := old(Abs()).below + [old(Abs()).top], top := FRESH)
    {
      depth := depth + 1;
      stack[depth] := FRESH;
    }

    // ------------------------------------------------------------ single steps

    /** What a case without an inner loop does: one step of the machine at the current byte. */
    ghost predicate Stepped(m: Move, ctl: Ctl, loc: Local)
      requires Valid()
      reads this, stack
    {
      match ctl
      case Redo => m == Go(0, Abs(), loc)
      case Break => m == Go(1, Abs(), loc)
      case GotoOut => m == Out(Abs(), err)
    }

    /** A value is there: spaces, then the finish state. */
    method Finished(v: Json)
      requires Valid()
      modifies stack
      ensures Valid() && Abs() == Complete(old(Abs()), v)
    {
      SetTop(stack[depth].(current := v, saved := Finish, state := Eatws));
    }

    /** A word state with an empty buffer. */
    method StartWord(state: State)
      requires Valid()
      modifies this`pb, this`stPos, stack
      ensures Valid() && Abs() == BeginWord(old(Abs()), state)
    {
      SetTop(stack[depth].(state := state));
      pb, stPos := [], 0;
    }

    method CaseStart(c: byte, ghost s: Text, ghost loc: Local) returns (ctl: Ctl, ghost k: Local)
      requires Ready() && stack[depth].state == Start && s != [] && s[0] == c && err == NoError
      modifies this`pb, this`isDouble, this`stPos, this`quote, this`err, stack
      ensures Valid() && Stepped(Step(Cfg(), s, old(Abs()), loc), ctl, k) && k.obj == loc.obj
      ensures ctl != GotoOut ==> err == NoError && Settled(stack[depth], k)
    {
      hide Step, Inv;
      StartIs(Cfg(), s, Abs(), loc);
      ctl, k := Redo, loc;
      var top := stack[depth];
      if c == LBRACE {
        SetTop(top.(state := Eatws, saved := FieldStart, current := Obj([])));
        ctl := Break;
      } else if c == LBRACKET {
        SetTop(top.(state := Eatws, saved := Array, current := Arr([])));
        ctl := Break;
      } else if c == UPPER_I || c == LOWER_I {
        StartWord(InfinityWord);
      } else if c == UPPER_N || c == LOWER_N {
        StartWord(NullWord);
      } else if c == APOSTROPHE && strict {
        err := ErrUnexpected;
        ctl := GotoOut;
      } else if c == APOSTROPHE || c == QUOTE {
        SetTop(top.(state := InString));
        pb, quote := [], c;
        ctl := Break;
      } else if c == UPPER_T || c == LOWER_T || c == UPPER_F || c == LOWER_F {
        StartWord(BooleanWord);
      } else if IsDigit(c) || c == MINUS {
        SetTop(top.(state := Number));
        pb, isDouble := [], false;
        k := loc.(caseLen := 0);
      } else {
        err := ErrUnexpected;
        ctl := GotoOut;
      }
    }

    method CaseFinish(c: byte, keep: Json, ghost s: Text, ghost loc: Local)
      returns (ctl: Ctl, obj: Json, ghost k: Local)
      requires Ready() && stack[depth].state == Finish && s != [] && s[0] == c && err == NoError && keep == loc.obj
      modifies this`depth, stack
      ensures Valid() && Stepped(Step(Cfg(), s, old(Abs()), loc), ctl, k) && k.obj == obj
      ensures ctl != GotoOut ==> err == NoError && Settled(stack[depth], k)
    {
      ctl, k, obj := Redo, loc, keep;
      if depth == 0 {
        ctl := GotoOut;
      } else {
        obj := stack[depth].current;
        k := loc.(obj := obj);
        stack[depth] := FRESH;
        depth := depth - 1;
        assert stack[..depth] == old(stack[..depth])[..depth];
      }
    }

    method CaseInfinity(c: byte, ghost s: Text, ghost loc: Local) returns (ctl: Ctl, ghost k: Local)
      requires Ready() && stack[depth].state == InfinityWord && s != [] && s[0] == c && err == NoError
      modifies this`pb, this`stPos, this`err, stack
      ensures Valid() && Stepped(Step(Cfg(), s, old(Abs()), loc), ctl, k) && k.obj == loc.obj
      ensures ctl != GotoOut ==> err == NoError && Settled(stack[depth], k)
    {
      hide Step, Inv, SamePrefix;
      WordIs(Cfg(), s, Abs(), loc);
      ctl, k := Break, loc;
      pb := pb + [c];
      var size := Min(stPos + 1, |INFINITY_WORD|);
      var infbuf := pb;
      var isNegative := false;
      if infbuf[0] == MINUS {
        infbuf := infbuf[1..];
        isNegative := true;
      }
      if SamePrefix(strict, INFINITY_WORD, infbuf, size) {
        if stPos == |INFINITY_WORD| {
          Finished(Infinite(isNegative));
          ctl := Redo;
          return;
        }
      } else {
        err := ErrUnexpected;
        ctl := GotoOut;
        return;
      }
      stPos := stPos + 1;
    }

    method CaseNull(c: byte, ghost s: Text, ghost loc: Local) returns (ctl: Ctl, ghost k: Local)
      requires Ready() && stack[depth].state == NullWord && s != [] && s[0] == c && err == NoError
      modifies this`pb, this`stPos, this`err, stack
      ensures Valid() && Stepped(Step(Cfg(), s, old(Abs()), loc), ctl, k) && k.obj == loc.obj
      ensures ctl != GotoOut ==> err == NoError && Settled(stack[depth], k)
    {
      hide SamePrefix;
      ctl, k := Break, loc;
      pb := pb + [c];
      var size1 := Min(stPos + 1, |NULL_WORD|);
      var size2 := Min(stPos + 1, |NAN_WORD|);
      if SamePrefix(strict, NULL_WORD, pb, size1) {
        if stPos == |NULL_WORD| {
          Finished(Null);
          ctl := Redo;
          return;
        }
      } else if SamePrefix(strict, NAN_WORD, pb, size2) {
        if stPos == |NAN_WORD| {
          Finished(NotANumber);
          ctl := Redo;
          return;
        }
      } else {
        err := ErrNull;
        ctl := GotoOut;
        return;
      }
      stPos := stPos + 1;
    }

    method CaseBoolean(c: byte, ghost s: Text, ghost loc: Local) returns (ctl: Ctl, ghost k: Local)
      requires Ready() && stack[depth].state == BooleanWord && s != [] && s[0] == c && err == NoError
      modifies this`pb, this`stPos, this`err, stack
      ensures Valid() && Stepped(Step(Cfg(), s, old(Abs()), loc), ctl, k) && k.obj == loc.obj
      ensures ctl != GotoOut ==> err == NoError && Settled(stack[depth], k)
    {
      hide SamePrefix;
      ctl, k := Break, loc;
      pb := pb + [c];
      var size1 := Min(stPos + 1, |TRUE_WORD|);
      var size2 := Min(stPos + 1, |FALSE_WORD|);
      if SamePrefix(strict, TRUE_WORD, pb, size1) {
        if stPos == |TRUE_WORD| {
          Finished(Bool(true));
          ctl := Redo;
          return;
        }
      } else if SamePrefix(strict, FALSE_WORD, pb, size2) {
        if stPos == |FALSE_WORD| {
          Finished(Bool(false));
          ctl := Redo;
          return;
        }
      } else {
        err := ErrBoolean;
        ctl := GotoOut;
        return;
      }
      stPos := stPos + 1;
    }

    method CaseCommentStart(c: byte, ghost s: Text, ghost loc: Local) returns (ctl: Ctl, ghost k: Local)
      requires Ready() && stack[depth].state == CommentStart && s != [] && s[0] == c && err == NoError
      modifies this`pb, this`err, stack
      ensures Valid() && Stepped(Step(Cfg(), s, old(Abs()), loc), ctl, k) && k.obj == loc.obj
      ensures ctl != GotoOut ==> err == NoError && Settled(stack[depth], k)
    {
      ctl, k := Break, loc;
      var top := stack[depth];
      if c == STAR {
        SetTop(top.(state := Comment));
      } else if c == SLASH {
        SetTop(top.(state := CommentEol));
      } else {
        err := ErrComment;
        ctl := GotoOut;
        return;
      }
      pb := pb + [c];
    }

    method CaseCommentEnd(c: byte, ghost s: Text, ghost loc: Local) returns (ctl: Ctl, ghost k: Local)
      requires Ready() && stack[depth].state == CommentEnd && s != [] && s[0] == c && err == NoError
      modifies this`pb, stack
      ensures Valid() && Stepped(Step(Cfg(), s, old(Abs()), loc), ctl, k) && k.obj == loc.obj
      ensures ctl != GotoOut ==> err == NoError && Settled(stack[depth], k)
    {
      ctl, k := Break, loc;
      var top := stack[depth];
      pb := pb + [c];
      if c == SLASH {
        SetTop(top.(state := Eatws));
      } else {
        SetTop(top.(state := Comment));
      }
    }

    method CaseEscape(c: byte, ghost s: Text, ghost loc: Local) returns (ctl: Ctl, ghost k: Local)
      requires Ready() && stack[depth].state == StringEscape && s != [] && s[0] == c && err == NoError
      modifies this`pb, this`ucs, this`stPos, this`err, stack
      ensures Valid() && Stepped(Step(Cfg(), s, old(Abs()), loc), ctl, k) && k.obj == loc.obj
      ensures ctl != GotoOut ==> err == NoError && Settled(stack[depth], k)
    {
      hide Step, Inv;
      TextIs(Cfg(), s, Abs(), loc);
      ctl, k := Break, loc;
      var top := stack[depth];
      if c == QUOTE || c == BACKSLASH || c == SLASH {
        pb := pb + [c];
        SetTop(top.(state := top.saved));
      } else if c == LOWER_B || c == LOWER_N || c == LOWER_R || c == LOWER_T || c == LOWER_F {
        if c == LOWER_B {
          pb := pb + [BACKSPACE];
        } else if c == LOWER_N {
          pb := pb + [LF];
        } else if c == LOWER_R {
          pb := pb + [CR];
        } else if c == LOWER_T {
          pb := pb + [TAB];
        } else {
          pb := pb + [FORM_FEED];
        }
        SetTop(top.(state := top.saved));
      } else if c == LOWER_U {
        ucs, stPos := 0, 0;
        SetTop(top.(state := EscapeUnicode));
        k := loc.(hi := 0);
      } else {
        err := ErrString;
        ctl := GotoOut;
      }
    }

    method CaseArray(c: byte, ghost s: Text, ghost loc: Local) returns (ctl: Ctl, ghost k: Local)
      requires Ready() && (stack[depth].state == Array || stack[depth].state == ArrayAfterSep)
      requires s != [] && s[0] == c && err == NoError
      modifies this`depth, this`err, stack
      ensures Valid() && Stepped(Step(Cfg(), s, old(Abs()), loc), ctl, k) && k.obj == loc.obj
      ensures ctl != GotoOut ==> err == NoError && Settled(stack[depth], k)
    {
      ctl, k := Break, loc;
      var top := stack[depth];
      if c == RBRACKET {
        if top.state == ArrayAfterSep && strict {
          err := ErrUnexpected;
          ctl := GotoOut;
          return;
        }
        SetTop(top.(saved := Finish, state := Eatws));
      } else {
        if depth >= maxDepth - 1 {
          err := ErrDepth;
          ctl := GotoOut;
          return;
        }
        SetTop(top.(state := ArrayAdd));
        Descend();
        ctl := Redo;
      }
    }

    method CaseArrayAdd(c: byte, obj: Json, ghost s: Text, ghost loc: Local) returns (ctl: Ctl, ghost k: Local)
      requires Ready() && stack[depth].state == ArrayAdd && s != [] && s[0] == c && err == NoError && obj == loc.obj
      modifies stack
      ensures Valid() && Stepped(Step(Cfg(), s, old(Abs()), loc), ctl, k) && k.obj == loc.obj
      ensures ctl != GotoOut ==> err == NoError && Settled(stack[depth], k)
    {
      k := loc;
      var top := stack[depth];
      SetTop(top.(current := Arr(top.current.elems + [obj]), saved := ArraySep, state := Eatws));
      ctl := Redo;
    }

    method CaseArraySep(c: byte, ghost s: Text, ghost loc: Local) returns (ctl: Ctl, ghost k: Local)
      requires Ready() && stack[depth].state == ArraySep && s != [] && s[0] == c && err == NoError
      modifies this`err, stack
      ensures Valid() && Stepped(Step(Cfg(), s, old(Abs()), loc), ctl, k) && k.obj == loc.obj
      ensures ctl != GotoOut ==> err == NoError && Settled(stack[depth], k)
    {
      ctl, k := Break, loc;
      var top := stack[depth];
      if c == RBRACKET {
        SetTop(top.(saved := Finish, state := Eatws));
      } else if c == COMMA {
        SetTop(top.(saved := ArrayAfterSep, state := Eatws));
      } else {
        err := ErrArray;
        ctl := GotoOut;
      }
    }

    method CaseFieldStart(c: byte, ghost s: Text, ghost loc: Local) returns (ctl: Ctl, ghost k: Local)
      requires Ready() && (stack[depth].state == FieldStart || stack[depth].state == FieldStartAfterSep)
      requires s != [] && s[0] == c && err == NoError
      modifies this`pb, this`quote, this`err, stack
      ensures Valid() && Stepped(Step(Cfg(), s, old(Abs()), loc), ctl, k) && k.obj == loc.obj
      ensures ctl != GotoOut ==> err == NoError && Settled(stack[depth], k)
    {
      ctl, k := Break, loc;
      var top := stack[depth];
      if c == RBRACE {
        if top.state == FieldStartAfterSep && strict {
          err := ErrUnexpected;
          ctl := GotoOut;
          return;
        }
        SetTop(top.(saved := Finish, state := Eatws));
      } else if c == QUOTE || c == APOSTROPHE {
        quote, pb := c, [];
        SetTop(top.(state := InField));
      } else {
        err := ErrKeyName;
        ctl := GotoOut;
      }
    }

    method CaseFieldEnd(c: byte, ghost s: Text, ghost loc: Local) returns (ctl: Ctl, ghost k: Local)
      requires Ready() && stack[depth].state == FieldEnd && s != [] && s[0] == c && err == NoError
      modifies this`err, stack
      ensures Valid() && Stepped(Step(Cfg(), s, old(Abs()), loc), ctl, k) && k.obj == loc.obj
      ensures ctl != GotoOut ==> err == NoError && Settled(stack[depth], k)
    {
      ctl, k := Break, loc;
      var top := stack[depth];
      if c == COLON {
        SetTop(top.(saved := ObjectValue, state := Eatws));
      } else {
        err := ErrKeySep;
        ctl := GotoOut;
      }
    }

    method CaseObjectValue(c: byte, ghost s: Text, ghost loc: Local) returns (ctl: Ctl, ghost k: Local)
      requires Ready() && stack[depth].state == ObjectValue && s != [] && s[0] == c && err == NoError
      modifies this`depth, this`err, stack
      ensures Valid() && Stepped(Step(Cfg(), s, old(Abs()), loc), ctl, k) && k.obj == loc.obj
      ensures ctl != GotoOut ==> err == NoError && Settled(stack[depth], k)
    {
      ctl, k := Redo, loc;
      var top := stack[depth];
      if depth >= maxDepth - 1 {
        err := ErrDepth;
        ctl := GotoOut;
        return;
      }
      SetTop(top.(state := ObjectValueAdd));
      Descend();
    }

    method CaseObjectAdd(c: byte, obj: Json, ghost s: Text, ghost loc: Local) returns (ctl: Ctl, ghost k: Local)
      requires Ready() && stack[depth].state == ObjectValueAdd && s != [] && s[0] == c && err == NoError
      requires obj == loc.obj
      modifies stack
      ensures Valid() && Stepped(Step(Cfg(), s, old(Abs()), loc), ctl, k) && k.obj == loc.obj
      ensures ctl != GotoOut ==> err == NoError && Settled(stack[depth], k)
    {
      k := loc;
      var top := stack[depth];
      var fields := ObjectAdd(top.current.fields, top.field.value, obj);
      SetTop(top.(current := Obj(fields), field := None, saved := ObjectSep, state := Eatws));
      ctl := Redo;
    }

    method CaseObjectSep(c: byte, ghost s: Text, ghost loc: Local) returns (ctl: Ctl, ghost k: Local)
      requires Ready() && stack[depth].state == ObjectSep && s != [] && s[0] == c && err == NoError
      modifies this`err, stack
      ensures Valid() && Stepped(Step(Cfg(), s, old(Abs()), loc), ctl, k) && k.obj == loc.obj
      ensures ctl != GotoOut ==> err == NoError && Settled(stack[depth], k)
    {
      ctl, k := Break, loc;
      var top := stack[depth];
      if c == RBRACE {
        SetTop(top.(saved := Finish, state := Eatws));
      } else if c == COMMA {
        SetTop(top.(saved := FieldStartAfterSep, state := Eatws));
      } else {
        err := ErrValueSep;
        ctl := GotoOut;
      }
    }

    // ------------------------------------------------------------ cases with an inner loop

    /** The cursor is on a byte of the input. */
    ghost predicate At(s: Text, c: byte)
      reads this`charOffset
    {
      charOffset < |s| && s[charOffset] == c
    }

    /** What is left to do after a case amounts to the outcome `r`. */
    ghost predicate Ends(s: Text, r: Outcome, ctl: Ctl, c: byte, loc: Local)
      reads this, stack
    {
      && Ready()
      && charOffset <= |s|
      && (ctl != GotoOut ==> At(s, c) && err == NoError && Settled(stack[depth], loc))
      && (ctl == Break ==> stack[depth].state != Finish)
      && (err == ErrContinue ==> charOffset == |s| && c != NUL && stack[depth].state != Finish)
      && Remainder(Cfg(), ctl, s[charOffset..], c, Abs(), err, loc) == r
    }

    /** A case that redoes its byte comes closer to consuming it. */
    ghost predicate Progress(ctl: Ctl, offset: nat, top: Level)
      requires Valid()
      reads this, stack
    {
      && charOffset >= offset
      && (ctl == Redo ==> charOffset > offset || Rank(stack[depth]) < Rank(top))
    }

    /** PEEK_CHAR when there is no more input. */
    method PeekAtEnd()
      requires Valid()
      modifies this`err
      ensures err == if AtEnd(Abs()).Done? then NoError else ErrContinue
    {
      err := if depth == 0 && stack[depth].state == Eatws && stack[depth].saved == Finish
             then NoError else ErrContinue;
    }

    lemma EndIsOut(c: byte, t: Tok, e: Error, loc: Local)
      requires Inv(Cfg(), t) && e == (if AtEnd(t).Done? then NoError else ErrContinue)
      requires c != NUL && t.top.state != Finish
      ensures Remainder(Cfg(), GotoOut, [], c, t, e, loc) == Run(Cfg(), [], t, loc)
    {
    }

    /** There is no more input in the middle of a case or after one. */
    method RunOut(s: Text, c: byte, ghost loc: Local)
      requires Ready() && charOffset == |s| && c != NUL && stack[depth].state != Finish
      modifies this`err
      ensures Cfg() == old(Cfg()) && Abs() == old(Abs())
      ensures Ends(s, old(Run(Cfg(), s[charOffset..], Abs(), loc)), GotoOut, c, loc)
    {
      hide Run, Inv;
      assert s[charOffset..] == [];
      PeekAtEnd();
      EndIsOut(c, Abs(), err, loc);
    }

    /** The loop over spaces. */
    method SkipBlanks(s: Text, first: byte, ghost loc: Local) returns (c: byte, ended: bool)
      requires Ready() && At(s, first) && err == NoError && stack[depth].state == Eatws
      modifies this`charOffset, this`err
      ensures Ready() && charOffset >= old(charOffset) && Abs() == old(Abs())
      ensures if ended then Ends(s, old(Run(Cfg(), s[charOffset..], Abs(), loc)), GotoOut, c, loc)
              else
                && At(s, c) && !IsSpace(c) && err == NoError
                && Run(Cfg(), s[charOffset..], Abs(), loc) == old(Run(Cfg(), s[charOffset..], Abs(), loc))
    {
      hide Run, Inv;
      c, ended := first, false;
      ghost var t := Abs();
      ghost var r := Run(Cfg(), s[charOffset..], t, loc);
      while IsSpace(c)
        invariant At(s, c) && charOffset >= old(charOffset)
        invariant Ready() && Abs() == t && err == NoError
        invariant Run(Cfg(), s[charOffset..], t, loc) == r
        decreases |s| - charOffset
      {
        BlankStep(Cfg(), s[charOffset..], t, loc);
        assert s[charOffset..][1..] == s[charOffset + 1..];
        charOffset := charOffset + 1;
        if charOffset == |s| {
          PeekAtEnd();
          assert s[charOffset..] == [];
          EndIsOut(c, t, err, loc);
          return c, true;
        }
        c := s[charOffset];
      }
    }

    lemma BlankStep(cfg: Config, s: Text, t: Tok, loc: Local)
      requires s != [] && IsSpace(s[0]) && Inv(cfg, t) && t.top.state == Eatws
      ensures Run(cfg, s, t, loc) == Run(cfg, s[1..], t, loc)
    {
      hide Run;
      var u, l, rest := OneStep(cfg, s, t, loc);
    }

    method CaseEatws(s: Text, first: byte, ghost loc: Local) returns (ctl: Ctl, c: byte, ghost k: Local)
      requires Ready() && stack[depth].state == Eatws && At(s, first) && err == NoError
      modifies this`charOffset, this`pb, this`err, stack
      ensures Ends(s, old(Run(Cfg(), s[charOffset..], Abs(), loc)), ctl, c, k) && k.obj == loc.obj
      ensures Progress(ctl, old(charOffset), old(stack[depth]))
    {
      hide Run;
      k := loc;
      var ended;
      c, ended := SkipBlanks(s, first, loc);
      if ended {
        return GotoOut, c, loc;
      }
      ghost var t := Abs();
      ghost var m := Step(Cfg(), s[charOffset..], t, loc);
      if c == SLASH && !strict {
        pb := [c];
        SetTop(stack[depth].(state := CommentStart));
        ctl := Break;
      } else {
        SetTop(stack[depth].(state := stack[depth].saved));
        ctl := Redo;
      }
      StepEnds(s, t, loc, m, ctl, Abs(), err, loc);
    }

    /** A step of the machine that goes on is a Redo or a Break. */
    lemma GoIsRemainder(s: Text, ctl: Ctl, t: Tok, loc: Local, m: Move)
      requires Valid() && charOffset < |s| && Inv(Cfg(), t)
      requires m == Step(Cfg(), s[charOffset..], t, loc)
      requires ctl != GotoOut && m.Go? && m.n == if ctl == Break then 1 else 0
      ensures Inv(Cfg(), m.tok)
      ensures Remainder(Cfg(), ctl, s[charOffset..], s[charOffset], m.tok, NoError, m.loc)
              == Run(Cfg(), s[charOffset..], t, loc)
    {
      StepKeeps(Cfg(), s[charOffset..], t, loc);
    }

    lemma OutIsRemainder(s: Text, t: Tok, loc: Local, m: Move)
      requires Valid() && charOffset < |s| && Inv(Cfg(), t)
      requires m == Step(Cfg(), s[charOffset..], t, loc)
      requires m.Out? && m.error != ErrContinue
      ensures Inv(Cfg(), m.out)
      ensures var rest := s[charOffset + Passed(s[charOffset], t)..];
              Remainder(Cfg(), GotoOut, rest, s[charOffset], m.out, m.error, loc)
              == Run(Cfg(), s[charOffset..], t, loc)
    {
      StepKeeps(Cfg(), s[charOffset..], t, loc);
    }

    /** The machine's tokener while s[start..end] is waiting to be appended. */
    ghost function Bulk(t: Tok, s: Text, start: nat, end: nat): Tok
      requires start <= end <= |s|
    {
      t.(pb := t.pb + s[start..end])
    }

    lemma BulkEmpty(t: Tok, s: Text, start: nat)
      requires start <= |s|
      ensures Bulk(t, s, start, start) == t
    {
      assert t.pb + s[start..start] == t.pb;
    }

    /** The bytes that a bulk loop passes over. */
    predicate Stays(state: State, c: byte, quote: byte) {
      match state
      case Comment => c != STAR
      case CommentEol => c != LF
      case InString => c != quote && c != BACKSLASH
      case InField => c != quote && c != BACKSLASH
      case _ => false
    }

    lemma StaysStep(cfg: Config, s: Text, t: Tok, loc: Local)
      requires s != [] && Inv(cfg, t) && Stays(t.top.state, s[0], t.quote)
      ensures Step(cfg, s, t, loc) == Go(1, t.(pb := t.pb + [s[0]]), loc)
    {
    }

    /** A bulk loop passes over one byte; a NUL ends the call. */
    lemma BulkAdvance(cfg: Config, t: Tok, s: Text, start: nat, end: nat, loc: Local)
      requires start <= end < |s| && Inv(cfg, t) && Stays(t.top.state, s[end], t.quote)
      ensures Inv(cfg, Bulk(t, s, start, end)) && Inv(cfg, Bulk(t, s, start, end + 1))
      ensures var u := Bulk(t, s, start, end + 1);
              Run(cfg, s[end..], Bulk(t, s, start, end), loc)
              == if s[end] == NUL then Final(cfg, NUL, u, NoError, |s| - end - 1) else Run(cfg, s[end + 1..], u, loc)
    {
      hide Run, Step;
      var b := Bulk(t, s, start, end);
      StaysStep(cfg, s[end..], b, loc);
      BulkSnoc(t, s, start, end);
      if s[end] == NUL {
        NulStep(cfg, s[end..], b, loc);
      } else {
        var u, l, rest := OneStep(cfg, s[end..], b, loc);
        assert rest == s[end + 1..];
      }
    }

    /** printbuf_memappend_fast(tok->pb, case_start, str - case_start) */
    method AppendPending(s: Text, start: nat)
      requires Valid() && start <= charOffset <= |s|
      modifies this`pb
      ensures Valid() && Abs() == Bulk(old(Abs()), s, start, charOffset)
      ensures stack[depth] == old(stack[depth]) && pb == old(pb) + s[start..charOffset]
    {
      pb := pb + s[start..charOffset];
    }

    lemma BulkSnoc(t: Tok, s: Text, start: nat, end: nat)
      requires start <= end < |s|
      ensures Bulk(t, s, start, end + 1) == Bulk(t, s, start, end).(pb := Bulk(t, s, start, end).pb + [s[end]])
    {
      assert s[start..end + 1] == s[start..end] + [s[end]];
      assert t.pb + s[start..end + 1] == t.pb + s[start..end] + [s[end]];
    }

    /**
     The inner loops of comments, strings and field names: they pass over bytes and append them all
     at once where they stop, which is at a byte that their state looks at, after a NUL, or at the end.
     */
    method PassOver(s: Text, first: byte, ghost loc: Local) returns (c: byte, ended: bool)
      requires Ready() && At(s, first) && err == NoError
      requires stack[depth].state in {Comment, CommentEol, InString, InField}
      modifies this`charOffset, this`pb, this`err
      ensures Ready() && charOffset >= old(charOffset)
      ensures if ended then Ends(s, old(Run(Cfg(), s[charOffset..], Abs(), loc)), GotoOut, c, loc)
              else
                && At(s, c) && !Stays(stack[depth].state, c, quote) && err == NoError
                && Run(Cfg(), s[charOffset..], Abs(), loc) == old(Run(Cfg(), s[charOffset..], Abs(), loc))
    {
      hide Run, Step;
      c, ended := first, false;
      var caseStart := charOffset;
      ghost var t := Abs();
      ghost var r := Run(Cfg(), s[charOffset..], t, loc);
      BulkEmpty(t, s, caseStart);
      while Stays(stack[depth].state, c, quote)
        invariant At(s, c) && caseStart <= charOffset
        invariant Valid() && Abs() == t && err == NoError
        invariant Inv(Cfg(), Bulk(t, s, caseStart, charOffset))
        invariant Run(Cfg(), s[charOffset..], Bulk(t, s, caseStart, charOffset), loc) == r
        decreases |s| - charOffset
      {
        BulkAdvance(Cfg(), t, s, caseStart, charOffset, loc);
        charOffset := charOffset + 1;
        if c == NUL {
          AppendPending(s, caseStart);
          return c, true;
        }
        if charOffset == |s| {
          PeekAtEnd();
          AppendPending(s, caseStart);
          assert s[charOffset..] == [];
          EndIsOut(c, Abs(), err, loc);
          return c, true;
        }
        c := s[charOffset];
      }
      AppendPending(s, caseStart);
    }

    lemma CommentStops(cfg: Config, s: Text, t: Tok, loc: Local)
      requires s != [] && Inv(cfg, t) && t.top.state == Comment && !Stays(Comment, s[0], t.quote)
      ensures Step(cfg, s, t, loc) == Go(1, In(t, CommentEnd).(pb := t.pb + [s[0]]), loc)
    {
    }

    method CaseComment(s: Text, first: byte, ghost loc: Local) returns (ctl: Ctl, c: byte, ghost k: Local)
      requires Ready() && stack[depth].state == Comment && At(s, first) && err == NoError
      modifies this`charOffset, this`pb, this`err, stack
      ensures Ends(s, old(Run(Cfg(), s[charOffset..], Abs(), loc)), ctl, c, k) && k.obj == loc.obj
      ensures Progress(ctl, old(charOffset), old(stack[depth]))
    {
      hide Run, Step;
      k := loc;
      var ended;
      c, ended := PassOver(s, first, loc);
      if ended {
        return GotoOut, c, loc;
      }
      ghost var b := Abs();
      ghost var m := Step(Cfg(), s[charOffset..], b, loc);
      CommentStops(Cfg(), s[charOffset..], b, loc);
      pb := pb + [c];
      SetTop(stack[depth].(state := CommentEnd));
      ctl := Break;
      GoIsRemainder(s, ctl, b, loc, m);
    }

    lemma CommentEolStops(cfg: Config, s: Text, t: Tok, loc: Local)
      requires s != [] && Inv(cfg, t) && t.top.state == CommentEol && !Stays(CommentEol, s[0], t.quote)
      ensures Step(cfg, s, t, loc) == Go(1, In(t, Eatws), loc)
    {
    }

    method CaseCommentEol(s: Text, first: byte, ghost loc: Local) returns (ctl: Ctl, c: byte, ghost k: Local)
      requires Ready() && stack[depth].state == CommentEol && At(s, first) && err == NoError
      modifies this`charOffset, this`pb, this`err, stack
      ensures Ends(s, old(Run(Cfg(), s[charOffset..], Abs(), loc)), ctl, c, k) && k.obj == loc.obj
      ensures Progress(ctl, old(charOffset), old(stack[depth]))
    {
      hide Run, Step;
      k := loc;
      var ended;
      c, ended := PassOver(s, first, loc);
      if ended {
        return GotoOut, c, loc;
      }
      ghost var b := Abs();
      ghost var m := Step(Cfg(), s[charOffset..], b, loc);
      CommentEolStops(Cfg(), s[charOffset..], b, loc);
      SetTop(stack[depth].(state := Eatws));
      ctl := Break;
      GoIsRemainder(s, ctl, b, loc, m);
    }

    lemma InStringStops(cfg: Config, s: Text, t: Tok, loc: Local)
      requires s != [] && Inv(cfg, t) && t.top.state == InString && !Stays(InString, s[0], t.quote)
      ensures Step(cfg, s, t, loc) == Go(1, if s[0] == t.quote then Complete(t, Str(t.pb))
                                             else t.(top := t.top.(state := StringEscape, saved := InString)), loc)
    {
    }

    method CaseString(s: Text, first: byte, ghost loc: Local) returns (ctl: Ctl, c: byte, ghost k: Local)
      requires Ready() && stack[depth].state == InString && At(s, first) && err == NoError
      modifies this`charOffset, this`pb, this`err, stack
      ensures Ends(s, old(Run(Cfg(), s[charOffset..], Abs(), loc)), ctl, c, k) && k.obj == loc.obj
      ensures Progress(ctl, old(charOffset), old(stack[depth]))
    {
      hide Run, Step;
      k := loc;
      var ended;
      c, ended := PassOver(s, first, loc);
      if ended {
        return GotoOut, c, loc;
      }
      ghost var b := Abs();
      ghost var m := Step(Cfg(), s[charOffset..], b, loc);
      InStringStops(Cfg(), s[charOffset..], b, loc);
      if c == quote {
        Finished(Str(pb));
      } else {
        SetTop(stack[depth].(saved := InString, state := StringEscape));
      }
      ctl := Break;
      GoIsRemainder(s, ctl, b, loc, m);
    }

    lemma InFieldStops(cfg: Config, s: Text, t: Tok, loc: Local)
      requires s != [] && Inv(cfg, t) && t.top.state == InField && !Stays(InField, s[0], t.quote)
      ensures var named := t.top.(state := Eatws, saved := FieldEnd, field := Some(CString(t.pb)));
              var escaped := t.top.(state := StringEscape, saved := InField);
              Step(cfg, s, t, loc) == Go(1, t.(top := if s[0] == t.quote then named else escaped), loc)
    {
    }

    method CaseField(s: Text, first: byte, ghost loc: Local) returns (ctl: Ctl, c: byte, ghost k: Local)
      requires Ready() && stack[depth].state == InField && At(s, first) && err == NoError
      modifies this`charOffset, this`pb, this`err, stack
      ensures Ends(s, old(Run(Cfg(), s[charOffset..], Abs(), loc)), ctl, c, k) && k.obj == loc.obj
      ensures Progress(ctl, old(charOffset), old(stack[depth]))
    {
      hide Run, Step;
      k := loc;
      var ended;
      c, ended := PassOver(s, first, loc);
      if ended {
        return GotoOut, c, loc;
      }
      ghost var b := Abs();
      ghost var m := Step(Cfg(), s[charOffset..], b, loc);
      InFieldStops(Cfg(), s[charOffset..], b, loc);
      if c == quote {
        SetTop(stack[depth].(field := Some(CString(pb)), saved := FieldEnd, state := Eatws));
      } else {
        SetTop(stack[depth].(saved := InField, state := StringEscape));
      }
      ctl := Break;
      GoIsRemainder(s, ctl, b, loc, m);
    }

    /** The number state takes one more byte. */
    lemma NumberStays(cfg: Config, t: Tok, s: Text, start: nat, end: nat, loc: Local)
      requires start <= end < |s| && Inv(cfg, Bulk(t, s, start, end)) && t.top.state == Number && IsNumberChar(s[end])
      ensures var c := s[end];
              var u := t.(isDouble := t.isDouble || c == DOT || c == LOWER_E || c == UPPER_E);
              && Inv(cfg, Bulk(u, s, start, end + 1))
              && Run(cfg, s[end..], Bulk(t, s, start, end), loc)
                 == Run(cfg, s[end + 1..], Bulk(u, s, start, end + 1), loc.(caseLen := loc.caseLen + 1))
    {
      hide Run;
      BulkSnoc(t, s, start, end);
      var u, l, rest := OneStep(cfg, s[end..], Bulk(t, s, start, end), loc);
      assert rest == s[end + 1..];
    }

    /** pb->buf[0]; the buffer ends in a NUL. */
    function FirstOfBuffer(): byte
      reads this`pb
    {
      if pb == [] then NUL else pb[0]
    }

    /** The end of a number, once its text is in the buffer. */
    method FinishNumber(s: Text, c: byte, caseLen: nat, ghost loc: Local) returns (ctl: Ctl)
      requires Ready() && stack[depth].state == Number && At(s, c) && !IsNumberChar(c) && err == NoError
      requires caseLen == loc.caseLen
      modifies this`err, stack
      ensures Valid() && ctl != Break
      ensures Stepped(Step(Cfg(), s[charOffset..], old(Abs()), loc), ctl, loc)
      ensures ctl == Redo ==> err == NoError && Rank(stack[depth]) < Rank(old(stack[depth]))
      ensures ctl == Redo ==> stack[depth].state == InfinityWord || stack[depth].state == Eatws
      ensures err != ErrContinue
    {
      hide Step, Inv, Conforming, ParseInt64;
      NumberIs(Cfg(), s[charOffset..], Abs(), loc);
      ctl := Redo;
      var top := stack[depth];
      if FirstOfBuffer() == MINUS && caseLen == 1 && (c == LOWER_I || c == UPPER_I) {
        SetTop(top.(state := InfinityWord));
        return;
      }
      ConformingParses(pb);
      var rc, num64 := JsonParseInt64(pb, false, Conforming(pb));
      if !isDouble && rc == 0 {
        if num64 != 0 && FirstOfBuffer() == ZERO && strict {
          err := ErrNumber;
          ctl := GotoOut;
          return;
        }
        Finished(Int(num64));
      } else if isDouble && readable(pb) {
        Finished(Double(pb));
      } else {
        err := ErrNumber;
        ctl := GotoOut;
      }
    }

    /** The loop over the bytes of a number; it ends at another byte or at the end of the input. */
    method ScanNumber(s: Text, first: byte, ghost loc: Local) returns (c: byte, caseLen: nat)
      requires Ready() && stack[depth].state == Number && At(s, first) && err == NoError
      requires loc.caseLen == 0
      modifies this`charOffset, this`pb, this`isDouble
      ensures Ready() && charOffset == old(charOffset) + caseLen <= |s| && stack[depth] == old(stack[depth])
      ensures if charOffset < |s| then At(s, c) && !IsNumberChar(c) else c != NUL
      ensures Run(Cfg(), s[charOffset..], Abs(), loc.(caseLen := caseLen))
              == old(Run(Cfg(), s[charOffset..], Abs(), loc))
    {
      hide Run, Step, Inv;
      c, caseLen := first, 0;
      var caseStart := charOffset;
      ghost var t := Abs();
      ghost var r := Run(Cfg(), s[charOffset..], t, loc);
      BulkEmpty(t, s, caseStart);
      assert loc.(caseLen := 0) == loc;
      while charOffset < |s| && IsNumberChar(c)
        invariant charOffset == caseStart + caseLen <= |s| && if charOffset < |s| then At(s, c) else c != NUL
        invariant Valid() && Abs() == t.(isDouble := isDouble) && Cfg() == old(Cfg())
        invariant Inv(Cfg(), Bulk(Abs(), s, caseStart, charOffset))
        invariant Run(Cfg(), s[charOffset..], Bulk(Abs(), s, caseStart, charOffset), loc.(caseLen := caseLen)) == r
        decreases |s| - charOffset
      {
        NumberStays(Cfg(), Abs(), s, caseStart, charOffset, loc.(caseLen := caseLen));
        caseLen := caseLen + 1;
        if c == DOT || c == LOWER_E || c == UPPER_E {
          isDouble := true;
        }
        charOffset := charOffset + 1;
        if charOffset < |s| {
          c := s[charOffset];
        }
      }
      AppendPending(s, caseStart);
    }

    method CaseNumber(s: Text, first: byte, ghost loc: Local) returns (ctl: Ctl, c: byte, ghost k: Local)
      requires Ready() && stack[depth].state == Number && At(s, first) && err == NoError
      requires loc.caseLen == 0
      modifies this`charOffset, this`pb, this`isDouble, this`err, stack
      ensures Ends(s, old(Run(Cfg(), s[charOffset..], Abs(), loc)), ctl, c, k) && k.obj == loc.obj
      ensures Progress(ctl, old(charOffset), old(stack[depth]))
    {
      hide Run, Step, Inv;
      var caseLen;
      c, caseLen := ScanNumber(s, first, loc);
      k := loc.(caseLen := caseLen);
      ghost var b := Abs();
      if charOffset == |s| {
        PeekAtEnd();
        assert s[charOffset..] == [];
        EndIsOut(c, b, err, k);
        return GotoOut, c, k;
      }
      TopIsOk(Cfg(), b);
      ghost var m := Step(Cfg(), s[charOffset..], b, k);
      ctl := FinishNumber(s, c, caseLen, k);
      if ctl == Redo {
        GoIsRemainder(s, ctl, b, k, m);
      } else {
        OutIsRemainder(s, b, k, m);
      }
    }

    /** strchr also finds the NUL; the call then ends as at any other NUL. */
    lemma BadDigitStep(cfg: Config, s: Text, t: Tok, loc: Local)
      requires s != [] && Inv(cfg, t) && t.top.state == EscapeUnicode && !IsHex(s[0])
      ensures Step(cfg, s, t, loc) == Out(t, if s[0] == NUL then NoError else ErrString)
    {
    }

    lemma FourthStep(cfg: Config, s: Text, t: Tok, loc: Local)
      requires s != [] && Inv(cfg, t) && t.top.state == EscapeUnicode && IsHex(s[0]) && t.stPos == 3
      ensures Step(cfg, s, t, loc) == StepFourth(s, t.ucs + HexValue(s[0]), t, loc)
    {
    }

    /** A step that consumes n bytes of which the first is not NUL. */
    lemma Consumed(cfg: Config, s: Text, t: Tok, loc: Local, m: Move)
      requires s != [] && s[0] != NUL && Inv(cfg, t) && m == Step(cfg, s, t, loc) && m.Go?
      ensures m.n <= |s| && Inv(cfg, m.tok) && Run(cfg, s, t, loc) == Run(cfg, s[m.n..], m.tok, m.loc)
    {
      var u, l, rest := OneStep(cfg, s, t, loc);
    }

    /** The bytes of a code that is complete; a lone surrogate is replaced. */
    method AppendCode()
      modifies this`pb
      ensures pb == old(pb) + Append(ucs)
    {
      if ucs < 0x800 {
        pb := pb + Encode(ucs);
      } else if IsHigh(ucs) || IsLow(ucs) {
        pb := pb + REPLACEMENT;
      } else if ucs < 0x110000 {
        pb := pb + Encode(ucs);
      } else {
        pb := pb + REPLACEMENT;
      }
    }

    /** Four digits are read. `again` is set when another escape follows a high surrogate. */
    method FourthDigit(s: Text, hi: nat, ghost b: Tok, ghost k: Local) returns (again: bool, newHi: nat)
      requires Valid() && charOffset < |s| && k.hi == hi
      requires Abs() == b.(ucs := ucs, stPos := 4)
      modifies this`charOffset, this`pb, this`ucs, this`stPos, stack
      ensures Valid() && charOffset <= |s|
      ensures var m := StepFourth(s[old(charOffset)..], old(ucs), b, k);
              if !again then
                && charOffset == old(charOffset) && stack[depth].state == old(stack[depth].saved)
                && m == Go(1, Abs(), k.(hi := 0))
              else
                && charOffset == old(charOffset) + 3 && stack[depth] == old(stack[depth])
                && m == Go(3, Abs(), k.(hi := newHi))
                && (charOffset == |s| <==> newHi == 0)
    {
      hide IsHigh, IsLow, DecodePair, Inv, Append;
      again, newHi := false, 0;
      var top := stack[depth];
      assert b.pb + [] == b.pb;
      if hi != 0 {
        if IsLow(ucs) {
          ucs := DecodePair(hi, ucs);
        } else {
          pb := pb + REPLACEMENT;
        }
      }
      if ucs >= 0x800 && IsHigh(ucs) {
        if charOffset + 1 != |s| && charOffset + 2 != |s| && s[charOffset + 1] == BACKSLASH
          && s[charOffset + 2] == LOWER_U
        {
          newHi := ucs;
          charOffset := charOffset + 3;
          if charOffset == |s| {
            pb := pb + REPLACEMENT;
            newHi := 0;
          } else {
            ucs, stPos := 0, 0;
          }
          again := true;
          return;
        }
      }
      AppendCode();
      SetTop(top.(state := top.saved));
    }

    /** One digit. `again` is set when the escape goes on; the cursor is then past what was consumed. */
    method Digit(s: Text, c: byte, hi: nat, ghost k: Local) returns (again: bool, newHi: nat)
      requires Ready() && stack[depth].state == EscapeUnicode && At(s, c) && IsHex(c) && k.hi == hi
      modifies this`charOffset, this`pb, this`ucs, this`stPos, stack
      ensures Valid() && charOffset <= |s|
      ensures var m := Step(Cfg(), s[old(charOffset)..], old(Abs()), k);
              if !again then
                && charOffset == old(charOffset) && stack[depth].state == old(stack[depth].saved)
                && m == Go(1, Abs(), k.(hi := 0))
              else
                && charOffset > old(charOffset) && stack[depth] == old(stack[depth])
                && m == Go(charOffset - old(charOffset), Abs(), k.(hi := newHi))
    {
      hide Step, StepFourth, Inv;
      ghost var b, rest := Abs(), s[charOffset..];
      ucs := ucs + Shift(HexValue(c), 3 - stPos);
      stPos := stPos + 1;
      if stPos == 4 {
        FourthStep(Cfg(), rest, b, k);
        again, newHi := FourthDigit(s, hi, b, k);
      } else {
        UnicodeIs(Cfg(), rest, b, k);
        DigitStep(rest, b, k);
        charOffset := charOffset + 1;
        again, newHi := true, hi;
        if charOffset == |s| && hi != 0 {
          pb := pb + REPLACEMENT;
        }
      }
    }

    /** A byte that is no digit. A NUL is passed, because strchr finds it. */
    method NoDigit(s: Text, c: byte, ghost k: Local)
      requires Ready() && stack[depth].state == EscapeUnicode && At(s, c) && err == NoError && !IsHex(c)
      modifies this`charOffset, this`err
      ensures Ends(s, old(Run(Cfg(), s[charOffset..], Abs(), k)), GotoOut, c, k)
      ensures charOffset >= old(charOffset)
    {
      hide Run, Step, Inv;
      TopIsOk(Cfg(), Abs());
      BadDigitStep(Cfg(), s[charOffset..], Abs(), k);
      OutIsRemainder(s, Abs(), k, Step(Cfg(), s[charOffset..], Abs(), k));
      if c == NUL {
        charOffset := charOffset + 1;
      } else {
        err := ErrString;
      }
    }

    /** The loop over the digits of one escape, or of two that may be a surrogate pair. */
    method CaseUnicode(s: Text, first: byte, ghost loc: Local) returns (ctl: Ctl, c: byte, ghost k: Local)
      requires Ready() && stack[depth].state == EscapeUnicode && At(s, first) && err == NoError && loc.hi == 0
      modifies this`charOffset, this`pb, this`ucs, this`stPos, this`err, stack
      ensures Ends(s, old(Run(Cfg(), s[charOffset..], Abs(), loc)), ctl, c, k) && k.obj == loc.obj
      ensures Progress(ctl, old(charOffset), old(stack[depth]))
    {
      hide Run, Step, Inv;
      c, k := first, loc;
      var gotHiSurrogate: nat := 0;
      ghost var r := Run(Cfg(), s[charOffset..], Abs(), loc);
      while true
        invariant At(s, c) && charOffset >= old(charOffset)
        invariant Ready() && Cfg() == old(Cfg()) && err == NoError && stack[depth] == old(stack[depth])
        invariant k == loc.(hi := gotHiSurrogate)
        invariant Run(Cfg(), s[charOffset..], Abs(), k) == r
        decreases |s| - charOffset
      {
        ghost var b, start, k0 := Abs(), charOffset, k;
        TopIsOk(Cfg(), b);
        ghost var m := Step(Cfg(), s[start..], b, k);
        if !IsHex(c) {
          NoDigit(s, c, k);
          return GotoOut, c, k;
        }
        var again;
        again, gotHiSurrogate := Digit(s, c, gotHiSurrogate, k);
        k := m.loc;
        if !again {
          ctl := Break;
          GoIsRemainder(s, ctl, b, k0, m);
          return;
        }
        Consumed(Cfg(), s[start..], b, k0, m);
        assert s[start..][m.n..] == s[charOffset..];
        if charOffset == |s| {
          RunOut(s, c, k);
          return GotoOut, c, k;
        }
        c := s[charOffset];
      }
    }

    // ------------------------------------------------------------ the switch and the loop

    lemma NeverContinue(cfg: Config, s: Text, t: Tok, loc: Local)
      requires s != [] && Inv(cfg, t)
      ensures Step(cfg, s, t, loc).Out? ==> Step(cfg, s, t, loc).error != ErrContinue
    {
    }

    lemma StepEnds(s: Text, t: Tok, loc: Local, m: Move, ctl: Ctl, u: Tok, e: Error, k: Local)
      requires Valid() && charOffset < |s| && Inv(Cfg(), t) && t.top.state != EscapeUnicode
      requires m == Step(Cfg(), s[charOffset..], t, loc)
      requires ctl != GotoOut ==> m == Go(if ctl == Break then 1 else 0, u, k) && e == NoError
      requires ctl == GotoOut ==> m == Out(u, e)
      ensures Inv(Cfg(), u)
      ensures Remainder(Cfg(), ctl, s[charOffset..], s[charOffset], u, e, k) == Run(Cfg(), s[charOffset..], t, loc)
      ensures ctl == Redo ==> Rank(u.top) < Rank(t.top)
      ensures ctl == Break ==> u.top.state != Finish
      ensures ctl == GotoOut ==> e != ErrContinue
    {
      hide Run, Step;
      StepKeeps(Cfg(), s[charOffset..], t, loc);
      if ctl == GotoOut {
        NeverContinue(Cfg(), s[charOffset..], t, loc);
        OutIsRemainder(s, t, loc, m);
      } else {
        GoIsRemainder(s, ctl, t, loc, m);
      }
    }

    /** The cases of arrays and objects. */
    method DispatchContainer(c: byte, obj: Json, ghost s: Text, ghost loc: Local)
      returns (ctl: Ctl, obj': Json, ghost k: Local)
      requires Ready() && s != [] && s[0] == c && err == NoError && obj == loc.obj
      requires InContainer(stack[depth].state)
      modifies this`depth, this`pb, this`isDouble, this`stPos, this`ucs, this`quote, this`err, stack
      ensures Valid() && Stepped(Step(Cfg(), s, old(Abs()), loc), ctl, k) && k.obj == obj'
      ensures ctl != GotoOut ==> err == NoError && Settled(stack[depth], k)
    {
      hide Step, Inv;
      obj' := obj;
      var state := stack[depth].state;
      if state == Array || state == ArrayAfterSep {
        ctl, k := CaseArray(c, s, loc);
      } else if state == ArrayAdd {
        ctl, k := CaseArrayAdd(c, obj, s, loc);
      } else if state == ArraySep {
        ctl, k := CaseArraySep(c, s, loc);
      } else if state == FieldStart || state == FieldStartAfterSep {
        ctl, k := CaseFieldStart(c, s, loc);
      } else if state == FieldEnd {
        ctl, k := CaseFieldEnd(c, s, loc);
      } else if state == ObjectValue {
        ctl, k := CaseObjectValue(c, s, loc);
      } else if state == ObjectValueAdd {
        ctl, k := CaseObjectAdd(c, obj, s, loc);
      } else {
        ctl, k := CaseObjectSep(c, s, loc);
      }
    }

    /** The other cases without an inner loop. */
    method DispatchToken(c: byte, obj: Json, ghost s: Text, ghost loc: Local)
      returns (ctl: Ctl, obj': Json, ghost k: Local)
      requires Ready() && s != [] && s[0] == c && err == NoError && obj == loc.obj
      requires !InContainer(stack[depth].state) && !Loops(stack[depth].state)
      modifies this`depth, this`pb, this`isDouble, this`stPos, this`ucs, this`quote, this`err, stack
      ensures Valid() && Stepped(Step(Cfg(), s, old(Abs()), loc), ctl, k) && k.obj == obj'
      ensures ctl != GotoOut ==> err == NoError && Settled(stack[depth], k)
    {
      hide Step, Inv;
      obj' := obj;
      var state := stack[depth].state;
      if state == Start {
        ctl, k := CaseStart(c, s, loc);
      } else if state == Finish {
        ctl, obj', k := CaseFinish(c, obj, s, loc);
      } else if state == InfinityWord {
        ctl, k := CaseInfinity(c, s, loc);
      } else if state == NullWord {
        ctl, k := CaseNull(c, s, loc);
      } else if state == CommentStart {
        ctl, k := CaseCommentStart(c, s, loc);
      } else if state == CommentEnd {
        ctl, k := CaseCommentEnd(c, s, loc);
      } else if state == StringEscape {
        ctl, k := CaseEscape(c, s, loc);
      } else {
        ctl, k := CaseBoolean(c, s, loc);
      }
    }

    method DispatchStep(s: Text, c: byte, obj: Json, ghost loc: Local)
      returns (ctl: Ctl, obj': Json, ghost k: Local)
      requires Ready() && At(s, c) && err == NoError && obj == loc.obj && !Loops(stack[depth].state)
      modifies this`depth, this`pb, this`isDouble, this`stPos, this`ucs, this`quote, this`err, stack
      ensures Ends(s, old(Run(Cfg(), s[charOffset..], Abs(), loc)), ctl, c, k) && k.obj == obj'
      ensures Progress(ctl, old(charOffset), old(stack[depth]))
    {
      hide Run, Step;
      ghost var t, rest := Abs(), s[charOffset..];
      ghost var m := Step(Cfg(), rest, t, loc);
      if InContainer(stack[depth].state) {
        ctl, obj', k := DispatchContainer(c, obj, rest, loc);
      } else {
        ctl, obj', k := DispatchToken(c, obj, rest, loc);
      }
      StepEnds(s, t, loc, m, ctl, Abs(), err, k);
    }

    /** The cases that have an inner loop. */
    method DispatchLoop(s: Text, first: byte, ghost loc: Local) returns (ctl: Ctl, c: byte, ghost k: Local)
      requires Ready() && At(s, first) && err == NoError
      requires Loops(stack[depth].state) && Settled(stack[depth], loc)
      modifies this`charOffset, this`pb, this`isDouble, this`stPos, this`ucs, this`err, stack
      ensures Ends(s, old(Run(Cfg(), s[charOffset..], Abs(), loc)), ctl, c, k) && k.obj == loc.obj
      ensures Progress(ctl, old(charOffset), old(stack[depth]))
    {
      hide Run, Step, Inv;
      var state := stack[depth].state;
      if state == Eatws {
        ctl, c, k := CaseEatws(s, first, loc);
      } else if state == Comment {
        ctl, c, k := CaseComment(s, first, loc);
      } else if state == CommentEol {
        ctl, c, k := CaseCommentEol(s, first, loc);
      } else if state == InString {
        ctl, c, k := CaseString(s, first, loc);
      } else if state == InField {
        ctl, c, k := CaseField(s, first, loc);
      } else if state == Number {
        ctl, c, k := CaseNumber(s, first, loc);
      } else {
        ctl, c, k := CaseUnicode(s, first, loc);
      }
    }

    /** The switch on the state. */
    method Dispatch(s: Text, first: byte, obj: Json, ghost loc: Local)
      returns (ctl: Ctl, c: byte, obj': Json, ghost k: Local)
      requires Ready() && At(s, first) && err == NoError && obj == loc.obj && Settled(stack[depth], loc)
      modifies this`charOffset, this`depth, this`pb, this`isDouble, this`stPos, this`ucs, this`quote, this`err, stack
      ensures Ends(s, old(Run(Cfg(), s[charOffset..], Abs(), loc)), ctl, c, k) && k.obj == obj'
      ensures Progress(ctl, old(charOffset), old(stack[depth]))
    {
      hide Run, Step, Inv;
      if Loops(stack[depth].state) {
        ctl, c, k := DispatchLoop(s, first, loc);
        obj' := obj;
      } else {
        ctl, obj', k := DispatchStep(s, first, obj, loc);
        c := first;
      }
    }

    /** After a `break` the byte is consumed, and a NUL ends the loop. */
    lemma AfterBreak(cfg: Config, s: Text, o: nat, c: byte, t: Tok, e: Error, loc: Local)
      requires o < |s| && s[o] == c && Inv(cfg, t)
      ensures Remainder(cfg, Break, s[o..], c, t, e, loc)
              == if c == NUL then Remainder(cfg, GotoOut, s[o + 1..], c, t, NoError, loc)
                 else Run(cfg, s[o + 1..], t, loc)
    {
      hide Run, Inv, Final;
      assert s[o..][1..] == s[o + 1..];
    }

    lemma AfterRedo(cfg: Config, s: Text, c: byte, t: Tok, e: Error, loc: Local)
      requires s != [] && Inv(cfg, t)
      ensures Remainder(cfg, Redo, s, c, t, e, loc) == Run(cfg, s, t, loc)
    {
    }

    /** One turn of the main loop: the switch, and ADVANCE_CHAR and PEEK_CHAR after a `break`. */
    method Turn(s: Text, first: byte, obj: Json, ghost loc: Local)
      returns (over: bool, c: byte, obj': Json, ghost k: Local)
      requires Ready() && At(s, first) && err == NoError && obj == loc.obj && Settled(stack[depth], loc)
      modifies this`charOffset, this`depth, this`pb, this`isDouble, this`stPos, this`ucs, this`quote, this`err, stack
      ensures Ready() && charOffset <= |s| && Cfg() == old(Cfg())
      ensures if over then
                && (err == ErrContinue ==> charOffset == |s| && c != NUL && stack[depth].state != Finish)
                && Remainder(Cfg(), GotoOut, s[charOffset..], c, Abs(), err, k)
                   == old(Run(Cfg(), s[charOffset..], Abs(), loc))
              else
                && At(s, c) && err == NoError && obj' == k.obj && Settled(stack[depth], k)
                && Run(Cfg(), s[charOffset..], Abs(), k) == old(Run(Cfg(), s[charOffset..], Abs(), loc))
                && charOffset >= old(charOffset)
                && (charOffset > old(charOffset) || Rank(stack[depth]) < Rank(old(stack[depth])))
    {
      hide Run, Step, Inv, Remainder;
      var ctl;
      ctl, c, obj', k := Dispatch(s, first, obj, loc);
      if ctl == GotoOut {
        return true, c, obj', k;
      }
      if ctl == Redo {
        AfterRedo(Cfg(), s[charOffset..], c, Abs(), err, k);
        return false, c, obj', k;
      }
      AfterBreak(Cfg(), s, charOffset, c, Abs(), err, k);
      charOffset := charOffset + 1;
      if c == NUL {
        return true, c, obj', k;
      }
      if charOffset == |s| {
        RunOut(s, c, k);
        return true, c, obj', k;
      }
      c := s[charOffset];
      return false, c, obj', k;
    }

    /** The main loop of json_tokener_parse_ex, down to the label `out`. */
    method MainLoop(s: Text) returns (c: byte, ghost loc: Local)
      requires Resting() && charOffset == 0 && err == NoError
      modifies this`charOffset, this`depth, this`pb, this`isDouble, this`stPos, this`ucs, this`quote, this`err, stack
      ensures Ready() && charOffset <= |s| && Cfg() == old(Cfg())
      ensures err == ErrContinue ==> charOffset == |s| && c != NUL && stack[depth].state != Finish
      ensures Remainder(Cfg(), GotoOut, s[charOffset..], c, Abs(), err, loc) == old(Call(Cfg(), s, Abs()))
    {
      hide Run, Step, Inv, Remainder;
      loc := NO_LOCALS;
      c := 1;
      var obj := Null;
      assert s[0..] == s;
      if s == [] {
        RunOut(s, c, loc);
        return;
      }
      c := s[0];
      ghost var r := Call(Cfg(), s, Abs());
      var over := false;
      while !over
        invariant Ready() && charOffset <= |s| && Cfg() == old(Cfg())
        invariant if over then
                    && (err == ErrContinue ==> charOffset == |s| && c != NUL && stack[depth].state != Finish)
                    && Remainder(Cfg(), GotoOut, s[charOffset..], c, Abs(), err, loc) == r
                  else
                    && At(s, c) && err == NoError && obj == loc.obj && Settled(stack[depth], loc)
                    && Run(Cfg(), s[charOffset..], Abs(), loc) == r
        decreases !over, |s| - charOffset, Rank(stack[depth])
      {
        over, c, obj, loc := Turn(s, c, obj, loc);
      }
    }

    /** json_tokener_set_flags */
    method SetStrict(on: bool)
      requires Valid()
      modifies this`strict
      ensures strict == on && Abs() == old(Abs())
    {
      strict := on;
    }

    /** json_tokener_parse_ex: the machine's outcome, its new state, and where the cursor stops. */
    method ParseEx(str: Text, len: int) returns (obj: Json)
      requires Resting()
      requires len >= 0 ==> len <= |str|
      requires len == -1 ==> NUL in str
      modifies this`charOffset, this`depth, this`pb, this`isDouble, this`stPos, this`ucs, this`quote, this`err, stack
      ensures Valid() && Cfg() == old(Cfg())
      ensures len < -1 || (len == -1 && |CString(str)| > INT32_MAX_LENGTH)
              ==> err == ErrSize && obj == Null && Abs() == old(Abs())
      ensures len >= 0 || (len == -1 && |CString(str)| <= INT32_MAX_LENGTH)
              ==> var s := Input(str, len);
                  match old(Call(Cfg(), Input(str, len), Abs()))
                  case Done(u, left) =>
                    err == NoError && obj == u.top.current && charOffset == |s| - left
                    && Abs() == Cleared(u) && (depth == 0 ==> Resting())
                  case More(u) =>
                    err == ErrContinue && obj == Null && charOffset == |s| && Abs() == u && Resting()
                  case Failed(e, left) => err == e && obj == Null && charOffset == |s| - left
    {
      hide Run, Step, Inv;
      obj := Null;
      charOffset := 0;
      err := NoError;
      if len < -1 || (len == -1 && |CString(str)| > INT32_MAX_LENGTH) {
        err := ErrSize;
        return;
      }
      var s := Input(str, len);
      ghost var r := Call(Cfg(), s, Abs());
      var c;
      ghost var loc;
      c, loc := MainLoop(s);
      obj := AtOut(c, |s| - charOffset);
    }

    /** The code after the label `out`. */
    method AtOut(c: byte, ghost left: nat) returns (obj: Json)
      requires Ready() && (err == ErrContinue ==> c != NUL && stack[depth].state != Finish)
      modifies this`err, stack
      ensures Valid()
      ensures if old(err) == ErrContinue then err == ErrContinue && obj == Null && Abs() == old(Abs())
              else
                match old(Final(Cfg(), c, Abs(), err, left))
                case Done(u, _) =>
                  err == NoError && obj == u.top.current && Abs() == Cleared(u) && (depth == 0 ==> Resting())
                case Failed(e, _) => err == e && obj == Null
                case More(_) => false
    {
      hide Inv;
      obj := Null;
      if c != NUL && stack[depth].state == Finish && depth == 0 && strict {
        err := ErrUnexpected;
      }
      if c == NUL {
        if stack[depth].state != Finish && stack[depth].saved != Finish {
          err := ErrEof;
        }
      }
      if err == NoError {
        obj := stack[depth].current;
        ResetLevels();
        FreshInv(Cfg(), Abs());
        assert stack[..depth] == seq(depth, _ => FRESH);
      }
    }
  }

  /** json_tokener_parse_verbose: a fresh tokener of the default depth on a C string. */
  method ParseVerbose(str: Text, readable: Text -> bool) returns (obj: Json, error: Error)
    requires NUL in str && |CString(str)| <= INT32_MAX_LENGTH
    ensures match Document(Config(false, DEFAULT_DEPTH, readable), CString(str) + [NUL], 0)
            case Accept(v, _, _) => error == NoError && obj == v
            case Reject(e) => error == e && obj == Null
            case NeedMore => false
  {
    hide Run, Step, Document;
    var tok := new Tokener(DEFAULT_DEPTH, readable);
    ghost var t, s := tok.Abs(), Input(str, -1);
    CallIsDocument(tok.Cfg(), s, t);
    NulStops(tok.Cfg(), s, t, NO_LOCALS);
    obj := tok.ParseEx(str, -1);
    error := tok.err;
  }
}

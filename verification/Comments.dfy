/**
 Comments: exactly when the tokener finds the end of one, and exactly when a comment that is never
 closed passes for the end of an array or an object.
 */
module Comments {
  import opened Bytes
  import opened Reference

  // ---------------------------------------------------------------- the end of a comment

  /** How many stars a text ends in. */
  function EndStars(s: Text): (n: nat)
    ensures n <= |s|
  {
    if s == [] || s[|s| - 1] != STAR then 0 else 1 + EndStars(s[..|s| - 1])
  }

  predicate NoEndIn(body: Text) {
    forall i :: 0 <= i < |body| - 1 ==> !(body[i] == STAR && body[i + 1] == SLASH)
  }

  const COMMENT_END: Text := [STAR, SLASH]

  lemma {:induction false} EndStarsFront(s: Text)
    requires s != []
    ensures EndStars(s) == if EndStars(s[1..]) == |s| - 1 && s[0] == STAR then |s| else EndStars(s[1..])
  {
    if |s| == 1 {
    } else {
      assert s[1..][..|s| - 2] == s[..|s| - 1][1..];
      EndStarsFront(s[..|s| - 1]);
    }
  }

  lemma OneOff(s: Text)
    requires s != [] && s[0] != STAR
    ensures EndStars(s) == EndStars(s[1..])
  {
    EndStarsFront(s);
  }

  /** Without two bytes of which one is a star, the number of stars at the end is as even as before. */
  lemma TwoOff(s: Text)
    requires |s| >= 2 && s[0] == STAR
    ensures EndStars(s) == EndStars(s[2..]) || EndStars(s) == EndStars(s[2..]) + 2
  {
    EndStarsFront(s);
    EndStarsFront(s[1..]);
    assert s[1..][1..] == s[2..];
  }

  lemma ShortEnds()
    ensures EndStars([]) == 0 && EndStars([STAR]) == 1
  {
    assert [STAR][..0] == [];
  }

  /** One step of a comment that goes on: a byte, or a star and the byte behind it. */
  lemma CommentStep(strict: bool, s: Text)
    requires s != [] && s[0] != NUL && (s[0] == STAR ==> |s| >= 2 && s[1] != NUL && s[1] != SLASH)
    ensures BlockComment(strict, s) == BlockComment(strict, if s[0] == STAR then s[2..] else s[1..])
  {
    if s[0] == STAR {
      assert s[1..][0] == s[1] && s[1..][1..] == s[2..];
    }
    hide Spaces;
  }

  lemma CommentStops(strict: bool, rest: Text)
    ensures BlockComment(strict, COMMENT_END + rest) == Spaces(strict, rest)
  {
    var s := COMMENT_END + rest;
    assert s[1..][0] == SLASH && s[1..][1..] == rest;
    hide Spaces;
  }

  /**
   A block comment ends at its first "*" with a "/" behind it if an even number of stars comes right
   before, as in most comments. If the number is odd, that end is passed over, because the byte behind
   a star is not looked at again.
   */
  lemma {:induction false} CommentEnds(strict: bool, body: Text, rest: Text)
    requires NUL !in body && NoEndIn(body)
    ensures BlockComment(strict, body + COMMENT_END + rest)
            == if EndStars(body) % 2 == 0 then Spaces(strict, rest) else BlockComment(strict, rest)
    decreases |body|
  {
    hide EndStars, BlockComment, Spaces;
    var s := body + COMMENT_END + rest;
    ShortEnds();
    if body == [] {
      assert s == COMMENT_END + rest;
      CommentStops(strict, rest);
    } else if body == [STAR] {
      CommentStep(strict, s);
      assert s[2..] == [SLASH] + rest;
      CommentStep(strict, s[2..]);
      assert s[2..][1..] == rest;
    } else {
      var n := if body[0] == STAR then 2 else 1;
      CommentStep(strict, s);
      assert s[n..] == body[n..] + COMMENT_END + rest;
      if n == 1 {
        OneOff(body);
      } else {
        TwoOff(body);
      }
      CommentEnds(strict, body[n..], rest);
    }
  }

  /** So a body is one whose end is seen, whatever follows, if and only if it ends in an even number of stars. */
  lemma EndIsSeen(strict: bool, body: Text)
    requires NUL !in body && NoEndIn(body)
    ensures (forall rest :: BlockComment(strict, body + COMMENT_END + rest) == Spaces(strict, rest))
            <==> EndStars(body) % 2 == 0
  {
    forall rest | EndStars(body) % 2 == 0
      ensures BlockComment(strict, body + COMMENT_END + rest) == Spaces(strict, rest)
    {
      CommentEnds(strict, body, rest);
    }
    CommentEnds(strict, body, []);
    assert BlockComment(strict, []) != Spaces(strict, []);
  }

  /** "/ * * * /" without the spaces is not seen to end. */
  lemma ThreeStars()
    ensures Spaces(false, [SLASH, STAR, STAR, STAR, SLASH]) == GapUnclosed
  {
    var s := [SLASH, STAR, STAR, STAR, SLASH];
    CommentEnds(false, [STAR], []);
    assert [STAR][..0] == [];
    assert s[1..][1..] == [STAR] + COMMENT_END + [];
  }
}

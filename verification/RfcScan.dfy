/** RFC 8259 texts as the scanner sees them: outside of strings there is no "i". */
module RfcScan {
  import opened Bytes
  import opened Machine
  import opened Reference
  import opened Rfc8259
  import opened Scanner
  import Int64
  import Simulation

  predicate IsI(c: byte) {
    c == LOWER_I || c == UPPER_I
  }

  predicate Bland(s: Text) {
    forall i :: 0 <= i < |s| ==> OpensNothing(s[i]) && !IsI(s[i])
  }

  /** The text ends where it began, outside of strings and comments, and no "i" is there. */
  ghost predicate Quiet(strict: bool, s: Text) {
    && Scan(strict, s, |s|) == Outside
    && forall q :: 0 <= q < |s| && Scan(strict, s, q) == Outside ==> !IsI(s[q])
  }

  lemma {:induction false} BlandScans(strict: bool, s: Text, i: nat, k: nat)
    requires i <= k <= |s| && Scan(strict, s, i) == Outside
    requires forall q :: i <= q < k ==> OpensNothing(s[q])
    ensures Scan(strict, s, k) == Outside
    decreases k
  {
    if k == i {
    } else {
      BlandScans(strict, s, i, k - 1);
    }
  }

  lemma BlandIsQuiet(strict: bool, s: Text)
    requires Bland(s)
    ensures Quiet(strict, s)
  {
    BlandScans(strict, s, 0, |s|);
  }

  /** The scanner only looks back. */
  lemma {:induction false} ScanPrefix(strict: bool, a: Text, b: Text, i: nat)
    requires i <= |a|
    ensures Scan(strict, a + b, i) == Scan(strict, a, i)
  {
    if i == 0 {
    } else {
      ScanPrefix(strict, a, b, i - 1);
    }
  }

  lemma {:induction false} ScanBehind(strict: bool, a: Text, b: Text, i: nat)
    requires i <= |b| && Scan(strict, a, |a|) == Outside
    ensures Scan(strict, a + b, |a| + i) == Scan(strict, b, i)
  {
    if i == 0 {
      ScanPrefix(strict, a, b, |a|);
    } else {
      ScanBehind(strict, a, b, i - 1);
      assert (a + b)[|a| + i - 1] == b[i - 1];
    }
  }

  lemma QuietConcat(strict: bool, a: Text, b: Text)
    requires Quiet(strict, a) && Quiet(strict, b)
    ensures Quiet(strict, a + b)
  {
    hide Scan;
    var s := a + b;
    ScanBehind(strict, a, b, |b|);
    forall q | 0 <= q < |s| && Scan(strict, s, q) == Outside
      ensures !IsI(s[q])
    {
      if q < |a| {
        ScanPrefix(strict, a, b, q);
      } else {
        ScanBehind(strict, a, b, q - |a|);
      }
    }
  }

  // ---------------------------------------------------------------- strings

  /** From i to k the text is inside a string. */
  ghost predicate InsideUpTo(strict: bool, s: Text, i: nat, k: nat)
    requires k <= |s|
  {
    && (forall q :: i <= q <= k ==> Scan(strict, s, q) != Outside)
    && Scan(strict, s, k) == Inside(QUOTE)
  }

  lemma {:induction false} PlainInside(strict: bool, s: Text, i: nat, k: nat)
    requires i <= k <= |s| && Scan(strict, s, i) == Inside(QUOTE)
    requires forall q :: i <= q < k ==> s[q] != QUOTE && s[q] != BACKSLASH
    ensures InsideUpTo(strict, s, i, k)
    decreases k
  {
    if k == i {
    } else {
      PlainInside(strict, s, i, k - 1);
    }
  }

  lemma EscapeInside(strict: bool, s: Text, i: nat, k: nat)
    requires i + 2 <= k <= |s| && Scan(strict, s, i) == Inside(QUOTE) && s[i] == BACKSLASH
    requires forall q :: i + 2 <= q < k ==> s[q] != QUOTE && s[q] != BACKSLASH
    ensures InsideUpTo(strict, s, i, k)
  {
    assert Scan(strict, s, i + 1) == Escaped(QUOTE);
    assert Scan(strict, s, i + 2) == Inside(QUOTE);
    PlainInside(strict, s, i + 2, k);
  }

  lemma ItemInside(strict: bool, s: Text, i: nat, item: Item)
    requires ValidItem(item) && i + |ItemText(item)| <= |s| && s[i..i + |ItemText(item)|] == ItemText(item)
    requires Scan(strict, s, i) == Inside(QUOTE)
    ensures InsideUpTo(strict, s, i, i + |ItemText(item)|)
  {
    hide Scan;
    var t := ItemText(item);
    var k := i + |t|;
    assert forall q :: i <= q < k ==> s[q] == s[i..k][q - i];
    if item.Plain? {
      PlainInside(strict, s, i, k);
    } else {
      EscapeInside(strict, s, i, k);
    }
  }

  lemma {:induction false} ItemsInside(strict: bool, s: Text, i: nat, items: seq<Item>)
    requires ValidItems(items) && i + |ItemsText(items)| <= |s|
    requires s[i..i + |ItemsText(items)|] == ItemsText(items) && Scan(strict, s, i) == Inside(QUOTE)
    ensures InsideUpTo(strict, s, i, i + |ItemsText(items)|)
    decreases |items|
  {
    hide Scan, ItemText, ValidItem;
    if items == [] {
    } else {
      var first, rest := ItemText(items[0]), ItemsText(items[1..]);
      var k := i + |first|;
      assert ItemsText(items)[..|first|] == first && ItemsText(items)[|first|..] == rest;
      assert s[i..k] == s[i..i + |ItemsText(items)|][..|first|];
      assert s[k..k + |rest|] == s[i..i + |ItemsText(items)|][|first|..];
      ItemInside(strict, s, i, items[0]);
      ItemsInside(strict, s, k, items[1..]);
    }
  }

  lemma StringIsQuiet(strict: bool, items: seq<Item>)
    requires ValidItems(items)
    ensures Quiet(strict, [QUOTE] + ItemsText(items) + [QUOTE])
  {
    hide ItemsText, ValidItem;
    var s, n := [QUOTE] + ItemsText(items) + [QUOTE], |ItemsText(items)|;
    assert s[1..1 + n] == ItemsText(items);
    assert Scan(strict, s, 0) == Outside;
    assert Scan(strict, s, 1) == Inside(QUOTE);
    ItemsInside(strict, s, 1, items);
    assert s[1 + n] == QUOTE && |s| == n + 2;
    assert Scan(strict, s, n + 2) == Outside;
  }

  // ---------------------------------------------------------------- documents

  lemma BlankIsQuiet(strict: bool, s: Text)
    requires Blank(s)
    ensures Quiet(strict, s)
  {
    BlandIsQuiet(strict, s);
  }

  lemma NumberIsQuiet(strict: bool, s: Text)
    requires AllNumberChars(s)
    ensures Quiet(strict, s)
  {
    BlandIsQuiet(strict, s);
  }

  lemma NumeralIsQuiet(strict: bool, n: Numeral)
    requires ValidNumeral(n)
    ensures Quiet(strict, NumeralText(n))
  {
    hide Quiet;
    Digits(n.digits);
    var sign, fraction, exponent := if n.negative then [MINUS] else [], FractionText(n), ExponentText(n);
    FractionChars(n);
    ExponentChars(n);
    assert AllNumberChars(sign);
    NumberIsQuiet(strict, sign + n.digits + fraction + exponent);
  }

  lemma Digits(s: Text)
    requires Int64.Canonical(s)
    ensures AllNumberChars(s)
  {
  }

  lemma FractionChars(n: Numeral)
    requires ValidNumeral(n)
    ensures AllNumberChars(FractionText(n))
  {
    if n.fraction.Some? {
      assert Int64.AllDigits(n.fraction.value);
    }
  }

  lemma ExponentChars(n: Numeral)
    requires ValidNumeral(n)
    ensures AllNumberChars(ExponentText(n))
  {
    if n.exponent.Some? {
      assert Int64.AllDigits(n.exponent.value.digits);
    }
  }

  lemma {:induction false} DocIsQuiet(strict: bool, doc: Doc)
    requires Valid(doc)
    ensures Quiet(strict, DocText(doc))
    decreases doc, 0
  {
    hide Quiet;
    match doc
    case DNull => BlandIsQuiet(strict, NULL_WORD);
    case DBool(b) =>
      BlandIsQuiet(strict, TRUE_WORD);
      BlandIsQuiet(strict, FALSE_WORD);
    case DNumber(num) => NumeralIsQuiet(strict, num);
    case DDouble(text) => NumberIsQuiet(strict, text);
    case DString(items) => StringIsQuiet(strict, items);
    case DArray(inside, elems) =>
      BlankIsQuiet(strict, inside);
      ElemsAreQuiet(strict, elems);
      Around(strict, LBRACKET, inside, RBRACKET);
      Around(strict, LBRACKET, ElemsText(elems), RBRACKET);
    case DObject(inside, members) =>
      BlankIsQuiet(strict, inside);
      MembersAreQuiet(strict, members);
      Around(strict, LBRACE, inside, RBRACE);
      Around(strict, LBRACE, MembersText(members), RBRACE);
  }

  lemma Around(strict: bool, open: byte, s: Text, close: byte)
    requires Bland([open]) && Bland([close]) && Quiet(strict, s)
    ensures Quiet(strict, [open] + s + [close])
  {
    hide Quiet;
    BlandIsQuiet(strict, [open]);
    BlandIsQuiet(strict, [close]);
    QuietConcat(strict, [open], s);
    QuietConcat(strict, [open] + s, [close]);
  }

  lemma {:induction false} ElemsAreQuiet(strict: bool, elems: seq<Elem>)
    requires ValidElems(elems)
    ensures Quiet(strict, ElemsText(elems))
    decreases elems, 1
  {
    hide Quiet, DocText, Valid, Blank;
    if elems == [] {
      BlandIsQuiet(strict, []);
    } else {
      var e, rest := elems[0], if |elems| == 1 then [] else [COMMA] + ElemsText(elems[1..]);
      BlankIsQuiet(strict, e.before);
      DocIsQuiet(strict, e.value);
      BlankIsQuiet(strict, e.after);
      BlandIsQuiet(strict, []);
      BlandIsQuiet(strict, [COMMA]);
      if |elems| > 1 {
        ElemsAreQuiet(strict, elems[1..]);
        QuietConcat(strict, [COMMA], ElemsText(elems[1..]));
      }
      QuietConcat(strict, e.before, DocText(e.value));
      QuietConcat(strict, e.before + DocText(e.value), e.after);
      QuietConcat(strict, e.before + DocText(e.value) + e.after, rest);
    }
  }

  lemma {:induction false} MembersAreQuiet(strict: bool, members: seq<Member>)
    requires ValidMembers(members)
    ensures Quiet(strict, MembersText(members))
    decreases members, 1
  {
    hide Quiet, DocText, Valid, Blank, ItemsText, ValidItems;
    if members == [] {
      BlandIsQuiet(strict, []);
    } else {
      var m, rest := members[0], if |members| == 1 then [] else [COMMA] + MembersText(members[1..]);
      BlandIsQuiet(strict, []);
      if |members| > 1 {
        MembersAreQuiet(strict, members[1..]);
        BlandIsQuiet(strict, [COMMA]);
        QuietConcat(strict, [COMMA], MembersText(members[1..]));
      }
      DocIsQuiet(strict, m.value);
      MemberIsQuiet(strict, m, rest);
    }
  }

  lemma MemberIsQuiet(strict: bool, m: Member, rest: Text)
    requires Blank(m.before) && ValidItems(m.key) && Blank(m.afterKey) && Blank(m.beforeValue) && Blank(m.after)
    requires Quiet(strict, DocText(m.value)) && Quiet(strict, rest)
    ensures Quiet(strict, m.before + [QUOTE] + ItemsText(m.key) + [QUOTE] + m.afterKey + [COLON]
                          + m.beforeValue + DocText(m.value) + m.after + rest)
  {
    hide Quiet, DocText, Blank, ItemsText, ValidItems;
    var key, value := [QUOTE] + ItemsText(m.key) + [QUOTE], DocText(m.value);
    BlankIsQuiet(strict, m.before);
    StringIsQuiet(strict, m.key);
    BlankIsQuiet(strict, m.afterKey);
    BlandIsQuiet(strict, [COLON]);
    BlankIsQuiet(strict, m.beforeValue);
    BlankIsQuiet(strict, m.after);
    QuietConcat(strict, m.before, key);
    QuietConcat(strict, m.before + key, m.afterKey);
    QuietConcat(strict, m.before + key + m.afterKey, [COLON]);
    var front := m.before + key + m.afterKey + [COLON];
    QuietConcat(strict, front, m.beforeValue);
    QuietConcat(strict, front + m.beforeValue, value);
    QuietConcat(strict, front + m.beforeValue + value, m.after);
    QuietConcat(strict, front + m.beforeValue + value + m.after, rest);
    assert m.before + [QUOTE] + ItemsText(m.key) + [QUOTE] == m.before + key;
  }

  /** In an RFC 8259 text no cut is behind a number that an "i" follows. */
  lemma NoNumberCut(strict: bool, before: Text, doc: Doc, after: Text, k: nat)
    requires Blank(before) && Valid(doc) && Blank(after)
    requires k <= |before + (DocText(doc) + after)|
    ensures !NumberCut(strict, before + (DocText(doc) + after), k)
  {
    hide Scan, Valid, Blank, DocText, Quiet;
    var s := before + (DocText(doc) + after);
    BlankIsQuiet(strict, before);
    DocIsQuiet(strict, doc);
    BlankIsQuiet(strict, after);
    QuietConcat(strict, DocText(doc), after);
    QuietConcat(strict, before, DocText(doc) + after);
    QuietHasNone(strict, s, k);
  }

  lemma QuietHasNone(strict: bool, s: Text, k: nat)
    requires Quiet(strict, s) && k <= |s|
    ensures !NumberCut(strict, s, k)
  {
    hide Scan;
    if NumberCut(strict, s, k) {
      var n := NumberLength(s[k..]);
      Simulation.NumberLengthSound(s[k..]);
      assert forall q :: k <= q < k + n ==> s[q] == s[k..][q - k];
      BlandScans(strict, s, k, k + n);
    }
  }
}

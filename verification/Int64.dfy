/**
 Decimal text and json_parse_int64 (json_util.c): a scanner that may be broken, the digit
 comparison that rechecks it, and the clamps that follow.
 */
module Int64 {
  import opened Bytes

  const INT64_MIN: int := -0x8000_0000_0000_0000
  const INT64_MAX: int := 0x7FFF_FFFF_FFFF_FFFF
  const INT32_MIN: int := -0x8000_0000
  const INT32_MAX: int := 0x7FFF_FFFF

  // What one sscanf call reports: whether it converted, the number, and whether errno is ERANGE.
  datatype Scan = Scan(converted: bool, num: int, erange: bool)

  predicate AllDigits(s: Text) {
    forall i :: 0 <= i < |s| ==> IsDigit(s[i])
  }

  /** The number that a string of decimal digits denotes. */
  function Value(digits: Text): (v: int)
    requires AllDigits(digits)
    ensures v >= 0
  {
    if digits == [] then 0
    else 10 * Value(digits[..|digits| - 1]) + (digits[|digits| - 1] - ZERO) as int
  }

  /** The digits that printf writes for a non-negative number. */
  function Decimal(n: nat): (s: Text)
    ensures |s| > 0 && AllDigits(s)
    ensures Value(s) == n
  {
    if n < 10 then
      var s := [ZERO + n as byte];
      assert s[..0] == [];
      s
    else
      var s := Decimal(n / 10) + [ZERO + (n % 10) as byte];
      assert s[..|s| - 1] == Decimal(n / 10);
      s
  }

  /** `%lld`: a sign and the digits. */
  function Signed(i: int): (s: Text) {
    if i < 0 then [MINUS] + Decimal(-i) else Decimal(i)
  }

  /** The digits without leading zeros, except that one digit always stays. */
  predicate Canonical(digits: Text) {
    AllDigits(digits) && |digits| > 0 && (digits[0] == ZERO ==> |digits| == 1)
  }

  lemma {:induction false} DecimalCanonical(n: nat)
    ensures Canonical(Decimal(n))
    ensures n > 0 ==> Decimal(n)[0] != ZERO
  {
    if n < 10 {
    } else {
      DecimalCanonical(n / 10);
    }
  }

  lemma {:induction false} ValuePositive(digits: Text)
    requires AllDigits(digits) && |digits| > 0 && digits[0] != ZERO
    ensures Value(digits) > 0
  {
    if |digits| == 1 {
    } else {
      ValuePositive(digits[..|digits| - 1]);
    }
  }

  /** Printing what canonical digits denote gives the digits back. */
  lemma {:induction false} DecimalOfValue(digits: Text)
    requires Canonical(digits)
    ensures Decimal(Value(digits)) == digits
  {
    var n := |digits| - 1;
    if n == 0 {
      assert digits[..0] == [];
      assert Value(digits) == (digits[0] - ZERO) as nat;
    } else {
      ValuePositive(digits[..n]);
      DecimalOfValue(digits[..n]);
      assert digits == digits[..n] + [digits[n]];
    }
  }

  lemma {:induction false} LeadingZero(digits: Text)
    requires AllDigits(digits) && |digits| > 0 && digits[0] == ZERO
    ensures Value(digits) == Value(digits[1..])
  {
    var n := |digits| - 1;
    if n == 0 {
      assert digits[..0] == [] && digits[1..] == [];
    } else {
      LeadingZero(digits[..n]);
      assert digits[..n][1..] == digits[1..][..n - 1];
    }
  }

  function SkipSpaces(s: Text): Text {
    if s != [] && IsSpace(s[0]) then SkipSpaces(s[1..]) else s
  }

  /** How many leading bytes are digits. */
  function DigitCount(s: Text): (n: nat)
    ensures n <= |s| && AllDigits(s[..n])
    ensures n < |s| ==> !IsDigit(s[n])
  {
    if s == [] || !IsDigit(s[0]) then 0
    else
      var n := 1 + DigitCount(s[1..]);
      assert s[..n] == [s[0]] + s[1..][..n - 1];
      n
  }

  function Clamp(low: int, high: int, i: int): int {
    if i < low then low else if i > high then high else i
  }

  function Clamp64(i: int): int {
    Clamp(INT64_MIN, INT64_MAX, i)
  }

  /** The integer written at the start of a text, if one is there. */
  function WrittenInt(s: Text): Option<int> {
    var t := SkipSpaces(s);
    var negative := t != [] && t[0] == MINUS;
    var digits := if t != [] && (t[0] == MINUS || t[0] == PLUS) then t[1..] else t;
    var n := DigitCount(digits);
    if n == 0 then None
    else Some(if negative then -Value(digits[..n]) else Value(digits[..n]))
  }

  /** What a conforming `%lld` scan reports. */
  function Conforming(s: Text): Scan {
    match WrittenInt(s)
    case None => Scan(false, 0, false)
    case Some(i) => Scan(true, Clamp64(i), i < INT64_MIN || i > INT64_MAX)
  }

  /** json_parse_int64 with a conforming scanner: the written integer, clamped. */
  function ParseInt64(s: Text): Option<int> {
    match WrittenInt(s)
    case None => None
    case Some(i) => Some(Clamp64(i))
  }

  // The text after the spaces, taken apart: an optional minus, all the digits, the rest.
  datatype Shape = Shape(negative: bool, digits: Text, tail: Text) {
    predicate Valid() {
      && |digits| > 0
      && AllDigits(digits)
      && (tail != [] ==> !IsDigit(tail[0]))
    }

    function Text(): Text {
      (if negative then [MINUS] else []) + digits + tail
    }

    function Denotes(): int
      requires Valid()
    {
      if negative then -Value(digits) else Value(digits)
    }
  }

  /** The zero-skipping loop: leading zeros go while another byte follows. */
  function SkipZeros(s: Text): Text {
    if |s| > 1 && s[0] == ZERO then SkipZeros(s[1..]) else s
  }

  /** strncmp(s, word, strlen(word)) == 0 && !(strlen(s) != strlen(word) && isdigit(s[strlen(word)])) */
  predicate SameNumber(s: Text, word: Text) {
    && word <= s
    && (|s| > |word| ==> !IsDigit(s[|word|]))
  }

  /** The recheck: the scanned number printed again is the text that was read. */
  predicate Recheck(t: Text, num: int) {
    var negative := t != [] && t[0] == MINUS;
    var digits := SkipZeros(if negative then t[1..] else t);
    && (num < 0) == (num != 0 && negative)
    && SameNumber(digits, Decimal(if num < 0 then -num else num))
  }

  /** json_parse_int64 on the text after the spaces, for any scanner and either setting of sscanf_is_broken. */
  function Checked(t: Text, scan: Scan, broken: bool): Option<int> {
    var negative := t != [] && t[0] == MINUS;
    if !scan.converted then None
    else if scan.erange then Some(if negative then INT64_MIN else INT64_MAX)
    else if !broken || Recheck(t, scan.num) then Some(scan.num)
    else Some(if negative && scan.num != 0 then INT64_MIN else INT64_MAX)
  }

  /** json_parse_int64 itself; a zero rc is success. */
  method JsonParseInt64(buf: Text, broken: bool, scan: Scan) returns (rc: int, retval: int)
    ensures (rc == 0) == Checked(SkipSpaces(buf), scan, broken).Some?
    ensures rc == 0 ==> retval == Checked(SkipSpaces(buf), scan, broken).value
  {
    hide Value, Decimal, AllDigits;
    var at := 0;
    while at < |buf| && IsSpace(buf[at])
      invariant at <= |buf|
      invariant SkipSpaces(buf[at..]) == SkipSpaces(buf)
    {
      at := at + 1;
    }
    var text := buf[at..];
    if !scan.converted {
      return 1, 0;
    }
    var num := scan.num;
    var erange := scan.erange;
    var origNegative := false;
    var sig := 0;
    if text != [] && text[0] == MINUS {
      sig := 1;
      origNegative := true;
    }
    if broken && !erange {
      ghost var digits := text[sig..];
      while sig + 1 < |text| && text[sig] == ZERO
        invariant sig <= |text|
        invariant SkipZeros(text[sig..]) == SkipZeros(digits)
      {
        assert text[sig..][1..] == text[sig + 1..];
        sig := sig + 1;
      }
      if num == 0 {
        origNegative := false;
      }
      var printed := Signed(num);
      var recheckNegative := num < 0;
      if recheckNegative {
        printed := printed[1..];
      }
      var rest := text[sig..];
      if origNegative != recheckNegative || !(printed <= rest)
        || (|rest| != |printed| && IsDigit(rest[|printed|]))
      {
        erange := true;
      }
    }
    if erange {
      num := if origNegative then INT64_MIN else INT64_MAX;
    }
    return 0, num;
  }

  lemma {:induction false} SkipZerosCanonical(digits: Text, tail: Text)
    requires AllDigits(digits) && |digits| > 0
    requires tail == [] || Value(digits) != 0
    ensures exists c :: Canonical(c) && SkipZeros(digits + tail) == c + tail && Value(c) == Value(digits)
  {
    if digits[0] == ZERO && |digits + tail| > 1 {
      LeadingZero(digits);
      assert digits == [digits[0]] + digits[1..];
      assert (digits + tail)[1..] == digits[1..] + tail;
      SkipZerosCanonical(digits[1..], tail);
    } else {
      assert Canonical(digits);
    }
  }

  lemma {:induction false} SkipZerosAllZero(digits: Text, tail: Text)
    requires AllDigits(digits) && Value(digits) == 0
    requires tail != [] && !IsDigit(tail[0])
    ensures SkipZeros(digits + tail) == tail
  {
    if digits == [] {
      assert digits + tail == tail;
    } else {
      if digits[0] != ZERO {
        ValuePositive(digits);
      }
      LeadingZero(digits);
      assert (digits + tail)[1..] == digits[1..] + tail;
      SkipZerosAllZero(digits[1..], tail);
    }
  }

  lemma CanonicalMatch(c: Text, tail: Text, n: nat)
    requires Canonical(c) && (tail != [] ==> !IsDigit(tail[0]))
    ensures SameNumber(c + tail, Decimal(n)) <==> n == Value(c)
  {
    DecimalOfValue(c);
    var s := c + tail;
    var d := Decimal(n);
    assert forall k :: 0 <= k < |c| ==> IsDigit(s[k]) && s[k] == c[k];
    assert d <= s ==> forall k :: 0 <= k < |d| ==> s[k] == d[k] && IsDigit(s[k]);
    assert forall k :: 0 <= k < |tail| ==> s[|c| + k] == tail[k];
    assert d <= s && |d| == |c| ==> d == c;
  }

  /**
   The recheck is exact. Whatever int64 the scanner returned, it is accepted if and only if it is
   the number written; the one exception is a zero that something other than the end follows.
   */
  lemma RecheckExact(sh: Shape, num: int)
    requires sh.Valid()
    ensures Recheck(sh.Text(), num) <==> num == sh.Denotes() && (sh.tail == [] || sh.Denotes() != 0)
  {
    var t := sh.Text();
    assert t[0] == (if sh.negative then MINUS else sh.digits[0]);
    assert (t[0] == MINUS) == sh.negative;
    var body := if sh.negative then t[1..] else t;
    assert body == sh.digits + sh.tail;
    var magnitude := if num < 0 then -num else num;
    if sh.tail == [] || Value(sh.digits) != 0 {
      SkipZerosCanonical(sh.digits, sh.tail);
      var c :| Canonical(c) && SkipZeros(body) == c + sh.tail && Value(c) == Value(sh.digits);
      CanonicalMatch(c, sh.tail, magnitude);
    } else {
      SkipZerosAllZero(sh.digits, sh.tail);
      assert IsDigit(Decimal(magnitude)[0]);
    }
  }

  lemma {:induction false} DigitCountOf(digits: Text, tail: Text)
    requires AllDigits(digits) && (tail != [] ==> !IsDigit(tail[0]))
    ensures DigitCount(digits + tail) == |digits|
  {
    if digits == [] {
      assert digits + tail == tail;
    } else {
      assert (digits + tail)[1..] == digits[1..] + tail;
      DigitCountOf(digits[1..], tail);
    }
  }

  lemma ShapeWritten(sh: Shape)
    requires sh.Valid()
    ensures WrittenInt(sh.Text()) == Some(sh.Denotes())
  {
    hide Value, DigitCount;
    var t := sh.Text();
    assert t[0] == (if sh.negative then MINUS else sh.digits[0]);
    assert SkipSpaces(t) == t;
    var body := if sh.negative then t[1..] else t;
    assert body == sh.digits + sh.tail;
    DigitCountOf(sh.digits, sh.tail);
    assert body[..|sh.digits|] == sh.digits;
  }

  /**
   What json_parse_int64 makes of "-?digits" with any int64 that the scanner returns without ERANGE:
   the scanned value when it is the written one, and otherwise the bound on the side of the sign. For
   a number out of range that is the right answer unless a minus was written and zero was scanned.
   */
  lemma RecheckRepairs(negative: bool, digits: Text, num: int)
    requires Shape(negative, digits, []).Valid()
    requires INT64_MIN <= num <= INT64_MAX
    ensures var sh := Shape(negative, digits, []);
            Checked(sh.Text(), Scan(true, num, false), true)
            == Some(if num == sh.Denotes() then num
                    else if negative && num != 0 then INT64_MIN
                    else INT64_MAX)
    ensures var sh := Shape(negative, digits, []);
            (sh.Denotes() < INT64_MIN || sh.Denotes() > INT64_MAX)
            ==> (Checked(sh.Text(), Scan(true, num, false), true) == ParseInt64(sh.Text())
                 <==> (num != 0 || !negative))
  {
    var sh := Shape(negative, digits, []);
    var t := sh.Text();
    assert t[0] == (if negative then MINUS else digits[0]);
    RecheckExact(sh, num);
    ShapeWritten(sh);
  }

  /** A conforming scanner needs no recheck, and the function ParseInt64 is what comes back. */
  lemma ConformingParses(s: Text)
    ensures Checked(SkipSpaces(s), Conforming(s), false) == ParseInt64(s)
  {
  }

  /** json_object_get_int clamps the stored 64-bit number; that is the clamp of the true one. */
  lemma ClampTwice(i: int)
    ensures Clamp(INT32_MIN, INT32_MAX, Clamp64(i)) == Clamp(INT32_MIN, INT32_MAX, i)
  {
  }

  /** Printing an int64 and reading it back, whatever non-digit follows. */
  lemma SignedRoundTrip(i: int)
    requires INT64_MIN <= i <= INT64_MAX
    ensures ParseInt64(Signed(i)) == Some(i)
  {
    var n: nat := if i < 0 then -i else i;
    var sh := Shape(i < 0, Decimal(n), []);
    ShapeWritten(sh);
    assert sh.Text() == Signed(i);
  }
}

/**
 The routing attributes of librmnetctl.c: attributes appended to a message buffer, nested ones whose
 length is filled in later, and the walk that finds them again.
 */
module Netlink {
  import opened Bytes

  // struct nlmsg: nlmsghdr, ifinfomsg and data[NLMSG_DATA_SIZE]. Multi-byte fields are little-endian.
  const HEADERS: nat := 32
  const DATA_SIZE: nat := 500
  const RTATTR: nat := 4
  const NLA_TYPE_MASK: nat := 0x3FFF

  const IFLA_IFNAME: nat := 3
  const IFLA_LINK: nat := 5
  const IFLA_LINKINFO: nat := 18
  const IFLA_INFO_KIND: nat := 1
  const IFLA_INFO_DATA: nat := 2
  const RMNETCTL_IFLA_MUX_ID: nat := 1
  const RMNETCTL_IFLA_FLAGS: nat := 2
  const RMNETCTL_IFLA_DFC_QOS: nat := 3
  const RMNETCTL_IFLA_UPLINK_PARAMS: nat := 4
  const RMNETCTL_IFLA_MAX: nat := 5

  const RMNET: Text := [114, 109, 110, 101, 116]

  // ---------------------------------------------------------------- bytes

  /** NLMSG_ALIGN and RTA_ALIGN */
  function Align(n: nat): (r: nat)
    ensures n <= r < n + 4 && r % 4 == 0
  {
    (n + 3) / 4 * 4
  }

  function Zeros(n: nat): (s: Text)
    ensures |s| == n && forall i :: 0 <= i < n ==> s[i] == 0
  {
    seq(n, _ => 0)
  }

  function U16(n: nat): (s: Text)
    requires n < 0x10000
    ensures |s| == 2
  {
    [(n % 256) as byte, (n / 256) as byte]
  }

  function U32(n: nat): (s: Text)
    requires n < 0x1_0000_0000
    ensures |s| == 4
  {
    U16(n % 0x10000) + U16(n / 0x10000)
  }

  function Get16(s: Text, p: nat): (n: nat)
    requires p + 2 <= |s|
    ensures n < 0x10000
  {
    s[p] as nat + s[p + 1] as nat * 256
  }

  function Get32(s: Text, p: nat): nat
    requires p + 4 <= |s|
  {
    Get16(s, p) + Get16(s, p + 2) * 0x10000
  }

  /** The bytes x are found at p. */
  predicate Holds(s: Text, p: nat, x: Text) {
    p + |x| <= |s| && s[p..p + |x|] == x
  }

  lemma Get16Back(s: Text, p: nat, n: nat)
    requires n < 0x10000 && Holds(s, p, U16(n))
    ensures Get16(s, p) == n
  {
    assert s[p..p + 2][0] == s[p] && s[p..p + 2][1] == s[p + 1];
  }

  lemma HoldsPart(s: Text, p: nat, x: Text, y: Text)
    requires Holds(s, p, x + y)
    ensures Holds(s, p, x) && Holds(s, p + |x|, y)
  {
    assert (x + y)[..|x|] == x && (x + y)[|x|..] == y;
    assert s[p..p + |x|] == s[p..p + |x + y|][..|x|];
    assert s[p + |x|..p + |x| + |y|] == s[p..p + |x + y|][|x|..];
  }

  lemma Get32Back(s: Text, p: nat, n: nat)
    requires n < 0x1_0000_0000 && Holds(s, p, U32(n))
    ensures Get32(s, p) == n
  {
    HoldsPart(s, p, U16(n % 0x10000), U16(n / 0x10000));
    Get16Back(s, p, n % 0x10000);
    Get16Back(s, p + 2, n / 0x10000);
  }

  // ---------------------------------------------------------------- attributes

  // What a message says: attributes with data, and attributes that hold others.
  datatype Attr = Leaf(kind: nat, data: Text) | Nest(kind: nat, kids: seq<Attr>)

  function Padded(data: Text): (s: Text)
    ensures |s| == Align(|data|)
  {
    data + Zeros(Align(|data|) - |data|)
  }

  function Header(len: nat, kind: nat): (s: Text)
    requires len < 0x10000 && kind < 0x10000
    ensures |s| == 4
  {
    U16(len) + U16(kind)
  }

  /** rta_len: it does not count the padding of data, and it covers exactly the children of a nest. */
  function RtaLen(a: Attr): (n: nat)
    ensures n >= RTATTR
    decreases a, 1
  {
    match a
    case Leaf(_, data) => RTATTR + |data|
    case Nest(_, kids) => RTATTR + SizeAll(kids)
  }

  function SizeAll(attrs: seq<Attr>): (n: nat)
    ensures n % 4 == 0
    decreases attrs, 0
  {
    if attrs == [] then 0 else Align(RtaLen(attrs[0])) + SizeAll(attrs[1..])
  }

  /** Every length and type fits its 16 bits. */
  predicate Fits(a: Attr) {
    && 0 < a.kind <= NLA_TYPE_MASK && RtaLen(a) < 0x10000
    && (a.Nest? ==> FitAll(a.kids))
  }

  predicate FitAll(attrs: seq<Attr>) {
    attrs == [] || (Fits(attrs[0]) && FitAll(attrs[1..]))
  }

  lemma AlignBody(n: nat)
    ensures Align(RTATTR + n) == RTATTR + Align(n) && (n % 4 == 0 ==> Align(n) == n)
  {
  }

  function Encode(a: Attr): (s: Text)
    requires Fits(a)
    ensures |s| == Align(RtaLen(a))
    decreases a, 1
  {
    AlignBody(if a.Leaf? then |a.data| else SizeAll(a.kids));
    Header(RtaLen(a), a.kind)
    + match a
      case Leaf(_, data) => Padded(data)
      case Nest(_, kids) => EncodeAll(kids)
  }

  function EncodeAll(attrs: seq<Attr>): (s: Text)
    requires FitAll(attrs)
    ensures |s| == SizeAll(attrs)
    decreases attrs, 0
  {
    if attrs == [] then [] else Encode(attrs[0]) + EncodeAll(attrs[1..])
  }

  // ---------------------------------------------------------------- the walk

  /** RTA_OK */
  predicate RtaOk(s: Text, p: nat, len: int)
    requires len <= 0 || p + len <= |s|
  {
    len >= RTATTR && RTATTR <= Get16(s, p) <= len
  }

  /** rta_find */
  function Find(s: Text, p: nat, len: int, kind: nat): (r: Option<nat>)
    requires len <= 0 || p + len <= |s|
    ensures r.Some? ==> p <= r.value && r.value + RTATTR <= |s| && RTATTR <= Get16(s, r.value)
    ensures r.Some? ==> r.value + Get16(s, r.value) <= |s|
    decreases if len > 0 then len else 0
  {
    if !RtaOk(s, p, len) then None
    else if Get16(s, p + 2) == kind % (NLA_TYPE_MASK + 1) then Some(p)
    else
      var step := Align(Get16(s, p)); Find(s, p + step, len - step, kind)
  }

  /** Where the first attribute of a kind lies. */
  function FirstOf(attrs: seq<Attr>, p: nat, kind: nat): Option<nat> {
    if attrs == [] then None
    else if attrs[0].kind == kind then Some(p)
    else FirstOf(attrs[1..], p + Align(RtaLen(attrs[0])), kind)
  }

  lemma HeaderBack(s: Text, p: nat, a: Attr)
    requires Fits(a) && Holds(s, p, Encode(a))
    ensures p + 4 <= |s| && Get16(s, p) == RtaLen(a) && Get16(s, p + 2) == a.kind
    ensures match a
            case Leaf(_, data) => Holds(s, p + 4, data)
            case Nest(_, kids) => Holds(s, p + 4, EncodeAll(kids))
  {
    hide Holds, U16;
    var body := match a case Leaf(_, data) => Padded(data) case Nest(_, kids) => EncodeAll(kids);
    HoldsPart(s, p, Header(RtaLen(a), a.kind), body);
    HoldsPart(s, p, U16(RtaLen(a)), U16(a.kind));
    Get16Back(s, p, RtaLen(a));
    Get16Back(s, p + 2, a.kind);
    if a.Leaf? {
      HoldsPart(s, p + 4, a.data, Zeros(Align(|a.data|) - |a.data|));
    }
  }

  /** rta_find finds the first attribute of a kind, and what is there is its encoding. */
  lemma {:induction false} FindsFirst(s: Text, p: nat, attrs: seq<Attr>, kind: nat)
    requires FitAll(attrs) && Holds(s, p, EncodeAll(attrs)) && kind <= NLA_TYPE_MASK
    ensures Find(s, p, SizeAll(attrs), kind) == FirstOf(attrs, p, kind)
    decreases |attrs|
  {
    hide Encode, Holds, Align, RtaLen, Get16, EncodeAll, Find;
    if attrs == [] {
      FindNothing(s, p, kind);
    } else {
      var a, rest := attrs[0], attrs[1..];
      EncodeFirst(attrs);
      HoldsBounds(s, p, EncodeAll(attrs));
      HoldsPart(s, p, Encode(a), EncodeAll(rest));
      HeaderBack(s, p, a);
      var step := Align(RtaLen(a));
      assert SizeAll(attrs) == step + SizeAll(rest);
      FindStep(s, p, SizeAll(attrs), kind);
      if a.kind != kind {
        FindsFirst(s, p + step, rest, kind);
      }
    }
  }

  lemma FindNothing(s: Text, p: nat, kind: nat)
    ensures Find(s, p, 0, kind) == None
  {
  }

  lemma FindStep(s: Text, p: nat, len: nat, kind: nat)
    requires p + len <= |s| && RtaOk(s, p, len) && kind <= NLA_TYPE_MASK
    ensures Find(s, p, len, kind)
            == if Get16(s, p + 2) == kind then Some(p)
               else Find(s, p + Align(Get16(s, p)), len - Align(Get16(s, p)), kind)
  {
    hide Get16, Align;
  }

  lemma EncodeFirst(attrs: seq<Attr>)
    requires FitAll(attrs) && attrs != []
    ensures EncodeAll(attrs) == Encode(attrs[0]) + EncodeAll(attrs[1..])
  {
  }

  lemma HoldsBounds(s: Text, p: nat, x: Text)
    requires Holds(s, p, x)
    ensures p + |x| <= |s|
  {
  }

  lemma {:induction false} FirstHolds(s: Text, p: nat, attrs: seq<Attr>, i: nat)
    requires FitAll(attrs) && Holds(s, p, EncodeAll(attrs)) && i < |attrs|
    requires forall j :: 0 <= j < i ==> attrs[j].kind != attrs[i].kind
    ensures Fits(attrs[i])
    ensures match FirstOf(attrs, p, attrs[i].kind)
            case Some(q) => Holds(s, q, Encode(attrs[i]))
            case None => false
    decreases |attrs|
  {
    hide Encode, Holds, Align, RtaLen;
    HoldsPart(s, p, Encode(attrs[0]), EncodeAll(attrs[1..]));
    if i == 0 {
    } else {
      FirstHolds(s, p + Align(RtaLen(attrs[0])), attrs[1..], i - 1);
    }
  }

  function NoEntries(maxtype: nat): (tb: seq<Option<nat>>)
    ensures |tb| == maxtype && forall i :: 0 <= i < maxtype ==> tb[i] == None
  {
    seq(maxtype, _ => None)
  }

  /** The entries of a table lead to headers in the text. */
  predicate InText(tb: seq<Option<nat>>, s: Text) {
    forall i :: 0 <= i < |tb| && tb[i].Some? ==> tb[i].value + RTATTR <= |s|
  }

  function KindAt(s: Text, p: nat): (kind: nat)
    requires p + RTATTR <= |s|
    ensures kind <= NLA_TYPE_MASK
  {
    Get16(s, p + 2) % (NLA_TYPE_MASK + 1)
  }

  /** The walk comes upon an attribute of a kind. */
  predicate Meets(s: Text, p: nat, len: int, kind: nat)
    requires len <= 0 || p + len <= |s|
    decreases if len > 0 then len else 0
  {
    && RtaOk(s, p, len)
    && (KindAt(s, p) == kind || Meets(s, p + Align(Get16(s, p)), len - Align(Get16(s, p)), kind))
  }

  /** The table that rta_parse fills: the last attribute of each kind. It has `maxtype` entries, so that
      an attribute of the kind `maxtype` itself would be written behind its end. */
  function Table(s: Text, p: nat, len: int, maxtype: nat, tb: seq<Option<nat>>): (r: seq<Option<nat>>)
    requires (len <= 0 || p + len <= |s|) && |tb| == maxtype
    ensures |r| == |tb| && (InText(tb, s) ==> InText(r, s))
    decreases if len > 0 then len else 0
  {
    if !RtaOk(s, p, len) then tb
    else
      var kind, step := KindAt(s, p), Align(Get16(s, p));
      Table(s, p + step, len - step, maxtype, if 0 < kind < maxtype then tb[kind := Some(p)] else tb)
  }

  /** Where the last attribute of a kind lies, or what was known before. */
  function LastOf(attrs: seq<Attr>, p: nat, kind: nat, known: Option<nat>): Option<nat> {
    if attrs == [] then known
    else LastOf(attrs[1..], p + Align(RtaLen(attrs[0])), kind, if attrs[0].kind == kind then Some(p) else known)
  }

  predicate HasKind(attrs: seq<Attr>, kind: nat) {
    exists i :: 0 <= i < |attrs| && attrs[i].kind == kind
  }

  /** On encoded attributes the table overflows if and only if one of them has the kind `maxtype`. */
  lemma {:induction false} MeetsKind(s: Text, p: nat, attrs: seq<Attr>, kind: nat)
    requires FitAll(attrs) && Holds(s, p, EncodeAll(attrs))
    ensures p + SizeAll(attrs) <= |s|
    ensures Meets(s, p, SizeAll(attrs), kind) <==> HasKind(attrs, kind)
    decreases |attrs|
  {
    hide Encode, Holds, Align, RtaLen, Get16, EncodeAll, Meets;
    HoldsBounds(s, p, EncodeAll(attrs));
    if attrs == [] {
      NothingMet(s, p, kind);
    } else {
      var a, rest := attrs[0], attrs[1..];
      EncodeFirst(attrs);
      HoldsPart(s, p, Encode(a), EncodeAll(rest));
      HeaderBack(s, p, a);
      var step := Align(RtaLen(a));
      assert SizeAll(attrs) == step + SizeAll(rest);
      MeetsStep(s, p, SizeAll(attrs), kind);
      MeetsKind(s, p + step, rest, kind);
      KindSplit(attrs, kind);
    }
  }

  lemma KindSplit(attrs: seq<Attr>, kind: nat)
    requires attrs != []
    ensures HasKind(attrs, kind) <==> attrs[0].kind == kind || HasKind(attrs[1..], kind)
  {
    if HasKind(attrs, kind) && attrs[0].kind != kind {
      var i :| 0 <= i < |attrs| && attrs[i].kind == kind;
      assert attrs[1..][i - 1].kind == kind;
    }
  }

  lemma NothingMet(s: Text, p: nat, kind: nat)
    ensures !Meets(s, p, 0, kind)
  {
  }

  lemma MeetsStep(s: Text, p: nat, len: nat, kind: nat)
    requires p + len <= |s| && RtaOk(s, p, len) && Get16(s, p + 2) <= NLA_TYPE_MASK
    ensures Meets(s, p, len, kind)
            <==> Get16(s, p + 2) == kind || Meets(s, p + Align(Get16(s, p)), len - Align(Get16(s, p)), kind)
  {
    hide Get16, Align;
  }

  lemma {:induction false} TableHolds(
    s: Text, p: nat, attrs: seq<Attr>, maxtype: nat, tb: seq<Option<nat>>, kind: nat)
    requires FitAll(attrs) && Holds(s, p, EncodeAll(attrs)) && |tb| == maxtype && kind < maxtype
    ensures p + SizeAll(attrs) <= |s|
    ensures Table(s, p, SizeAll(attrs), maxtype, tb)[kind] == LastOf(attrs, p, kind, tb[kind])
    decreases |attrs|
  {
    hide Encode, Holds, Align, RtaLen, Get16, EncodeAll, Table;
    HoldsBounds(s, p, EncodeAll(attrs));
    if attrs == [] {
      TableEnd(s, p, maxtype, tb);
    } else {
      var a, rest := attrs[0], attrs[1..];
      EncodeFirst(attrs);
      HoldsPart(s, p, Encode(a), EncodeAll(rest));
      HeaderBack(s, p, a);
      var step := Align(RtaLen(a));
      assert SizeAll(attrs) == step + SizeAll(rest);
      TableStep(s, p, SizeAll(attrs), maxtype, tb);
      TableHolds(s, p + step, rest, maxtype, if a.kind < maxtype then tb[a.kind := Some(p)] else tb, kind);
    }
  }

  lemma TableEnd(s: Text, p: nat, maxtype: nat, tb: seq<Option<nat>>)
    requires |tb| == maxtype
    ensures Table(s, p, 0, maxtype, tb) == tb
  {
  }

  lemma TableStep(s: Text, p: nat, len: nat, maxtype: nat, tb: seq<Option<nat>>)
    requires p + len <= |s| && |tb| == maxtype && RtaOk(s, p, len) && 0 < Get16(s, p + 2) <= NLA_TYPE_MASK
    ensures var kind, step := Get16(s, p + 2), Align(Get16(s, p));
            Table(s, p, len, maxtype, tb)
            == Table(s, p + step, len - step, maxtype, if kind < maxtype then tb[kind := Some(p)] else tb)
  {
    hide Get16, Align;
  }

  lemma AlignBounds(n: nat)
    ensures n <= Align(n) < n + 4 && Align(n) % 4 == 0
  {
  }

  /** The positions in a message whose name takes `pad` bytes. */
  lemma AlignSteps(pad: nat)
    requires pad % 4 == 0
    ensures Align(HEADERS + 8) == HEADERS + 8 && Align(HEADERS + 12 + pad) == HEADERS + 12 + pad
    ensures Align(HEADERS + 16 + pad) == HEADERS + 16 + pad && Align(HEADERS + 28 + pad) == HEADERS + 28 + pad
  {
  }

  lemma SmallSteps(n: nat)
    ensures n % 4 == 0 ==> Align(n) == n && Align(n + 8) == n + 8 && Align(n + 20) == n + 20 && Align(n + 24) == n + 24
    ensures Align(2) == 4 && Align(6) == 8 && Align(8) == 8 && Align(20) == 20
  {
  }

  lemma AlignAligned(n: nat, len: nat)
    ensures (Align(n) + Align(len)) % 4 == 0 && Align(Align(n) + Align(len)) == Align(n) + Align(len)
  {
  }

  // ---------------------------------------------------------------- building a message

  predicate ZeroFrom(s: Text, n: nat) {
    forall i :: n <= i < |s| ==> s[i] == 0
  }

  /** The text with the bytes x at p. */
  function Patched(s: Text, p: nat, x: Text): (r: Text)
    requires p + |x| <= |s|
    ensures |r| == |s|
  {
    s[..p] + x + s[p + |x|..]
  }

  /** Header and data are put at `attr`, where there were zeros up to the end. */
  lemma Appended(s: Text, attr: nat, h: Text, d: Text, end: nat)
    requires HEADERS <= attr && attr + |h| + |d| <= end <= |s| && ZeroFrom(s, attr)
    ensures var r := Patched(Patched(s, attr, h), attr + |h|, d);
            && ZeroFrom(r, end)
            && r[HEADERS..end] == s[HEADERS..attr] + h + (d + Zeros(end - attr - |h| - |d|))
  {
    var k := attr + |h| + |d|;
    var r := Patched(Patched(s, attr, h), attr + |h|, d);
    assert r == s[..attr] + h + d + s[k..];
    assert s[k..end] == Zeros(end - k);
    assert r[HEADERS..end] == s[HEADERS..attr] + h + d + s[k..end];
  }

  lemma PatchedInside(s: Text, p: nat, x: Text, end: nat)
    requires HEADERS <= p && p + |x| <= end <= |s| && ZeroFrom(s, end)
    ensures ZeroFrom(Patched(s, p, x), end)
    ensures Patched(s, p, x)[HEADERS..end] == Patched(s[HEADERS..end], p - HEADERS, x)
  {
  }

  const SUCCESS: int := 0

  /** struct nlmsg with its nlmsg_len; memset has cleared the rest. */
  class Request {
    var buf: array<byte>
    var nlmsgLen: nat

    ghost predicate Valid()
      reads this, buf
    {
      && buf.Length == HEADERS + DATA_SIZE && HEADERS <= nlmsgLen && Align(nlmsgLen) <= buf.Length
      && nlmsgLen % 4 == 0
      && ZeroFrom(buf[..], Align(nlmsgLen))
    }

    /** The attributes so far. */
    ghost function Attributes(): (s: Text)
      reads this, buf
      requires Valid()
      ensures |s| == Align(nlmsgLen) - HEADERS
    {
      buf[..][HEADERS..Align(nlmsgLen)]
    }

    constructor ()
      ensures Valid() && fresh(buf) && nlmsgLen == HEADERS && Attributes() == []
    {
      buf := new byte[HEADERS + DATA_SIZE](_ => 0);
      nlmsgLen := HEADERS;
    }

    /** Bytes are copied to p. */
    method Copy(p: nat, data: Text)
      requires p + |data| <= buf.Length
      modifies buf
      ensures buf[..] == Patched(old(buf[..]), p, data)
    {
      forall i | 0 <= i < |data| {
        buf[p + i] := data[i];
      }
    }

    /**
     rta_put: an attribute is appended. memscpy_repeat copies the data only while there is more space
     than data, and its complaint is positive, so that CHECK_MEMSCPY never sees it.
     */
    method RtaPut(reqsize: nat, kind: nat, len: nat, data: Option<Text>) returns (rc: int, left: nat)
      requires Valid() && kind < 0x10000 && (data.Some? ==> |data.value| == len)
      requires Align(nlmsgLen) + RTATTR + Align(len) <= buf.Length
      modifies this, buf
      ensures Valid() && buf == old(buf) && rc == SUCCESS
      ensures nlmsgLen == Align(old(nlmsgLen)) + RTATTR + Align(len)
      ensures left == if data.Some? && reqsize > len then reqsize - len else reqsize
      ensures Attributes()
              == old(Attributes()) + Header(RTATTR + len, kind)
                 + if data.Some? && reqsize > len then Padded(data.value) else Zeros(Align(len))
    {
      hide Header, U16, Align, Zeros;
      AlignBody(len);
      AlignAligned(nlmsgLen, len);
      var copied := data.Some? && reqsize > len;
      var d := if copied then data.value else [];
      ghost var body := if copied then Padded(data.value) else Zeros(Align(len));
      ghost var pad := Align(len) - |d|;
      assert body == d + Zeros(pad);
      Append(Header(RTATTR + len, kind), d, Align(nlmsgLen) + Align(RTATTR + len));
      return SUCCESS, if copied then reqsize - len else reqsize;
    }

    /** The header and the data are copied to the tail of the message, and the length moves to `end`. */
    method Append(h: Text, d: Text, end: nat)
      requires Valid() && Align(nlmsgLen) + |h| + |d| <= end <= buf.Length && end % 4 == 0
      modifies this, buf
      ensures Valid() && buf == old(buf) && nlmsgLen == end
      ensures Attributes() == old(Attributes()) + h + (d + Zeros(end - Align(old(nlmsgLen)) - |h| - |d|))
    {
      hide Zeros, ZeroFrom, Patched;
      var attr := Align(nlmsgLen);
      Appended(buf[..], attr, h, d, end);
      Copy(attr, h);
      Copy(attr + |h|, d);
      nlmsgLen := end;
    }

    /** rta_nested_start: a header whose length is filled in later. */
    method NestedStart(reqsize: nat, kind: nat) returns (rc: int, left: nat, start: nat)
      requires Valid() && kind < 0x10000 && Align(nlmsgLen) + RTATTR <= buf.Length
      modifies this, buf
      ensures Valid() && buf == old(buf) && rc == SUCCESS && left == reqsize
      ensures start == Align(old(nlmsgLen)) && nlmsgLen == start + RTATTR
      ensures Attributes() == old(Attributes()) + Header(RTATTR, kind)
    {
      start := Align(nlmsgLen);
      rc, left := RtaPut(reqsize, kind, 0, None);
      assert Attributes() == old(Attributes()) + Header(RTATTR, kind);
    }

    /** rta_nested_end: the length at `start` becomes the distance to the end of the message. */
    method NestedEnd(start: nat)
      requires Valid() && HEADERS <= start && start + RTATTR <= Align(nlmsgLen)
      modifies buf
      ensures Valid() && buf == old(buf) && nlmsgLen == old(nlmsgLen)
      ensures Attributes() == Patched(old(Attributes()), start - HEADERS, U16(Align(nlmsgLen) - start))
    {
      hide ZeroFrom, Patched;
      PatchedInside(buf[..], start, U16(Align(nlmsgLen) - start), Align(nlmsgLen));
      Copy(start, U16(Align(nlmsgLen) - start));
    }

    /** rta_put_u16, rta_put_u32 and rta_put_string, and rta_put with enough space for its data. */
    method PutData(reqsize: nat, kind: nat, data: Text) returns (rc: int, left: nat)
      requires Valid() && 0 < kind <= NLA_TYPE_MASK && RTATTR + |data| < 0x10000 && reqsize > |data|
      requires Align(nlmsgLen) + RTATTR + Align(|data|) <= buf.Length
      modifies this, buf
      ensures Valid() && buf == old(buf) && rc == SUCCESS && left == reqsize - |data|
      ensures nlmsgLen == Align(old(nlmsgLen)) + RTATTR + Align(|data|)
      ensures Attributes() == old(Attributes()) + Encode(Leaf(kind, data))
    {
      hide Header, Padded, Align;
      rc, left := RtaPut(reqsize, kind, |data|, Some(data));
      assert Attributes() == old(Attributes()) + (Header(RTATTR + |data|, kind) + Padded(data));
    }

    /** The index of the device and the name of the link. */
    method PutFront(reqsize: nat, devindex: nat, name: Text) returns (left: nat)
      requires Valid() && nlmsgLen == HEADERS && reqsize == DATA_SIZE - RTATTR
      requires devindex < 0x1_0000_0000 && |name| < 16
      modifies this, buf
      ensures Valid() && buf == old(buf) && left == reqsize - 5 - |name|
      ensures Attributes() == Front(devindex, name) && nlmsgLen == HEADERS + 12 + Align(|name| + 1)
    {
      assert Attributes() == [] && Align(nlmsgLen) == HEADERS && buf.Length == HEADERS + DATA_SIZE && Align(4) == 4;
      AlignBounds(|name| + 1);
      AlignSteps(Align(|name| + 1));
      hide Encode, U32, Align, Request.Valid, Request.Attributes;
      var rc;
      rc, left := PutData(reqsize, IFLA_LINK, U32(devindex));
      rc, left := PutData(left, IFLA_IFNAME, name + [NUL]);
      assert [] + Encode(LinkLeaf(devindex)) == Encode(LinkLeaf(devindex));
    }

    /** The five attributes that rmnet_fill_newlink_msg and rmnet_fill_flow_msg begin with. */
    method OpenLink(reqsize: nat, devindex: nat, name: Text) returns (left: nat, linkinfo: nat, datainfo: nat)
      requires Valid() && nlmsgLen == HEADERS && reqsize == DATA_SIZE - RTATTR
      requires devindex < 0x1_0000_0000 && |name| < 16
      modifies this, buf
      ensures Valid() && buf == old(buf) && left == reqsize - 11 - |name|
      ensures var front, kind := Front(devindex, name), Encode(KindLeaf());
              && linkinfo == HEADERS + |front| && datainfo == linkinfo + RTATTR + |kind|
              && nlmsgLen == datainfo + RTATTR && nlmsgLen <= HEADERS + 48 && nlmsgLen % 4 == 0
              && Attributes() == Opened(devindex, name)
    {
      left := PutFront(reqsize, devindex, name);
      assert buf.Length == HEADERS + DATA_SIZE && Align(6) == 8 && |Encode(KindLeaf())| == 12;
      assert |Front(devindex, name)| == Align(nlmsgLen) - HEADERS;
      AlignBounds(|name| + 1);
      AlignSteps(Align(|name| + 1));
      hide Encode, Header, Align, Front, KindLeaf, Request.Valid, Request.Attributes;
      var rc;
      rc, left, linkinfo := NestedStart(left, IFLA_LINKINFO);
      rc, left := PutData(left, IFLA_INFO_KIND, RMNET + [NUL]);
      rc, left, datainfo := NestedStart(left, IFLA_INFO_DATA);
    }

    /** rmnet_fill_newlink_msg */
    method FillNewlink(reqsize: nat, devindex: nat, name: Text, index: nat, flagconfig: nat) returns (rc: int)
      requires Valid() && nlmsgLen == HEADERS && reqsize == DATA_SIZE - RTATTR
      requires devindex < 0x1_0000_0000 && |name| < 16 && index < 0x100 && flagconfig < 0x1_0000_0000
      modifies this, buf
      ensures Valid() && buf == old(buf) && rc == SUCCESS
      ensures Attributes() == EncodeAll(LinkMessage(devindex, name, NewlinkData(index, flagconfig)))
      ensures nlmsgLen == HEADERS + SizeAll(LinkMessage(devindex, name, NewlinkData(index, flagconfig)))
    {
      hide Encode, EncodeAll, Header, U32, U16, Align, Front, NewlinkData, LinkMessage;
      var left, linkinfo, datainfo := OpenLink(reqsize, devindex, name);
      ghost var open := Attributes();
      ghost var mux, flags := Leaf(RMNETCTL_IFLA_MUX_ID, U16(index)),
                              Leaf(RMNETCTL_IFLA_FLAGS, U32(flagconfig) + U32(flagconfig));
      NewlinkBytes(index, flagconfig);
      SmallSteps(nlmsgLen);
      rc, left := PutData(left, RMNETCTL_IFLA_MUX_ID, U16(index));
      if flagconfig != 0 {
        rc, left := PutData(left, RMNETCTL_IFLA_FLAGS, U32(flagconfig) + U32(flagconfig));
        assert open + Encode(mux) + Encode(flags) == open + (Encode(mux) + Encode(flags));
      }
      CloseLink(linkinfo, datainfo, devindex, name, NewlinkData(index, flagconfig));
      return SUCCESS;
    }

    /** The two calls of rta_nested_end, the inner one first. */
    method CloseLink(linkinfo: nat, datainfo: nat, ghost devindex: nat, ghost name: Text, ghost kids: seq<Attr>)
      requires Valid() && devindex < 0x1_0000_0000 && |name| < 16 && FitAll(kids) && SizeAll(kids) <= 400
      requires linkinfo == HEADERS + |Front(devindex, name)|
      requires datainfo == linkinfo + RTATTR + |Encode(KindLeaf())|
      requires Attributes() == Opened(devindex, name) + EncodeAll(kids)
      modifies buf
      ensures Valid() && buf == old(buf) && nlmsgLen == old(nlmsgLen)
      ensures Attributes() == EncodeAll(LinkMessage(devindex, name, kids))
    {
      hide Encode, EncodeAll, Header, Align, U16, Front, KindLeaf, LinkMessage;
      CloseBytes(devindex, name, kids);
      NestedEnd(datainfo);
      NestedEnd(linkinfo);
    }

    /** rmnet_fill_flow_msg, for the 20 bytes of a struct tcmsg */
    method FillFlow(reqsize: nat, devindex: nat, name: Text, flowinfo: Text) returns (rc: int)
      requires Valid() && nlmsgLen == HEADERS && reqsize == DATA_SIZE - RTATTR
      requires devindex < 0x1_0000_0000 && |name| < 16 && |flowinfo| == 20
      modifies this, buf
      ensures Valid() && buf == old(buf) && rc == SUCCESS
      ensures Attributes() == EncodeAll(LinkMessage(devindex, name, [Leaf(RMNETCTL_IFLA_DFC_QOS, flowinfo)]))
      ensures nlmsgLen == HEADERS + SizeAll(LinkMessage(devindex, name, [Leaf(RMNETCTL_IFLA_DFC_QOS, flowinfo)]))
    {
      hide Encode, EncodeAll, Header, Align, Front, LinkMessage;
      var left, linkinfo, datainfo := OpenLink(reqsize, devindex, name);
      SmallSteps(nlmsgLen);
      OneLeaf(Leaf(RMNETCTL_IFLA_DFC_QOS, flowinfo));
      rc, left := PutData(left, RMNETCTL_IFLA_DFC_QOS, flowinfo);
      CloseLink(linkinfo, datainfo, devindex, name, [Leaf(RMNETCTL_IFLA_DFC_QOS, flowinfo)]);
      return SUCCESS;
    }
  }

  // ---------------------------------------------------------------- what the messages say

  /** The children of the data attribute of a new link. */
  function NewlinkData(index: nat, flagconfig: nat): (kids: seq<Attr>)
    requires index < 0x100 && flagconfig < 0x1_0000_0000
    ensures FitAll(kids) && SizeAll(kids) <= 20
  {
    var mux, flags := Leaf(RMNETCTL_IFLA_MUX_ID, U16(index)),
                      Leaf(RMNETCTL_IFLA_FLAGS, U32(flagconfig) + U32(flagconfig));
    OneLeaf(mux);
    TwoLeaves(mux, flags);
    if flagconfig == 0 then [mux] else [mux, flags]
  }

  function LinkMessage(devindex: nat, name: Text, kids: seq<Attr>): (attrs: seq<Attr>)
    requires devindex < 0x1_0000_0000 && |name| < 16 && FitAll(kids) && SizeAll(kids) <= 400
    ensures FitAll(attrs)
  {
    PartsFit(devindex, name, kids);
    ThreeLeaves(LinkLeaf(devindex), NameLeaf(name), InfoNest(kids));
    [LinkLeaf(devindex), NameLeaf(name), InfoNest(kids)]
  }

  function LinkLeaf(devindex: nat): Attr
    requires devindex < 0x1_0000_0000
  {
    Leaf(IFLA_LINK, U32(devindex))
  }

  function NameLeaf(name: Text): Attr {
    Leaf(IFLA_IFNAME, name + [NUL])
  }

  function KindLeaf(): Attr {
    Leaf(IFLA_INFO_KIND, RMNET + [NUL])
  }

  function InfoNest(kids: seq<Attr>): Attr {
    Nest(IFLA_LINKINFO, [KindLeaf(), Nest(IFLA_INFO_DATA, kids)])
  }

  lemma PartsFit(devindex: nat, name: Text, kids: seq<Attr>)
    requires devindex < 0x1_0000_0000 && |name| < 16 && FitAll(kids) && SizeAll(kids) <= 400
    ensures Fits(LinkLeaf(devindex)) && Fits(NameLeaf(name)) && Fits(KindLeaf())
    ensures Fits(Nest(IFLA_INFO_DATA, kids)) && Fits(InfoNest(kids))
  {
    hide U32;
    TwoLeaves(KindLeaf(), Nest(IFLA_INFO_DATA, kids));
  }

  lemma OneLeaf(a: Attr)
    requires Fits(a)
    ensures FitAll([a]) && EncodeAll([a]) == Encode(a) && SizeAll([a]) == Align(RtaLen(a))
  {
    assert [a][1..] == [];
    assert EncodeAll([a]) == Encode(a) + [];
  }

  lemma TwoLeaves(a: Attr, b: Attr)
    requires Fits(a) && Fits(b)
    ensures FitAll([a, b]) && EncodeAll([a, b]) == Encode(a) + Encode(b)
    ensures SizeAll([a, b]) == Align(RtaLen(a)) + Align(RtaLen(b))
  {
    hide Encode, Fits, RtaLen, Align;
    OneLeaf(b);
    assert [a, b][1..] == [b];
    EncodeFirst([a, b]);
  }

  lemma ThreeLeaves(a: Attr, b: Attr, c: Attr)
    requires Fits(a) && Fits(b) && Fits(c)
    ensures FitAll([a, b, c]) && EncodeAll([a, b, c]) == Encode(a) + Encode(b) + Encode(c)
  {
    hide Encode, Fits, RtaLen, Align;
    TwoLeaves(b, c);
    assert [a, b, c][1..] == [b, c];
    EncodeFirst([a, b, c]);
    assert Encode(a) + (Encode(b) + Encode(c)) == Encode(a) + Encode(b) + Encode(c);
  }

  lemma NewlinkBytes(index: nat, flagconfig: nat)
    requires index < 0x100 && flagconfig < 0x1_0000_0000
    ensures var mux, flags := Leaf(RMNETCTL_IFLA_MUX_ID, U16(index)),
                              Leaf(RMNETCTL_IFLA_FLAGS, U32(flagconfig) + U32(flagconfig));
            EncodeAll(NewlinkData(index, flagconfig))
            == if flagconfig == 0 then Encode(mux) else Encode(mux) + Encode(flags)
  {
    hide Encode, U32, EncodeAll, U16;
    OneLeaf(Leaf(RMNETCTL_IFLA_MUX_ID, U16(index)));
    TwoLeaves(Leaf(RMNETCTL_IFLA_MUX_ID, U16(index)), Leaf(RMNETCTL_IFLA_FLAGS, U32(flagconfig) + U32(flagconfig)));
  }

  /** Filling in the length of a header. */
  lemma PatchHeader(pre: Text, kind: nat, rest: Text, n: nat)
    requires kind < 0x10000 && n < 0x10000
    ensures Patched(pre + Header(RTATTR, kind) + rest, |pre|, U16(n)) == pre + (Header(n, kind) + rest)
  {
    hide U16;
    var s := pre + Header(RTATTR, kind) + rest;
    assert s[..|pre|] == pre && s[|pre| + 2..] == U16(kind) + rest;
    assert pre + U16(n) + (U16(kind) + rest) == pre + (U16(n) + U16(kind) + rest);
  }

  function Front(devindex: nat, name: Text): Text
    requires devindex < 0x1_0000_0000 && |name| < 16
  {
    Encode(LinkLeaf(devindex)) + Encode(NameLeaf(name))
  }

  /** The attributes up to the header of the data attribute, with both lengths open. */
  function Opened(devindex: nat, name: Text): Text
    requires devindex < 0x1_0000_0000 && |name| < 16
  {
    Front(devindex, name) + Header(RTATTR, IFLA_LINKINFO) + Encode(KindLeaf()) + Header(RTATTR, IFLA_INFO_DATA)
  }

  /** Filling in the two lengths, the inner one first, makes the encoding of the whole message. */
  lemma CloseBytes(devindex: nat, name: Text, kids: seq<Attr>)
    requires devindex < 0x1_0000_0000 && |name| < 16 && FitAll(kids) && SizeAll(kids) <= 400
    ensures var front, kind := Front(devindex, name), Encode(KindLeaf());
            var open := Opened(devindex, name) + EncodeAll(kids);
            var inner := |front| + RTATTR + |kind|;
            Patched(Patched(open, inner, U16(|open| - inner)), |front|, U16(|open| - |front|))
            == EncodeAll(LinkMessage(devindex, name, kids))
  {
    hide Encode, EncodeAll, Header, U16, Patched;
    var front, kind := Front(devindex, name), Encode(KindLeaf());
    var before := front + Header(RTATTR, IFLA_LINKINFO) + kind;
    var data := EncodeAll(kids);
    PatchHeader(before, IFLA_INFO_DATA, data, RTATTR + |data|);
    var body := kind + (Header(RTATTR + |data|, IFLA_INFO_DATA) + data);
    assert before + (Header(RTATTR + |data|, IFLA_INFO_DATA) + data) == front + Header(RTATTR, IFLA_LINKINFO) + body;
    PatchHeader(front, IFLA_LINKINFO, body, RTATTR + |body|);
    NestBytes(devindex, name, kids);
  }

  lemma NestBytes(devindex: nat, name: Text, kids: seq<Attr>)
    requires devindex < 0x1_0000_0000 && |name| < 16 && FitAll(kids) && SizeAll(kids) <= 400
    ensures var kind, data := Encode(KindLeaf()), EncodeAll(kids);
            var body := kind + (Header(RTATTR + |data|, IFLA_INFO_DATA) + data);
            EncodeAll(LinkMessage(devindex, name, kids))
            == Front(devindex, name) + (Header(RTATTR + |body|, IFLA_LINKINFO) + body)
  {
    hide Header, Encode, EncodeAll, RtaLen, LinkLeaf, NameLeaf, KindLeaf, Fits, FitAll;
    var data, info := Nest(IFLA_INFO_DATA, kids), InfoNest(kids);
    PartsFit(devindex, name, kids);
    ThreeLeaves(LinkLeaf(devindex), NameLeaf(name), info);
    TwoLeaves(KindLeaf(), data);
    EncodeNest(info);
    EncodeNest(data);
  }

  lemma EncodeNest(a: Attr)
    requires Fits(a) && a.Nest?
    ensures Encode(a) == Header(RTATTR + |EncodeAll(a.kids)|, a.kind) + EncodeAll(a.kids)
  {
  }

  // ---------------------------------------------------------------- reading a message

  /** rta_find, from the attribute at `rta` with `attrlen` bytes left. */
  method RtaFind(s: Text, rta: nat, attrlen: int, kind: nat) returns (r: Option<nat>)
    requires attrlen <= 0 || rta + attrlen <= |s|
    ensures r == Find(s, rta, attrlen, kind)
  {
    hide Align, Get16;
    var p: nat, len := rta, attrlen;
    while RtaOk(s, p, len)
      invariant (len <= 0 || p + len <= |s|) && Find(s, p, len, kind) == Find(s, rta, attrlen, kind)
      decreases if len > 0 then len else 0
    {
      if Get16(s, p + 2) == kind % (NLA_TYPE_MASK + 1) {
        return Some(p);
      }
      AlignBounds(Get16(s, p));
      var step := Align(Get16(s, p));
      p := p + step;
      len := len - step;
    }
    return None;
  }

  /** rta_parse, whose table has room for the kinds below maxtype only. `behind` says that the source has
      also written right behind the table. */
  method RtaParse(tb: array<Option<nat>>, s: Text, head: nat, length: int, maxtype: nat) returns (behind: bool)
    requires (length <= 0 || head + length <= |s|) && tb.Length == maxtype
    modifies tb
    ensures tb[..] == Table(s, head, length, maxtype, NoEntries(maxtype))
    ensures behind <==> maxtype > 0 && Meets(s, head, length, maxtype)
  {
    hide Align, Get16;
    forall i | 0 <= i < tb.Length {
      tb[i] := None;
    }
    assert tb[..] == NoEntries(maxtype);
    var p: nat, len := head, length;
    behind := false;
    while RtaOk(s, p, len)
      invariant len <= 0 || p + len <= |s|
      invariant Table(s, p, len, maxtype, tb[..]) == Table(s, head, length, maxtype, NoEntries(maxtype))
      invariant maxtype > 0 && Meets(s, head, length, maxtype) <==> behind || (maxtype > 0 && Meets(s, p, len, maxtype))
      decreases if len > 0 then len else 0
    {
      var kind, step := KindAt(s, p), Align(Get16(s, p));
      AlignBounds(Get16(s, p));
      ghost var before := tb[..];
      if kind > 0 && kind <= maxtype {
        if kind == maxtype {
          behind := true;
        } else {
          tb[kind] := Some(p);
        }
      }
      assert tb[..] == if 0 < kind < maxtype then before[kind := Some(p)] else before;
      p := p + step;
      len := len - step;
    }
  }

  // struct rmnetctl_uplink_params
  datatype Uplink = Uplink(bytes: nat, packets: nat, features: nat, time: nat)

  // What rtrmnet_ctl_getvnd reports; an entry that is not there leaves the caller's variables as they were.
  datatype Vnd = NoInfo | Vnd(mux: Option<nat>, flags: Option<nat>, uplink: Option<Uplink>)

  // The length of an attribute is not looked at before its data are read, so that up to 8 bytes behind
  // the message are read when the last attribute is too short.
  const READ_AHEAD: nat := 8

  function UplinkAt(s: Text, q: nat): Uplink
    requires q + RTATTR + READ_AHEAD <= |s|
  {
    Uplink(Get16(s, q + 4), s[q + 6] as nat, s[q + 7] as nat, Get32(s, q + 8))
  }

  /** The attribute with the data of the link. */
  function DataOf(msg: Text): (data: Option<nat>)
    requires HEADERS <= |msg|
    ensures data.Some? ==> data.value + RTATTR <= |msg| && RTATTR <= Get16(msg, data.value)
    ensures data.Some? ==> data.value + Get16(msg, data.value) <= |msg|
  {
    match Find(msg, HEADERS, |msg| - HEADERS, IFLA_LINKINFO)
    case None => None
    case Some(info) => Find(msg, info + RTATTR, Get16(msg, info) - RTATTR, IFLA_INFO_DATA)
  }

  /** No attribute of the kind behind the last one is among the data of the link. */
  predicate TableSuffices(msg: Text)
    requires HEADERS <= |msg|
  {
    match DataOf(msg)
    case None => true
    case Some(data) => !Meets(msg, data + RTATTR, Get16(msg, data) - RTATTR, RMNETCTL_IFLA_MAX)
  }

  /** What the message of `nlmsgLen` bytes says; the memory `s` goes on behind it. */
  function VndOf(s: Text, nlmsgLen: nat): Vnd
    requires HEADERS <= nlmsgLen && nlmsgLen + READ_AHEAD <= |s|
  {
    var msg := s[..nlmsgLen];
    match DataOf(msg)
    case None => NoInfo
    case Some(data) =>
      var none := NoEntries(RMNETCTL_IFLA_MAX);
      var tb := Table(msg, data + RTATTR, Get16(msg, data) - RTATTR, RMNETCTL_IFLA_MAX, none);
      Vnd(match tb[RMNETCTL_IFLA_MUX_ID] case None => None case Some(q) => Some(Get16(s, q + 4)),
          match tb[RMNETCTL_IFLA_FLAGS] case None => None case Some(q) => Some(Get32(s, q + 4)),
          match tb[RMNETCTL_IFLA_UPLINK_PARAMS] case None => None case Some(q) => Some(UplinkAt(s, q)))
  }

  /** The walk over the response in rtrmnet_ctl_getvnd. What it reports counts only if nothing was written
      behind its table. */
  method GetVnd(resp: Text, nlmsgLen: nat) returns (v: Vnd, behind: bool)
    requires HEADERS <= nlmsgLen && nlmsgLen + READ_AHEAD <= |resp|
    ensures behind <==> !TableSuffices(resp[..nlmsgLen])
    ensures !behind ==> v == VndOf(resp, nlmsgLen)
  {
    hide Find, Table, Get16, Get32, Meets, UplinkAt;
    var msg := resp[..nlmsgLen];
    var linkinfo := RtaFind(msg, HEADERS, nlmsgLen - HEADERS, IFLA_LINKINFO);
    if linkinfo == None {
      return NoInfo, false;
    }
    var info := linkinfo.value;
    var datainfo := RtaFind(msg, info + RTATTR, Get16(msg, info) - RTATTR, IFLA_INFO_DATA);
    if datainfo == None {
      return NoInfo, false;
    }
    var data := datainfo.value;
    var tb: array<Option<nat>> := new Option<nat>[RMNETCTL_IFLA_MAX](_ => None);
    behind := RtaParse(tb, msg, data + RTATTR, Get16(msg, data) - RTATTR, RMNETCTL_IFLA_MAX);
    assert InText(NoEntries(RMNETCTL_IFLA_MAX), msg) && InText(tb[..], msg);
    var mux, flags: Option<nat>, uplink: Option<Uplink> := None, None, None;
    if tb[RMNETCTL_IFLA_MUX_ID].Some? {
      assert tb[..][RMNETCTL_IFLA_MUX_ID].value + RTATTR <= |msg|;
      mux := Some(Get16(resp, tb[RMNETCTL_IFLA_MUX_ID].value + 4));
    }
    if tb[RMNETCTL_IFLA_FLAGS].Some? {
      assert tb[..][RMNETCTL_IFLA_FLAGS].value + RTATTR <= |msg|;
      flags := Some(Get32(resp, tb[RMNETCTL_IFLA_FLAGS].value + 4));
    }
    if tb[RMNETCTL_IFLA_UPLINK_PARAMS].Some? {
      assert tb[..][RMNETCTL_IFLA_UPLINK_PARAMS].value + RTATTR <= |msg|;
      uplink := Some(UplinkAt(resp, tb[RMNETCTL_IFLA_UPLINK_PARAMS].value));
    }
    return Vnd(mux, flags, uplink), behind;
  }

  // ---------------------------------------------------------------- the round trip

  /** The data of the children of the data attribute. */
  lemma NewlinkReads(s: Text, p: nat, index: nat, flagconfig: nat)
    requires index < 0x100 && flagconfig < 0x1_0000_0000
    requires Holds(s, p, EncodeAll(NewlinkData(index, flagconfig)))
    ensures p + 6 <= |s| && Get16(s, p + 4) == index
    ensures flagconfig != 0 ==> p + 16 <= |s| && Get32(s, p + 12) == flagconfig
  {
    hide Encode, EncodeAll, NewlinkData, Holds, U16, U32, Get16, Get32;
    var mux, flags := Leaf(RMNETCTL_IFLA_MUX_ID, U16(index)),
                      Leaf(RMNETCTL_IFLA_FLAGS, U32(flagconfig) + U32(flagconfig));
    NewlinkBytes(index, flagconfig);
    if flagconfig != 0 {
      HoldsPart(s, p, Encode(mux), Encode(flags));
      assert |Encode(mux)| == 8;
      HeaderBack(s, p + 8, flags);
      HoldsPart(s, p + 12, U32(flagconfig), U32(flagconfig));
      HoldsBounds(s, p + 12, U32(flagconfig));
      Get32Back(s, p + 12, flagconfig);
    }
    HeaderBack(s, p, mux);
    HoldsBounds(s, p + 4, U16(index));
    Get16Back(s, p + 4, index);
  }

  /** Where rta_parse finds the two children of the data attribute. */
  lemma NewlinkTable(s: Text, p: nat, index: nat, flagconfig: nat)
    requires index < 0x100 && flagconfig < 0x1_0000_0000
    requires Holds(s, p, EncodeAll(NewlinkData(index, flagconfig)))
    ensures var n := SizeAll(NewlinkData(index, flagconfig));
            && p + n <= |s| && !Meets(s, p, n, RMNETCTL_IFLA_MAX)
            && var tb := Table(s, p, n, RMNETCTL_IFLA_MAX, NoEntries(RMNETCTL_IFLA_MAX));
               && tb[RMNETCTL_IFLA_MUX_ID] == Some(p) && tb[RMNETCTL_IFLA_UPLINK_PARAMS] == None
               && tb[RMNETCTL_IFLA_FLAGS] == if flagconfig == 0 then None else Some(p + 8)
  {
    hide Table, Meets, EncodeAll, Holds, Align, U16, U32, FitAll, SizeAll, LastOf;
    var kids, none := NewlinkData(index, flagconfig), NoEntries(RMNETCTL_IFLA_MAX);
    MeetsKind(s, p, kids, RMNETCTL_IFLA_MAX);
    TableHolds(s, p, kids, RMNETCTL_IFLA_MAX, none, RMNETCTL_IFLA_MUX_ID);
    TableHolds(s, p, kids, RMNETCTL_IFLA_MAX, none, RMNETCTL_IFLA_FLAGS);
    TableHolds(s, p, kids, RMNETCTL_IFLA_MAX, none, RMNETCTL_IFLA_UPLINK_PARAMS);
    if flagconfig == 0 {
      LastOfOne(kids[0], p, RMNETCTL_IFLA_MUX_ID);
      LastOfOne(kids[0], p, RMNETCTL_IFLA_FLAGS);
      LastOfOne(kids[0], p, RMNETCTL_IFLA_UPLINK_PARAMS);
    } else {
      LastOfTwo(kids[0], kids[1], p, RMNETCTL_IFLA_MUX_ID);
      LastOfTwo(kids[0], kids[1], p, RMNETCTL_IFLA_FLAGS);
      LastOfTwo(kids[0], kids[1], p, RMNETCTL_IFLA_UPLINK_PARAMS);
      SmallSteps(0);
    }
  }

  lemma LastOfOne(a: Attr, p: nat, kind: nat)
    ensures LastOf([a], p, kind, None) == if a.kind == kind then Some(p) else None
  {
    assert [a][1..] == [];
  }

  lemma LastOfTwo(a: Attr, b: Attr, p: nat, kind: nat)
    ensures LastOf([a, b], p, kind, None)
            == if b.kind == kind then Some(p + Align(RtaLen(a))) else if a.kind == kind then Some(p) else None
  {
    hide Align, RtaLen;
    var q, known := p + Align(RtaLen(a)), if a.kind == kind then Some(p) else None;
    assert [a, b][1..] == [b] && [b][1..] == [];
    assert LastOf([a, b], p, kind, None) == LastOf([b], q, kind, known);
    assert LastOf([b], q, kind, known)
        == LastOf([], q + Align(RtaLen(b)), kind, if b.kind == kind then Some(q) else known);
  }

  /** The name of the link and the children of its data are found where they were put. */
  lemma InfoFound(s: Text, devindex: nat, name: Text, kids: seq<Attr>) returns (info: nat, data: nat)
    requires devindex < 0x1_0000_0000 && |name| < 16 && FitAll(kids) && SizeAll(kids) <= 400
    requires Holds(s, HEADERS, EncodeAll(LinkMessage(devindex, name, kids)))
    ensures HEADERS + SizeAll(LinkMessage(devindex, name, kids)) <= |s|
    ensures Find(s, HEADERS, SizeAll(LinkMessage(devindex, name, kids)), IFLA_LINKINFO) == Some(info)
    ensures info + RTATTR <= |s| && RTATTR <= Get16(s, info) && info + Get16(s, info) <= |s|
    ensures Find(s, info + RTATTR, Get16(s, info) - RTATTR, IFLA_INFO_DATA) == Some(data)
    ensures data + RTATTR <= |s| && Get16(s, data) == RTATTR + SizeAll(kids)
    ensures Holds(s, data + RTATTR, EncodeAll(kids))
  {
    hide Encode, EncodeAll, Holds, Find, Get16, Align, LinkLeaf, NameLeaf, KindLeaf, Fits, FitAll, SizeAll;
    var attrs := LinkMessage(devindex, name, kids);
    PartsFit(devindex, name, kids);
    KindsOf(devindex, name);
    HoldsBounds(s, HEADERS, EncodeAll(attrs));
    FindsFirst(s, HEADERS, attrs, IFLA_LINKINFO);
    FirstHolds(s, HEADERS, attrs, 2);
    info := FirstOf(attrs, HEADERS, IFLA_LINKINFO).value;
    var nest := InfoNest(kids);
    HeaderBack(s, info, nest);
    TwoLeaves(KindLeaf(), Nest(IFLA_INFO_DATA, kids));
    HoldsBounds(s, info + RTATTR, EncodeAll(nest.kids));
    FindsFirst(s, info + RTATTR, nest.kids, IFLA_INFO_DATA);
    FirstHolds(s, info + RTATTR, nest.kids, 1);
    data := FirstOf(nest.kids, info + RTATTR, IFLA_INFO_DATA).value;
    HeaderBack(s, data, Nest(IFLA_INFO_DATA, kids));
    HoldsBounds(s, data + RTATTR, EncodeAll(kids));
  }

  lemma KindsOf(devindex: nat, name: Text)
    requires devindex < 0x1_0000_0000
    ensures LinkLeaf(devindex).kind == IFLA_LINK && NameLeaf(name).kind == IFLA_IFNAME
    ensures KindLeaf().kind == IFLA_INFO_KIND
  {
  }

  /** The bytes found in a part of a text are found in the text. */
  lemma HoldsBefore(s: Text, n: nat, p: nat, x: Text)
    requires n <= |s| && p + |x| <= n
    ensures Holds(s, p, x) <==> Holds(s[..n], p, x)
  {
    assert s[p..p + |x|] == s[..n][p..p + |x|];
  }

  /**
   The round trip of a new link: whatever follows in the buffer, walking the message that
   rmnet_fill_newlink_msg builds the way rtrmnet_ctl_getvnd does gives back the mux id, and the
   flags if they are not zero.
   */
  lemma NewlinkRoundTrip(s: Text, devindex: nat, name: Text, index: nat, flagconfig: nat)
    requires devindex < 0x1_0000_0000 && |name| < 16 && index < 0x100 && flagconfig < 0x1_0000_0000
    requires Holds(s, HEADERS, EncodeAll(LinkMessage(devindex, name, NewlinkData(index, flagconfig))))
    requires HEADERS + SizeAll(LinkMessage(devindex, name, NewlinkData(index, flagconfig))) + READ_AHEAD <= |s|
    ensures var n := HEADERS + SizeAll(LinkMessage(devindex, name, NewlinkData(index, flagconfig)));
            && TableSuffices(s[..n])
            && VndOf(s, n) == Vnd(Some(index), if flagconfig == 0 then None else Some(flagconfig), None)
  {
    hide Encode, EncodeAll, Holds, Find, Get16, Get32, Align, Table, Meets, LinkMessage, NewlinkData, SizeAll, UplinkAt;
    var kids := NewlinkData(index, flagconfig);
    var n := HEADERS + SizeAll(LinkMessage(devindex, name, kids));
    HoldsBefore(s, n, HEADERS, EncodeAll(LinkMessage(devindex, name, kids)));
    var info, data := InfoFound(s[..n], devindex, name, kids);
    NewlinkTable(s[..n], data + RTATTR, index, flagconfig);
    HoldsBounds(s[..n], data + RTATTR, EncodeAll(kids));
    HoldsBefore(s, n, data + RTATTR, EncodeAll(kids));
    NewlinkReads(s, data + RTATTR, index, flagconfig);
  }

  /** The table of rtrmnet_ctl_getvnd is too short for a link exactly if its data have an attribute of the
      kind behind the last one. */
  lemma TableIsTooShort(s: Text, devindex: nat, name: Text, kids: seq<Attr>)
    requires devindex < 0x1_0000_0000 && |name| < 16 && FitAll(kids) && SizeAll(kids) <= 400
    requires Holds(s, HEADERS, EncodeAll(LinkMessage(devindex, name, kids)))
    requires |s| == HEADERS + SizeAll(LinkMessage(devindex, name, kids))
    ensures TableSuffices(s) <==> !HasKind(kids, RMNETCTL_IFLA_MAX)
  {
    hide Encode, EncodeAll, Holds, Find, Get16, Meets, LinkMessage, SizeAll, FitAll, HasKind;
    var info, data := InfoFound(s, devindex, name, kids);
    MeetsKind(s, data + RTATTR, kids, RMNETCTL_IFLA_MAX);
  }

  /** So it is for a link with one such attribute, and no data in it. */
  lemma OneMoreKind()
    ensures var kids := [Leaf(RMNETCTL_IFLA_MAX, [])];
            FitAll(kids) && SizeAll(kids) == RTATTR && HasKind(kids, RMNETCTL_IFLA_MAX)
  {
    var kids := [Leaf(RMNETCTL_IFLA_MAX, [])];
    assert kids[0].kind == RMNETCTL_IFLA_MAX && kids[1..] == [];
  }

  lemma MessageIsShort(devindex: nat, name: Text, kids: seq<Attr>)
    requires devindex < 0x1_0000_0000 && |name| < 16 && FitAll(kids) && SizeAll(kids) <= 400
    ensures SizeAll(LinkMessage(devindex, name, kids)) <= 64 + SizeAll(kids)
  {
    var link, title, kind, data := LinkLeaf(devindex), NameLeaf(name), KindLeaf(), Nest(IFLA_INFO_DATA, kids);
    var info := InfoNest(kids);
    assert RtaLen(link) == 8 && RtaLen(title) <= 20 && RtaLen(kind) == 10 && RtaLen(data) == RTATTR + SizeAll(kids);
    assert RtaLen(info) == RTATTR + SizeAll([kind, data]);
    hide U32, Encode, FitAll, Fits, Align, RtaLen, LinkLeaf, NameLeaf, KindLeaf;
    AlignBounds(RtaLen(link));
    AlignBounds(RtaLen(title));
    AlignBounds(RtaLen(kind));
    AlignBounds(RtaLen(data));
    AlignBounds(RtaLen(info));
    TwoSizes(kind, data);
    TwoSizes(title, info);
    assert [link, title, info][1..] == [title, info];
  }

  lemma TwoSizes(a: Attr, b: Attr)
    ensures SizeAll([a, b]) == Align(RtaLen(a)) + Align(RtaLen(b))
  {
    hide RtaLen, Align;
    assert [a, b][1..] == [b] && [b][1..] == [];
    assert SizeAll([b]) == Align(RtaLen(b)) + SizeAll([]);
  }

  /** Building a message and walking it. */
  method BuildAndWalk(devindex: nat, name: Text, index: nat, flagconfig: nat) returns (v: Vnd)
    requires devindex < 0x1_0000_0000 && |name| < 16 && index < 0x100 && flagconfig < 0x1_0000_0000
    ensures v == Vnd(Some(index), if flagconfig == 0 then None else Some(flagconfig), None)
  {
    hide Encode, EncodeAll, Align, ZeroFrom, LinkMessage, NewlinkData, SizeAll, VndOf, TableSuffices;
    var r := new Request();
    var rc := r.FillNewlink(DATA_SIZE - RTATTR, devindex, name, index, flagconfig);
    MessageIsShort(devindex, name, NewlinkData(index, flagconfig));
    NewlinkRoundTrip(r.buf[..], devindex, name, index, flagconfig);
    var behind;
    v, behind := GetVnd(r.buf[..], r.nlmsgLen);
  }
}

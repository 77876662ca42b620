/** struct printbuf: a byte buffer that grows in place and mostly ends in a NUL. */
module PrintBuf {
  import opened Bytes

  const INITIAL_SIZE: nat := 32

  function Max(a: nat, b: nat): nat {
    if a >= b then a else b
  }

  function Fill(c: byte, len: nat): (s: Text)
    ensures |s| == len && forall i :: 0 <= i < len ==> s[i] == c
  {
    seq(len, _ => c)
  }

  /** What memset does to a text, byte by byte and, from an offset inside it, as a whole. */
  ghost predicate Set(was: Text, now: Text, from: nat, c: byte, len: nat) {
    && |now| == Max(|was|, from + len)
    && (forall i :: from <= i < from + len ==> now[i] == c)
    && (forall i :: 0 <= i < |was| && !(from <= i < from + len) ==> now[i] == was[i])
    && (from <= |was| ==> now == was[..from] + Fill(c, len) + was[Min(from + len, |was|)..])
  }

  lemma SetBytes(was: Text, held: Text, now: Text, from: nat, c: byte, len: nat)
    requires |was| <= |held| && held[..|was|] == was && |now| == Max(|was|, from + len) <= |held|
    requires forall i :: 0 <= i < |now| ==> now[i] == if from <= i < from + len then c else held[i]
    ensures Set(was, now, from, c, len)
  {
    assert forall i :: 0 <= i < |was| ==> held[i] == was[i];
  }

  class PrintBuf {
    var buf: array<byte>
    var bpos: nat
    var size: nat

    // The bytes that growing has copied so far, and the most bytes ever asked for.
    ghost var moved: nat
    ghost var peak: nat

    /** The fields agree; the work of growing stays below the capacity, and the capacity is linear
        in the most that was asked for. */
    ghost predicate Valid()
      reads this
    {
      && buf.Length == size
      && bpos <= size && bpos <= peak
      && moved + INITIAL_SIZE <= size
      && (size == INITIAL_SIZE || size <= 2 * peak + 8)
    }

    /** Everything appended since the last reset. */
    ghost function Contents(): Text
      requires Valid()
      reads this, buf
    {
      buf[..bpos]
    }

    /** The buffer can be used as a C string. */
    ghost predicate Terminated()
      requires Valid()
      reads this, buf
    {
      bpos < size && buf[bpos] == NUL
    }

    constructor ()
      ensures Valid() && Contents() == [] && fresh(buf)
      ensures moved == 0 && peak == 0
    {
      size := INITIAL_SIZE;
      bpos := 0;
      buf := new byte[INITIAL_SIZE];
      moved, peak := 0, 0;
    }

    /** printbuf_extend: at least double, and at least 8 bytes to spare. */
    method Extend(minSize: nat)
      requires Valid()
      modifies this`buf, this`size, this`moved, this`peak
      ensures Valid() && size >= minSize && size >= old(size)
      ensures Contents() == old(Contents()) && peak == Max(old(peak), minSize)
      ensures if old(size) >= minSize then buf == old(buf) else fresh(buf)
      ensures old(size) < minSize ==> size == Max(2 * old(size), minSize + 8) && moved == old(moved) + old(size)
    {
      peak := Max(peak, minSize);
      if size >= minSize {
        return;
      }
      var newSize := size * 2;
      if newSize < minSize + 8 {
        newSize := minSize + 8;
      }
      var t := new byte[newSize];
      forall i | 0 <= i < size {
        t[i] := buf[i];
      }
      moved := moved + size;
      size := newSize;
      buf := t;
    }

    /** memcpy to the end, with a NUL after it. */
    method Copy(data: Text)
      requires Valid() && bpos + |data| < size
      modifies this`bpos, this`peak, buf
      ensures Valid() && Terminated() && Contents() == old(Contents()) + data
      ensures bpos == old(bpos) + |data| && peak == Max(old(peak), bpos)
    {
      forall i | 0 <= i < |data| {
        buf[bpos + i] := data[i];
      }
      bpos := bpos + |data|;
      buf[bpos] := NUL;
      peak := Max(peak, bpos);
    }

    /** printbuf_memappend */
    method MemAppend(data: Text)
      requires Valid()
      modifies this, buf
      ensures Valid() && Terminated() && Contents() == old(Contents()) + data
      ensures buf == old(buf) || fresh(buf)
      ensures bpos == old(bpos) + |data| && peak <= Max(old(peak), bpos + 1)
    {
      if size <= bpos + |data| + 1 {
        Extend(bpos + |data| + 1);
      }
      Copy(data);
    }

    /** printbuf_memappend_fast: no call when there is room to spare. */
    method MemAppendFast(data: Text)
      requires Valid()
      modifies this, buf
      ensures Valid() && Terminated() && Contents() == old(Contents()) + data
      ensures buf == old(buf) || fresh(buf)
      ensures bpos == old(bpos) + |data| && peak <= Max(old(peak), bpos + 1)
    {
      if size - bpos > |data| {
        Copy(data);
      } else {
        MemAppend(data);
      }
    }

    /** printbuf_memset from an offset, or from the end of the contents when it is -1. It writes no NUL,
        and it leaves what the buffer held between the end and an offset behind it. */
    method MemSet(offset: int, c: byte, len: nat)
      requires Valid() && -1 <= offset
      modifies this, buf
      ensures Valid() && (buf == old(buf) || fresh(buf))
      ensures var from := if offset == -1 then old(bpos) else offset;
              bpos == Max(old(bpos), from + len) && Set(old(Contents()), Contents(), from, c, len)
      ensures peak <= Max(old(peak), bpos)
    {
      hide Set;
      var from: nat := if offset == -1 then bpos else offset;
      var sizeNeeded := from + len;
      if size < sizeNeeded {
        Extend(sizeNeeded);
      }
      ghost var was, held := Contents(), buf[..];
      Overwrite(from, c, len);
      if bpos < sizeNeeded {
        bpos := sizeNeeded;
      }
      peak := Max(peak, bpos);
      SetBytes(was, held, Contents(), from, c, len);
    }

    /** memset */
    method Overwrite(from: nat, c: byte, len: nat)
      requires from + len <= buf.Length
      modifies buf
      ensures forall i :: 0 <= i < buf.Length ==> buf[i] == if from <= i < from + len then c else old(buf[..])[i]
    {
      forall i | 0 <= i < len {
        buf[from + i] := c;
      }
    }

    /** printbuf_reset: the capacity stays. */
    method Reset()
      requires Valid()
      modifies this`bpos, buf
      ensures Valid() && Terminated() && Contents() == [] && bpos == 0
    {
      buf[0] := NUL;
      bpos := 0;
    }
  }
}

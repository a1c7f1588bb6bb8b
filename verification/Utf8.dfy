/**
 `String::from_utf8_lossy`: bytes that are no text are replaced, up to three of
 them at a time, by the three bytes of U+FFFD.
 */
module Utf8 {

  type Byte = b: nat | b < 256

  type Text = seq<Byte>

  /** The encoding of U+FFFD. */
  const MARKER: Text := [0xEF, 0xBF, 0xBD]

  predicate Continues(s: Text, i: nat) { i < |s| && 0x80 <= s[i] <= 0xBF }

  /** The second byte of three or four: neither overlong, nor a surrogate, nor past U+10FFFF. */
  predicate Second(s: Text)
    requires s != []
  {
    && Continues(s, 1)
    && (s[0] == 0xE0 ==> 0xA0 <= s[1]) && (s[0] == 0xED ==> s[1] <= 0x9F)
    && (s[0] == 0xF0 ==> 0x90 <= s[1]) && (s[0] == 0xF4 ==> s[1] <= 0x8F)
  }

  /** How many bytes the first character takes, or the longest start of one that goes wrong. */
  function First(s: Text): (r: (nat, bool))
    requires s != []
    ensures 1 <= r.0 <= 4 && r.0 <= |s| && (!r.1 ==> r.0 <= 3)
  {
    if s[0] < 0x80 then (1, true)
    else if 0xC2 <= s[0] <= 0xDF then (if Continues(s, 1) then (2, true) else (1, false))
    else if !(0xE0 <= s[0] <= 0xF4) || !Second(s) then (1, false)
    else if !Continues(s, 2) then (2, false)
    else if s[0] <= 0xEF then (3, true)
    else if !Continues(s, 3) then (3, false)
    else (4, true)
  }

  predicate Valid(s: Text) { s == [] || (First(s).1 && Valid(s[First(s).0..])) }

  function Lossy(s: Text): Text {
    if s == [] then []
    else (if First(s).1 then s[..First(s).0] else MARKER) + Lossy(s[First(s).0..])
  }

  /** The replacement character is somewhere in the text. */
  ghost predicate Marked(s: Text) { exists i :: 0 <= i <= |s| - 3 && MarkedAt(s, i) }

  predicate MarkedAt(s: Text, i: nat)
    requires i + 3 <= |s|
  {
    s[i..i + 3] == MARKER
  }

  /** Text is kept as it is, and nothing else is. */
  lemma {:induction false} TextIsKept(s: Text)
    ensures Valid(s) <==> Lossy(s) == s
  {
    if s != [] {
      var n := First(s).0;
      TextIsKept(s[n..]);
      assert s == s[..n] + s[n..];
      if First(s).1 {
        if Lossy(s) == s { assert Lossy(s)[n..] == Lossy(s[n..]); }
      } else if Lossy(s) == s {
        assert false;
      }
    }
  }

  /** What is kept is at most three times as long, and marked if it is not what was read. */
  lemma {:induction false} LossIsBoundedAndMarked(s: Text)
    ensures |Lossy(s)| <= 3 * |s|
    ensures Marked(Lossy(s)) || Lossy(s) == s
  {
    hide First;
    if s != [] {
      var n := First(s).0;
      var head, rest := if First(s).1 then s[..n] else MARKER, Lossy(s[n..]);
      LossIsBoundedAndMarked(s[n..]);
      assert s == s[..n] + s[n..] && Lossy(s) == head + rest;
      if !First(s).1 {
        assert MarkedAt(head + rest, 0);
      } else if i :| 0 <= i <= |rest| - 3 && MarkedAt(rest, i) {
        assert (head + rest)[n + i..n + i + 3] == rest[i..i + 3];
        assert MarkedAt(head + rest, n + i);
      }
    }
  }

  /** The bound is reached: bytes that start no character are tripled. */
  lemma {:induction false} LossCanTriple(n: nat)
    ensures |Lossy(seq(n, _ => 0xFF))| == 3 * n
  {
    if n > 0 {
      LossCanTriple(n - 1);
      var s: Text := seq(n, _ => 0xFF);
      assert First(s) == (1, false);
      assert s[1..] == seq(n - 1, _ => 0xFF);
    }
  }

  lemma {:induction false} AsciiIsText(s: Text)
    requires forall i :: 0 <= i < |s| ==> s[i] < 0x80
    ensures Valid(s)
  {
    if s != [] { AsciiIsText(s[1..]); }
  }

  // --------------------------------------------------------- what counts as a character

  /** A Unicode scalar value: no surrogate. */
  predicate Scalar(c: nat) { c < 0xD800 || 0xE000 <= c < 0x11_0000 }

  /** Its encoding, as in section 3 of RFC 3629. */
  function Encode(c: nat): (bytes: Text)
    requires Scalar(c)
    ensures 1 <= |bytes| <= 4
  {
    if c < 0x80 then [c]
    else if c < 0x800 then [0xC0 + c / 0x40, 0x80 + c % 0x40]
    else if c < 0x1_0000 then [0xE0 + c / 0x40 / 0x40, 0x80 + c / 0x40 % 0x40, 0x80 + c % 0x40]
    else [0xF0 + c / 0x40 / 0x40 / 0x40, 0x80 + c / 0x40 / 0x40 % 0x40, 0x80 + c / 0x40 % 0x40, 0x80 + c % 0x40]
  }

  /** The encoding of a character, whatever comes after it, is read as one. */
  lemma {:induction false} EncodingsAreRead(c: nat, rest: Text)
    requires Scalar(c)
    ensures First(Encode(c) + rest) == (|Encode(c)|, true)
  {
    hide Encode;
    var bytes := Encode(c);
    var s := bytes + rest;
    assert s[0] == bytes[0];
    assert |bytes| > 1 ==> s[1] == bytes[1];
    assert |bytes| > 2 ==> s[2] == bytes[2];
    assert |bytes| > 3 ==> s[3] == bytes[3];
    if c < 0x800 { ShortEncodings(c); } else if c < 0x1_0000 { ThreeBytes(c); } else { FourBytes(c); }
  }

  lemma {:induction false} ShortEncodings(c: nat)
    requires c < 0x800
    ensures if c < 0x80 then Encode(c) == [c]
            else |Encode(c)| == 2 && 0xC2 <= Encode(c)[0] <= 0xDF && 0x80 <= Encode(c)[1] <= 0xBF
  {}

  lemma {:induction false} ThreeBytes(c: nat)
    requires 0x800 <= c < 0x1_0000 && Scalar(c)
    ensures |Encode(c)| == 3 && 0xE0 <= Encode(c)[0] <= 0xEF && Second(Encode(c)) && Continues(Encode(c), 2)
  {
    var high := c / 0x40;
    assert 0x20 <= high < 0x400;
  }

  lemma {:induction false} FourBytes(c: nat)
    requires 0x1_0000 <= c < 0x11_0000
    ensures |Encode(c)| == 4 && 0xF0 <= Encode(c)[0] <= 0xF4 && Second(Encode(c))
    ensures Continues(Encode(c), 2) && Continues(Encode(c), 3)
  {
    var high := c / 0x40 / 0x40;
    assert 0x10 <= high < 0x110;
  }

  /** Six bits more. */
  function Six(high: nat, byte: Byte): nat
    requires byte >= 0x80
  {
    0x40 * high + (byte - 0x80)
  }

  lemma {:induction false} SixBits(high: nat, byte: Byte)
    requires 0x80 <= byte <= 0xBF
    ensures Six(high, byte) / 0x40 == high && 0x80 + Six(high, byte) % 0x40 == byte
  {}

  /** And what is read as a character is the encoding of one. */
  lemma {:induction false} WhatIsReadIsEncoded(s: Text) returns (c: nat)
    requires s != [] && First(s).1
    ensures Scalar(c) && Encode(c) == s[..First(s).0]
  {
    hide Six;
    var n := First(s).0;
    if n == 1 {
      c := s[0];
    } else if n == 2 {
      c := Six(s[0] - 0xC0, s[1]);
      SixBits(s[0] - 0xC0, s[1]);
      assert s[..2] == [s[0], s[1]];
    } else if n == 3 {
      var high := Six(s[0] - 0xE0, s[1]);
      c := Six(high, s[2]);
      SixBits(s[0] - 0xE0, s[1]);
      SixBits(high, s[2]);
      assert s[..3] == [s[0], s[1], s[2]];
    } else {
      var top := Six(s[0] - 0xF0, s[1]);
      var high := Six(top, s[2]);
      c := Six(high, s[3]);
      SixBits(s[0] - 0xF0, s[1]);
      SixBits(top, s[2]);
      SixBits(high, s[3]);
      assert s[..4] == [s[0], s[1], s[2], s[3]];
    }
  }

  /** These bytes are the beginning of a character's encoding, or the whole of it. */
  ghost predicate Begins(start: Text) { exists c: nat :: Scalar(c) && start <= Encode(c) }

  /**
   What is replaced is the longest beginning of a character that goes wrong, one
   byte when nothing begins there: with one byte more no character begins so.
   */
  lemma {:induction false} TheLongestStartIsReplaced(s: Text)
    requires s != [] && !First(s).1
    ensures First(s).0 > 1 ==> Begins(s[..First(s).0])
    ensures First(s).0 < |s| ==> !Begins(s[..First(s).0 + 1])
    ensures Lossy(s) == Encode(0xFFFD) + Lossy(s[First(s).0..])
  {
    var n := First(s).0;
    if n > 1 {
      var filled := if n == 2 then [s[0], s[1], 0x80] + (if s[0] <= 0xEF then [] else [0x80])
                    else [s[0], s[1], s[2], 0x80];
      var c := WhatIsReadIsEncoded(filled);
      assert filled[..First(filled).0] == filled;
      assert s[..n] <= Encode(c);
    }
    if n < |s| && Begins(s[..n + 1]) {
      var c: nat :| Scalar(c) && s[..n + 1] <= Encode(c);
      StartsAgree(s, n, c);
    }
  }

  lemma {:induction false} StartsAgree(s: Text, n: nat, c: nat)
    requires Scalar(c) && n < |s| && s[..n + 1] <= Encode(c) && n >= 1
    ensures !(First(s) == (n, false))
  {
    var bytes := Encode(c);
    EncodingsAreRead(c, []);
    assert bytes + [] == bytes;
    assert forall i :: 0 <= i <= n ==> s[i] == s[..n + 1][i] == bytes[i];
  }
}

/** UTF-8 encoding of strings, and the positions at which a `str` may be cut. */
module Utf8 {
  import opened Text

  predicate IsContinuation(b: Byte) {
    0x80 <= b as int < 0xC0
  }

  function EncodeChar(c: char): (b: seq<Byte>)
    ensures c as int < 0x80 ==> b == [c]
    ensures c as int >= 0x80 ==> forall i :: 0 <= i < |b| ==> b[i] as int >= 0x80
    ensures b != [] && !IsContinuation(b[0])
    ensures forall i :: 1 <= i < |b| ==> IsContinuation(b[i])
  {
    var n := c as int;
    if n < 0x80 then [c]
    else if n < 0x800 then [(0xC0 + n / 0x40) as char, (0x80 + n % 0x40) as char]
    else if n < 0x10000 then
      [(0xE0 + n / 0x1000) as char, (0x80 + n / 0x40 % 0x40) as char, (0x80 + n % 0x40) as char]
    else
      [(0xF0 + n / 0x40000) as char, (0x80 + n / 0x1000 % 0x40) as char,
       (0x80 + n / 0x40 % 0x40) as char, (0x80 + n % 0x40) as char]
  }

  /** The code point that one to four bytes stand for. */
  function CodePoint(b: seq<Byte>): int {
    if |b| == 1 then b[0] as int
    else if |b| == 2 then (b[0] as int - 0xC0) * 0x40 + Tail(b, 1)
    else if |b| == 3 then (b[0] as int - 0xE0) * 0x1000 + Tail(b, 1) * 0x40 + Tail(b, 2)
    else if |b| == 4 then (b[0] as int - 0xF0) * 0x40000 + Tail(b, 1) * 0x1000 + Tail(b, 2) * 0x40 + Tail(b, 3)
    else -1
  }

  function Tail(b: seq<Byte>, i: nat): int
    requires i < |b|
  {
    b[i] as int - 0x80
  }

  lemma Sextets(n: nat)
    ensures n == n / 0x1000 * 0x1000 + n / 0x40 % 0x40 * 0x40 + n % 0x40
    ensures n / 0x1000 == n / 0x40000 * 0x40 + n / 0x1000 % 0x40
  {
    assert n / 0x40 / 0x40 == n / 0x1000;
    assert n / 0x1000 / 0x40 == n / 0x40000;
  }

  /** The bytes of a character give it back, and are as few as possible. */
  lemma EncodeRoundTrip(c: char)
    ensures CodePoint(EncodeChar(c)) == c as int
    ensures |EncodeChar(c)| == if c as int < 0x80 then 1 else if c as int < 0x800 then 2
                               else if c as int < 0x10000 then 3 else 4
  {
    var n, b := c as int, EncodeChar(c);
    Sextets(n);
    if 0x800 <= n < 0x10000 {
      assert Tail(b, 1) == n / 0x40 % 0x40 && Tail(b, 2) == n % 0x40;
    } else if n >= 0x10000 {
      assert Tail(b, 1) == n / 0x1000 % 0x40 && Tail(b, 2) == n / 0x40 % 0x40 && Tail(b, 3) == n % 0x40;
    }
  }

  function Encode(s: string): seq<Byte> {
    FlatMap(EncodeChar, s)
  }

  /** `str::is_char_boundary`; slicing elsewhere panics. */
  predicate IsBoundary(bytes: seq<Byte>, i: nat) {
    i == |bytes| || (i < |bytes| && !IsContinuation(bytes[i]))
  }

  /** An encoded string starts a character. */
  lemma FirstByte(s: string)
    ensures s != [] ==> Encode(s) != [] && !IsContinuation(Encode(s)[0])
  {
  }

  predicate NoneAlphanumeric(s: string) {
    forall i :: 0 <= i < |s| ==> !IsAlphanumeric(s[i])
  }

  /** Encoding brings in no ASCII alphanumeric. */
  lemma {:induction false} EncodeNone(s: string)
    requires NoneAlphanumeric(s)
    ensures NoneAlphanumeric(Encode(s))
  {
    if s != [] {
      EncodeNone(s[1..]);
      assert !IsAlphanumeric(s[0]) && NoneAlphanumeric(EncodeChar(s[0]));
    }
  }

  /** An alphanumeric at either end of a string stays at that end. */
  lemma {:induction false} EncodeEnds(s: string)
    requires s != []
    ensures Encode(s) != []
    ensures IsAlphanumeric(s[0]) ==> Encode(s)[0] == s[0]
    ensures IsAlphanumeric(s[|s| - 1]) ==> Encode(s)[|Encode(s)| - 1] == s[|s| - 1]
  {
    if |s| == 1 {
      assert Encode(s) == EncodeChar(s[0]) + Encode([]);
    } else {
      EncodeEnds(s[1..]);
      assert s[1..][|s| - 2] == s[|s| - 1];
    }
  }
}

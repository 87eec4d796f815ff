/**
 Text shared by all models: optional values, ASCII case folding, white space,
 splitting, joining and trimming.

 A Rust `str` is a `string` of Unicode scalar values. A `u8` is a `Byte`, the
 character whose code is that byte, so that ASCII byte literals read as in the source.
 */
module Text {

  datatype Option<+T> = None | Some(value: T)

  type Byte = c: char | c as int < 256

  predicate IsDigit(c: char) {
    '0' <= c <= '9'
  }

  predicate IsAlphanumeric(c: char) {
    '0' <= c <= '9' || 'a' <= c <= 'z' || 'A' <= c <= 'Z'
  }

  /** The Unicode `White_Space` property, as `char::is_whitespace` decides it. */
  predicate IsWhitespace(c: char) {
    var n := c as int;
    || n == 0x20 || 0x09 <= n <= 0x0D || n == 0x85 || n == 0xA0 || n == 0x1680
    || 0x2000 <= n <= 0x200A || n == 0x2028 || n == 0x2029 || n == 0x202F
    || n == 0x205F || n == 0x3000
  }

  function Lower(c: char): char {
    if 'A' <= c <= 'Z' then (c as int + 32) as char else c
  }

  predicate EqIgnoreCase(a: string, b: string) {
    |a| == |b| && forall i :: 0 <= i < |a| ==> Lower(a[i]) == Lower(b[i])
  }

  /** Drops leading elements that satisfy `p`. */
  function TrimStart<T>(s: seq<T>, p: T -> bool): seq<T> {
    if s != [] && p(s[0]) then TrimStart(s[1..], p) else s
  }

  /** Drops trailing elements that satisfy `p`. */
  function TrimEnd<T>(s: seq<T>, p: T -> bool): seq<T> {
    if s != [] && p(s[|s| - 1]) then TrimEnd(s[..|s| - 1], p) else s
  }

  function Trim<T>(s: seq<T>, p: T -> bool): seq<T> {
    TrimEnd(TrimStart(s, p), p)
  }

  /** Two characters agree up to ASCII case exactly when they are equal or the two cases of one letter. */
  lemma SameLetter(c: char, d: char)
    ensures Lower(c) == Lower(d)
       <==> c == d
            || ('a' <= c <= 'z' && c as int == d as int + 32)
            || ('a' <= d <= 'z' && d as int == c as int + 32)
  {
  }

  /** The white space characters, one by one: 25 of them. */
  lemma WhitespaceTable(c: char)
    ensures IsWhitespace(c)
       <==> c as int in {9, 10, 11, 12, 13, 32, 133, 160, 5760, 8192, 8193, 8194, 8195, 8196, 8197, 8198, 8199,
                         8200, 8201, 8202, 8232, 8233, 8239, 8287, 12288}
  {
  }

  ghost predicate All<T(!new)>(s: seq<T>, p: T -> bool) {
    forall x :: x in s ==> p(x)
  }

  lemma {:induction false} TrimStartExact<T(!new)>(s: seq<T>, p: T -> bool) returns (a: seq<T>)
    ensures s == a + TrimStart(s, p) && All(a, p)
    ensures TrimStart(s, p) != [] ==> !p(TrimStart(s, p)[0])
  {
    if s != [] && p(s[0]) {
      a := TrimStartExact(s[1..], p);
      a := [s[0]] + a;
    } else {
      a := [];
    }
  }

  lemma {:induction false} TrimEndExact<T(!new)>(s: seq<T>, p: T -> bool) returns (b: seq<T>)
    ensures s == TrimEnd(s, p) + b && All(b, p)
    ensures TrimEnd(s, p) != [] ==> !p(TrimEnd(s, p)[|TrimEnd(s, p)| - 1])
  {
    if s != [] && p(s[|s| - 1]) {
      b := TrimEndExact(s[..|s| - 1], p);
      b := b + [s[|s| - 1]];
    } else {
      b := [];
    }
  }

  /** Only elements that satisfy `p` are trimmed off, and none is left at either end. */
  lemma TrimExact<T(!new)>(s: seq<T>, p: T -> bool) returns (a: seq<T>, b: seq<T>)
    ensures s == a + Trim(s, p) + b && All(a, p) && All(b, p)
    ensures Trim(s, p) != [] ==> !p(Trim(s, p)[0]) && !p(Trim(s, p)[|Trim(s, p)| - 1])
  {
    a := TrimStartExact(s, p);
    b := TrimEndExact(TrimStart(s, p), p);
    Associative(a, Trim(s, p), b);
  }

  lemma {:induction false} TrimStartUnique<T(!new)>(a: seq<T>, c: seq<T>, p: T -> bool)
    requires All(a, p) && (c != [] ==> !p(c[0]))
    ensures TrimStart(a + c, p) == c
  {
    if a == [] {
      assert a + c == c;
    } else {
      assert a[0] in a && (a + c)[0] == a[0] && (a + c)[1..] == a[1..] + c;
      TrimStartUnique(a[1..], c, p);
    }
  }

  lemma {:induction false} TrimEndUnique<T(!new)>(c: seq<T>, b: seq<T>, p: T -> bool)
    requires All(b, p) && (c != [] ==> !p(c[|c| - 1]))
    ensures TrimEnd(c + b, p) == c
  {
    if b == [] {
      assert c + b == c;
    } else {
      var n := |b| - 1;
      assert b[n] in b && (c + b)[|c + b| - 1] == b[n] && (c + b)[..|c + b| - 1] == c + b[..n];
      TrimEndUnique(c, b[..n], p);
    }
  }

  /** What remains between such elements is exactly what trimming yields. */
  lemma TrimUnique<T(!new)>(a: seq<T>, c: seq<T>, b: seq<T>, p: T -> bool)
    requires All(a, p) && All(b, p)
    requires c != [] ==> !p(c[0]) && !p(c[|c| - 1])
    ensures Trim(a + c + b, p) == c
  {
    if c == [] {
      assert a + c + b == (a + b) + [];
      TrimStartUnique(a + b, [], p);
    } else {
      Associative(a, c, b);
      TrimStartUnique(a, c + b, p);
      TrimEndUnique(c, b, p);
    }
  }

  /** Padding on either side is trimmed off again. */
  lemma TrimPadded<T(!new)>(a: seq<T>, s: seq<T>, b: seq<T>, p: T -> bool)
    requires All(a, p) && All(b, p)
    ensures Trim(a + s + b, p) == Trim(s, p)
  {
    var a', b' := TrimExact(s, p);
    var c := Trim(s, p);
    assert a + s + b == (a + a') + c + (b' + b);
    TrimUnique(a + a', c, b' + b, p);
  }

  lemma Associative<T>(a: seq<T>, b: seq<T>, c: seq<T>)
    ensures a + (b + c) == (a + b) + c
  {
  }

  /** The last element, or `before` when there is none. */
  function LastOr<T>(before: Option<T>, xs: seq<T>): Option<T> {
    if xs == [] then before else Some(xs[|xs| - 1])
  }

  /** The results of `f` on all elements, one after the other. */
  function FlatMap<A, B>(f: A -> seq<B>, xs: seq<A>): seq<B> {
    if xs == [] then [] else f(xs[0]) + FlatMap(f, xs[1..])
  }

  lemma {:induction false} FlatMapConcat<A, B>(f: A -> seq<B>, a: seq<A>, b: seq<A>)
    ensures FlatMap(f, a + b) == FlatMap(f, a) + FlatMap(f, b)
  {
    if a == [] {
      assert a + b == b;
    } else {
      FlatMapConcat(f, a[1..], b);
      assert (a + b)[1..] == a[1..] + b && (a + b)[0] == a[0];
      Associative(f(a[0]), FlatMap(f, a[1..]), FlatMap(f, b));
    }
  }

  lemma FlatMapOne<A, B>(f: A -> seq<B>, x: A)
    ensures FlatMap(f, [x]) == f(x)
  {
    assert FlatMap(f, [x]) == f(x) + FlatMap(f, []);
  }

  function Join<T>(parts: seq<seq<T>>, sep: T): seq<T> {
    if parts == [] then []
    else if |parts| == 1 then parts[0]
    else parts[0] + [sep] + Join(parts[1..], sep)
  }

  /** `str::split` on one separator; SplitSound says what the pieces are. */
  function Split<T(==)>(s: seq<T>, sep: T): (r: seq<seq<T>>)
    ensures |r| >= 1
  {
    if s == [] then [[]]
    else
      var rest := Split(s[1..], sep);
      if s[0] == sep then [[]] + rest else [[s[0]] + rest[0]] + rest[1..]
  }

  /** The pieces hold no separator and join back to the input. */
  lemma {:induction false} SplitSound<T>(s: seq<T>, sep: T)
    ensures forall p :: p in Split(s, sep) ==> sep !in p
    ensures Join(Split(s, sep), sep) == s
  {
    if s != [] {
      SplitSound(s[1..], sep);
      var r, rest := Split(s, sep), Split(s[1..], sep);
      assert r[1..] == if s[0] == sep then rest else rest[1..];
    }
  }

  lemma {:induction false} SplitFree<T>(s: seq<T>, sep: T)
    requires sep !in s
    ensures Split(s, sep) == [s]
  {
    if s != [] {
      SplitFree(s[1..], sep);
      assert [s[0]] + s[1..] == s;
    }
  }

  lemma {:induction false} SplitConcat<T>(a: seq<T>, b: seq<T>, sep: T)
    ensures Split(a + [sep] + b, sep) == Split(a, sep) + Split(b, sep)
  {
    var whole, rb := a + [sep] + b, Split(b, sep);
    if a == [] {
      assert whole[0] == sep && whole[1..] == b;
    } else {
      SplitConcat(a[1..], b, sep);
      assert whole[0] == a[0] && whole[1..] == a[1..] + [sep] + b;
      SplitPrepend(a[0], whole[1..], a[1..], rb, sep);
      assert [a[0]] + whole[1..] == whole && [a[0]] + a[1..] == a;
    }
  }

  /** One more leading element changes the first piece only, or opens a new one. */
  lemma SplitPrepend<T>(x: T, s: seq<T>, a: seq<T>, rb: seq<seq<T>>, sep: T)
    requires Split(s, sep) == Split(a, sep) + rb
    ensures Split([x] + s, sep) == Split([x] + a, sep) + rb
  {
    assert ([x] + s)[1..] == s && ([x] + a)[1..] == a;
    var ra := Split(a, sep);
    if x == sep {
      Associative([[]], ra, rb);
    } else {
      assert (ra + rb)[1..] == ra[1..] + rb && (ra + rb)[0] == ra[0];
      Associative([[x] + ra[0]], ra[1..], rb);
    }
  }

  /** Splitting undoes joining exactly when no part holds the separator. */
  lemma {:induction false} SplitJoin<T>(parts: seq<seq<T>>, sep: T)
    requires parts != []
    ensures Split(Join(parts, sep), sep) == parts <==> forall p :: p in parts ==> sep !in p
  {
    SplitSound(Join(parts, sep), sep);
    if forall p :: p in parts ==> sep !in p {
      SplitJoinFree(parts, sep);
    }
  }

  lemma {:induction false} SplitJoinFree<T>(parts: seq<seq<T>>, sep: T)
    requires parts != []
    requires forall p :: p in parts ==> sep !in p
    ensures Split(Join(parts, sep), sep) == parts
  {
    SplitFree(parts[0], sep);
    if |parts| == 1 {
      assert parts == [parts[0]];
    } else {
      SplitJoinFree(parts[1..], sep);
      SplitConcat(parts[0], Join(parts[1..], sep), sep);
      assert parts == [parts[0]] + parts[1..];
    }
  }
}

/** HTTP/1 message framing: Content-Length agreement and the `chunked` transfer coding. */
module FramingHeaders {
  import opened Text
  import opened HeaderMaps
  import Decimal

  const U64_LIMIT: nat := 0x1_0000_0000_0000_0000

  type U64 = n: nat | n < U64_LIMIT

  const CONTENT_LENGTH := "content-length"
  const TRANSFER_ENCODING := "transfer-encoding"

  /** When `HeaderValue::to_str` succeeds. */
  predicate VisibleAscii(v: string) {
    forall i :: 0 <= i < |v| ==> v[i] == '\t' || ' ' <= v[i] <= '~'
  }

  /** Optional white space of section 5.6.3 of RFC 9110. */
  predicate IsOws(c: char) {
    c == ' ' || c == '\t'
  }

  /** On visible text, `str::trim` removes exactly the optional white space. */
  lemma TrimVisible(s: string)
    requires VisibleAscii(s)
    ensures Trim(s, IsWhitespace) == Trim(s, IsOws)
  {
    TrimStartVisible(s);
    TrimEndVisible(TrimStart(s, IsOws));
  }

  lemma {:induction false} TrimStartVisible(s: string)
    requires VisibleAscii(s)
    ensures TrimStart(s, IsWhitespace) == TrimStart(s, IsOws)
    ensures VisibleAscii(TrimStart(s, IsOws))
  {
    if s != [] && IsOws(s[0]) {
      TrimStartVisible(s[1..]);
    }
  }

  lemma {:induction false} TrimEndVisible(s: string)
    requires VisibleAscii(s)
    ensures TrimEnd(s, IsWhitespace) == TrimEnd(s, IsOws)
  {
    if s != [] && IsOws(s[|s| - 1]) {
      TrimEndVisible(s[..|s| - 1]);
    }
  }

  // ---------- Content-Length ----------

  /** The number a digit string stands for, when it fits in 64 bits. */
  function Digits(bytes: string): Option<U64> {
    if bytes != [] && Decimal.AllDigits(bytes) && Decimal.Value(bytes) < U64_LIMIT
    then Some(Decimal.Value(bytes)) else None
  }

  /** `from_digits`: multiply and add with overflow checks, so a numeral is refused as soon as a prefix overflows. */
  method FromDigits(bytes: string) returns (r: Option<U64>)
    ensures r == Digits(bytes)
  {
    if bytes == [] {
      return None;
    }
    var result: U64 := 0;
    for i := 0 to |bytes|
      invariant Decimal.AllDigits(bytes[..i]) && Decimal.Value(bytes[..i]) == result
    {
      if !IsDigit(bytes[i]) {
        return None;
      }
      assert bytes[..i + 1][..i] == bytes[..i];
      assert Decimal.Value(bytes[..i + 1]) == 10 * result + Decimal.DigitValue(bytes[i]);
      if 10 * result + Decimal.DigitValue(bytes[i]) >= U64_LIMIT {
        if Decimal.AllDigits(bytes) {
          Decimal.ValueMonotone(bytes, i + 1);
        }
        return None;
      }
      result := 10 * result + Decimal.DigitValue(bytes[i]);
    }
    assert bytes[..|bytes|] == bytes;
    return Some(result);
  }

  function TrimAll(parts: seq<string>): (r: seq<string>)
    ensures |r| == |parts|
  {
    seq(|parts|, i requires 0 <= i < |parts| => Trim(parts[i], IsOws))
  }

  /** The comma-separated members of one line. */
  function Members(line: string): seq<string> {
    TrimAll(Split(line, ','))
  }

  /** The members of all lines, in order. */
  function AllMembers(lines: seq<string>): seq<string> {
    FlatMap(Members, lines)
  }

  /** Every member of the line is the numeral of `n`. */
  ghost predicate LineSays(line: string, n: U64) {
    VisibleAscii(line) && forall m :: m in Members(line) ==> Digits(m) == Some(n)
  }

  /** Section 8.6 of RFC 9110: at least one line, and all members are the same valid number. */
  ghost predicate Agrees(lines: seq<string>, n: U64) {
    lines != [] && forall l :: l in lines ==> LineSays(l, n)
  }

  /** One line of the nested loop: `seen` is the length found so far. */
  method ParseLine(line: string, seen: Option<U64>) returns (r: Option<U64>)
    ensures forall n: U64 :: r == Some(n) <==> LineSays(line, n) && (seen.None? || seen == Some(n))
  {
    if !VisibleAscii(line) {
      return None;
    }
    var parts := Split(line, ',');
    PartsVisible(line);
    r := seen;
    for i := 0 to |parts|
      invariant i > 0 ==> r.Some?
      invariant seen.Some? ==> r == seen
      invariant seen.None? && i == 0 ==> r.None?
      invariant forall j :: 0 <= j < i ==> Digits(Members(line)[j]) == r
    {
      TrimVisible(parts[i]);
      assert Members(line)[i] in Members(line);
      var n := FromDigits(Trim(parts[i], IsWhitespace));
      if n.None? || (r.Some? && r != n) {
        if i > 0 {
          assert Members(line)[0] in Members(line);
        }
        return None;
      }
      r := n;
    }
    assert Members(line)[0] in Members(line);
  }

  lemma PartsVisible(line: string)
    requires VisibleAscii(line)
    ensures forall i :: 0 <= i < |Split(line, ',')| ==> VisibleAscii(Split(line, ',')[i])
  {
  }

  /** `content_length_parse_all_values`. */
  method ContentLengthParseAll(lines: seq<HeaderValue>) returns (r: Option<U64>)
    ensures forall n: U64 :: r == Some(n) <==> Agrees(lines, n)
  {
    r := None;
    for i := 0 to |lines|
      invariant i == 0 ==> r.None?
      invariant i > 0 ==> r.Some?
      invariant forall n: U64 :: i > 0 ==> (r == Some(n) <==> Agrees(lines[..i], n))
    {
      var next := ParseLine(lines[i], r);
      assert lines[..i + 1] == lines[..i] + [lines[i]];
      if next.None? {
        forall n: U64 ensures !Agrees(lines, n) {
          assert Agrees(lines, n) ==> Agrees(lines[..i + 1], n);
          assert Agrees(lines[..i + 1], n) ==> LineSays(lines[i], n) && (i > 0 ==> Agrees(lines[..i], n));
        }
        return None;
      }
      r := next;
    }
    assert lines[..|lines|] == lines;
  }

  lemma {:induction false} MemberOfLine(lines: seq<string>, m: string)
    ensures m in AllMembers(lines) <==> exists l :: l in lines && m in Members(l)
  {
    if lines != [] {
      MemberOfLine(lines[1..], m);
      assert lines == [lines[0]] + lines[1..];
    }
  }

  predicate AllVisible(lines: seq<string>) {
    forall l :: l in lines ==> VisibleAscii(l)
  }

  /** Agreement looks at the members of all lines together. */
  lemma AgreesByMembers(lines: seq<string>, n: U64)
    ensures Agrees(lines, n)
       <==> lines != [] && AllVisible(lines) && forall m :: m in AllMembers(lines) ==> Digits(m) == Some(n)
  {
    forall m ensures m in AllMembers(lines) <==> exists l :: l in lines && m in Members(l) {
      MemberOfLine(lines, m);
    }
  }

  /** The result does not depend on the order of the members, nor on how lines hold them. */
  lemma MembersDecide(a: seq<string>, b: seq<string>, n: U64)
    requires a != [] && b != [] && AllVisible(a) && AllVisible(b)
    requires multiset(AllMembers(a)) == multiset(AllMembers(b))
    ensures Agrees(a, n) <==> Agrees(b, n)
  {
    AgreesByMembers(a, n);
    AgreesByMembers(b, n);
    assert forall m :: m in AllMembers(a) <==> m in multiset(AllMembers(a));
    assert forall m :: m in AllMembers(b) <==> m in multiset(AllMembers(b));
  }

  lemma TrimAllConcat(a: seq<string>, b: seq<string>)
    ensures TrimAll(a + b) == TrimAll(a) + TrimAll(b)
  {
  }

  lemma MembersConcat(a: string, b: string)
    ensures Members(a + [','] + b) == Members(a) + Members(b)
  {
    SplitConcat(a, b, ',');
    TrimAllConcat(Split(a, ','), Split(b, ','));
  }

  lemma {:induction false} JoinMembers(lines: seq<string>)
    requires lines != []
    ensures Members(Join(lines, ',')) == AllMembers(lines)
    ensures VisibleAscii(Join(lines, ',')) <==> AllVisible(lines)
  {
    if |lines| == 1 {
      FlatMapOne(Members, lines[0]);
      assert lines == [lines[0]];
    } else {
      var rest := Join(lines[1..], ',');
      JoinMembers(lines[1..]);
      MembersConcat(lines[0], rest);
      VisibleConcat(lines[0], rest);
      assert lines == [lines[0]] + lines[1..];
    }
  }

  lemma VisibleConcat(a: string, b: string)
    ensures VisibleAscii(a + [','] + b) <==> VisibleAscii(a) && VisibleAscii(b)
  {
    var whole := a + [','] + b;
    assert forall i :: 0 <= i < |a| ==> whole[i] == a[i];
    assert forall i :: 0 <= i < |b| ==> whole[|a| + 1 + i] == b[i];
  }

  /** Several lines mean the same as one line that joins them with commas. */
  lemma JoinedLines(lines: seq<string>, n: U64)
    requires lines != []
    ensures Agrees(lines, n) <==> Agrees([Join(lines, ',')], n)
  {
    JoinMembers(lines);
    AgreesByMembers(lines, n);
    AgreesByMembers([Join(lines, ',')], n);
    FlatMapOne(Members, Join(lines, ','));
  }

  // ---------- blanks ----------

  /** `y` is `x` with spaces or tabs around it. */
  ghost predicate Padded(x: string, y: string) {
    exists a, b :: y == a + x + b && All(a, IsOws) && All(b, IsOws)
  }

  lemma PaddedTrim(x: string, y: string)
    requires Padded(x, y)
    ensures Trim(y, IsOws) == Trim(x, IsOws)
    ensures VisibleAscii(y) <==> VisibleAscii(x)
    ensures ',' in y <==> ',' in x
  {
    var a, b :| y == a + x + b && All(a, IsOws) && All(b, IsOws);
    TrimPadded(a, x, b, IsOws);
    assert forall i :: 0 <= i < |x| ==> y[|a| + i] == x[i];
    assert forall i :: 0 <= i < |y| && !(|a| <= i < |a| + |x|) ==> IsOws(y[i]);
  }

  ghost predicate AllPadded(xs: seq<string>, ys: seq<string>) {
    |xs| == |ys| && forall i :: 0 <= i < |xs| ==> Padded(xs[i], ys[i])
  }

  lemma PaddedMembers(xs: seq<string>, ys: seq<string>)
    requires xs != [] && AllPadded(xs, ys) && forall x :: x in xs ==> ',' !in x
    ensures Members(Join(ys, ',')) == Members(Join(xs, ','))
    ensures VisibleAscii(Join(ys, ',')) <==> VisibleAscii(Join(xs, ','))
  {
    forall i | 0 <= i < |xs|
      ensures Trim(ys[i], IsOws) == Trim(xs[i], IsOws)
      ensures (VisibleAscii(ys[i]) <==> VisibleAscii(xs[i])) && ',' !in ys[i] {
      PaddedTrim(xs[i], ys[i]);
    }
    SplitJoinFree(xs, ',');
    SplitJoinFree(ys, ',');
    JoinMembers(xs);
    JoinMembers(ys);
    assert AllVisible(xs) <==> AllVisible(ys) by {
      assert forall i :: 0 <= i < |xs| ==> xs[i] in xs && ys[i] in ys;
    }
  }

  /** A line is judged by its members and by whether it is readable. */
  lemma LineByMembers(line: string, line': string, n: U64)
    requires Members(line) == Members(line') && (VisibleAscii(line) <==> VisibleAscii(line'))
    ensures Agrees([line], n) <==> Agrees([line'], n)
    ensures IsChunked([line]) <==> IsChunked([line'])
  {
    IsChunkedExact([line]);
    IsChunkedExact([line']);
    FlatMapOne(Members, line);
    FlatMapOne(Members, line');
    assert LineSays(line, n) <==> LineSays(line', n);
    assert Agrees([line], n) <==> LineSays(line, n) by { assert line in [line]; }
    assert Agrees([line'], n) <==> LineSays(line', n) by { assert line' in [line']; }
  }

  /** Blanks around the members of a line change neither the length it gives nor whether it ends in `chunked`. */
  lemma BlanksDoNotMatter(xs: seq<string>, ys: seq<string>, n: U64)
    requires xs != [] && AllPadded(xs, ys) && forall x :: x in xs ==> ',' !in x
    ensures Agrees([Join(ys, ',')], n) <==> Agrees([Join(xs, ',')], n)
    ensures IsChunked([Join(ys, ',')]) <==> IsChunked([Join(xs, ',')])
  {
    PaddedMembers(xs, ys);
    LineByMembers(Join(ys, ','), Join(xs, ','), n);
  }

  /** A header value is readable as text exactly when all its bytes are below 128. */
  lemma ReadableExact(v: HeaderValue)
    ensures VisibleAscii(v) <==> forall i :: 0 <= i < |v| ==> v[i] as int < 128
  {
    assert forall i :: 0 <= i < |v| ==> ValidByte(v[i]);
  }

  // ---------- setting a length ----------

  /** A numeral alone on its line is read back, and as no other number. */
  lemma PrintedAgrees(len: U64, n: U64)
    ensures ValidValue(Decimal.Print(len))
    ensures Agrees([Decimal.Print(len)], n) <==> n == len
  {
    var s := Decimal.Print(len);
    assert forall i :: 0 <= i < |s| ==> IsDigit(s[i]);
    SplitFree(s, ',');
    assert IsDigit(s[0]) && IsDigit(s[|s| - 1]);
    assert TrimStart(s, IsOws) == s && Trim(s, IsOws) == s;
    assert Members(s) == [s];
    assert LineSays(s, n) <==> Digits(s) == Some(n) by {
      assert s in Members(s);
    }
  }

  /** An absent length is set and then parses as that length; a present one is left alone. */
  method SetContentLengthIfMissing(h: HeaderMap, len: U64)
    requires h.Valid()
    modifies h
    ensures h.Valid()
    ensures CONTENT_LENGTH in old(h.entries) ==> h.entries == old(h.entries)
    ensures CONTENT_LENGTH !in old(h.entries) ==> forall n: U64 :: Agrees(h.GetAll(CONTENT_LENGTH), n) <==> n == len
    ensures h.entries - {CONTENT_LENGTH} == old(h.entries) - {CONTENT_LENGTH}
  {
    if CONTENT_LENGTH !in h.entries {
      PrintedAgrees(len, len);
      var value: HeaderValue := Decimal.Print(len);
      h.entries := h.entries[CONTENT_LENGTH := [value]];
      forall n: U64 ensures Agrees([value], n) <==> n == len {
        PrintedAgrees(len, n);
      }
    }
  }

  // ---------- Transfer-Encoding ----------

  const CHUNKED := "chunked"

  /** `rsplit(',').next()`: the text after the last comma. */
  function AfterLast(s: string): string {
    if s == [] || s[|s| - 1] == ',' then [] else AfterLast(s[..|s| - 1]) + [s[|s| - 1]]
  }

  predicate IsChunkedValue(v: string) {
    VisibleAscii(v) && EqIgnoreCase(Trim(AfterLast(v), IsWhitespace), CHUNKED)
  }

  predicate IsChunked(lines: seq<string>) {
    lines != [] && IsChunkedValue(lines[|lines| - 1])
  }

  lemma {:induction false} AfterLastSplit(s: string)
    ensures ',' !in AfterLast(s)
    ensures ',' in s ==> exists a :: s == a + [','] + AfterLast(s)
    ensures ',' !in s ==> AfterLast(s) == s
  {
    if s != [] {
      var n := |s| - 1;
      assert s == s[..n] + [s[n]];
      if s[n] == ',' {
        assert s == s[..n] + [','] + AfterLast(s);
      } else {
        AfterLastSplit(s[..n]);
        if ',' in s {
          var a :| s[..n] == a + [','] + AfterLast(s[..n]);
          assert s == a + [','] + AfterLast(s);
        }
      }
    }
  }

  lemma AfterLastIsLast(s: string)
    ensures AfterLast(s) == Split(s, ',')[|Split(s, ',')| - 1]
  {
    AfterLastSplit(s);
    SplitFree(AfterLast(s), ',');
    if ',' in s {
      var a :| s == a + [','] + AfterLast(s);
      SplitConcat(a, AfterLast(s), ',');
    }
  }

  lemma LastMember(lines: seq<string>)
    requires lines != []
    ensures var ms, last := AllMembers(lines), Members(lines[|lines| - 1]);
            ms != [] && ms[|ms| - 1] == last[|last| - 1]
  {
    var n := |lines| - 1;
    assert lines == lines[..n] + [lines[n]];
    FlatMapConcat(Members, lines[..n], [lines[n]]);
    FlatMapOne(Members, lines[n]);
  }

  /** `is_chunked` asks whether the last coding of the flattened list is `chunked`, on a readable last line. */
  lemma IsChunkedExact(lines: seq<string>)
    ensures IsChunked(lines)
       <==> lines != [] && VisibleAscii(lines[|lines| - 1])
            && (var ms := AllMembers(lines); ms != [] && EqIgnoreCase(ms[|ms| - 1], CHUNKED))
  {
    if lines != [] {
      var line := lines[|lines| - 1];
      LastMember(lines);
      AfterLastIsLast(line);
      if VisibleAscii(line) {
        PartsVisible(line);
        TrimVisible(AfterLast(line));
      }
    }
  }

  lemma ChunkedMember()
    ensures Members(" chunked") == [CHUNKED]
  {
    SplitFree(" chunked", ',');
    assert TrimStart(" chunked", IsOws) == TrimStart(CHUNKED, IsOws) == CHUNKED;
  }

  lemma ChunkedTail(line: string)
    ensures Members(line + ", chunked") == Members(line) + [CHUNKED]
    ensures VisibleAscii(line + ", chunked") <==> VisibleAscii(line)
  {
    var tail := " chunked";
    assert line + ", chunked" == line + [','] + tail;
    MembersConcat(line, tail);
    VisibleConcat(line, tail);
    ChunkedMember();
  }

  lemma AddedMembers(before: seq<string>, line: string)
    ensures AllMembers(before + [line + ", chunked"]) == AllMembers(before + [line]) + [CHUNKED]
  {
    ChunkedTail(line);
    FlatMapConcat(Members, before, [line + ", chunked"]);
    FlatMapConcat(Members, before, [line]);
    FlatMapOne(Members, line);
    FlatMapOne(Members, line + ", chunked");
  }

  /**
   `add_chunked` on the occupied entry of the transfer encodings: one coding is added at the end of
   the flattened list, all others stay, and the message then counts as chunked exactly when the
   former last line was readable.
   */
  method AddChunked(h: HeaderMap)
    requires h.Valid() && TRANSFER_ENCODING in h.entries
    modifies h
    ensures h.Valid()
    ensures h.entries - {TRANSFER_ENCODING} == old(h.entries) - {TRANSFER_ENCODING}
    ensures AllMembers(h.GetAll(TRANSFER_ENCODING)) == AllMembers(old(h.GetAll(TRANSFER_ENCODING))) + [CHUNKED]
    ensures var was := old(h.GetAll(TRANSFER_ENCODING));
            IsChunked(h.GetAll(TRANSFER_ENCODING)) <==> VisibleAscii(was[|was| - 1])
  {
    var lines := h.entries[TRANSFER_ENCODING];
    var n := |lines| - 1;
    var line: HeaderValue := lines[n] + ", chunked";
    h.entries := h.entries[TRANSFER_ENCODING := lines[..n] + [line]];
    assert lines == lines[..n] + [lines[n]];
    ChunkedTail(lines[n]);
    AddedMembers(lines[..n], lines[n]);
    IsChunkedExact(lines[..n] + [line]);
  }
}

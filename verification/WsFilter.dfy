/** The WebSocket text filter of the man-in-the-middle proxy: each word is cut, looked up and rewritten. */
module WsFilter {
  import opened Text
  import opened Utf8

  /** The cut of a word: a core from the first to the last ASCII alphanumeric, and what surrounds it. */
  predicate Parts(word: string, prefix: string, core: string, suffix: string) {
    && word == prefix + core + suffix
    && NoneAlphanumeric(prefix) && NoneAlphanumeric(suffix)
    && (if core == [] then suffix == [] else IsAlphanumeric(core[0]) && IsAlphanumeric(core[|core| - 1]))
  }

  /** How many leading characters are not alphanumeric. */
  function Lead(s: string): (n: nat)
    ensures n <= |s| && NoneAlphanumeric(s[..n]) && (n < |s| ==> IsAlphanumeric(s[n]))
  {
    if s == [] || IsAlphanumeric(s[0]) then 0
    else
      assert forall k :: 0 <= k <= |s[1..]| ==> s[..k + 1] == [s[0]] + s[1..][..k];
      1 + Lead(s[1..])
  }

  /** The length without trailing non-alphanumeric characters. */
  function Trail(s: string): (n: nat)
    ensures n <= |s| && NoneAlphanumeric(s[n..]) && (n > 0 ==> IsAlphanumeric(s[n - 1]))
  {
    if s == [] || IsAlphanumeric(s[|s| - 1]) then |s|
    else
      var init := s[..|s| - 1];
      assert forall k :: 0 <= k <= |init| ==> s[k..] == init[k..] + [s[|s| - 1]];
      Trail(init)
  }

  function Prefix(word: string): string { word[..Lead(word)] }

  function Core(word: string): string {
    var rest := word[Lead(word)..];
    rest[..Trail(rest)]
  }

  function Suffix(word: string): string {
    var rest := word[Lead(word)..];
    rest[Trail(rest)..]
  }

  lemma PartsFrom(word: string, i: nat, rest: string, n: nat)
    requires i <= |word| && NoneAlphanumeric(word[..i]) && (i < |word| ==> IsAlphanumeric(word[i]))
    requires rest == word[i..] && n <= |rest| && NoneAlphanumeric(rest[n..]) && (n > 0 ==> IsAlphanumeric(rest[n - 1]))
    ensures Parts(word, word[..i], rest[..n], rest[n..])
  {
  }

  lemma PartsExist(word: string)
    ensures Parts(word, Prefix(word), Core(word), Suffix(word))
  {
    var rest := word[Lead(word)..];
    PartsFrom(word, Lead(word), rest, Trail(rest));
  }

  lemma PartsUnique(word: string, p: string, c: string, s: string, p': string, c': string, s': string)
    requires Parts(word, p, c, s) && Parts(word, p', c', s')
    ensures p == p' && c == c' && s == s'
  {
    PrefixNotShorter(word, p, c, s, p', c', s');
    PrefixNotShorter(word, p', c', s', p, c, s);
    assert p == word[..|p|] && p' == word[..|p'|];
    SuffixNotShorter(word, p, c, s, p', c', s');
    SuffixNotShorter(word, p', c', s', p, c, s);
    assert s == word[|word| - |s|..] && s' == word[|word| - |s'|..];
    assert c == word[|p|..|word| - |s|];
  }

  lemma PrefixNotShorter(word: string, p: string, c: string, s: string, p': string, c': string, s': string)
    requires Parts(word, p, c, s) && Parts(word, p', c', s')
    ensures |p'| <= |p|
  {
    if c == [] {
      assert |word| == |p|;
    } else {
      assert word[|p|] == c[0];
      assert forall i :: 0 <= i < |p'| ==> word[i] == p'[i];
    }
  }

  lemma SuffixNotShorter(word: string, p: string, c: string, s: string, p': string, c': string, s': string)
    requires Parts(word, p, c, s) && Parts(word, p', c', s') && |p| == |p'|
    ensures |s'| <= |s|
  {
    if c == [] {
      assert |word| == |p|;
    } else {
      var last := |p| + |c| - 1;
      assert word[last] == c[|c| - 1];
      assert forall i :: 0 <= i < |s'| ==> word[|p'| + |c'| + i] == s'[i];
    }
  }

  /** Encoding respects the cut, so the byte scan finds the cut of the characters. */
  lemma EncodeParts(word: string, p: string, c: string, s: string)
    requires Parts(word, p, c, s)
    ensures Parts(Encode(word), Encode(p), Encode(c), Encode(s))
  {
    EncodeThree(p, c, s);
    EncodeNone(p);
    EncodeNone(s);
    if c != [] {
      EncodeEnds(c);
    }
  }

  lemma EncodeThree(p: string, c: string, s: string)
    ensures Encode(p + c + s) == Encode(p) + Encode(c) + Encode(s)
  {
    FlatMapConcat(EncodeChar, p + c, s);
    FlatMapConcat(EncodeChar, p, c);
  }

  predicate StartsChar(b: seq<Byte>) {
    b != [] ==> !IsContinuation(b[0])
  }

  lemma TwoCuts(a: seq<Byte>, b: seq<Byte>, c: seq<Byte>)
    requires StartsChar(b) && StartsChar(c)
    ensures IsBoundary(a + b + c, |a|) && IsBoundary(a + b + c, |a| + |b|)
  {
  }

  lemma CutsAreBoundaries(p: string, c: string, s: string)
    ensures var bytes := Encode(p + c + s);
            IsBoundary(bytes, |Encode(p)|) && IsBoundary(bytes, |Encode(p)| + |Encode(c)|)
  {
    EncodeThree(p, c, s);
    FirstByte(c);
    FirstByte(s);
    TwoCuts(Encode(p), Encode(c), Encode(s));
  }

  lemma ByteCut(word: string, bytes: seq<Byte>, prefix: seq<Byte>, core: seq<Byte>, suffix: seq<Byte>)
    requires bytes == Encode(word) && Parts(bytes, prefix, core, suffix)
    ensures prefix == Encode(Prefix(word)) && core == Encode(Core(word)) && suffix == Encode(Suffix(word))
    ensures IsBoundary(bytes, |prefix|) && IsBoundary(bytes, |prefix| + |core|)
  {
    PartsExist(word);
    EncodeParts(word, Prefix(word), Core(word), Suffix(word));
    CutsAreBoundaries(Prefix(word), Core(word), Suffix(word));
    PartsUnique(bytes, prefix, core, suffix, Encode(Prefix(word)), Encode(Core(word)), Encode(Suffix(word)));
  }

  /** `split_word`: two byte scans whose cut points are character boundaries of the word. */
  method SplitWord(ghost word: string, bytes: seq<Byte>) returns (prefix: seq<Byte>, core: seq<Byte>, suffix: seq<Byte>)
    requires bytes == Encode(word)
    ensures prefix == Encode(Prefix(word)) && core == Encode(Core(word)) && suffix == Encode(Suffix(word))
    ensures IsBoundary(bytes, |prefix|) && IsBoundary(bytes, |prefix| + |core|)
  {
    var start, end := 0, |bytes|;
    while start < end && !IsAlphanumeric(bytes[start])
      invariant 0 <= start <= end == |bytes|
      invariant NoneAlphanumeric(bytes[..start])
    {
      start := start + 1;
    }
    while end > start && !IsAlphanumeric(bytes[end - 1])
      invariant start <= end <= |bytes|
      invariant NoneAlphanumeric(bytes[end..])
      invariant start == |bytes| || (start < end && IsAlphanumeric(bytes[start]))
    {
      end := end - 1;
    }
    prefix, core, suffix := bytes[..start], bytes[start..end], bytes[end..];
    assert bytes == prefix + core + suffix;
    ByteCut(word, bytes, prefix, core, suffix);
  }

  // ---------- rewriting words ----------

  function Replacement(core: string): Option<string> {
    if EqIgnoreCase(core, "damn") then Some("frack")
    else if EqIgnoreCase(core, "hell") then Some("heckscape")
    else if EqIgnoreCase(core, "shit") then Some("gronk")
    else if EqIgnoreCase(core, "fuck") then Some("zarquon")
    else if EqIgnoreCase(core, "bastard") then Some("shazbot")
    else if EqIgnoreCase(core, "crap") then Some("quant-dump")
    else if EqIgnoreCase(core, "idiot") then Some("neural-misfire")
    else if EqIgnoreCase(core, "stupid") then Some("entropy-brained")
    else None
  }

  /** Which word is replaced by which: each listed word in any letter case, and no other. */
  lemma ReplacementExact(core: string)
    ensures Replacement(core) == Some("frack") <==> EqIgnoreCase(core, "damn")
    ensures Replacement(core) == Some("heckscape") <==> EqIgnoreCase(core, "hell")
    ensures Replacement(core) == Some("gronk") <==> EqIgnoreCase(core, "shit")
    ensures Replacement(core) == Some("zarquon") <==> EqIgnoreCase(core, "fuck")
    ensures Replacement(core) == Some("shazbot") <==> EqIgnoreCase(core, "bastard")
    ensures Replacement(core) == Some("quant-dump") <==> EqIgnoreCase(core, "crap")
    ensures Replacement(core) == Some("neural-misfire") <==> EqIgnoreCase(core, "idiot")
    ensures Replacement(core) == Some("entropy-brained") <==> EqIgnoreCase(core, "stupid")
  {
    assert "frack"[0] != "gronk"[0] && "zarquon"[0] != "shazbot"[0];
    assert "damn"[0] != "hell"[0] && "shit"[0] != "fuck"[0] && "crap"[0] != "damn"[0];
  }

  function FilterWord(word: string): string {
    match Replacement(Core(word))
    case Some(r) => Prefix(word) + r + Suffix(word)
    case None => word
  }

  /** A word as `split_whitespace` yields it. */
  predicate IsWord(w: string) {
    w != [] && forall i :: 0 <= i < |w| ==> !IsWhitespace(w[i])
  }

  predicate IsAscii(s: string) {
    forall i :: 0 <= i < |s| ==> s[i] as int < 0x80
  }

  /** An ASCII word with alphanumeric ends that is not on the list itself. */
  predicate Clean(r: string) {
    IsWord(r) && IsAscii(r) && IsAlphanumeric(r[0]) && IsAlphanumeric(r[|r| - 1]) && Replacement(r).None?
  }

  lemma CleanFrack() ensures Clean("frack") {}
  lemma CleanHeckscape() ensures Clean("heckscape") {}
  lemma CleanGronk() ensures Clean("gronk") {}
  lemma CleanZarquon() ensures Clean("zarquon") {}
  lemma CleanShazbot() ensures Clean("shazbot") {}
  lemma CleanQuantDump() ensures Clean("quant-dump") {}
  lemma CleanNeuralMisfire() ensures Clean("neural-misfire") {}
  lemma CleanEntropyBrained() ensures Clean("entropy-brained") {}

  lemma ReplacementClean(core: string)
    requires Replacement(core).Some?
    ensures Clean(Replacement(core).value)
  {
    if EqIgnoreCase(core, "damn") { CleanFrack(); }
    else if EqIgnoreCase(core, "hell") { CleanHeckscape(); }
    else if EqIgnoreCase(core, "shit") { CleanGronk(); }
    else if EqIgnoreCase(core, "fuck") { CleanZarquon(); }
    else if EqIgnoreCase(core, "bastard") { CleanShazbot(); }
    else if EqIgnoreCase(core, "crap") { CleanQuantDump(); }
    else if EqIgnoreCase(core, "idiot") { CleanNeuralMisfire(); }
    else { CleanEntropyBrained(); }
  }

  /** Putting a clean word between the prefix and suffix of a word makes it the core. */
  lemma CleanCore(p: string, r: string, s: string)
    requires Clean(r) && NoneAlphanumeric(p) && NoneAlphanumeric(s)
    ensures var out := p + r + s;
            Prefix(out) == p && Core(out) == r && Suffix(out) == s
  {
    var out := p + r + s;
    PartsExist(out);
    PartsUnique(out, p, r, s, Prefix(out), Core(out), Suffix(out));
  }

  /** The core a word is left with. */
  function Cleaned(core: string): string {
    if Replacement(core).Some? then Replacement(core).value else core
  }

  /** A rewritten word keeps its prefix and suffix around the replaced core, and has none left to replace. */
  lemma FilterWordParts(word: string)
    ensures Prefix(FilterWord(word)) == Prefix(word) && Suffix(FilterWord(word)) == Suffix(word)
    ensures Core(FilterWord(word)) == Cleaned(Core(word))
    ensures Replacement(Core(FilterWord(word))).None?
  {
    if Replacement(Core(word)).Some? {
      PartsExist(word);
      ReplacementClean(Core(word));
      CleanCore(Prefix(word), Replacement(Core(word)).value, Suffix(word));
    }
  }

  lemma FilterWordIsWord(word: string)
    requires IsWord(word)
    ensures IsWord(FilterWord(word))
  {
    if Replacement(Core(word)).Some? {
      ReplacementClean(Core(word));
      PartsExist(word);
    }
  }

  lemma {:induction false} EncodeAscii(s: string)
    ensures IsAscii(s) ==> Encode(s) == s
    ensures IsAscii(Encode(s)) ==> IsAscii(s)
  {
    if s != [] {
      EncodeAscii(s[1..]);
      assert s == [s[0]] + s[1..];
      if IsAscii(Encode(s)) {
        assert Encode(s)[0] as int < 0x80;
        assert EncodeChar(s[0]) == [s[0]];
        assert Encode(s)[1..] == Encode(s[1..]);
      }
    }
  }

  /** Comparing bytes with an ASCII text is comparing characters with it. */
  lemma EncodedMatch(s: string, ascii: string)
    requires IsAscii(ascii)
    ensures EqIgnoreCase(Encode(s), ascii) <==> EqIgnoreCase(s, ascii)
  {
    EncodeAscii(s);
    MatchIsAscii(s, ascii);
    MatchIsAscii(Encode(s), ascii);
  }

  lemma MatchIsAscii(s: string, ascii: string)
    requires IsAscii(ascii)
    ensures EqIgnoreCase(s, ascii) ==> IsAscii(s)
  {
  }

  lemma EncodedShort(core: string)
    ensures EqIgnoreCase(Encode(core), "damn") <==> EqIgnoreCase(core, "damn")
    ensures EqIgnoreCase(Encode(core), "hell") <==> EqIgnoreCase(core, "hell")
    ensures EqIgnoreCase(Encode(core), "shit") <==> EqIgnoreCase(core, "shit")
    ensures EqIgnoreCase(Encode(core), "fuck") <==> EqIgnoreCase(core, "fuck")
  {
    EncodedMatch(core, "damn");
    EncodedMatch(core, "hell");
    EncodedMatch(core, "shit");
    EncodedMatch(core, "fuck");
  }

  lemma EncodedLong(core: string)
    ensures EqIgnoreCase(Encode(core), "bastard") <==> EqIgnoreCase(core, "bastard")
    ensures EqIgnoreCase(Encode(core), "crap") <==> EqIgnoreCase(core, "crap")
    ensures EqIgnoreCase(Encode(core), "idiot") <==> EqIgnoreCase(core, "idiot")
    ensures EqIgnoreCase(Encode(core), "stupid") <==> EqIgnoreCase(core, "stupid")
  {
    EncodedMatch(core, "bastard");
    EncodedMatch(core, "crap");
    EncodedMatch(core, "idiot");
    EncodedMatch(core, "stupid");
  }

  lemma EncodedReplacement(core: string)
    ensures Replacement(Encode(core)) == Replacement(core)
  {
    EncodedShort(core);
    EncodedLong(core);
  }

  /** The rewriting of one word on its bytes: it computes the encoding of the rewritten word. */
  method RewriteWord(ghost word: string, bytes: seq<Byte>) returns (out: seq<Byte>)
    requires bytes == Encode(word)
    ensures out == Encode(FilterWord(word))
  {
    var prefix, core, suffix := SplitWord(word, bytes);
    EncodedReplacement(Core(word));
    var replacement := Replacement(core);
    if replacement.None? {
      return bytes;
    }
    out := prefix + AsBytes(word, replacement.value) + suffix;
    EncodeThree(Prefix(word), replacement.value, Suffix(word));
  }

  /** The replacements are ASCII, so they are their own bytes. */
  function AsBytes(ghost word: string, r: string): (b: seq<Byte>)
    requires Replacement(Core(word)) == Some(r)
    ensures b == r && Encode(r) == r
  {
    ReplacementClean(Core(word));
    EncodeAscii(r);
    r
  }

  // ---------- rewriting text ----------

  function WordLength(s: string): (n: nat)
    ensures n <= |s| && (n < |s| ==> IsWhitespace(s[n]))
    ensures forall i :: 0 <= i < n ==> !IsWhitespace(s[i])
  {
    if s == [] || IsWhitespace(s[0]) then 0
    else
      var n := WordLength(s[1..]);
      assert forall i :: 1 <= i < n + 1 ==> s[i] == s[1..][i - 1];
      1 + n
  }

  /** `split_whitespace`: the maximal runs without white space. */
  function Words(s: string): seq<string>
    decreases |s|
  {
    if s == [] then []
    else if IsWhitespace(s[0]) then Words(s[1..])
    else [s[..WordLength(s)]] + Words(s[WordLength(s)..])
  }

  function FilterWords(words: seq<string>): (r: seq<string>)
    ensures |r| == |words|
  {
    if words == [] then [] else [FilterWord(words[0])] + FilterWords(words[1..])
  }

  function FilterText(s: string): string {
    Join(FilterWords(Words(s)), ' ')
  }

  predicate AllWords(words: seq<string>) {
    forall i :: 0 <= i < |words| ==> IsWord(words[i])
  }

  lemma {:induction false} WordsAreWords(s: string)
    ensures AllWords(Words(s))
    decreases |s|
  {
    if s != [] {
      if IsWhitespace(s[0]) {
        WordsAreWords(s[1..]);
      } else {
        WordsAreWords(s[WordLength(s)..]);
      }
    }
  }

  /** Words joined by spaces are split back into the same words. */
  lemma {:induction false} WordsJoin(words: seq<string>)
    requires AllWords(words)
    ensures Words(Join(words, ' ')) == words
  {
    if |words| == 1 {
      FirstWord(words[0], "");
      assert words[0] + "" == words[0] && words == [words[0]];
    } else if |words| > 1 {
      var rest := Join(words[1..], ' ');
      WordsJoin(words[1..]);
      FirstWord(words[0], [' '] + rest);
      assert words[0] + ([' '] + rest) == Join(words, ' ');
      assert ([' '] + rest)[1..] == rest && words == [words[0]] + words[1..];
    }
  }

  lemma FirstWord(w: string, rest: string)
    requires IsWord(w) && (rest == "" || IsWhitespace(rest[0]))
    ensures Words(w + rest) == [w] + Words(rest)
  {
    var s, n := w + rest, WordLength(w + rest);
    assert !IsWhitespace(s[0]) by { assert s[0] == w[0]; }
    assert forall i :: 0 <= i < |w| ==> s[i] == w[i];
    assert rest != "" ==> s[|w|] == rest[0];
    assert n == |w|;
    assert s[..n] == w && s[n..] == rest;
  }

  /** Text is cut at every white space character, wherever it stands and however many there are. */
  lemma {:induction false} WordsCut(a: string, c: char, b: string)
    requires IsWhitespace(c)
    ensures Words(a + [c] + b) == Words(a) + Words(b)
    decreases |a|
  {
    var s := a + [c] + b;
    if a == [] {
      assert s[0] == c && s[1..] == b;
    } else if IsWhitespace(a[0]) {
      assert s[0] == a[0] && s[1..] == a[1..] + [c] + b;
      WordsCut(a[1..], c, b);
    } else {
      var n := WordLength(a);
      var w, rest := a[..n], a[n..];
      assert a == w + rest && s == w + (rest + [c] + b);
      FirstWord(w, rest);
      FirstWord(w, rest + [c] + b);
      WordsCut(rest, c, b);
    }
  }

  /** With the cut law these two cases determine the words of every text. */
  lemma WordsBase(w: string)
    ensures Words("") == []
    ensures IsWord(w) ==> Words(w) == [w]
  {
    if IsWord(w) {
      FirstWord(w, "");
      assert w + "" == w;
    }
  }

  lemma {:induction false} FilterWordsFixed(words: seq<string>)
    requires AllWords(words)
    ensures AllWords(FilterWords(words))
    ensures FilterWords(FilterWords(words)) == FilterWords(words)
  {
    if words != [] {
      var w := FilterWord(words[0]);
      FilterWordParts(words[0]);
      FilterWordIsWord(words[0]);
      FilterWordsFixed(words[1..]);
      assert FilterWords(words)[1..] == FilterWords(words[1..]);
      assert FilterWord(w) == w;
    }
  }

  lemma {:induction false} FilterWordsAt(words: seq<string>, i: nat)
    requires i < |words|
    ensures FilterWords(words)[i] == FilterWord(words[i])
  {
    if i > 0 {
      FilterWordsAt(words[1..], i - 1);
    }
  }

  /**
   For every text: the filter keeps the number of words, rewrites each word in place with its prefix
   and suffix unchanged, leaves no word whose core is on the list, puts one space between words, and is
   idempotent.
   */
  lemma FilterTextCorrect(s: string)
    ensures |Words(FilterText(s))| == |Words(s)|
    ensures forall i :: 0 <= i < |Words(s)| ==>
              var before, after := Words(s)[i], Words(FilterText(s))[i];
              && Prefix(after) == Prefix(before) && Suffix(after) == Suffix(before)
              && Core(after) == Cleaned(Core(before)) && Replacement(Core(after)).None?
              && (Replacement(Core(before)).None? ==> after == before)
    ensures FilterText(s) == Join(Words(FilterText(s)), ' ')
    ensures FilterText(FilterText(s)) == FilterText(s)
  {
    var words := Words(s);
    WordsAreWords(s);
    FilterWordsFixed(words);
    WordsJoin(FilterWords(words));
    forall i | 0 <= i < |words|
      ensures var before, after := words[i], FilterWords(words)[i];
              && Prefix(after) == Prefix(before) && Suffix(after) == Suffix(before)
              && Core(after) == Cleaned(Core(before)) && Replacement(Core(after)).None?
              && (Replacement(Core(before)).None? ==> after == before) {
      FilterWordsAt(words, i);
      FilterWordParts(words[i]);
    }
  }
}

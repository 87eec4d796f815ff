/** A composed username and its parse, as strings. */
module UsernameStrings {
  import opened Text
  import opened ProxyFilters
  import opened UsernameParser
  import opened LabelRoundTrip
  import opened Usernames
  import opened Composing
  import Decimal

  const DEFAULT_SEPARATOR := '-'

  /** A separator that no key, flag or number is spelled with. */
  ghost predicate PlainSeparator(c: char) {
    && !IsDigit(c) && c != '!'
    && (forall k :: c !in KeyName(k))
    && (forall b :: c !in FlagName(b))
  }

  lemma DefaultIsPlain()
    ensures PlainSeparator(DEFAULT_SEPARATOR)
  {
    forall k ensures DEFAULT_SEPARATOR !in KeyName(k) {
      match k
      case IdKey =>
      case AsnKey =>
      case ListKey(t) => TextNameFree(t);
    }
    forall b ensures DEFAULT_SEPARATOR !in FlagName(b) {
      match b
      case Datacenter =>
      case Residential =>
      case Mobile =>
    }
  }

  lemma TextNameFree(t: TextKey)
    ensures DEFAULT_SEPARATOR !in KeyName(ListKey(t))
  {
    match t
    case Pool =>
    case Continent =>
    case Country =>
    case State =>
    case City =>
    case Carrier =>
  }

  /** The separator occurs in no string handed to the composer. */
  ghost predicate SeparatorFree(user: string, f: ProxyFilter, separator: char) {
    separator !in user && forall k, t :: t in TextsOf(f, k) ==> separator !in t
  }

  /** The normaliser brings in no separator; trimming, lower case and NFC never produce a '-'. */
  ghost predicate AddsNo(norm: string -> string, c: char) {
    forall s :: c in norm(s) ==> c in s
  }

  lemma FreeNames(separator: char) returns (p: string -> bool)
    requires PlainSeparator(separator)
    ensures NamesSatisfy(p) && forall s :: p(s) <==> separator !in s
  {
    p := s => separator !in s;
  }

  lemma FreeLabels(user: string, f: ProxyFilter, separator: char)
    requires PlainSeparator(separator) && SeparatorFree(user, f, separator)
    ensures forall l :: l in [user] + Labels(f) ==> separator !in l
  {
    var p := FreeNames(separator);
    LabelsSatisfy(f, p);
  }

  lemma {:induction false} ReadGroupsSatisfy(labels: seq<string>, p: string -> bool)
    requires forall l :: l in labels ==> p(l)
    ensures ValuesSatisfy(ReadGroups(labels).groups, p)
    decreases |labels|
  {
    if labels != [] {
      var w := ReadWord(labels[0]);
      if w.NoWord? {
        ReadGroupsSatisfy(labels[1..], p);
      } else if w.FlagWord? {
        ReadGroupsSatisfy(labels[1..], p);
        SatisfyCons(Toggle(w.flag, w.value), ReadGroups(labels[1..]).groups, p);
      } else if |labels| > 1 {
        ReadGroupsSatisfy(labels[2..], p);
        SatisfyCons(Assign(w.key, labels[1]), ReadGroups(labels[2..]).groups, p);
      }
    }
  }

  lemma {:induction false} MapFree(norm: string -> string, xs: seq<string>, c: char)
    requires AddsNo(norm, c) && forall x :: x in xs ==> c !in x
    ensures forall y :: y in Map(norm, xs) ==> c !in y
  {
    if xs != [] {
      MapFree(norm, xs[1..], c);
    }
  }

  /** Values read from separator-free labels are separator-free. */
  lemma DescribedFree(norm: string -> string, groups: seq<Group>, f: ProxyFilter, p: string -> bool, separator: char)
    requires AddsNo(norm, separator) && !IsDigit(separator)
    requires Describes(norm, DEFAULT, groups, f)
    requires ValuesSatisfy(groups, p) && forall s :: p(s) <==> separator !in s
    ensures forall k, t :: t in TextsOf(f, k) ==> separator !in t
  {
    forall k, t | t in TextsOf(f, k) ensures separator !in t {
      match k
      case IdKey => assert t in Values(groups, IdKey);
      case ListKey(l) => MapFree(norm, Values(groups, k), separator);
      case AsnKey => assert Decimal.AllDigits(t);
    }
  }

  lemma DecodedFree(norm: string -> string, text: string, separator: char)
    requires AddsNo(norm, separator) && PlainSeparator(separator)
    ensures var pieces := Split(text, separator);
            var t := Run(norm, START, pieces[1..]);
            Abort !in t.answers ==> SeparatorFree(pieces[0], t.final.filter, separator)
  {
    var pieces := Split(text, separator);
    var t := Run(norm, START, pieces[1..]);
    SplitSound(text, separator);
    RunRefinesFields(norm, DEFAULT, pieces[1..]);
    if Abort !in t.answers {
      var p := FreeNames(separator);
      ReadGroupsSatisfy(pieces[1..], p);
      DescribedFree(norm, ReadGroups(pieces[1..]).groups, t.final.filter, p, separator);
    }
  }

  /**
   Parsing a composed username gives back the username and the filter exactly when the username
   is not empty, the separator occurs in neither, and no list of the filter is empty.
   */
  lemma UsernameRoundTrip(norm: string -> string, user: string, f: ProxyFilter, separator: char)
    requires Idempotent(norm) && AddsNo(norm, separator) && PlainSeparator(separator)
    requires Valid(norm, f) && Encode(user, f, separator).Some?
    ensures Decode(norm, Encode(user, f, separator).value, separator) == Parsed(user, Stored(f))
       <==> user != "" && SeparatorFree(user, f, separator) && NoEmptyList(f)
  {
    var text := Encode(user, f, separator).value;
    if user != "" && SeparatorFree(user, f, separator) && NoEmptyList(f) {
      RoundTripForward(norm, user, f, text, separator);
    }
    if Decode(norm, text, separator) == Parsed(user, Stored(f)) {
      RoundTripBackward(norm, user, f, text, separator);
    }
  }

  lemma RoundTripForward(norm: string -> string, user: string, f: ProxyFilter, text: string, separator: char)
    requires PlainSeparator(separator) && Valid(norm, f) && text == Join([user] + Labels(f), separator)
    requires user != "" && SeparatorFree(user, f, separator) && NoEmptyList(f)
    ensures Decode(norm, text, separator) == Parsed(user, Stored(f))
  {
    FreeLabels(user, f, separator);
    SplitJoin([user] + Labels(f), separator);
    assert ([user] + Labels(f))[1..] == Labels(f);
    LabelsRoundTrip(norm, f);
    OnlyUsed(Run(norm, START, Labels(f)).answers);
  }

  lemma OnlyUsed(answers: seq<LabelState>)
    ensures AllUsed(answers) <==> Abort !in answers && Ignored !in answers
  {
  }

  lemma RoundTripBackward(norm: string -> string, user: string, f: ProxyFilter, text: string, separator: char)
    requires Idempotent(norm) && AddsNo(norm, separator) && PlainSeparator(separator)
    requires Decode(norm, text, separator) == Parsed(user, Stored(f))
    ensures user != "" && SeparatorFree(user, f, separator) && NoEmptyList(f) && Valid(norm, f)
  {
    var pieces := Split(text, separator);
    DecodedFree(norm, text, separator);
    OnlyUsed(Run(norm, START, pieces[1..]).answers);
    ReachableValid(norm, pieces[1..]);
  }

  // ---------- composing what was parsed ----------

  /** The filter that a parse stored, the default one when it stored none. */
  function FilterOf(stored: Option<ProxyFilter>): ProxyFilter {
    if stored.Some? then stored.value else DEFAULT
  }

  lemma {:induction false} MapEmpty(norm: string -> string, xs: seq<string>)
    ensures "" in Map(norm, xs) <==> exists x :: x in xs && norm(x) == ""
  {
    if xs != [] {
      MapEmpty(norm, xs[1..]);
      assert xs == [xs[0]] + xs[1..];
    }
  }

  /** A described filter has an empty value exactly when one of its list values normalises to nothing. */
  lemma DescribedEmpty(norm: string -> string, groups: seq<Group>, f: ProxyFilter, k: Key)
    requires Accepts(groups) && Describes(norm, DEFAULT, groups, f)
    ensures "" in TextsOf(f, k) <==> k.ListKey? && exists x :: x in Values(groups, k) && norm(x) == ""
  {
    match k
    case IdKey =>
    case ListKey(t) => MapEmpty(norm, Values(groups, k));
    case AsnKey =>
  }

  /** No list value of the text's labels is normalised to the empty string. */
  ghost predicate NoBlankValue(norm: string -> string, text: string, separator: char) {
    var groups := ReadGroups(Split(text, separator)[1..]).groups;
    forall k, x :: x in Values(groups, ListKey(k)) ==> norm(x) != ""
  }

  /**
   Every username text that parses: what it parsed to can be composed again exactly when no list value
   was normalised to nothing, and the composed text then parses to the same username and filter.
   */
  lemma CanonicalText(norm: string -> string, text: string, separator: char)
    requires Idempotent(norm) && AddsNo(norm, separator) && PlainSeparator(separator)
    requires Decode(norm, text, separator).Parsed?
    ensures var r := Decode(norm, text, separator);
            var again := Encode(r.username, FilterOf(r.stored), separator);
            && (again.Some? <==> NoBlankValue(norm, text, separator))
            && (again.Some? ==> Decode(norm, again.value, separator) == r)
  {
    var r := Decode(norm, text, separator);
    var f := FilterOf(r.stored);
    ComposableExactly(norm, text, f, separator);
    RoundTripBackward(norm, r.username, f, text, separator);
    if Encode(r.username, f, separator).Some? {
      UsernameRoundTrip(norm, r.username, f, separator);
    }
  }

  lemma NoEmptyText(norm: string -> string, groups: seq<Group>, f: ProxyFilter)
    requires Accepts(groups) && Describes(norm, DEFAULT, groups, f)
    ensures (forall k :: "" !in TextsOf(f, k)) <==> (forall k, x :: x in Values(groups, ListKey(k)) ==> norm(x) != "")
  {
    forall k ensures "" in TextsOf(f, k) <==> k.ListKey? && exists x :: x in Values(groups, k) && norm(x) == "" {
      DescribedEmpty(norm, groups, f, k);
    }
  }

  lemma ComposableExactly(norm: string -> string, text: string, f: ProxyFilter, separator: char)
    requires Decode(norm, text, separator).Parsed? && f == FilterOf(Decode(norm, text, separator).stored)
    ensures "" !in Labels(f) <==> NoBlankValue(norm, text, separator)
  {
    var labels := Split(text, separator)[1..];
    var groups := ReadGroups(labels).groups;
    OnlyUsed(Run(norm, START, labels).answers);
    RunRefinesFields(norm, DEFAULT, labels);
    EmptyLabel(f);
    NoEmptyText(norm, groups, f);
  }

  // ---------- inputs that do not come back ----------

  lemma SplitThree(a: string, b: string, c: string, separator: char)
    requires separator !in a && separator !in b && separator !in c
    ensures Split(a + [separator] + (b + [separator] + c), separator) == [a, b, c]
  {
    SplitFree(a, separator);
    SplitFree(b, separator);
    SplitFree(c, separator);
    SplitConcat(b, c, separator);
    SplitConcat(a, b + [separator] + c, separator);
  }

  lemma BlankCountry(norm: string -> string, f: ProxyFilter)
    requires norm("") == "" && f == DEFAULT.(country := Some([""]))
    ensures Run(norm, START, ["country", ""]) == Trace(Parser(None, f), [Used, Used])
  {
    var labels, pending := ["country", ""], Parser(Some(ListKey(Country)), DEFAULT);
    ReadKeyName(ListKey(Country));
    assert ParseLabel(norm, START, "country") == (pending, Used);
    assert ParseLabel(norm, pending, "") == (Parser(None, f), Used);
    assert labels[1..] == [""] && labels[1..][1..] == [];
    assert Run(norm, pending, labels[1..]) == Trace(Parser(None, f), [Used]);
  }

  lemma DecodePieces(norm: string -> string, text: string, user: string, labels: seq<string>, f: ProxyFilter)
    requires Split(text, DEFAULT_SEPARATOR) == [user] + labels && user != ""
    requires Run(norm, START, labels).final == Parser(None, f) && AllUsed(Run(norm, START, labels).answers)
    ensures Decode(norm, text, DEFAULT_SEPARATOR) == Parsed(user, Stored(f))
  {
    assert ([user] + labels)[1..] == labels;
  }

  lemma Spelled()
    ensures "john" + [DEFAULT_SEPARATOR] + ("country" + [DEFAULT_SEPARATOR] + "") == "john-country-"
  {
  }

  /** A text that parses to a filter nobody can compose: `john-country-`, a key with an empty value. */
  lemma BlankValueNotComposable(norm: string -> string, text: string, f: ProxyFilter)
    requires norm("") == "" && f == DEFAULT.(country := Some([""]))
    requires text == "john-country-"
    ensures Decode(norm, text, DEFAULT_SEPARATOR) == Parsed("john", Some(f))
    ensures Encode("john", f, DEFAULT_SEPARATOR) == None
  {
    TextNameFree(Country);
    Spelled();
    SplitThree("john", "country", "", DEFAULT_SEPARATOR);
    BlankCountry(norm, f);
    assert ["john"] + ["country", ""] == ["john", "country", ""];
    DecodePieces(norm, text, "john", ["country", ""], f);
    assert "" in TextsOf(f, ListKey(Country));
    EmptyLabel(f);
  }

  /** A separator inside a value is taken for the end of a label. */
  lemma SeparatorBreaks(norm: string -> string, f: ProxyFilter)
    requires (forall s :: norm(s) == s) && f == DEFAULT.(carrier := Some(["at-t"]))
    ensures var text := Encode("john", f, DEFAULT_SEPARATOR);
            text.Some? && Decode(norm, text.value, DEFAULT_SEPARATOR) != Parsed("john", Stored(f))
  {
    DefaultIsPlain();
    EmptyLabel(f);
    OneText(f, Carrier, "at-t");
    assert '-' in "at-t" by { assert "at-t"[2] == '-'; }
    UsernameRoundTrip(norm, "john", f, DEFAULT_SEPARATOR);
  }

  lemma OneText(f: ProxyFilter, k: TextKey, t: string)
    requires t != "" && f == WithText(DEFAULT, k, Some([t]))
    ensures t in TextsOf(f, ListKey(k)) && forall k' :: "" !in TextsOf(f, k')
  {
  }

  lemma NoTexts(f: ProxyFilter)
    requires f == DEFAULT.(country := Some([]))
    ensures (forall k :: TextsOf(f, k) == []) && !NoEmptyList(f)
  {
    assert TextField(f, Country) == Some([]);
  }

  /** An empty list is not written, so it comes back as an absent one. */
  lemma EmptyListDropped(norm: string -> string, f: ProxyFilter)
    requires (forall s :: norm(s) == s) && f == DEFAULT.(country := Some([]))
    ensures var text := Encode("john", f, DEFAULT_SEPARATOR);
            text.Some? && Decode(norm, text.value, DEFAULT_SEPARATOR) != Parsed("john", Stored(f))
  {
    DefaultIsPlain();
    NoTexts(f);
    EmptyLabel(f);
    UsernameRoundTrip(norm, "john", f, DEFAULT_SEPARATOR);
  }
}

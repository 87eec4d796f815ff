/** What the label parser and the label writer promise each other. */
module LabelRoundTrip {
  import opened Text
  import opened Asns
  import opened ProxyFilters
  import opened UsernameParser
  import Decimal

  // ---------- reading what was written ----------

  /** A rendered group sequence reads back as itself, whatever its values spell. */
  lemma {:induction false} ReadRender(groups: seq<Group>)
    ensures ReadGroups(Render(groups)) == Reading(groups, None, true)
  {
    if groups != [] {
      ReadRender(groups[1..]);
      ReadFirstGroup(groups[0], Render(groups[1..]));
      assert Render(groups) == GroupLabels(groups[0]) + Render(groups[1..]);
      assert [groups[0]] + groups[1..] == groups;
    }
  }

  lemma ReadFirstGroup(g: Group, rest: seq<string>)
    ensures var r := ReadGroups(rest);
            ReadGroups(GroupLabels(g) + rest) == r.(groups := [g] + r.groups)
  {
    var labels := GroupLabels(g) + rest;
    assert labels[|GroupLabels(g)|..] == rest;
    match g
    case Assign(k, text) =>
      ReadKeyName(k);
      assert labels[0] == KeyName(k) && labels[1] == text;
    case Toggle(b, v) =>
      ReadFlagName(b);
      assert labels[0] == GroupLabels(g)[0];
  }

  lemma {:induction false} ValuesConcat(a: seq<Group>, b: seq<Group>, k: Key)
    ensures Values(a + b, k) == Values(a, k) + Values(b, k)
  {
    if a == [] {
      assert a + b == b;
    } else {
      ValuesConcat(a[1..], b, k);
      assert (a + b)[1..] == a[1..] + b && (a + b)[0] == a[0];
      if a[0].Assign? && a[0].key == k {
        Associative([a[0].text], Values(a[1..], k), Values(b, k));
      }
    }
  }

  lemma {:induction false} FlagValuesConcat(a: seq<Group>, b: seq<Group>, g: Flag)
    ensures FlagValues(a + b, g) == FlagValues(a, g) + FlagValues(b, g)
  {
    if a == [] {
      assert a + b == b;
    } else {
      FlagValuesConcat(a[1..], b, g);
      assert (a + b)[1..] == a[1..] + b && (a + b)[0] == a[0];
      if a[0].Toggle? && a[0].flag == g {
        Associative([a[0].value], FlagValues(a[1..], g), FlagValues(b, g));
      }
    }
  }

  /** A run of groups under one key. */
  predicate Uniform(groups: seq<Group>, k: Key, texts: seq<string>) {
    |groups| == |texts| && forall i :: 0 <= i < |groups| ==> groups[i] == Assign(k, texts[i])
  }

  lemma {:induction false} UniformValues(groups: seq<Group>, k: Key, texts: seq<string>, k': Key)
    requires Uniform(groups, k, texts)
    ensures Values(groups, k') == if k == k' then texts else []
  {
    if groups != [] {
      UniformValues(groups[1..], k, texts[1..], k');
      assert [texts[0]] + texts[1..] == texts;
    }
  }

  lemma {:induction false} UniformFlags(groups: seq<Group>, k: Key, texts: seq<string>, b: Flag)
    requires Uniform(groups, k, texts)
    ensures FlagValues(groups, b) == []
  {
    if groups != [] {
      UniformFlags(groups[1..], k, texts[1..], b);
    }
  }

  function OrEmpty<T>(list: Option<seq<T>>): seq<T> {
    if list.Some? then list.value else []
  }

  function PrintAll(asns: seq<Asn>): seq<string> {
    seq(|asns|, i requires 0 <= i < |asns| => Decimal.Print(AsU32(asns[i])))
  }

  function FlagTexts(value: Option<bool>): seq<bool> {
    if value.Some? then [value.value] else []
  }

  /** The texts a filter writes under key `k`. */
  function TextsOf(f: ProxyFilter, k: Key): seq<string> {
    match k
    case IdKey => if f.id.Some? then [f.id.value] else []
    case ListKey(t) => OrEmpty(TextField(f, t))
    case AsnKey => PrintAll(OrEmpty(f.asn))
  }

  lemma SectionValues(f: ProxyFilter, k: Key, k': Key)
    ensures Values(Section(f, k), k') == if k == k' then TextsOf(f, k) else []
  {
    UniformValues(Section(f, k), k, TextsOf(f, k), k');
  }

  lemma SectionFlags(f: ProxyFilter, k: Key, b: Flag)
    ensures FlagValues(Section(f, k), b) == []
  {
    UniformFlags(Section(f, k), k, TextsOf(f, k), b);
  }

  lemma FlagSection(f: ProxyFilter, g: Flag, k: Key, b: Flag)
    ensures Values(FlagGroups(g, FlagField(f, g)), k) == []
    ensures FlagValues(FlagGroups(g, FlagField(f, g)), b)
         == if g == b && FlagField(f, g).Some? then [FlagField(f, g).value] else []
  {
  }

  lemma ConcatFive(s0: seq<Group>, s1: seq<Group>, s2: seq<Group>, s3: seq<Group>, s4: seq<Group>, k: Key, b: Flag)
    ensures Values(s0 + s1 + s2 + s3 + s4, k)
         == Values(s0, k) + Values(s1, k) + Values(s2, k) + Values(s3, k) + Values(s4, k)
    ensures FlagValues(s0 + s1 + s2 + s3 + s4, b)
         == FlagValues(s0, b) + FlagValues(s1, b) + FlagValues(s2, b) + FlagValues(s3, b) + FlagValues(s4, b)
  {
    ValuesConcat(s0 + s1 + s2 + s3, s4, k); FlagValuesConcat(s0 + s1 + s2 + s3, s4, b);
    ValuesConcat(s0 + s1 + s2, s3, k);      FlagValuesConcat(s0 + s1 + s2, s3, b);
    ValuesConcat(s0 + s1, s2, k);           FlagValuesConcat(s0 + s1, s2, b);
    ValuesConcat(s0, s1, k);                FlagValuesConcat(s0, s1, b);
  }

  lemma PlacesValues(f: ProxyFilter, k: Key, b: Flag)
    ensures Values(Places(f), k)
         == if k.ListKey? && !k.list.Carrier? then TextsOf(f, k) else []
    ensures FlagValues(Places(f), b) == []
  {
    ConcatFive(Section(f, ListKey(Pool)), Section(f, ListKey(Continent)), Section(f, ListKey(Country)),
               Section(f, ListKey(State)), Section(f, ListKey(City)), k, b);
    PlaceSection(f, Pool, k, b);
    PlaceSection(f, Continent, k, b);
    PlaceSection(f, Country, k, b);
    PlaceSection(f, State, k, b);
    PlaceSection(f, City, k, b);
  }

  lemma PlaceSection(f: ProxyFilter, t: TextKey, k: Key, b: Flag)
    ensures Values(Section(f, ListKey(t)), k) == if k == ListKey(t) then TextsOf(f, k) else []
    ensures FlagValues(Section(f, ListKey(t)), b) == []
  {
    SectionValues(f, ListKey(t), k);
    SectionFlags(f, ListKey(t), b);
  }

  lemma FlagsValues(f: ProxyFilter, k: Key, b: Flag)
    ensures Values(Flags(f), k) == []
    ensures FlagValues(Flags(f), b) == FlagTexts(FlagField(f, b))
  {
    var s1, s2 := FlagGroups(Datacenter, f.datacenter), FlagGroups(Residential, f.residential);
    var s3 := FlagGroups(Mobile, f.mobile);
    ValuesConcat(s1 + s2, s3, k); FlagValuesConcat(s1 + s2, s3, b);
    ValuesConcat(s1, s2, k);      FlagValuesConcat(s1, s2, b);
    FlagSection(f, Datacenter, k, b);
    FlagSection(f, Residential, k, b);
    FlagSection(f, Mobile, k, b);
  }

  /** Of five sections exactly one holds the values of `k`, and only the middle one holds flags. */
  lemma OneOfFive(s0: seq<Group>, s1: seq<Group>, s2: seq<Group>, s3: seq<Group>, s4: seq<Group>,
                  k: Key, b: Flag, texts: seq<string>, flags: seq<bool>)
    requires Values(s0, k) == if k.IdKey? then texts else []
    requires Values(s1, k) == if k.ListKey? && !k.list.Carrier? then texts else []
    requires Values(s2, k) == []
    requires Values(s3, k) == if k == ListKey(Carrier) then texts else []
    requires Values(s4, k) == if k.AsnKey? then texts else []
    requires FlagValues(s0, b) == FlagValues(s1, b) == FlagValues(s3, b) == FlagValues(s4, b) == []
    requires FlagValues(s2, b) == flags
    ensures Values(s0 + s1 + s2 + s3 + s4, k) == texts
    ensures FlagValues(s0 + s1 + s2 + s3 + s4, b) == flags
  {
    ConcatFive(s0, s1, s2, s3, s4, k, b);
  }

  lemma GroupsValues(f: ProxyFilter, k: Key, b: Flag)
    ensures Values(Groups(f), k) == TextsOf(f, k)
    ensures FlagValues(Groups(f), b) == FlagTexts(FlagField(f, b))
  {
    SectionValues(f, IdKey, k);             SectionFlags(f, IdKey, b);
    PlacesValues(f, k, b);
    FlagsValues(f, k, b);
    SectionValues(f, ListKey(Carrier), k);  SectionFlags(f, ListKey(Carrier), b);
    SectionValues(f, AsnKey, k);            SectionFlags(f, AsnKey, b);
    OneOfFive(Section(f, IdKey), Places(f), Flags(f), Section(f, ListKey(Carrier)), Section(f, AsnKey),
              k, b, TextsOf(f, k), FlagTexts(FlagField(f, b)));
  }

  // ---------- main results ----------

  lemma DescribesUnique(norm: string -> string, f0: ProxyFilter, a: seq<Group>, b: seq<Group>,
                        f: ProxyFilter, g: ProxyFilter)
    requires Describes(norm, f0, a, f) && Describes(norm, f0, b, g)
    requires SameProjections(a, b)
    ensures f == g
  {
    Extensional(f, g);
  }

  /** Two group sequences that no single field can tell apart. */
  ghost predicate SameProjections(a: seq<Group>, b: seq<Group>) {
    && (forall k :: Values(a, k) == Values(b, k))
    && (forall g :: FlagValues(a, g) == FlagValues(b, g))
  }

  lemma {:induction false} MapCanonical(norm: string -> string, xs: seq<string>)
    requires forall x :: x in xs ==> norm(x) == x
    ensures Map(norm, xs) == xs
  {
    if xs != [] {
      MapCanonical(norm, xs[1..]);
      assert [xs[0]] + xs[1..] == xs;
    }
  }

  lemma {:induction false} NumbersOf(xs: seq<string>, asns: seq<Asn>)
    requires |xs| == |asns| && forall i :: 0 <= i < |xs| ==> AsnFromStr(xs[i]) == Some(asns[i])
    ensures Numbers(xs) == asns
  {
    if xs != [] {
      NumbersOf(xs[1..], asns[1..]);
      assert [asns[0]] + asns[1..] == asns;
    }
  }

  lemma NumbersPrinted(asns: seq<Asn>)
    requires forall a :: a in asns ==> ValidAsn(a)
    ensures Numbers(PrintAll(asns)) == asns
    ensures forall t :: t in PrintAll(asns) ==> AsnFromStr(t).Some?
  {
    forall i | 0 <= i < |asns| ensures AsnFromStr(PrintAll(asns)[i]) == Some(asns[i]) {
      AsnRoundTrip("", asns[i]);
    }
    NumbersOf(PrintAll(asns), asns);
  }

  /** The groups hold, for each field of `f`, exactly that field's values. */
  ghost predicate Writes(f: ProxyFilter, groups: seq<Group>) {
    && (forall k :: Values(groups, k) == TextsOf(f, k))
    && (forall b :: FlagValues(groups, b) == FlagTexts(FlagField(f, b)))
  }

  lemma GroupsWrite(f: ProxyFilter)
    ensures Writes(f, Groups(f))
  {
    forall k ensures Values(Groups(f), k) == TextsOf(f, k) {
      GroupsValues(f, k, Mobile);
    }
    forall b ensures FlagValues(Groups(f), b) == FlagTexts(FlagField(f, b)) {
      GroupsValues(f, IdKey, b);
    }
  }

  lemma WritesAccepted(f: ProxyFilter, groups: seq<Group>)
    requires Writes(f, groups)
    requires f.id != Some("") && forall a :: a in OrEmpty(f.asn) ==> ValidAsn(a)
    ensures Accepts(groups)
    ensures f.id == LastOr(None, Values(groups, IdKey))
    ensures PruneList(f.asn) == PushAll(None, Numbers(Values(groups, AsnKey)))
  {
    NumbersPrinted(OrEmpty(f.asn));
    assert Values(groups, IdKey) == TextsOf(f, IdKey);
    assert Values(groups, AsnKey) == PrintAll(OrEmpty(f.asn));
  }

  lemma WritesText(norm: string -> string, f: ProxyFilter, groups: seq<Group>, k: TextKey)
    requires Writes(f, groups)
    requires forall v :: v in OrEmpty(TextField(f, k)) ==> norm(v) == v
    ensures PruneList(TextField(f, k)) == PushAll(None, Map(norm, Values(groups, ListKey(k))))
  {
    assert Values(groups, ListKey(k)) == TextsOf(f, ListKey(k));
    MapCanonical(norm, OrEmpty(TextField(f, k)));
  }

  lemma WritesTexts(norm: string -> string, f: ProxyFilter, groups: seq<Group>)
    requires Valid(norm, f) && Writes(f, groups)
    ensures forall k :: TextField(Prune(f), k) == PushAll(None, Map(norm, Values(groups, ListKey(k))))
  {
    forall k ensures TextField(Prune(f), k) == PushAll(None, Map(norm, Values(groups, ListKey(k)))) {
      WritesText(norm, f, groups, k);
      assert TextField(Prune(f), k) == PruneList(TextField(f, k));
    }
  }

  lemma WritesFlags(f: ProxyFilter, groups: seq<Group>)
    requires Writes(f, groups)
    ensures forall b :: FlagField(Prune(f), b) == LastOr(None, FlagValues(groups, b))
  {
  }

  lemma WritesDescribe(norm: string -> string, f: ProxyFilter, groups: seq<Group>)
    requires Valid(norm, f) && Writes(f, groups)
    ensures Accepts(groups) && Describes(norm, DEFAULT, groups, Prune(f))
  {
    WritesAccepted(f, groups);
    WritesTexts(norm, f, groups);
    WritesFlags(f, groups);
  }

  /**
   On label sequences: parsing the labels of a filter uses every label, leaves no key pending and gives
   back the filter without its empty lists; that is the same filter exactly when it has none.
   */
  lemma LabelsRoundTrip(norm: string -> string, f: ProxyFilter)
    requires Valid(norm, f)
    ensures var t := Run(norm, START, Labels(f));
            && Abort !in t.answers && Ignored !in t.answers
            && t.final == Parser(None, Prune(f))
            && (t.final.filter == f <==> NoEmptyList(f))
  {
    var t := Run(norm, START, Labels(f));
    GroupsWrite(f);
    WritesDescribe(norm, f, Groups(f));
    ReadRender(Groups(f));
    RunRefinesFields(norm, DEFAULT, Labels(f));
    DescribesUnique(norm, DEFAULT, Groups(f), Groups(f), t.final.filter, Prune(f));
  }

  lemma {:induction false} MapNormalises(norm: string -> string, xs: seq<string>)
    requires Idempotent(norm)
    ensures |Map(norm, xs)| == |xs|
    ensures forall x :: x in Map(norm, xs) ==> norm(x) == x
  {
    if xs != [] {
      MapNormalises(norm, xs[1..]);
    }
  }

  lemma {:induction false} NumbersValid(xs: seq<string>)
    ensures forall a :: a in Numbers(xs) ==> ValidAsn(a)
  {
    if xs != [] {
      NumbersValid(xs[1..]);
      AsnRoundTrip(xs[0], Unspecified);
    }
  }

  lemma DescribedValid(norm: string -> string, groups: seq<Group>, f: ProxyFilter)
    requires Idempotent(norm)
    requires Accepts(groups) && Describes(norm, DEFAULT, groups, f)
    ensures Valid(norm, f) && NoEmptyList(f)
  {
    forall k ensures TextField(f, k) != Some([])
             ensures forall v :: v in OrEmpty(TextField(f, k)) ==> norm(v) == v {
      MapNormalises(norm, Values(groups, ListKey(k)));
    }
    NumbersValid(Values(groups, AsnKey));
  }

  /** Every filter the parser can reach meets the type invariants and has no empty list. */
  lemma ReachableValid(norm: string -> string, labels: seq<string>)
    requires Idempotent(norm)
    requires Abort !in Run(norm, START, labels).answers
    ensures var f := Run(norm, START, labels).final.filter;
            Valid(norm, f) && NoEmptyList(f)
  {
    RunRefinesFields(norm, DEFAULT, labels);
    DescribedValid(norm, ReadGroups(labels).groups, Run(norm, START, labels).final.filter);
  }

  /** On label sequences, canonicalisation is stable: parsing the labels of any parsed filter changes nothing. */
  lemma Canonical(norm: string -> string, labels: seq<string>)
    requires Idempotent(norm)
    requires Abort !in Run(norm, START, labels).answers
    ensures var f := Run(norm, START, labels).final.filter;
            var again := Run(norm, START, Labels(f));
            again.final == Parser(None, f) && Abort !in again.answers && Ignored !in again.answers
  {
    ReachableValid(norm, labels);
    LabelsRoundTrip(norm, Run(norm, START, labels).final.filter);
  }

  /** Only the per-field value lists matter: how groups of different fields interleave does not. */
  lemma FieldsDetermineResult(norm: string -> string, f: ProxyFilter, a: seq<string>, b: seq<string>)
    requires ReadGroups(a).pending == ReadGroups(b).pending
    requires SameProjections(ReadGroups(a).groups, ReadGroups(b).groups)
    ensures var s, t := Run(norm, Parser(None, f), a), Run(norm, Parser(None, f), b);
            && (Abort in s.answers <==> Abort in t.answers)
            && (Abort !in s.answers ==> s.final == t.final)
  {
    var s, t := Run(norm, Parser(None, f), a), Run(norm, Parser(None, f), b);
    RunRefinesFields(norm, f, a);
    RunRefinesFields(norm, f, b);
    if Abort !in s.answers {
      DescribesUnique(norm, f, ReadGroups(a).groups, ReadGroups(b).groups, s.final.filter, t.final.filter);
    }
  }

  predicate DifferentFields(g: Group, h: Group) {
    match (g, h)
    case (Assign(k, _), Assign(k', _)) => k != k'
    case (Toggle(b, _), Toggle(b', _)) => b != b'
    case _ => true
  }

  /** Neighbouring groups of different fields commute. */
  lemma GroupsCommute(norm: string -> string, f: ProxyFilter, a: seq<Group>, g: Group, h: Group, b: seq<Group>)
    requires DifferentFields(g, h)
    ensures var s := Run(norm, Parser(None, f), Render(a + [g, h] + b));
            var t := Run(norm, Parser(None, f), Render(a + [h, g] + b));
            && (Abort in s.answers <==> Abort in t.answers)
            && (Abort !in s.answers ==> s.final == t.final)
  {
    var x, y := a + [g, h] + b, a + [h, g] + b;
    assert [g, h][1..] == [h] && [h, g][1..] == [g];
    forall k ensures Values(x, k) == Values(y, k) {
      ValuesConcat(a + [g, h], b, k); ValuesConcat(a, [g, h], k);
      ValuesConcat(a + [h, g], b, k); ValuesConcat(a, [h, g], k);
    }
    forall c ensures FlagValues(x, c) == FlagValues(y, c) {
      FlagValuesConcat(a + [g, h], b, c); FlagValuesConcat(a, [g, h], c);
      FlagValuesConcat(a + [h, g], b, c); FlagValuesConcat(a, [h, g], c);
    }
    ReadRender(x);
    ReadRender(y);
    FieldsDetermineResult(norm, f, Render(x), Render(y));
  }

  /** The labels that were not answered `Ignored`, and the answers other than `Ignored`. */
  function DropIgnored(norm: string -> string, p: Parser, labels: seq<string>): seq<string>
    decreases |labels|
  {
    if labels == [] then []
    else
      var (q, a) := ParseLabel(norm, p, labels[0]);
      (if a == Ignored then [] else [labels[0]]) + DropIgnored(norm, q, labels[1..])
  }

  function Recognised(answers: seq<LabelState>): seq<LabelState> {
    if answers == [] then []
    else (if answers[0] == Ignored then [] else [answers[0]]) + Recognised(answers[1..])
  }

  /** An ignored label leaves the parser as it was, so deleting all of them changes nothing else. */
  lemma {:induction false} IgnoredInert(norm: string -> string, p: Parser, labels: seq<string>)
    ensures var t := Run(norm, p, labels);
            Run(norm, p, DropIgnored(norm, p, labels)) == Trace(t.final, Recognised(t.answers))
    decreases |labels|
  {
    if labels != [] {
      var (q, a) := ParseLabel(norm, p, labels[0]);
      var kept := DropIgnored(norm, q, labels[1..]);
      IgnoredInert(norm, q, labels[1..]);
      assert Run(norm, p, labels).answers[1..] == Run(norm, q, labels[1..]).answers;
      if a == Ignored {
        assert q == p && [] + kept == kept;
      } else {
        assert ([labels[0]] + kept)[1..] == kept;
      }
    }
  }
}

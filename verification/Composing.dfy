/** Composing a username with labels: the composer object and the writer of a proxy filter. */
module Composing {
  import opened Text
  import opened ProxyFilters
  import opened UsernameParser
  import opened LabelRoundTrip

  /** Each label behind a separator. */
  function Suffix(labels: seq<string>, separator: char): string {
    if labels == [] then "" else [separator] + labels[0] + Suffix(labels[1..], separator)
  }

  lemma {:induction false} SuffixConcat(a: seq<string>, b: seq<string>, separator: char)
    ensures Suffix(a + b, separator) == Suffix(a, separator) + Suffix(b, separator)
  {
    if a == [] {
      assert a + b == b;
    } else {
      SuffixConcat(a[1..], b, separator);
      assert (a + b)[1..] == a[1..] + b && (a + b)[0] == a[0];
      Associative([separator] + a[0], Suffix(a[1..], separator), Suffix(b, separator));
    }
  }

  lemma {:induction false} SuffixJoin(user: string, labels: seq<string>, separator: char)
    ensures user + Suffix(labels, separator) == Join([user] + labels, separator)
    decreases |labels|
  {
    assert ([user] + labels)[1..] == labels;
    if labels != [] {
      var first, rest := labels[0], Suffix(labels[1..], separator);
      SuffixJoin(first, labels[1..], separator);
      assert [first] + labels[1..] == labels;
      assert Join([user] + labels, separator) == user + [separator] + (first + rest);
      assert user + ([separator] + first + rest) == user + [separator] + (first + rest);
    }
  }

  /** `name` before each of the texts. */
  function Pairs(name: string, texts: seq<string>): seq<string> {
    if texts == [] then [] else Pairs(name, texts[..|texts| - 1]) + [name, texts[|texts| - 1]]
  }

  /** What is written of `labels`: all of them, or those up to and including the first empty one. */
  function UpToEmpty(labels: seq<string>): seq<string> {
    if labels == [] then []
    else if labels[0] == "" then [""]
    else [labels[0]] + UpToEmpty(labels[1..])
  }

  lemma {:induction false} UpToEmptyConcat(a: seq<string>, b: seq<string>)
    ensures UpToEmpty(a + b) == if "" in a then UpToEmpty(a) else a + UpToEmpty(b)
  {
    if a == [] {
      assert a + b == b;
    } else {
      UpToEmptyConcat(a[1..], b);
      assert (a + b)[1..] == a[1..] + b && (a + b)[0] == a[0];
      assert a == [a[0]] + a[1..];
    }
  }

  /** Writing `labels` takes the buffer from `before` to `after`, and succeeds when none of them is empty. */
  predicate Wrote(before: string, after: string, labels: seq<string>, ok: bool, separator: char) {
    (ok <==> "" !in labels) && after == before + Suffix(UpToEmpty(labels), separator)
  }

  lemma WroteThen(b0: string, b1: string, b2: string, x: seq<string>, y: seq<string>, ok: bool, separator: char)
    requires Wrote(b0, b1, x, true, separator) && Wrote(b1, b2, y, ok, separator)
    ensures Wrote(b0, b2, x + y, ok, separator)
  {
    UpToEmptyConcat(x, y);
    UpToEmptyConcat(x, []);
    assert x + [] == x;
    SuffixConcat(x, UpToEmpty(y), separator);
    Associative(b0, Suffix(x, separator), Suffix(UpToEmpty(y), separator));
  }

  /** After a refusal nothing more is written. */
  lemma WroteStop(b0: string, b1: string, x: seq<string>, all: seq<string>, separator: char)
    requires Wrote(b0, b1, x, false, separator) && x <= all
    ensures Wrote(b0, b1, all, false, separator)
  {
    assert all == x + all[|x|..];
    UpToEmptyConcat(x, all[|x|..]);
  }

  lemma WroteOne(before: string, text: string, separator: char)
    ensures Wrote(before, before + [separator] + text, [text], text != "", separator)
  {
    assert UpToEmpty([text]) == [text];
    assert Suffix([text], separator) == [separator] + text;
  }

  class Composer {
    const separator: char
    var buffer: string

    constructor (username: string, separator: char)
      ensures buffer == username && this.separator == separator
    {
      buffer, this.separator := username, separator;
    }

    /** The separator is written even when the label is then refused. */
    method WriteLabel(text: string) returns (ok: bool)
      modifies this
      ensures buffer == old(buffer) + [separator] + text
      ensures ok <==> text != ""
    {
      buffer := buffer + [separator];
      if text == "" {
        return false;
      }
      buffer := buffer + text;
      return true;
    }

    /** One field of the filter: its key before each of its values, up to the first empty value. */
    method WriteTexts(name: string, texts: seq<string>) returns (ok: bool)
      requires name != ""
      modifies this
      ensures Wrote(old(buffer), buffer, Pairs(name, texts), ok, separator)
    {
      for i := 0 to |texts|
        invariant Wrote(old(buffer), buffer, Pairs(name, texts[..i]), true, separator)
      {
        ok := WritePair(old(buffer), Pairs(name, texts[..i]), name, texts[i]);
        assert texts[..i + 1][..i] == texts[..i];
        if !ok {
          PairsPrefix(name, texts, i + 1);
          WroteStop(old(buffer), buffer, Pairs(name, texts[..i + 1]), Pairs(name, texts), separator);
          return;
        }
      }
      assert texts[..|texts|] == texts;
      ok := true;
    }

    method WritePair(ghost start: string, ghost done: seq<string>, name: string, text: string) returns (ok: bool)
      requires Wrote(start, buffer, done, true, separator) && name != ""
      modifies this
      ensures Wrote(start, buffer, done + [name, text], ok, separator)
    {
      WroteOne(buffer, name, separator);
      ghost var before := buffer;
      ok := WriteLabel(name);
      WroteThen(start, before, buffer, done, [name], true, separator);
      WroteOne(buffer, text, separator);
      before := buffer;
      ok := WriteLabel(text);
      WroteThen(start, before, buffer, done + [name], [text], ok, separator);
      assert done + [name] + [text] == done + [name, text];
    }

    method WriteFlag(name: string, value: Option<bool>)
      requires name != ""
      modifies this
      ensures Wrote(old(buffer), buffer, FlagLabels(name, value), true, separator)
    {
      if value.Some? {
        var text := if value.value then name else "!" + name;
        WroteOne(buffer, text, separator);
        var ok := WriteLabel(text);
      }
    }
  }

  lemma {:induction false} PairsPrefix(name: string, texts: seq<string>, i: nat)
    requires i <= |texts|
    ensures Pairs(name, texts[..i]) <= Pairs(name, texts)
  {
    if i == |texts| {
      assert texts[..i] == texts;
    } else {
      PairsPrefix(name, texts[..|texts| - 1], i);
      assert texts[..|texts| - 1][..i] == texts[..i];
    }
  }

  function FlagLabels(name: string, value: Option<bool>): seq<string> {
    if value.None? then [] else [if value.value then name else "!" + name]
  }

  /** The labels of one field. */
  function KeyLabels(f: ProxyFilter, k: Key): seq<string> {
    Pairs(KeyName(k), TextsOf(f, k))
  }

  function ToggleLabels(f: ProxyFilter, b: Flag): seq<string> {
    FlagLabels(FlagName(b), FlagField(f, b))
  }

  lemma {:induction false} RenderUniform(groups: seq<Group>, k: Key, texts: seq<string>)
    requires Uniform(groups, k, texts)
    ensures Render(groups) == Pairs(KeyName(k), texts)
  {
    if groups != [] {
      var n := |groups| - 1;
      RenderUniform(groups[..n], k, texts[..n]);
      FlatMapConcat(GroupLabels, groups[..n], [groups[n]]);
      assert groups == groups[..n] + [groups[n]];
      FlatMapOne(GroupLabels, groups[n]);
    }
  }

  lemma RenderSection(f: ProxyFilter, k: Key)
    ensures Render(Section(f, k)) == KeyLabels(f, k)
  {
    RenderUniform(Section(f, k), k, TextsOf(f, k));
  }

  lemma RenderFive(a: seq<Group>, b: seq<Group>, c: seq<Group>, d: seq<Group>, e: seq<Group>)
    ensures Render(a + b + c + d + e) == Render(a) + Render(b) + Render(c) + Render(d) + Render(e)
  {
    FlatMapConcat(GroupLabels, a + b + c + d, e);
    FlatMapConcat(GroupLabels, a + b + c, d);
    FlatMapConcat(GroupLabels, a + b, c);
    FlatMapConcat(GroupLabels, a, b);
  }

  function PlaceLabels(f: ProxyFilter): seq<string> {
    KeyLabels(f, ListKey(Pool)) + KeyLabels(f, ListKey(Continent)) + KeyLabels(f, ListKey(Country))
    + KeyLabels(f, ListKey(State)) + KeyLabels(f, ListKey(City))
  }

  lemma RenderPlaces(f: ProxyFilter)
    ensures Render(Places(f)) == PlaceLabels(f)
  {
    RenderFive(Section(f, ListKey(Pool)), Section(f, ListKey(Continent)), Section(f, ListKey(Country)),
               Section(f, ListKey(State)), Section(f, ListKey(City)));
    RenderSection(f, ListKey(Pool));
    RenderSection(f, ListKey(Continent));
    RenderSection(f, ListKey(Country));
    RenderSection(f, ListKey(State));
    RenderSection(f, ListKey(City));
  }

  function AllToggles(f: ProxyFilter): seq<string> {
    ToggleLabels(f, Datacenter) + ToggleLabels(f, Residential) + ToggleLabels(f, Mobile)
  }

  lemma RenderToggle(f: ProxyFilter, b: Flag)
    ensures Render(FlagGroups(b, FlagField(f, b))) == ToggleLabels(f, b)
  {
    if FlagField(f, b).Some? {
      FlatMapOne(GroupLabels, Toggle(b, FlagField(f, b).value));
    }
  }

  lemma RenderFlags(f: ProxyFilter)
    ensures Render(Flags(f)) == AllToggles(f)
  {
    var d, r := FlagGroups(Datacenter, f.datacenter), FlagGroups(Residential, f.residential);
    var m := FlagGroups(Mobile, f.mobile);
    FlatMapConcat(GroupLabels, d + r, m);
    FlatMapConcat(GroupLabels, d, r);
    RenderToggle(f, Datacenter);
    RenderToggle(f, Residential);
    RenderToggle(f, Mobile);
  }

  lemma LabelsInOrder(f: ProxyFilter)
    ensures Labels(f) == KeyLabels(f, IdKey) + PlaceLabels(f) + AllToggles(f)
                         + KeyLabels(f, ListKey(Carrier)) + KeyLabels(f, AsnKey)
  {
    RenderFive(Section(f, IdKey), Places(f), Flags(f), Section(f, ListKey(Carrier)), Section(f, AsnKey));
    RenderSection(f, IdKey);
    RenderPlaces(f);
    RenderFlags(f);
    RenderSection(f, ListKey(Carrier));
    RenderSection(f, AsnKey);
  }

  ghost predicate NamesSatisfy(p: string -> bool) {
    (forall k :: p(KeyName(k))) && (forall b :: p(FlagName(b)) && p("!" + FlagName(b)))
  }

  ghost predicate ValuesSatisfy(groups: seq<Group>, p: string -> bool) {
    forall k, t :: t in Values(groups, k) ==> p(t)
  }

  lemma SatisfyCons(g: Group, rest: seq<Group>, p: string -> bool)
    ensures ValuesSatisfy([g] + rest, p) <==> (g.Assign? ==> p(g.text)) && ValuesSatisfy(rest, p)
  {
    var all := [g] + rest;
    assert all[0] == g && all[1..] == rest;
    forall k ensures Values(all, k) == (if g.Assign? && g.key == k then [g.text] else []) + Values(rest, k) {
    }
    if g.Assign? {
      assert g.text in Values(all, g.key);
    }
    forall k, t | t in Values(rest, k) ensures t in Values(all, k) {
    }
  }

  /** Names aside, the labels have a property exactly when the values have it. */
  lemma {:induction false} RenderSatisfies(groups: seq<Group>, p: string -> bool)
    requires NamesSatisfy(p)
    ensures (forall l :: l in Render(groups) ==> p(l)) <==> ValuesSatisfy(groups, p)
  {
    if groups != [] {
      var g, rest := groups[0], groups[1..];
      RenderSatisfies(rest, p);
      SatisfyCons(g, rest, p);
      assert groups == [g] + rest;
      FirstLabels(g, Render(rest), p);
    }
  }

  lemma FirstLabels(g: Group, rest: seq<string>, p: string -> bool)
    requires NamesSatisfy(p)
    ensures (forall l :: l in GroupLabels(g) + rest ==> p(l))
       <==> (g.Assign? ==> p(g.text)) && (forall l :: l in rest ==> p(l))
  {
  }

  lemma LabelsSatisfy(f: ProxyFilter, p: string -> bool)
    requires NamesSatisfy(p)
    ensures (forall l :: l in Labels(f) ==> p(l)) <==> (forall k, t :: t in TextsOf(f, k) ==> p(t))
  {
    RenderSatisfies(Groups(f), p);
    GroupsWrite(f);
  }

  /** Composing fails exactly when some value of some field is empty. */
  lemma EmptyLabel(f: ProxyFilter)
    ensures "" in Labels(f) <==> exists k :: "" in TextsOf(f, k)
  {
    var p := NonEmptyNames();
    LabelsSatisfy(f, p);
    if k :| "" in TextsOf(f, k) {
      assert !p("");
    }
  }

  lemma NonEmptyNames() returns (p: string -> bool)
    ensures NamesSatisfy(p) && forall s :: p(s) <==> s != ""
  {
    p := s => s != "";
  }

  /** One field of the filter, after the labels `done`. */
  method WriteField(c: Composer, f: ProxyFilter, k: Key, ghost start: string, ghost done: seq<string>)
    returns (ok: bool, ghost now: seq<string>)
    requires Wrote(start, c.buffer, done, true, c.separator)
    modifies c
    ensures now == done + KeyLabels(f, k) && Wrote(start, c.buffer, now, ok, c.separator)
  {
    ghost var before := c.buffer;
    ok := c.WriteTexts(KeyName(k), TextsOf(f, k));
    now := done + KeyLabels(f, k);
    WroteThen(start, before, c.buffer, done, KeyLabels(f, k), ok, c.separator);
  }

  method WriteToggle(c: Composer, f: ProxyFilter, b: Flag, ghost start: string, ghost done: seq<string>)
    returns (ghost now: seq<string>)
    requires Wrote(start, c.buffer, done, true, c.separator)
    modifies c
    ensures now == done + ToggleLabels(f, b) && Wrote(start, c.buffer, now, true, c.separator)
  {
    ghost var before := c.buffer;
    c.WriteFlag(FlagName(b), FlagField(f, b));
    now := done + ToggleLabels(f, b);
    WroteThen(start, before, c.buffer, done, ToggleLabels(f, b), true, c.separator);
  }

  /** The beginnings of five sequences put together. */
  lemma Beginnings<T>(a: seq<T>, b: seq<T>, c: seq<T>, d: seq<T>, e: seq<T>)
    ensures var all := a + b + c + d + e;
            a <= all && a + b <= all && a + b + c <= all && a + b + c + d <= all
  {
  }

  method WritePlaces(c: Composer, f: ProxyFilter) returns (ok: bool)
    modifies c
    ensures Wrote(old(c.buffer), c.buffer, PlaceLabels(f), ok, c.separator)
  {
    ghost var start, all, now := c.buffer, PlaceLabels(f), [];
    Beginnings(KeyLabels(f, ListKey(Pool)), KeyLabels(f, ListKey(Continent)), KeyLabels(f, ListKey(Country)),
               KeyLabels(f, ListKey(State)), KeyLabels(f, ListKey(City)));
    ok, now := WriteField(c, f, ListKey(Pool), start, now);
    assert now == KeyLabels(f, ListKey(Pool));
    if !ok {
      WroteStop(start, c.buffer, now, all, c.separator);
      return;
    }
    ok, now := WriteField(c, f, ListKey(Continent), start, now);
    if !ok {
      WroteStop(start, c.buffer, now, all, c.separator);
      return;
    }
    ok, now := WriteField(c, f, ListKey(Country), start, now);
    if !ok {
      WroteStop(start, c.buffer, now, all, c.separator);
      return;
    }
    ok, now := WriteField(c, f, ListKey(State), start, now);
    if !ok {
      WroteStop(start, c.buffer, now, all, c.separator);
      return;
    }
    ok, now := WriteField(c, f, ListKey(City), start, now);
  }

  method WriteToggles(c: Composer, f: ProxyFilter)
    modifies c
    ensures Wrote(old(c.buffer), c.buffer, AllToggles(f), true, c.separator)
  {
    ghost var start, now := c.buffer, [];
    now := WriteToggle(c, f, Datacenter, start, now);
    now := WriteToggle(c, f, Residential, start, now);
    now := WriteToggle(c, f, Mobile, start, now);
    assert now == AllToggles(f);
  }

  /** `write_labels`: the fields in the writer's order, stopping at the first empty label. */
  method WriteLabels(c: Composer, f: ProxyFilter) returns (ok: bool)
    modifies c
    ensures Wrote(old(c.buffer), c.buffer, Labels(f), ok, c.separator)
  {
    ghost var start, all, now := c.buffer, Labels(f), [];
    LabelsInOrder(f);
    Beginnings(KeyLabels(f, IdKey), PlaceLabels(f), AllToggles(f),
               KeyLabels(f, ListKey(Carrier)), KeyLabels(f, AsnKey));
    ok, now := WriteField(c, f, IdKey, start, now);
    assert now == KeyLabels(f, IdKey);
    if !ok {
      WroteStop(start, c.buffer, now, all, c.separator);
      return;
    }
    ok, now := WriteMiddle(c, f, start, now);
    if !ok {
      WroteStop(start, c.buffer, now, all, c.separator);
      return;
    }
    ok, now := WriteField(c, f, ListKey(Carrier), start, now);
    if !ok {
      WroteStop(start, c.buffer, now, all, c.separator);
      return;
    }
    ok, now := WriteField(c, f, AsnKey, start, now);
  }

  /** The places and, unless one of them is refused, the flags. */
  method WriteMiddle(c: Composer, f: ProxyFilter, ghost start: string, ghost done: seq<string>)
    returns (ok: bool, ghost now: seq<string>)
    requires Wrote(start, c.buffer, done, true, c.separator)
    modifies c
    ensures Wrote(start, c.buffer, now, ok, c.separator)
    ensures now == if ok then done + PlaceLabels(f) + AllToggles(f) else done + PlaceLabels(f)
  {
    ghost var before := c.buffer;
    ok := WritePlaces(c, f);
    now := done + PlaceLabels(f);
    WroteThen(start, before, c.buffer, done, PlaceLabels(f), ok, c.separator);
    if ok {
      before := c.buffer;
      WriteToggles(c, f);
      WroteThen(start, before, c.buffer, now, AllToggles(f), true, c.separator);
      now := now + AllToggles(f);
    }
  }

  /** The composed text, or None when a label would be empty. */
  function Encode(user: string, f: ProxyFilter, separator: char): Option<string> {
    if "" in Labels(f) then None else Some(Join([user] + Labels(f), separator))
  }

  method ComposeUsername(user: string, f: ProxyFilter, separator: char) returns (r: Option<string>)
    ensures r == Encode(user, f, separator)
  {
    var c := new Composer(user, separator);
    var ok := WriteLabels(c, f);
    if !ok {
      return None;
    }
    UpToEmptyConcat(Labels(f), []);
    assert Labels(f) + [] == Labels(f);
    SuffixJoin(user, Labels(f), separator);
    return Some(c.buffer);
  }
}

/**
 The label parser as a two-mode state machine, and an independent reading of a label
 sequence: group the labels first, then look at each field on its own.
 */
module UsernameParser {
  import opened Text
  import opened Asns
  import opened ProxyFilters

  datatype LabelState = Used | Ignored | Abort

  /** Expecting a key (`key.None?`) or holding a pending one. */
  datatype Parser = Parser(key: Option<Key>, filter: ProxyFilter)

  const START := Parser(None, DEFAULT)

  /** Stores a value label under its key; None when the label is not a value of that field. */
  function Store(norm: string -> string, f: ProxyFilter, k: Key, text: string): Option<ProxyFilter> {
    match k
    case IdKey => if text == "" then None else Some(f.(id := Some(text)))
    case ListKey(t) => Some(WithText(f, t, Push(TextField(f, t), norm(text))))
    case AsnKey =>
      match AsnFromStr(text)
      case None => None
      case Some(a) => Some(f.(asn := Push(f.asn, a)))
  }

  function ParseLabel(norm: string -> string, p: Parser, text: string): (Parser, LabelState) {
    match p.key
    case Some(k) => (
      match Store(norm, p.filter, k, text)
      case None => (Parser(None, p.filter), Abort)
      case Some(f) => (Parser(None, f), Used))
    case None =>
      match ReadWord(text)
      case KeyWord(k) => (Parser(Some(k), p.filter), Used)
      case FlagWord(b, v) => (Parser(None, WithFlag(p.filter, b, Some(v))), Used)
      case NoWord => (p, Ignored)
  }

  datatype Trace = Trace(final: Parser, answers: seq<LabelState>)

  /** Feeds all labels to the parser and records its answers. */
  function Run(norm: string -> string, p: Parser, labels: seq<string>): (t: Trace)
    ensures |t.answers| == |labels|
    decreases |labels|
  {
    if labels == [] then Trace(p, [])
    else
      var (q, a) := ParseLabel(norm, p, labels[0]);
      var t := Run(norm, q, labels[1..]);
      Trace(t.final, [a] + t.answers)
  }

  // ---------- reading by groups ----------

  datatype Reading = Reading(groups: seq<Group>, pending: Option<Key>, clean: bool)

  /** Reads keys together with their values, flags on their own, and skips everything else. */
  function ReadGroups(labels: seq<string>): Reading
    decreases |labels|
  {
    if labels == [] then Reading([], None, true)
    else
      match ReadWord(labels[0])
      case NoWord => ReadGroups(labels[1..]).(clean := false)
      case FlagWord(b, v) =>
        var r := ReadGroups(labels[1..]);
        r.(groups := [Toggle(b, v)] + r.groups)
      case KeyWord(k) =>
        if |labels| == 1 then Reading([], Some(k), true)
        else
          var r := ReadGroups(labels[2..]);
          r.(groups := [Assign(k, labels[1])] + r.groups)
  }

  /** The values announced by key `k`, in order. */
  function Values(groups: seq<Group>, k: Key): seq<string> {
    if groups == [] then []
    else if groups[0].Assign? && groups[0].key == k then [groups[0].text] + Values(groups[1..], k)
    else Values(groups[1..], k)
  }

  function FlagValues(groups: seq<Group>, b: Flag): seq<bool> {
    if groups == [] then []
    else if groups[0].Toggle? && groups[0].flag == b then [groups[0].value] + FlagValues(groups[1..], b)
    else FlagValues(groups[1..], b)
  }

  function Map(norm: string -> string, xs: seq<string>): seq<string> {
    if xs == [] then [] else [norm(xs[0])] + Map(norm, xs[1..])
  }

  /** The numbers among `xs`. */
  function Numbers(xs: seq<string>): seq<Asn> {
    if xs == [] then []
    else if AsnFromStr(xs[0]).Some? then [AsnFromStr(xs[0]).value] + Numbers(xs[1..])
    else Numbers(xs[1..])
  }

  /** Every group carries a value its field takes. */
  ghost predicate Accepts(groups: seq<Group>) {
    && "" !in Values(groups, IdKey)
    && forall t :: t in Values(groups, AsnKey) ==> AsnFromStr(t).Some?
  }

  /** Field by field: lists extended by the values of their key, the rest set to the last value. */
  ghost predicate Describes(norm: string -> string, before: ProxyFilter, groups: seq<Group>, after: ProxyFilter) {
    && after.id == LastOr(before.id, Values(groups, IdKey))
    && after.asn == PushAll(before.asn, Numbers(Values(groups, AsnKey)))
    && (forall k :: TextField(after, k) == PushAll(TextField(before, k), Map(norm, Values(groups, ListKey(k)))))
    && (forall b :: FlagField(after, b) == LastOr(FlagField(before, b), FlagValues(groups, b)))
  }

  function StoreGroup(norm: string -> string, f: ProxyFilter, g: Group): Option<ProxyFilter> {
    match g
    case Assign(k, text) => Store(norm, f, k, text)
    case Toggle(b, v) => Some(WithFlag(f, b, Some(v)))
  }

  lemma ValuesCons(g: Group, groups: seq<Group>, k: Key)
    ensures Values([g] + groups, k) == (if g.Assign? && g.key == k then [g.text] else []) + Values(groups, k)
  {
  }

  lemma TextStep(norm: string -> string, f0: ProxyFilter, g: Group, f1: ProxyFilter, groups: seq<Group>, k: TextKey)
    requires StoreGroup(norm, f0, g) == Some(f1)
    ensures PushAll(TextField(f1, k), Map(norm, Values(groups, ListKey(k))))
         == PushAll(TextField(f0, k), Map(norm, Values([g] + groups, ListKey(k))))
  {
    var rest := Values(groups, ListKey(k));
    ValuesCons(g, groups, ListKey(k));
    if g.Assign? && g.key == ListKey(k) {
      assert ([g.text] + rest)[1..] == rest;
      PushThenAll(TextField(f0, k), norm(g.text), Map(norm, rest));
    } else {
      assert TextField(f1, k) == TextField(f0, k);
    }
  }

  lemma AsnStep(norm: string -> string, f0: ProxyFilter, g: Group, f1: ProxyFilter, groups: seq<Group>)
    requires StoreGroup(norm, f0, g) == Some(f1)
    ensures PushAll(f1.asn, Numbers(Values(groups, AsnKey))) == PushAll(f0.asn, Numbers(Values([g] + groups, AsnKey)))
  {
    var rest := Values(groups, AsnKey);
    ValuesCons(g, groups, AsnKey);
    if g.Assign? && g.key == AsnKey {
      assert ([g.text] + rest)[1..] == rest;
      PushThenAll(f0.asn, AsnFromStr(g.text).value, Numbers(rest));
    }
  }

  lemma LastStep(norm: string -> string, f0: ProxyFilter, g: Group, f1: ProxyFilter, groups: seq<Group>, b: Flag)
    requires StoreGroup(norm, f0, g) == Some(f1)
    ensures LastOr(f1.id, Values(groups, IdKey)) == LastOr(f0.id, Values([g] + groups, IdKey))
    ensures LastOr(FlagField(f1, b), FlagValues(groups, b)) == LastOr(FlagField(f0, b), FlagValues([g] + groups, b))
  {
    ValuesCons(g, groups, IdKey);
    assert ([g] + groups)[1..] == groups;
  }

  lemma DescribesStep(norm: string -> string, f0: ProxyFilter, g: Group, f1: ProxyFilter, groups: seq<Group>,
                      f: ProxyFilter)
    requires StoreGroup(norm, f0, g) == Some(f1)
    requires Describes(norm, f1, groups, f)
    ensures Describes(norm, f0, [g] + groups, f)
  {
    AsnStep(norm, f0, g, f1, groups);
    forall k ensures TextField(f, k) == PushAll(TextField(f0, k), Map(norm, Values([g] + groups, ListKey(k)))) {
      TextStep(norm, f0, g, f1, groups, k);
    }
    forall b ensures FlagField(f, b) == LastOr(FlagField(f0, b), FlagValues([g] + groups, b)) {
      LastStep(norm, f0, g, f1, groups, b);
    }
    LastStep(norm, f0, g, f1, groups, Mobile);
  }

  lemma PushThenAll<T>(list: Option<seq<T>>, x: T, xs: seq<T>)
    ensures PushAll(Push(list, x), xs) == PushAll(list, [x] + xs)
  {
    if list.Some? {
      assert (list.value + [x]) + xs == list.value + ([x] + xs);
    }
    if xs == [] {
      assert [x] + xs == [x];
    }
  }

  lemma AcceptsStep(g: Group, groups: seq<Group>)
    ensures Accepts([g] + groups) <==> StoreGroup(s => s, DEFAULT, g).Some? && Accepts(groups)
  {
  }

  lemma StoreGroupSome(norm: string -> string, f: ProxyFilter, g: Group)
    ensures StoreGroup(norm, f, g).Some? <==> StoreGroup(s => s, DEFAULT, g).Some?
  {
  }

  /**
   The one-pass parser refines the per-field reading, on every label sequence: it aborts
   exactly when some group is not acceptable, ignores a label exactly when the reading is not
   clean, and otherwise ends with the pending key and the fields the reading gives.
   */
  lemma {:induction false} RunRefinesFields(norm: string -> string, f: ProxyFilter, labels: seq<string>)
    ensures var t, r := Run(norm, Parser(None, f), labels), ReadGroups(labels);
            && (Abort !in t.answers <==> Accepts(r.groups))
            && (Ignored !in t.answers <==> r.clean)
            && (Accepts(r.groups) ==> t.final.key == r.pending && Describes(norm, f, r.groups, t.final.filter))
    decreases |labels|
  {
    if labels != [] {
      var w := ReadWord(labels[0]);
      if w.NoWord? {
        RunRefinesFields(norm, f, labels[1..]);
      } else if w.FlagWord? {
        GroupStep(norm, f, Toggle(w.flag, w.value), labels, 1);
      } else if |labels| == 1 {
        assert labels[1..] == [];
      } else {
        GroupStep(norm, f, Assign(w.key, labels[1]), labels, 2);
      }
    }
  }

  lemma {:induction false} GroupStep(norm: string -> string, f: ProxyFilter, g: Group, labels: seq<string>, n: nat)
    requires n <= |labels|
    requires if g.Toggle? then n == 1 && ReadWord(labels[0]) == FlagWord(g.flag, g.value)
             else n == 2 && ReadWord(labels[0]) == KeyWord(g.key) && labels[1] == g.text
    ensures var t, r := Run(norm, Parser(None, f), labels), ReadGroups(labels);
            && (Abort !in t.answers <==> Accepts(r.groups))
            && (Ignored !in t.answers <==> r.clean)
            && (Accepts(r.groups) ==> t.final.key == r.pending && Describes(norm, f, r.groups, t.final.filter))
    decreases |labels|, 0
  {
    var next := StoreGroup(norm, f, g);
    var f1 := if next.Some? then next.value else f;
    var rest := labels[n..];
    var t, r := Run(norm, Parser(None, f), labels), ReadGroups(rest);
    RunGroup(norm, f, g, labels, n);
    RunRefinesFields(norm, f1, rest);
    StoreGroupSome(norm, f, g);
    AcceptsStep(g, r.groups);
    if Accepts([g] + r.groups) {
      DescribesStep(norm, f, g, f1, r.groups, t.final.filter);
    }
  }

  lemma RunGroup(norm: string -> string, f: ProxyFilter, g: Group, labels: seq<string>, n: nat)
    requires n <= |labels|
    requires if g.Toggle? then n == 1 && ReadWord(labels[0]) == FlagWord(g.flag, g.value)
             else n == 2 && ReadWord(labels[0]) == KeyWord(g.key) && labels[1] == g.text
    ensures var next := StoreGroup(norm, f, g);
            var t := Run(norm, Parser(None, f), labels);
            var u := Run(norm, Parser(None, if next.Some? then next.value else f), labels[n..]);
            && t.final == u.final
            && (Abort in t.answers <==> next.None? || Abort in u.answers)
            && (Ignored in t.answers <==> Ignored in u.answers)
  {
  }
}

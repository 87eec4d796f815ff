/**
 The proxy filter carried in username labels: its fields, the label vocabulary and
 the labels it is written as.

 `norm` stands for the `StringFilter` normaliser (trim, lower case, NFC), whose Unicode
 tables are not part of this model; it is any idempotent function on strings.
 */
module ProxyFilters {
  import opened Text
  import opened Asns
  import Decimal

  datatype ProxyFilter = ProxyFilter(
    id: Option<string>,
    poolId: Option<seq<string>>,
    continent: Option<seq<string>>,
    country: Option<seq<string>>,
    state: Option<seq<string>>,
    city: Option<seq<string>>,
    datacenter: Option<bool>,
    residential: Option<bool>,
    mobile: Option<bool>,
    carrier: Option<seq<string>>,
    asn: Option<seq<Asn>>)

  const DEFAULT := ProxyFilter(None, None, None, None, None, None, None, None, None, None, None)

  /** The fields that hold a list of string filters. */
  datatype TextKey = Pool | Continent | Country | State | City | Carrier

  /** The keys that announce a value label. */
  datatype Key = IdKey | ListKey(list: TextKey) | AsnKey

  datatype Flag = Datacenter | Residential | Mobile

  function TextField(f: ProxyFilter, k: TextKey): Option<seq<string>> {
    match k
    case Pool => f.poolId
    case Continent => f.continent
    case Country => f.country
    case State => f.state
    case City => f.city
    case Carrier => f.carrier
  }

  function WithText(f: ProxyFilter, k: TextKey, v: Option<seq<string>>): ProxyFilter {
    match k
    case Pool => f.(poolId := v)
    case Continent => f.(continent := v)
    case Country => f.(country := v)
    case State => f.(state := v)
    case City => f.(city := v)
    case Carrier => f.(carrier := v)
  }

  function FlagField(f: ProxyFilter, g: Flag): Option<bool> {
    match g
    case Datacenter => f.datacenter
    case Residential => f.residential
    case Mobile => f.mobile
  }

  function WithFlag(f: ProxyFilter, g: Flag, v: Option<bool>): ProxyFilter {
    match g
    case Datacenter => f.(datacenter := v)
    case Residential => f.(residential := v)
    case Mobile => f.(mobile := v)
  }

  ghost predicate SameFields(f: ProxyFilter, g: ProxyFilter) {
    && f.id == g.id && f.asn == g.asn
    && (forall k :: TextField(f, k) == TextField(g, k))
    && (forall b :: FlagField(f, b) == FlagField(g, b))
  }

  lemma Extensional(f: ProxyFilter, g: ProxyFilter)
    ensures SameFields(f, g) <==> f == g
  {
    if SameFields(f, g) {
      assert TextField(f, Pool) == TextField(g, Pool) && TextField(f, Continent) == TextField(g, Continent);
      assert TextField(f, Country) == TextField(g, Country) && TextField(f, State) == TextField(g, State);
      assert TextField(f, City) == TextField(g, City) && TextField(f, Carrier) == TextField(g, Carrier);
      assert FlagField(f, Datacenter) == FlagField(g, Datacenter);
      assert FlagField(f, Residential) == FlagField(g, Residential);
      assert FlagField(f, Mobile) == FlagField(g, Mobile);
    }
  }

  /** `push` on an optional list, and its iteration. */
  function Push<T>(list: Option<seq<T>>, x: T): Option<seq<T>> {
    if list.Some? then Some(list.value + [x]) else Some([x])
  }

  function PushAll<T>(list: Option<seq<T>>, xs: seq<T>): Option<seq<T>> {
    if xs == [] then list else if list.Some? then Some(list.value + xs) else Some(xs)
  }

  ghost predicate Idempotent(norm: string -> string) {
    forall s :: norm(norm(s)) == norm(s)
  }

  /** The type invariants of the fields: non-empty ids, normalised strings, valid numbers. */
  ghost predicate Valid(norm: string -> string, f: ProxyFilter) {
    && (f.id.Some? ==> f.id.value != "")
    && (forall k, v :: TextField(f, k).Some? && v in TextField(f, k).value ==> norm(v) == v)
    && (f.asn.Some? ==> forall a :: a in f.asn.value ==> ValidAsn(a))
  }

  /** No list field is present but empty; the labels cannot tell such a list from an absent one. */
  ghost predicate NoEmptyList(f: ProxyFilter) {
    f.asn != Some([]) && forall k :: TextField(f, k) != Some([])
  }

  function PruneList<T(==)>(list: Option<seq<T>>): Option<seq<T>> {
    if list == Some([]) then None else list
  }

  /** The filter with its empty lists dropped. */
  function Prune(f: ProxyFilter): (g: ProxyFilter)
    ensures NoEmptyList(g)
    ensures g == f <==> NoEmptyList(f)
  {
    var g := f.(poolId := PruneList(f.poolId), continent := PruneList(f.continent),
    country := PruneList(f.country), state := PruneList(f.state), city := PruneList(f.city),
    carrier := PruneList(f.carrier), asn := PruneList(f.asn));
    assert forall k :: TextField(g, k) == PruneList(TextField(f, k));
    assert SameFields(f, g) <==> f == g by { Extensional(f, g); }
    g
  }

  // ---------- vocabulary ----------

  function KeyName(k: Key): string {
    match k
    case IdKey => "id"
    case AsnKey => "asn"
    case ListKey(Pool) => "pool"
    case ListKey(Continent) => "continent"
    case ListKey(Country) => "country"
    case ListKey(State) => "state"
    case ListKey(City) => "city"
    case ListKey(Carrier) => "carrier"
  }

  function FlagName(g: Flag): string {
    match g
    case Datacenter => "datacenter"
    case Residential => "residential"
    case Mobile => "mobile"
  }

  /** What a label means when no key is pending. */
  datatype Word = KeyWord(key: Key) | FlagWord(flag: Flag, value: bool) | NoWord

  /** The case-insensitive match on a trimmed name. */
  function Lookup(name: string, value: bool): Word {
    if EqIgnoreCase(name, "datacenter") then FlagWord(Datacenter, value)
    else if EqIgnoreCase(name, "residential") then FlagWord(Residential, value)
    else if EqIgnoreCase(name, "mobile") then FlagWord(Mobile, value)
    else if EqIgnoreCase(name, "id") then KeyWord(IdKey)
    else if EqIgnoreCase(name, "pool") then KeyWord(ListKey(Pool))
    else if EqIgnoreCase(name, "continent") then KeyWord(ListKey(Continent))
    else if EqIgnoreCase(name, "country") then KeyWord(ListKey(Country))
    else if EqIgnoreCase(name, "state") then KeyWord(ListKey(State))
    else if EqIgnoreCase(name, "city") then KeyWord(ListKey(City))
    else if EqIgnoreCase(name, "carrier") then KeyWord(ListKey(Carrier))
    else if EqIgnoreCase(name, "asn") then KeyWord(AsnKey)
    else NoWord
  }

  /** Reads a label outside a value position; a leading '!' negates flags and voids keys. */
  function ReadWord(text: string): Word {
    if text != "" && text[0] == '!' then
      var w := Lookup(Trim(text[1..], IsWhitespace), false);
      if w.KeyWord? then NoWord else w
    else
      Lookup(Trim(text, IsWhitespace), true)
  }

  lemma LookupKeyExact(name: string, value: bool, k: Key)
    ensures Lookup(name, value) == KeyWord(k) <==> EqIgnoreCase(name, KeyName(k))
  {
    assert "city"[0] != "pool"[0] && "carrier"[1] != "country"[1];
  }

  lemma LookupFlagExact(name: string, value: bool, g: Flag)
    ensures Lookup(name, value) == FlagWord(g, value) <==> EqIgnoreCase(name, FlagName(g))
  {
  }

  /**
   Every label: a key or flag name in any letter case and with any white space around it is recognised,
   and nothing else; a leading '!' turns a flag off and leaves no key.
   */
  lemma ReadWordExact(text: string, k: Key, g: Flag)
    ensures var negated := text != "" && text[0] == '!';
            && (ReadWord(text) == KeyWord(k) <==> !negated && EqIgnoreCase(Trim(text, IsWhitespace), KeyName(k)))
            && (ReadWord(text) == FlagWord(g, true)
                <==> !negated && EqIgnoreCase(Trim(text, IsWhitespace), FlagName(g)))
            && (ReadWord(text) == FlagWord(g, false)
                <==> negated && EqIgnoreCase(Trim(text[1..], IsWhitespace), FlagName(g)))
  {
    LookupKeyExact(Trim(text, IsWhitespace), true, k);
    LookupFlagExact(Trim(text, IsWhitespace), true, g);
    if text != "" && text[0] == '!' {
      LookupFlagExact(Trim(text[1..], IsWhitespace), false, g);
    }
  }

  lemma ReadKeyName(k: Key)
    ensures ReadWord(KeyName(k)) == KeyWord(k)
  {
    TrimKey(k);
    match k
    case IdKey =>
    case AsnKey =>
    case ListKey(t) => LookupText(t);
  }

  lemma LookupText(t: TextKey)
    ensures Lookup(KeyName(ListKey(t)), true) == KeyWord(ListKey(t))
  {
    match t
    case Pool =>
    case Continent =>
    case Country =>
    case State =>
    case City => assert "city"[0] != "pool"[0];
    case Carrier => assert "carrier"[1] != "country"[1];
  }

  lemma TrimKey(k: Key)
    ensures Trim(KeyName(k), IsWhitespace) == KeyName(k)
    ensures KeyName(k) != "" && KeyName(k)[0] != '!'
  {
  }

  lemma ReadFlagName(g: Flag)
    ensures ReadWord(FlagName(g)) == FlagWord(g, true)
    ensures ReadWord("!" + FlagName(g)) == FlagWord(g, false)
  {
    LookupFlag(g, true);
    LookupFlag(g, false);
    TrimFlag(g);
    assert ("!" + FlagName(g))[1..] == FlagName(g);
  }

  lemma LookupFlag(g: Flag, value: bool)
    ensures Lookup(FlagName(g), value) == FlagWord(g, value)
  {
    match g
    case Datacenter =>
    case Residential =>
    case Mobile =>
  }

  lemma TrimFlag(g: Flag)
    ensures Trim(FlagName(g), IsWhitespace) == FlagName(g)
    ensures FlagName(g) != "" && FlagName(g)[0] != '!'
  {
  }

  // ---------- labels ----------

  /** One written group: a key with its value, or a flag. */
  datatype Group = Assign(key: Key, text: string) | Toggle(flag: Flag, value: bool)

  function GroupLabels(g: Group): seq<string> {
    match g
    case Assign(k, text) => [KeyName(k), text]
    case Toggle(b, value) => [if value then FlagName(b) else "!" + FlagName(b)]
  }

  function Render(groups: seq<Group>): seq<string> {
    FlatMap(GroupLabels, groups)
  }

  function IdGroups(id: Option<string>): seq<Group> {
    if id.Some? then [Assign(IdKey, id.value)] else []
  }

  function TextGroups(k: TextKey, list: Option<seq<string>>): seq<Group> {
    if list.None? then [] else seq(|list.value|, i requires 0 <= i < |list.value| => Assign(ListKey(k), list.value[i]))
  }

  function FlagGroups(g: Flag, value: Option<bool>): seq<Group> {
    if value.Some? then [Toggle(g, value.value)] else []
  }

  function AsnGroups(list: Option<seq<Asn>>): seq<Group> {
    if list.None? then []
    else seq(|list.value|, i requires 0 <= i < |list.value| => Assign(AsnKey, Decimal.Print(AsU32(list.value[i]))))
  }

  /** The writer's section for key `k`. */
  function Section(f: ProxyFilter, k: Key): seq<Group> {
    match k
    case IdKey => IdGroups(f.id)
    case ListKey(t) => TextGroups(t, TextField(f, t))
    case AsnKey => AsnGroups(f.asn)
  }

  /** The place sections, then the flags, in the order the writer emits them. */
  function Places(f: ProxyFilter): seq<Group> {
    Section(f, ListKey(Pool)) + Section(f, ListKey(Continent)) + Section(f, ListKey(Country))
    + Section(f, ListKey(State)) + Section(f, ListKey(City))
  }

  function Flags(f: ProxyFilter): seq<Group> {
    FlagGroups(Datacenter, f.datacenter) + FlagGroups(Residential, f.residential) + FlagGroups(Mobile, f.mobile)
  }

  /** The groups of a filter, in the order the writer emits them. */
  function Groups(f: ProxyFilter): seq<Group> {
    Section(f, IdKey) + Places(f) + Flags(f) + Section(f, ListKey(Carrier)) + Section(f, AsnKey)
  }

  function Labels(f: ProxyFilter): seq<string> {
    Render(Groups(f))
  }
}

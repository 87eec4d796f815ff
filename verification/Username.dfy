/** Parsing a username with labels: the parser object and the loop that feeds it. */
module Usernames {
  import opened Text
  import opened Asns
  import opened ProxyFilters
  import opened UsernameParser

  class ProxyFilterUsernameParser {
    const norm: string -> string
    var key: Option<Key>
    var filter: ProxyFilter

    function Value(): Parser
      reads this
    {
      Parser(key, filter)
    }

    constructor (norm: string -> string)
      ensures this.norm == norm && Value() == START
    {
      this.norm := norm;
      key, filter := None, DEFAULT;
    }

    method ParseLabel(text: string) returns (answer: LabelState)
      modifies this
      ensures (Value(), answer) == UsernameParser.ParseLabel(norm, old(Value()), text)
    {
      var taken := key;
      key := None;
      if taken.Some? {
        match taken.value {
          case IdKey =>
            if text == "" {
              return Abort;
            }
            filter := filter.(id := Some(text));
          case ListKey(Pool) => filter := filter.(poolId := Push(filter.poolId, norm(text)));
          case ListKey(Continent) => filter := filter.(continent := Push(filter.continent, norm(text)));
          case ListKey(Country) => filter := filter.(country := Push(filter.country, norm(text)));
          case ListKey(State) => filter := filter.(state := Push(filter.state, norm(text)));
          case ListKey(City) => filter := filter.(city := Push(filter.city, norm(text)));
          case ListKey(Carrier) => filter := filter.(carrier := Push(filter.carrier, norm(text)));
          case AsnKey =>
            var asn := AsnFromStr(text);
            if asn.None? {
              return Abort;
            }
            filter := filter.(asn := Push(filter.asn, asn.value));
        }
      } else {
        var negated := text != "" && text[0] == '!';
        var name := Trim(if negated then text[1..] else text, IsWhitespace);
        match Lookup(name, !negated) {
          case FlagWord(Datacenter, v) => filter := filter.(datacenter := Some(v));
          case FlagWord(Residential, v) => filter := filter.(residential := Some(v));
          case FlagWord(Mobile, v) => filter := filter.(mobile := Some(v));
          case KeyWord(k) => key := Some(k);
          case NoWord => return Ignored;
        }
        if negated && key.Some? {
          key := None;
          return Ignored;
        }
      }
      return Used;
    }

    /** The filter to store, or None at the outer level when a key still waits for its value. */
    method Build() returns (r: Option<Option<ProxyFilter>>)
      ensures r == if key.Some? then None else Some(Stored(filter))
    {
      if key.Some? {
        return None;
      }
      if filter != DEFAULT {
        return Some(Some(filter));
      }
      return Some(None);
    }
  }

  /** The default filter is not stored. */
  function Stored(f: ProxyFilter): Option<ProxyFilter> {
    if f == DEFAULT then None else Some(f)
  }

  datatype Parsed = Failed | Parsed(username: string, stored: Option<ProxyFilter>)

  predicate AllUsed(answers: seq<LabelState>) {
    forall a :: a in answers ==> a == Used
  }

  /** What a username text means: its first piece, and the filter its other pieces describe. */
  function Decode(norm: string -> string, text: string, separator: char): Parsed {
    var pieces := Split(text, separator);
    var t := Run(norm, START, pieces[1..]);
    if pieces[0] == "" || !AllUsed(t.answers) || t.final.key.Some? then Failed
    else Parsed(pieces[0], Stored(t.final.filter))
  }

  lemma RunStep(norm: string -> string, p: Parser, labels: seq<string>)
    requires labels != []
    ensures var (q, a) := ParseLabel(norm, p, labels[0]);
            var t, u := Run(norm, p, labels), Run(norm, q, labels[1..]);
            t.final == u.final && (AllUsed(t.answers) <==> a == Used && AllUsed(u.answers))
  {
    var (q, a) := ParseLabel(norm, p, labels[0]);
    AllUsedCons(a, Run(norm, q, labels[1..]).answers);
  }

  lemma AllUsedCons(a: LabelState, rest: seq<LabelState>)
    ensures AllUsed([a] + rest) <==> a == Used && AllUsed(rest)
  {
    assert a in [a] + rest;
    assert forall x :: x in rest ==> x in [a] + rest;
  }

  /** Feeds the labels to a fresh parser, up to the first one that is not used. */
  method ParseLabels(norm: string -> string, labels: seq<string>) returns (r: Option<Option<ProxyFilter>>)
    ensures var t := Run(norm, START, labels);
            r == if AllUsed(t.answers) && t.final.key.None? then Some(Stored(t.final.filter)) else None
  {
    var parser := new ProxyFilterUsernameParser(norm);
    ghost var whole := Run(norm, START, labels);
    for i := 0 to |labels|
      invariant parser.norm == norm
      invariant Run(norm, parser.Value(), labels[i..]).final == whole.final
      invariant AllUsed(Run(norm, parser.Value(), labels[i..]).answers) <==> AllUsed(whole.answers)
    {
      RunStep(norm, parser.Value(), labels[i..]);
      assert labels[i..][1..] == labels[i + 1..];
      var answer := parser.ParseLabel(labels[i]);
      if answer != Used {
        return None;
      }
    }
    r := parser.Build();
  }

  /** `parse_username_with_separator` with the proxy filter parser. */
  method ParseUsername(norm: string -> string, text: string, separator: char) returns (r: Parsed)
    ensures r == Decode(norm, text, separator)
  {
    var pieces := Split(text, separator);
    if pieces[0] == "" {
      return Failed;
    }
    var built := ParseLabels(norm, pieces[1..]);
    if built.None? {
      return Failed;
    }
    return Parsed(pieces[0], built.value);
  }
}

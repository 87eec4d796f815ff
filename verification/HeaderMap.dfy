/** Header maps: for each name the values of its lines. */
module HeaderMaps {

  /** The bytes a header value may hold. */
  predicate ValidByte(c: char) {
    c == '\t' || (' ' <= c && c as int < 256 && c as int != 127)
  }

  predicate ValidValue(v: string) {
    forall i :: 0 <= i < |v| ==> ValidByte(v[i])
  }

  type HeaderValue = v: string | ValidValue(v)

  class HeaderMap {
    var entries: map<string, seq<HeaderValue>>

    /** A name that is present has at least one value. */
    ghost predicate Valid()
      reads this
    {
      forall name :: name in entries ==> entries[name] != []
    }

    function GetAll(name: string): seq<HeaderValue>
      reads this
    {
      if name in entries then entries[name] else []
    }
  }
}

/**
 URI schemes as protocols: conversion, printing, comparison, and extraction from the front of a URI.
 A scheme is given by its bytes; a byte above 127 fails the conversion, be it as UTF-8 or by the table.
 */
module Protocols {
  import opened Text

  datatype Protocol = Http | Https | Ws | Wss | Socks5 | Socks5h | Custom(name: string)

  /** A conversion; `Panic` is the refusal of the inline-only string constructor. */
  datatype Conversion = Ok(protocol: Protocol) | Invalid | Panic

  const MAX_SCHEME_LEN := 64
  const MAX_SCAN := 512

  /** The longest text `SmolStr::new_inline` takes. */
  const INLINE_CAP := 23

  /** The table of scheme characters: zero for bytes that may not occur, else the byte itself. */
  function SchemeChar(c: char): char {
    if IsAlphanumeric(c) || c == '+' || c == '-' || c == '.' then c else 0 as char
  }

  predicate ValidScheme(s: string) {
    1 <= |s| <= MAX_SCHEME_LEN && forall i :: 0 <= i < |s| ==> SchemeChar(s[i]) != 0 as char
  }

  method ValidateSchemeSlice(s: string) returns (ok: bool)
    ensures ok <==> ValidScheme(s)
  {
    if s == [] || |s| > MAX_SCHEME_LEN {
      return false;
    }
    var i := 0;
    while i < |s|
      invariant 0 <= i <= |s|
      invariant forall j :: 0 <= j < i ==> SchemeChar(s[j]) != 0 as char
    {
      if SchemeChar(s[i]) == 0 as char {
        return false;
      }
      i := i + 1;
    }
    return true;
  }

  /** The scheme production of section 3.1 of RFC 3986. */
  predicate Rfc3986Scheme(s: string) {
    && s != [] && ('a' <= s[0] <= 'z' || 'A' <= s[0] <= 'Z')
    && forall i :: 1 <= i < |s| ==> IsAlphanumeric(s[i]) || s[i] in "+-."
  }

  /** The validator takes schemes that start with any scheme character, not only with a letter. */
  lemma SchemeGrammar(s: string)
    ensures Rfc3986Scheme(s) && |s| <= MAX_SCHEME_LEN
       <==> ValidScheme(s) && s[0] !in "0123456789+-."
    ensures ValidScheme("1") && !Rfc3986Scheme("1")
  {
  }

  /** The six named protocols; the empty scheme means `http`. */
  function Known(s: string): Option<Protocol> {
    if EqIgnoreCase(s, "https") then Some(Https)
    else if s == "" || EqIgnoreCase(s, "http") then Some(Http)
    else if EqIgnoreCase(s, "socks5") then Some(Socks5)
    else if EqIgnoreCase(s, "socks5h") then Some(Socks5h)
    else if EqIgnoreCase(s, "ws") then Some(Ws)
    else if EqIgnoreCase(s, "wss") then Some(Wss)
    else None
  }

  /** Conversion of an owned string. */
  function TryFromString(s: string): Conversion {
    match Known(s)
    case Some(p) => Ok(p)
    case None => if ValidScheme(s) then Ok(Custom(s)) else Invalid
  }

  /** Conversion of a borrowed string, which stores custom names inline. */
  function TryFromStr(s: string): Conversion {
    match Known(s)
    case Some(p) => Ok(p)
    case None =>
      if !ValidScheme(s) then Invalid
      else if |s| <= INLINE_CAP then Ok(Custom(s))
      else Panic
  }

  function AsStr(p: Protocol): string {
    match p
    case Http => "http"
    case Https => "https"
    case Ws => "ws"
    case Wss => "wss"
    case Socks5 => "socks5"
    case Socks5h => "socks5h"
    case Custom(s) => s
  }

  /** The protocols that conversion can yield. */
  predicate WellFormed(p: Protocol) {
    p.Custom? ==> ValidScheme(p.name) && Known(p.name).None?
  }

  /** Comparison with a string. */
  predicate EqStr(p: Protocol, s: string) {
    match p
    case Https => EqIgnoreCase(s, "https")
    case Http => EqIgnoreCase(s, "http") || s == ""
    case Socks5 => EqIgnoreCase(s, "socks5")
    case Socks5h => EqIgnoreCase(s, "socks5h")
    case Ws => EqIgnoreCase(s, "ws")
    case Wss => EqIgnoreCase(s, "wss")
    case Custom(name) => EqIgnoreCase(s, name)
  }

  /** The two conversions agree exactly where the borrowed one does not panic. */
  lemma BorrowedAgrees(s: string)
    ensures TryFromStr(s) == TryFromString(s) <==> TryFromStr(s) != Panic
    ensures TryFromStr(s) == Panic <==> Known(s).None? && ValidScheme(s) && |s| > INLINE_CAP
  {
  }

  /** Conversion yields well-formed protocols, whose printed form matches the input, and undoes printing. */
  lemma ConversionRoundTrip(s: string, p: Protocol)
    ensures TryFromString(s) == Ok(p) ==> WellFormed(p) && (s == "" || EqIgnoreCase(s, AsStr(p)))
    ensures WellFormed(p) <==> TryFromString(AsStr(p)) == Ok(p)
    ensures WellFormed(p) ==> ValidScheme(AsStr(p))
  {
  }

  lemma NamedProtocol(p: Protocol)
    requires !p.Custom?
    ensures Known(AsStr(p)) == Some(p) && ValidScheme(AsStr(p))
  {
  }

  /**
   `p == s` holds exactly when `s` converts to a protocol that prints like `p` up to ASCII case.
   That protocol is `p` itself unless `p` is custom and `s` spells it in another case.
   */
  lemma EqStrExact(p: Protocol, s: string)
    requires WellFormed(p)
    ensures EqStr(p, s) <==> TryFromString(s).Ok? && EqIgnoreCase(AsStr(TryFromString(s).protocol), AsStr(p))
    ensures EqStr(p, s) ==> (TryFromString(s) == Ok(p) <==> !p.Custom? || s == AsStr(p))
  {
  }

  /** `Custom("ftp")` equals "FTP", which converts to another protocol. */
  lemma EqStrNotConversion()
    ensures WellFormed(Custom("ftp")) && EqStr(Custom("ftp"), "FTP")
    ensures TryFromString("FTP") == Ok(Custom("FTP")) && Custom("FTP") != Custom("ftp")
  {
    assert "FTP"[0] != "ftp"[0];
    EqStrExact(Custom("ftp"), "FTP");
  }

  // ---------- extraction ----------

  datatype Extraction = Error | Panicked | NoScheme | Scheme(protocol: Protocol, offset: nat)

  /** The position of the first colon, or the length when there is none. */
  function FirstColon(s: string): (i: nat)
    ensures i <= |s| && ':' !in s[..i] && (i < |s| ==> s[i] == ':')
  {
    if s == [] || s[0] == ':' then 0
    else
      assert forall k :: 0 <= k <= |s[1..]| ==> s[..k + 1] == [s[0]] + s[1..][..k];
      1 + FirstColon(s[1..])
  }

  /** What the front of a URI says about its scheme. */
  function Extract(s: string): Extraction {
    var i := FirstColon(s);
    if s == [] then Error
    else if i < MAX_SCAN && i + 3 <= |s| && s[i + 1..i + 3] == "//" then
      match TryFromStr(s[..i])
      case Ok(p) => Scheme(p, i + 3)
      case Invalid => Error
      case Panic => Panicked
    else NoScheme
  }

  lemma FirstColonUnique(s: string, i: nat)
    requires i < |s| && s[i] == ':' && forall j :: 0 <= j < i ==> s[j] != ':'
    ensures FirstColon(s) == i
  {
  }

  /** `try_to_extract_protocol_from_uri_scheme`: a scan of at most 512 bytes for the first colon. */
  method TryToExtract(s: string) returns (r: Extraction)
    ensures r == Extract(s)
  {
    if s == [] {
      return Error;
    }
    var n := if |s| < MAX_SCAN then |s| else MAX_SCAN;
    for i := 0 to n
      invariant forall j :: 0 <= j < i ==> s[j] != ':'
    {
      if s[i] == ':' {
        FirstColonUnique(s, i);
        if |s| < i + 3 {
          break;
        }
        if s[i + 1..i + 3] != "//" {
          break;
        }
        match TryFromStr(s[..i]) {
          case Ok(p) => return Scheme(p, i + 3);
          case Invalid => return Error;
          case Panic => return Panicked;
        }
      }
    }
    return NoScheme;
  }

  /** The input is a scheme without colon, then `://`, then anything, with the colon within reach. */
  predicate CutsAt(s: string, scheme: string) {
    scheme + "://" <= s && ':' !in scheme && |scheme| < MAX_SCAN
  }

  lemma PrefixParts(s: string, a: string, b: string)
    ensures a + b <= s <==> |a| + |b| <= |s| && s[..|a|] == a && s[|a|..|a| + |b|] == b
  {
    if |a| + |b| <= |s| {
      assert s[..|a| + |b|] == s[..|a|] + s[|a|..|a| + |b|];
    }
  }

  lemma ColonSlashes(t: string)
    ensures t == "://" <==> |t| == 3 && t[0] == ':' && t[1..] == "//"
  {
    assert "://"[1..] == "//";
    assert |t| == 3 ==> t == [t[0]] + t[1..];
  }

  lemma CutAtFirstColon(s: string, scheme: string)
    requires CutsAt(s, scheme)
    ensures var i := FirstColon(s);
            i == |scheme| && i + 3 <= |s| && s[i + 1..i + 3] == "//" && scheme == s[..i]
  {
    var n := |scheme|;
    PrefixParts(s, scheme, "://");
    ColonSlashes(s[n..n + 3]);
    assert s[n..n + 3][1..] == s[n + 1..n + 3];
    FirstColonUnique(s, n);
  }

  lemma FirstColonCuts(s: string, i: nat)
    requires i == FirstColon(s) && i < MAX_SCAN && i + 3 <= |s| && s[i + 1..i + 3] == "//"
    ensures CutsAt(s, s[..i])
  {
    ColonSlashes(s[i..i + 3]);
    assert s[i..i + 3][1..] == s[i + 1..i + 3];
    PrefixParts(s, s[..i], "://");
  }

  /** A successful extraction splits the input at its first colon, just behind the two slashes. */
  lemma ExtractionCuts(s: string)
    ensures Extract(s).Scheme? ==>
              var (p, n) := (Extract(s).protocol, Extract(s).offset);
              && 3 <= n <= |s| && s == s[..n - 3] + "://" + s[n..]
              && ':' !in s[..n - 3] && TryFromStr(s[..n - 3]) == Ok(p)
  {
    if Extract(s).Scheme? {
      var i := FirstColon(s);
      FirstColonCuts(s, i);
      assert s == (s[..i] + "://") + s[i + 3..];
    }
  }

  /**
   Every input: it yields a protocol, an error or a panic as its scheme converts, exactly when it has a
   scheme in front of `://`; otherwise the empty input is an error and any other has no scheme.
   */
  lemma ExtractExact(s: string, scheme: string)
    ensures CutsAt(s, scheme) ==>
              match TryFromStr(scheme)
              case Ok(p) => Extract(s) == Scheme(p, |scheme| + 3)
              case Invalid => Extract(s) == Error
              case Panic => Extract(s) == Panicked
    ensures Extract(s) == NoScheme <==> s != [] && !exists t :: CutsAt(s, t)
    ensures s == [] ==> Extract(s) == Error
  {
    if CutsAt(s, scheme) {
      CutAtFirstColon(s, scheme);
    }
    if t :| CutsAt(s, t) {
      CutAtFirstColon(s, t);
    } else if Extract(s) != NoScheme && s != [] {
      FirstColonCuts(s, FirstColon(s));
    }
  }

  /** Named schemes are extracted in any letter case. */
  lemma ExtractFoldsCase(p: Protocol, scheme: string, rest: string)
    requires !p.Custom? && EqIgnoreCase(scheme, AsStr(p))
    ensures Extract(scheme + "://" + rest) == Scheme(p, |scheme| + 3)
  {
    NamedProtocol(p);
    EqStrExact(p, scheme);
    assert Known(scheme) == Some(p);
    forall i | 0 <= i < |scheme| ensures scheme[i] != ':' {
      assert SchemeChar(AsStr(p)[i]) != 0 as char && Lower(scheme[i]) == Lower(AsStr(p)[i]);
    }
    ExtractExact(scheme + "://" + rest, scheme);
  }

  /**
   A printed protocol in front of any bytes is extracted again, leaving exactly those bytes, when its
   name fits inline; for a longer custom name the extraction panics.
   */
  lemma PrintExtract(p: Protocol, rest: string)
    requires WellFormed(p)
    ensures Extract(AsStr(p) + "://" + rest)
         == if |AsStr(p)| <= INLINE_CAP then Scheme(p, |AsStr(p)| + 3) else Panicked
    ensures (AsStr(p) + "://" + rest)[|AsStr(p)| + 3..] == rest
  {
    var name := AsStr(p);
    var s := name + "://" + rest;
    ConversionRoundTrip("", p);
    BorrowedAgrees(name);
    if !p.Custom? {
      NamedProtocol(p);
    }
    forall j | 0 <= j < |name| ensures s[j] != ':' {
      assert SchemeChar(name[j]) != 0 as char;
    }
    assert s[|name|] == ':';
    FirstColonUnique(s, |name|);
    assert s[..|name|] == name && s[|name| + 1..|name| + 3] == "//";
  }

  /** Extraction is stable: printing what was extracted in front of the rest extracts it again. */
  lemma ExtractionStable(s: string)
    requires Extract(s).Scheme?
    ensures var r := Extract(s);
            Extract(AsStr(r.protocol) + "://" + s[r.offset..]) == Scheme(r.protocol, |AsStr(r.protocol)| + 3)
  {
    var r := Extract(s);
    ExtractionCuts(s);
    BorrowedAgrees(s[..r.offset - 3]);
    ConversionRoundTrip(s[..r.offset - 3], r.protocol);
    PrintExtract(r.protocol, s[r.offset..]);
  }

  /** A custom scheme of 24 letters: valid, yet the borrowed conversion and the extraction panic. */
  lemma LongSchemePanics()
    ensures var s := "abcdefghijklmnopqrstuvwx";
            TryFromString(s) == Ok(Custom(s)) && TryFromStr(s) == Panic && Extract(s + "://") == Panicked
  {
    var s := "abcdefghijklmnopqrstuvwx";
    assert ValidScheme(s) && Known(s).None?;
    PrintExtract(Custom(s), "");
    assert s + "://" + "" == s + "://";
  }
}

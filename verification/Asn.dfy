/** Autonomous system numbers: the valid ranges, and their decimal text form. */
module Asns {
  import opened Text
  import Decimal

  datatype Asn = Unspecified | Specified(number: nat)

  const U32_LIMIT: nat := 0x1_0000_0000

  predicate IsValidRange(value: nat) {
    || 1 <= value <= 23455
    || 23457 <= value <= 64495
    || 131072 <= value <= 4294967294
  }

  /** What the private constructor admits: every `Asn` a program can hold. */
  predicate ValidAsn(asn: Asn) {
    asn.Specified? ==> IsValidRange(asn.number)
  }

  function AsU32(asn: Asn): nat {
    match asn
    case Specified(n) => n
    case Unspecified => 0
  }

  function AsnFromU32(value: nat): Option<Asn> {
    if value == 0 then Some(Unspecified)
    else if IsValidRange(value) then Some(Specified(value))
    else None
  }

  /** `u32::from_str`: one optional leading '+', then digits whose value fits in 32 bits. */
  function ParseU32(s: string): Option<nat> {
    var digits := if s != [] && s[0] == '+' then s[1..] else s;
    if digits != [] && Decimal.AllDigits(digits) && Decimal.Value(digits) < U32_LIMIT
    then Some(Decimal.Value(digits))
    else None
  }

  function AsnFromStr(s: string): Option<Asn> {
    match ParseU32(s)
    case None => None
    case Some(value) => AsnFromU32(value)
  }

  /** Parsing yields valid numbers only, and undoes printing for each of them. */
  lemma AsnRoundTrip(s: string, asn: Asn)
    ensures AsnFromStr(s).Some? ==> ValidAsn(AsnFromStr(s).value)
    ensures ValidAsn(asn) <==> AsnFromStr(Decimal.Print(AsU32(asn))) == Some(asn)
  {
  }

  /**
   The texts of a number: its digits with any leading zeros, and at most one '+' in front. The reserved
   numbers have none.
   */
  lemma AsnTextExact(s: string, asn: Asn)
    ensures s != "" && Decimal.AllDigits(s) ==>
              (AsnFromStr(s) == Some(asn) <==> ValidAsn(asn) && Decimal.Value(s) == AsU32(asn))
    ensures s != "" && Decimal.AllDigits(s) ==>
              (AsnFromStr(s).None?
               <==> var n := Decimal.Value(s); n == 23456 || 64496 <= n <= 131071 || n >= 4294967295)
    ensures s != "" && Decimal.AllDigits(s) ==> AsnFromStr("+" + s) == AsnFromStr(s)
    ensures AsnFromStr(s).Some? ==>
              var digits := if s[0] == '+' then s[1..] else s;
              digits != "" && Decimal.AllDigits(digits)
  {
    assert ("+" + s)[1..] == s;
    if s != "" && Decimal.AllDigits(s) {
      assert IsDigit(s[0]);
    }
  }
}

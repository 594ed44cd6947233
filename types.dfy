/** The `ScanId` newtype and its text form (types.rs). */
module Types {
  import opened Errors
  import opened Decimal

  /** The node's identifier for a registered scan: a wrapped `u64`. */
  datatype ScanId = ScanId(id: U64)

  /** `From<u64> for ScanId`. */
  function ScanIdFrom(n: U64): ScanId
  {
    ScanId(n)
  }

  /** `Into<u64> for ScanId`. */
  function ScanIdInto(s: ScanId): U64
  {
    s.id
  }

  /** Wrapping and unwrapping lose nothing, in either order. */
  lemma FromIntoLossless(n: U64, s: ScanId)
    ensures ScanIdInto(ScanIdFrom(n)) == n
    ensures ScanIdFrom(ScanIdInto(s)) == s
  {
  }

  /** The derived `Display`: the inner number in decimal. */
  function ScanIdText(s: ScanId): (t: string)
    ensures |t| > 0 && AllDigits(t) && Value(t) == s.id
  {
    ValueOfShow(s.id);
    Show(s.id)
  }

  /** `FromStr for ScanId`: the `u64` parse, any failure reported as
      `InvalidScanId` carrying the text unchanged. */
  function ParseScanId(s: string): (r: Result<ScanId>)
    ensures r.Err? ==> r.error == InvalidScanId(s)
    ensures r.Ok? ==> ParseU64(s) == Some(r.value.id)
  {
    match ParseU64(s)
    case Some(n) => Ok(ScanId(n))
    case None => Err(InvalidScanId(s))
  }

  /** Rendering an id and parsing it back gives the same id. */
  lemma DisplayParseRoundTrip(s: ScanId)
    ensures ParseScanId(ScanIdText(s)) == Ok(s)
  {
    var t := ScanIdText(s);
    assert t[0] != '+';
  }

  /** Any number of leading zeros, with or without one leading `+`, is
      accepted and denotes the same id. */
  lemma ParseScanIdAcceptsPaddedDecimal(k: nat, s: ScanId)
    ensures ParseScanId(Zeros(k) + ScanIdText(s)) == Ok(s)
    ensures ParseScanId("+" + Zeros(k) + ScanIdText(s)) == Ok(s)
  {
    var ds := Zeros(k) + ScanIdText(s);
    ValueIgnoresLeadingZeros(k, ScanIdText(s));
    assert ds[0] != '+' by { assert IsDigit(ds[0]); }
    assert ("+" + ds)[1..] == ds;
    assert "+" + Zeros(k) + ScanIdText(s) == "+" + ds;
  }

  /** The parser refuses the empty text, a lone `+`, any character other
      than a digit (except one leading `+`), and values above 2^64 - 1;
      each refusal carries the original text. */
  lemma ParseScanIdRejects(s: string)
    ensures |s| == 0 ==> ParseScanId(s) == Err(InvalidScanId(s))
    ensures s == "+" ==> ParseScanId(s) == Err(InvalidScanId(s))
    ensures (exists i :: 0 <= i < |s| && !IsDigit(s[i]) && !(i == 0 && s[i] == '+')) ==>
              ParseScanId(s) == Err(InvalidScanId(s))
    ensures var ds := if |s| > 0 && s[0] == '+' then s[1..] else s;
              AllDigits(ds) && Value(ds) > MaxU64 ==> ParseScanId(s) == Err(InvalidScanId(s))
  {
    if AllDigits(s) && |s| > 0 {
      assert s[0] != '+';
    }
  }

  /** A text without sign or padding parses exactly when it is the display
      of some id, and then to that id. */
  lemma ParseScanIdOfCanonicalText(s: string, id: ScanId)
    requires |s| > 0 && s[0] != '0' && s[0] != '+'
    ensures ParseScanId(s) == Ok(id) <==> s == ScanIdText(id)
  {
    if ParseScanId(s) == Ok(id) {
      assert AllDigits(s);
      CanonicalDigitsAreShown(s);
    }
    if s == ScanIdText(id) {
      DisplayParseRoundTrip(id);
    }
  }

  /** A digit string without a leading zero is the display of its value. */
  lemma {:induction false} CanonicalDigitsAreShown(ds: string)
    requires AllDigits(ds) && |ds| > 0 && ds[0] != '0'
    ensures Show(Value(ds)) == ds
  {
    if |ds| > 1 {
      var init := ds[..|ds| - 1];
      CanonicalDigitsAreShown(init);
      var v := Value(ds);
      assert v / 10 == Value(init) && v % 10 == DigitValue(ds[|ds| - 1]);
      assert Value(init) > 0 by { ValueAtLeastOne(init); }
    }
  }
}

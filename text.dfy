/** The two string operations of Rust's `str` that the address listing
    relies on: `split` on one character and `trim`. */
module Text {

  /** Unicode's White_Space property, which `char::is_whitespace` tests. */
  predicate IsWhitespace(c: char)
  {
    var n := c as int;
    (9 <= n <= 13) || n == 0x20 || n == 0x85 || n == 0xA0 || n == 0x1680
    || (0x2000 <= n <= 0x200A) || n == 0x2028 || n == 0x2029 || n == 0x202F
    || n == 0x205F || n == 0x3000
  }

  function TrimStart(s: string): (r: string)
    ensures |r| <= |s| && r == s[|s| - |r|..]
    ensures |r| == 0 || !IsWhitespace(r[0])
    ensures forall k :: 0 <= k < |s| - |r| ==> IsWhitespace(s[k])
  {
    if |s| > 0 && IsWhitespace(s[0]) then TrimStart(s[1..]) else s
  }

  function TrimEnd(s: string): (r: string)
    ensures |r| <= |s| && r == s[..|r|]
    ensures |r| == 0 || !IsWhitespace(r[|r| - 1])
    ensures forall k :: |r| <= k < |s| ==> IsWhitespace(s[k])
  {
    if |s| > 0 && IsWhitespace(s[|s| - 1]) then TrimEnd(s[..|s| - 1]) else s
  }

  /** `str::trim`: the text without leading and trailing white space. */
  function Trim(s: string): string
  {
    TrimEnd(TrimStart(s))
  }

  /** The trim of a text is a piece of it with no white space at either
      end. */
  lemma TrimShape(s: string)
    ensures var t := Trim(s);
      && (|t| == 0 || (!IsWhitespace(t[0]) && !IsWhitespace(t[|t| - 1])))
      && (forall c :: c in t ==> c in s)
  {
    var u := TrimStart(s);
    var t := TrimEnd(u);
    assert forall c :: c in t ==> c in u;
    assert forall c :: c in u ==> c in s;
    if |t| > 0 {
      assert t[0] == u[0];
    }
  }

  /** A text that neither starts nor ends with white space is its own
      trim. */
  lemma TrimOfTrimmed(s: string)
    requires |s| > 0 && !IsWhitespace(s[0]) && !IsWhitespace(s[|s| - 1])
    ensures Trim(s) == s
  {
  }

  /** The number of bytes the UTF-8 encoding of a character takes. */
  function Utf8Width(c: char): nat
  {
    var n := c as int;
    if n < 0x80 then 1 else if n < 0x800 then 2 else if n < 0x10000 then 3 else 4
  }

  /** `str::len`: the length in bytes of a text's UTF-8 encoding. */
  function Utf8Length(s: string): (n: nat)
    ensures n >= |s|
  {
    if |s| == 0 then 0 else Utf8Length(s[..|s| - 1]) + Utf8Width(s[|s| - 1])
  }

  /** Byte 2 of the text is a character boundary inside it, which is what
      `&s[2..]` needs not to panic: the first character takes two bytes, or
      the first two characters take one byte each. */
  predicate BoundaryAtByteTwo(s: string)
  {
    || (|s| >= 1 && Utf8Width(s[0]) == 2)
    || (|s| >= 2 && Utf8Width(s[0]) == 1 && Utf8Width(s[1]) == 1)
  }

  /** `&s[2..]`: the text after its first two bytes. */
  function AfterTwoBytes(s: string): (t: string)
    requires BoundaryAtByteTwo(s)
    ensures |t| < |s| && t == s[|s| - |t|..] && Utf8Length(s[..|s| - |t|]) == 2
  {
    assert s[..1][..0] == [];
    assert Utf8Length(s[..1]) == Utf8Width(s[0]);
    if Utf8Width(s[0]) == 2 then s[1..]
    else
      assert s[..2][..1] == s[..1];
      assert Utf8Length(s[..2]) == Utf8Width(s[0]) + Utf8Width(s[1]);
      s[2..]
  }

  /** Whatever prefix takes exactly two bytes, the slice starts right after
      it: byte 2 is then a boundary, and the slice is the rest of the text. */
  lemma {:induction false} AfterTwoBytesIsSuffix(s: string, k: nat)
    requires k <= |s| && Utf8Length(s[..k]) == 2
    ensures BoundaryAtByteTwo(s) && AfterTwoBytes(s) == s[k..]
  {
    assert Utf8Length(s[..k]) >= k;
    if k == 1 {
      assert s[..1][..0] == [];
    } else if k == 2 {
      assert s[..2][..1] == s[..1] && s[..1][..0] == [];
      assert Utf8Width(s[0]) >= 1 && Utf8Width(s[1]) >= 1;
    }
  }

  /** `str::split(d)`: the pieces between occurrences of d; n occurrences
      give n + 1 pieces. */
  function Split(s: string, d: char): (r: seq<string>)
    ensures |r| >= 1
    ensures forall k :: 0 <= k < |r| ==> d !in r[k]
  {
    if |s| == 0 then [""]
    else
      var rest := Split(s[1..], d);
      if s[0] == d then [""] + rest
      else [[s[0]] + rest[0]] + rest[1..]
  }

  /** The pieces glued back together with d between them. */
  function JoinWith(parts: seq<string>, d: char): string
    requires |parts| >= 1
  {
    if |parts| == 1 then parts[0] else parts[0] + [d] + JoinWith(parts[1..], d)
  }

  /** Splitting loses nothing: joining the pieces gives the text back. */
  lemma {:induction false} JoinSplit(s: string, d: char)
    ensures JoinWith(Split(s, d), d) == s
  {
    if |s| > 0 {
      JoinSplit(s[1..], d);
      var rest := Split(s[1..], d);
      if s[0] != d && |rest| > 1 {
        assert ([[s[0]] + rest[0]] + rest[1..])[1..] == rest[1..];
      }
    }
  }

  lemma {:induction false} SplitWithout(a: string, d: char)
    requires d !in a
    ensures Split(a, d) == [a]
  {
    if |a| > 0 {
      assert a[0] in a && a == [a[0]] + a[1..];
      SplitWithout(a[1..], d);
    }
  }

  /** A piece without d followed by d is split off whole. */
  lemma {:induction false} SplitAfterPiece(a: string, d: char, b: string)
    requires d !in a
    ensures Split(a + [d] + b, d) == [a] + Split(b, d)
  {
    if |a| > 0 {
      assert a[0] in a && a == [a[0]] + a[1..];
      SplitAfterPiece(a[1..], d, b);
      assert (a + [d] + b)[1..] == a[1..] + [d] + b;
    } else {
      assert (a + [d] + b)[1..] == b;
    }
  }

  /** Joining pieces that do not contain d and splitting again gives the
      same pieces. */
  lemma {:induction false} SplitJoin(parts: seq<string>, d: char)
    requires |parts| >= 1
    requires forall k :: 0 <= k < |parts| ==> d !in parts[k]
    ensures Split(JoinWith(parts, d), d) == parts
  {
    if |parts| == 1 {
      SplitWithout(parts[0], d);
    } else {
      SplitJoin(parts[1..], d);
      SplitAfterPiece(parts[0], d, JoinWith(parts[1..], d));
    }
  }
}

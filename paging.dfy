/** The box listings the node returns: a JSON array of entries, each with a
    `"box"` member.  Both listing loops (node_interface.rs:177-187 and
    scanning.rs:49-63) read entries 0, 1, ... and stop at the first entry
    whose `"box"` is null; they differ in what they do with an entry whose
    box does not decode. */
module Paging {
  import opened Errors
  import opened Json
  import opened Client

  /** `doc[i]["box"]`. */
  function EntryBox(doc: Json, i: nat): Json
  {
    Field(At(doc, i), "box")
  }

  /** The number of indices at which `doc` can hold a non-null box. */
  function Extent(doc: Json): nat
  {
    if doc.Arr? then |doc.items| else 0
  }

  /** The boxes of entries i, i+1, ... up to the first null one. */
  function ListedFrom(doc: Json, i: nat): (l: seq<Json>)
    ensures forall j :: 0 <= j < |l| ==> l[j] == EntryBox(doc, i + j) && l[j] != Null
    ensures EntryBox(doc, i + |l|) == Null
    decreases Extent(doc) - i
  {
    if EntryBox(doc, i) == Null then []
    else [EntryBox(doc, i)] + ListedFrom(doc, i + 1)
  }

  /** The box values of a listing, before its first null entry. */
  function ListedBoxes(doc: Json): seq<Json>
  {
    ListedFrom(doc, 0)
  }

  /** The lenient reading: every box that decodes, in listing order; the
      others are dropped without a trace. */
  function KeepDecoded(decode: string -> Decoded, xs: seq<Json>): seq<ErgoBox>
  {
    if |xs| == 0 then [] else Kept(decode, xs[0]) + KeepDecoded(decode, xs[1..])
  }

  /** What the lenient reading keeps of one box: the box, or nothing. */
  function Kept(decode: string -> Decoded, x: Json): seq<ErgoBox>
  {
    match decode(Render(x))
    case Decoded(b) => [b]
    case Rejected(_) => []
  }

  /** The message of the strict reading for a box that does not decode. */
  function BoxFailure(x: Json, reason: string): string
  {
    "Box Json: " + Render(x) + "\nError: " + reason
  }

  /** The strict reading: every box must decode, and the first that does
      not fails the whole listing. */
  function DecodeAll(decode: string -> Decoded, xs: seq<Json>): Result<seq<ErgoBox>>
  {
    if |xs| == 0 then Ok([])
    else
      match decode(Render(xs[0]))
      case Rejected(reason) => Err(FailedParsingBox(BoxFailure(xs[0], reason)))
      case Decoded(b) =>
        var rest :- DecodeAll(decode, xs[1..]);
        Ok([b] + rest)
  }

  predicate Decodes(decode: string -> Decoded, x: Json)
  {
    decode(Render(x)).Decoded?
  }

  /** The listing is exactly the boxes of the entries before the first null
      one, in index order. */
  lemma ListedBoxesStopAtFirstNull(doc: Json)
    ensures var l := ListedBoxes(doc);
      && (forall j :: 0 <= j < |l| ==> l[j] == EntryBox(doc, j) && l[j] != Null)
      && EntryBox(doc, |l|) == Null
      && |l| <= Extent(doc)
  {
    var l := ListedBoxes(doc);
    if |l| > 0 {
      assert l[|l| - 1] == EntryBox(doc, 0 + (|l| - 1));
      assert At(doc, |l| - 1) != Null;
    }
  }

  /** The lenient reading keeps a box exactly when some listed entry
      decodes to it, and never yields more boxes than entries. */
  lemma {:induction false} KeepDecodedMembers(decode: string -> Decoded, xs: seq<Json>)
    ensures |KeepDecoded(decode, xs)| <= |xs|
    ensures forall b :: b in KeepDecoded(decode, xs) <==> exists j :: 0 <= j < |xs| && decode(Render(xs[j])) == Decoded(b)
  {
    if |xs| > 0 {
      KeepDecodedMembers(decode, xs[1..]);
      forall b | (exists j :: 0 <= j < |xs| && decode(Render(xs[j])) == Decoded(b))
        ensures b in KeepDecoded(decode, xs)
      {
        var j :| 0 <= j < |xs| && decode(Render(xs[j])) == Decoded(b);
        if j > 0 { assert xs[1..][j - 1] == xs[j]; }
      }
      forall b | b in KeepDecoded(decode, xs[1..])
        ensures exists j :: 0 <= j < |xs| && decode(Render(xs[j])) == Decoded(b)
      {
        var j :| 0 <= j < |xs| - 1 && decode(Render(xs[1..][j])) == Decoded(b);
        assert xs[1..][j] == xs[j + 1];
      }
    }
  }

  /** When every entry decodes, nothing is dropped. */
  lemma {:induction false} KeepDecodedAll(decode: string -> Decoded, xs: seq<Json>)
    requires forall j :: 0 <= j < |xs| ==> Decodes(decode, xs[j])
    ensures |KeepDecoded(decode, xs)| == |xs|
    ensures forall j :: 0 <= j < |xs| ==> decode(Render(xs[j])) == Decoded(KeepDecoded(decode, xs)[j])
  {
    if |xs| > 0 {
      assert Decodes(decode, xs[0]);
      KeepDecodedAll(decode, xs[1..]);
      var k := KeepDecoded(decode, xs);
      forall j | 0 <= j < |xs| ensures decode(Render(xs[j])) == Decoded(k[j]) {
        if j > 0 { assert xs[1..][j - 1] == xs[j]; }
      }
    }
  }

  /** The lenient reading is an order-preserving filter: reading two runs
      of entries one after the other gives the two readings concatenated. */
  lemma {:induction false} KeepDecodedAppend(decode: string -> Decoded, xs: seq<Json>, ys: seq<Json>)
    ensures KeepDecoded(decode, xs + ys) == KeepDecoded(decode, xs) + KeepDecoded(decode, ys)
  {
    if |xs| > 0 {
      var k, rest, tail := Kept(decode, xs[0]), KeepDecoded(decode, xs[1..]), KeepDecoded(decode, ys);
      assert (xs + ys)[0] == xs[0] && (xs + ys)[1..] == xs[1..] + ys;
      KeepDecodedAppend(decode, xs[1..], ys);
      assert KeepDecoded(decode, xs + ys) == k + (rest + tail);
      assert k + (rest + tail) == (k + rest) + tail;
    } else {
      assert xs + ys == ys;
    }
  }

  /** The strict reading succeeds exactly when every listed box decodes,
      and then it agrees with the lenient one. */
  lemma {:induction false} DecodeAllAgreesWhenAllDecode(decode: string -> Decoded, xs: seq<Json>)
    ensures DecodeAll(decode, xs).Ok? <==> forall j :: 0 <= j < |xs| ==> Decodes(decode, xs[j])
    ensures DecodeAll(decode, xs).Ok? ==> DecodeAll(decode, xs).value == KeepDecoded(decode, xs)
  {
    if |xs| > 0 {
      DecodeAllAgreesWhenAllDecode(decode, xs[1..]);
      if !Decodes(decode, xs[0]) {
        assert DecodeAll(decode, xs).Err?;
      } else if forall j :: 0 <= j < |xs| - 1 ==> Decodes(decode, xs[1..][j]) {
        forall j | 0 <= j < |xs| ensures Decodes(decode, xs[j]) {
          if j > 0 { assert xs[j] == xs[1..][j - 1]; }
        }
      } else {
        var j :| 0 <= j < |xs| - 1 && !Decodes(decode, xs[1..][j]);
        assert xs[1..][j] == xs[j + 1];
      }
    }
  }

  /** When the strict reading fails, it names the first box that does not
      decode, with the decoder's reason. */
  lemma {:induction false} DecodeAllReportsFirstFailure(decode: string -> Decoded, xs: seq<Json>)
    requires DecodeAll(decode, xs).Err?
    ensures exists k :: (0 <= k < |xs| && decode(Render(xs[k])).Rejected?
      && (forall j :: 0 <= j < k ==> Decodes(decode, xs[j]))
      && DecodeAll(decode, xs).error == FailedParsingBox(BoxFailure(xs[k], decode(Render(xs[k])).reason)))
  {
    if decode(Render(xs[0])).Decoded? {
      DecodeAllReportsFirstFailure(decode, xs[1..]);
      var k :| 0 <= k < |xs| - 1 && decode(Render(xs[1..][k])).Rejected?
        && (forall j :: 0 <= j < k ==> Decodes(decode, xs[1..][j]))
        && DecodeAll(decode, xs[1..]).error == FailedParsingBox(BoxFailure(xs[1..][k], decode(Render(xs[1..][k])).reason));
      assert xs[1..][k] == xs[k + 1];
      forall j | 0 <= j < k + 1 ensures Decodes(decode, xs[j]) {
        if j > 0 { assert xs[j] == xs[1..][j - 1]; }
      }
    }
  }

  /** One step of the listing loop: a non-null entry lies inside the array
      and heads the rest of the listing. */
  lemma ListedFromStep(doc: Json, i: nat)
    requires EntryBox(doc, i) != Null
    ensures i < Extent(doc)
    ensures ListedFrom(doc, i) == [EntryBox(doc, i)] + ListedFrom(doc, i + 1)
  {
    assert At(doc, i) != Null;
  }

  /** The lenient reading of one more box. */
  lemma KeepDecodedCons(decode: string -> Decoded, x: Json, xs: seq<Json>)
    ensures KeepDecoded(decode, [x] + xs) == Kept(decode, x) + KeepDecoded(decode, xs)
  {
    assert ([x] + xs)[1..] == xs;
  }

  /** Regrouping the pieces a listing loop has collected so far, the piece
      of the current entry and the pieces still to come. */
  lemma ConcatAssoc<T>(a: seq<T>, b: seq<T>, c: seq<T>)
    ensures a + (b + c) == (a + b) + c
  {
  }
}

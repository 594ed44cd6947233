/** The box-selection algorithms of the node interface
    (node_interface.rs:190-259): greedy consumption until a total is
    covered, the stable sort by descending value, and the pick of the
    highest-value box. */
module BoxSelection {
  import opened Errors
  import opened Client

  /** The total value of a list of boxes (unbounded: the model does not
      wrap at 2^64). */
  function Sum(bs: seq<ErgoBox>): nat
  {
    if |bs| == 0 then 0 else Sum(bs[..|bs| - 1]) + bs[|bs| - 1].value
  }

  lemma SumPrefixStep(bs: seq<ErgoBox>, k: nat)
    requires k < |bs|
    ensures Sum(bs[..k + 1]) == Sum(bs[..k]) + bs[k].value
  {
    assert bs[..k + 1][..k] == bs[..k];
  }

  /** A longer prefix never has a smaller total. */
  lemma {:induction false} SumPrefixMonotone(bs: seq<ErgoBox>, j: nat, k: nat)
    requires j <= k <= |bs|
    ensures Sum(bs[..j]) <= Sum(bs[..k])
  {
    if j < k {
      SumPrefixMonotone(bs, j, k - 1);
      SumPrefixStep(bs, k - 1);
    }
  }

  // ---------------------------------------------------------------------
  // Greedy selection

  /** The least prefix length, from k on, whose total reaches `total`;
      |bs| if no prefix does. */
  function CoverFrom(total: nat, bs: seq<ErgoBox>, k: nat): (c: nat)
    requires k <= |bs|
    ensures k <= c <= |bs|
    ensures forall j :: k <= j < c ==> Sum(bs[..j]) < total
    ensures c < |bs| ==> Sum(bs[..c]) >= total
    decreases |bs| - k
  {
    if k == |bs| || Sum(bs[..k]) >= total then k else CoverFrom(total, bs, k + 1)
  }

  /** What the selection must produce: the shortest prefix whose total
      reaches `total`, or `InsufficientErgsBalance` when the whole list
      falls short. */
  function Selection(total: NanoErg, bs: seq<ErgoBox>): Result<seq<ErgoBox>>
  {
    if Sum(bs) < total then Err(InsufficientErgsBalance)
    else Ok(bs[..CoverFrom(total, bs, 0)])
  }

  /** `consume_boxes_until_total`: a fold that adds each box while the
      running count is below `total` and skips it afterwards. */
  method ConsumeBoxesUntilTotal(total: NanoErg, boxes: seq<ErgoBox>) returns (r: Result<seq<ErgoBox>>)
    ensures r == Selection(total, boxes)
  {
    ghost var c := CoverFrom(total, boxes, 0);
    var count: nat := 0;
    var acc: seq<ErgoBox> := [];
    var i := 0;
    while i < |boxes|
      invariant 0 <= i <= |boxes|
      invariant acc == boxes[..if i < c then i else c]
      invariant count == Sum(acc)
    {
      if count >= total {
        // already covered: the box is skipped
      } else {
        SumPrefixStep(boxes, i);
        count := count + boxes[i].value;
        acc := acc + [boxes[i]];
        assert acc == boxes[..i + 1];
      }
      i := i + 1;
    }
    if count < total {
      assert c == |boxes|;
      assert boxes[..|boxes|] == boxes;
      return Err(InsufficientErgsBalance);
    }
    if c < |boxes| {
      SumPrefixMonotone(boxes, c, |boxes|);
      assert boxes[..|boxes|] == boxes;
    }
    return Ok(acc);
  }

  /** The selection fails exactly when the boxes fall short of `total`;
      otherwise it is a prefix of the input in input order, it reaches
      `total`, and every box in it was taken while the running total was
      still below `total` (so without its last box it would fall short). */
  lemma SelectionSpec(total: NanoErg, bs: seq<ErgoBox>)
    ensures Selection(total, bs).Err? <==> Sum(bs) < total
    ensures Selection(total, bs).Err? ==> Selection(total, bs).error == InsufficientErgsBalance
    ensures Selection(total, bs).Ok? ==>
              var sel := Selection(total, bs).value;
              && |sel| <= |bs| && sel == bs[..|sel|]
              && Sum(sel) >= total
              && forall j :: 0 <= j < |sel| ==> Sum(sel[..j]) < total
    ensures total == 0 ==> Selection(total, bs) == Ok([])
  {
    if Sum(bs) >= total {
      var c := CoverFrom(total, bs, 0);
      var sel := bs[..c];
      if c == |bs| { assert sel == bs; }
      forall j | 0 <= j < c ensures Sum(sel[..j]) < total {
        assert sel[..j] == bs[..j];
      }
    }
  }

  /** The selection is the only prefix with those properties: the shortest
      prefix that reaches `total`. */
  lemma SelectionIsShortestCover(total: NanoErg, bs: seq<ErgoBox>, k: nat)
    requires k <= |bs| && Sum(bs[..k]) >= total
    requires forall j :: 0 <= j < k ==> Sum(bs[..j]) < total
    ensures Selection(total, bs) == Ok(bs[..k])
  {
    SumPrefixMonotone(bs, k, |bs|);
    assert bs[..|bs|] == bs;
    var c := CoverFrom(total, bs, 0);
    var atC, atK := Sum(bs[..c]), Sum(bs[..k]);
    assert c == k;
  }

  // ---------------------------------------------------------------------
  // Stable sort by descending value

  /** Insert b after every box whose value is at least b's. */
  function InsertDesc(sorted: seq<ErgoBox>, b: ErgoBox): (r: seq<ErgoBox>)
    ensures |r| == |sorted| + 1
  {
    if |sorted| == 0 then [b]
    else if sorted[|sorted| - 1].value >= b.value then sorted + [b]
    else InsertDesc(sorted[..|sorted| - 1], b) + [sorted[|sorted| - 1]]
  }

  lemma {:induction false} InsertDescPermutes(sorted: seq<ErgoBox>, b: ErgoBox)
    ensures multiset(InsertDesc(sorted, b)) == multiset(sorted) + multiset{b}
  {
    if |sorted| > 0 && sorted[|sorted| - 1].value < b.value {
      var init := sorted[..|sorted| - 1];
      InsertDescPermutes(init, b);
      assert sorted == init + [sorted[|sorted| - 1]];
    }
  }

  /** The boxes ordered from highest to lowest value, equal values in their
      original order: what the stable `sort_by` produces. */
  function SortDesc(bs: seq<ErgoBox>): (r: seq<ErgoBox>)
    ensures |r| == |bs|
  {
    if |bs| == 0 then [] else InsertDesc(SortDesc(bs[..|bs| - 1]), bs[|bs| - 1])
  }

  predicate SortedDesc(bs: seq<ErgoBox>)
  {
    forall i, j :: 0 <= i < j < |bs| ==> bs[i].value >= bs[j].value
  }

  /** The boxes of a list that hold exactly `v`, in list order. */
  function WithValue(bs: seq<ErgoBox>, v: nat): seq<ErgoBox>
  {
    if |bs| == 0 then []
    else WithValue(bs[..|bs| - 1], v) + (if bs[|bs| - 1].value == v then [bs[|bs| - 1]] else [])
  }

  /** Where InsertDesc puts the box: after the prefix s[..j] whose last box
      is at least as large, before the suffix of smaller boxes. */
  lemma {:induction false} InsertDescAt(s: seq<ErgoBox>, j: nat, x: ErgoBox)
    requires j <= |s|
    requires forall k :: j <= k < |s| ==> s[k].value < x.value
    requires j == 0 || s[j - 1].value >= x.value
    ensures InsertDesc(s, x) == s[..j] + [x] + s[j..]
    decreases |s|
  {
    if j < |s| {
      var init := s[..|s| - 1];
      InsertDescAt(init, j, x);
      assert init[..j] == s[..j];
      assert init[j..] + [s[|s| - 1]] == s[j..];
    } else {
      assert s[..j] == s;
    }
  }

  /** One step of insertion sort: the box at index i is moved left past
      every smaller box of the sorted prefix a[..i]. */
  method InsertAt(a: array<ErgoBox>, i: nat)
    requires i < a.Length
    modifies a
    ensures a[..i + 1] == InsertDesc(old(a[..i]), old(a[i]))
    ensures forall k :: i < k < a.Length ==> a[k] == old(a[k])
  {
    ghost var s := a[..i];
    var x := a[i];
    var j := i;
    while j > 0 && a[j - 1].value < x.value
      invariant 0 <= j <= i
      invariant forall k :: 0 <= k < j ==> a[k] == s[k]
      invariant forall k :: j < k <= i ==> a[k] == s[k - 1]
      invariant forall k :: i < k < a.Length ==> a[k] == old(a[k])
      invariant forall k :: j <= k < i ==> s[k].value < x.value
    {
      a[j] := a[j - 1];
      j := j - 1;
    }
    a[j] := x;
    InsertDescAt(s, j, x);
    ghost var t := s[..j] + [x] + s[j..];
    forall k | 0 <= k <= i ensures a[k] == t[k] {
      if k > j { assert t[k] == s[k - 1]; }
    }
    assert a[..i + 1] == t;
  }

  /** In-place insertion sort of the array by descending value. */
  method SortByValueDesc(a: array<ErgoBox>)
    modifies a
    ensures a[..] == SortDesc(old(a[..]))
  {
    ghost var input := a[..];
    var i := 0;
    while i < a.Length
      invariant 0 <= i <= a.Length
      invariant a[..i] == SortDesc(input[..i])
      invariant forall k :: i <= k < a.Length ==> a[k] == input[k]
    {
      InsertAt(a, i);
      assert input[..i + 1][..i] == input[..i];
      i := i + 1;
    }
    assert input[..a.Length] == input;
  }

  /** The sort is a permutation. */
  lemma {:induction false} SortDescPermutes(bs: seq<ErgoBox>)
    ensures multiset(SortDesc(bs)) == multiset(bs)
  {
    if |bs| > 0 {
      SortDescPermutes(bs[..|bs| - 1]);
      InsertDescPermutes(SortDesc(bs[..|bs| - 1]), bs[|bs| - 1]);
      assert bs == bs[..|bs| - 1] + [bs[|bs| - 1]];
    }
  }

  lemma {:induction false} InsertDescSorted(sorted: seq<ErgoBox>, b: ErgoBox)
    requires SortedDesc(sorted)
    ensures SortedDesc(InsertDesc(sorted, b))
  {
    if |sorted| > 0 && sorted[|sorted| - 1].value < b.value {
      var init := sorted[..|sorted| - 1];
      var last := sorted[|sorted| - 1];
      InsertDescSorted(init, b);
      InsertDescPermutes(init, b);
      var r := InsertDesc(init, b);
      forall k | 0 <= k < |r| ensures r[k].value >= last.value {
        assert r[k] in multiset(r);
        assert r[k] in multiset(init) || r[k] == b;
        if r[k] != b {
          var m :| 0 <= m < |init| && init[m] == r[k];
        }
      }
    }
  }

  /** The sort orders the boxes from highest to lowest value. */
  lemma {:induction false} SortDescSorted(bs: seq<ErgoBox>)
    ensures SortedDesc(SortDesc(bs))
  {
    if |bs| > 0 {
      SortDescSorted(bs[..|bs| - 1]);
      InsertDescSorted(SortDesc(bs[..|bs| - 1]), bs[|bs| - 1]);
    }
  }

  lemma {:induction false} WithValueInsert(sorted: seq<ErgoBox>, b: ErgoBox, v: nat)
    ensures WithValue(InsertDesc(sorted, b), v) == WithValue(sorted, v) + (if b.value == v then [b] else [])
  {
    if |sorted| == 0 {
      assert [b][..0] == [];
    } else if sorted[|sorted| - 1].value >= b.value {
      assert (sorted + [b])[..|sorted|] == sorted;
    } else {
      var init := sorted[..|sorted| - 1];
      var last := sorted[|sorted| - 1];
      WithValueInsert(init, b, v);
      var r := InsertDesc(init, b) + [last];
      assert r[..|r| - 1] == InsertDesc(init, b);
    }
  }

  /** The sort is stable: for every value, the boxes holding it appear in
      the same relative order as in the input. */
  lemma {:induction false} SortDescStable(bs: seq<ErgoBox>, v: nat)
    ensures WithValue(SortDesc(bs), v) == WithValue(bs, v)
  {
    if |bs| > 0 {
      SortDescStable(bs[..|bs| - 1], v);
      WithValueInsert(SortDesc(bs[..|bs| - 1]), bs[|bs| - 1], v);
    }
  }

  // ---------------------------------------------------------------------
  // Highest-value box

  /** b is the first box of the list whose value is the largest. */
  predicate IsFirstHighest(bs: seq<ErgoBox>, b: ErgoBox)
  {
    && (forall j :: 0 <= j < |bs| ==> bs[j].value <= b.value)
    && exists k :: 0 <= k < |bs| && bs[k] == b && forall j :: 0 <= j < k ==> bs[j].value < b.value
  }

  /** The search of `highest_value_unspent_box`: a fold for the largest
      value (starting at 0), then a scan for the first box holding it. */
  method HighestValue(boxes: seq<ErgoBox>) returns (r: Result<ErgoBox>)
    ensures r.Err? <==> boxes == []
    ensures r.Err? ==> r.error == NoBoxesFound
    ensures r.Ok? ==> IsFirstHighest(boxes, r.value)
  {
    var highest := 0;
    var i := 0;
    while i < |boxes|
      invariant 0 <= i <= |boxes|
      invariant forall j :: 0 <= j < i ==> boxes[j].value <= highest
      invariant highest == 0 || exists j :: 0 <= j < i && boxes[j].value == highest
    {
      if boxes[i].value > highest {
        highest := boxes[i].value;
      }
      i := i + 1;
    }
    i := 0;
    while i < |boxes|
      invariant 0 <= i <= |boxes|
      invariant forall j :: 0 <= j < i ==> boxes[j].value < highest
      invariant forall j :: 0 <= j < |boxes| ==> boxes[j].value <= highest
      invariant highest == 0 || exists j :: 0 <= j < |boxes| && boxes[j].value == highest
    {
      if boxes[i].value == highest {
        return Ok(boxes[i]);
      }
      i := i + 1;
    }
    assert |boxes| > 0 ==> boxes[0].value < highest && highest > 0;
    return Err(NoBoxesFound);
  }
}

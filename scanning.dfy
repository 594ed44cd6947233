/** UTXO-set scans (scanning.rs): registering and deregistering a scan,
    listing the boxes a scan found, and adding a box to a scan by hand. */
module Scanning {
  import opened Errors
  import opened Decimal
  import opened Json
  import opened Types
  import opened Client
  import opened Requests
  import opened Paging
  import opened Node

  const RegisterEndpoint: string := "/scan/register"
  const DeregisterEndpoint: string := "/scan/deregister"
  const ScanBoxesEndpoint: string := "/scan/unspentBoxes/"
  const AddBoxEndpoint: string := "/scan/addBox"

  /** How registration and deregistration read the node's reply: an
      `"error"` member that is not null is a rejection carrying its
      rendering; otherwise the rendered `"scanId"` must parse as an id. */
  function ScanIdReply(doc: Json): (r: Result<ScanId>)
    ensures r.Ok? ==> Field(doc, "error") == Null && ParseU64(Render(Field(doc, "scanId"))) == Some(r.value.id)
    ensures Field(doc, "error") == Null && ParseU64(Render(Field(doc, "scanId"))).Some? ==> r.Ok?
    ensures r.Err? ==>
              || (Field(doc, "error") != Null && r.error == BadRequest(Render(Field(doc, "error"))))
              || (Field(doc, "error") == Null && r.error == InvalidScanId(Render(Field(doc, "scanId"))))
  {
    var error := Field(doc, "error");
    if error == Null then ParseScanId(Render(Field(doc, "scanId")))
    else Err(BadRequest(Render(error)))
  }

  /** A reply without an error whose `"scanId"` is a number in range gives
      that id. */
  lemma ScanIdReplyOfNumber(doc: Json, id: ScanId)
    requires Field(doc, "error") == Null && Field(doc, "scanId") == Num(id.id)
    ensures ScanIdReply(doc) == Ok(id)
  {
    assert Render(Num(id.id)) == ScanIdText(id);
    DisplayParseRoundTrip(id);
  }

  /** A reply with an error is a rejection whatever else it holds; an error
      given as a string is reported without quotes. */
  lemma ScanIdReplyOfError(doc: Json, message: string)
    requires Field(doc, "error") == Str(message)
    ensures ScanIdReply(doc) == Err(BadRequest(message))
  {
  }

  /** Without an error, a missing `"scanId"` renders as "null" and is an
      invalid id; so is a `"scanId"` given as a negative number. */
  lemma ScanIdReplyOfBadId(doc: Json)
    requires Field(doc, "error") == Null
    ensures Field(doc, "scanId") == Null ==> ScanIdReply(doc) == Err(InvalidScanId("null"))
    ensures Field(doc, "scanId").Num? && Field(doc, "scanId").n < 0 ==>
              ScanIdReply(doc) == Err(InvalidScanId(Render(Field(doc, "scanId"))))
  {
    var t := Render(Field(doc, "scanId"));
    if Field(doc, "scanId") == Null {
      assert t == "null" && !IsDigit(t[0]);
    }
    if Field(doc, "scanId").Num? && Field(doc, "scanId").n < 0 {
      assert t[0] == '-';
    }
  }

  /** `register_scan`: the scan definition serialised by serde_json is
      posted; the reply gives the new scan's id. */
  function RegisterScan(ni: NodeInterface, env: Env, scanJson: Json): Result<ScanId>
  {
    var doc :- FetchPost(ni, env, RegisterEndpoint, env.serdeText(scanJson));
    ScanIdReply(doc)
  }

  /** `generate_deregister_scan_json`: the pretty-printed object with the
      single member `scanId`. */
  function DeregisterBody(id: ScanId): string
  {
    "{\n  \"scanId\": " + ScanIdText(id) + "\n}"
  }

  /** The body for id 100, as the source's own test fixes it. */
  lemma DeregisterBodyOf100()
    ensures DeregisterBody(ScanId(100)) == "{\n  \"scanId\": 100\n}"
  {
    assert Show(100) == Show(10) + [DigitChar(0)];
    assert Show(10) == Show(1) + [DigitChar(0)];
  }

  /** Distinct scans are deregistered with distinct bodies. */
  lemma DeregisterBodyInjective(a: ScanId, b: ScanId)
    requires DeregisterBody(a) == DeregisterBody(b)
    ensures a == b
  {
    var prefix := "{\n  \"scanId\": ";
    var ta, tb := ScanIdText(a), ScanIdText(b);
    assert DeregisterBody(a)[|prefix|..|prefix| + |ta|] == ta;
    assert |DeregisterBody(a)| == |prefix| + |ta| + 2;
    assert |ta| == |tb|;
    assert DeregisterBody(b)[|prefix|..|prefix| + |tb|] == tb;
  }

  /** `deregister_scan`: posts the id; the reply gives the removed scan's
      id. */
  function DeregisterScan(ni: NodeInterface, env: Env, id: ScanId): Result<ScanId>
  {
    var doc :- FetchPost(ni, env, DeregisterEndpoint, DeregisterBody(id));
    ScanIdReply(doc)
  }

  /** Deregistration sends exactly the deregister body to the deregister
      endpoint: its result depends on the node's answer to that one
      request and on nothing else the node would say. */
  lemma DeregisterScanSendsItsBody(ni: NodeInterface, env: Env, env2: Env, id: ScanId)
    requires env2.transport(Post(NodeUrl(ni) + DeregisterEndpoint, DeregisterBody(id)))
             == env.transport(Post(NodeUrl(ni) + DeregisterEndpoint, DeregisterBody(id)))
    requires env2.parseJson == env.parseJson
    ensures DeregisterScan(ni, env2, id) == DeregisterScan(ni, env, id)
  {
  }

  /** A node that accepts a registration (or a deregistration) by replying
      `{"scanId": n}` gives back scan n. */
  lemma ScanReplyRoundTrip(ni: NodeInterface, env: Env, scanJson: Json, id: ScanId, text: string)
    requires env.parseJson(text) == Some(Obj([Member("scanId", Num(id.id))]))
    requires env.transport(Post(NodeUrl(ni) + RegisterEndpoint, env.serdeText(scanJson))) == Received(Text(text))
    requires env.transport(Post(NodeUrl(ni) + DeregisterEndpoint, DeregisterBody(id))) == Received(Text(text))
    ensures RegisterScan(ni, env, scanJson) == Ok(id)
    ensures DeregisterScan(ni, env, id) == Ok(id)
  {
    ScanIdReplyOfNumber(Obj([Member("scanId", Num(id.id))]), id);
  }

  // ---------------------------------------------------------------------
  // Boxes found by a scan

  function ScanBoxesSpec(ni: NodeInterface, env: Env, id: ScanId): Result<seq<ErgoBox>>
  {
    var doc :- FetchGet(ni, env, ScanBoxesEndpoint + ScanIdText(id));
    DecodeAll(env.decodeBox, ListedBoxes(doc))
  }

  /** `boxes` in front of a successful reading; a failure unchanged. */
  function Prepend(boxes: seq<ErgoBox>, r: Result<seq<ErgoBox>>): Result<seq<ErgoBox>>
  {
    match r
    case Ok(rest) => Ok(boxes + rest)
    case Err(e) => Err(e)
  }

  /** `scan_boxes`: walks the entries until the first null box; every box
      must decode, and the first one that does not fails the call. */
  method ScanBoxes(ni: NodeInterface, env: Env, id: ScanId) returns (r: Result<seq<ErgoBox>>)
    ensures r == ScanBoxesSpec(ni, env, id)
  {
    var fetched := FetchGet(ni, env, ScanBoxesEndpoint + ScanIdText(id));
    if fetched.Err? {
      return Err(fetched.error);
    }
    var doc := fetched.value;
    var boxList: seq<ErgoBox> := [];
    var i: nat := 0;
    ghost var all := DecodeAll(env.decodeBox, ListedBoxes(doc));
    assert all.Ok? ==> [] + all.value == all.value;
    while EntryBox(doc, i) != Null
      invariant Prepend(boxList, DecodeAll(env.decodeBox, ListedFrom(doc, i))) == DecodeAll(env.decodeBox, ListedBoxes(doc))
      decreases Extent(doc) - i
    {
      var boxJson := EntryBox(doc, i);
      ListedFromStep(doc, i);
      var rest := ListedFrom(doc, i + 1);
      assert ([boxJson] + rest)[0] == boxJson && ([boxJson] + rest)[1..] == rest;
      match env.decodeBox(Render(boxJson)) {
        case Decoded(b) =>
          PrependAssoc(boxList, [b], DecodeAll(env.decodeBox, rest));
          boxList := boxList + [b];
        case Rejected(reason) =>
          return Err(FailedParsingBox(BoxFailure(boxJson, reason)));
      }
      i := i + 1;
    }
    assert ListedFrom(doc, i) == [];
    assert boxList + [] == boxList;
    return Ok(boxList);
  }

  /** Prepending two runs of boxes one after the other is prepending them
      together. */
  lemma PrependAssoc(a: seq<ErgoBox>, b: seq<ErgoBox>, r: Result<seq<ErgoBox>>)
    ensures Prepend(a, Prepend(b, r)) == Prepend(a + b, r)
  {
    if r.Ok? {
      ConcatAssoc(a, b, r.value);
    }
  }

  // ---------------------------------------------------------------------
  // Adding a box to a scan

  /** The body of `add_box_to_scan` before serialisation: the scan's id in
      a one-element array and the box's serialised JSON as a string. */
  function AddBoxBody(id: ScanId, boxText: string): Json
  {
    Obj([Member("scanIds", Arr([Num(id.id)])), Member("box", Str(boxText))])
  }

  /** `add_box_to_scan`: fetches the box, serialises it, posts it with the
      scan's id; the reply rendered as text is the result unless it holds a
      non-null `"error"`. */
  function AddBoxToScan(ni: NodeInterface, env: Env, id: ScanId, boxId: string): (r: Result<string>)
  {
    var ergoBox :- BoxFromId(ni, env, boxId);
    var boxText :- match env.boxText(ergoBox)
                   case None => Err(FailedParsingBox(boxId))
                   case Some(t) => Ok(t);
    var doc :- FetchPost(ni, env, AddBoxEndpoint, env.serdeText(AddBoxBody(id, boxText)));
    var error := Field(doc, "error");
    if error == Null then Ok(Render(doc)) else Err(BadRequest(Render(error)))
  }

  /** The body names exactly one scan, `[id]`, and carries the box text;
      distinct scans or distinct boxes give distinct bodies. */
  lemma AddBoxBodyFields(a: ScanId, ta: string, b: ScanId, tb: string)
    ensures Field(AddBoxBody(a, ta), "scanIds") == Arr([Num(a.id)])
    ensures Field(AddBoxBody(a, ta), "box") == Str(ta)
    ensures AddBoxBody(a, ta) == AddBoxBody(b, tb) ==> a == b && ta == tb
  {
    var ms := AddBoxBody(a, ta).members;
    assert ms[0].key != "box";
    assert Lookup(ms, "box") == Lookup(ms[1..], "box");
    if AddBoxBody(a, ta) == AddBoxBody(b, tb) {
      assert AddBoxBody(a, ta).members[0].value.items[0] == Num(a.id);
      assert AddBoxBody(b, tb).members[0].value.items[0] == Num(b.id);
    }
  }

  /** Once the box is posted, a reply without an error is returned rendered
      as text, and one with an error is a rejection carrying it. */
  lemma AddBoxToScanReply(ni: NodeInterface, env: Env, id: ScanId, boxId: string, b: ErgoBox, text: string, doc: Json)
    requires BoxFromId(ni, env, boxId) == Ok(b) && env.boxText(b) == Some(text)
    requires FetchPost(ni, env, AddBoxEndpoint, env.serdeText(AddBoxBody(id, text))) == Ok(doc)
    ensures AddBoxToScan(ni, env, id, boxId).Ok? <==> Field(doc, "error") == Null
    ensures Field(doc, "error") == Null ==> AddBoxToScan(ni, env, id, boxId) == Ok(Render(doc))
    ensures Field(doc, "error") != Null ==> AddBoxToScan(ni, env, id, boxId) == Err(BadRequest(Render(Field(doc, "error"))))
  {
  }

  /** When the box cannot be fetched, serialised or decoded, nothing is
      posted: the result is the same whatever the node would answer to the
      post, and it is the lookup's failure. */
  lemma AddBoxToScanStopsBeforePost(ni: NodeInterface, env: Env, env2: Env, id: ScanId, boxId: string)
    requires env2.transport(Get(NodeUrl(ni) + BoxByIdEndpoint + boxId)) == env.transport(Get(NodeUrl(ni) + BoxByIdEndpoint + boxId))
    requires env2.parseJson == env.parseJson && env2.decodeBox == env.decodeBox
    requires env2.pretty == env.pretty && env2.boxText == env.boxText
    requires BoxFromId(ni, env, boxId).Err? || env.boxText(BoxFromId(ni, env, boxId).value).None?
    ensures AddBoxToScan(ni, env2, id, boxId) == AddBoxToScan(ni, env, id, boxId)
    ensures BoxFromId(ni, env, boxId).Err? ==> AddBoxToScan(ni, env, id, boxId) == Err(BoxFromId(ni, env, boxId).error)
    ensures BoxFromId(ni, env, boxId).Ok? ==> AddBoxToScan(ni, env, id, boxId) == Err(FailedParsingBox(boxId))
  {
    assert NodeUrl(ni) + (BoxByIdEndpoint + boxId) == NodeUrl(ni) + BoxByIdEndpoint + boxId;
    assert BoxFromId(ni, env2, boxId) == BoxFromId(ni, env, boxId);
  }
}

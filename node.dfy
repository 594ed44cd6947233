/** The `NodeInterface` operations of node_interface.rs: wallet listings,
    the box-selection entry points, address extraction, the register
    encoding of public keys, the balance and height queries, and the JSON
    transaction operations as that file defines them. */
module Node {
  import opened Errors
  import opened Decimal
  import opened Json
  import opened Text
  import opened Client
  import opened Requests
  import opened Paging
  import opened BoxSelection

  const WalletAddressesEndpoint: string := "/wallet/addresses"
  const UnspentBoxesEndpoint: string := "/wallet/boxes/unspent?minConfirmations=0&minInclusionHeight=0"
  const BalancesEndpoint: string := "/wallet/balances"
  const InfoEndpoint: string := "/info"
  const AddressToRawEndpoint: string := "/utils/addressToRaw/"
  const RawToAddressEndpoint: string := "/utils/rawToAddress/"
  const BoxByIdEndpoint: string := "/utxo/byId/"
  const SubmitEndpoint: string := "/transactions"
  const GenerateEndpoint: string := "/wallet/transaction/generate"
  const SignEndpoint: string := "/wallet/transaction/sign"
  const SendEndpoint: string := "/wallet/transaction/send"

  // ---------------------------------------------------------------------
  // Unspent boxes of the wallet

  /** What `unspent_boxes` returns: the wallet listing read leniently. */
  function UnspentBoxesSpec(ni: NodeInterface, env: Env): Result<seq<ErgoBox>>
  {
    var doc :- FetchGet(ni, env, UnspentBoxesEndpoint);
    Ok(KeepDecoded(env.decodeBox, ListedBoxes(doc)))
  }

  /** `unspent_boxes`: walks the entries until the first null box, keeping
      each box that decodes and dropping the others. */
  method UnspentBoxes(ni: NodeInterface, env: Env) returns (r: Result<seq<ErgoBox>>)
    ensures r == UnspentBoxesSpec(ni, env)
  {
    var fetched := FetchGet(ni, env, UnspentBoxesEndpoint);
    if fetched.Err? {
      return Err(fetched.error);
    }
    var doc := fetched.value;
    var boxList: seq<ErgoBox> := [];
    var i: nat := 0;
    while EntryBox(doc, i) != Null
      invariant boxList + KeepDecoded(env.decodeBox, ListedFrom(doc, i)) == KeepDecoded(env.decodeBox, ListedBoxes(doc))
      decreases Extent(doc) - i
    {
      var boxJson := EntryBox(doc, i);
      ListedFromStep(doc, i);
      KeepDecodedCons(env.decodeBox, boxJson, ListedFrom(doc, i + 1));
      ghost var before, kept, rest := boxList, Kept(env.decodeBox, boxJson), KeepDecoded(env.decodeBox, ListedFrom(doc, i + 1));
      match env.decodeBox(Render(boxJson)) {
        case Decoded(b) => boxList := boxList + [b];
        case Rejected(_) =>
      }
      assert boxList == before + kept;
      ConcatAssoc(before, kept, rest);
      i := i + 1;
    }
    assert ListedFrom(doc, i) == [];
    assert boxList + [] == boxList;
    return Ok(boxList);
  }

  /** `unspent_boxes_sorted`: the wallet's boxes, highest value first. */
  method UnspentBoxesSorted(ni: NodeInterface, env: Env) returns (r: Result<seq<ErgoBox>>)
    ensures r == (match UnspentBoxesSpec(ni, env)
                  case Ok(bs) => Ok(SortDesc(bs))
                  case Err(e) => Err(e))
  {
    var boxes :- UnspentBoxes(ni, env);
    var a := new ErgoBox[|boxes|](i requires 0 <= i < |boxes| => boxes[i]);
    assert a[..] == boxes;
    SortByValueDesc(a);
    return Ok(a[..]);
  }

  /** `unspent_boxes_with_min_total`: the largest boxes first, until the
      total is covered. */
  method UnspentBoxesWithMinTotal(ni: NodeInterface, env: Env, total: NanoErg) returns (r: Result<seq<ErgoBox>>)
    ensures r == (match UnspentBoxesSpec(ni, env)
                  case Ok(bs) => Selection(total, SortDesc(bs))
                  case Err(e) => Err(e))
  {
    var sorted :- UnspentBoxesSorted(ni, env);
    r := ConsumeBoxesUntilTotal(total, sorted);
  }

  /** `unspent_boxes_with_min_total_by_age`: the wallet's own order, until
      the total is covered. */
  method UnspentBoxesWithMinTotalByAge(ni: NodeInterface, env: Env, total: NanoErg) returns (r: Result<seq<ErgoBox>>)
    ensures r == (match UnspentBoxesSpec(ni, env)
                  case Ok(bs) => Selection(total, bs)
                  case Err(e) => Err(e))
  {
    var boxes :- UnspentBoxes(ni, env);
    r := ConsumeBoxesUntilTotal(total, boxes);
  }

  /** `highest_value_unspent_box`: the first of the wallet's boxes holding
      the largest value, `NoBoxesFound` for an empty wallet. */
  method HighestValueUnspentBox(ni: NodeInterface, env: Env) returns (r: Result<ErgoBox>)
    ensures UnspentBoxesSpec(ni, env).Err? ==> r == Err(UnspentBoxesSpec(ni, env).error)
    ensures UnspentBoxesSpec(ni, env).Ok? ==>
              var bs := UnspentBoxesSpec(ni, env).value;
              && (r.Err? <==> bs == [])
              && (r.Err? ==> r.error == NoBoxesFound)
              && (r.Ok? ==> IsFirstHighest(bs, r.value))
  {
    var boxes :- UnspentBoxes(ni, env);
    r := HighestValue(boxes);
  }

  // ---------------------------------------------------------------------
  // Wallet addresses

  /** Each piece between quotes, trimmed. */
  function Trimmed(segments: seq<string>): seq<string>
  {
    seq(|segments|, k requires 0 <= k < |segments| => Trim(segments[k]))
  }

  /** No piece of the text between quotes is blank once trimmed: the
      extraction takes the first character of each trimmed piece
      unconditionally. */
  predicate NoBlankSegment(text: string)
  {
    "" !in Trimmed(Split(text, '"'))
  }

  /** The pieces that start with '9' (a mainnet P2PK address), in order. */
  function AddressesIn(pieces: seq<string>): seq<string>
  {
    if |pieces| == 0 then [] else AddressOf(pieces[0]) + AddressesIn(pieces[1..])
  }

  /** What one trimmed piece contributes: itself when it starts with '9'. */
  function AddressOf(p: string): seq<string>
  {
    if |p| > 0 && p[0] == '9' then [p] else []
  }

  /** The address listing can be handled without a panic: the node is
      unreachable, or its reply is text without blank pieces. */
  predicate AddressReplyHandled(ni: NodeInterface, env: Env)
  {
    match env.transport(Get(NodeUrl(ni) + WalletAddressesEndpoint))
    case Unreachable => true
    case Received(resp) => resp.Text? && NoBlankSegment(resp.body)
  }

  function WalletAddressesSpec(ni: NodeInterface, env: Env): Result<seq<string>>
    requires AddressReplyHandled(ni, env)
  {
    var resp :- SendGetReq(ni, env, WalletAddressesEndpoint);
    var addresses := AddressesIn(Trimmed(Split(resp.body, '"')));
    if |addresses| == 0 then Err(NoAddressesInWallet) else Ok(addresses)
  }

  /** `wallet_addresses`: splits the raw reply on '"' and keeps the trimmed
      pieces that start with '9'. */
  method WalletAddresses(ni: NodeInterface, env: Env) returns (r: Result<seq<string>>)
    requires AddressReplyHandled(ni, env)
    ensures r == WalletAddressesSpec(ni, env)
  {
    var resp :- SendGetReq(ni, env, WalletAddressesEndpoint);
    var addresses := CollectAddresses(Split(resp.body, '"'));
    if |addresses| == 0 {
      return Err(NoAddressesInWallet);
    }
    return Ok(addresses);
  }

  /** The loop of `wallet_addresses`: each piece between quotes is trimmed
      and kept when it starts with '9'. */
  method CollectAddresses(segments: seq<string>) returns (addresses: seq<string>)
    requires "" !in Trimmed(segments)
    ensures addresses == AddressesIn(Trimmed(segments))
  {
    ghost var pieces := Trimmed(segments);
    addresses := [];
    var k := 0;
    while k < |segments|
      invariant 0 <= k <= |segments|
      invariant addresses + AddressesIn(pieces[k..]) == AddressesIn(pieces)
    {
      var seg := Trim(segments[k]);
      assert seg == pieces[k] && pieces[k] in pieces;
      ghost var before := addresses;
      if seg[0] == '9' {
        addresses := addresses + [seg];
      }
      AddressesInStep(before, addresses, pieces, k);
      k := k + 1;
    }
    assert addresses + [] == addresses;
  }

  /** One step of the extraction loop: appending what piece k contributes
      keeps the collected addresses plus those still to come unchanged. */
  lemma AddressesInStep(before: seq<string>, after: seq<string>, pieces: seq<string>, k: nat)
    requires k < |pieces| && after == before + AddressOf(pieces[k])
    ensures after + AddressesIn(pieces[k + 1..]) == before + AddressesIn(pieces[k..])
  {
    assert pieces[k..][1..] == pieces[k + 1..];
    ConcatAssoc(before, AddressOf(pieces[k]), AddressesIn(pieces[k + 1..]));
  }

  /** Exactly the pieces that start with '9' are kept: nothing else, and no
      such piece is lost. */
  lemma {:induction false} AddressesInMember(pieces: seq<string>, a: string)
    ensures a in AddressesIn(pieces) <==> a in pieces && |a| > 0 && a[0] == '9'
  {
    if |pieces| > 0 {
      AddressesInMember(pieces[1..], a);
      assert pieces == [pieces[0]] + pieces[1..];
    }
  }

  /** The extraction is an order-preserving filter: the addresses of two
      runs of pieces are those of the first followed by those of the
      second. */
  lemma {:induction false} AddressesInAppend(xs: seq<string>, ys: seq<string>)
    ensures AddressesIn(xs + ys) == AddressesIn(xs) + AddressesIn(ys)
  {
    if |xs| > 0 {
      assert (xs + ys)[1..] == xs[1..] + ys;
      AddressesInAppend(xs[1..], ys);
      ConcatAssoc(AddressOf(xs[0]), AddressesIn(xs[1..]), AddressesIn(ys));
    } else {
      assert xs + ys == ys;
    }
  }

  /** An extracted address is a trimmed piece of the reply that starts
      with '9', so it has no white space at either end, and it holds no
      quote when no piece does (as `Split` on '"' guarantees). */
  lemma ExtractedAddressesAreTrimmedPieces(segments: seq<string>, a: string)
    requires a in AddressesIn(Trimmed(segments))
    ensures exists k :: 0 <= k < |segments| && Trim(segments[k]) == a
    ensures |a| > 0 && a[0] == '9' && !IsWhitespace(a[|a| - 1])
    ensures (forall k :: 0 <= k < |segments| ==> '"' !in segments[k]) ==> '"' !in a
  {
    AddressesInMember(Trimmed(segments), a);
    var k :| 0 <= k < |segments| && Trimmed(segments)[k] == a;
    TrimShape(segments[k]);
  }

  /** Text the node can list as an address: non-empty, starting with '9',
      free of quotes and without white space at its end (base58 text). */
  predicate PlainAddress(a: string)
  {
    |a| > 0 && a[0] == '9' && '"' !in a && !IsWhitespace(a[|a| - 1])
  }

  /** The pieces between quotes of the listing `["a1","a2",...,"an"]`. */
  function ListingPieces(addrs: seq<string>): seq<string>
    requires |addrs| > 0
  {
    ["["] + QuotedPieces(addrs)
  }

  function QuotedPieces(addrs: seq<string>): seq<string>
    requires |addrs| > 0
  {
    if |addrs| == 1 then [addrs[0], "]"] else [addrs[0], ","] + QuotedPieces(addrs[1..])
  }

  /** The listing `["a1","a2",...,"an"]` as the node sends it. */
  function ListingText(addrs: seq<string>): string
    requires |addrs| > 0
  {
    JoinWith(ListingPieces(addrs), '"')
  }

  /** A listing's pieces after "[" are its addresses and the separators. */
  lemma {:induction false} QuotedPiecesFrom(addrs: seq<string>)
    requires |addrs| > 0
    ensures forall p :: p in QuotedPieces(addrs) ==> p in addrs || p == "," || p == "]"
  {
    if |addrs| > 1 {
      QuotedPiecesFrom(addrs[1..]);
      assert forall p :: p in addrs[1..] ==> p in addrs;
    }
  }

  /** The separators of a listing contribute no address; each quoted
      address contributes itself. */
  lemma {:induction false} AddressesOfQuoted(addrs: seq<string>)
    requires |addrs| > 0 && forall i :: 0 <= i < |addrs| ==> |addrs[i]| > 0 && addrs[i][0] == '9'
    ensures AddressesIn(QuotedPieces(addrs)) == addrs
  {
    var a := addrs[0];
    assert AddressOf(a) == [a];
    if |addrs| == 1 {
      assert [a, "]"][1..] == ["]"];
      assert ["]"][1..] == [];
    } else {
      var rest := QuotedPieces(addrs[1..]);
      AddressesOfQuoted(addrs[1..]);
      assert ([a, ","] + rest)[1..] == [","] + rest;
      assert ([","] + rest)[1..] == rest;
      assert addrs == [a] + addrs[1..];
    }
  }

  /** Every piece of a listing of plain addresses is free of quotes, its
      own trim and not blank. */
  lemma ListingPiecesArePlain(addrs: seq<string>)
    requires |addrs| > 0 && forall i :: 0 <= i < |addrs| ==> PlainAddress(addrs[i])
    ensures forall k :: 0 <= k < |ListingPieces(addrs)| ==>
              var p := ListingPieces(addrs)[k];
              '"' !in p && Trim(p) == p && p != ""
  {
    var pieces := ListingPieces(addrs);
    QuotedPiecesFrom(addrs);
    forall k | 0 <= k < |pieces|
      ensures '"' !in pieces[k] && Trim(pieces[k]) == pieces[k] && pieces[k] != ""
    {
      var p := pieces[k];
      assert p == "[" || p in QuotedPieces(addrs);
      if p in addrs {
        var i :| 0 <= i < |addrs| && addrs[i] == p;
        assert PlainAddress(addrs[i]);
      }
      TrimOfTrimmed(p);
    }
  }

  /** Splitting a listing of plain addresses on quotes and trimming gives
      back its pieces, and the pieces starting with '9' are the addresses. */
  lemma ListingSplitsIntoAddresses(addrs: seq<string>)
    requires |addrs| > 0 && forall i :: 0 <= i < |addrs| ==> PlainAddress(addrs[i])
    ensures Trimmed(Split(ListingText(addrs), '"')) == ListingPieces(addrs)
    ensures AddressesIn(ListingPieces(addrs)) == addrs
  {
    var pieces := ListingPieces(addrs);
    ListingPiecesArePlain(addrs);
    SplitJoin(pieces, '"');
    assert Trimmed(pieces) == pieces;
    AddressesOfQuoted(addrs);
    assert pieces[1..] == QuotedPieces(addrs);
    assert AddressOf("[") == [];
  }

  /** A wallet whose reply lists its addresses as a JSON array of strings
      gets back exactly those addresses, in order. */
  lemma WalletAddressesOfListing(ni: NodeInterface, env: Env, addrs: seq<string>)
    requires |addrs| > 0 && forall i :: 0 <= i < |addrs| ==> PlainAddress(addrs[i])
    requires env.transport(Get(NodeUrl(ni) + WalletAddressesEndpoint)) == Received(Text(ListingText(addrs)))
    ensures AddressReplyHandled(ni, env)
    ensures WalletAddressesSpec(ni, env) == Ok(addrs)
  {
    ListingSplitsIntoAddresses(addrs);
    ListingPiecesArePlain(addrs);
  }

  /** A wallet whose reply is the empty array has no addresses. */
  lemma WalletAddressesOfEmptyListing(ni: NodeInterface, env: Env)
    requires env.transport(Get(NodeUrl(ni) + WalletAddressesEndpoint)) == Received(Text("[]"))
    ensures AddressReplyHandled(ni, env)
    ensures WalletAddressesSpec(ni, env) == Err(NoAddressesInWallet)
  {
    SplitWithout("[]", '"');
    TrimOfTrimmed("[]");
    assert Trimmed(["[]"]) == ["[]"];
    assert ["[]"][1..] == [];
  }

  // ---------------------------------------------------------------------
  // Public keys in registers

  /** `p2pk_to_raw`: the node's raw EC point for an address. */
  function P2pkToRaw(ni: NodeInterface, env: Env, address: string): Result<string>
  {
    var doc :- FetchGet(ni, env, AddressToRawEndpoint + address);
    Ok(Render(Field(doc, "raw")))
  }

  /** `p2pk_to_raw_for_register`: the raw point with the type prefix "07". */
  function P2pkToRawForRegister(ni: NodeInterface, env: Env, address: string): (r: Result<string>)
    ensures P2pkToRaw(ni, env, address).Err? ==> r == P2pkToRaw(ni, env, address)
    ensures P2pkToRaw(ni, env, address).Ok? ==> r.Ok? && |r.value| >= 2 && r.value[..2] == "07" && r.value[2..] == P2pkToRaw(ni, env, address).value
  {
    var raw :- P2pkToRaw(ni, env, address);
    Ok("07" + raw)
  }

  /** `raw_to_p2pk`: the node's address for a raw EC point. */
  function RawToP2pk(ni: NodeInterface, env: Env, raw: string): Result<string>
  {
    var doc :- FetchGet(ni, env, RawToAddressEndpoint + raw);
    Ok(Render(Field(doc, "address")))
  }

  /** `raw_from_register_to_p2pk`: drops the two type bytes and looks up
      the rest.  The source slices at byte 2, which panics unless that byte
      is a character boundary inside the text. */
  function RawFromRegisterToP2pk(ni: NodeInterface, env: Env, typedRaw: string): (r: Result<string>)
    requires BoundaryAtByteTwo(typedRaw)
    ensures forall k :: 0 <= k <= |typedRaw| && Utf8Length(typedRaw[..k]) == 2 ==>
              r == RawToP2pk(ni, env, typedRaw[k..])
  {
    assert forall k :: 0 <= k <= |typedRaw| && Utf8Length(typedRaw[..k]) == 2 ==>
             AfterTwoBytes(typedRaw) == typedRaw[k..] by {
      forall k | 0 <= k <= |typedRaw| && Utf8Length(typedRaw[..k]) == 2 {
        AfterTwoBytesIsSuffix(typedRaw, k);
      }
    }
    RawToP2pk(ni, env, AfterTwoBytes(typedRaw))
  }

  /** Decoding the register encoding of a raw point looks up that point. */
  lemma RegisterEncodingRoundTrip(ni: NodeInterface, env: Env, raw: string, address: string)
    ensures RawFromRegisterToP2pk(ni, env, "07" + raw) == RawToP2pk(ni, env, raw)
    ensures P2pkToRawForRegister(ni, env, address).Ok? ==>
              RawFromRegisterToP2pk(ni, env, P2pkToRawForRegister(ni, env, address).value)
              == RawToP2pk(ni, env, P2pkToRaw(ni, env, address).value)
  {
    assert ("07" + raw)[..2] == "07";
    assert Utf8Length("07") == 2 by { assert "07"[..1] == "0" && "0"[..0] == ""; }
    assert ("07" + raw)[2..] == raw;
  }

  // ---------------------------------------------------------------------
  // Boxes by id

  /** `box_from_id`: the node's JSON for a box, decoded; a reply that is not
      a box fails with the reply pretty-printed. */
  function BoxFromId(ni: NodeInterface, env: Env, boxId: string): (r: Result<ErgoBox>)
    ensures FetchGet(ni, env, BoxByIdEndpoint + boxId).Err? ==> r == Err(FetchGet(ni, env, BoxByIdEndpoint + boxId).error)
    ensures FetchGet(ni, env, BoxByIdEndpoint + boxId).Ok? ==>
              var doc := FetchGet(ni, env, BoxByIdEndpoint + boxId).value;
              && (r.Ok? <==> env.decodeBox(Render(doc)).Decoded?)
              && (r.Ok? ==> env.decodeBox(Render(doc)) == Decoded(r.value))
              && (r.Err? ==> r.error == FailedParsingBox(env.pretty(doc)))
  {
    var doc :- FetchGet(ni, env, BoxByIdEndpoint + boxId);
    match env.decodeBox(Render(doc))
    case Decoded(b) => Ok(b)
    case Rejected(_) => Err(FailedParsingBox(env.pretty(doc)))
  }

  // ---------------------------------------------------------------------
  // Balance and height

  /** `wallet_nano_ergs_balance`: a missing balance means the node is
      still syncing; a balance that is not a `u64` number is a parse
      failure carrying the whole reply. */
  function WalletNanoErgsBalance(ni: NodeInterface, env: Env): (r: Result<NanoErg>)
    ensures FetchGet(ni, env, BalancesEndpoint).Err? ==> r == Err(FetchGet(ni, env, BalancesEndpoint).error)
    ensures FetchGet(ni, env, BalancesEndpoint).Ok? ==>
              var doc := FetchGet(ni, env, BalancesEndpoint).value;
              && (r == Err(NodeSyncing) <==> Field(doc, "balance") == Null)
              && (r.Ok? <==> Field(doc, "balance").Num? && 0 <= Field(doc, "balance").n <= MaxU64)
              && (r.Ok? ==> Field(doc, "balance") == Num(r.value))
              && (r.Err? && r.error != NodeSyncing ==> r.error == FailedParsingNodeResponse(Render(doc)))
  {
    var doc :- FetchGet(ni, env, BalancesEndpoint);
    var balance := Field(doc, "balance");
    if balance == Null then Err(NodeSyncing)
    else
      match AsU64(balance)
      case Some(n) => Ok(n)
      case None => Err(FailedParsingNodeResponse(Render(doc)))
  }

  /** `current_block_height`: a missing height means the node is still
      syncing; otherwise the rendered height must parse as a `u64`. */
  function CurrentBlockHeight(ni: NodeInterface, env: Env): (r: Result<U64>)
    ensures FetchGet(ni, env, InfoEndpoint).Err? ==> r == Err(FetchGet(ni, env, InfoEndpoint).error)
    ensures FetchGet(ni, env, InfoEndpoint).Ok? ==>
              var doc := FetchGet(ni, env, InfoEndpoint).value;
              && (r == Err(NodeSyncing) <==> Field(doc, "fullHeight") == Null)
              && (r.Ok? ==> ParseU64(Render(Field(doc, "fullHeight"))) == Some(r.value))
              && (Field(doc, "fullHeight") != Null && ParseU64(Render(Field(doc, "fullHeight"))).Some? ==> r.Ok?)
              && (r.Err? && r.error != NodeSyncing ==> r.error == FailedParsingNodeResponse(Render(doc)))
  {
    var doc :- FetchGet(ni, env, InfoEndpoint);
    var height := Field(doc, "fullHeight");
    if height == Null then Err(NodeSyncing)
    else
      match ParseU64(Render(height))
      case Some(n) => Ok(n)
      case None => Err(FailedParsingNodeResponse(Render(doc)))
  }

  /** A reachable node reports `NodeSyncing` for the height exactly when the
      field is missing; a numeric height is returned as it is. */
  lemma CurrentBlockHeightOfNumber(ni: NodeInterface, env: Env, n: U64)
    requires FetchGet(ni, env, InfoEndpoint).Ok?
    requires Field(FetchGet(ni, env, InfoEndpoint).value, "fullHeight") == Num(n)
    ensures CurrentBlockHeight(ni, env) == Ok(n)
  {
    ValueOfShow(n);
    assert Show(n)[0] != '+' by { assert IsDigit(Show(n)[0]); }
  }

  // ---------------------------------------------------------------------
  // Transactions given as JSON text (node_interface.rs:62-119)

  /** `submit_transaction` (JSON text): the checked reply, dumped, is the
      transaction id. */
  function SubmitTransaction(ni: NodeInterface, env: Env, signedTxJson: string): Result<string>
  {
    var doc :- UseJsonEndpointAndCheckErrors(ni, env, SubmitEndpoint, signedTxJson);
    Ok(Dump(doc))
  }

  /** `generate_transaction`: the checked reply of the generate endpoint. */
  function GenerateTransaction(ni: NodeInterface, env: Env, txRequestJson: string): Result<Json>
  {
    UseJsonEndpointAndCheckErrors(ni, env, GenerateEndpoint, txRequestJson)
  }

  /** `sign_transaction` (JSON text): the text must parse before anything is
      sent; the body is `{"tx": <parsed>}`. */
  function SignTransaction(ni: NodeInterface, env: Env, unsignedTxString: string): Result<Json>
  {
    match env.parseJson(unsignedTxString)
    case None => Err(FailedParsingNodeResponse(unsignedTxString))
    case Some(unsignedTx) =>
      UseJsonEndpointAndCheckErrors(ni, env, SignEndpoint, Dump(Obj([Member("tx", unsignedTx)])))
  }

  /** `sign_and_submit_transaction` (JSON text). */
  function SignAndSubmitTransaction(ni: NodeInterface, env: Env, unsignedTxString: string): Result<string>
  {
    var signedTx :- SignTransaction(ni, env, unsignedTxString);
    SubmitTransaction(ni, env, Dump(signedTx))
  }

  /** `generate_and_submit_transaction`: the checked reply of the send
      endpoint, dumped, is the transaction id. */
  function GenerateAndSubmitTransaction(ni: NodeInterface, env: Env, txRequestJson: string): Result<string>
  {
    var doc :- UseJsonEndpointAndCheckErrors(ni, env, SendEndpoint, txRequestJson);
    Ok(Dump(doc))
  }
}

/** Building, signing and submitting transactions (transactions.rs).  The
    transaction types of the Ergo library are type parameters: `U` for an
    unsigned transaction and `T` for a signed one. */
module Transactions {
  import opened Errors
  import opened Json
  import opened Client
  import opened Requests
  import Node

  /** The operations on transactions the client takes from the Ergo
      library:
      - `unsignedValue`: an unsigned transaction as serde places it inside
        a `json!` value;
      - `checkContext`: `TransactionContext::new`, which checks the given
        input boxes against the transaction's inputs (`Some(message)` when
        they do not match);
      - `decodeTx`: `serde_json::from_str` of a signed transaction;
      - `encodeTx`: `serde_json::to_string` of a signed transaction (it may
        fail). */
  datatype TxLib<!U, !T> = TxLib(
    unsignedValue: U -> Json,
    checkContext: (U, seq<ErgoBox>, seq<ErgoBox>) -> Option<string>,
    decodeTx: string -> Option<T>,
    encodeTx: T -> Option<string>)

  const ConversionFailure: string := "Failed Converting `Transaction` to json"

  /** `submit_json_transaction`: the checked reply, dumped, is the
      transaction id. */
  function SubmitJsonTransaction(ni: NodeInterface, env: Env, signedTxJson: string): Result<string>
  {
    var doc :- UseJsonEndpointAndCheckErrors(ni, env, Node.SubmitEndpoint, signedTxJson);
    Ok(Dump(doc))
  }

  /** `sign_json_transaction`: the text must parse before anything is sent;
      the body is `{"tx": <parsed>}`. */
  function SignJsonTransaction(ni: NodeInterface, env: Env, unsignedTxString: string): Result<Json>
  {
    match env.parseJson(unsignedTxString)
    case None => Err(FailedParsingNodeResponse(unsignedTxString))
    case Some(unsignedTx) =>
      UseJsonEndpointAndCheckErrors(ni, env, Node.SignEndpoint, SignJsonBody(unsignedTx))
  }

  /** The body of a JSON signing request: the unsigned transaction under
      `tx`, dumped compactly. */
  function SignJsonBody(unsignedTx: Json): (body: string)
    ensures body == "{\"tx\":" + Dump(unsignedTx) + "}"
  {
    assert Quote("tx") == "\"tx\"" by {
      assert Escape("tx") == EscapeChar('t') + Escape("x");
      assert Escape("x") == EscapeChar('x') + Escape("");
    }
    Dump(Obj([Member("tx", unsignedTx)]))
  }

  /** `sign_and_submit_json_transaction`. */
  function SignAndSubmitJsonTransaction(ni: NodeInterface, env: Env, unsignedTxString: string): Result<string>
  {
    var signedTx :- SignJsonTransaction(ni, env, unsignedTxString);
    SubmitJsonTransaction(ni, env, Dump(signedTx))
  }

  /** `generate_and_submit_transaction`: the checked reply of the send
      endpoint, dumped, is the transaction id. */
  function GenerateAndSubmitTransaction(ni: NodeInterface, env: Env, txRequestJson: string): Result<string>
  {
    var doc :- UseJsonEndpointAndCheckErrors(ni, env, Node.SendEndpoint, txRequestJson);
    Ok(Dump(doc))
  }

  /** `generate_json_transaction`: the checked reply of the generate
      endpoint. */
  function GenerateJsonTransaction(ni: NodeInterface, env: Env, txRequestJson: string): Result<Json>
  {
    UseJsonEndpointAndCheckErrors(ni, env, Node.GenerateEndpoint, txRequestJson)
  }

  /** `submit_transaction`: the signed transaction serialised by serde, then
      submitted as JSON text. */
  function SubmitTransaction<U, T>(ni: NodeInterface, env: Env, lib: TxLib<U, T>, signedTx: T): Result<string>
  {
    match lib.encodeTx(signedTx)
    case None => Err(Other(ConversionFailure))
    case Some(text) => SubmitJsonTransaction(ni, env, text)
  }

  /** Optional boxes as `json!` places them: null when absent. */
  function BoxesValue(env: Env, boxes: Option<seq<ErgoBox>>): Json
  {
    match boxes
    case None => Null
    case Some(bs) => Arr(seq(|bs|, i requires 0 <= i < |bs| => env.boxValue(bs[i])))
  }

  /** The body of a signing request before serialisation. */
  function SignBody<U, T>(env: Env, lib: TxLib<U, T>, unsignedTx: U,
                          boxes: Option<seq<ErgoBox>>, dataBoxes: Option<seq<ErgoBox>>): Json
  {
    Obj([Member("tx", lib.unsignedValue(unsignedTx)),
         Member("inputsRaw", BoxesValue(env, boxes)),
         Member("dataInputsRaw", BoxesValue(env, dataBoxes))])
  }

  /** `sign_transaction`: when input boxes are given they are first checked
      locally against the transaction (absent data boxes count as none);
      the node's signed transaction is then decoded from its compact dump. */
  function SignTransaction<U, T>(ni: NodeInterface, env: Env, lib: TxLib<U, T>, unsignedTx: U,
                                 boxes: Option<seq<ErgoBox>>, dataBoxes: Option<seq<ErgoBox>>): Result<T>
  {
    var check := if boxes.Some?
                 then lib.checkContext(unsignedTx, boxes.value, if dataBoxes.Some? then dataBoxes.value else [])
                 else None;
    if check.Some? then Err(Other(check.value))
    else
      var doc :- UseJsonEndpointAndCheckErrors(ni, env, Node.SignEndpoint,
                                               env.serdeText(SignBody(env, lib, unsignedTx, boxes, dataBoxes)));
      match lib.decodeTx(Dump(doc))
      case None => Err(Other(ConversionFailure))
      case Some(signed) => Ok(signed)
  }

  /** `sign_and_submit_transaction`: signs with the node choosing the
      boxes, then submits. */
  function SignAndSubmitTransaction<U, T>(ni: NodeInterface, env: Env, lib: TxLib<U, T>, unsignedTx: U): Result<string>
  {
    var signedTx :- SignTransaction(ni, env, lib, unsignedTx, None, None);
    SubmitTransaction(ni, env, lib, signedTx)
  }

  // ---------------------------------------------------------------------
  // Properties

  /** A reply the submit endpoint accepts (its `detail` renders as "null")
      is handed back dumped as JSON: that text is the transaction id. */
  lemma SubmitReturnsDumpedReply(ni: NodeInterface, env: Env, text: string, doc: Json)
    requires FetchPost(ni, env, Node.SubmitEndpoint, text) == Ok(doc)
    requires Render(Field(doc, "detail")) == "null"
    ensures SubmitJsonTransaction(ni, env, text) == Ok(Dump(doc))
  {
    RenderIsNullText(Field(doc, "detail"));
  }

  /** The same for the send endpoint of `generate_and_submit_transaction`. */
  lemma GenerateAndSubmitReturnsDumpedReply(ni: NodeInterface, env: Env, text: string, doc: Json)
    requires FetchPost(ni, env, Node.SendEndpoint, text) == Ok(doc)
    requires Render(Field(doc, "detail")) == "null"
    ensures GenerateAndSubmitTransaction(ni, env, text) == Ok(Dump(doc))
  {
    RenderIsNullText(Field(doc, "detail"));
  }

  /** A reply that is a JSON string yields the id with its quotes. */
  lemma TxIdIsDumpedReply(ni: NodeInterface, env: Env, text: string, id: string)
    ensures FetchPost(ni, env, Node.SubmitEndpoint, text) == Ok(Str(id)) ==>
              SubmitJsonTransaction(ni, env, text) == Ok("\"" + Escape(id) + "\"")
    ensures FetchPost(ni, env, Node.SendEndpoint, text) == Ok(Str(id)) ==>
              GenerateAndSubmitTransaction(ni, env, text) == Ok("\"" + Escape(id) + "\"")
  {
    if FetchPost(ni, env, Node.SubmitEndpoint, text) == Ok(Str(id)) {
      SubmitReturnsDumpedReply(ni, env, text, Str(id));
    }
    if FetchPost(ni, env, Node.SendEndpoint, text) == Ok(Str(id)) {
      GenerateAndSubmitReturnsDumpedReply(ni, env, text, Str(id));
    }
  }

  /** A reply whose `detail` is a message other than "null" is a rejection
      carrying that message, and no id is returned. */
  lemma SubmitRejected(ni: NodeInterface, env: Env, signedTxJson: string, doc: Json, message: string)
    requires FetchPost(ni, env, Node.SubmitEndpoint, signedTxJson) == Ok(doc)
    requires Field(doc, "detail") == Str(message) && message != "null"
    ensures SubmitJsonTransaction(ni, env, signedTxJson) == Err(BadRequest(message))
  {
  }

  /** `generate_json_transaction` fails exactly on a fetch error or a
      `detail` that does not render as "null"; otherwise it returns the
      node's reply unchanged. */
  lemma GenerateJsonTransactionReply(ni: NodeInterface, env: Env, txRequestJson: string)
    ensures GenerateJsonTransaction(ni, env, txRequestJson).Err? <==>
              || FetchPost(ni, env, Node.GenerateEndpoint, txRequestJson).Err?
              || Render(Field(FetchPost(ni, env, Node.GenerateEndpoint, txRequestJson).value, "detail")) != "null"
    ensures FetchPost(ni, env, Node.GenerateEndpoint, txRequestJson).Ok?
            && Render(Field(FetchPost(ni, env, Node.GenerateEndpoint, txRequestJson).value, "detail")) == "null" ==>
              GenerateJsonTransaction(ni, env, txRequestJson) == FetchPost(ni, env, Node.GenerateEndpoint, txRequestJson)
  {
    if FetchPost(ni, env, Node.GenerateEndpoint, txRequestJson).Ok? {
      RenderIsNullText(Field(FetchPost(ni, env, Node.GenerateEndpoint, txRequestJson).value, "detail"));
    }
  }

  /** `sign_and_submit_json_transaction` stops at a signing failure, whatever
      the submit endpoint would answer; a signed transaction is submitted as
      its compact dump. */
  lemma SignAndSubmitJsonComposes(ni: NodeInterface, env: Env, env2: Env, unsignedTxString: string)
    requires env2.parseJson == env.parseJson
    requires forall body :: env2.transport(Post(NodeUrl(ni) + Node.SignEndpoint, body))
                            == env.transport(Post(NodeUrl(ni) + Node.SignEndpoint, body))
    ensures SignJsonTransaction(ni, env, unsignedTxString).Err? ==>
              && SignAndSubmitJsonTransaction(ni, env, unsignedTxString) == Err(SignJsonTransaction(ni, env, unsignedTxString).error)
              && SignAndSubmitJsonTransaction(ni, env2, unsignedTxString) == SignAndSubmitJsonTransaction(ni, env, unsignedTxString)
    ensures SignJsonTransaction(ni, env, unsignedTxString).Ok? ==>
              SignAndSubmitJsonTransaction(ni, env, unsignedTxString)
              == SubmitJsonTransaction(ni, env, Dump(SignJsonTransaction(ni, env, unsignedTxString).value))
  {
    assert SignJsonTransaction(ni, env2, unsignedTxString) == SignJsonTransaction(ni, env, unsignedTxString);
  }

  /** Text that does not parse is refused before the node is contacted:
      the result does not depend on the transport. */
  lemma SignJsonRefusesUnparsed(ni: NodeInterface, env: Env, env2: Env, unsignedTxString: string)
    requires env.parseJson(unsignedTxString).None?
    requires env2.parseJson == env.parseJson
    ensures SignJsonTransaction(ni, env, unsignedTxString) == Err(FailedParsingNodeResponse(unsignedTxString))
    ensures SignAndSubmitJsonTransaction(ni, env2, unsignedTxString) == Err(FailedParsingNodeResponse(unsignedTxString))
  {
  }

  /** Given input boxes that do not fit the transaction, signing fails with
      the check's message, and the node is never contacted. */
  lemma SignTransactionChecksBoxesFirst<U, T>(ni: NodeInterface, env: Env, env2: Env, lib: TxLib<U, T>, unsignedTx: U,
                                              boxes: seq<ErgoBox>, dataBoxes: Option<seq<ErgoBox>>, message: string)
    requires lib.checkContext(unsignedTx, boxes, if dataBoxes.Some? then dataBoxes.value else []) == Some(message)
    ensures SignTransaction(ni, env, lib, unsignedTx, Some(boxes), dataBoxes) == Err(Other(message))
    ensures SignTransaction(ni, env2, lib, unsignedTx, Some(boxes), dataBoxes) == Err(Other(message))
  {
  }

  /** Data boxes given without input boxes are never checked: without input
      boxes the local check is skipped whatever it would say. */
  lemma SignTransactionWithoutBoxesSkipsCheck<U, T>(ni: NodeInterface, env: Env, lib: TxLib<U, T>,
                                                    check2: (U, seq<ErgoBox>, seq<ErgoBox>) -> Option<string>,
                                                    unsignedTx: U, dataBoxes: Option<seq<ErgoBox>>)
    ensures SignTransaction(ni, env, lib, unsignedTx, None, dataBoxes)
            == SignTransaction(ni, env, lib.(checkContext := check2), unsignedTx, None, dataBoxes)
  {
  }

  /** The signing body carries the unsigned transaction and each box list
      exactly, in order; an absent list is null. */
  lemma SignBodyFields<U, T>(env: Env, lib: TxLib<U, T>, unsignedTx: U,
                             boxes: Option<seq<ErgoBox>>, dataBoxes: Option<seq<ErgoBox>>)
    ensures var body := SignBody(env, lib, unsignedTx, boxes, dataBoxes);
      && Field(body, "tx") == lib.unsignedValue(unsignedTx)
      && (Field(body, "inputsRaw") == Null <==> boxes.None?)
      && (boxes.Some? ==>
            && |Field(body, "inputsRaw").items| == |boxes.value|
            && forall i :: 0 <= i < |boxes.value| ==> Field(body, "inputsRaw").items[i] == env.boxValue(boxes.value[i]))
      && (Field(body, "dataInputsRaw") == Null <==> dataBoxes.None?)
      && (dataBoxes.Some? ==>
            && |Field(body, "dataInputsRaw").items| == |dataBoxes.value|
            && forall i :: 0 <= i < |dataBoxes.value| ==> Field(body, "dataInputsRaw").items[i] == env.boxValue(dataBoxes.value[i]))
  {
    var ms := SignBody(env, lib, unsignedTx, boxes, dataBoxes).members;
    assert ms[1].key != "tx" && ms[2].key != "tx" && ms[2].key != "inputsRaw";
    assert ms[1..][1..] == [ms[2]];
    assert Lookup(ms, "inputsRaw") == Lookup(ms[1..], "inputsRaw") == ms[1].value;
    assert Lookup(ms, "dataInputsRaw") == Lookup(ms[1..], "dataInputsRaw") == Lookup([ms[2]], "dataInputsRaw") == ms[2].value;
  }

  /** A signed transaction the node returns is handed over exactly when the
      library decodes its dump; otherwise the call fails with the fixed
      conversion message.  This holds with or without input boxes, once
      the given boxes pass the local check. */
  lemma SignTransactionDecodesReply<U, T>(ni: NodeInterface, env: Env, lib: TxLib<U, T>, unsignedTx: U,
                                          boxes: Option<seq<ErgoBox>>, dataBoxes: Option<seq<ErgoBox>>, doc: Json)
    requires boxes.None? || lib.checkContext(unsignedTx, boxes.value, if dataBoxes.Some? then dataBoxes.value else []).None?
    requires UseJsonEndpointAndCheckErrors(ni, env, Node.SignEndpoint,
                                           env.serdeText(SignBody(env, lib, unsignedTx, boxes, dataBoxes))) == Ok(doc)
    ensures SignTransaction(ni, env, lib, unsignedTx, boxes, dataBoxes).Ok? <==> lib.decodeTx(Dump(doc)).Some?
    ensures lib.decodeTx(Dump(doc)).Some? ==>
              SignTransaction(ni, env, lib, unsignedTx, boxes, dataBoxes) == Ok(lib.decodeTx(Dump(doc)).value)
    ensures lib.decodeTx(Dump(doc)).None? ==>
              SignTransaction(ni, env, lib, unsignedTx, boxes, dataBoxes) == Err(Other(ConversionFailure))
  {
  }

  /** A rejection by the node during signing is the result, unchanged. */
  lemma SignTransactionPropagatesRejection<U, T>(ni: NodeInterface, env: Env, lib: TxLib<U, T>, unsignedTx: U,
                                                 boxes: Option<seq<ErgoBox>>, dataBoxes: Option<seq<ErgoBox>>, e: NodeError)
    requires boxes.None? || lib.checkContext(unsignedTx, boxes.value, if dataBoxes.Some? then dataBoxes.value else []).None?
    requires UseJsonEndpointAndCheckErrors(ni, env, Node.SignEndpoint,
                                           env.serdeText(SignBody(env, lib, unsignedTx, boxes, dataBoxes))) == Err(e)
    ensures SignTransaction(ni, env, lib, unsignedTx, boxes, dataBoxes) == Err(e)
  {
  }

  /** A signing failure ends `sign_and_submit_transaction` before anything
      is serialised or submitted. */
  lemma SignAndSubmitStopsAtSigning<U, T>(ni: NodeInterface, env: Env, lib: TxLib<U, T>,
                                          encode2: T -> Option<string>, unsignedTx: U)
    requires SignTransaction(ni, env, lib, unsignedTx, None, None).Err?
    ensures SignAndSubmitTransaction(ni, env, lib, unsignedTx) == Err(SignTransaction(ni, env, lib, unsignedTx, None, None).error)
    ensures SignAndSubmitTransaction(ni, env, lib.(encodeTx := encode2), unsignedTx)
            == SignAndSubmitTransaction(ni, env, lib, unsignedTx)
  {
  }

  /** `submit_transaction` has two outcomes: a transaction serde cannot
      serialise is `Other` with the conversion message, whatever the node
      would answer (no request is sent); otherwise its serde text is
      submitted. */
  lemma SubmitTransactionOutcomes<U, T>(ni: NodeInterface, env: Env, env2: Env, lib: TxLib<U, T>, signedTx: T)
    ensures lib.encodeTx(signedTx).None? ==>
              SubmitTransaction(ni, env, lib, signedTx) == Err(Other(ConversionFailure)) &&
              SubmitTransaction(ni, env2, lib, signedTx) == SubmitTransaction(ni, env, lib, signedTx)
    ensures lib.encodeTx(signedTx).Some? ==>
              SubmitTransaction(ni, env, lib, signedTx) == SubmitJsonTransaction(ni, env, lib.encodeTx(signedTx).value)
  {
  }

  /** The copies in node_interface.rs behave exactly as these. */
  lemma LegacyVariantsAgree(ni: NodeInterface, env: Env, text: string)
    ensures Node.SubmitTransaction(ni, env, text) == SubmitJsonTransaction(ni, env, text)
    ensures Node.GenerateTransaction(ni, env, text) == GenerateJsonTransaction(ni, env, text)
    ensures Node.SignTransaction(ni, env, text) == SignJsonTransaction(ni, env, text)
    ensures Node.SignAndSubmitTransaction(ni, env, text) == SignAndSubmitJsonTransaction(ni, env, text)
    ensures Node.GenerateAndSubmitTransaction(ni, env, text) == GenerateAndSubmitTransaction(ni, env, text)
  {
  }
}

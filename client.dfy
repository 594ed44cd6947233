/** What the client is made of: its configuration, the boxes it handles and
    the operations it borrows from outside — the node reached over HTTP and
    the JSON and Ergo libraries, which the model leaves uninterpreted. */
module Client {
  import opened Errors
  import opened Decimal
  import opened Json

  /** The smallest unit of the Erg currency (`u64`). */
  type NanoErg = U64

  /** An unspent box as the client uses it: its id, its value and the
      script that guards it.  Registers and tokens are not modelled. */
  datatype ErgoBox = ErgoBox(boxId: string, value: NanoErg, ergoTree: string)

  /** The `NodeInterface` struct: where the node is and the api key sent
      with every request. */
  datatype NodeInterface = NodeInterface(apiKey: string, ip: string, port: string)

  /** `node_url`: `http://ip:port`. */
  function NodeUrl(ni: NodeInterface): string
  {
    "http://" + ni.ip + ":" + ni.port
  }

  /** One HTTP request as the transport sees it. */
  datatype Request = Get(url: string) | Post(url: string, body: string)

  /** A received response: its body as text, or a body that cannot be
      read as text. */
  datatype Response = Text(body: string) | Unreadable

  /** What the transport hands back for a request. */
  datatype Reply = Unreachable | Received(response: Response)

  /** The outcome of serde's `from_str::<ErgoBox>`: a box, or the error it
      reports (its debug text). */
  datatype Decoded = Decoded(ergoBox: ErgoBox) | Rejected(reason: string)

  /** The operations the client takes from outside:
      - `transport`: the node, reached over HTTP;
      - `parseJson`: the `json` crate's `json::parse`;
      - `decodeBox`: serde's decoding of an `ErgoBox` from JSON text;
      - `boxText`: `serde_json::to_string` of an `ErgoBox` (it may fail);
      - `boxValue`: an `ErgoBox` as serde places it inside a `json!` value;
      - `serdeText`: `serde_json`'s `to_string` of a JSON value;
      - `pretty`: the `json` crate's `pretty(2)`. */
  datatype Env = Env(
    transport: Request -> Reply,
    parseJson: string -> Option<Json>,
    decodeBox: string -> Decoded,
    boxText: ErgoBox -> Option<string>,
    boxValue: ErgoBox -> Json,
    serdeText: Json -> string,
    pretty: Json -> string)
}

# Ergo node interface — a verified model

This project models the client side of the Rust crate `ergo-node-interface`.
The crate talks to an Ergo full node over its REST API. The model covers the
following parts:

- **Box selection.** Listing the wallet's unspent boxes, sorting them by
  value, greedy selection until a total is covered, and picking the
  highest-value box.
- **Wallet addresses.** Extracting the wallet's addresses from the raw reply.
- **Register encoding.** The `"07"` prefix for public keys stored in
  registers.
- **Balance and height.** The balance and block-height queries, with their
  "node is syncing" classification.
- **UTXO-set scans.** Registering and deregistering a scan, listing its
  boxes, and adding a box to it.
- **Transactions.** Signing, submitting and generating transactions, both as
  JSON text and as typed values.
- **Request handling.** Reading the node's replies and classifying them as
  errors.

The node is a parameter. `Client.Env.transport` maps each request
(`Get(url)` or `Post(url, body)`) to `Unreachable` or to a received body.
The other fields of `Env` are the foreign library operations the client
relies on:

- `json::parse`;
- serde's decoding and encoding of an `ErgoBox`;
- `serde_json`'s serialisation of a JSON value;
- the `json` crate's `pretty(2)`.

`Transactions.TxLib` plays the same part for the Ergo library's transaction
types. Those types are the type parameters `U` (unsigned) and `T` (signed).

JSON values are the datatype `Json.Json`. Indexing outside an array, or a
missing key, gives `Null`, as the `json` crate does.

- `Json.Dump` is the crate's compact `dump()`, including its string escapes.
- `Json.Render` is its `to_string()`: strings without quotes, anything else as
  `dump()`.

Only `Requests.UseJsonEndpointAndCheckErrors` compares such a rendering
with `"null"` (the `detail` check of requests.rs). Every other check on a
node reply tests for `Null` itself, as `is_null()` does, so the string
`"null"` is not null there.

Modules follow the source files:

| module | source file |
|---|---|
| `Errors` | the `NodeError` enum |
| `Types` | types.rs |
| `Requests` | requests.rs |
| `Node` | node_interface.rs |
| `Scanning` | scanning.rs |
| `Transactions` | transactions.rs |

Two modules hold shared algorithms:

- `Paging` holds the reading functions of a box listing, to which the two
  listing loops (`Node.UnspentBoxes` and `Scanning.ScanBoxes`) are proved
  equal.
- `BoxSelection` holds the box-selection algorithms.

Three modules are library support:

- `Decimal`: digits, and Rust's `u64` parse;
- `Json`;
- `Text`: `str::split` and `str::trim`.

The source is imperative in places, and so is the model:

- `BoxSelection.ConsumeBoxesUntilTotal` is a method with a loop.
- `BoxSelection.SortByValueDesc` sorts an array in place.
- `BoxSelection.HighestValue` is a method with two loops.
- `Node.UnspentBoxes`, `Node.CollectAddresses` (the loop of
  `Node.WalletAddresses`) and `Scanning.ScanBoxes` are methods with loops.

Each such method except `BoxSelection.HighestValue` is proved equal to a
specification function, and lemmas state the properties of that function.
`BoxSelection.HighestValue` is specified directly by the predicate
`IsFirstHighest`: the result is a box of the list, no box is larger, and
no earlier box is as large.

The transaction operations exist twice in the source, with different
signatures:

- `Node.SubmitTransaction`, `Node.SignTransaction` and the others are the
  JSON-text copies in node_interface.rs.
- The `Transactions` module holds those in transactions.rs.

`Transactions.LegacyVariantsAgree` shows that the JSON-text copies behave
alike.

The `NodeError` enum in node_interface.rs has no `InvalidScanId` variant,
but types.rs:17 uses one. The model's `Errors.NodeError` includes it.

## Model

| member | source | states |
|---|---|---|
| Types.ScanIdText | src/types.rs:8-9 | the derived `Display` of a `ScanId` is a non-empty string of ASCII digits whose decimal value is the id |
| Types.ParseScanId | src/types.rs:14-19 | a failure is `InvalidScanId` carrying the input text unchanged; a success is exactly the id the `u64` parse reads |
| Types.FromIntoLossless | src/types.rs:8-9 | `From<u64>` and `Into<u64>` are inverse to each other |
| Types.DisplayParseRoundTrip | src/types.rs:8-19 | parsing the display of an id gives that id back |
| Types.ParseScanIdAcceptsPaddedDecimal | src/types.rs:14-18 | any number of leading zeros, with or without one leading `+`, is accepted and denotes the same id |
| Types.ParseScanIdRejects | src/types.rs:15-17 | the empty text, a lone `+`, any character other than a digit (or a first `+`), and a value above 2^64-1 (with or without one leading `+`) all give `InvalidScanId(text)` |
| Types.ParseScanIdOfCanonicalText | src/types.rs:14-19 | for text without a leading zero or `+`, parsing gives an id exactly when the text is that id's display |
| Types.CanonicalDigitsAreShown | src/types.rs:8-9 | digit text without a leading zero is the display of the number it denotes |
| Decimal.ValueOfShow | src/types.rs:8-9 | the decimal display of a number denotes that number |
| Decimal.ValueIgnoresLeadingZeros | src/types.rs:15-16 | leading zeros do not change the value the `u64` parse reads |
| Decimal.ParseU64 | src/types.rs:15-16 | a successful `u64` parse reads a non-empty text of digits with at most a leading `+` |
| Json.At | src/node_interface.rs:178 | indexing a JSON value gives the element when the value is an array and the index is inside it, and null otherwise |
| Json.Lookup | src/node_interface.rs:178 | a key absent from an object gives null; a non-null result is the value of a member with that key |
| Json.LookupFindsFirst | src/node_interface.rs:178 | a key present among the members gives the value of its first member |
| Json.Field | src/requests.rs:63 | indexing anything but an object by a key gives null |
| Json.FieldOfObject | src/requests.rs:63 | indexing an object by a key it holds gives that key's member value |
| Json.Quote | src/transactions.rs:19 | a dumped string is enclosed in quotes |
| Json.Dump | src/transactions.rs:19 | `dump()` is never empty, and starts with `[`, `{` or `"` for arrays, objects and strings |
| Json.RenderIsNullText | src/requests.rs:63-68 | a value renders as "null" exactly when it is null or the string "null" |
| Json.AsU64 | src/node_interface.rs:370-372 | `as_u64()` succeeds exactly on numbers in the `u64` range and returns that number |
| Requests.Send | src/requests.rs:26-29 | a failed send is `NodeUnreachable`; a successful one hands over the node's response |
| Requests.SendGetReq | src/requests.rs:24-30 | no contract of its own; `Requests.RequestsTargetNodeUrl` states that a GET goes to `http://ip:port` followed by the endpoint and what it yields |
| Requests.SendPostReq | src/requests.rs:33-40 | no contract of its own; `Requests.RequestsTargetNodeUrl` states that a POST of the body goes to `http://ip:port` followed by the endpoint and what it yields |
| Requests.RequestsTargetNodeUrl | src/requests.rs:24-40 | a GET or POST yields exactly the response to `"http://" + ip + ":" + port + endpoint`, or `NodeUnreachable` when that request fails |
| Client.NodeUrl | src/node_interface.rs:58-60 | `http://ip:port`; no contract of its own, its use is stated by `Requests.RequestsTargetNodeUrl` |
| Requests.ParseResponseToJson | src/requests.rs:43-51 | an upstream error passes through; an unreadable body gives `FailedParsingNodeResponse` with the fixed message; text that does not parse gives `FailedParsingNodeResponse(text)`; otherwise the parsed document |
| Requests.UseJsonEndpointAndCheckErrors | src/requests.rs:55-71 | the result is `BadRequest(d)` exactly when the reply's `detail` renders to a text `d` other than "null" (that is, `detail` is neither null nor the string "null"); otherwise the reply is returned unchanged; fetch errors pass through |
| Paging.ListedFrom | src/node_interface.rs:177-186 | the boxes collected from index i on are the entries' non-null `box` values in index order, and the entry right after them is null |
| Paging.ListedBoxesStopAtFirstNull | src/node_interface.rs:177-186 | the listing reads entries 0, 1, ... in order, stops at the first null `box`, and never reads past the array |
| Paging.KeepDecodedMembers | src/node_interface.rs:182-184 | the lenient reading keeps a box exactly when a listed entry decodes to it, and never yields more boxes than entries |
| Paging.KeepDecodedAppend | src/node_interface.rs:177-186 | the lenient reading is an order-preserving filter: the reading of two runs of entries is their readings concatenated |
| Paging.KeepDecodedAll | src/node_interface.rs:182-184 | when every entry decodes, the lenient reading drops nothing and keeps index order |
| Paging.DecodeAllAgreesWhenAllDecode | src/scanning.rs:55-61 | the strict reading succeeds exactly when every listed box decodes, and then equals the lenient one |
| Paging.DecodeAllReportsFirstFailure | src/scanning.rs:58-61 | a strict failure is `FailedParsingBox` naming the first box that does not decode, with the decoder's reason |
| BoxSelection.ConsumeBoxesUntilTotal | src/node_interface.rs:218-237 | the fold returns exactly the selection that `SelectionSpec` characterises |
| BoxSelection.SelectionSpec | src/node_interface.rs:218-237 | the selection fails with `InsufficientErgsBalance` exactly when all boxes sum below `total`. Otherwise it is a prefix of the input in input order, it reaches `total`, every shorter prefix is below `total`, and `total = 0` gives the empty list |
| BoxSelection.SelectionIsShortestCover | src/node_interface.rs:224-232 | any prefix that reaches `total` while all its shorter prefixes do not is the selection |
| BoxSelection.CoverFrom | src/node_interface.rs:224-232 | the cut-off is the first prefix length whose total reaches `total` |
| BoxSelection.SumPrefixMonotone | src/node_interface.rs:228 | the running count never decreases as boxes are added |
| BoxSelection.SortByValueDesc | src/node_interface.rs:194 | sorting in place leaves the array equal to the stable descending order of its old contents |
| BoxSelection.InsertAt | src/node_interface.rs:194 | one insertion step places the next box after every box at least as large in the sorted prefix, and leaves the rest untouched |
| BoxSelection.SortDescPermutes | src/node_interface.rs:194 | the sort is a permutation |
| BoxSelection.SortDescSorted | src/node_interface.rs:194 | the sort orders boxes from highest to lowest value |
| BoxSelection.SortDescStable | src/node_interface.rs:194 | the sort is stable: boxes of equal value keep their relative order |
| BoxSelection.InsertDescPermutes | src/node_interface.rs:194 | inserting a box adds exactly that box |
| BoxSelection.HighestValue | src/node_interface.rs:241-258 | `NoBoxesFound` exactly for an empty list; otherwise the first box holding the largest value, no box being larger |
| Node.UnspentBoxes | src/node_interface.rs:170-188 | the loop returns the lenient reading of the wallet listing up to its first null box; fetch errors pass through |
| Node.UnspentBoxesSorted | src/node_interface.rs:192-197 | the wallet's boxes in stable descending order of value |
| Node.UnspentBoxesWithMinTotal | src/node_interface.rs:203-205 | the selection applied to the sorted wallet boxes |
| Node.UnspentBoxesWithMinTotalByAge | src/node_interface.rs:211-213 | the selection applied to the wallet boxes in wallet order |
| Node.HighestValueUnspentBox | src/node_interface.rs:241-259 | a fetch error passes through; an empty wallet is `NoBoxesFound`; otherwise the first box of the wallet holding the largest value |
| Node.WalletAddresses | src/node_interface.rs:122-141 | the loop keeps the trimmed pieces between quotes that start with '9', in order; no such piece is `NoAddressesInWallet` |
| Node.CollectAddresses | src/node_interface.rs:126-135 | the loop over the pieces between quotes returns exactly the trimmed pieces that start with '9', in order |
| Node.ListingSplitsIntoAddresses | src/node_interface.rs:126-135 | splitting a listing of plain addresses on quotes and trimming gives back its pieces, whose '9'-pieces are the addresses |
| Node.AddressesInMember | src/node_interface.rs:132-135 | an address is kept exactly when it is a trimmed piece starting with '9' |
| Node.AddressesInAppend | src/node_interface.rs:126-135 | the extraction is an order-preserving filter: the addresses of two runs of pieces are those of the first followed by those of the second |
| Node.ExtractedAddressesAreTrimmedPieces | src/node_interface.rs:127-135 | every extracted address is the trim of a piece between quotes, starts with '9', has no trailing white space, and holds no quote because no piece does |
| Node.QuotedPiecesFrom | src/node_interface.rs:127-131 | the pieces of an address listing after `[` are its addresses and the separators |
| Node.AddressesOfQuoted | src/node_interface.rs:132-135 | the separators of a listing contribute no address, and each quoted address contributes itself in order |
| Node.WalletAddressesOfListing | src/node_interface.rs:122-141 | a reply `["a1",...,"an"]` of plain addresses yields exactly `a1..an`, in order |
| Node.WalletAddressesOfEmptyListing | src/node_interface.rs:137-139 | a reply `[]` yields `NoAddressesInWallet` |
| Node.P2pkToRawForRegister | src/node_interface.rs:298-301 | the register encoding is exactly `"07"` followed by the raw point; lookup errors pass through |
| Node.RegisterEncodingRoundTrip | src/node_interface.rs:298-316 | decoding a register encoding drops exactly the two prefix characters, so decoding the encoding of a point looks up that point |
| Node.P2pkToRaw | src/node_interface.rs:287-293 | the rendered `raw` member of the node's reply; no contract of its own, its properties are those of `Node.P2pkToRawForRegister` and `Node.RegisterEncodingRoundTrip` |
| Node.RawToP2pk | src/node_interface.rs:304-310 | the rendered `address` member of the node's reply; no contract of its own, its properties are those of `Node.RawFromRegisterToP2pk` and `Node.RegisterEncodingRoundTrip` |
| Node.RawFromRegisterToP2pk | src/node_interface.rs:314-316 | for text whose byte 2 is a character boundary (the source's no-panic condition), the lookup of the text after the prefix that takes exactly two UTF-8 bytes |
| Text.AfterTwoBytes | src/node_interface.rs:315 | `&s[2..]` is a proper suffix of the text and what it drops takes exactly two bytes |
| Text.AfterTwoBytesIsSuffix | src/node_interface.rs:315 | whenever a prefix takes exactly two bytes, byte 2 is a boundary and the slice is the rest of the text |
| Node.BoxFromId | src/node_interface.rs:347-357 | a box is returned exactly when the reply decodes; otherwise `FailedParsingBox` with the reply pretty-printed |
| Node.WalletNanoErgsBalance | src/node_interface.rs:360-374 | `NodeSyncing` exactly when `balance` is missing or null; a `u64` number is returned as is; anything else is `FailedParsingNodeResponse` with the whole reply |
| Node.CurrentBlockHeight | src/node_interface.rs:377-392 | `NodeSyncing` exactly when `fullHeight` is missing or null; otherwise the result is the height exactly when its rendering parses as a `u64` (a string of digits is accepted too), else `FailedParsingNodeResponse` with the whole reply |
| Node.SubmitTransaction | src/node_interface.rs:64-71 | no contract of its own; `Transactions.LegacyVariantsAgree` proves it equal to `Transactions.SubmitJsonTransaction` |
| Node.GenerateTransaction | src/node_interface.rs:76-81 | no contract of its own; `Transactions.LegacyVariantsAgree` proves it equal to `Transactions.GenerateJsonTransaction` |
| Node.SignTransaction | src/node_interface.rs:84-98 | no contract of its own; `Transactions.LegacyVariantsAgree` proves it equal to `Transactions.SignJsonTransaction` |
| Node.SignAndSubmitTransaction | src/node_interface.rs:102-107 | no contract of its own; `Transactions.LegacyVariantsAgree` proves it equal to `Transactions.SignAndSubmitJsonTransaction` |
| Node.GenerateAndSubmitTransaction | src/node_interface.rs:113-119 | no contract of its own; `Transactions.LegacyVariantsAgree` proves it equal to `Transactions.GenerateAndSubmitTransaction` |
| Node.CurrentBlockHeightOfNumber | src/node_interface.rs:382-390 | a numeric height in range is returned unchanged |
| Scanning.ScanIdReply | src/scanning.rs:21-26 | the result is an id exactly when `error` is null and the rendered `scanId` parses, and then it is the parsed id; a failure is `BadRequest(rendered error)` or `InvalidScanId(rendered scanId)` |
| Scanning.RegisterScan | src/scanning.rs:15-27 | no contract of its own; posts the serialised scan and reads the reply by `Scanning.ScanIdReply`; see `Scanning.ScanReplyRoundTrip` |
| Scanning.DeregisterBody | src/scanning.rs:89-94 | no contract of its own; its properties are `Scanning.DeregisterBodyOf100` and `Scanning.DeregisterBodyInjective` |
| Scanning.DeregisterScan | src/scanning.rs:29-41 | no contract of its own; posts `DeregisterBody` and reads the reply by `Scanning.ScanIdReply`; see `Scanning.DeregisterScanSendsItsBody` and `Scanning.ScanReplyRoundTrip` |
| Scanning.AddBoxToScan | src/scanning.rs:69-86 | no contract of its own; its behaviour is stated by `Scanning.AddBoxBodyFields`, `Scanning.AddBoxToScanReply` and `Scanning.AddBoxToScanStopsBeforePost` |
| Scanning.ScanIdReplyOfNumber | src/scanning.rs:21-23 | a reply without error whose `scanId` is a number in range gives that id |
| Scanning.ScanIdReplyOfError | src/scanning.rs:24-26 | a reply whose `error` is a message is `BadRequest(message)` and produces no id |
| Scanning.ScanIdReplyOfBadId | src/scanning.rs:21-23 | a missing `scanId` gives `InvalidScanId("null")`; a negative one gives `InvalidScanId` of its rendering |
| Scanning.DeregisterBodyOf100 | src/scanning.rs:100-108 | the deregister body for id 100 is `{\n  "scanId": 100\n}` |
| Scanning.DeregisterBodyInjective | src/scanning.rs:89-94 | distinct ids give distinct deregister bodies |
| Scanning.DeregisterScanSendsItsBody | src/scanning.rs:29-41 | deregistration depends only on the node's answer to the deregister body posted to `/scan/deregister` |
| Scanning.ScanReplyRoundTrip | src/scanning.rs:15-41 | a node that answers `{"scanId": n}` makes registration and deregistration return scan n |
| Scanning.ScanBoxes | src/scanning.rs:44-65 | the loop returns the strict reading of the scan's listing: all boxes up to the first null one, or the first decode failure |
| Scanning.AddBoxBodyFields | src/scanning.rs:72-78 | the add-box body names exactly one scan, `[id]`, and carries the box text; distinct scans or boxes give distinct bodies |
| Scanning.AddBoxToScanReply | src/scanning.rs:79-85 | a reply with null `error` gives `Ok(rendered reply)`, otherwise `BadRequest(rendered error)` |
| Scanning.AddBoxToScanStopsBeforePost | src/scanning.rs:69-71 | when the box lookup or its serialisation fails, that error is the result and nothing the node would answer to the post matters |
| Transactions.SignJsonBody | src/transactions.rs:29-33 | the JSON signing body is exactly `{"tx":` + the dumped transaction + `}` |
| Transactions.SubmitReturnsDumpedReply | src/transactions.rs:14-21 | any reply the submit endpoint accepts is returned dumped as JSON: that text is the id |
| Transactions.GenerateAndSubmitReturnsDumpedReply | src/transactions.rs:99-105 | any reply the send endpoint accepts is returned dumped as JSON: that text is the id |
| Transactions.TxIdIsDumpedReply | src/transactions.rs:14-21 | for either endpoint, a reply that is a JSON string gives the id with its quotes |
| Transactions.SubmitJsonTransaction | src/transactions.rs:14-21 | no contract of its own; see `Transactions.SubmitReturnsDumpedReply` and `Transactions.SubmitRejected` |
| Transactions.SignJsonTransaction | src/transactions.rs:24-36 | no contract of its own; see `Transactions.SignJsonBody` and `Transactions.SignJsonRefusesUnparsed` |
| Transactions.SignAndSubmitJsonTransaction | src/transactions.rs:40-48 | no contract of its own; see `Transactions.SignAndSubmitJsonComposes` and `Transactions.SignJsonRefusesUnparsed` |
| Transactions.GenerateAndSubmitTransaction | src/transactions.rs:99-105 | no contract of its own; see `Transactions.GenerateAndSubmitReturnsDumpedReply` |
| Transactions.GenerateJsonTransaction | src/transactions.rs:110-115 | no contract of its own; see `Transactions.GenerateJsonTransactionReply` |
| Transactions.SubmitTransaction | src/transactions.rs:52-56 | no contract of its own; see `Transactions.SubmitTransactionOutcomes` |
| Transactions.SubmitTransactionOutcomes | src/transactions.rs:52-56 | a signed transaction serde cannot serialise gives `Other` with the message "Failed Converting Transaction to json" whatever the node would answer, since no request is sent; otherwise the result is submitting its serde text as JSON |
| Transactions.SignTransaction | src/transactions.rs:62-87 | no contract of its own; see `Transactions.SignTransactionChecksBoxesFirst`, `Transactions.SignTransactionWithoutBoxesSkipsCheck`, `Transactions.SignBodyFields`, `Transactions.SignTransactionDecodesReply` and `Transactions.SignTransactionPropagatesRejection` |
| Transactions.SignAndSubmitTransaction | src/transactions.rs:90-93 | no contract of its own; see `Transactions.SignAndSubmitStopsAtSigning` |
| Transactions.SubmitRejected | src/transactions.rs:14-21 | a `detail` message other than "null" makes submission `BadRequest(message)` |
| Transactions.GenerateJsonTransactionReply | src/transactions.rs:110-115 | generation fails exactly on a fetch error or a `detail` that does not render as "null"; otherwise the node's reply is returned unchanged |
| Transactions.SignAndSubmitJsonComposes | src/transactions.rs:40-48 | a signing failure is the result whatever the submit endpoint would answer; a signed transaction is submitted as its compact dump |
| Transactions.SignJsonRefusesUnparsed | src/transactions.rs:24-48 | input that does not parse gives `FailedParsingNodeResponse(input)` whatever the node would answer, for signing and for sign-and-submit |
| Transactions.SignTransactionChecksBoxesFirst | src/transactions.rs:68-77 | with input boxes given and the local check failing, the result is `Other(message)` whatever the node would answer; absent data boxes are checked as none |
| Transactions.SignTransactionWithoutBoxesSkipsCheck | src/transactions.rs:68 | without input boxes the local check is not consulted |
| Transactions.SignBodyFields | src/transactions.rs:80 | the signing body carries `tx`, `inputsRaw` and `dataInputsRaw` exactly as supplied, absent lists as null |
| Transactions.SignTransactionDecodesReply | src/transactions.rs:62-87 | with no input boxes, or with input boxes that pass the local check, the signed transaction is returned exactly when the dumped reply decodes; otherwise `Other("Failed Converting `Transaction` to json")` |
| Transactions.SignTransactionPropagatesRejection | src/transactions.rs:82-83 | a node rejection during signing is the result unchanged |
| Transactions.SignAndSubmitStopsAtSigning | src/transactions.rs:90-93 | a signing error is returned unchanged, and nothing is serialised or submitted |
| Transactions.LegacyVariantsAgree | src/node_interface.rs:62-119 | the JSON-text copies in node_interface.rs behave exactly as the `*_json_transaction` operations and `generate_and_submit_transaction` |

## Left out

- The HTTP client, the request headers and the api-key header fallback
  (src/requests.rs:9-21) are left out. The node is the `transport`
  parameter.
- `select_wallet_address` reads stdin and calls itself until the input is
  valid; interactive I/O is left out.
- local_config.rs is not part of this model. It reads and writes the
  `node-interface.yaml` file, ends the process with `std::process::exit`
  when that file is missing or unreadable, and builds a `NodeInterface` from
  the YAML fields `node_ip`, `node_port` and `node_api_key`. File I/O, YAML
  and process exit are left out. `Errors.NodeError.YamlError`, which only
  that file produces, is declared but nothing in the model produces it.
- The decoding of an `ErgoBox`, the serialisation of boxes and transactions,
  and `TransactionContext::new` belong to foreign libraries. They are
  parameters (`Env`, `TxLib`).
- `serde_json`'s serialisation of a JSON value is a parameter. The order in
  which it writes object keys depends on build features. This applies to the
  register-scan, add-box and typed signing bodies.
- `p2s_to_tree`, `p2s_to_bytes` and `serialized_box_from_id` are left out.
  Each renders one field of a node reply, in the same way as `Node.P2pkToRaw`.
- `serialize_box` is left out. It is `serialized_box_from_id` of the box's id.
- `serialize_boxes` is left out. It fetches each box's serialised bytes in
  turn and puts `""` in place of every failed fetch, so it never fails.
- `serialized_highest_value_unspent_box` is left out. It takes the id of the
  box that `Node.HighestValueUnspentBox` returns and fetches that box's
  serialised bytes.
- The debug `println!` in node_interface.rs:93 is left out.
- JSON numbers are integers. Fractional and exponent numbers are not
  modelled.
- BoxSelection.ConsumeBoxesUntilTotal: the running count is an unbounded
  integer. The `u64` overflow of `count += ...` (a panic in debug builds, a
  wrap in release builds) is not modelled.
- BoxSelection.SortByValueDesc: the standard library's stable merge sort is
  modelled by an in-place insertion sort. A stable sort has only one
  possible result, so the sorted list is the same; the number and order of
  comparisons are not.
- Node.WalletAddresses: it requires a reply that is readable text with no
  piece blank after trimming. The source panics otherwise (`expect` on the
  text, `unwrap` on the first character), and the panic is not modelled.
- Node.RawFromRegisterToP2pk: it requires byte 2 to be a character
  boundary inside the text (`Text.BoundaryAtByteTwo`). The source panics
  otherwise, and the panic is not modelled.
- Json.Lookup: it returns the first member with a key. The `json` crate
  keeps one entry per key, and a repeated key keeps the last value. The
  parser is a parameter, so the model also admits documents with repeated
  keys, which the crate never produces.
- `Text.IsWhitespace` lists Unicode's White_Space characters, which is what
  `str::trim` removes. Other Unicode handling is not modelled.

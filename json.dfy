/** JSON values (RFC 8259) as the `json` crate presents them to the client:
    indexing that yields `Null` for a missing element or key, `to_string`
    (rendering, strings without quotes) and `dump` (compact serialisation). */
module Json {
  import opened Errors
  import opened Decimal

  /** Numbers are integers here; the client only reads integral numbers
      (scan ids, heights, balances). */
  datatype Json =
    | Null
    | Bool(b: bool)
    | Num(n: int)
    | Str(s: string)
    | Arr(items: seq<Json>)
    | Obj(members: seq<Member>)

  datatype Member = Member(key: string, value: Json)

  /** `v[i]`: the i-th element of an array, `Null` otherwise. */
  function At(v: Json, i: nat): (r: Json)
    ensures r != Null ==> v.Arr? && i < |v.items| && r == v.items[i]
    ensures v.Arr? && i < |v.items| ==> r == v.items[i]
  {
    if v.Arr? && i < |v.items| then v.items[i] else Null
  }

  /** The value of the first member named `key`, `Null` if there is none. */
  function Lookup(ms: seq<Member>, key: string): (r: Json)
    ensures (forall j :: 0 <= j < |ms| ==> ms[j].key != key) ==> r == Null
    ensures r != Null ==> exists j :: 0 <= j < |ms| && ms[j].key == key && ms[j].value == r
  {
    if |ms| == 0 then Null
    else if ms[0].key == key then ms[0].value
    else Lookup(ms[1..], key)
  }

  /** `v[key]`: the member of an object, `Null` for anything else. */
  function Field(v: Json, key: string): (r: Json)
    ensures !v.Obj? ==> r == Null
  {
    if v.Obj? then Lookup(v.members, key) else Null
  }

  /** A key present in the members gives the value of its first member. */
  lemma {:induction false} LookupFindsFirst(ms: seq<Member>, key: string, j: nat)
    requires j < |ms| && ms[j].key == key
    requires forall i :: 0 <= i < j ==> ms[i].key != key
    ensures Lookup(ms, key) == ms[j].value
  {
    if j > 0 {
      LookupFindsFirst(ms[1..], key, j - 1);
    }
  }

  /** Indexing an object by a key it holds gives that key's first member. */
  lemma FieldOfObject(v: Json, key: string, j: nat)
    requires v.Obj? && j < |v.members| && v.members[j].key == key
    requires forall i :: 0 <= i < j ==> v.members[i].key != key
    ensures Field(v, key) == v.members[j].value
  {
    LookupFindsFirst(v.members, key, j);
  }

  function HexDigit(d: nat): char
    requires d < 16
  {
    "0123456789abcdef"[d]
  }

  /** The escape the `json` crate writes for one character of a string. */
  function EscapeChar(c: char): string
  {
    if c == '"' then "\\\""
    else if c == '\\' then "\\\\"
    else if c == '\n' then "\\n"
    else if c == '\r' then "\\r"
    else if c == '\t' then "\\t"
    else if c == 8 as char then "\\b"
    else if c == 12 as char then "\\f"
    else if (c as int) < 0x20 then "\\u00" + [HexDigit(c as int / 16), HexDigit(c as int % 16)]
    else [c]
  }

  function Escape(s: string): string
  {
    if |s| == 0 then "" else EscapeChar(s[0]) + Escape(s[1..])
  }

  function Quote(s: string): (q: string)
    ensures |q| >= 2 && q[0] == '"' && q[|q| - 1] == '"'
  {
    "\"" + Escape(s) + "\""
  }

  function Join(parts: seq<string>): string
  {
    if |parts| == 0 then ""
    else if |parts| == 1 then parts[0]
    else parts[0] + "," + Join(parts[1..])
  }

  /** `dump()`: compact JSON text. */
  function Dump(v: Json): (t: string)
    ensures |t| > 0
    ensures v.Arr? ==> t[0] == '['
    ensures v.Obj? ==> t[0] == '{'
    ensures v.Str? ==> t[0] == '"'
  {
    match v
    case Null => "null"
    case Bool(b) => if b then "true" else "false"
    case Num(n) => IntText(n)
    case Str(s) => Quote(s)
    case Arr(items) =>
      "[" + Join(seq(|items|, i requires 0 <= i < |items| => Dump(items[i]))) + "]"
    case Obj(ms) =>
      "{" + Join(seq(|ms|, i requires 0 <= i < |ms| => Quote(ms[i].key) + ":" + Dump(ms[i].value))) + "}"
  }

  /** `to_string()`: strings without quotes, everything else as `dump()`. */
  function Render(v: Json): string
  {
    match v
    case Str(s) => s
    case _ => Dump(v)
  }

  /** The checks that compare a rendered field with "null" accept exactly a
      JSON null and the string "null". */
  lemma RenderIsNullText(v: Json)
    ensures Render(v) == "null" <==> v == Null || v == Str("null")
  {
    if v.Num? {
      var t := IntText(v.n);
      assert t[0] != 'n';
    }
  }

  /** `as_u64()`: a number that fits in 64 unsigned bits; anything else,
      strings included, gives nothing. */
  function AsU64(v: Json): (r: Option<U64>)
    ensures r.Some? <==> v.Num? && 0 <= v.n <= MaxU64
    ensures r.Some? ==> v == Num(r.value)
  {
    if v.Num? && 0 <= v.n <= MaxU64 then Some(v.n) else None
  }
}

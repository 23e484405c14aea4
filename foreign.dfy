/**
 * The libraries the widget builders call but do not implement: AES from the
 * crypto package, `json.dumps` and `urlencode`.  They are passed in as
 * functions, so every statement about a builder holds for any of them.
 */
module Foreign {
  import opened Octets
  import Ecb

  /** The scalar values a configuration holds; `amount_BIT` may be an int or a float and is only serialised. */
  datatype JsonValue = JsonString(s: string) | JsonInt(i: int) | JsonFloat(x: real)

  /** A flat Python dict as `json.dumps` receives it. */
  type JsonObject = map<string, JsonValue>

  datatype Libraries = Libraries(
    aes: Ecb.BlockCipher,                      // `AES.new(key, AES.MODE_ECB).encrypt`, one block
    jsonDumps: JsonObject -> seq<Byte>,        // `json.dumps`, whose output is ASCII
    urlencode: map<string, string> -> string)  // `urlencode`

  /** `parse` reads back every query that `urlencode` writes. */
  ghost predicate ParsesBack(parse: string -> map<string, string>, urlencode: map<string, string> -> string) {
    forall q :: parse(urlencode(q)) == q
  }
}

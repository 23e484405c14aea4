# Xapo micro-payment SDK: a Dafny model

The Xapo SDK for Python builds HTML snippets for Xapo's micro-payment
button. A snippet holds a URL on the Xapo service. The query of that URL
has three parameters:

- `app_id`, the application's id, in clear;
- `button_request`, the payment configuration as JSON, PKCS#7-padded to
  16 octets, encrypted with AES in ECB mode under the application secret,
  then Base64-encoded;
- `customization`, the JSON of `{"button_text": pay_type}`.

The project models:

- the payload codec of `xapo_sdk/xapo_utils.py` (modules `Pkcs7`, `Ecb`,
  `Base64` and `XapoUtils`). `xapo_sdk/micro_payment.py` has a copy of it,
  which `MicroPaymentSdk.Pkcs7Encode` and `MicroPaymentSdk.Encrypt` model
  and prove equal to the shared one;
- the older builder `XapoMicroPaymentSDK` and its configuration record, in
  module `MicroPaymentSdk`. Here `pay_type` is an argument of the build
  methods;
- the newer builder `MicroPayment` and its configuration record, in module
  `XapoTools`. Here `pay_type` is a field of the configuration, so it is
  also encrypted inside `button_request`;
- the two snippet templates, the query and the customization object, which
  both builders share (module `Widget`).

Every byte is an `Octets.Byte` (0..255). Payloads and secrets are byte
sequences. AES, `json.dumps` and `urlencode` are library code, so they
enter as function parameters (`Ecb.BlockCipher` and `Foreign.Libraries`).

The codec's properties are stated against a provider-side decoder
(`XapoUtils.Decrypt`). That decoder decodes Base64, decrypts with any
function that inverts the cipher, and strips the padding. The main results:

- the padding is PKCS#7 padding;
- the token has the length and alphabet of Base64;
- ECB encrypts block by block;
- the provider recovers every payload exactly.

The builders' properties: parsing the URL's query with any parser that
inverts `urlencode` gives back `app_id`, a `button_request` that decrypts
to the JSON of the configuration, and the customization. Each snippet
carries exactly that URL in its `src` or `.load(...)` slot.

The secret's length follows the code. AES-128 takes a 16-octet key, but
the code passes the secret to pycrypto's `AES.new`, which accepts 16, 24
or 32 octets and raises for any other length. `Ecb.IsAesKeyLength` and the
`InvalidKeyLength` failure model exactly that.

## Model

| member | source | states |
|---|---|---|
| XapoUtils.Pkcs7Padding | xapo_sdk/xapo_utils.py:9-22 | `k == 0` raises ZeroDivisionError. A negative `k` leaves the input unpadded (Python's floor `%`). For `0 < k < 128` it always succeeds and the result is PKCS#7 padding of the input to a multiple of `k`. For `k >= 128` it succeeds exactly when the padding value is below 128. A value above 255 makes `bytearray` raise ValueError; a value from 128 to 255 makes `.decode()` raise UnicodeDecodeError. Every success with `k > 0` is PKCS#7 padding |
| XapoUtils.PyMod | xapo_sdk/xapo_utils.py:21 | Python's `l % k` lies in `[0, k)` for positive `k` and in `(k, 0]` for negative `k` |
| XapoUtils.FloorDivMod | xapo_sdk/xapo_utils.py:21 | `l == k * (l // k) + l % k` with Python's floor division, so the remainder is the one Python computes |
| XapoUtils.PaddedIsAligned | xapo_sdk/xapo_utils.py:56 | the padded payload is `16 * (n / 16 + 1)` octets long, a whole number of AES blocks |
| XapoUtils.Encrypt | xapo_sdk/xapo_utils.py:25-60 | fails exactly when AES rejects the secret's length. Otherwise the token has the Base64 length of the padded payload (`4 * ceil(padded / 3)`) and uses only Base64 alphabet characters and `=` |
| XapoUtils.Decrypt | xapo_sdk/xapo_utils.py:55-58 | the provider's inverse of the codec: it succeeds only under a valid AES key length |
| XapoUtils.EncryptStructure | xapo_sdk/xapo_utils.py:55-58 | the token decodes to the ECB ciphertext of the padded payload. Block `i` of that ciphertext is AES of padded block `i` |
| XapoUtils.DocstringTokenShape | xapo_sdk/xapo_utils.py:37-53 | the docstring example's 307-octet payload under its 32-octet secret gives a 428-character token whose last character, and only that one, is `=`, as the printed token is |
| XapoUtils.DecryptEncrypt | xapo_sdk/xapo_utils.py:25-60 | for every payload, every valid key and any inverse of the cipher, decrypting the token gives back exactly the payload |
| Pkcs7.Unpad | xapo_sdk/xapo_utils.py:9-22 | the partner of the padding: a result is a strict prefix of the input, and every removed octet equals the number of octets removed |
| Pkcs7.PadCountAligns | xapo_sdk/xapo_utils.py:20-22 | the padding count `k - l % k` lies in `1..k`, and adding it makes the length a multiple of `k` |
| Pkcs7.PaddedLength | xapo_sdk/xapo_utils.py:20-22 | a padding is `k * (l / k + 1)` long and adds `k - l % k` octets |
| Pkcs7.FullBlockWhenAligned | xapo_sdk/xapo_utils.py:20-22 | an input already a multiple of `k` gains a whole block of octets valued `k` |
| Pkcs7.PaddingUnique | xapo_sdk/xapo_utils.py:9-22 | an input has only one PKCS#7 padding for a given `k` |
| Pkcs7.UnpadPadding | xapo_sdk/xapo_utils.py:9-22 | stripping a PKCS#7 padding gives back the input |
| Pkcs7.PaddingOfUnpad | xapo_sdk/xapo_utils.py:9-22 | the converse: a `k`-aligned sequence that unpads, with a last octet at most `k`, is the padding of what it unpads to |
| Ecb.Apply | xapo_sdk/xapo_utils.py:55-57 | ECB mode over a block-aligned input keeps its length. It encrypts with AES and decrypts with AES's inverse |
| Ecb.ApplyBlockwise | xapo_sdk/xapo_utils.py:55-57 | block `i` of the output is the cipher applied to block `i` of the input, and to nothing else |
| Ecb.EqualBlocksEqualCiphertext | xapo_sdk/xapo_utils.py:55-57 | ECB mode: equal plaintext blocks give equal ciphertext blocks |
| Ecb.DecryptEncrypt | xapo_sdk/xapo_utils.py:55-57 | ECB decryption with an inverse cipher undoes ECB encryption |
| Base64.Encode | xapo_sdk/xapo_utils.py:58 | `b64encode` output is `4 * ceil(n / 3)` characters long, a multiple of 4, drawn from the alphabet and `=` |
| Base64.EncodePadding | xapo_sdk/xapo_utils.py:58 | all characters but the last two are in the alphabet. The last two are both alphabet characters, one alphabet character and `=`, or `==`, as `n % 3` is 0, 2 or 1 |
| Base64.CharOf | xapo_sdk/xapo_utils.py:58 | the alphabet's character for a 6-bit value decodes back to that value |
| Base64.DecodeGroups | xapo_sdk/xapo_utils.py:58 | decoding `m` groups of four gives between `3m - 2` and `3m` octets |
| Base64.Decode | xapo_sdk/xapo_utils.py:58 | only a text whose length is a multiple of four decodes |
| Base64.DecodeEncode | xapo_sdk/xapo_utils.py:58 | Base64 round trip: decoding the encoding of any octet string gives it back |
| Octets.Chars | xapo_sdk/micro_payment.py:112 | the octets of `json.dumps` become a text of the same length, character by character |
| Octets.CharsInjective | xapo_sdk/micro_payment.py:112 | different octet strings give different texts |
| MicroPaymentSdk.Pkcs7Encode | xapo_sdk/micro_payment.py:18-31 | `_pkcs7_encode` is the same function as `_pkcs7_padding`, for every input and every `k` |
| MicroPaymentSdk.Encrypt | xapo_sdk/micro_payment.py:36-53 | `_encrypt` is the same function as `xapo_utils.encrypt` |
| MicroPaymentSdk.ConfigDict | xapo_sdk/micro_payment.py:75-86 | `config.__dict__` has exactly the eight attribute names and no `pay_type`. Each name holds its own field: `sender_user_id` the sender's id, `receiver_user_id` the receiver's id, and so on, with `amount_BIT` and `timestamp` as given |
| MicroPaymentSdk.ConfigDictInjective | xapo_sdk/micro_payment.py:75-86 | the dict records every field: configurations with equal dicts are equal |
| MicroPaymentSdk.DefaultConfigAsWritten | xapo_sdk/micro_payment.py:75-78 | a configuration built without a timestamp carries the time at which the class body ran |
| MicroPaymentSdk.DefaultConfig | xapo_sdk/micro_payment.py:75-86 | corrected default: the timestamp is the time of the call, the strings are empty and the amount is 0 |
| MicroPaymentSdk.XapoMicroPaymentSDK.constructor | xapo_sdk/micro_payment.py:102-105 | stores the endpoint, the application id and the secret |
| MicroPaymentSdk.XapoMicroPaymentSDK.BuildUrl | xapo_sdk/micro_payment.py:107-117 | fails exactly when the secret is not a valid AES key. Otherwise the URL starts with `service_url + "?"` |
| MicroPaymentSdk.XapoMicroPaymentSDK.BuildUrlRoundTrip | xapo_sdk/micro_payment.py:107-117 | the query after `service_url?` parses back to exactly `app_id`, `button_request` and `customization`. `app_id` is the application id. `button_request` decrypts under the secret to the JSON of the configuration dict. `customization` is the JSON of `{"button_text": pay_type}` |
| MicroPaymentSdk.XapoMicroPaymentSDK.BuildIframeWidget | xapo_sdk/micro_payment.py:119-160 | fails exactly when the URL cannot be built. Otherwise the iframe snippet's `src` slot holds exactly the built URL |
| MicroPaymentSdk.XapoMicroPaymentSDK.BuildDivWidget | xapo_sdk/micro_payment.py:162-205 | fails exactly when the URL cannot be built. Otherwise the div snippet's `.load("...")` slot holds exactly the built URL |
| Widget.Query | xapo_sdk/xapo_tools.py:75-76 | the query has exactly `app_id`, `button_request` and `customization`, holding the given values |
| Widget.Customization | xapo_sdk/xapo_tools.py:76 | the customization object has the single key `button_text`, mapped to `pay_type` |
| Widget.Fill | xapo_sdk/xapo_tools.py:113-120 | the snippet is the template's fixed head, then the URL, then the fixed tail |
| Widget.Extract | xapo_sdk/xapo_tools.py:113-120 | the partner of `Fill`: what it extracts is as long as the snippet minus the fixed parts |
| Widget.ExtractFill | xapo_sdk/xapo_tools.py:113-120 | the URL can be read back out of any snippet |
| Widget.FillExtract | xapo_sdk/xapo_tools.py:113-120 | a text from which a URL can be extracted is exactly that URL's snippet |
| Widget.FillInjective | xapo_sdk/xapo_tools.py:113-120 | different URLs give different snippets |
| Widget.IframeLandmarks | xapo_sdk/xapo_tools.py:113-120 | the dedented iframe snippet opens with a newline and then `<iframe id="tipButtonFrame"`, and the URL follows ` src="` |
| Widget.DivLandmarks | xapo_sdk/xapo_tools.py:154-164 | the dedented div snippet opens with the two containers. The URL follows `$("#tipButtonDiv").load("` and is closed by `");` |
| XapoTools.ConfigDict | xapo_sdk/xapo_tools.py:38-50 | `config.__dict__` has the older eight keys plus `pay_type`. It is the older dict extended with `pay_type`, and each key holds its own field |
| XapoTools.ConfigDictInjective | xapo_sdk/xapo_tools.py:38-50 | configurations with equal dicts are equal |
| XapoTools.DefaultConfigAsWritten | xapo_sdk/xapo_tools.py:38-41 | a configuration built without a timestamp carries the time at which the class body ran |
| XapoTools.DefaultConfig | xapo_sdk/xapo_tools.py:38-50 | corrected default: the timestamp is the time of the call, the strings are empty and the amount is 0 |
| XapoTools.MicroPayment.constructor | xapo_sdk/xapo_tools.py:66-69 | stores the endpoint, the application id and the secret |
| XapoTools.MicroPayment.BuildUrl | xapo_sdk/xapo_tools.py:71-81 | fails exactly when the secret is not a valid AES key. Otherwise the URL starts with `service_url + "?"` |
| XapoTools.MicroPayment.BuildUrlRoundTrip | xapo_sdk/xapo_tools.py:71-81 | the query parses back to exactly the three parameters: the application id, a request that decrypts to the JSON of all nine fields, and the customization with `config.pay_type` |
| XapoTools.MicroPayment.SameCustomizationAsOlder | xapo_sdk/xapo_tools.py:71-81 | against the older builder given the same secret and `pay_type`: same parameter names, same `app_id` and same `customization`. The request differs only by carrying `pay_type` as a ninth field |
| XapoTools.MicroPayment.BuildIframeWidget | xapo_sdk/xapo_tools.py:83-120 | fails exactly when the URL cannot be built. Otherwise the iframe snippet's `src` slot holds exactly the built URL |
| XapoTools.MicroPayment.BuildDivWidget | xapo_sdk/xapo_tools.py:122-164 | fails exactly when the URL cannot be built. Otherwise the div snippet's `.load("...")` slot holds exactly the built URL |

## Findings

| source | as written | input that shows it | evidently intended | confidence | as-written member | corrected member |
|---|---|---|---|---|---|---|
| xapo_sdk/xapo_tools.py:41 | the default `timestamp=int(round(time.time() * 1000))` is evaluated once, when the class body runs | two `MicroPaymentConfig()` calls a second apart get the same timestamp (`XapoTools.StaleTimestamp`) | each configuration stamped with the time it is built (`XapoTools.FreshTimestamp`) | not executed; Python evaluates default arguments once, at definition | XapoTools.DefaultConfigAsWritten | XapoTools.DefaultConfig |
| xapo_sdk/micro_payment.py:78 | the same default, evaluated once when the class body runs | two `MicroPaymentConfig()` calls a second apart get the same timestamp (`MicroPaymentSdk.StaleTimestamp`) | each configuration stamped with the time it is built (`MicroPaymentSdk.FreshTimestamp`) | not executed; Python evaluates default arguments once, at definition | MicroPaymentSdk.DefaultConfigAsWritten | MicroPaymentSdk.DefaultConfig |

In the rest of the model a configuration always carries its timestamp as
a field, as the corrected constructor sets it.

## Left out

- AES itself: the block cipher is the parameter `Ecb.BlockCipher`. Its inverse is any function satisfying `Ecb.Inverts`. The model does not contain the cipher's rounds or key schedule.
- `json.dumps` and `urlencode`: they are opaque parameters in `Foreign.Libraries`. The round trips assume only a parser that inverts `urlencode`. Key order, separators and JSON escaping are not modelled.
- `textwrap.dedent`: the templates in `Widget` are written out as dedent leaves them. That is right only when the URL has no newline. A newline in `service_url` (which nothing encodes) or in the output of `urlencode` ends dedent's common margin, and Python then keeps the indentation. The model does not capture that case. Each builder below is affected.
- MicroPaymentSdk.XapoMicroPaymentSDK.BuildIframeWidget: the snippet equals Python's output only when the built URL has no newline (see `textwrap.dedent` above).
- MicroPaymentSdk.XapoMicroPaymentSDK.BuildDivWidget: the snippet equals Python's output only when the built URL has no newline.
- XapoTools.MicroPayment.BuildIframeWidget: the snippet equals Python's output only when the built URL has no newline.
- XapoTools.MicroPayment.BuildDivWidget: the snippet equals Python's output only when the built URL has no newline.
- The clock: `time.time()` becomes an explicit timestamp argument (see the Findings).
- `amount_BIT` may be an int or a float. It is a `Foreign.JsonValue` (`JsonInt` or `JsonFloat` with a real), without floating-point rounding.
- Python 2/3 `str`/`bytes`: the payload is modelled as octets. `.decode()` of the padding is UTF-8 decoding, which fails on octets of 128 or more; `XapoUtils.Pkcs7Padding` models that failure. The type of the `b64encode` result (bytes, not text) is not modelled: the token is a `string`.
- The example token in the docstring of `encrypt`: its characters cannot be reproduced without the AES rounds. Only its length and final `=` are stated (`XapoUtils.DocstringTokenShape`).
- XapoUtils.Decrypt: it is the provider's side, absent from the SDK, and serves only as the partner for the round trip. Its contract states only when it can succeed; what it returns is the subject of `XapoUtils.DecryptEncrypt`.
- The jQuery `load` call and the browser's handling of the snippets are not modelled.
- The `__main__` doctest runners are not modelled.

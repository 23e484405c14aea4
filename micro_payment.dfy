/**
 * xapo_sdk/micro_payment.py: the older builder.  It carries its own copy of
 * the codec, and `pay_type` is an argument of the build methods that travels
 * only in the plaintext `customization` parameter.
 */
module MicroPaymentSdk {
  import opened Wrappers
  import opened Octets
  import Ecb
  import Base64
  import XapoUtils
  import opened Foreign
  import Widget

  /** `_pkcs7_encode`: the same text as `_pkcs7_padding`, and the same function. */
  function Pkcs7Encode(bytestring: seq<Byte>, k: int := 16): (r: Result<seq<Byte>, XapoUtils.PadError>)
    ensures r == XapoUtils.Pkcs7Padding(bytestring, k)
  {
    if k == 0 then Failure(XapoUtils.ZeroDivisionError)
    else
      var l := |bytestring|;
      var val := k - XapoUtils.PyMod(l, k);
      if val > 255 then Failure(XapoUtils.ByteValueError)
      else if val >= 128 then Failure(XapoUtils.UnicodeDecodeError)
      else if val <= 0 then Success(bytestring)
      else Success(bytestring + seq(val, _ => val as Byte))
  }

  /** `_encrypt`: pad, AES-ECB, Base64; the same function as `xapo_utils.encrypt`. */
  function Encrypt(aes: Ecb.BlockCipher, payload: seq<Byte>, appSecret: seq<Byte>): (r: Result<string, XapoUtils.CodecError>)
    ensures r == XapoUtils.Encrypt(aes, payload, appSecret)
  {
    if !Ecb.IsAesKeyLength(|appSecret|) then Failure(XapoUtils.InvalidKeyLength)
    else
      var padded := Pkcs7Encode(payload).value;
      XapoUtils.PaddedIsAligned(payload, padded);
      Success(Base64.Encode(Ecb.Apply(aes, appSecret, padded)))
  }

  /** `MicroPaymentConfig`: every string defaults to "" and the amount to 0; the timestamp has no default here. */
  datatype MicroPaymentConfig = MicroPaymentConfig(
    senderUserId: string := "",
    senderUserEmail: string := "",
    senderUserCellphone: string := "",
    receiverUserId: string := "",
    receiverUserEmail: string := "",
    payObjectId: string := "",
    amountBit: JsonValue := JsonInt(0),
    timestamp: int)

  /** The attribute names of a configuration, the keys of `config.__dict__`. */
  const ConfigKeys: set<string> := {
    "sender_user_id", "sender_user_email", "sender_user_cellphone", "receiver_user_id",
    "receiver_user_email", "pay_object_id", "amount_BIT", "timestamp"}

  /** `config.__dict__`: each of the eight fields under its own attribute name, and no `pay_type`. */
  function ConfigDict(c: MicroPaymentConfig): (d: JsonObject)
    ensures d.Keys == ConfigKeys
    ensures "pay_type" !in d
    ensures d["sender_user_id"] == JsonString(c.senderUserId)
    ensures d["sender_user_email"] == JsonString(c.senderUserEmail)
    ensures d["sender_user_cellphone"] == JsonString(c.senderUserCellphone)
    ensures d["receiver_user_id"] == JsonString(c.receiverUserId)
    ensures d["receiver_user_email"] == JsonString(c.receiverUserEmail)
    ensures d["pay_object_id"] == JsonString(c.payObjectId)
    ensures d["amount_BIT"] == c.amountBit
    ensures d["timestamp"] == JsonInt(c.timestamp)
  {
    map[
      "sender_user_id" := JsonString(c.senderUserId),
      "sender_user_email" := JsonString(c.senderUserEmail),
      "sender_user_cellphone" := JsonString(c.senderUserCellphone),
      "receiver_user_id" := JsonString(c.receiverUserId),
      "receiver_user_email" := JsonString(c.receiverUserEmail),
      "pay_object_id" := JsonString(c.payObjectId),
      "amount_BIT" := c.amountBit,
      "timestamp" := JsonInt(c.timestamp)]
  }

  /** The dict loses nothing: two configurations with the same dict are the same configuration. */
  lemma ConfigDictInjective(c1: MicroPaymentConfig, c2: MicroPaymentConfig)
    requires ConfigDict(c1) == ConfigDict(c2)
    ensures c1 == c2
  {
  }

  /**
   * `MicroPaymentConfig(...)` without a timestamp, as written: Python
   * evaluates the default `int(round(time.time() * 1000))` once, when the
   * class body runs, so the time of the call plays no part.
   */
  function DefaultConfigAsWritten(importTime: int, callTime: int): (c: MicroPaymentConfig)
    ensures c.timestamp == importTime
    ensures ConfigDict(c)["timestamp"] == JsonInt(importTime)
  {
    MicroPaymentConfig(timestamp := importTime)
  }

  /** Two configurations built at different times without a timestamp get the same one. */
  lemma StaleTimestamp(importTime: int, callTime1: int, callTime2: int)
    requires callTime1 != callTime2
    ensures DefaultConfigAsWritten(importTime, callTime1) == DefaultConfigAsWritten(importTime, callTime2)
  {
  }

  /** The evidently intended default: the clock read at the call; every other field takes its default. */
  function DefaultConfig(callTime: int): (c: MicroPaymentConfig)
    ensures c.timestamp == callTime
    ensures forall k | k in ConfigDict(c) && k != "timestamp" && k != "amount_BIT" :: ConfigDict(c)[k] == JsonString("")
    ensures ConfigDict(c)["amount_BIT"] == JsonInt(0)
  {
    MicroPaymentConfig(timestamp := callTime)
  }

  /** With the intended default, configurations built at different times differ. */
  lemma FreshTimestamp(callTime1: int, callTime2: int)
    requires callTime1 != callTime2
    ensures DefaultConfig(callTime1) != DefaultConfig(callTime2)
  {
  }

  /** `XapoMicroPaymentSDK`: the endpoint, the application id and its secret, set once. */
  class XapoMicroPaymentSDK {
    const serviceUrl: string
    const appId: string
    const appSecret: seq<Byte>

    constructor (serviceUrl: string, appId: string, appSecret: seq<Byte>)
      ensures this.serviceUrl == serviceUrl && this.appId == appId && this.appSecret == appSecret
    {
      this.serviceUrl := serviceUrl;
      this.appId := appId;
      this.appSecret := appSecret;
    }

    /** `__build_url(config, pay_type)`: `service_url + "?" + urlencode(query)`; fails only when AES rejects the secret. */
    function BuildUrl(lib: Libraries, config: MicroPaymentConfig, payType: string): (r: Result<string, XapoUtils.CodecError>)
      ensures r.Failure? <==> !Ecb.IsAesKeyLength(|appSecret|)
      ensures r.Success? ==> |r.value| > |serviceUrl| && r.value[..|serviceUrl| + 1] == serviceUrl + "?"
    {
      var jsonConfig := lib.jsonDumps(ConfigDict(config));
      match Encrypt(lib.aes, jsonConfig, appSecret)
      case Failure(e) => Failure(e)
      case Success(encryptedConfig) =>
        var query := Widget.Query(appId, encryptedConfig, Chars(lib.jsonDumps(Widget.Customization(payType))));
        var url := serviceUrl + "?" + lib.urlencode(query);
        assert url[..|serviceUrl| + 1] == serviceUrl + "?";
        Success(url)
    }

    /**
     * What the provider reads from the URL: the query after `service_url?`
     * has exactly the three parameters, `app_id` in clear, a `button_request`
     * that decrypts under the secret to the JSON of the eight configuration
     * fields, and the JSON of `{"button_text": pay_type}` as `customization`.
     */
    lemma BuildUrlRoundTrip(lib: Libraries, aesInverse: Ecb.BlockCipher, parse: string -> map<string, string>,
                            config: MicroPaymentConfig, payType: string)
      requires Ecb.Inverts(aesInverse, lib.aes)
      requires ParsesBack(parse, lib.urlencode)
      requires Ecb.IsAesKeyLength(|appSecret|)
      ensures var url := BuildUrl(lib, config, payType).value;
        var q := parse(url[|serviceUrl| + 1..]);
        && q.Keys == Widget.QueryKeys
        && q["app_id"] == appId
        && XapoUtils.Decrypt(aesInverse, q["button_request"], appSecret) == Some(lib.jsonDumps(ConfigDict(config)))
        && q["customization"] == Chars(lib.jsonDumps(Widget.Customization(payType)))
    {
      var jsonConfig := lib.jsonDumps(ConfigDict(config));
      var token := Encrypt(lib.aes, jsonConfig, appSecret).value;
      var query := Widget.Query(appId, token, Chars(lib.jsonDumps(Widget.Customization(payType))));
      var url := serviceUrl + "?" + lib.urlencode(query);
      assert BuildUrl(lib, config, payType).value == url;
      assert url[|serviceUrl| + 1..] == lib.urlencode(query);
      assert parse(lib.urlencode(query)) == query;
      XapoUtils.DecryptEncrypt(lib.aes, aesInverse, jsonConfig, appSecret);
    }

    /** `build_iframe_widget(config, pay_type)`: the iframe snippet carries exactly the built URL as its `src`. */
    function BuildIframeWidget(lib: Libraries, config: MicroPaymentConfig, payType: string): (r: Result<string, XapoUtils.CodecError>)
      ensures r.Failure? <==> !Ecb.IsAesKeyLength(|appSecret|)
      ensures r.Success? ==> Widget.Extract(Widget.Iframe, r.value) == Some(BuildUrl(lib, config, payType).value)
    {
      match BuildUrl(lib, config, payType)
      case Failure(e) => Failure(e)
      case Success(widgetUrl) =>
        Widget.ExtractFill(Widget.Iframe, widgetUrl);
        Success(Widget.Fill(Widget.Iframe, widgetUrl))
    }

    /** `build_div_widget(config, pay_type)`: the div snippet carries exactly the built URL inside `.load("...")`. */
    function BuildDivWidget(lib: Libraries, config: MicroPaymentConfig, payType: string): (r: Result<string, XapoUtils.CodecError>)
      ensures r.Failure? <==> !Ecb.IsAesKeyLength(|appSecret|)
      ensures r.Success? ==> Widget.Extract(Widget.Div, r.value) == Some(BuildUrl(lib, config, payType).value)
    {
      match BuildUrl(lib, config, payType)
      case Failure(e) => Failure(e)
      case Success(widgetUrl) =>
        Widget.ExtractFill(Widget.Div, widgetUrl);
        Success(Widget.Fill(Widget.Div, widgetUrl))
    }
  }
}

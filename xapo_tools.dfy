/**
 * xapo_sdk/xapo_tools.py: the newer builder.  It encrypts with the shared
 * codec of xapo_utils.py, and `pay_type` is a field of the configuration,
 * so it travels both inside the encrypted request and in clear as
 * `customization`.
 */
module XapoTools {
  import opened Wrappers
  import opened Octets
  import Ecb
  import XapoUtils
  import opened Foreign
  import Widget
  import MicroPaymentSdk

  /** `MicroPaymentConfig`: the eight fields of the older record, plus `pay_type` (default ""). */
  datatype MicroPaymentConfig = MicroPaymentConfig(
    senderUserId: string := "",
    senderUserEmail: string := "",
    senderUserCellphone: string := "",
    receiverUserId: string := "",
    receiverUserEmail: string := "",
    payObjectId: string := "",
    amountBit: JsonValue := JsonInt(0),
    timestamp: int,
    payType: string := "")

  /** The same configuration without its `pay_type`: the record of micro_payment.py. */
  function Older(c: MicroPaymentConfig): MicroPaymentSdk.MicroPaymentConfig
  {
    MicroPaymentSdk.MicroPaymentConfig(c.senderUserId, c.senderUserEmail, c.senderUserCellphone,
      c.receiverUserId, c.receiverUserEmail, c.payObjectId, c.amountBit, c.timestamp)
  }

  /** `config.__dict__`: nine keys, the older eight and `pay_type`, each holding its own field. */
  function ConfigDict(c: MicroPaymentConfig): (d: JsonObject)
    ensures d.Keys == MicroPaymentSdk.ConfigKeys + {"pay_type"}
    ensures d["pay_type"] == JsonString(c.payType)
    ensures d == MicroPaymentSdk.ConfigDict(Older(c))["pay_type" := JsonString(c.payType)]
    ensures d["sender_user_id"] == JsonString(c.senderUserId)
    ensures d["sender_user_email"] == JsonString(c.senderUserEmail)
    ensures d["sender_user_cellphone"] == JsonString(c.senderUserCellphone)
    ensures d["receiver_user_id"] == JsonString(c.receiverUserId)
    ensures d["receiver_user_email"] == JsonString(c.receiverUserEmail)
    ensures d["pay_object_id"] == JsonString(c.payObjectId)
    ensures d["amount_BIT"] == c.amountBit
    ensures d["timestamp"] == JsonInt(c.timestamp)
  {
    map[
      "sender_user_id" := JsonString(c.senderUserId),
      "sender_user_email" := JsonString(c.senderUserEmail),
      "sender_user_cellphone" := JsonString(c.senderUserCellphone),
      "receiver_user_id" := JsonString(c.receiverUserId),
      "receiver_user_email" := JsonString(c.receiverUserEmail),
      "pay_object_id" := JsonString(c.payObjectId),
      "amount_BIT" := c.amountBit,
      "timestamp" := JsonInt(c.timestamp),
      "pay_type" := JsonString(c.payType)]
  }

  /** The dict loses nothing: equal dicts come from equal configurations. */
  lemma ConfigDictInjective(c1: MicroPaymentConfig, c2: MicroPaymentConfig)
    requires ConfigDict(c1) == ConfigDict(c2)
    ensures c1 == c2
  {
    var d1, d2 := ConfigDict(c1), ConfigDict(c2);
    assert d1["pay_type"] == d2["pay_type"];
    var o1, o2 := MicroPaymentSdk.ConfigDict(Older(c1)), MicroPaymentSdk.ConfigDict(Older(c2));
    assert o1 == d1 - {"pay_type"} by {
      assert o1.Keys == d1.Keys - {"pay_type"};
    }
    assert o2 == d2 - {"pay_type"} by {
      assert o2.Keys == d2.Keys - {"pay_type"};
    }
    MicroPaymentSdk.ConfigDictInjective(Older(c1), Older(c2));
  }

  /**
   * `MicroPaymentConfig(...)` without a timestamp, as written: the default
   * is read from the clock once, when the class body runs.
   */
  function DefaultConfigAsWritten(importTime: int, callTime: int): (c: MicroPaymentConfig)
    ensures c.timestamp == importTime
    ensures ConfigDict(c)["timestamp"] == JsonInt(importTime)
  {
    MicroPaymentConfig(timestamp := importTime)
  }

  /** Two configurations built at different times without a timestamp get the same one. */
  lemma StaleTimestamp(importTime: int, callTime1: int, callTime2: int)
    requires callTime1 != callTime2
    ensures DefaultConfigAsWritten(importTime, callTime1) == DefaultConfigAsWritten(importTime, callTime2)
  {
  }

  /** The evidently intended default: the clock read at the call; every other field takes its default. */
  function DefaultConfig(callTime: int): (c: MicroPaymentConfig)
    ensures c.timestamp == callTime
    ensures forall k | k in ConfigDict(c) && k != "timestamp" && k != "amount_BIT" :: ConfigDict(c)[k] == JsonString("")
    ensures ConfigDict(c)["amount_BIT"] == JsonInt(0)
  {
    MicroPaymentConfig(timestamp := callTime)
  }

  /** With the intended default, configurations built at different times differ. */
  lemma FreshTimestamp(callTime1: int, callTime2: int)
    requires callTime1 != callTime2
    ensures DefaultConfig(callTime1) != DefaultConfig(callTime2)
  {
  }

  /** `MicroPayment`: the endpoint, the application id and its secret, set once. */
  class MicroPayment {
    const serviceUrl: string
    const appId: string
    const appSecret: seq<Byte>

    constructor (serviceUrl: string, appId: string, appSecret: seq<Byte>)
      ensures this.serviceUrl == serviceUrl && this.appId == appId && this.appSecret == appSecret
    {
      this.serviceUrl := serviceUrl;
      this.appId := appId;
      this.appSecret := appSecret;
    }

    /** `__build_url(config)`: `service_url + "?" + urlencode(query)`; fails only when AES rejects the secret. */
    function BuildUrl(lib: Libraries, config: MicroPaymentConfig): (r: Result<string, XapoUtils.CodecError>)
      ensures r.Failure? <==> !Ecb.IsAesKeyLength(|appSecret|)
      ensures r.Success? ==> |r.value| > |serviceUrl| && r.value[..|serviceUrl| + 1] == serviceUrl + "?"
    {
      var jsonConfig := lib.jsonDumps(ConfigDict(config));
      match XapoUtils.Encrypt(lib.aes, jsonConfig, appSecret)
      case Failure(e) => Failure(e)
      case Success(encryptedConfig) =>
        var query := Widget.Query(appId, encryptedConfig, Chars(lib.jsonDumps(Widget.Customization(config.payType))));
        var url := serviceUrl + "?" + lib.urlencode(query);
        assert url[..|serviceUrl| + 1] == serviceUrl + "?";
        Success(url)
    }

    /**
     * What the provider reads from the URL: exactly the three parameters,
     * `app_id` in clear, a `button_request` that decrypts under the secret
     * to the JSON of all nine configuration fields (so `pay_type` too), and
     * `{"button_text": pay_type}` as `customization`.
     */
    lemma BuildUrlRoundTrip(lib: Libraries, aesInverse: Ecb.BlockCipher, parse: string -> map<string, string>,
                            config: MicroPaymentConfig)
      requires Ecb.Inverts(aesInverse, lib.aes)
      requires ParsesBack(parse, lib.urlencode)
      requires Ecb.IsAesKeyLength(|appSecret|)
      ensures var url := BuildUrl(lib, config).value;
        var q := parse(url[|serviceUrl| + 1..]);
        && q.Keys == Widget.QueryKeys
        && q["app_id"] == appId
        && XapoUtils.Decrypt(aesInverse, q["button_request"], appSecret) == Some(lib.jsonDumps(ConfigDict(config)))
        && q["customization"] == Chars(lib.jsonDumps(Widget.Customization(config.payType)))
    {
      var jsonConfig := lib.jsonDumps(ConfigDict(config));
      var token := XapoUtils.Encrypt(lib.aes, jsonConfig, appSecret).value;
      var query := Widget.Query(appId, token, Chars(lib.jsonDumps(Widget.Customization(config.payType))));
      var url := serviceUrl + "?" + lib.urlencode(query);
      assert BuildUrl(lib, config).value == url;
      assert url[|serviceUrl| + 1..] == lib.urlencode(query);
      assert parse(lib.urlencode(query)) == query;
      XapoUtils.DecryptEncrypt(lib.aes, aesInverse, jsonConfig, appSecret);
    }

    /**
     * Against the older builder with the same endpoint, id and secret: the
     * `customization` parameter is the same when the older one is given the
     * configuration's `pay_type`; the encrypted request differs in carrying
     * `pay_type` as a ninth field.
     */
    lemma SameCustomizationAsOlder(lib: Libraries, aesInverse: Ecb.BlockCipher, parse: string -> map<string, string>,
                                   older: MicroPaymentSdk.XapoMicroPaymentSDK, config: MicroPaymentConfig)
      requires Ecb.Inverts(aesInverse, lib.aes)
      requires ParsesBack(parse, lib.urlencode)
      requires Ecb.IsAesKeyLength(|appSecret|)
      requires older.serviceUrl == serviceUrl && older.appId == appId && older.appSecret == appSecret
      ensures var q := parse(BuildUrl(lib, config).value[|serviceUrl| + 1..]);
        var p := parse(older.BuildUrl(lib, Older(config), config.payType).value[|serviceUrl| + 1..]);
        && q.Keys == p.Keys
        && q["app_id"] == p["app_id"]
        && q["customization"] == p["customization"]
        && XapoUtils.Decrypt(aesInverse, q["button_request"], appSecret)
           == Some(lib.jsonDumps(MicroPaymentSdk.ConfigDict(Older(config))["pay_type" := JsonString(config.payType)]))
    {
      BuildUrlRoundTrip(lib, aesInverse, parse, config);
      older.BuildUrlRoundTrip(lib, aesInverse, parse, Older(config), config.payType);
    }

    /** `build_iframe_widget(config)`: the iframe snippet carries exactly the built URL as its `src`. */
    function BuildIframeWidget(lib: Libraries, config: MicroPaymentConfig): (r: Result<string, XapoUtils.CodecError>)
      ensures r.Failure? <==> !Ecb.IsAesKeyLength(|appSecret|)
      ensures r.Success? ==> Widget.Extract(Widget.Iframe, r.value) == Some(BuildUrl(lib, config).value)
    {
      match BuildUrl(lib, config)
      case Failure(e) => Failure(e)
      case Success(widgetUrl) =>
        Widget.ExtractFill(Widget.Iframe, widgetUrl);
        Success(Widget.Fill(Widget.Iframe, widgetUrl))
    }

    /** `build_div_widget(config)`: the div snippet carries exactly the built URL inside `.load("...")`. */
    function BuildDivWidget(lib: Libraries, config: MicroPaymentConfig): (r: Result<string, XapoUtils.CodecError>)
      ensures r.Failure? <==> !Ecb.IsAesKeyLength(|appSecret|)
      ensures r.Success? ==> Widget.Extract(Widget.Div, r.value) == Some(BuildUrl(lib, config).value)
    {
      match BuildUrl(lib, config)
      case Failure(e) => Failure(e)
      case Success(widgetUrl) =>
        Widget.ExtractFill(Widget.Div, widgetUrl);
        Success(Widget.Fill(Widget.Div, widgetUrl))
    }
  }
}

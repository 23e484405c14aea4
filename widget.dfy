/**
 * What both widget builders share: the three query parameters, the display
 * customization, and the two HTML snippets.  Each snippet is a fixed text with
 * one place for the widget URL, given here as it reads after
 * `textwrap.dedent`.
 */
module Widget {
  import opened Wrappers
  import opened Foreign

  /** The query carries exactly these parameters. */
  const QueryKeys: set<string> := {"app_id", "button_request", "customization"}

  /** The query dict of `__build_url`: app id in clear, the encrypted configuration, the display customization. */
  function Query(appId: string, buttonRequest: string, customization: string): (q: map<string, string>)
    ensures q.Keys == QueryKeys
    ensures q["app_id"] == appId && q["button_request"] == buttonRequest && q["customization"] == customization
  {
    map["app_id" := appId, "button_request" := buttonRequest, "customization" := customization]
  }

  /** The object `{"button_text": pay_type}` serialised into the `customization` parameter. */
  function Customization(payType: string): (o: JsonObject)
    ensures o.Keys == {"button_text"} && o["button_text"] == JsonString(payType)
  {
    map["button_text" := JsonString(payType)]
  }

  /** A fixed snippet with one place for the URL. */
  datatype Template = Template(prefix: string, suffix: string)

  const IframeTag: string := "<iframe id=\"tipButtonFrame\""
  const SrcAttribute: string := " src=\""

  /** The iframe snippet: the URL is the `src` of `<iframe id="tipButtonFrame" ...>`. */
  const Iframe: Template := Template(
    "\n" + IframeTag + " scrolling=\"no\" frameborder=\"0\"\n"
    + "    style=\"border:none; overflow:hidden; height:22px;\"\n"
    + "    allowTransparency=\"true\"" + SrcAttribute,
    "\">\n</iframe>\n")

  const DivContainers: string :=
    "\n<div id=\"tipButtonDiv\" class=\"tipButtonDiv\"></div>\n"
    + "<div id=\"tipButtonPopup\" class=\"tipButtonPopup\"></div>\n"
  const LoadCall: string := "$(\"#tipButtonDiv\").load(\""

  /** The div snippet: two containers and a script that loads the URL into `tipButtonDiv` once the page is ready. */
  const Div: Template := Template(
    DivContainers + "<script>\n    $(document).ready(function() {\n        " + LoadCall,
    "\");\n    });\n</script>\n")

  /** `template.format(url)`. */
  function Fill(t: Template, url: string): (html: string)
    ensures |html| == |t.prefix| + |url| + |t.suffix|
    ensures html[..|t.prefix|] == t.prefix && html[|html| - |t.suffix|..] == t.suffix
    ensures html[|t.prefix|..|html| - |t.suffix|] == url
  {
    t.prefix + url + t.suffix
  }

  /** The URL a snippet carries, if the snippet has the template's shape. */
  function Extract(t: Template, html: string): (r: Option<string>)
    ensures r.Some? ==> |r.value| == |html| - |t.prefix| - |t.suffix|
  {
    if |html| >= |t.prefix| + |t.suffix|
       && html[..|t.prefix|] == t.prefix
       && html[|html| - |t.suffix|..] == t.suffix
    then Some(html[|t.prefix|..|html| - |t.suffix|])
    else None
  }

  /** The URL is substituted once and can be read back: extracting from a filled template gives the URL. */
  lemma ExtractFill(t: Template, url: string)
    ensures Extract(t, Fill(t, url)) == Some(url)
  {
  }

  /** Conversely, a snippet from which a URL is extracted is exactly the template filled with it. */
  lemma FillExtract(t: Template, html: string, url: string)
    requires Extract(t, html) == Some(url)
    ensures Fill(t, url) == html
  {
    var p, s := |t.prefix|, |t.suffix|;
    assert html == html[..p] + html[p..|html| - s] + html[|html| - s..];
  }

  /** Different URLs give different snippets. */
  lemma FillInjective(t: Template, u1: string, u2: string)
    requires Fill(t, u1) == Fill(t, u2)
    ensures u1 == u2
  {
    ExtractFill(t, u1);
    ExtractFill(t, u2);
  }

  /** The iframe snippet opens with a newline, then the `tipButtonFrame` tag; the URL follows ` src="`. */
  lemma IframeLandmarks(url: string)
    ensures var html := Fill(Iframe, url);
      && html[0] == '\n'
      && html[1..1 + |IframeTag|] == IframeTag
      && html[|Iframe.prefix| - |SrcAttribute|..|Iframe.prefix|] == SrcAttribute
      && html[|Iframe.prefix|..|Iframe.prefix| + |url|] == url
  {
  }

  /** The div snippet opens with the two containers and the URL is the argument of `$("#tipButtonDiv").load(...)`. */
  lemma DivLandmarks(url: string)
    ensures var html := Fill(Div, url);
      && html[..|DivContainers|] == DivContainers
      && html[|Div.prefix| - |LoadCall|..|Div.prefix|] == LoadCall
      && html[|Div.prefix|..|Div.prefix| + |url|] == url
      && html[|Div.prefix| + |url|..|Div.prefix| + |url| + 3] == "\");"
  {
    var html := Fill(Div, url);
    var at := |Div.prefix| + |url|;
    assert html[at..] == Div.suffix;
    assert html[at..at + 3] == Div.suffix[..3];
    assert Div.suffix[0] == '"' && Div.suffix[1] == ')' && Div.suffix[2] == ';';
  }
}

/**
 * What the QR code is generated from: the content mode, the text field cut
 * to its limit, the readiness rule that enables generate and download, and
 * the `data` string handed to the renderer.
 */
module Content {
  import opened Wrappers
  import opened JsString
  import opened WifiPayload

  /** The two content modes. */
  datatype Mode = Text | Wifi

  /** The most characters the text field keeps and the text data carries. */
  const DataMaxChars: nat := 500

  /** The mode a radio value selects: `"wifi"` selects Wi-Fi, anything else text. */
  function ModeOf(value: string): (m: Mode)
    ensures m == Wifi <==> value == "wifi"
    ensures m == Text <==> value != "wifi"
  {
    if value == "wifi" then Wifi else Text
  }

  /**
   * The text field after `enforceTextLimit`: a field that is present keeps
   * at most its first 500 characters; an absent field stays absent.
   */
  function LimitText(field: Option<string>): (r: Option<string>)
    ensures r.Some? <==> field.Some?
    ensures r.Some? ==> r.value <= field.value && |r.value| <= DataMaxChars
    ensures r.Some? && |field.value| <= DataMaxChars ==> r == field
    ensures r.Some? && |field.value| > DataMaxChars ==> |r.value| == DataMaxChars
  {
    match field
    case Some(v) => Some(Slice(v, DataMaxChars))
    case None => None
  }

  /** Enforcing the limit a second time changes nothing. */
  lemma LimitTextIdempotent(field: Option<string>)
    ensures LimitText(LimitText(field)) == LimitText(field)
  {
  }

  /**
   * `getContentValue()`: the text field trimmed. It is empty exactly when
   * the field is absent or holds only whitespace, and otherwise neither
   * starts nor ends with whitespace.
   */
  function ContentValue(dataInput: Option<string>): (r: string)
    ensures r == [] <==> AllWhitespace(OrEmpty(dataInput))
    ensures dataInput.None? ==> r == []
    ensures r == [] || (!IsWhitespace(r[0]) && !IsWhitespace(r[|r| - 1]))
  {
    TrimEmptyIff(OrEmpty(dataInput));
    Trim(OrEmpty(dataInput))
  }

  /** The text-mode `data`: the trimmed text cut to at most 500 characters. */
  function TextData(dataInput: Option<string>): (r: string)
    ensures r <= ContentValue(dataInput)
    ensures |r| == if |ContentValue(dataInput)| <= DataMaxChars then |ContentValue(dataInput)| else DataMaxChars
  {
    Slice(ContentValue(dataInput), DataMaxChars)
  }

  /**
   * The `data` string `buildOptions` hands to the renderer: in text mode a
   * prefix of the trimmed text of at most 500 characters, in Wi-Fi mode the
   * whole payload, `WIFI:T:` to the final `;;`.
   */
  function RenderData(mode: Mode, dataInput: Option<string>, ssid: Option<string>, password: Option<string>): (r: string)
    ensures mode == Text ==> r <= ContentValue(dataInput) && |r| <= DataMaxChars
    ensures mode == Wifi ==> |r| >= 9 && r[..7] == "WIFI:T:" && r[|r| - 2..] == ";;"
  {
    match mode
    case Wifi => BuildWifiPayload(ssid, password)
    case Text => TextData(dataInput)
  }

  /**
   * `hasContent()`: whether generate and download are enabled — in text
   * mode when the text field holds a non-whitespace character, in Wi-Fi
   * mode when the SSID field does.
   */
  predicate HasContent(mode: Mode, dataInput: Option<string>, ssid: Option<string>): (b: bool)
    ensures mode == Text ==> (b <==> !AllWhitespace(OrEmpty(dataInput)))
    ensures mode == Wifi ==> (b <==> !AllWhitespace(OrEmpty(ssid)))
  {
    TrimEmptyIff(OrEmpty(ssid));
    match mode
    case Wifi => Trim(OrEmpty(ssid)) != []
    case Text => ContentValue(dataInput) != []
  }

  /**
   * In text mode the form is ready exactly when the text holds a
   * non-whitespace character, which is exactly when the rendered data is
   * non-empty.
   */
  lemma TextReadiness(dataInput: Option<string>, ssid: Option<string>, password: Option<string>)
    ensures HasContent(Text, dataInput, ssid) <==> !AllWhitespace(OrEmpty(dataInput))
    ensures HasContent(Text, dataInput, ssid) <==> RenderData(Text, dataInput, ssid, password) != []
  {
    TrimEmptyIff(OrEmpty(dataInput));
  }

  /** In Wi-Fi mode the rendered data is the payload, which reads back to the network it encodes. */
  lemma WifiDataReadsBack(dataInput: Option<string>, ssid: Option<string>, password: Option<string>)
    ensures ParseWifiPayload(RenderData(Wifi, dataInput, ssid, password))
         == Some(WifiConfig(Auth(OrEmpty(password)), EffectiveSsid(ssid), OrEmpty(password)))
  {
    ParseBuild(ssid, password);
  }

  /**
   * In Wi-Fi mode the rendered data is never empty, and the form is ready
   * exactly when the SSID holds a non-whitespace character.
   */
  lemma WifiReadiness(dataInput: Option<string>, ssid: Option<string>, password: Option<string>)
    ensures RenderData(Wifi, dataInput, ssid, password) != []
    ensures HasContent(Wifi, dataInput, ssid) <==> !AllWhitespace(OrEmpty(ssid))
  {
    TrimEmptyIff(OrEmpty(ssid));
  }

  /**
   * A ready Wi-Fi form puts the trimmed SSID into the payload; one that is
   * not ready would put the `MyWiFi` placeholder there.
   */
  lemma WifiSsidCarried(dataInput: Option<string>, ssid: Option<string>, password: Option<string>)
    ensures HasContent(Wifi, dataInput, ssid) ==>
              ParseWifiPayload(RenderData(Wifi, dataInput, ssid, password))
              == Some(WifiConfig(Auth(OrEmpty(password)), Trim(OrEmpty(ssid)), OrEmpty(password)))
    ensures !HasContent(Wifi, dataInput, ssid) ==>
              ParseWifiPayload(RenderData(Wifi, dataInput, ssid, password))
              == Some(WifiConfig(Auth(OrEmpty(password)), "MyWiFi", OrEmpty(password)))
  {
    WifiDataReadsBack(dataInput, ssid, password);
  }

  /**
   * Once the text field is within its limit, the cut in `buildOptions`
   * never shortens the trimmed text.
   */
  lemma LimitedTextIsNotCut(dataInput: Option<string>)
    requires |OrEmpty(dataInput)| <= DataMaxChars
    ensures TextData(dataInput) == ContentValue(dataInput)
  {
    var _, _ := TrimBounds(OrEmpty(dataInput));
  }
}

/**
 * The form state the page keeps between events: the content mode, whether
 * a logo is loaded, and the text, SSID and password fields (each of which
 * may be missing from the page).
 */
module Form {
  import opened Wrappers
  import opened JsString
  import opened Content

  /** A form field after reset: emptied when it is on the page. */
  function Cleared(field: Option<string>): (r: Option<string>)
    ensures r.Some? <==> field.Some?
    ensures r.Some? ==> r.value == []
  {
    if field.Some? then Some([]) else None
  }

  class ContentForm {
    var mode: Mode
    /** Whether `state.logoImage` holds a loaded image. */
    var logoLoaded: bool
    /** The text field's value; None when the page has no text field. */
    var dataInput: Option<string>
    /** The text field's `maxLength`; None while it has not been set. */
    var dataMaxLength: Option<nat>
    var wifiSsid: Option<string>
    var wifiPassword: Option<string>

    /** After every event, a text field on the page is capped at 500 characters. */
    ghost predicate Valid()
      reads this
    {
      dataInput.Some? ==> dataMaxLength == Some(DataMaxChars) && |dataInput.value| <= DataMaxChars
    }

    /** Whether generate and download are enabled. */
    predicate Ready()
      reads this
    {
      HasContent(mode, dataInput, wifiSsid)
    }

    /** The data the renderer would be given now. */
    function Data(): string
      reads this
    {
      RenderData(mode, dataInput, wifiSsid, wifiPassword)
    }

    /**
     * The page as loaded: text mode, no logo, the fields as the page holds
     * them, then the text limit enforced and the mode set to text.
     */
    constructor Load(text: Option<string>, ssid: Option<string>, password: Option<string>)
      ensures Valid()
      ensures mode == Text && !logoLoaded
      ensures dataInput == LimitText(text)
      ensures wifiSsid == ssid && wifiPassword == password
    {
      mode := Text;
      logoLoaded := false;
      dataInput := text;
      dataMaxLength := None;
      wifiSsid := ssid;
      wifiPassword := password;
      new;
      EnforceTextLimit();
      SetContentMode("text");
    }

    /** `enforceTextLimit()`: caps a present text field at 500 characters; nothing else changes. */
    method EnforceTextLimit()
      modifies this`dataInput, this`dataMaxLength
      ensures Valid()
      ensures dataInput == LimitText(old(dataInput))
      ensures dataMaxLength == if old(dataInput).Some? then Some(DataMaxChars) else old(dataMaxLength)
    {
      if dataInput.None? {
        return;
      }
      dataMaxLength := Some(DataMaxChars);
      dataInput := Some(Slice(dataInput.value, DataMaxChars));
    }

    /** `setContentMode(value)`: any value but `"wifi"` selects text; the text limit is enforced. */
    method SetContentMode(value: string)
      modifies this`mode, this`dataInput, this`dataMaxLength
      ensures Valid()
      ensures mode == ModeOf(value)
      ensures dataInput == LimitText(old(dataInput))
    {
      mode := if value == "wifi" then Wifi else Text;
      EnforceTextLimit();
    }

    /** An edit of the text field: the new value, then the text limit enforced. */
    method EditText(value: string)
      modifies this`dataInput, this`dataMaxLength
      ensures Valid()
      ensures dataInput == if old(dataInput).Some? then LimitText(Some(value)) else None
    {
      if dataInput.Some? {
        dataInput := Some(value);
      }
      EnforceTextLimit();
    }

    /**
     * `resetForm()`: the fields emptied, the logo dropped, text mode; the
     * form is then not ready, so generate and download are disabled.
     */
    method ResetForm()
      modifies this
      ensures Valid()
      ensures mode == Text && !logoLoaded
      ensures dataInput == Cleared(old(dataInput))
      ensures wifiSsid == Cleared(old(wifiSsid)) && wifiPassword == Cleared(old(wifiPassword))
      ensures !Ready()
    {
      dataInput := Cleared(dataInput);
      wifiSsid := Cleared(wifiSsid);
      wifiPassword := Cleared(wifiPassword);
      logoLoaded := false;
      SetContentMode("text");
    }

    /**
     * A click on generate (or download): nothing when the form is not
     * ready, otherwise the non-empty data the renderer is given. In text
     * mode, the field being within its limit, that is the trimmed text
     * itself.
     */
    method Generate() returns (data: Option<string>)
      requires Valid()
      ensures data.Some? <==> Ready()
      ensures data.Some? ==> data.value == Data() && data.value != []
      ensures data.Some? && mode == Text ==> data.value == ContentValue(dataInput)
    {
      if !HasContent(mode, dataInput, wifiSsid) {
        return None;
      }
      var d := RenderData(mode, dataInput, wifiSsid, wifiPassword);
      if mode == Text {
        TextReadiness(dataInput, wifiSsid, wifiPassword);
        LimitedTextIsNotCut(dataInput);
      } else {
        WifiReadiness(dataInput, wifiSsid, wifiPassword);
      }
      return Some(d);
    }
  }
}

# QR Studio content layer, modelled in Dafny

QR Studio is a browser page that renders a QR code from a form. In front of
the renderer sits a small content layer:

- the user picks a content mode, text or Wi-Fi;
- in text mode the text field is capped at 500 characters, and the QR data is
  the trimmed text cut to 500 characters;
- in Wi-Fi mode the QR data is a `WIFI:` network string built from the SSID
  and password, with `\ ; , :` escaped by a backslash. The double quote,
  which the `WIFI:` convention also reserves, is left as it is, as the code
  does. This string is never cut to 500 characters: only text-mode data is;
- generate and download are enabled only when the form has content;
- reset empties the fields, drops the logo and returns to text mode.

The project models that layer and proves what it promises. The modules are:

- `Wrappers`: an `Option` for a form field that may be absent from the page.
- `JsString`: JavaScript's `value || ""`, `trim` (with the ECMAScript
  whitespace and line-terminator set) and `slice(0, n)`.
- `WifiPayload`: the escaping and its inverse, the payload builder, and a
  reader that splits the payload at unescaped `;` and unescapes the SSID and
  password. The reader is the partner the round-trip lemmas use.
- `Content`: the content mode, the text limit, the readiness rule and the
  `data` choice of `buildOptions`.
- `Form`: the class `ContentForm`, holding the page state that event handlers
  update in place. Its methods are the text-limit, mode-change, text-edit,
  reset and generate handlers.

## Model

| member | source | states |
|---|---|---|
| `JsString.OrEmpty` | docs/abyss/registry/runtime.js:78 | `value || ""`: a missing field reads as the empty string, a present one as its own value |
| `JsString.Trim` | docs/abyss/registry/runtime.js:78 | `trim` never lengthens its input, and what it returns neither starts nor ends with whitespace; `TrimBounds` and `TrimEmptyIff` give the slice it keeps and when it is empty |
| `JsString.TrimBounds` | docs/abyss/registry/runtime.js:78 | `trim` keeps a slice `s[i..j]` with only whitespace before `i` and after `j`, and the result neither starts nor ends with whitespace |
| `JsString.TrimEmptyIff` | docs/abyss/registry/runtime.js:97-99 | trimming gives the empty string exactly when the input is whitespace only |
| `JsString.TrimIdempotent` | docs/abyss/registry/runtime.js:78 | trimming a trimmed string changes nothing |
| `JsString.Slice` | docs/abyss/registry/runtime.js:74 | `slice(0, n)` is a prefix of the input of length `min(len, n)` |
| `JsString.SliceIdempotent` | docs/abyss/registry/runtime.js:74 | slicing twice to the same bound equals slicing once |
| `WifiPayload.Escape` | docs/abyss/registry/runtime.js:82 | the escaped length is the input length plus the number of `\ ; , :` characters |
| `WifiPayload.EscapeWifiValue` | docs/abyss/registry/runtime.js:81-83 | a null or undefined value escapes to `""`; otherwise the length grows by one per reserved character |
| `WifiPayload.EscapeAppend` | docs/abyss/registry/runtime.js:82 | escaping works character by character, in order: escaping `a + b` gives the escaping of `a` followed by that of `b` |
| `WifiPayload.UnescapeEscape` | docs/abyss/registry/runtime.js:81-83 | unescaping (dropping the backslash before each reserved character) recovers the original value |
| `WifiPayload.EscapeUnescape` | docs/abyss/registry/runtime.js:81-83 | any text that unescapes to `s` is exactly the escaping of `s`, so escaped forms and values correspond one to one |
| `WifiPayload.EscapeInjective` | docs/abyss/registry/runtime.js:81-83 | two values with the same escaped form are equal |
| `WifiPayload.NextField` | docs/abyss/registry/runtime.js:89-92 | a field found by the reader is the text before a `;`, and the rest follows that `;`; `NextFieldIsFirst` shows that `;` is the first unescaped one |
| `WifiPayload.NextFieldIsFirst` | docs/abyss/registry/runtime.js:89-92 | the field the reader finds holds no unescaped `;` of its own: the `;` that ends it is the first unescaped one |
| `WifiPayload.NextFieldEscaped` | docs/abyss/registry/runtime.js:89-92 | an escaped value holds no unescaped `;`, so its field ends at the `;` written after it |
| `WifiPayload.Auth` | docs/abyss/registry/runtime.js:88 | the auth token is `WPA` exactly when the raw password is non-empty and `nopass` exactly when it is empty |
| `WifiPayload.EffectiveSsid` | docs/abyss/registry/runtime.js:86 | the SSID used is never empty; it is the trimmed field when that is non-empty, and `MyWiFi` when the trimmed field is empty |
| `WifiPayload.PassPart` | docs/abyss/registry/runtime.js:91 | the P segment is empty exactly when the password is empty, and otherwise ends in `;` |
| `WifiPayload.PassPartReadsBack` | docs/abyss/registry/runtime.js:90-91 | a non-empty P segment is `P:` and `;` around the escaped password, which unescapes back to the password |
| `WifiPayload.Payload` | docs/abyss/registry/runtime.js:88-92 | every payload starts with `WIFI:T:` and ends with `;;`; its fields are given by `PayloadSplit`, it reads back by `ParsePayload` and it is injective by `PayloadInjective` |
| `WifiPayload.BuildWifiPayload` | docs/abyss/registry/runtime.js:85-93 | the built payload starts with `WIFI:T:` and ends with `;;`; `ParseBuild` reads it back to the auth token, effective SSID and password, and `PayloadSplit` gives its fields |
| `WifiPayload.TailFields` | docs/abyss/registry/runtime.js:91-92 | after the S field come the P field (present only for a non-empty password) and the empty field |
| `WifiPayload.PayloadSplit` | docs/abyss/registry/runtime.js:89-92 | split at unescaped `;`, the payload is exactly the T field, the S field, the P field when the password is non-empty, and an empty field |
| `WifiPayload.ParsePayload` | docs/abyss/registry/runtime.js:88-92 | reading a payload back gives its auth token, SSID and password |
| `WifiPayload.ParseBuild` | docs/abyss/registry/runtime.js:85-93 | reading the built payload back gives the auth token, the trimmed or defaulted SSID, and the untrimmed password |
| `WifiPayload.PayloadInjective` | docs/abyss/registry/runtime.js:88-92 | equal payloads carry equal SSIDs and equal passwords, so no part of either is ever cut off |
| `Content.ModeOf` | docs/abyss/registry/runtime.js:153 | `"wifi"` selects Wi-Fi mode, and every other value selects text mode |
| `Content.LimitText` | docs/abyss/registry/runtime.js:71-75 | an absent field stays absent; a present one becomes a prefix of its old value of at most 500 characters, is unchanged when already within the limit, and is exactly 500 characters long when it was longer |
| `Content.LimitTextIdempotent` | docs/abyss/registry/runtime.js:71-75 | enforcing the limit twice is enforcing it once |
| `Content.ContentValue` | docs/abyss/registry/runtime.js:77-79 | the trimmed text is empty exactly when the field is absent or holds only whitespace, and otherwise neither starts nor ends with whitespace |
| `Content.RenderData` | docs/abyss/registry/runtime.js:277-280 | text-mode data is a prefix of the trimmed text of at most 500 characters; Wi-Fi data is the whole payload from `WIFI:T:` to `;;`, read back by `WifiDataReadsBack` |
| `Content.HasContent` | docs/abyss/registry/runtime.js:95-100 | in text mode the form has content exactly when the text field holds a non-whitespace character; in Wi-Fi mode exactly when the SSID field does |
| `Content.TextData` | docs/abyss/registry/runtime.js:277-280 | text-mode data is a prefix of the trimmed text of length `min(len, 500)` |
| `Content.TextReadiness` | docs/abyss/registry/runtime.js:95-100 | in text mode the form is ready exactly when the text holds a non-whitespace character, which is exactly when the rendered data is non-empty |
| `Content.WifiDataReadsBack` | docs/abyss/registry/runtime.js:277-279 | in Wi-Fi mode the rendered data reads back to the auth token, the effective SSID and the password |
| `Content.WifiReadiness` | docs/abyss/registry/runtime.js:95-98 | in Wi-Fi mode the data is never empty, and the form is ready exactly when the SSID holds a non-whitespace character |
| `Content.WifiSsidCarried` | docs/abyss/registry/runtime.js:85-98 | a ready Wi-Fi form carries the trimmed SSID in its payload; a form that is not ready would carry `MyWiFi` |
| `Content.LimitedTextIsNotCut` | docs/abyss/registry/runtime.js:277-280 | once the field is within 500 characters, the cut in `buildOptions` never shortens the trimmed text |
| `Form.Cleared` | docs/abyss/registry/runtime.js:328-336 | reset empties a field that is on the page and leaves an absent one absent |
| `Form.ContentForm.Load` | docs/abyss/registry/runtime.js:35-38 | the initial state (lines 35-38) followed by the start-up calls at lines 358 and 458: the page starts in text mode with no logo, and the text field is already capped at 500 characters |
| `Form.ContentForm.EnforceTextLimit` | docs/abyss/registry/runtime.js:71-75 | a present text field is cut to its first 500 characters and gets `maxLength` 500; nothing else changes |
| `Form.ContentForm.SetContentMode` | docs/abyss/registry/runtime.js:152-171 | the mode becomes the normalised value, and the text limit is enforced |
| `Form.ContentForm.EditText` | docs/abyss/registry/runtime.js:351-357 | an edit stores the new text cut to 500 characters |
| `Form.ContentForm.ResetForm` | docs/abyss/registry/runtime.js:327-349 | text mode, no logo, text, SSID and password emptied; afterwards the form is not ready |
| `Form.ContentForm.Generate` | docs/abyss/registry/runtime.js:320-325 | from a state keeping the form invariant, data is produced exactly when the form is ready; it is the rendered data and never empty; in text mode it is the trimmed text itself |

## Left out

- Logo compositing (`buildLogoAsset`, `roundRect`) is not modelled. It is floating-point canvas geometry passed to a browser API.
- The QR library wrapper is not modelled: `createQR`, `ensureQRInstance`, `renderQR`, `download` and the option object beyond its `data` string. The library's behaviour is not visible here.
- Logo file loading is not modelled: `FileReader`, `Image.onload`, and the change handler that sets or clears `state.logoImage`. It is asynchronous browser I/O. Only the reset of the logo is modelled.
- Some of `setContentMode` is not modelled: the loops that show or hide the mode sections and check the matching radio and pill. They toggle DOM classes and attributes. Only the mode normalisation and the text-limit call are modelled.
- `syncButtons`, password visibility, the background hint, scrolling and the event wiring are not modelled. They only toggle DOM state, and readiness (`Ready`) is their one input.
- Some of `resetForm` is not modelled: the style, colour, transparency and logo-input fields, and the clearing of the QR host. They do not affect the data or readiness.
- The model assumes the `#qrCanvas` host element is on the page (runtime.js:40-43). Without it the handler returns before any function is defined or any event is wired, so there is no state to model.
- Lengths are counted in Unicode characters. JavaScript's `slice` and `length` count UTF-16 code units, so a character outside the Basic Multilingual Plane counts as 2 there and as 1 here.
- The Wi-Fi reader `ParseWifiPayload` accepts only the field order and shape this page produces. It is not a general reader of the `WIFI:` convention.

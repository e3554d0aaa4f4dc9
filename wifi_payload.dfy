/**
 * The Wi-Fi network text that the QR code carries, in the "WIFI:" barcode
 * contents convention: `WIFI:T:<auth>;S:<ssid>;[P:<password>;];`, with each
 * of `\ ; , :` in the SSID and the password preceded by a backslash.
 */
module WifiPayload {
  import opened Wrappers
  import opened JsString

  /** The characters `escapeWifiValue` escapes (the double quote is not among them). */
  predicate IsReserved(c: char) {
    c == '\\' || c == ';' || c == ',' || c == ':'
  }

  /** How many characters of `s` are reserved. */
  function CountReserved(s: string): nat {
    if s == [] then 0 else (if IsReserved(s[0]) then 1 else 0) + CountReserved(s[1..])
  }

  /** One character as it appears in an escaped value. */
  function EscapeChar(c: char): string {
    if IsReserved(c) then ['\\', c] else [c]
  }

  /** The regular-expression replacement: a backslash before every reserved character. */
  function Escape(s: string): (r: string)
    ensures |r| == |s| + CountReserved(s)
  {
    if s == [] then [] else EscapeChar(s[0]) + Escape(s[1..])
  }

  /** `escapeWifiValue(val)`: a null, undefined or empty value escapes to the empty string. */
  function EscapeWifiValue(val: Option<string>): (r: string)
    ensures val.None? ==> r == []
    ensures |r| == |OrEmpty(val)| + CountReserved(OrEmpty(val))
  {
    Escape(OrEmpty(val))
  }

  /**
   * Reads an escaped value back: a backslash followed by a reserved character
   * stands for that character; any other use of a reserved character (bare,
   * or a backslash before an ordinary character or at the end) is rejected.
   */
  function Unescape(t: string): (r: Option<string>)
    decreases |t|
  {
    if t == [] then Some([])
    else if t[0] == '\\' then
      if |t| >= 2 && IsReserved(t[1]) then
        match Unescape(t[2..])
        case Some(u) => Some([t[1]] + u)
        case None => None
      else None
    else if IsReserved(t[0]) then None
    else
      match Unescape(t[1..])
      case Some(u) => Some([t[0]] + u)
      case None => None
  }

  /** Escaping distributes over concatenation, character by character and in order. */
  lemma {:induction false} EscapeAppend(a: string, b: string)
    ensures Escape(a + b) == Escape(a) + Escape(b)
  {
    if a == [] {
      assert a + b == b;
    } else {
      assert (a + b)[0] == a[0];
      assert (a + b)[1..] == a[1..] + b;
      EscapeAppend(a[1..], b);
    }
  }

  /** Unescaping an escaped value gives back the value. */
  lemma {:induction false} UnescapeEscape(s: string)
    ensures Unescape(Escape(s)) == Some(s)
  {
    if s != [] {
      var t := Escape(s);
      UnescapeEscape(s[1..]);
      if IsReserved(s[0]) {
        assert t[0] == '\\' && t[1] == s[0];
        assert t[2..] == Escape(s[1..]);
      } else {
        assert t[0] == s[0];
        assert t[1..] == Escape(s[1..]);
      }
      assert [s[0]] + s[1..] == s;
    }
  }

  /** Whatever unescapes to `s` is exactly the escaping of `s`. */
  lemma {:induction false} EscapeUnescape(t: string, s: string)
    requires Unescape(t) == Some(s)
    ensures Escape(s) == t
    decreases |t|
  {
    if t != [] {
      if t[0] == '\\' {
        EscapeUnescape(t[2..], s[1..]);
        assert t == t[..2] + t[2..];
      } else {
        EscapeUnescape(t[1..], s[1..]);
        assert t == [t[0]] + t[1..];
      }
    }
  }

  /** Escaping is injective: different values never share an escaped form. */
  lemma EscapeInjective(a: string, b: string)
    requires Escape(a) == Escape(b)
    ensures a == b
  {
    UnescapeEscape(a);
    UnescapeEscape(b);
  }

  /**
   * The first field of `t`: the text up to the first `;` that no backslash
   * escapes, and what follows that `;`. None when every `;` is escaped.
   */
  function NextField(t: string): (r: Option<(string, string)>)
    ensures r.Some? ==> t == r.value.0 + [';'] + r.value.1
    decreases |t|
  {
    if t == [] then None
    else if t[0] == ';' then Some(([], t[1..]))
    else if t[0] == '\\' && |t| >= 2 then
      match NextField(t[2..])
      case Some(p) => Some((t[..2] + p.0, p.1))
      case None => None
    else
      match NextField(t[1..])
      case Some(p) => Some(([t[0]] + p.0, p.1))
      case None => None
  }

  /**
   * The `;` that ends a field is the first unescaped one: the field itself
   * holds no unescaped `;`.
   */
  lemma {:induction false} NextFieldIsFirst(t: string)
    ensures NextField(t).Some? ==> NextField(NextField(t).value.0) == None
    decreases |t|
  {
    if t != [] && t[0] != ';' {
      if t[0] == '\\' && |t| >= 2 {
        NextFieldIsFirst(t[2..]);
        if NextField(t[2..]).Some? {
          var p := NextField(t[2..]).value;
          NextFieldPair(t[1], p.0);
          assert t[..2] == ['\\', t[1]];
        }
      } else if t[0] != '\\' && NextField(t[1..]).Some? {
        NextFieldIsFirst(t[1..]);
        var p := NextField(t[1..]).value;
        NextFieldCons(t[0], p.0);
      }
    }
  }

  /** `t` split into its `;`-terminated fields; an unterminated tail is dropped. */
  function Fields(t: string): seq<string>
    decreases |t|
  {
    match NextField(t)
    case Some(p) => [p.0] + Fields(p.1)
    case None => []
  }

  /** A character other than `;` and `\\` joins the field that follows it. */
  lemma NextFieldCons(c: char, u: string)
    requires c != ';' && c != '\\'
    ensures NextField([c] + u) == match NextField(u)
      case Some(p) => Some(([c] + p.0, p.1))
      case None => None
  {
    var t := [c] + u;
    assert t[0] == c && t[1..] == u;
  }

  /** An escaped pair joins the field that follows it. */
  lemma NextFieldPair(c: char, u: string)
    ensures NextField(['\\', c] + u) == match NextField(u)
      case Some(p) => Some((['\\', c] + p.0, p.1))
      case None => None
  {
    var t := ['\\', c] + u;
    assert t[0] == '\\' && t[..2] == ['\\', c] && t[2..] == u;
  }

  /** A `;` ends the field. */
  lemma NextFieldStop(rest: string)
    ensures NextField([';'] + rest) == Some(([], rest))
  {
    var t := [';'] + rest;
    assert t[0] == ';' && t[1..] == rest;
  }

  /** An escaped value carries no unescaped `;`: its field ends at the `;` after it. */
  lemma {:induction false} NextFieldEscaped(s: string, rest: string)
    ensures NextField(Escape(s) + [';'] + rest) == Some((Escape(s), rest))
  {
    if s == [] {
      assert Escape(s) + [';'] + rest == [';'] + rest;
      NextFieldStop(rest);
    } else {
      var tail := Escape(s[1..]) + [';'] + rest;
      NextFieldEscaped(s[1..], rest);
      assert Escape(s) + [';'] + rest == EscapeChar(s[0]) + tail;
      if IsReserved(s[0]) {
        NextFieldPair(s[0], tail);
      } else {
        NextFieldCons(s[0], tail);
      }
    }
  }

  /** Text that holds neither `;` nor `\\`. */
  predicate Plain(a: string) {
    forall i :: 0 <= i < |a| ==> a[i] != ';' && a[i] != '\\'
  }

  /** Plain text in front of a field joins that field. */
  lemma {:induction false} NextFieldPrepend(a: string, u: string)
    requires Plain(a) && NextField(u).Some?
    ensures NextField(a + u) == Some((a + NextField(u).value.0, NextField(u).value.1))
    decreases |a|
  {
    if a == [] {
      assert a + u == u && a + NextField(u).value.0 == NextField(u).value.0;
    } else {
      var f := NextField(u).value.0;
      var rest := NextField(u).value.1;
      assert Plain(a[1..]) by {
        forall i | 0 <= i < |a[1..]| ensures a[1..][i] != ';' && a[1..][i] != '\\' {
          assert a[1..][i] == a[i + 1];
        }
      }
      NextFieldPrepend(a[1..], u);
      assert NextField(a[1..] + u) == Some((a[1..] + f, rest));
      assert a[0] != ';' && a[0] != '\\';
      NextFieldCons(a[0], a[1..] + u);
      assert a + u == [a[0]] + (a[1..] + u);
      assert [a[0]] + (a[1..] + f) == a + f;
    }
  }

  /** Plain text in front of an escaped value stays in the same field. */
  lemma NextFieldPlainPrefix(a: string, s: string, rest: string)
    requires Plain(a)
    ensures NextField(a + Escape(s) + [';'] + rest) == Some((a + Escape(s), rest))
  {
    var u := Escape(s) + [';'] + rest;
    NextFieldEscaped(s, rest);
    NextFieldPrepend(a, u);
    assert a + Escape(s) + [';'] + rest == a + u;
  }

  /** The authentication token: `WPA` for a non-empty password, `nopass` otherwise. */
  function Auth(password: string): (r: string)
    ensures password != [] ==> r == "WPA"
    ensures password == [] ==> r == "nopass"
  {
    if password != [] then "WPA" else "nopass"
  }

  /** The SSID that goes into the payload: the trimmed field, or `MyWiFi` when that is empty. */
  function EffectiveSsid(ssidField: Option<string>): (r: string)
    ensures r != []
    ensures Trim(OrEmpty(ssidField)) != [] ==> r == Trim(OrEmpty(ssidField))
    ensures Trim(OrEmpty(ssidField)) == [] ==> r == "MyWiFi"
  {
    var ssid := Trim(OrEmpty(ssidField));
    if ssid != [] then ssid else "MyWiFi"
  }

  /** The `P:<password>;` segment: empty exactly for an empty password, otherwise ending in `;`. */
  function PassPart(password: string): (r: string)
    ensures r == [] <==> password == []
    ensures r != [] ==> r[|r| - 1] == ';'
  {
    if password != [] then "P:" + EscapeWifiValue(Some(password)) + ";" else ""
  }

  /** A non-empty P segment is `P:` and `;` around a value that unescapes to the password. */
  lemma PassPartReadsBack(password: string)
    requires password != []
    ensures var r := PassPart(password);
      |r| >= 3 && r[..2] == "P:" && Unescape(r[2..|r| - 1]) == Some(password)
  {
    var r := PassPart(password);
    assert r[2..|r| - 1] == Escape(password);
    UnescapeEscape(password);
  }

  /** Regrouping the payload template, with a P segment, around its head and its final `;;`. */
  lemma RegroupFrame(h1: string, h2: string, a: string, s: string, p: string)
    ensures h1 + (h2 + a) + ";" + s + ";" + (p + ";") + ";" == (h1 + h2) + (a + ";" + s + ";" + p) + ";;"
  {
  }

  /** Regrouping the payload template, without a P segment, around its head and its final `;;`. */
  lemma RegroupFrameNoPass(h1: string, h2: string, a: string, s: string)
    ensures h1 + (h2 + a) + ";" + s + ";" + [] + ";" == (h1 + h2) + (a + ";" + s) + ";;"
  {
  }

  /**
   * The payload text for an SSID (already defaulted) and a raw password:
   * it starts with `WIFI:T:` and ends with `;;`.
   */
  function Payload(ssid: string, password: string): (r: string)
    ensures |r| >= 9 && r[..7] == "WIFI:T:" && r[|r| - 2..] == ";;"
  {
    var ssidEsc := EscapeWifiValue(Some(ssid));
    assert "WIFI:" + "T:" == "WIFI:T:";
    if password != [] then
      RegroupFrame("WIFI:", "T:", Auth(password), "S:" + ssidEsc, "P:" + Escape(password));
      "WIFI:" + ("T:" + Auth(password)) + ";" + ("S:" + ssidEsc) + ";" + PassPart(password) + ";"
    else
      RegroupFrameNoPass("WIFI:", "T:", Auth(password), "S:" + ssidEsc);
      "WIFI:" + ("T:" + Auth(password)) + ";" + ("S:" + ssidEsc) + ";" + PassPart(password) + ";"
  }

  /**
   * `buildWifiPayload()`: the SSID trimmed and defaulted, the password taken
   * as is; it starts with `WIFI:T:`, ends with `;;` and is never truncated.
   */
  function BuildWifiPayload(ssidField: Option<string>, passwordField: Option<string>): (r: string)
    ensures |r| >= 9 && r[..7] == "WIFI:T:" && r[|r| - 2..] == ";;"
  {
    Payload(EffectiveSsid(ssidField), OrEmpty(passwordField))
  }

  /** Regrouping the payload template field by field. */
  lemma RegroupFields(h: string, t: string, s: string, p: string)
    ensures h + t + ";" + s + ";" + p + ";" == h + (t + ";" + (s + ";" + (p + ";")))
  {
  }

  /** The payload is the scheme followed by the T field, the S field and what follows them. */
  lemma PayloadShape(ssid: string, password: string)
    ensures Payload(ssid, password)
         == "WIFI:" + (("T:" + Auth(password)) + ";" + (("S:" + Escape(ssid)) + ";" + (PassPart(password) + ";")))
  {
    RegroupFields("WIFI:", "T:" + Auth(password), "S:" + Escape(ssid), PassPart(password));
  }

  /** The T, S and optional P fields of the payload, after the `WIFI:` scheme. */
  function PayloadFields(ssid: string, password: string): seq<string> {
    ["T:" + Auth(password), "S:" + Escape(ssid)]
    + (if password != [] then ["P:" + Escape(password)] else [])
    + [""]
  }

  /** The field headers the payload writes hold neither `;` nor `\\`. */
  lemma PlainHeaders(password: string)
    ensures Plain("T:" + Auth(password)) && Plain("S:") && Plain("P:")
  {
  }

  /** A field the reader finds is split off, and the rest is read on. */
  lemma FieldsCons(t: string)
    requires NextField(t).Some?
    ensures Fields(t) == [NextField(t).value.0] + Fields(NextField(t).value.1)
  {
  }

  /** A header followed by an escaped value and `;` is one field. */
  lemma FieldsEscaped(h: string, s: string, rest: string)
    requires Plain(h)
    ensures Fields((h + Escape(s)) + ";" + rest) == [h + Escape(s)] + Fields(rest)
  {
    NextFieldPlainPrefix(h, s, rest);
    FieldsCons((h + Escape(s)) + ";" + rest);
  }

  /** The final `;` closes one empty field. */
  lemma FieldsLast()
    ensures Fields(";") == [""]
  {
    NextFieldStop([]);
    assert [';'] + [] == ";";
    FieldsCons(";");
    assert NextField([]) == None;
  }

  /** The fields after the S field: the P field when there is a password, then the empty field. */
  lemma TailFields(password: string)
    ensures Fields(PassPart(password) + ";")
         == (if password != [] then ["P:" + Escape(password)] else []) + [""]
  {
    FieldsLast();
    if password != [] {
      PlainHeaders(password);
      FieldsEscaped("P:", password, ";");
      assert PassPart(password) + ";" == ("P:" + Escape(password)) + ";" + ";";
    } else {
      assert PassPart(password) + ";" == ";";
    }
  }

  /** A plain field, then a header with an escaped value, then the rest. */
  lemma FieldsTwo(tField: string, h: string, s: string, rest: string)
    requires Plain(tField) && Plain(h)
    ensures Fields(tField + ";" + ((h + Escape(s)) + ";" + rest)) == [tField, h + Escape(s)] + Fields(rest)
  {
    var u := (h + Escape(s)) + ";" + rest;
    NextFieldPlainPrefix(tField, [], u);
    assert tField + Escape([]) == tField;
    assert tField + ";" + u == tField + Escape([]) + [';'] + u;
    FieldsCons(tField + ";" + u);
    FieldsEscaped(h, s, rest);
  }

  /** After the scheme: the T field, the S field and the tail fields, in order. */
  lemma BodyFields(ssid: string, password: string)
    ensures Fields(("T:" + Auth(password)) + ";" + (("S:" + Escape(ssid)) + ";" + (PassPart(password) + ";")))
         == PayloadFields(ssid, password)
  {
    PlainHeaders(password);
    FieldsTwo("T:" + Auth(password), "S:", ssid, PassPart(password) + ";");
    TailFields(password);
  }

  /**
   * Split at its unescaped `;`, the payload is exactly the T field, the S
   * field, the P field when the password is non-empty, and an empty field.
   */
  lemma PayloadSplit(ssid: string, password: string)
    ensures Payload(ssid, password)[..5] == "WIFI:"
    ensures Fields(Payload(ssid, password)[5..]) == PayloadFields(ssid, password)
  {
    var body := ("T:" + Auth(password)) + ";" + (("S:" + Escape(ssid)) + ";" + (PassPart(password) + ";"));
    PayloadShape(ssid, password);
    assert Payload(ssid, password) == "WIFI:" + body;
    BodyFields(ssid, password);
  }

  /** The network a payload describes, as a reader of the convention recovers it. */
  datatype WifiConfig = WifiConfig(auth: string, ssid: string, password: string)

  /** Field `f` is `key:value` for a one-letter key. */
  predicate HasKey(f: string, key: char) {
    |f| >= 2 && f[0] == key && f[1] == ':'
  }

  /**
   * Reads a payload of the shape `BuildWifiPayload` produces: the scheme, a
   * T field, an S field, an optional P field and a final empty field, with
   * the S and P values unescaped. None for anything else.
   */
  function ParseWifiPayload(t: string): (r: Option<WifiConfig>) {
    if |t| < 5 || t[..5] != "WIFI:" then None
    else
      var fs := Fields(t[5..]);
      if !(|fs| == 3 || |fs| == 4) || fs[|fs| - 1] != [] then None
      else if !HasKey(fs[0], 'T') || !HasKey(fs[1], 'S') then None
      else if |fs| == 4 && !HasKey(fs[2], 'P') then None
      else
        match Unescape(fs[1][2..])
        case None => None
        case Some(ssid) =>
          if |fs| == 3 then Some(WifiConfig(fs[0][2..], ssid, []))
          else
            match Unescape(fs[2][2..])
            case None => None
            case Some(password) => Some(WifiConfig(fs[0][2..], ssid, password))
  }

  /** Reading back a payload gives its auth token, SSID and password. */
  lemma ParsePayload(ssid: string, password: string)
    ensures ParseWifiPayload(Payload(ssid, password)) == Some(WifiConfig(Auth(password), ssid, password))
  {
    PayloadSplit(ssid, password);
    var fs := PayloadFields(ssid, password);
    assert fs[0][2..] == Auth(password);
    assert fs[1][2..] == Escape(ssid);
    UnescapeEscape(ssid);
    if password != [] {
      assert fs[2][2..] == Escape(password);
      UnescapeEscape(password);
    }
  }

  /**
   * Round trip: reading the built payload back gives the auth token, the
   * trimmed (or defaulted) SSID and the untrimmed password.
   */
  lemma ParseBuild(ssidField: Option<string>, passwordField: Option<string>)
    ensures ParseWifiPayload(BuildWifiPayload(ssidField, passwordField))
         == Some(WifiConfig(Auth(OrEmpty(passwordField)), EffectiveSsid(ssidField), OrEmpty(passwordField)))
  {
    ParsePayload(EffectiveSsid(ssidField), OrEmpty(passwordField));
  }

  /** The payload determines the SSID it carries and the password exactly. */
  lemma PayloadInjective(ssid1: string, password1: string, ssid2: string, password2: string)
    requires Payload(ssid1, password1) == Payload(ssid2, password2)
    ensures ssid1 == ssid2 && password1 == password2
  {
    ParsePayload(ssid1, password1);
    ParsePayload(ssid2, password2);
  }
}

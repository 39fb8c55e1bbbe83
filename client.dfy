/**
 * The browser side of an upload (`static/app.js`): `handleFile`, which
 * filters the chosen file by its `.zip` suffix and assembles the multipart
 * form from the saved project settings, and `dataURLtoBlob`, which turns
 * the saved icon's `data:` URL back into bytes.
 *
 * `atob` (base64 decoding, section 4 of RFC 4648) is a parameter: it
 * yields the decoded string, or `None` where it throws.
 */
module Client {
  import opened Wrappers
  import opened Text
  import Server
  import Pipeline

  // ---------------------------------------------------------------------
  // The `Blob` of a data URL
  // ---------------------------------------------------------------------

  /** An element of a `Uint8Array`. */
  newtype byte = x: int | 0 <= x < 256

  /** What `new Blob([u8arr], {type: mime})` holds. */
  datatype Blob = Blob(bytes: seq<byte>, mimeType: string)

  /** The exceptions the two functions can throw. */
  datatype JsError = TypeError | InvalidCharacterError

  /** The characters `.` does not match in a regular expression without the `s` flag. */
  predicate LineTerminator(c: char)
  {
    c == '\n' || c == '\r' || c == '\U{2028}' || c == '\U{2029}'
  }

  /** Every character of `s[k..j]` can be crossed by the lazy `.*?` before it reaches a `;`. */
  predicate Clear(s: string, k: nat, j: nat)
  {
    forall m :: k <= m < j && m < |s| ==> s[m] != ';' && !LineTerminator(s[m])
  }

  /** `/:(.*?);/` matches at `i` with its group `s[i + 1..j]`. */
  predicate MimeAt(s: string, i: nat, j: nat)
  {
    i < j < |s| && s[i] == ':' && s[j] == ';' && Clear(s, i + 1, j)
  }

  /** Only one `;` can close a lazy group that starts at `k`. */
  lemma ClearUnique(s: string, k: nat, j1: nat, j2: nat)
    requires k <= j1 < |s| && k <= j2 < |s| && s[j1] == ';' && s[j2] == ';'
    requires Clear(s, k, j1) && Clear(s, k, j2)
    ensures j1 == j2
  {
  }

  /**
   * The lazy `.*?;` from index `k`: the first `;` at or after `k`, unless a
   * line terminator comes first.
   */
  function CloseFrom(s: string, k: nat): (r: Option<nat>)
    ensures r.Some? ==> k <= r.value < |s| && s[r.value] == ';' && Clear(s, k, r.value)
    ensures r.None? ==> forall j :: k <= j < |s| && s[j] == ';' ==> !Clear(s, k, j)
    decreases |s| - k
  {
    if k >= |s| then None
    else if s[k] == ';' then Some(k)
    else if LineTerminator(s[k]) then None
    else CloseFrom(s, k + 1)
  }

  /** The leftmost match of `/:(.*?);/` starting at or after `i`, as the `:` and the `;` around the group. */
  function MatchFrom(s: string, i: nat): (r: Option<(nat, nat)>)
    ensures r.Some? ==> i <= r.value.0 && MimeAt(s, r.value.0, r.value.1)
    ensures r.Some? ==> forall i', j' :: i <= i' < r.value.0 ==> !MimeAt(s, i', j')
    ensures r.None? ==> forall i', j' :: i <= i' ==> !MimeAt(s, i', j')
    decreases |s| - i
  {
    if i >= |s| then None
    else
      var close := CloseFrom(s, i + 1);
      if s[i] == ':' && close.Some? then Some((i, close.value))
      else MatchFrom(s, i + 1)
  }

  /** `s.match(/:(.*?);/)[1]`: the group of the leftmost match, `None` where `match` yields `null`. */
  function MatchMime(s: string): Option<string>
  {
    match MatchFrom(s, 0)
    case None => None
    case Some((i, j)) => Some(s[i + 1..j])
  }

  /**
   * The MIME type is the text between the leftmost `:` that has a `;`
   * after it on the same line and that `;`; there is none exactly when no
   * `:` is followed, on its line, by a `;`.
   */
  lemma MatchMimeSpec(s: string)
    ensures MatchMime(s).None? <==> forall i: nat, j: nat :: !MimeAt(s, i, j)
    ensures MatchMime(s).Some? ==>
      exists i: nat, j: nat :: (MimeAt(s, i, j) && MatchMime(s).value == s[i + 1..j]
        && forall i': nat, j': nat :: i' < i ==> !MimeAt(s, i', j'))
  {
    var r := MatchFrom(s, 0);
    if r.Some? {
      var (i, j) := r.value;
      assert MimeAt(s, i, j) && MatchMime(s).value == s[i + 1..j];
    }
  }

  /** The `.toLowerCase()` the `Blob` constructor applies to a printable type. */
  function AsciiLower(c: char): char
  {
    if 'A' <= c <= 'Z' then (c as int + 32) as char else c
  }

  /**
   * The type a `Blob` records: the given type in ASCII lower case, or the
   * empty string when it holds a character outside U+0020 to U+007E
   * (section 3.1 of the W3C File API).
   */
  function BlobType(t: string): (r: string)
    ensures (forall k :: 0 <= k < |t| ==> ' ' <= t[k] <= '~') ==> |r| == |t| && forall k :: 0 <= k < |t| ==> r[k] == AsciiLower(t[k])
    ensures (exists k :: 0 <= k < |t| && !(' ' <= t[k] <= '~')) ==> r == ""
    ensures forall k :: 0 <= k < |r| ==> !('A' <= r[k] <= 'Z')
  {
    if forall k :: 0 <= k < |t| ==> ' ' <= t[k] <= '~' then seq(|t|, k requires 0 <= k < |t| => AsciiLower(t[k]))
    else ""
  }

  /** `u8arr[n] = bstr.charCodeAt(n)`: a `Uint8Array` keeps the code modulo 256. */
  function CodeByte(c: char): byte
  {
    ((c as int) % 256) as byte
  }

  /** The bytes a decoded string fills the array with, index by index. */
  function ByteString(bstr: string): (b: seq<byte>)
    ensures |b| == |bstr|
    ensures forall k :: 0 <= k < |b| ==> b[k] == CodeByte(bstr[k])
  {
    seq(|bstr|, k requires 0 <= k < |bstr| => CodeByte(bstr[k]))
  }

  /** `arr[1]` of `dataurl.split(',')`, which `atob` turns into the text `"undefined"` when missing. */
  function Payload(arr: seq<string>): string
  {
    if |arr| > 1 then arr[1] else "undefined"
  }

  /** `dataURLtoBlob(dataurl)`, with the byte loop written as the bytes it leaves behind. */
  function ToBlob(dataurl: string, atob: string -> Option<string>): Result<Blob, JsError>
  {
    var arr := Split(dataurl, ",");
    match MatchMime(arr[0])
    case None => Err(TypeError)
    case Some(mime) =>
      match atob(Payload(arr))
      case None => Err(InvalidCharacterError)
      case Some(bstr) => Ok(Blob(ByteString(bstr), BlobType(mime)))
  }

  /** A decoder in the sense of RFC 4648: every character it yields stands for one byte. */
  ghost predicate ByteDecoder(atob: string -> Option<string>)
  {
    forall s :: atob(s).Some? ==> forall k :: 0 <= k < |atob(s).value| ==> atob(s).value[k] as int < 256
  }

  /**
   * For a data URL `data:<mime>;base64,<payload>` the type is `<mime>`
   * (as the `Blob` records it), the payload after the only comma is what
   * is decoded, and a payload `atob` rejects makes the call throw.
   */
  lemma {:induction false} DataUrlBlob(mime: string, payload: string, atob: string -> Option<string>)
    requires forall k :: 0 <= k < |mime| ==> mime[k] != ';' && mime[k] != ',' && !LineTerminator(mime[k])
    requires ',' !in payload
    ensures ToBlob("data:" + mime + ";base64," + payload, atob) ==
      match atob(payload)
      case None => Err(InvalidCharacterError)
      case Some(bstr) => Ok(Blob(ByteString(bstr), BlobType(mime)))
  {
    var header := "data:" + mime + ";base64";
    assert "data:" + mime + ";base64," + payload == header + [','] + payload;
    assert ',' !in header by {
      forall k | 0 <= k < |header|
        ensures header[k] != ','
      {
        if 5 <= k < 5 + |mime| {
          assert header[k] == mime[k - 5];
        }
      }
    }
    SplitAtChar(header, ',', payload);
    SplitNoChar(payload, ',');
    var arr := Split(header + [','] + payload, [',']);
    assert arr == [header, payload];
    var j := 5 + |mime|;
    assert header[j] == ';';
    assert Clear(header, 5, j) by {
      forall m | 5 <= m < j
        ensures header[m] == mime[m - 5]
      {
      }
    }
    assert MimeAt(header, 4, j);
    var r := MatchFrom(header, 0);
    assert r.Some?;
    var (i, j') := r.value;
    assert header[0] == 'd' && header[1] == 'a' && header[2] == 't' && header[3] == 'a';
    assert i == 4;
    ClearUnique(header, 5, j, j');
    assert header[5..j] == mime;
  }

  /** With a byte decoder the modulo in the array loses nothing: byte `k` is the code of character `k`. */
  lemma BlobKeepsCodes(dataurl: string, atob: string -> Option<string>)
    requires ByteDecoder(atob)
    requires ToBlob(dataurl, atob).Ok?
    ensures var bstr := atob(Payload(Split(dataurl, ","))).value;
      var b := ToBlob(dataurl, atob).value.bytes;
      |b| == |bstr| && forall k :: 0 <= k < |b| ==> b[k] as int == bstr[k] as int
  {
    var bstr := atob(Payload(Split(dataurl, ","))).value;
    assert forall k :: 0 <= k < |bstr| ==> bstr[k] as int < 256;
  }

  /**
   * `dataURLtoBlob`: split off the header, read the type, decode the
   * payload, then fill a fresh array with `while(n--) u8arr[n] =
   * bstr.charCodeAt(n)`. `order` lists the indices as the loop writes them.
   */
  method DataUrlToBlob(dataurl: string, atob: string -> Option<string>) returns (r: Result<Blob, JsError>, ghost order: seq<int>)
    ensures r == ToBlob(dataurl, atob)
    ensures r.Ok? ==> |order| == |r.value.bytes| && forall k :: 0 <= k < |order| ==> order[k] == |order| - 1 - k
  {
    order := [];
    var arr := Split(dataurl, ",");
    var mime := MatchMime(arr[0]);
    if mime.None? {
      return Err(TypeError), order;
    }
    var decoded := atob(Payload(arr));
    if decoded.None? {
      return Err(InvalidCharacterError), order;
    }
    var bstr := decoded.value;
    var n := |bstr|;
    var u8arr := new byte[n];
    while n != 0
      invariant 0 <= n <= |bstr| == u8arr.Length
      invariant forall k :: n <= k < |bstr| ==> u8arr[k] == CodeByte(bstr[k])
      invariant |order| == |bstr| - n && forall k :: 0 <= k < |order| ==> order[k] == |bstr| - 1 - k
      decreases n
    {
      n := n - 1;
      u8arr[n] := CodeByte(bstr[n]);
      order := order + [n];
    }
    assert u8arr[..] == ByteString(bstr);
    r := Ok(Blob(u8arr[..], BlobType(mime.value)));
  }

  // ---------------------------------------------------------------------
  // The saved project and the form
  // ---------------------------------------------------------------------

  /**
   * A value read from the saved project's JSON. `JOther` is an array or an
   * object, with the text `String()` gives it.
   */
  datatype JsValue = JNull | JBool(b: bool) | JNum(n: int) | JStr(s: string) | JOther(text: string)

  /** `JSON.parse(localStorage.getItem("firecom_project") || "{}")`: its properties by name. */
  datatype Project = Project(fields: map<string, JsValue>)

  /** JavaScript truthiness of a property; a missing one is `undefined`, which is falsy. */
  predicate Truthy(p: Project, name: string)
  {
    name in p.fields &&
    match p.fields[name]
    case JNull => false
    case JBool(b) => b
    case JNum(n) => n != 0
    case JStr(s) => s != ""
    case JOther(_) => true
  }

  function DigitChar(d: nat): char
    requires d < 10
  {
    "0123456789"[d]
  }

  /** The decimal digits of a natural number. */
  function Digits(n: nat): (s: string)
    ensures |s| >= 1 && forall k :: 0 <= k < |s| ==> '0' <= s[k] <= '9'
    decreases n
  {
    if n < 10 then [DigitChar(n)] else Digits(n / 10) + [DigitChar(n % 10)]
  }

  /** `String(v)`, which `FormData.append` applies to a value that is not a `Blob`. */
  function ToText(v: JsValue): string
  {
    match v
    case JNull => "null"
    case JBool(b) => if b then "true" else "false"
    case JNum(n) => if n < 0 then "-" + Digits(-n) else Digits(n)
    case JStr(s) => s
    case JOther(text) => text
  }

  /** The chosen `File`: its name and its contents. */
  datatype JsFile = JsFile(name: string, content: string)

  datatype FormValue = TextValue(text: string) | FileValue(file: JsFile) | BlobValue(blob: Blob, filename: string)

  datatype FormEntry = FormEntry(name: string, value: FormValue)

  /** A `FormData`: its entries in the order they were appended. */
  class FormData {
    var entries: seq<FormEntry>

    constructor()
      ensures entries == []
    {
      entries := [];
    }

    /** `formData.append(name, value)`. */
    method Append(name: string, value: FormValue)
      modifies this
      ensures entries == old(entries) + [FormEntry(name, value)]
    {
      entries := entries + [FormEntry(name, value)];
    }
  }

  /** The settings fields `handleFile` copies into the form, in its order. */
  const ProjectFields: seq<string> := ["appName", "packageName", "version", "targetUrl"]

  /** The order of every field the form can hold. */
  const FormOrder: seq<string> := ["file"] + ProjectFields + ["icon"]

  /** The text entries for the truthy ones among `names`, in the order of `names`. */
  function FieldEntries(p: Project, names: seq<string>): seq<FormEntry>
  {
    if names == [] then []
    else
      (if Truthy(p, names[0]) then [FormEntry(names[0], TextValue(ToText(p.fields[names[0]])))] else [])
      + FieldEntries(p, names[1..])
  }

  function NamesOf(form: seq<FormEntry>): (names: seq<string>)
    ensures |names| == |form| && forall k :: 0 <= k < |form| ==> names[k] == form[k].name
  {
    seq(|form|, k requires 0 <= k < |form| => form[k].name)
  }

  /** The position of `x` in `s`. */
  function IndexOf(s: seq<string>, x: string): (i: nat)
    requires x in s
    ensures i < |s| && s[i] == x && x !in s[..i]
  {
    if s[0] == x then 0 else
      assert x in s[1..];
      1 + IndexOf(s[1..], x)
  }

  predicate Distinct(s: seq<string>)
  {
    forall a, b :: 0 <= a < b < |s| ==> s[a] != s[b]
  }

  /** Every name of `ns` is one of `order`, and they come in the order of `order`. */
  predicate InOrder(ns: seq<string>, order: seq<string>)
  {
    && (forall k :: 0 <= k < |ns| ==> ns[k] in order)
    && (forall a, b :: 0 <= a < b < |ns| ==> IndexOf(order, ns[a]) < IndexOf(order, ns[b]))
  }

  /** Names in the order of the tail of `order` are in the order of `order`, and may be preceded by its head. */
  lemma InOrderShift(xs: seq<string>, order: seq<string>)
    requires |order| >= 1 && order[0] !in order[1..] && InOrder(xs, order[1..])
    ensures InOrder(xs, order) && InOrder([order[0]] + xs, order)
  {
    forall n | n in order[1..]
      ensures IndexOf(order, n) == 1 + IndexOf(order[1..], n)
    {
    }
    var ys := [order[0]] + xs;
    forall k | 0 <= k < |ys|
      ensures ys[k] in order
    {
      if k > 0 {
        assert ys[k] == xs[k - 1];
      }
    }
    forall a, b | 0 <= a < b < |ys|
      ensures IndexOf(order, ys[a]) < IndexOf(order, ys[b])
    {
      assert ys[b] == xs[b - 1];
      if a > 0 {
        assert ys[a] == xs[a - 1];
      }
    }
  }

  /**
   * The field entries are text entries, one for each truthy field among
   * `names` and for nothing else, carrying `String()` of its value, and
   * appear in the order of `names`.
   */
  lemma {:induction false} FieldEntriesSpec(p: Project, names: seq<string>)
    requires Distinct(names)
    ensures var e := FieldEntries(p, names);
      && (forall k :: 0 <= k < |e| ==> Truthy(p, e[k].name) && e[k].value == TextValue(ToText(p.fields[e[k].name])))
      && (forall n :: n in names ==> (n in NamesOf(e) <==> Truthy(p, n)))
      && InOrder(NamesOf(e), names)
    decreases |names|
  {
    var e := FieldEntries(p, names);
    if names == [] {
      assert NamesOf(e) == [];
    } else {
      var rest := names[1..];
      assert Distinct(rest);
      FieldEntriesSpec(p, rest);
      var tail := FieldEntries(p, rest);
      var head := if Truthy(p, names[0]) then [FormEntry(names[0], TextValue(ToText(p.fields[names[0]])))] else [];
      assert e == head + tail;
      assert NamesOf(e) == NamesOf(head) + NamesOf(tail);
      assert names[0] !in rest;
      assert names[0] !in NamesOf(tail);
      InOrderShift(NamesOf(tail), names);
      if head != [] {
        assert NamesOf(head) == [names[0]];
      } else {
        assert NamesOf(e) == NamesOf(tail);
      }
      assert names == [names[0]] + rest;
    }
  }

  // ---------------------------------------------------------------------
  // `handleFile`
  // ---------------------------------------------------------------------

  const OnlyZipMessage: string := "\U{274C} Only ZIP files are allowed"

  /** `📦 "<name>" selected`. */
  function SelectedMessage(name: string): string
  {
    "\U{1F4E6} \"" + name + "\" selected"
  }

  /**
   * What a call of `handleFile` does: nothing; show the rejection; show
   * the selection and then throw before the request; or show the
   * selection and post the form to `/upload`.
   */
  datatype Handled =
    | Ignored
    | Rejected(status: string)
    | Threw(status: string, error: JsError)
    | Sent(status: string, form: seq<FormEntry>)

  /** The icon entry the saved project calls for, or the exception converting it throws. */
  function IconEntry(p: Project, atob: string -> Option<string>): Result<seq<FormEntry>, JsError>
  {
    if !Truthy(p, "icon") then Ok([])
    else
      match p.fields["icon"]
      case JStr(url) =>
        (match ToBlob(url, atob)
         case Err(e) => Err(e)
         case Ok(blob) => Ok([FormEntry("icon", BlobValue(blob, "icon.png"))]))
      case _ => Err(TypeError)   // a truthy non-string has no `split`
  }

  /** `handleFile(file)` as a function of the file, the saved project and the decoder. */
  function Handling(file: Option<JsFile>, p: Project, atob: string -> Option<string>): Handled
  {
    if file.None? then Ignored
    else if !EndsWith(file.value.name, ".zip") then Rejected(OnlyZipMessage)
    else
      var status := SelectedMessage(file.value.name);
      match IconEntry(p, atob)
      case Err(e) => Threw(status, e)
      case Ok(icon) => Sent(status, [FormEntry("file", FileValue(file.value))] + FieldEntries(p, ProjectFields) + icon)
  }

  /** The four settings appends of `handleFile`, one `if` each. */
  method AppendSettings(formData: FormData, p: Project)
    modifies formData
    ensures formData.entries == old(formData.entries) + FieldEntries(p, ProjectFields)
  {
    if Truthy(p, "appName") {
      formData.Append("appName", TextValue(ToText(p.fields["appName"])));
    }
    if Truthy(p, "packageName") {
      formData.Append("packageName", TextValue(ToText(p.fields["packageName"])));
    }
    if Truthy(p, "version") {
      formData.Append("version", TextValue(ToText(p.fields["version"])));
    }
    if Truthy(p, "targetUrl") {
      formData.Append("targetUrl", TextValue(ToText(p.fields["targetUrl"])));
    }
    FieldEntriesFour(p);
  }

  /** The text entry for one setting, when it is truthy. */
  function FieldEntry(p: Project, name: string): seq<FormEntry>
  {
    if Truthy(p, name) then [FormEntry(name, TextValue(ToText(p.fields[name])))] else []
  }

  /** The entries for the four settings, spelled out. */
  lemma FieldEntriesFour(p: Project)
    ensures FieldEntries(p, ProjectFields) ==
      FieldEntry(p, "appName") + FieldEntry(p, "packageName") + FieldEntry(p, "version") + FieldEntry(p, "targetUrl")
  {
    var n0 := ProjectFields;
    var n1 := ["packageName", "version", "targetUrl"];
    var n2 := ["version", "targetUrl"];
    var n3 := ["targetUrl"];
    assert n0[1..] == n1 && n1[1..] == n2 && n2[1..] == n3 && n3[1..] == [];
    assert FieldEntries(p, n3) == FieldEntry(p, "targetUrl") + FieldEntries(p, []);
    assert FieldEntries(p, n2) == FieldEntry(p, "version") + FieldEntries(p, n3);
    assert FieldEntries(p, n1) == FieldEntry(p, "packageName") + FieldEntries(p, n2);
    assert FieldEntries(p, n0) == FieldEntry(p, "appName") + FieldEntries(p, n1);
  }

  /**
   * `handleFile`: the suffix filter, then one `append` per truthy setting,
   * then the icon, then the request. The asynchronous status update with
   * the server's answer is not part of the call.
   */
  method HandleFile(file: Option<JsFile>, p: Project, atob: string -> Option<string>) returns (h: Handled)
    ensures h == Handling(file, p, atob)
  {
    if file.None? {
      return Ignored;
    }
    var f := file.value;
    if !EndsWith(f.name, ".zip") {
      return Rejected(OnlyZipMessage);
    }
    var status := SelectedMessage(f.name);
    var formData := new FormData();
    formData.Append("file", FileValue(f));
    AppendSettings(formData, p);
    ghost var base := [FormEntry("file", FileValue(f))] + FieldEntries(p, ProjectFields);
    assert formData.entries == base;
    if Truthy(p, "icon") {
      var icon := p.fields["icon"];
      if !icon.JStr? {
        return Threw(status, TypeError);
      }
      var blob, _ := DataUrlToBlob(icon.s, atob);
      if blob.Err? {
        return Threw(status, blob.error);
      }
      formData.Append("icon", BlobValue(blob.value, "icon.png"));
      assert IconEntry(p, atob) == Ok([FormEntry("icon", BlobValue(blob.value, "icon.png"))]);
    } else {
      assert IconEntry(p, atob) == Ok([]);
      assert base + [] == base;
    }
    h := Sent(status, formData.entries);
  }

  /**
   * No file does nothing; a name without the case-sensitive `.zip` suffix
   * shows the rejection and sends nothing; a `.zip` name shows the
   * selection, and only then can the call throw or send.
   */
  lemma HandlingFilter(file: Option<JsFile>, p: Project, atob: string -> Option<string>)
    ensures Handling(file, p, atob) == Ignored <==> file.None?
    ensures Handling(file, p, atob).Rejected? <==> file.Some? && !exists t :: file.value.name == t + ".zip"
    ensures Handling(file, p, atob).Rejected? ==> Handling(file, p, atob).status == OnlyZipMessage
    ensures Handling(file, p, atob).Threw? || Handling(file, p, atob).Sent? ==>
      file.Some? && Handling(file, p, atob).status == SelectedMessage(file.value.name)
  {
    if file.Some? {
      EndsWithIsConcat(file.value.name, ".zip");
    }
  }

  /** The icon entry is empty or a single `icon` entry, and it is present exactly when the saved icon is truthy. */
  lemma IconEntryShape(p: Project, atob: string -> Option<string>)
    requires IconEntry(p, atob).Ok?
    ensures var icon := IconEntry(p, atob).value;
      && (icon == [] <==> !Truthy(p, "icon"))
      && (icon != [] ==> |icon| == 1 && icon[0].name == "icon" && icon[0].value.BlobValue? && icon[0].value.filename == "icon.png")
  {
  }

  /** A sent form is the file, the settings entries and the icon entry, in that order. */
  lemma SentShape(file: Option<JsFile>, p: Project, atob: string -> Option<string>)
    requires Handling(file, p, atob).Sent?
    ensures file.Some? && EndsWith(file.value.name, ".zip") && IconEntry(p, atob).Ok?
    ensures Handling(file, p, atob).form ==
      [FormEntry("file", FileValue(file.value))] + FieldEntries(p, ProjectFields) + IconEntry(p, atob).value
  {
  }

  /** An icon part list as `handleFile` can build it: nothing, or one `Blob` named `icon.png`. */
  predicate IconShaped(icon: seq<FormEntry>)
  {
    icon == [] || (|icon| == 1 && icon[0].name == "icon" && icon[0].value.BlobValue? && icon[0].value.filename == "icon.png")
  }

  /** The form `handleFile` sends: the file, the settings entries, then the icon entry. */
  function FormOf(f: JsFile, p: Project, icon: seq<FormEntry>): seq<FormEntry>
  {
    [FormEntry("file", FileValue(f))] + FieldEntries(p, ProjectFields) + icon
  }

  lemma FormContents(f: JsFile, p: Project, icon: seq<FormEntry>)
    requires IconShaped(icon)
    ensures var form := FormOf(f, p, icon);
      && form[0] == FormEntry("file", FileValue(f))
      && (forall n :: n in ProjectFields ==> (n in NamesOf(form) <==> Truthy(p, n)))
      && (forall k :: 0 <= k < |form| && form[k].name in ProjectFields ==> form[k].value == TextValue(ToText(p.fields[form[k].name])))
      && ("icon" in NamesOf(form) <==> icon != [])
      && (forall k :: 0 <= k < |form| && form[k].name == "icon" ==> form[k].value.BlobValue? && form[k].value.filename == "icon.png")
  {
    var form := FormOf(f, p, icon);
    var fields := FieldEntries(p, ProjectFields);
    var head := [FormEntry("file", FileValue(f))];
    assert form == head + fields + icon;
    assert Distinct(ProjectFields);
    FieldEntriesSpec(p, ProjectFields);
    assert NamesOf(form) == NamesOf(head) + NamesOf(fields) + NamesOf(icon);
    assert forall k :: 0 <= k < |NamesOf(fields)| ==> NamesOf(fields)[k] in ProjectFields;
    assert "file" !in ProjectFields && "icon" !in ProjectFields;
    assert "file" !in NamesOf(fields) && "icon" !in NamesOf(fields);
    assert NamesOf(icon) == [] || NamesOf(icon) == ["icon"];
    forall k | 0 <= k < |form|
      ensures form[k].name in ProjectFields ==> form[k].value == TextValue(ToText(p.fields[form[k].name]))
      ensures form[k].name == "icon" ==> form[k].value.BlobValue? && form[k].value.filename == "icon.png"
    {
      if 1 <= k < 1 + |fields| {
        assert form[k] == fields[k - 1];
      } else if k >= 1 + |fields| {
        assert form[k] == icon[k - 1 - |fields|];
      }
    }
  }

  /**
   * The form sent starts with the file, holds each setting exactly when it
   * is truthy (as its `String()` text), and holds `icon` exactly when the
   * saved icon is truthy, as a `Blob` under the filename `icon.png`.
   */
  lemma SentForm(file: Option<JsFile>, p: Project, atob: string -> Option<string>)
    requires Handling(file, p, atob).Sent?
    ensures var form := Handling(file, p, atob).form;
      && form[0] == FormEntry("file", FileValue(file.value))
      && (forall n :: n in ProjectFields ==> (n in NamesOf(form) <==> Truthy(p, n)))
      && (forall k :: 0 <= k < |form| && form[k].name in ProjectFields ==> form[k].value == TextValue(ToText(p.fields[form[k].name])))
      && ("icon" in NamesOf(form) <==> Truthy(p, "icon"))
      && (forall k :: 0 <= k < |form| && form[k].name == "icon" ==> form[k].value.BlobValue? && form[k].value.filename == "icon.png")
  {
    SentShape(file, p, atob);
    IconEntryShape(p, atob);
    FormContents(file.value, p, IconEntry(p, atob).value);
  }

  /** Settings in their order, then perhaps `icon`, are in the order of the settings followed by `icon`. */
  lemma IconLast(xs: seq<string>, last: seq<string>)
    requires InOrder(xs, ProjectFields) && (last == [] || last == ["icon"])
    ensures InOrder(xs + last, ProjectFields + ["icon"])
  {
    var later := ProjectFields + ["icon"];
    assert later[..4] == ProjectFields;
    forall n | n in ProjectFields
      ensures IndexOf(later, n) == IndexOf(ProjectFields, n)
    {
      var i := IndexOf(ProjectFields, n);
      assert later[i] == n;
      assert later[..i] == ProjectFields[..i];
    }
    assert IndexOf(later, "icon") == 4;
    var ys := xs + last;
    forall k | 0 <= k < |ys|
      ensures ys[k] in later
    {
      if k >= |xs| {
        assert ys[k] == "icon";
      } else {
        assert ys[k] == xs[k];
      }
    }
    forall a, b | 0 <= a < b < |ys|
      ensures IndexOf(later, ys[a]) < IndexOf(later, ys[b])
    {
      assert ys[a] == xs[a];
      if b < |xs| {
        assert ys[b] == xs[b];
      } else {
        assert ys[b] == "icon";
      }
    }
  }

  lemma NamesConcat(a: seq<FormEntry>, b: seq<FormEntry>)
    ensures NamesOf(a + b) == NamesOf(a) + NamesOf(b)
  {
  }

  lemma FormOrderOf(f: JsFile, p: Project, icon: seq<FormEntry>)
    requires IconShaped(icon)
    ensures InOrder(NamesOf(FormOf(f, p, icon)), FormOrder)
  {
    var fields := FieldEntries(p, ProjectFields);
    var head := [FormEntry("file", FileValue(f))];
    assert Distinct(ProjectFields);
    FieldEntriesSpec(p, ProjectFields);
    var xs := NamesOf(fields);
    assert NamesOf(icon) == [] || NamesOf(icon) == ["icon"];
    IconLast(xs, NamesOf(icon));
    var ys := xs + NamesOf(icon);
    assert FormOrder[1..] == ProjectFields + ["icon"];
    InOrderShift(ys, FormOrder);
    NamesConcat(head + fields, icon);
    NamesConcat(head, fields);
    assert NamesOf(head) == [FormOrder[0]];
    assert NamesOf(FormOf(f, p, icon)) == [FormOrder[0]] + ys;
  }

  /** The form sent keeps the order file, appName, packageName, version, targetUrl, icon. */
  lemma SentFormOrder(file: Option<JsFile>, p: Project, atob: string -> Option<string>)
    requires Handling(file, p, atob).Sent?
    ensures InOrder(NamesOf(Handling(file, p, atob).form), FormOrder)
  {
    SentShape(file, p, atob);
    IconEntryShape(p, atob);
    FormOrderOf(file.value, p, IconEntry(p, atob).value);
  }

  // ---------------------------------------------------------------------
  // The server's view of the form
  // ---------------------------------------------------------------------

  /** The uploaded part a file-like entry becomes: the `File`'s own name, or the filename given with a `Blob`. */
  function PartOf(v: FormValue): Server.Part
    requires !v.TextValue?
  {
    match v
    case FileValue(f) => Server.Part(f.name, f.content)
    case BlobValue(b, filename) => Server.Part(filename, BytesText(b.bytes))
  }

  function BytesText(b: seq<byte>): string
  {
    seq(|b|, k requires 0 <= k < |b| => (b[k] as int) as char)
  }

  /** The request after one more entry in front: a text becomes a form field, anything else a file part. */
  function AddEntry(e: FormEntry, r: Server.Request): Server.Request
  {
    if e.value.TextValue? then Server.Request(r.files, r.form[e.name := e.value.text])
    else Server.Request(r.files[e.name := PartOf(e.value)], r.form)
  }

  /**
   * The request Flask builds from the posted form: text entries become
   * `request.form`, the others `request.files`; for a repeated name the
   * first entry is the one `[]` and `.get` return.
   */
  function RequestOf(form: seq<FormEntry>): Server.Request
  {
    if form == [] then Server.Request(map[], map[]) else AddEntry(form[0], RequestOf(form[1..]))
  }

  lemma RequestOfCons(e: FormEntry, rest: seq<FormEntry>)
    ensures RequestOf([e] + rest) == AddEntry(e, RequestOf(rest))
  {
    assert ([e] + rest)[1..] == rest;
  }

  /** The text fields named in `names` that are truthy, as the server reads them. */
  function FieldMap(p: Project, names: seq<string>): map<string, string>
  {
    map n | n in names && Truthy(p, n) :: ToText(p.fields[n])
  }

  /** Entries that are all file-like leave `request.form` empty. */
  lemma {:induction false} NoTextNoForm(tail: seq<FormEntry>)
    requires forall k :: 0 <= k < |tail| ==> !tail[k].value.TextValue?
    ensures RequestOf(tail).form == map[]
    decreases |tail|
  {
    if tail != [] {
      NoTextNoForm(tail[1..]);
    }
  }

  /** The settings entries put no file in the request and one form field per truthy setting. */
  lemma {:induction false} RequestOfFields(p: Project, names: seq<string>, tail: seq<FormEntry>)
    requires forall k :: 0 <= k < |tail| ==> !tail[k].value.TextValue?
    ensures RequestOf(FieldEntries(p, names) + tail).files == RequestOf(tail).files
    ensures RequestOf(FieldEntries(p, names) + tail).form == FieldMap(p, names)
    decreases |names|
  {
    if names == [] {
      assert FieldEntries(p, names) + tail == tail;
      NoTextNoForm(tail);
      assert FieldMap(p, names) == map[];
    } else {
      var rest := names[1..];
      assert names == [names[0]] + rest;
      RequestOfFields(p, rest, tail);
      var later := FieldEntries(p, rest) + tail;
      if Truthy(p, names[0]) {
        var e := FormEntry(names[0], TextValue(ToText(p.fields[names[0]])));
        assert FieldEntries(p, names) + tail == [e] + later;
        RequestOfCons(e, later);
        var m := FieldMap(p, rest)[names[0] := ToText(p.fields[names[0]])];
        assert forall n :: n in m <==> n in FieldMap(p, names);
        assert m == FieldMap(p, names);
      } else {
        assert FieldEntries(p, names) + tail == later;
        assert forall n :: n in FieldMap(p, names) <==> n in FieldMap(p, rest);
        assert FieldMap(p, names) == FieldMap(p, rest);
      }
    }
  }

  /** The icon tail holds no text entry and files the icon part exactly when there is one. */
  lemma IconRequest(icon: seq<FormEntry>)
    requires IconShaped(icon)
    ensures forall k :: 0 <= k < |icon| ==> !icon[k].value.TextValue?
    ensures "icon" in RequestOf(icon).files <==> icon != []
    ensures "file" !in RequestOf(icon).files
  {
    if icon != [] {
      RequestOfCons(icon[0], []);
      assert icon == [icon[0]] + [];
    }
  }

  /** The request a `handleFile` form makes: the file part, the truthy settings as fields, and the icon part if any. */
  lemma FormRequest(f: JsFile, p: Project, icon: seq<FormEntry>)
    requires IconShaped(icon)
    ensures var req := RequestOf(FormOf(f, p, icon));
      && req.files["file"] == Server.Part(f.name, f.content)
      && req.form == FieldMap(p, ProjectFields)
      && ("icon" in req.files <==> icon != [])
  {
    var fileEntry := FormEntry("file", FileValue(f));
    var rest := FieldEntries(p, ProjectFields) + icon;
    assert FormOf(f, p, icon) == [fileEntry] + rest;
    IconRequest(icon);
    RequestOfFields(p, ProjectFields, icon);
    var later := RequestOf(rest);
    assert later.files == RequestOf(icon).files;
    assert later.form == FieldMap(p, ProjectFields);
    RequestOfCons(fileEntry, rest);
    assert RequestOf(FormOf(f, p, icon)) == AddEntry(fileEntry, later);
    assert AddEntry(fileEntry, later).files == later.files["file" := Server.Part(f.name, f.content)];
  }

  /**
   * Every form `handleFile` sends passes the server's three checks, and
   * the settings the server hands to the build are, field by field, the
   * saved value's text when it is truthy and `None` otherwise; the icon
   * path is set exactly when the saved icon is truthy.
   */
  lemma SentIsAccepted(file: Option<JsFile>, p: Project, atob: string -> Option<string>, id: string)
    requires Handling(file, p, atob).Sent?
    ensures var req := RequestOf(Handling(file, p, atob).form);
      && Server.Validate(req).None?
      && req.files["file"] == Server.Part(file.value.name, file.value.content)
      && Server.UploadSettings(req, id).appName == (if Truthy(p, "appName") then Pipeline.Str(ToText(p.fields["appName"])) else Pipeline.NoneValue)
      && Server.UploadSettings(req, id).packageName == (if Truthy(p, "packageName") then Pipeline.Str(ToText(p.fields["packageName"])) else Pipeline.NoneValue)
      && Server.UploadSettings(req, id).version == (if Truthy(p, "version") then Pipeline.Str(ToText(p.fields["version"])) else Pipeline.NoneValue)
      && (Server.UploadSettings(req, id).iconPath.Str? <==> Truthy(p, "icon"))
  {
    SentShape(file, p, atob);
    IconEntryShape(p, atob);
    FormRequest(file.value, p, IconEntry(p, atob).value);
    assert "appName" in ProjectFields && "packageName" in ProjectFields && "version" in ProjectFields;
  }
}

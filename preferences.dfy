/** The SWA preference document and the e-mail that carries it, from
    `change_swa_preferences.py`: the XML template, the `<preference>`
    editor, the base64 fallback decoder, the cached parse of
    `PreferenceEmail.preferences`, and the `OPTION=VALUE` command-line
    settings.

    The e-mail and XML libraries are not modelled: a `Library` value
    supplies what `EmailMessage`, `ElementTree` and `body_decode` return,
    and a message is represented by its RFC 822 bytes. */
module Preferences {
  import opened Common

  /** A child element of the `<preferences>` root: its tag, its `name`
      attribute and its text (None for `<preference name="x"/>` and for an
      element with no content). */
  datatype Element = Element(tag: string, name: Option<string>, text: Option<string>)

  /** The children of the root element, in document order. */
  type Document = seq<Element>

  function Pref(name: string, text: Option<string>): Element {
    Element("preference", Some(name), text)
  }

  /** `PREFERENCE_TEMPLATE`, line by line. */
  const TemplateText: string :=
    @"<?xml version=""1.0""?>
" +
    @"<preferences>
" +
    @"    <preference name=""hideEmailAddresses"">false</preference>
" +
    @"    <preference name=""dateSeparatorChar"">/</preference>
" +
    @"    <preference name=""signatureActiveForForwards"">true</preference>
" +
    @"    <preference name=""newMailSound""/>
" +
    @"    <preference name=""autoLoginActive"">false</preference>
" +
    @"    <preference name=""freeBusyPublishInterval"">5</preference>
" +
    @"    <preference name=""dirSearchOrder"">system,personal</preference>
" +
    @"    <preference name=""calendarsPaneVisible"">true</preference>
" +
    @"    <preference name=""locale"">en_US</preference>
" +
    @"    <preference name=""messagePaneVisible"">true</preference>
" +
    @"    <preference name=""defaultCalendarView"">0</preference>
" +
    @"    <preference name=""todoPaneVisible"">false</preference>
" +
    @"    <preference name=""from"">sxadmin-test@allwebsuite.com</preference>
" +
    @"    <preference name=""timeSeparatorChar"">:</preference>
" +
    @"    <preference name=""msgCompositionFontFamily"">times new roman, new york, times, serif</preference>
" +
    @"    <preference name=""signatureText""></preference>
" +
    @"    <preference name=""includeMessageOnReply"">true</preference>
" +
    @"    <preference name=""useRichText"">true</preference>
" +
    @"    <preference name=""preferredDateTimeFormat"">1</preference>
" +
    @"    <preference name=""weekStart"">0</preference>
" +
    @"    <preference name=""miniCalendarPaneVisible"">true</preference>
" +
    @"    <preference name=""msgCompositionFontSize"">3</preference>
" +
    @"    <preference name=""signatureActiveForReplies"">true</preference>
" +
    @"    <preference name=""workDayEnd"">1020</preference>
" +
    @"    <preference name=""upcomingAppointmentsRange"">7</preference>
" +
    @"    <preference name=""timeWindowSize"">ONE_MONTH</preference>
" +
    @"    <preference name=""workWeek"">1,2,3,4,5</preference>
" +
    @"    <preference name=""workDayStart"">480</preference>
" +
    @"    <preference name=""foldersPaneVisible"">true</preference>
" +
    @"    <preference name=""modePaneVisible"">true</preference>
" +
    @"    <preference name=""refreshFolderList""/>
" +
    @"    <preference name=""themesSelectedThemeId"">scalix-default</preference>
" +
    @"    <preference name=""freeBusyPublishRange"">2</preference>
" +
    @"    <preference name=""autoAcknowledgeReadReceipts"">true</preference>
" +
    @"    <preference name=""calendarSetsPaneVisible"">false</preference>
" +
    @"    <preference name=""showBcc"">false</preference>
" +
    @"    <preference name=""autoSpellCheck"">false</preference>
" +
    @"    <preference name=""blockRemoteImages"">true</preference>
" +
    @"    <preference name=""signatureActiveForNewMessages"">true</preference>
" +
    @"    <preference name=""eventsPaneVisible"">true</preference>
" +
    @"</preferences>
"

  /** The children of `ElementTree.fromstring(PREFERENCE_TEMPLATE)`. */
  const TemplateDocument: Document := [
    Pref("hideEmailAddresses", Some("false")),
    Pref("dateSeparatorChar", Some("/")),
    Pref("signatureActiveForForwards", Some("true")),
    Pref("newMailSound", None),
    Pref("autoLoginActive", Some("false")),
    Pref("freeBusyPublishInterval", Some("5")),
    Pref("dirSearchOrder", Some("system,personal")),
    Pref("calendarsPaneVisible", Some("true")),
    Pref("locale", Some("en_US")),
    Pref("messagePaneVisible", Some("true")),
    Pref("defaultCalendarView", Some("0")),
    Pref("todoPaneVisible", Some("false")),
    Pref("from", Some("sxadmin-test@allwebsuite.com")),
    Pref("timeSeparatorChar", Some(":")),
    Pref("msgCompositionFontFamily", Some("times new roman, new york, times, serif")),
    Pref("signatureText", None),
    Pref("includeMessageOnReply", Some("true")),
    Pref("useRichText", Some("true")),
    Pref("preferredDateTimeFormat", Some("1")),
    Pref("weekStart", Some("0")),
    Pref("miniCalendarPaneVisible", Some("true")),
    Pref("msgCompositionFontSize", Some("3")),
    Pref("signatureActiveForReplies", Some("true")),
    Pref("workDayEnd", Some("1020")),
    Pref("upcomingAppointmentsRange", Some("7")),
    Pref("timeWindowSize", Some("ONE_MONTH")),
    Pref("workWeek", Some("1,2,3,4,5")),
    Pref("workDayStart", Some("480")),
    Pref("foldersPaneVisible", Some("true")),
    Pref("modePaneVisible", Some("true")),
    Pref("refreshFolderList", None),
    Pref("themesSelectedThemeId", Some("scalix-default")),
    Pref("freeBusyPublishRange", Some("2")),
    Pref("autoAcknowledgeReadReceipts", Some("true")),
    Pref("calendarSetsPaneVisible", Some("false")),
    Pref("showBcc", Some("false")),
    Pref("autoSpellCheck", Some("false")),
    Pref("blockRemoteImages", Some("true")),
    Pref("signatureActiveForNewMessages", Some("true")),
    Pref("eventsPaneVisible", Some("true"))
  ]

  /** What the foreign libraries return. */
  datatype Library = Library(
    getContent: Bytes -> Option<string>,        // `message.get_content()`; None when it raises InvalidBase64CharactersDefect
    getPayload: Bytes -> string,                // `message.get_payload()`
    bodyDecode: string -> string,               // `email.base64mime.body_decode`
    parseXml: string -> Option<Document>,       // `ElementTree.fromstring`; None when it raises ParseError
    parseXmlList: seq<string> -> Option<Document>, // `ElementTree.fromstringlist`
    serializeXml: Document -> string,           // `ElementTree.tostring` of a root with these children
    setContent: (Bytes, string) -> Bytes,       // `set_content(text, 'text', 'plain')` on the message
    compose: string -> Bytes)                   // the new SWA message with the given body (`create_preference_message`)

  // ---------------------------------------------------------------------
  // Editing one option

  /** The XPath `.//preference[@name="<name>"]` selects `e`. */
  predicate Selects(e: Element, name: string) {
    e.tag == "preference" && e.name == Some(name)
  }

  /** The index of the first element the XPath selects. */
  function FirstMatch(doc: Document, name: string): (r: Option<nat>)
    ensures r.Some? ==> r.value < |doc| && Selects(doc[r.value], name)
    ensures r.Some? ==> forall j :: 0 <= j < r.value ==> !Selects(doc[j], name)
    ensures r.None? ==> forall j :: 0 <= j < |doc| ==> !Selects(doc[j], name)
    decreases |doc|
  {
    if doc == [] then None
    else if Selects(doc[0], name) then Some(0)
    else match FirstMatch(doc[1..], name)
      case None => None
      case Some(i) => Some(i + 1)
  }

  /** `find_option_and_change` on a document value: the text of the first
      selected element becomes `value`. */
  function SetOption(doc: Document, name: string, value: string): Document
    decreases |doc|
  {
    if doc == [] then []
    else if Selects(doc[0], name) then [doc[0].(text := Some(value))] + doc[1..]
    else [doc[0]] + SetOption(doc[1..], name, value)
  }

  /** Only the first selected element changes, and only its text; with no
      selected element the document is unchanged (nothing is added). */
  lemma {:induction false} SetOptionChangesFirstMatchOnly(doc: Document, name: string, value: string)
    ensures SetOption(doc, name, value) ==
      match FirstMatch(doc, name)
      case None => doc
      case Some(i) => doc[i := doc[i].(text := Some(value))]
    decreases |doc|
  {
    if doc != [] && !Selects(doc[0], name) {
      SetOptionChangesFirstMatchOnly(doc[1..], name, value);
      match FirstMatch(doc[1..], name)
      case None =>
        assert [doc[0]] + doc[1..] == doc;
      case Some(i) =>
        assert [doc[0]] + doc[1..][i := doc[i + 1].(text := Some(value))] == doc[i + 1 := doc[i + 1].(text := Some(value))];
    }
  }

  /** What reading option `name` gives: the text of the first selected element. */
  function Lookup(doc: Document, name: string): Option<Option<string>> {
    match FirstMatch(doc, name)
    case None => None
    case Some(i) => Some(doc[i].text)
  }

  /** The tags and names of the elements, in order. */
  function Skeleton(doc: Document): seq<(string, Option<string>)> {
    seq(|doc|, j requires 0 <= j < |doc| => (doc[j].tag, doc[j].name))
  }

  /** Setting an option keeps every element in place, makes that option
      read back as `value` when it exists, and leaves every other option
      as it was. */
  lemma SetOptionEffect(doc: Document, name: string, value: string, other: string)
    requires other != name
    ensures Skeleton(SetOption(doc, name, value)) == Skeleton(doc)
    ensures Lookup(SetOption(doc, name, value), name) ==
      if Lookup(doc, name).Some? then Some(Some(value)) else None
    ensures Lookup(SetOption(doc, name, value), other) == Lookup(doc, other)
  {
    SetOptionChangesFirstMatchOnly(doc, name, value);
    var r := SetOption(doc, name, value);
    assert forall j :: 0 <= j < |doc| ==> r[j].tag == doc[j].tag && r[j].name == doc[j].name;
    SameSkeletonSameMatch(doc, r, name);
    SameSkeletonSameMatch(doc, r, other);
  }

  lemma SameSkeletonSameMatch(a: Document, b: Document, name: string)
    requires |a| == |b| && forall j :: 0 <= j < |a| ==> a[j].tag == b[j].tag && a[j].name == b[j].name
    ensures FirstMatch(a, name) == FirstMatch(b, name)
  {
  }

  /** Setting the same option twice is the same as setting it once. */
  lemma SetOptionIdempotent(doc: Document, name: string, value: string)
    ensures SetOption(SetOption(doc, name, value), name, value) == SetOption(doc, name, value)
  {
    var r := SetOption(doc, name, value);
    SetOptionChangesFirstMatchOnly(doc, name, value);
    SetOptionChangesFirstMatchOnly(r, name, value);
    assert forall j :: 0 <= j < |doc| ==> r[j].tag == doc[j].tag && r[j].name == doc[j].name;
    SameSkeletonSameMatch(doc, r, name);
  }

  /** Options with different names can be set in either order. */
  lemma SetOptionCommutes(doc: Document, a: string, x: string, b: string, y: string)
    requires a != b
    ensures SetOption(SetOption(doc, a, x), b, y) == SetOption(SetOption(doc, b, y), a, x)
  {
    var ma, mb := FirstMatch(doc, a), FirstMatch(doc, b);
    SetTwice(doc, a, x, b, y);
    SetTwice(doc, b, y, a, x);
    SetTextCommutes(doc, ma, x, mb, y);
  }

  /** The text of the element at `m`, if any, set to `value`. */
  function SetText(doc: Document, m: Option<nat>, value: string): Document
    requires m.Some? ==> m.value < |doc|
  {
    match m
    case None => doc
    case Some(i) => doc[i := doc[i].(text := Some(value))]
  }

  /** Setting two options is setting the texts at their first matches in
      the original document. */
  lemma SetTwice(doc: Document, a: string, x: string, b: string, y: string)
    requires a != b
    ensures SetOption(SetOption(doc, a, x), b, y) == SetText(SetText(doc, FirstMatch(doc, a), x), FirstMatch(doc, b), y)
  {
    var da := SetOption(doc, a, x);
    SetOptionChangesFirstMatchOnly(doc, a, x);
    assert da == SetText(doc, FirstMatch(doc, a), x);
    SetTextKeepsMatches(doc, FirstMatch(doc, a), x, b);
    SetOptionChangesFirstMatchOnly(da, b, y);
  }

  lemma SetTextKeepsMatches(doc: Document, m: Option<nat>, value: string, name: string)
    requires m.Some? ==> m.value < |doc|
    ensures FirstMatch(SetText(doc, m, value), name) == FirstMatch(doc, name)
  {
    var r := SetText(doc, m, value);
    assert forall j :: 0 <= j < |doc| ==> r[j].tag == doc[j].tag && r[j].name == doc[j].name;
    SameSkeletonSameMatch(doc, r, name);
  }

  /** Setting the texts at two different first matches commutes. */
  lemma SetTextCommutes(doc: Document, ma: Option<nat>, x: string, mb: Option<nat>, y: string)
    requires ma.Some? ==> ma.value < |doc|
    requires mb.Some? ==> mb.value < |doc|
    requires ma.Some? && mb.Some? ==> ma.value != mb.value
    ensures SetText(SetText(doc, ma, x), mb, y) == SetText(SetText(doc, mb, y), ma, x)
  {
  }

  /** The loop over `swa_options.items()` in `change_swa_settings`, on a
      document value. */
  function ApplyOptions(doc: Document, options: seq<(string, string)>): Document
    decreases |options|
  {
    if options == [] then doc
    else ApplyOptions(SetOption(doc, options[0].0, options[0].1), options[1..])
  }

  /** Applying options never adds, removes or renames an element. */
  lemma {:induction false} ApplyOptionsKeepsSkeleton(doc: Document, options: seq<(string, string)>)
    ensures Skeleton(ApplyOptions(doc, options)) == Skeleton(doc)
    decreases |options|
  {
    if options != [] {
      var next := SetOption(doc, options[0].0, options[0].1);
      SetOptionEffect(doc, options[0].0, options[0].1, options[0].0 + "'");
      ApplyOptionsKeepsSkeleton(next, options[1..]);
    }
  }

  /** Applying options with distinct names: an option given a value reads
      back as that value when the document has it (otherwise it stays
      missing), and every other option reads as before. */
  lemma {:induction false} ApplyOptionsLookup(doc: Document, options: seq<(string, string)>, name: string)
    requires DistinctKeys(options)
    ensures Lookup(ApplyOptions(doc, options), name) ==
      if Get(options, name).Some? && Lookup(doc, name).Some? then Some(Some(Get(options, name).value))
      else Lookup(doc, name)
    decreases |options|
  {
    if options != [] {
      var (key, value) := options[0];
      var next := SetOption(doc, key, value);
      assert DistinctKeys(options[1..]) by {
        forall i, j | 0 <= i < j < |options[1..]| ensures options[1..][i].0 != options[1..][j].0 {
          assert options[1..][i] == options[i + 1] && options[1..][j] == options[j + 1];
        }
      }
      ApplyOptionsLookup(next, options[1..], name);
      if name == key {
        SetOptionEffect(doc, key, value, key + "'");
        assert Get(options[1..], name).None? by {
          forall j | 0 <= j < |options[1..]| ensures options[1..][j].0 != name {
            assert options[1..][j] == options[j + 1];
          }
        }
      } else {
        SetOptionEffect(doc, key, value, name);
        SetOptionEffect(doc, key, value, key + "'");
      }
    }
  }

  /** The edited element: a document held by an object that the editor
      changes in place. */
  class PreferenceDocument {
    var fields: Document

    constructor (fields: Document)
      ensures this.fields == fields
    {
      this.fields := fields;
    }

    /** `find_option_and_change`: sets the text of the first selected
        element; reports whether there was one (otherwise the source only
        warns). */
    method FindOptionAndChange(name: string, value: string) returns (found: bool)
      modifies this
      ensures fields == SetOption(old(fields), name, value)
      ensures found <==> FirstMatch(old(fields), name).Some?
    {
      SetOptionChangesFirstMatchOnly(fields, name, value);
      var i := 0;
      while i < |fields|
        invariant 0 <= i <= |fields| && fields == old(fields)
        invariant forall j :: 0 <= j < i ==> !Selects(fields[j], name)
        decreases |fields| - i
      {
        if Selects(fields[i], name) {
          fields := fields[i := fields[i].(text := Some(value))];
          return true;
        }
        i := i + 1;
      }
      return false;
    }
  }

  // ---------------------------------------------------------------------
  // Reading the document out of the e-mail

  /** Characters at which `str.splitlines` breaks. */
  predicate IsLineBreak(c: char) {
    var n := c as int;
    0x0a <= n <= 0x0d || 0x1c <= n <= 0x1e || n == 0x85 || n == 0x2028 || n == 0x2029
  }

  /** The first line break at or after `i`, or the end of `s`. */
  function LineEnd(s: string, i: nat): (e: nat)
    requires i <= |s|
    ensures i <= e <= |s|
    ensures forall j :: i <= j < e ==> !IsLineBreak(s[j])
    ensures e < |s| ==> IsLineBreak(s[e])
    decreases |s| - i
  {
    if i == |s| || IsLineBreak(s[i]) then i else LineEnd(s, i + 1)
  }

  /** `str.splitlines()`: `\r\n` counts as one break, and a final break
      does not start an empty line. */
  function SplitLines(s: string): (lines: seq<string>)
    ensures forall k, j :: 0 <= k < |lines| && 0 <= j < |lines[k]| ==> !IsLineBreak(lines[k][j])
    decreases |s|
  {
    if s == [] then []
    else
      var e := LineEnd(s, 0);
      if e == |s| then [s]
      else
        var next := if s[e] == '\r' && e + 1 < |s| && s[e + 1] == '\n' then e + 2 else e + 1;
        [s[..e]] + SplitLines(s[next..])
  }

  /** Each line followed by `\n`, or by `\r\n` when `crlf`. */
  function Terminated(lines: seq<string>, crlf: bool): string
    decreases |lines|
  {
    if lines == [] then [] else lines[0] + (if crlf then "\r\n" else "\n") + Terminated(lines[1..], crlf)
  }

  /** Splitting text made of terminated lines gives the lines back. */
  lemma {:induction false} SplitTerminatedLines(lines: seq<string>, crlf: bool)
    requires forall k, j :: 0 <= k < |lines| && 0 <= j < |lines[k]| ==> !IsLineBreak(lines[k][j])
    ensures SplitLines(Terminated(lines, crlf)) == lines
    decreases |lines|
  {
    if lines != [] {
      var t := if crlf then "\r\n" else "\n";
      var rest := Terminated(lines[1..], crlf);
      assert Terminated(lines, crlf) == lines[0] + t + rest;
      SplitOneLine(lines[0], crlf, rest);
      SplitTerminatedLines(lines[1..], crlf);
      assert [lines[0]] + lines[1..] == lines;
    }
  }

  /** A line without breaks, then its terminator: splitting gives that line
      first, then the lines of what follows. */
  lemma SplitOneLine(p: string, crlf: bool, rest: string)
    requires forall j :: 0 <= j < |p| ==> !IsLineBreak(p[j])
    ensures SplitLines(p + (if crlf then "\r\n" else "\n") + rest) == [p] + SplitLines(rest)
  {
    var t := if crlf then "\r\n" else "\n";
    var s := p + t + rest;
    assert forall j :: 0 <= j < |p| ==> s[j] == p[j];
    assert s[|p|] == t[0];
    FirstBreak(s, |p|);
    assert s[..|p|] == p;
    if crlf {
      assert s[|p| + 1] == '\n';
      assert s[|p| + 2..] == rest;
    } else {
      assert s[|p| + 1..] == rest;
    }
  }

  lemma FirstBreak(s: string, e: nat)
    requires e < |s| && IsLineBreak(s[e]) && forall j :: 0 <= j < e ==> !IsLineBreak(s[j])
    ensures LineEnd(s, 0) == e
  {
  }

  /** The base64 heuristic of `decode_payload`: a line is decoded when it
      ends in `==` or in `+`. */
  predicate LooksBase64(line: string)
    requires line != []
  {
    EndsWith(line, "==") || line[|line| - 1] == '+'
  }

  function DecodeLine(line: string, decode: string -> string): string
    requires line != []
  {
    if LooksBase64(line) then decode(line) else line
  }

  /** `decode_payload` over the lines of the payload. */
  function DecodePayload(lines: seq<string>, decode: string -> string): seq<string>
    decreases |lines|
  {
    if lines == [] then []
    else (if lines[0] == [] then [] else [DecodeLine(lines[0], decode)]) + DecodePayload(lines[1..], decode)
  }

  /** `filter(None, lines)`. */
  function NonEmptyLines(lines: seq<string>): (r: seq<string>)
    ensures forall k :: 0 <= k < |r| ==> r[k] != []
    ensures |r| <= |lines|
    decreases |lines|
  {
    if lines == [] then []
    else (if lines[0] == [] then [] else [lines[0]]) + NonEmptyLines(lines[1..])
  }

  /** The decoder drops the empty lines, decodes exactly the lines that look
      like base64, passes the others through, and keeps the order. */
  lemma {:induction false} DecodePayloadIsFilterThenMap(lines: seq<string>, decode: string -> string)
    ensures var kept := NonEmptyLines(lines);
      DecodePayload(lines, decode) == seq(|kept|, k requires 0 <= k < |kept| => DecodeLine(kept[k], decode))
    decreases |lines|
  {
    if lines != [] {
      DecodePayloadIsFilterThenMap(lines[1..], decode);
    }
  }

  /** `__parse_preferences`: the parsed body, through the line-wise base64
      fallback when the library reports invalid base64. None is a ParseError. */
  function ParsePreferences(lib: Library, message: Bytes): Option<Document> {
    match lib.getContent(message)
    case Some(text) => lib.parseXml(text)
    case None => lib.parseXmlList(DecodePayload(SplitLines(lib.getPayload(message)), lib.bodyDecode))
  }

  /** The SystemError `preferences` raises for an unparsable document. */
  datatype PrefsError = InvalidXml

  /** What a parse in `preferences` produces: the parsed document; on a
      ParseError the template when invalid documents may be replaced, the
      SystemError otherwise. */
  function LoadPreferences(lib: Library, replaceInvalid: bool, message: Bytes): Result<Document, PrefsError> {
    match ParsePreferences(lib, message)
    case Some(doc) => Ok(doc)
    case None => if replaceInvalid then Ok(TemplateDocument) else Err(InvalidXml)
  }

  /** The value of `preferences` given what is cached: an element with no
      children is false in Python, so an empty document is parsed again. */
  function CurrentPreferences(lib: Library, replaceInvalid: bool, message: Bytes, cached: Option<Document>): Result<Document, PrefsError> {
    if cached.Some? && cached.value != [] then Ok(cached.value)
    else LoadPreferences(lib, replaceInvalid, message)
  }

  /** `PreferenceEmail`: a message with its UID (0 for a new message) and
      the document parsed out of it, once `preferences` has been read. */
  class PreferenceEmail {
    const uid: nat
    var message: Bytes
    var cache: PreferenceDocument?

    constructor (uid: nat, message: Bytes)
      ensures this.uid == uid && this.message == message && cache == null
    {
      this.uid := uid;
      this.message := message;
      cache := null;
    }

    function Cached(): Option<Document>
      reads this, cache
    {
      if cache == null then None else Some(cache.fields)
    }

    /** The `preferences` property. */
    method Preferences(lib: Library, replaceInvalid: bool) returns (r: Result<PreferenceDocument, PrefsError>)
      modifies this
      ensures message == old(message)
      ensures r.Ok? ==> cache == r.value && (r.value == old(cache) || fresh(r.value))
      ensures old(cache) != null && old(cache.fields) != [] ==> r == Ok(old(cache))
      ensures (old(cache) == null || old(cache.fields) == []) && r.Ok? ==> fresh(r.value)
      ensures r.Err? ==> cache == old(cache)
      ensures CurrentPreferences(lib, replaceInvalid, message, old(Cached())) ==
        if r.Ok? then Ok(r.value.fields) else Err(r.error)
    {
      if cache == null || cache.fields == [] {
        match LoadPreferences(lib, replaceInvalid, message)
        case Ok(doc) =>
          cache := new PreferenceDocument(doc);
          r := Ok(cache);
        case Err(e) =>
          r := Err(e);
      } else {
        r := Ok(cache);
      }
    }

    /** `as_bytes`: the current document is written back into the message,
        whose bytes are returned. */
    method AsBytes(lib: Library, replaceInvalid: bool) returns (r: Result<Bytes, PrefsError>)
      modifies this
      ensures r.Ok? ==> cache != null && (cache == old(cache) || fresh(cache))
      ensures r.Err? ==> cache == old(cache) && message == old(message)
      ensures match CurrentPreferences(lib, replaceInvalid, old(message), old(Cached()))
        case Ok(doc) =>
          r.Ok? && cache.fields == doc && message == lib.setContent(old(message), lib.serializeXml(doc)) && r.value == message
        case Err(e) => r == Err(e)
    {
      var prefs := Preferences(lib, replaceInvalid);
      match prefs
      case Err(e) =>
        r := Err(e);
      case Ok(doc) =>
        message := lib.setContent(message, lib.serializeXml(doc.fields));
        r := Ok(message);
    }
  }

  /** Reading `preferences` twice: a non-empty document read first is the
      very object the second read returns, whatever the library would parse
      by then; an empty one (false in Python) is parsed again from the
      message into a new object; after an error nothing is cached. */
  method ReadPreferencesTwice(email: PreferenceEmail, lib: Library, later: Library, replaceInvalid: bool)
    returns (first: Result<PreferenceDocument, PrefsError>, second: Result<PreferenceDocument, PrefsError>)
    modifies email
    ensures email.message == old(email.message)
    ensures first.Ok? && first.value.fields != [] ==> second == first && second.value.fields == first.value.fields
    ensures first.Ok? && first.value.fields == [] ==>
      match LoadPreferences(later, replaceInvalid, email.message)
      case Ok(doc) => second.Ok? && fresh(second.value) && second.value != first.value && second.value.fields == doc
      case Err(e) => second == Err(e)
    ensures first.Err? ==>
      CurrentPreferences(later, replaceInvalid, email.message, old(email.Cached())) ==
        if second.Ok? then Ok(second.value.fields) else Err(second.error)
  {
    first := email.Preferences(lib, replaceInvalid);
    second := email.Preferences(later, replaceInvalid);
  }

  /** The message `create_preference_message` composes: the template as
      its body. */
  function NewMessage(lib: Library): Bytes {
    lib.compose(TemplateText)
  }

  /** `create_preference_message`: a new message (UID 0) whose body is the template. */
  method CreatePreferenceMessage(lib: Library) returns (email: PreferenceEmail)
    ensures fresh(email) && email.uid == 0 && email.message == NewMessage(lib) && email.cache == null
  {
    email := new PreferenceEmail(0, lib.compose(TemplateText));
  }

  // ---------------------------------------------------------------------
  // The `--settings OPTION=VALUE ...` arguments

  predicate IsQuote(c: char) {
    c == '\'' || c == '"'
  }

  /** Sets `key` in a dict kept as a sequence in insertion order: an existing
      key keeps its place and gets the new value. */
  function Assign(options: seq<(string, string)>, key: string, value: string): seq<(string, string)>
    decreases |options|
  {
    if options == [] then [(key, value)]
    else if options[0].0 == key then [(key, value)] + options[1..]
    else [options[0]] + Assign(options[1..], key, value)
  }

  /** The value stored under `key`, if any. */
  function Get(options: seq<(string, string)>, key: string): (r: Option<string>)
    ensures r.None? <==> forall j :: 0 <= j < |options| ==> options[j].0 != key
    decreases |options|
  {
    if options == [] then None
    else if options[0].0 == key then Some(options[0].1)
    else Get(options[1..], key)
  }

  predicate DistinctKeys(options: seq<(string, string)>) {
    forall i, j :: 0 <= i < j < |options| ==> options[i].0 != options[j].0
  }

  /** Assigning keeps the keys distinct, stores `value` under `key`, and
      changes no other key's value. */
  lemma {:induction false} AssignEffect(options: seq<(string, string)>, key: string, value: string, other: string)
    requires DistinctKeys(options) && other != key
    ensures DistinctKeys(Assign(options, key, value))
    ensures Get(Assign(options, key, value), key) == Some(value)
    ensures Get(Assign(options, key, value), other) == Get(options, other)
    decreases |options|
  {
    if options != [] && options[0].0 != key {
      AssignEffect(options[1..], key, value, other);
      AssignEffect(options[1..], key, value, options[0].0);
      var tail := Assign(options[1..], key, value);
      assert Get(options[1..], options[0].0).None?;
      assert Get(tail, options[0].0).None?;
    }
  }

  /** `option.split('=', 1)`: the name before the first `=` and the rest. */
  function SplitOption(option: string): Option<(string, string)> {
    match Find(option, "=", 0)
    case None => None
    case Some(i) => Some((option[..i], option[i + 1..]))
  }

  /** The settings dict built from the arguments, or the first argument
      without `=`. */
  function Settings(args: seq<string>, acc: seq<(string, string)>): Result<seq<(string, string)>, string>
    decreases |args|
  {
    if args == [] then Ok(acc)
    else match SplitOption(args[0])
      case None => Err(args[0])
      case Some((name, value)) => Settings(args[1..], Assign(acc, name, Trim(value, IsQuote)))
  }

  /** The value the last argument naming `key` gives it: the text after
      its first `=`, with surrounding quotes stripped. */
  function LastSetting(args: seq<string>, key: string): Option<string>
    decreases |args|
  {
    if args == [] then None
    else match SplitOption(args[|args| - 1])
      case Some((name, value)) =>
        if name == key then Some(Trim(value, IsQuote)) else LastSetting(args[..|args| - 1], key)
      case None => LastSetting(args[..|args| - 1], key)
  }

  /** An argument in front only counts when no later one names the key. */
  lemma {:induction false} LastSettingCons(a: string, args: seq<string>, key: string)
    ensures LastSetting([a] + args, key) ==
      if LastSetting(args, key).Some? then LastSetting(args, key) else LastSetting([a], key)
    decreases |args|
  {
    if args != [] {
      var n := |args| - 1;
      assert ([a] + args)[..|[a] + args| - 1] == [a] + args[..n];
      assert ([a] + args)[|[a] + args| - 1] == args[n];
      LastSettingCons(a, args[..n], key);
    } else {
      assert [a] + args == [a];
    }
  }

  /** Each option gets the value of the last argument that names it, and
      an option no argument names keeps the value it had before. */
  lemma {:induction false} SettingsValues(args: seq<string>, acc: seq<(string, string)>, key: string)
    requires DistinctKeys(acc)
    ensures Settings(args, acc).Ok? ==>
      Get(Settings(args, acc).value, key) ==
        if LastSetting(args, key).Some? then LastSetting(args, key) else Get(acc, key)
    decreases |args|
  {
    if args != [] {
      match SplitOption(args[0])
      case None =>
      case Some((name, value)) =>
        var next := Assign(acc, name, Trim(value, IsQuote));
        if name == key {
          AssignEffect(acc, name, Trim(value, IsQuote), key + "=");
        } else {
          AssignEffect(acc, name, Trim(value, IsQuote), key);
        }
        SettingsValues(args[1..], next, key);
        assert args == [args[0]] + args[1..];
        LastSettingCons(args[0], args[1..], key);
        assert [args[0]][..0] == [];
    }
  }

  /** The `--settings` loop of the script. */
  method ParseSettings(args: seq<string>) returns (r: Result<seq<(string, string)>, string>)
    ensures r == Settings(args, [])
    ensures r.Ok? ==> DistinctKeys(r.value)
    ensures r.Ok? ==> forall key :: Get(r.value, key) == LastSetting(args, key)
  {
    SettingsErrors(args, []);
    forall key {
      SettingsValues(args, [], key);
    }
    var settings: seq<(string, string)> := [];
    var i := 0;
    while i < |args|
      invariant 0 <= i <= |args|
      invariant Settings(args, []) == Settings(args[i..], settings)
      decreases |args| - i
    {
      assert args[i..][0] == args[i] && args[i..][1..] == args[i + 1..];
      match SplitOption(args[i])
      case None =>
        return Err(args[i]);
      case Some((name, value)) =>
        settings := Assign(settings, name, Trim(value, IsQuote));
      i := i + 1;
    }
    return Ok(settings);
  }

  /** The arguments are rejected exactly when one of them has no `=`, and
      then the first such one is reported; otherwise each option name
      appears once. */
  lemma {:induction false} SettingsErrors(args: seq<string>, acc: seq<(string, string)>)
    requires DistinctKeys(acc)
    ensures Settings(args, acc).Err? <==> exists k :: 0 <= k < |args| && !Contains(args[k], "=")
    ensures Settings(args, acc).Err? ==>
      exists k :: 0 <= k < |args| && Settings(args, acc).error == args[k] && !Contains(args[k], "=") &&
        forall j :: 0 <= j < k ==> Contains(args[j], "=")
    ensures Settings(args, acc).Ok? ==> DistinctKeys(Settings(args, acc).value)
    decreases |args|
  {
    if args != [] {
      match SplitOption(args[0])
      case None =>
      case Some((name, value)) =>
        AssignEffect(acc, name, Trim(value, IsQuote), name + "=");
        SettingsErrors(args[1..], Assign(acc, name, Trim(value, IsQuote)));
        if Settings(args, acc).Err? {
          var k :| 0 <= k < |args[1..]| && Settings(args, acc).error == args[1..][k] && !Contains(args[1..][k], "=") &&
            forall j :: 0 <= j < k ==> Contains(args[1..][j], "=");
          assert args[k + 1] == args[1..][k];
          assert forall j :: 1 <= j < k + 1 ==> args[j] == args[1..][j - 1];
        } else {
          assert forall j :: 1 <= j < |args| ==> args[j] == args[1..][j - 1];
        }
    }
  }
}

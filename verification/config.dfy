/**
 * The global-configuration panel: default login type (a combo of SSH and Telnet), login
 * timeout, SNMP version and SNMP community. Reset restores the defaults; export writes the
 * four values as a small JSON object; import reads a file back by cutting the text around
 * `"key"\s*:\s*"` and the next double quote, one key at a time.
 */
module Config {
  import opened Optional
  import opened Text
  import opened Commands

  /** The panel's state: the combo's selected item and the three text fields as typed. */
  datatype Settings = Settings(loginType: string, timeout: string, snmpVersion: string, community: string)

  const LoginTypes: seq<string> := ["SSH", "Telnet"]

  /** What the panel starts with and what the reset button restores. */
  const Defaults: Settings := Settings("SSH", "30", "v2c", "public")

  /** The four settings, in the order export writes them and import reads them. */
  datatype Setting = LoginType | Timeout | SnmpVersion | Community

  const ImportOrder: seq<Setting> := [LoginType, Timeout, SnmpVersion, Community]

  function Key(f: Setting): string {
    match f
    case LoginType => "loginType"
    case Timeout => "timeout"
    case SnmpVersion => "snmpVer"
    case Community => "snmpComm"
  }

  function Get(s: Settings, f: Setting): string {
    match f
    case LoginType => s.loginType
    case Timeout => s.timeout
    case SnmpVersion => s.snmpVersion
    case Community => s.community
  }

  /**
   * Storing an imported value: the text fields take it as it is; the combo's `setSelectedItem`
   * ignores a value that is not one of its items and keeps the current selection.
   */
  function Assign(s: Settings, f: Setting, v: string): (r: Settings)
    ensures f == LoginType ==> Get(r, f) == if v in LoginTypes then v else Get(s, f)
    ensures f != LoginType ==> Get(r, f) == v
    ensures forall g :: g != f ==> Get(r, g) == Get(s, g)
  {
    match f
    case LoginType => if v in LoginTypes then s.(loginType := v) else s
    case Timeout => s.(timeout := v)
    case SnmpVersion => s.(snmpVersion := v)
    case Community => s.(community := v)
  }

  // ---------------------------------------------------------------------------
  // Export
  // ---------------------------------------------------------------------------

  /** A key with its value as exported. */
  datatype Entry = Entry(key: string, value: string)

  function Quoted(w: string): string {
    "\"" + w + "\""
  }

  /** One member line of the exported object, without its separator: `  "key": "value"`. */
  function Member(e: Entry): string {
    "  " + Quoted(e.key) + ": " + Quoted(e.value)
  }

  /** The length of a member line. */
  function Width(e: Entry): nat {
    |e.key| + |e.value| + 8
  }

  /** The exported members: the combo item as it is, the text fields trimmed. */
  function Entries(s: Settings): seq<Entry> {
    EntryList(s.loginType, Trim(s.timeout), Trim(s.snmpVersion), Trim(s.community))
  }

  /** The four members in export order, with the given values. */
  function EntryList(login: string, timeout: string, version: string, community: string): seq<Entry> {
    [Entry(Key(LoginType), login), Entry(Key(Timeout), timeout),
     Entry(Key(SnmpVersion), version), Entry(Key(Community), community)]
  }

  /** The members after the opening line: `,\n` between them, then a newline and the closing brace. */
  function ExportBody(es: seq<Entry>): string
    requires |es| >= 1
    decreases |es|
  {
    if |es| == 1 then Member(es[0]) + "\n}" else Member(es[0]) + ",\n" + ExportBody(es[1..])
  }

  /** The text the export button writes. */
  function Export(s: Settings): string {
    "{\n" + ExportBody(Entries(s))
  }

  // ---------------------------------------------------------------------------
  // Import
  // ---------------------------------------------------------------------------

  predicate IsLineBreak(c: char) {
    c == '\n' || c == '\r'
  }

  /**
   * What the import loop assembles: `readLine` ends a line at `\n`, `\r` or `\r\n` and drops the
   * terminator, and the lines are appended with nothing between them.
   */
  function ReadLines(text: string): (content: string)
    ensures |content| <= |text|
    ensures forall i :: 0 <= i < |content| ==> !IsLineBreak(content[i])
    decreases |text|
  {
    if text == [] then [] else (if IsLineBreak(text[0]) then [] else [text[0]]) + ReadLines(text[1..])
  }

  /**
   * The value stored for `key`: the second piece of the text split around `"key"\s*:\s*"`, cut
   * at its first double quote. A missing piece is the array-index failure that aborts the import.
   */
  function Extract(content: string, key: string): (r: Option<string>)
    ensures r.Some? ==> '"' !in r.value
  {
    var outer := Split(content, KeyColonQuote(key));
    if |outer| < 2 then None
    else
      var inner := Split(outer[1], Char('"'));
      if |inner| == 0 then None
      else
        SplitPiecesLackSeparator(outer[1], '"');
        Some(inner[0])
  }

  datatype Status = Imported | Unsupported | Failed

  /** The panel's settings after an import, and which message it shows. */
  datatype ImportResult = ImportResult(settings: Settings, status: Status)

  /**
   * The keys are visited in `order`; a key whose quoted name does not occur is skipped, and a
   * failed extraction stops the import with the earlier keys already stored.
   */
  function ImportFrom(s: Settings, content: string, order: seq<Setting>): (r: ImportResult)
    ensures r.status != Unsupported
    ensures forall g :: g !in order ==> Get(r.settings, g) == Get(s, g)
    ensures forall g :: !Contains(content, Quoted(Key(g))) ==> Get(r.settings, g) == Get(s, g)
    decreases |order|
  {
    if order == [] then ImportResult(s, Imported)
    else if !Contains(content, Quoted(Key(order[0]))) then ImportFrom(s, content, order[1..])
    else
      match Extract(content, Key(order[0]))
      case None => ImportResult(s, Failed)
      case Some(v) => ImportFrom(Assign(s, order[0], v), content, order[1..])
  }

  /** The import succeeds exactly when every key that occurs in the text yields a value. */
  lemma {:induction false} ImportedIffAllRead(s: Settings, content: string, order: seq<Setting>)
    ensures ImportFrom(s, content, order).status == Imported <==>
      forall g :: g in order && Contains(content, Quoted(Key(g))) ==> Extract(content, Key(g)).Some?
    decreases |order|
  {
    if order != [] {
      var g := order[0];
      assert forall h :: h in order <==> h == g || h in order[1..];
      if !Contains(content, Quoted(Key(g))) {
        ImportedIffAllRead(s, content, order[1..]);
      } else if Extract(content, Key(g)).Some? {
        ImportedIffAllRead(Assign(s, g, Extract(content, Key(g)).value), content, order[1..]);
      }
    }
  }

  /** The import button: only a text containing `{` is read as JSON. */
  function Import(s: Settings, text: string): (r: ImportResult)
    ensures !Contains(ReadLines(text), "{") <==> r.status == Unsupported
    ensures r.status == Unsupported ==> r.settings == s
    ensures forall g :: !Contains(ReadLines(text), Quoted(Key(g))) ==> Get(r.settings, g) == Get(s, g)
  {
    var content := ReadLines(text);
    if !Contains(content, "{") then ImportResult(s, Unsupported) else ImportFrom(s, content, ImportOrder)
  }

  // ---------------------------------------------------------------------------
  // Properties
  // ---------------------------------------------------------------------------

  /** A value the export can carry through a file and back: no quote and no line break. */
  predicate Plain(v: string) {
    '"' !in v && '\n' !in v && '\r' !in v
  }

  /**
   * Exporting and importing the file restores every setting, with the text fields trimmed,
   * whatever the panel showed before, as long as no value contains a quote or a line break.
   */
  lemma ExportImportRoundTrip(current: Settings, s: Settings)
    requires s.loginType in LoginTypes
    requires Plain(Trim(s.timeout)) && Plain(Trim(s.snmpVersion)) && Plain(Trim(s.community))
    ensures Import(current, Export(s)) ==
      ImportResult(Settings(s.loginType, Trim(s.timeout), Trim(s.snmpVersion), Trim(s.community)), Imported)
  {
    var login, timeout, version, community := s.loginType, Trim(s.timeout), Trim(s.snmpVersion), Trim(s.community);
    var es := Entries(s);
    LoginTypePlain(login);
    var content := "{" + Body(es);
    ExportedContent(Export(s), content, es, login, timeout, version, community);
    ContentImports(current, content, es, login, timeout, version, community);
    ImportOfContent(current, Export(s), content, ImportResult(Settings(login, timeout, version, community), Imported));
  }

  /** The combo's items hold no quote and no line break. */
  lemma LoginTypePlain(v: string)
    requires v in LoginTypes
    ensures Plain(v)
  {
    assert v == "SSH" || v == "Telnet";
  }

  /** The file the export writes, read line by line, is the object with its line breaks removed. */
  lemma ExportedContent(text: string, content: string, es: seq<Entry>, login: string, timeout: string, version: string, community: string)
    requires Plain(login) && Plain(timeout) && Plain(version) && Plain(community)
    requires es == EntryList(login, timeout, version, community)
    requires text == "{\n" + ExportBody(es) && content == "{" + Body(es)
    ensures ReadLines(text) == content
  {
    EntryListOk(login, timeout, version, community);
    ObjectReadsBack(es);
  }

  /** The exported object, once read, yields the four values in import order. */
  lemma ContentImports(current: Settings, content: string, es: seq<Entry>, login: string, timeout: string, version: string, community: string)
    requires login in LoginTypes && Plain(login) && Plain(timeout) && Plain(version) && Plain(community)
    requires es == EntryList(login, timeout, version, community) && content == "{" + Body(es)
    ensures Contains(content, "{")
    ensures ImportFrom(current, content, ImportOrder) == ImportResult(Settings(login, timeout, version, community), Imported)
  {
    EntryListOk(login, timeout, version, community);
    assert OccursAt(content, "{", 0);
    EntryFound(content, es, 0);
    EntryFound(content, es, 1);
    EntryFound(content, es, 2);
    EntryFound(content, es, 3);
    ReadInOrder(current, content, login, timeout, version, community);
  }

  /** The import of a text that reads as an object is the key-by-key import of what was read. */
  lemma ImportOfContent(current: Settings, text: string, content: string, r: ImportResult)
    requires ReadLines(text) == content && Contains(content, "{")
    requires ImportFrom(current, content, ImportOrder) == r
    ensures Import(current, text) == r
  {
  }

  /** When every key occurs and yields its value, the import stores the four values in turn. */
  lemma ReadInOrder(current: Settings, content: string, login: string, timeout: string, version: string, community: string)
    requires login in LoginTypes
    requires Contains(content, Quoted(Key(LoginType))) && Contains(content, Quoted(Key(Timeout)))
    requires Contains(content, Quoted(Key(SnmpVersion))) && Contains(content, Quoted(Key(Community)))
    requires Extract(content, Key(LoginType)) == Some(login) && Extract(content, Key(Timeout)) == Some(timeout)
    requires Extract(content, Key(SnmpVersion)) == Some(version) && Extract(content, Key(Community)) == Some(community)
    ensures ImportFrom(current, content, ImportOrder) == ImportResult(Settings(login, timeout, version, community), Imported)
  {
    var s1 := Assign(current, LoginType, login);
    var s2 := Assign(s1, Timeout, timeout);
    var s3 := Assign(s2, SnmpVersion, version);
    var s4 := Assign(s3, Community, community);
    assert ImportFrom(current, content, ImportOrder) == ImportFrom(s1, content, ImportOrder[1..]);
    assert ImportFrom(s1, content, ImportOrder[1..]) == ImportFrom(s2, content, ImportOrder[2..]);
    assert ImportFrom(s2, content, ImportOrder[2..]) == ImportFrom(s3, content, ImportOrder[3..]);
    assert ImportFrom(s3, content, ImportOrder[3..]) == ImportFrom(s4, content, []);
  }

  /** A panel the round trip gives back unchanged: a known login type, trimmed plain texts. */
  predicate Stable(s: Settings) {
    s.loginType in LoginTypes
    && IsTrimmed(s.timeout) && Plain(s.timeout)
    && IsTrimmed(s.snmpVersion) && Plain(s.snmpVersion)
    && IsTrimmed(s.community) && Plain(s.community)
  }

  /** Exporting a stable panel and importing the file, into any panel, gives back exactly that panel. */
  lemma StableRoundTrip(current: Settings, s: Settings)
    requires Stable(s)
    ensures Import(current, Export(s)) == ImportResult(s, Imported)
  {
    TrimOfTrimmed(s.timeout);
    TrimOfTrimmed(s.snmpVersion);
    TrimOfTrimmed(s.community);
    ExportImportRoundTrip(current, s);
  }

  /**
   * The reset button: the combo's first item and the three default texts, whatever the panel
   * showed. This is the panel's initial state, and a round trip through a file keeps it.
   */
  function Reset(s: Settings): (r: Settings)
    ensures r == Defaults && Stable(r)
  {
    Settings(LoginTypes[0], "30", "v2c", "public")
  }

  /**
   * The import is not atomic: when the login type is read but the timeout key occurs without
   * a usable value, the new login type stays selected and the import reports a failure.
   */
  lemma PartialImportOnFailure(s: Settings, content: string, v: string)
    requires Contains(content, Quoted("loginType")) && Extract(content, "loginType") == Some(v) && v in LoginTypes
    requires Contains(content, Quoted("timeout")) && Extract(content, "timeout").None?
    ensures ImportFrom(s, content, ImportOrder) == ImportResult(s.(loginType := v), Failed)
  {
    assert ImportOrder[1..][0] == Timeout;
  }

  /** An unknown login type in the file leaves the combo where it was. */
  lemma UnknownLoginTypeIgnored(s: Settings, content: string, v: string)
    requires Contains(content, Quoted("loginType")) && Extract(content, "loginType") == Some(v) && v !in LoginTypes
    ensures ImportFrom(s, content, ImportOrder).settings.loginType == s.loginType
    ensures ImportFrom(s, content, ImportOrder) == ImportFrom(s, content, ImportOrder[1..])
  {
  }

  // ---------------------------------------------------------------------------
  // Proof of the round trip
  // ---------------------------------------------------------------------------

  /** A key the matcher can find unambiguously: non-empty, no quote, not starting with `:`, `,` or `}`. */
  predicate KeyOk(key: string) {
    key != "" && '"' !in key && key[0] != ':' && key[0] != ',' && key[0] != '}'
  }

  predicate WellFormed(es: seq<Entry>) {
    forall m :: 0 <= m < |es| ==> KeyOk(es[m].key) && '"' !in es[m].value
  }

  /** Four plain values make a well-formed member list with distinct, plain keys. */
  lemma EntryListOk(login: string, timeout: string, version: string, community: string)
    requires Plain(login) && Plain(timeout) && Plain(version) && Plain(community)
    ensures var es := EntryList(login, timeout, version, community);
      WellFormed(es)
      && (forall m, n :: 0 <= m < |es| && 0 <= n < |es| && m != n ==> es[m].key != es[n].key)
      && (forall m :: 0 <= m < |es| ==> Plain(es[m].key) && Plain(es[m].value))
  {
    var es := EntryList(login, timeout, version, community);
    KeysOk();
    KeysPlain();
    assert es[0].key == Key(LoginType) && es[1].key == Key(Timeout);
    assert es[2].key == Key(SnmpVersion) && es[3].key == Key(Community);
  }

  /** The four keys are usable by the matcher and pairwise different. */
  lemma KeysOk()
    ensures forall g :: KeyOk(Key(g))
    ensures forall g, h :: g != h ==> Key(g) != Key(h)
  {
    forall g ensures KeyOk(Key(g)) {
      assert Plain(Key(g));
    }
    DiffersAt("loginType", "timeout", 0);
    DiffersAt("loginType", "snmpVer", 0);
    DiffersAt("loginType", "snmpComm", 0);
    DiffersAt("timeout", "snmpVer", 0);
    DiffersAt("timeout", "snmpComm", 0);
    DiffersAt("snmpVer", "snmpComm", 4);
  }

  /** `w` in double quotes starts at `i`. */
  predicate QuotedAt(s: string, i: nat, w: string) {
    i + |w| + 2 <= |s| && s[i] == '"' && s[i + |w| + 1] == '"' && forall j :: 0 <= j < |w| ==> s[i + 1 + j] == w[j]
  }

  lemma QuotedAtPrefix(s: string, i: nat, w: string)
    requires QuotedAt(s, i, w)
    ensures Quoted(w) <= s[i..]
  {
    var h := Quoted(w);
    forall j | 0 <= j < |h| ensures h[j] == s[i..][j] {
      if 1 <= j <= |w| {
        assert h[j] == w[j - 1];
      }
    }
  }

  lemma NoMatchOffQuote(s: string, i: nat, key: string)
    requires i < |s| && s[i] != '"'
    ensures MatchAt(s, i, KeyColonQuote(key)).None?
  {
    DiffersAt(Quoted(key), s[i..], 0);
  }

  lemma NoMatchBeforeKey(s: string, i: nat, key: string)
    requires i + 1 < |s| && key != "" && s[i + 1] != key[0]
    ensures MatchAt(s, i, KeyColonQuote(key)).None?
  {
    DiffersAt(Quoted(key), s[i..], 1);
  }

  /** At a quoted word other than `key` the pattern for `key` does not start. */
  lemma NoMatchOtherWord(s: string, i: nat, key: string, w: string)
    requires QuotedAt(s, i, w) && '"' !in key && '"' !in w && key != w
    ensures MatchAt(s, i, KeyColonQuote(key)).None?
  {
    var h := Quoted(key);
    var t := s[i..];
    if |key| < |w| {
      assert h[|key| + 1] == '"' && t[|key| + 1] == w[|key|];
      DiffersAt(h, t, |key| + 1);
    } else if |key| > |w| {
      assert h[|w| + 1] == key[|w|] && t[|w| + 1] == '"';
      DiffersAt(h, t, |w| + 1);
    } else {
      var m :| 0 <= m < |key| && key[m] != w[m];
      assert h[m + 1] == key[m] && t[m + 1] == w[m];
      DiffersAt(h, t, m + 1);
    }
  }

  /** A quoted word followed by something other than a space or a colon never starts the pattern. */
  lemma NoMatchValue(s: string, i: nat, key: string, w: string)
    requires QuotedAt(s, i, w) && '"' !in key && '"' !in w
    requires i + |w| + 2 < |s| && s[i + |w| + 2] != ':' && !IsRegexSpace(s[i + |w| + 2])
    ensures MatchAt(s, i, KeyColonQuote(key)).None?
  {
    if key != w {
      NoMatchOtherWord(s, i, key, w);
    } else {
      assert SkipSpaces(s, i + |w| + 2) == i + |w| + 2;
    }
  }

  /** `"key": "` starting at `i` is a match ending just after the value's opening quote. */
  lemma MatchKey(s: string, i: nat, key: string)
    requires QuotedAt(s, i, key) && i + |key| + 5 <= |s|
    requires s[i + |key| + 2] == ':' && s[i + |key| + 3] == ' ' && s[i + |key| + 4] == '"'
    ensures MatchAt(s, i, KeyColonQuote(key)) == Some(i + |key| + 5)
  {
    QuotedAtPrefix(s, i, key);
    var j := i + |key| + 2;
    assert SkipSpaces(s, j) == j;
    assert SkipSpaces(s, j + 2) == j + 2;
    assert SkipSpaces(s, j + 1) == j + 2;
  }

  /** Where the characters of a member sit when it starts at `at` in `s`. */
  lemma MemberLayout(s: string, at: nat, e: Entry)
    requires at + Width(e) <= |s| && s[at..at + Width(e)] == Member(e)
    ensures Width(e) == |e.key| + |e.value| + 8
    ensures s[at] == ' ' && s[at + 1] == ' ' && QuotedAt(s, at + 2, e.key)
    ensures s[at + |e.key| + 4] == ':' && s[at + |e.key| + 5] == ' ' && QuotedAt(s, at + |e.key| + 6, e.value)
  {
    var k := |e.key|;
    MemberChars(e);
    MemberCharAt(s, at, e, 0);
    MemberCharAt(s, at, e, 1);
    MemberCharAt(s, at, e, k + 4);
    MemberCharAt(s, at, e, k + 5);
    MemberQuotedAt(s, at, e, 2, e.key);
    MemberQuotedAt(s, at, e, k + 6, e.value);
  }

  lemma MemberWidth(e: Entry)
    ensures |Member(e)| == Width(e)
  {
  }

  /** The characters of a member line on their own. */
  lemma MemberChars(e: Entry)
    ensures |Member(e)| == Width(e)
    ensures Member(e)[0] == ' ' && Member(e)[1] == ' ' && QuotedAt(Member(e), 2, e.key)
    ensures Member(e)[|e.key| + 4] == ':' && Member(e)[|e.key| + 5] == ' '
    ensures QuotedAt(Member(e), |e.key| + 6, e.value)
  {
    var k := |e.key|;
    var M := Member(e);
    assert forall j :: 0 <= j < k ==> M[3 + j] == e.key[j];
    assert forall j :: 0 <= j < |e.value| ==> M[k + 7 + j] == e.value[j];
  }

  /** A character of a member laid out at `at` is the character of the text at the shifted index. */
  lemma MemberCharAt(s: string, at: nat, e: Entry, j: nat)
    requires at + Width(e) <= |s| && s[at..at + Width(e)] == Member(e) && j < Width(e)
    ensures s[at + j] == Member(e)[j]
  {
    assert s[at..at + Width(e)][j] == s[at + j];
  }

  /** A word quoted inside a member laid out at `at` is quoted in the text at the shifted index. */
  lemma MemberQuotedAt(s: string, at: nat, e: Entry, i: nat, w: string)
    requires at + Width(e) <= |s| && s[at..at + Width(e)] == Member(e) && QuotedAt(Member(e), i, w)
    requires i + |w| + 2 <= Width(e)
    ensures QuotedAt(s, at + i, w)
  {
    MemberCharAt(s, at, e, i);
    MemberCharAt(s, at, e, i + |w| + 1);
    forall j | 0 <= j < |w|
      ensures s[at + i + 1 + j] == w[j]
    {
      MemberCharAt(s, at, e, i + 1 + j);
    }
  }

  /**
   * Inside one member followed by `,` or `}`, the pattern for `key` can start only at the
   * member's opening quote, and only when `key` is that member's key.
   */
  lemma MemberNoMatch(s: string, at: nat, e: Entry, key: string, i: nat)
    requires at + Width(e) < |s| && s[at..at + Width(e)] == Member(e)
    requires s[at + Width(e)] == ',' || s[at + Width(e)] == '}'
    requires KeyOk(e.key) && '"' !in e.value && KeyOk(key)
    requires at <= i <= at + Width(e) && (i != at + 2 || key != e.key)
    ensures MatchAt(s, i, KeyColonQuote(key)).None?
  {
    MemberLayout(s, at, e);
    var k := |e.key|;
    var v := |e.value|;
    if i == at + 2 {
      NoMatchOtherWord(s, i, key, e.key);
    } else if i == at + k + 3 {
      NoMatchBeforeKey(s, i, key);
    } else if i == at + k + 6 {
      NoMatchValue(s, i, key, e.value);
    } else if i == at + k + v + 7 {
      NoMatchBeforeKey(s, i, key);
    } else if i < at + 2 || i == at + k + 4 || i == at + k + 5 || i == at + k + v + 8 {
      NoMatchOffQuote(s, i, key);
    } else if i < at + k + 3 {
      assert s[i] == e.key[i - at - 3];
      NoMatchOffQuote(s, i, key);
    } else {
      assert s[i] == e.value[i - at - k - 7];
      NoMatchOffQuote(s, i, key);
    }
  }

  /** The exported object after line breaks are removed: the members, `,` between them, then `}`. */
  function Body(es: seq<Entry>): string
    requires |es| >= 1
    decreases |es|
  {
    if |es| == 1 then Member(es[0]) + "}" else Member(es[0]) + "," + Body(es[1..])
  }

  /**
   * `s` holds the members of `es` from `at` to its end: each member followed by `,`, the last
   * one by `}` as the final character.
   */
  predicate LaidOut(s: string, at: nat, es: seq<Entry>)
    decreases |es|
  {
    |es| >= 1 && at + Width(es[0]) < |s| && s[at..at + Width(es[0])] == Member(es[0])
    && if |es| == 1 then s[at + Width(es[0])] == '}' && at + Width(es[0]) + 1 == |s|
       else s[at + Width(es[0])] == ',' && LaidOut(s, at + Width(es[0]) + 1, es[1..])
  }

  lemma BodyLaidOut(pre: string, es: seq<Entry>)
    requires |es| >= 1
    ensures LaidOut(pre + Body(es), |pre|, es)
  {
    assert (pre + Body(es))[|pre|..] == Body(es);
    BodyAt(pre + Body(es), |pre|, es);
  }

  /** A text whose suffix from `at` is the body has the members laid out from `at`. */
  lemma {:induction false} BodyAt(s: string, at: nat, es: seq<Entry>)
    requires |es| >= 1 && at <= |s| && s[at..] == Body(es)
    ensures LaidOut(s, at, es)
    decreases |es|
  {
    MemberWidth(es[0]);
    if |es| == 1 {
      PieceAt(s, at, Member(es[0]), "}", "");
    } else {
      PieceAt(s, at, Member(es[0]), ",", Body(es[1..]));
      BodyAt(s, at + Width(es[0]) + 1, es[1..]);
    }
  }

  /** Cutting a suffix made of a piece, a one-character separator and the rest. */
  lemma PieceAt(s: string, at: nat, m: string, sep: string, rest: string)
    requires |sep| == 1 && at <= |s| && s[at..] == m + sep + rest
    ensures at + |m| + 1 + |rest| == |s|
    ensures s[at..at + |m|] == m && s[at + |m|] == sep[0] && s[at + |m| + 1..] == rest
  {
    assert s[at..][..|m|] == m;
    assert s[at..][|m|] == sep[0];
    assert s[at..][|m| + 1..] == rest;
  }

  lemma {:induction false} LaidOutEndsInBrace(s: string, at: nat, es: seq<Entry>)
    requires LaidOut(s, at, es)
    ensures s[|s| - 1] == '}'
    decreases |es|
  {
    if |es| > 1 {
      LaidOutEndsInBrace(s, at + Width(es[0]) + 1, es[1..]);
    }
  }

  /** No member of `es` has `key`, so the pattern for `key` starts nowhere in their text. */
  lemma {:induction false} BodyNoMatch(s: string, at: nat, es: seq<Entry>, key: string)
    requires LaidOut(s, at, es) && WellFormed(es) && KeyOk(key)
    requires forall m :: 0 <= m < |es| ==> es[m].key != key
    ensures forall i :: at <= i <= |s| ==> MatchAt(s, i, KeyColonQuote(key)).None?
    decreases |es|
  {
    var n := Width(es[0]);
    forall i | at <= i < at + n + 1 ensures MatchAt(s, i, KeyColonQuote(key)).None? {
      MemberNoMatch(s, at, es[0], key, i);
    }
    if |es| > 1 {
      BodyNoMatch(s, at + n + 1, es[1..], key);
    } else {
      assert MatchAt(s, |s|, KeyColonQuote(key)).None?;
    }
  }

  /** The pattern for `key` starts nowhere from `from` up to, not including, `to`. */
  predicate NoMatchIn(s: string, key: string, from: nat, to: nat) {
    forall i | from <= i < to && i <= |s| :: MatchAt(s, i, KeyColonQuote(key)).None?
  }

  /**
   * From `at` on, the pattern for `key` occurs once, from `p` to `q`, and the text from `q` is
   * `v` closed by a quote, with more text after it.
   */
  predicate FoundAt(s: string, key: string, v: string, at: nat, p: nat, q: nat) {
    at <= p && p + |key| + 5 == q && q + |v| + 1 < |s|
    && NoMatchIn(s, key, at, p) && MatchAt(s, p, KeyColonQuote(key)) == Some(q) && NoMatchIn(s, key, q, |s| + 1)
    && s[q..q + |v|] == v && s[q + |v|] == '"'
  }

  /** With distinct keys, member `j` of a laid-out object is found from the object's start. */
  lemma {:induction false} BodyFound(s: string, at: nat, es: seq<Entry>, j: nat, key: string, v: string)
    returns (p: nat, q: nat)
    requires j < |es| && es[j] == Entry(key, v) && LaidOut(s, at, es) && WellFormed(es)
    requires forall m :: 0 <= m < |es| && m != j ==> es[m].key != key
    ensures FoundAt(s, key, v, at, p, q)
    decreases j
  {
    if j == 0 {
      p, q := FirstMemberFound(s, at, es);
    } else {
      var at' := at + Width(es[0]) + 1;
      var rest := es[1..];
      assert rest[j - 1] == es[j];
      SkipMember(s, at, es[0], key);
      p, q := BodyFound(s, at', rest, j - 1, key, v);
      FoundEarlier(s, key, v, at, at', p, q);
    }
  }

  /** Starting earlier, over a stretch with no match, finds the same. */
  lemma FoundEarlier(s: string, key: string, v: string, at: nat, at': nat, p: nat, q: nat)
    requires at <= at' && NoMatchIn(s, key, at, at') && FoundAt(s, key, v, at', p, q)
    ensures FoundAt(s, key, v, at, p, q)
  {
  }

  /** A key other than this member's is not found inside the member or at the separator after it. */
  lemma SkipMember(s: string, at: nat, e: Entry, key: string)
    requires at + Width(e) < |s| && s[at..at + Width(e)] == Member(e)
    requires s[at + Width(e)] == ',' || s[at + Width(e)] == '}'
    requires KeyOk(e.key) && '"' !in e.value && KeyOk(key) && key != e.key
    ensures NoMatchIn(s, key, at, at + Width(e) + 1)
  {
    forall i | at <= i < at + Width(e) + 1 ensures MatchAt(s, i, KeyColonQuote(key)).None? {
      MemberNoMatch(s, at, e, key, i);
    }
  }

  /** The base case: the key looked for is the first member's. */
  lemma FirstMemberFound(s: string, at: nat, es: seq<Entry>) returns (p: nat, q: nat)
    requires LaidOut(s, at, es) && WellFormed(es)
    requires forall m :: 0 <= m < |es| && m != 0 ==> es[m].key != es[0].key
    ensures FoundAt(s, es[0].key, es[0].value, at, p, q)
  {
    p := at + 2;
    q := at + |es[0].key| + 7;
    MemberPattern(s, at, es[0]);
    MemberValue(s, at, es[0]);
    NothingAfterFirstValue(s, at, es);
  }

  /** Within a member, its own pattern is not found at the two leading spaces and is found at the key. */
  lemma MemberPattern(s: string, at: nat, e: Entry)
    requires at + Width(e) < |s| && s[at..at + Width(e)] == Member(e)
    requires KeyOk(e.key)
    ensures NoMatchIn(s, e.key, at, at + 2)
    ensures MatchAt(s, at + 2, KeyColonQuote(e.key)) == Some(at + |e.key| + 7)
  {
    MemberLead(s, at, e);
    MemberKey(s, at, e);
  }

  /** The two leading spaces of a member start no pattern. */
  lemma MemberLead(s: string, at: nat, e: Entry)
    requires at + Width(e) < |s| && s[at..at + Width(e)] == Member(e)
    ensures NoMatchIn(s, e.key, at, at + 2)
  {
    MemberChars(e);
    MemberCharAt(s, at, e, 0);
    MemberCharAt(s, at, e, 1);
    NoMatchOffQuote(s, at, e.key);
    NoMatchOffQuote(s, at + 1, e.key);
  }

  /** A member's own pattern is found at its quoted key and ends after the value's opening quote. */
  lemma MemberKey(s: string, at: nat, e: Entry)
    requires at + Width(e) < |s| && s[at..at + Width(e)] == Member(e)
    requires KeyOk(e.key)
    ensures MatchAt(s, at + 2, KeyColonQuote(e.key)) == Some(at + |e.key| + 7)
  {
    var k := |e.key|;
    MemberChars(e);
    MemberCharAt(s, at, e, k + 4);
    MemberCharAt(s, at, e, k + 5);
    MemberCharAt(s, at, e, k + 6);
    MemberQuotedAt(s, at, e, 2, e.key);
    MatchKey(s, at + 2, e.key);
  }

  /** The value of a member sits right after its opening quote and is closed by a quote. */
  lemma MemberValue(s: string, at: nat, e: Entry)
    requires at + Width(e) < |s| && s[at..at + Width(e)] == Member(e)
    ensures var q := at + |e.key| + 7;
      q + |e.value| + 1 < |s| && s[q..q + |e.value|] == e.value && s[q + |e.value|] == '"'
  {
    MemberLayout(s, at, e);
  }

  /** After the first member's value, its key's pattern never matches again. */
  lemma NothingAfterFirstValue(s: string, at: nat, es: seq<Entry>)
    requires LaidOut(s, at, es) && WellFormed(es)
    requires forall m :: 0 <= m < |es| && m != 0 ==> es[m].key != es[0].key
    ensures NoMatchIn(s, es[0].key, at + |es[0].key| + 7, |s| + 1)
  {
    var e := es[0];
    var key := e.key;
    var n := Width(e);
    MemberLayout(s, at, e);
    forall i | at + |key| + 7 <= i < at + n + 1 ensures MatchAt(s, i, KeyColonQuote(key)).None? {
      MemberNoMatch(s, at, e, key, i);
    }
    if |es| > 1 {
      BodyNoMatch(s, at + n + 1, es[1..], key);
    }
  }

  /** Found from the start of the text, the match is the first and only one. */
  lemma FoundFirst(s: string, key: string, v: string, p: nat, q: nat)
    requires FoundAt(s, key, v, 0, p, q)
    ensures NextMatch(s, KeyColonQuote(key), 0) == Some((p, q))
    ensures NextMatch(s, KeyColonQuote(key), q).None?
  {
    var d := KeyColonQuote(key);
    NextMatchSkip(s, d, 0, p);
    MatchHere(s, d, p, q);
    NextMatchSkip(s, d, q, |s|);
  }

  /** A match at the starting position is the next match. */
  lemma MatchHere(s: string, d: Delim, i: nat, e: nat)
    requires i < |s| && MatchAt(s, i, d) == Some(e)
    ensures NextMatch(s, d, i) == Some((i, e))
  {
  }

  /** The last piece of a split is non-empty when the text does not end with the separator. */
  lemma {:induction false} PiecesLastNonEmpty(s: string, c: char, from: nat)
    requires from < |s| && s[|s| - 1] != c
    ensures Pieces(s, Char(c), from)[|Pieces(s, Char(c), from)| - 1] != ""
    decreases |s| - from
  {
    match NextMatch(s, Char(c), from)
    case None =>
    case Some(m) =>
      assert s[m.0] == c;
      PiecesLastNonEmpty(s, c, m.1);
  }

  /** No piece of a split on a character contains that character. */
  lemma SplitPiecesLackSeparator(s: string, c: char)
    ensures forall k :: 0 <= k < |Split(s, Char(c))| ==> c !in Split(s, Char(c))[k]
  {
    if NextMatch(s, Char(c), 0).None? {
      forall i | 0 <= i < |s| ensures s[i] != c {
        assert MatchAt(s, i, Char(c)).None?;
      }
    } else {
      PiecesRejoin(s, c, 0);
    }
  }

  /** In `v"rest`, with no quote in `v` and `rest` not ending in one, the first quote-split piece is `v`. */
  lemma FirstQuotedPiece(v: string, rest: string)
    requires '"' !in v && rest != "" && rest[|rest| - 1] != '"'
    ensures |Split(v + (['"'] + rest), Char('"'))| >= 1 && Split(v + (['"'] + rest), Char('"'))[0] == v
  {
    var t := v + (['"'] + rest);
    FirstSeparator(v, rest, '"');
    PiecesLastNonEmpty(t, '"', |v| + 1);
    var ps := Pieces(t, Char('"'), 0);
    assert ps == [t[0..|v|]] + Pieces(t, Char('"'), |v| + 1);
    assert t[0..|v|] == v;
  }

  /** A text with exactly one match splits into the text before it and the text after it. */
  lemma TwoPieces(s: string, d: Delim, p: nat, q: nat)
    requires q < |s| && NextMatch(s, d, 0) == Some((p, q)) && NextMatch(s, d, q).None?
    ensures Split(s, d) == [s[..p], s[q..]]
  {
    PiecesOfTwo(s, d, p, q);
    KeepsNonEmptyLast([s[..p], s[q..]]);
  }

  /** The pieces of a text with exactly one match. */
  lemma PiecesOfTwo(s: string, d: Delim, p: nat, q: nat)
    requires q <= |s| && NextMatch(s, d, 0) == Some((p, q)) && NextMatch(s, d, q).None?
    ensures Pieces(s, d, 0) == [s[..p], s[q..]]
  {
    assert Pieces(s, d, q) == [s[q..]];
    assert Pieces(s, d, 0) == [s[0..p]] + [s[q..]];
  }

  /** A list whose last piece is not empty loses nothing to the trailing-empty removal. */
  lemma KeepsNonEmptyLast(xs: seq<string>)
    requires |xs| >= 1 && xs[|xs| - 1] != ""
    ensures DropTrailingEmpty(xs) == xs
  {
  }

  /** When the text after the key's pattern is `v"rest`, the value read is `v`. */
  lemma ExtractOfSplit(content: string, key: string, a: string, v: string, rest: string)
    requires Split(content, KeyColonQuote(key)) == [a, v + (['"'] + rest)]
    requires '"' !in v && rest != "" && rest[|rest| - 1] != '"'
    ensures Extract(content, key) == Some(v)
  {
    FirstQuotedPiece(v, rest);
  }

  /** A key found from the start of a text not ending in a quote yields its value. */
  lemma ExtractFound(s: string, key: string, v: string, p: nat, q: nat)
    requires FoundAt(s, key, v, 0, p, q) && '"' !in v && s[|s| - 1] != '"'
    ensures Extract(s, key) == Some(v)
  {
    FoundFirst(s, key, v, p, q);
    TwoPieces(s, KeyColonQuote(key), p, q);
    ValueThenRest(s, q, v);
    ExtractOfSplit(s, key, s[..p], v, s[q + |v| + 1..]);
  }

  /** The text from `q` is `v`, a quote and the rest, which does not end in a quote. */
  lemma ValueThenRest(s: string, q: nat, v: string)
    requires q + |v| + 1 < |s| && s[q..q + |v|] == v && s[q + |v|] == '"' && s[|s| - 1] != '"'
    ensures s[q..] == v + (['"'] + s[q + |v| + 1..])
    ensures s[q + |v| + 1..] != "" && s[q + |v| + 1..][|s[q + |v| + 1..]| - 1] != '"'
  {
  }

  /** Member `j` of an object laid out as `{` + Body is found and read back. */
  lemma EntryFound(content: string, es: seq<Entry>, j: nat)
    requires j < |es| && content == "{" + Body(es) && WellFormed(es)
    requires forall m :: 0 <= m < |es| && m != j ==> es[m].key != es[j].key
    ensures Contains(content, Quoted(es[j].key)) && Extract(content, es[j].key) == Some(es[j].value)
  {
    var key := es[j].key;
    BodyLaidOut("{", es);
    LaidOutEndsInBrace(content, 1, es);
    var p, q := BodyFound(content, 1, es, j, key, es[j].value);
    NoMatchOffQuote(content, 0, key);
    FoundEarlier(content, key, es[j].value, 0, 1, p, q);
    ExtractFound(content, key, es[j].value, p, q);
    KeyFound(content, key, p);
  }

  /** Where the pattern for `key` matches, the quoted key occurs. */
  lemma KeyFound(s: string, key: string, p: nat)
    requires p <= |s| && MatchAt(s, p, KeyColonQuote(key)).Some?
    ensures Contains(s, Quoted(key))
  {
    assert OccursAt(s, Quoted(key), p);
  }

  lemma {:induction false} ReadLinesAppend(a: string, b: string)
    ensures ReadLines(a + b) == ReadLines(a) + ReadLines(b)
    decreases |a|
  {
    if a != [] {
      ReadLinesFirst(a, b);
      ReadLinesAppend(a[1..], b);
      var h := ReadLines([a[0]]);
      assert h + (ReadLines(a[1..]) + ReadLines(b)) == (h + ReadLines(a[1..])) + ReadLines(b);
    } else {
      assert a + b == b;
    }
  }

  /** The first character is read on its own, in front of the rest. */
  lemma ReadLinesFirst(a: string, b: string)
    requires a != []
    ensures ReadLines(a + b) == ReadLines([a[0]]) + ReadLines(a[1..] + b)
    ensures ReadLines(a) == ReadLines([a[0]]) + ReadLines(a[1..])
  {
    assert (a + b)[0] == a[0];
    assert (a + b)[1..] == a[1..] + b;
    assert [a[0]][1..] == [];
  }

  lemma ReadLinesKeeps(a: string)
    requires forall i :: 0 <= i < |a| ==> !IsLineBreak(a[i])
    ensures ReadLines(a) == a
    decreases |a|
  {
  }

  lemma MemberReadsBack(e: Entry)
    requires Plain(e.key) && Plain(e.value)
    ensures ReadLines(Member(e)) == Member(e)
  {
    var M := Member(e);
    var k := |e.key|;
    forall i | 0 <= i < |M| ensures !IsLineBreak(M[i]) {
      if 3 <= i < k + 3 {
        assert M[i] == e.key[i - 3];
      } else if k + 7 <= i < k + 7 + |e.value| {
        assert M[i] == e.value[i - k - 7];
      }
    }
    ReadLinesKeeps(M);
  }

  lemma {:induction false} ExportBodyReadsBack(es: seq<Entry>)
    requires |es| >= 1
    requires forall m :: 0 <= m < |es| ==> Plain(es[m].key) && Plain(es[m].value)
    ensures ReadLines(ExportBody(es)) == Body(es)
    decreases |es|
  {
    MemberReadsBack(es[0]);
    if |es| == 1 {
      ReadLinesAppend(Member(es[0]), "\n}");
      assert ReadLines("\n}") == "}";
    } else {
      ExportBodyReadsBack(es[1..]);
      ReadLinesAppend(Member(es[0]) + ",\n", ExportBody(es[1..]));
      ReadLinesAppend(Member(es[0]), ",\n");
      assert ReadLines(",\n") == ",";
    }
  }

  /** Read back line by line, an exported object is `{` followed by the members and `}`. */
  lemma ObjectReadsBack(es: seq<Entry>)
    requires |es| >= 1
    requires forall m :: 0 <= m < |es| ==> Plain(es[m].key) && Plain(es[m].value)
    ensures ReadLines("{\n" + ExportBody(es)) == "{" + Body(es)
  {
    ExportBodyReadsBack(es);
    ReadLinesAppend("{\n", ExportBody(es));
    assert ReadLines("{\n") == "{";
  }

  lemma KeysPlain()
    ensures forall g :: Plain(Key(g))
  {
    forall g ensures Plain(Key(g)) {
      match g
      case LoginType => assert Plain("loginType");
      case Timeout => assert Plain("timeout");
      case SnmpVersion => assert Plain("snmpVer");
      case Community => assert Plain("snmpComm");
    }
  }

}

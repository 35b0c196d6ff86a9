/** The decision logic of the Dalec document helpers of the editor
    extension: recognising a Dalec spec by its first line, the notice shown
    when the active editor is checked, projecting `name` and `version` out
    of a parsed spec, and choosing the document a build runs on.

    The editor host (open documents, the active editor, message popups) and
    the YAML parser are not modelled: what they supply is an input here, and
    the messages the helpers would show are part of the result. */
module DocumentHelpers {
  import opened Wrappers
  import opened Strings

  /** An open text document: its language id and its full text. */
  datatype Doc = Doc(languageId: string, text: string)

  /** The three popup levels of the editor. */
  datatype Severity = Error | Warning | Information

  /** A message shown to the user. */
  datatype Notice = Notice(severity: Severity, text: string)

  // ---------------------------------------------------------------------
  // Header classifier

  /** The two substrings that, on a comment line, also mark a Dalec spec. */
  const HyphenMarker: string := "-dalec"
  const PathMarker: string := "/dalec/"

  /** The Dalec frontend directive that a spec's first line may begin with,
      `# syntax=ghcr.io/project-dalec/dalec/frontend:latest`, spelled out
      around the two markers it contains. */
  const FrontendMarker: string := "# syntax=ghcr.io/project" + HyphenMarker + PathMarker + "frontend:latest"

  /** The header check: the line, trimmed, begins with the frontend
      directive, or is a comment that includes `-dalec`, or is a comment
      that includes `/dalec/`. Comparisons are case-sensitive. */
  predicate IsDalecHeader(line: string) {
    var t := Trim(line);
    || StartsWith(t, FrontendMarker)
    || (StartsWith(t, "#") && Includes(t, HyphenMarker))
    || (StartsWith(t, "#") && Includes(t, PathMarker))
  }

  /** The frontend directive is itself a comment that includes both
      substring markers, so a line that begins with it passes the other two
      tests as well. */
  lemma FrontendMarkerIncludesMarkers(t: string)
    requires StartsWith(t, FrontendMarker)
    ensures StartsWith(t, "#")
    ensures Includes(t, HyphenMarker) && Includes(t, PathMarker)
  {
    assert t[..|FrontendMarker|] == FrontendMarker;
    assert t[0] == FrontendMarker[0] == '#';
    assert t[24..30] == FrontendMarker[24..30] == HyphenMarker;
    assert OccursAt(t, HyphenMarker, 24);
    assert t[30..37] == FrontendMarker[30..37] == PathMarker;
    assert OccursAt(t, PathMarker, 30);
  }

  /** What the header check accepts, in one statement: exactly the lines
      whose trimmed form is a comment (`#` first) including `-dalec` or
      `/dalec/`. In particular a line whose trimmed form does not begin with
      `#` is never a Dalec header. */
  lemma HeaderCharacterization(line: string)
    ensures IsDalecHeader(line) <==>
              var t := Trim(line);
              StartsWith(t, "#") && (Includes(t, HyphenMarker) || Includes(t, PathMarker))
  {
    var t := Trim(line);
    if StartsWith(t, FrontendMarker) {
      FrontendMarkerIncludesMarkers(t);
    }
  }

  /** Whitespace around the first line does not change the verdict, because
      the line is trimmed before the markers are looked for. */
  lemma HeaderIgnoresPadding(pre: string, line: string, suf: string)
    requires AllWhitespace(pre) && AllWhitespace(suf)
    ensures IsDalecHeader(pre + line + suf) == IsDalecHeader(line)
  {
    TrimIgnoresPadding(pre, line, suf);
  }

  /** Any line that begins with the frontend directive is a Dalec header,
      whatever follows it and whatever whitespace surrounds it. */
  lemma FrontendLineAccepted(pre: string, rest: string, suf: string)
    requires AllWhitespace(pre) && AllWhitespace(suf)
    ensures IsDalecHeader(pre + FrontendMarker + rest + suf)
  {
    FrontendLineTrim(pre, rest, suf);
    DirectiveLineAccepted(rest);
  }

  /** The padding around a directive line is gone once it is trimmed. */
  lemma FrontendLineTrim(pre: string, rest: string, suf: string)
    requires AllWhitespace(pre) && AllWhitespace(suf)
    ensures Trim(pre + FrontendMarker + rest + suf) == Trim(FrontendMarker + rest)
  {
    var line := FrontendMarker + rest;
    assert pre + FrontendMarker + rest + suf == pre + line + suf;
    TrimIgnoresPadding(pre, line, suf);
  }

  /** The directive followed by anything, without padding. */
  lemma DirectiveLineAccepted(rest: string)
    ensures IsDalecHeader(FrontendMarker + rest)
  {
    assert FrontendMarker[0] == '#' && FrontendMarker[|FrontendMarker| - 1] == 't';
    TrimKeepsPrefix(FrontendMarker, rest);
  }

  /** Any comment line with `-dalec` or `/dalec/` anywhere in it is a Dalec
      header: the test is on substrings, not on whole words, so `#xx-dalecyy`
      is accepted. */
  lemma SubstringMarkerAccepted(pre: string, a: string, m: string, b: string, suf: string)
    requires m == HyphenMarker || m == PathMarker
    requires AllWhitespace(pre) && AllWhitespace(suf)
    ensures IsDalecHeader(pre + "#" + a + m + b + suf)
  {
    var line := "#" + a + m + b;
    assert pre + "#" + a + m + b + suf == pre + line + suf;
    HeaderIgnoresPadding(pre, line, suf);
    MarkedCommentAccepted(a, m, b);
  }

  /** `#`, anything, a substring marker, anything: without padding. */
  lemma MarkedCommentAccepted(a: string, m: string, b: string)
    requires m == HyphenMarker || m == PathMarker
    ensures IsDalecHeader("#" + a + m + b)
  {
    assert !IsWhitespace(m[|m| - 1]) by {
      if m == HyphenMarker { assert m[|m| - 1] == 'c'; } else { assert m[|m| - 1] == '/'; }
    }
    CommentLineIncludes(a, m, b);
  }

  /** A line made of `#`, anything, `m` (whose last character is not
      whitespace) and anything is still, once trimmed, a comment that
      includes `m`. */
  lemma CommentLineIncludes(a: string, m: string, b: string)
    requires m != [] && !IsWhitespace(m[|m| - 1])
    ensures StartsWith(Trim("#" + a + m + b), "#") && Includes(Trim("#" + a + m + b), m)
  {
    var x := "#" + a + m;
    assert x[|x| - 1] == m[|m| - 1];
    assert "#" + a + m + b == x + b;
    TrimKeepsPrefix(x, b);
    CommentWithMarker(Trim(x + b), a, m);
  }

  /** A string that begins with `#`, then anything, then `m`, is a comment
      that includes `m`. */
  lemma CommentWithMarker(t: string, a: string, m: string)
    requires StartsWith(t, "#" + a + m)
    ensures StartsWith(t, "#") && Includes(t, m)
  {
    var x := "#" + a + m;
    assert t[..|x|] == x;
    assert t[0] == '#';
    assert t[1 + |a|..1 + |a| + |m|] == x[1 + |a|..] == m;
    assert OccursAt(t, m, 1 + |a|);
  }

  /** A line whose first non-whitespace character is not `#` is never a
      Dalec header, whatever markers it includes further on. */
  lemma UncommentedLineRejected(pre: string, c: char, rest: string)
    requires AllWhitespace(pre) && !IsWhitespace(c) && c != '#'
    ensures !IsDalecHeader(pre + [c] + rest)
  {
    assert pre + [c] + rest == pre + ([c] + rest) + [];
    HeaderIgnoresPadding(pre, [c] + rest, []);
    TrimKeepsPrefix([c], rest);
    HeaderCharacterization([c] + rest);
  }

  // ---------------------------------------------------------------------
  // Validation of the active editor

  const NotYamlText: string := "Dalec can only run on YAML files."
  const MissingHeaderText: string := "This YAML file is not a Dalec file (missing Dalec syntax header)."

  /** The check run on the active editor's document, `active` (None when no
      editor is active), giving the one notice it shows, if any. */
  function ValidateActiveDocument(active: Option<Doc>): (n: Option<Notice>)
    ensures active.None? ==> n.None?
    ensures active.Some? && active.value.languageId != "yaml" ==>
              n == Some(Notice(Warning, NotYamlText))
    ensures active.Some? && active.value.languageId == "yaml" ==>
              (n.None? <==> IsDalecHeader(FirstLine(active.value.text)))
    ensures n.Some? && active.value.languageId == "yaml" ==>
              n.value == Notice(Information, MissingHeaderText)
  {
    match active
    case None => None
    case Some(doc) =>
      if doc.languageId != "yaml" then
        Some(Notice(Warning, NotYamlText))
      else if !IsDalecHeader(FirstLine(doc.text)) then
        Some(Notice(Information, MissingHeaderText))
      else
        None
  }

  /** The check is silent exactly when there is no active editor or the
      active document is YAML with a Dalec header. */
  lemma ValidationSilentIff(active: Option<Doc>)
    ensures ValidateActiveDocument(active).None? <==>
              active.None? ||
              (active.value.languageId == "yaml" && IsDalecHeader(FirstLine(active.value.text)))
  {
  }

  /** A document that is not YAML gets the warning whatever its text: the
      header is not looked at. */
  lemma NonYamlHeaderNotRead(lang: string, text1: string, text2: string)
    requires lang != "yaml"
    ensures ValidateActiveDocument(Some(Doc(lang, text1))) == ValidateActiveDocument(Some(Doc(lang, text2)))
    ensures ValidateActiveDocument(Some(Doc(lang, text1))).value.severity == Warning
  {
  }

  /** Only the first line of a document matters: two documents that share
      their language and their line 0, each ending there or going on after a
      line break, get the same outcome. */
  lemma ValidationReadsFirstLineOnly(lang: string, line: string, tail1: string, tail2: string)
    requires forall k :: 0 <= k < |line| ==> !IsLineBreak(line[k])
    requires tail1 == [] || IsLineBreak(tail1[0])
    requires tail2 == [] || IsLineBreak(tail2[0])
    ensures ValidateActiveDocument(Some(Doc(lang, line + tail1)))
         == ValidateActiveDocument(Some(Doc(lang, line + tail2)))
  {
    FirstLineOfLines(line, tail1);
    FirstLineOfLines(line, tail2);
  }

  /** A blank first line (empty, or whitespace only) is not a Dalec
      header. */
  lemma BlankLineRejected(line: string)
    requires AllWhitespace(line)
    ensures !IsDalecHeader(line)
  {
  }

  /** A YAML document whose first line is blank (an empty document, or one
      that begins with a line break) is not a Dalec spec: it gets the
      information notice, and nothing fails. */
  lemma BlankFirstLineNotDalec(doc: Doc)
    requires doc.languageId == "yaml" && AllWhitespace(FirstLine(doc.text))
    ensures ValidateActiveDocument(Some(doc)) == Some(Notice(Information, MissingHeaderText))
  {
    BlankLineRejected(FirstLine(doc.text));
  }

  // ---------------------------------------------------------------------
  // Metadata projection

  /** A parsed YAML value, as the parser hands it over: a tagged union of
      the JavaScript values it produces. */
  datatype YamlValue =
    | Str(str: string)
    | Num(num: real)
    | Bool(flag: bool)
    | Null
    | Seq(items: seq<YamlValue>)
    | Mapping(fields: map<string, YamlValue>)

  /** Why the parser rejected the text. */
  datatype ParseError = ParseError(reason: string)

  /** The spec's `name` and `version`, each present only when declared as a
      string. */
  datatype Metadata = Metadata(name: Option<string>, version: Option<string>)

  const NoMetadata: Metadata := Metadata(None, None)

  /** The parse succeeded and its top level maps `key` to the string `s`. */
  ghost predicate Declares(parsed: Result<YamlValue, ParseError>, key: string, s: string) {
    && parsed.Success?
    && parsed.value.Mapping?
    && key in parsed.value.fields
    && parsed.value.fields[key] == Str(s)
  }

  /** `typeof parsed?.[key] === 'string' ? parsed[key] : undefined`. */
  function StringProperty(v: YamlValue, key: string): (r: Option<string>)
    ensures r.Some? ==> Declares(Success(v), key, r.value)
    ensures r.None? ==> forall s :: !Declares(Success(v), key, s)
  {
    if v.Mapping? && key in v.fields && v.fields[key].Str? then Some(v.fields[key].str)
    else None
  }

  /** The metadata of a spec, given what the parser made of its text:
      a parse error gives no metadata and is not passed on. */
  function ExtractMetadata(parsed: Result<YamlValue, ParseError>): (m: Metadata)
    ensures m.name.Some? ==> Declares(parsed, "name", m.name.value)
    ensures m.name.None? ==> forall s :: !Declares(parsed, "name", s)
    ensures m.version.Some? ==> Declares(parsed, "version", m.version.value)
    ensures m.version.None? ==> forall s :: !Declares(parsed, "version", s)
  {
    match parsed
    case Failure(_) => NoMetadata
    case Success(v) => Metadata(StringProperty(v, "name"), StringProperty(v, "version"))
  }

  /** A parse failure, or a parse that is not a mapping (a scalar, a list,
      null), yields neither field. */
  lemma NoMappingNoMetadata(parsed: Result<YamlValue, ParseError>)
    requires parsed.Failure? || !parsed.value.Mapping?
    ensures ExtractMetadata(parsed) == NoMetadata
  {
  }

  /** A field declared with a value that is not a string (a number, a
      boolean, null, a list, a mapping) is dropped, not converted. */
  lemma NonStringFieldDropped(fields: map<string, YamlValue>, key: string, v: YamlValue)
    requires key == "name" || key == "version"
    requires !v.Str?
    ensures key == "name" ==> ExtractMetadata(Success(Mapping(fields[key := v]))).name == None
    ensures key == "version" ==> ExtractMetadata(Success(Mapping(fields[key := v]))).version == None
  {
  }

  /** The two fields are decided independently: whatever `version` is set
      to leaves `name` as it was, and the other way round; every other key
      is ignored. */
  lemma FieldsIndependent(fields: map<string, YamlValue>, key: string, v: YamlValue)
    ensures key != "name" ==>
              ExtractMetadata(Success(Mapping(fields[key := v]))).name == ExtractMetadata(Success(Mapping(fields))).name
    ensures key != "version" ==>
              ExtractMetadata(Success(Mapping(fields[key := v]))).version == ExtractMetadata(Success(Mapping(fields))).version
  {
  }

  /** The mapping that declares exactly the fields `m` has. */
  function MetadataToYaml(m: Metadata): (v: YamlValue)
    ensures v.Mapping? && v.fields.Keys <= {"name", "version"}
  {
    var withName := if m.name.Some? then map["name" := Str(m.name.value)] else map[];
    Mapping(if m.version.Some? then withName["version" := Str(m.version.value)] else withName)
  }

  /** Writing metadata out as a mapping and projecting it back gives the
      same metadata: the projection keeps string fields exactly. */
  lemma MetadataRoundTrip(m: Metadata)
    ensures ExtractMetadata(Success(MetadataToYaml(m))) == m
  {
  }

  /** The parse of `name: foo` and `version: 1.0`, where the version is a
      number: the name is kept and the version is dropped. */
  lemma NumericVersionDropped()
    ensures ExtractMetadata(Success(Mapping(map["name" := Str("foo"), "version" := Num(1.0)])))
         == Metadata(Some("foo"), None)
  {
  }

  // ---------------------------------------------------------------------
  // Document resolution

  const NotRecognizedText: string := "Selected file is not recognized as a Dalec spec."
  const NoActiveSpecText: string := "Open a Dalec spec (first line must start with #syntax=...) to continue."

  /** The document a build runs on, if any, and the error messages shown. */
  datatype Resolution = Resolution(doc: Option<Doc>, messages: seq<Notice>)

  /** Chooses the document for a build. `selected` is the document the
      explicit URI opened to (None when no URI was given), `active` the
      active editor's document (None when there is none) and
      `isDalecDocument` the document tracker's classifier. */
  function ResolveDalecDocument(selected: Option<Doc>, active: Option<Doc>, isDalecDocument: Doc -> bool): (r: Resolution)
    // a resolved document is accepted by the classifier and nothing is shown
    ensures r.doc.Some? ==> isDalecDocument(r.doc.value) && r.messages == []
    // an explicit URI decides alone
    ensures selected.Some? ==>
              (r.doc.Some? <==> isDalecDocument(selected.value)) &&
              (r.doc.Some? ==> r.doc == selected) &&
              (r.doc.None? ==> r.messages == [Notice(Error, NotRecognizedText)])
    // otherwise the active document, if it is accepted
    ensures selected.None? ==>
              (r.doc.Some? <==> active.Some? && isDalecDocument(active.value)) &&
              (r.doc.Some? ==> r.doc == active) &&
              (r.doc.None? ==> r.messages == [Notice(Error, NoActiveSpecText)])
  {
    match selected
    case Some(doc) =>
      if isDalecDocument(doc) then Resolution(Some(doc), [])
      else Resolution(None, [Notice(Error, NotRecognizedText)])
    case None =>
      if active.Some? && isDalecDocument(active.value) then Resolution(active, [])
      else Resolution(None, [Notice(Error, NoActiveSpecText)])
  }

  /** A call either resolves a document and shows nothing, or resolves none
      and shows exactly one error. */
  lemma ResolutionOneErrorOnFailure(selected: Option<Doc>, active: Option<Doc>, isDalecDocument: Doc -> bool)
    ensures var r := ResolveDalecDocument(selected, active, isDalecDocument);
            (r.doc.Some? && r.messages == []) ||
            (r.doc.None? && |r.messages| == 1 && r.messages[0].severity == Error)
  {
  }

  /** With an explicit URI the active editor is never consulted: the result
      is the same whatever the active document is, even an accepted one. */
  lemma SelectedTakesPrecedence(doc: Doc, active1: Option<Doc>, active2: Option<Doc>, isDalecDocument: Doc -> bool)
    ensures ResolveDalecDocument(Some(doc), active1, isDalecDocument)
         == ResolveDalecDocument(Some(doc), active2, isDalecDocument)
  {
  }
}

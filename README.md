# Dalec document helpers: a verified model

This project models the decision logic of the document helpers in the Dalec
editor extension (`src/commands/runBuildCurrentSpecCommand/helpers/documentHelpers.ts`).
It covers four pieces:

- **The header check** (`isValidDalecDoc`, the `isDalec` expression). Line 0 of a
  document, trimmed, marks a Dalec spec when one of these holds:
  - it begins with the frontend directive `# syntax=ghcr.io/project-dalec/dalec/frontend:latest`;
  - it begins with `#` and includes `-dalec`;
  - it begins with `#` and includes `/dalec/`.
- **Validation of the active editor** (`isValidDalecDoc`). The outcome is one of:
  - no active editor: no notice;
  - the document is not YAML: a warning;
  - a YAML document without the header: an information notice;
  - otherwise: no notice.
- **Metadata projection** (`extractDalecSpecMetadata`). The spec's top-level `name`
  and `version` are kept when they are strings and dropped otherwise. A parse
  failure gives empty metadata.
- **Document resolution** (`resolveDalecDocument`). A document given by an explicit
  URI takes precedence over the active editor's document. If nothing is
  resolved, the function returns `undefined` (`None` here) and exactly one
  error message is shown; no failure reason is returned.

The code is pure decision logic, so every piece is a function. The editor and
the YAML parser are inputs:

- the active document is an `Option<Doc>`;
- the document opened from a URI is an `Option<Doc>`;
- the document tracker's classifier is a function parameter;
- the parser's outcome is a `Result<YamlValue, ParseError>`.

Messages the helpers would show are returned as `Notice` values, each with a
severity.

Files:

- `wrappers.dfy`: `Option` and `Result`.
- `strings.dfy`: ECMAScript `startsWith`, `includes` and `trim`, and line 0 of a
  document. `trim` is specified by the property that characterises it: it returns a
  slice with whitespace only around it and no whitespace at its ends. This
  trimmed form is proved to be unique.
- `document_helpers.dfy`: the four pieces above and the lemmas about them.

The frontend directive itself contains both `-dalec` and `/dalec/`. So the first
test of the header check is subsumed by the second (`FrontendMarkerIncludesMarkers`).
`HeaderCharacterization` proves the check equivalent to "the trimmed line is a
comment that includes `-dalec` or `/dalec/`".

## Model

| member | source | states |
|---|---|---|
| `Strings.StartsWith` | src/commands/runBuildCurrentSpecCommand/helpers/documentHelpers.ts:67-69 | `startsWith` holds exactly when `s` is at least as long as `p` and its first characters are those of `p` |
| `Strings.Includes` | src/commands/runBuildCurrentSpecCommand/helpers/documentHelpers.ts:68-69 | `includes` holds exactly when `sub` occurs in `s` at some index |
| `Strings.Trim` | src/commands/runBuildCurrentSpecCommand/helpers/documentHelpers.ts:64 | `trim` returns a slice of the line with only whitespace before and after it and no whitespace at either of its ends |
| `Strings.TrimmedUnique` | src/commands/runBuildCurrentSpecCommand/helpers/documentHelpers.ts:64 | there is only one such slice, so the contract of `Trim` fixes its result |
| `Strings.TrimIgnoresPadding` | src/commands/runBuildCurrentSpecCommand/helpers/documentHelpers.ts:64 | adding whitespace before and after a line does not change its trimmed form |
| `Strings.TrimIdempotent` | src/commands/runBuildCurrentSpecCommand/helpers/documentHelpers.ts:64 | trimming twice gives the same result as trimming once |
| `Strings.TrimKeepsPrefix` | src/commands/runBuildCurrentSpecCommand/helpers/documentHelpers.ts:64 | a prefix that begins and ends with non-whitespace survives trimming, whatever follows it |
| `Strings.WhitespaceIsBmp` | src/commands/runBuildCurrentSpecCommand/helpers/documentHelpers.ts:64 | every character `trim` removes is a single UTF-16 code unit outside the surrogate range, so trimming code points and trimming code units agree |
| `Strings.FirstLine` | src/commands/runBuildCurrentSpecCommand/helpers/documentHelpers.ts:64 | line 0 is a prefix of the text, contains no line break, and ends at the end of the text or at a line break |
| `Strings.FirstLineOfLines` | src/commands/runBuildCurrentSpecCommand/helpers/documentHelpers.ts:64 | line 0 of `line` followed by nothing, or by a line break and anything, is `line`: the text after the first break is never read |
| `DocumentHelpers.IsDalecHeader` | src/commands/runBuildCurrentSpecCommand/helpers/documentHelpers.ts:64-69 | the `isDalec` test: the trimmed line begins with the frontend directive, or begins with `#` and includes `-dalec`, or begins with `#` and includes `/dalec/`, all case-sensitive |
| `DocumentHelpers.FrontendMarkerIncludesMarkers` | src/commands/runBuildCurrentSpecCommand/helpers/documentHelpers.ts:66-69 | a line beginning with the frontend directive begins with `#` and includes both `-dalec` and `/dalec/` |
| `DocumentHelpers.HeaderCharacterization` | src/commands/runBuildCurrentSpecCommand/helpers/documentHelpers.ts:64-69 | a line is a Dalec header if and only if its trimmed form begins with `#` and includes `-dalec` or `/dalec/`; a trimmed line not beginning with `#` is never one |
| `DocumentHelpers.HeaderIgnoresPadding` | src/commands/runBuildCurrentSpecCommand/helpers/documentHelpers.ts:64-69 | whitespace around the first line never changes the verdict |
| `DocumentHelpers.FrontendLineAccepted` | src/commands/runBuildCurrentSpecCommand/helpers/documentHelpers.ts:64-67 | a line equal to or beginning with the frontend directive is accepted, also when padded with whitespace |
| `DocumentHelpers.DirectiveLineAccepted` | src/commands/runBuildCurrentSpecCommand/helpers/documentHelpers.ts:67 | the frontend directive followed by anything is accepted |
| `DocumentHelpers.SubstringMarkerAccepted` | src/commands/runBuildCurrentSpecCommand/helpers/documentHelpers.ts:68-69 | `#`, anything, `-dalec` or `/dalec/`, then anything is accepted, padded or not: the match is on substrings (`#xx-dalecyy` passes) |
| `DocumentHelpers.UncommentedLineRejected` | src/commands/runBuildCurrentSpecCommand/helpers/documentHelpers.ts:64-69 | a line whose first non-whitespace character is not `#` is rejected, whatever it includes |
| `DocumentHelpers.BlankLineRejected` | src/commands/runBuildCurrentSpecCommand/helpers/documentHelpers.ts:64-69 | an empty or whitespace-only line is rejected |
| `DocumentHelpers.ValidateActiveDocument` | src/commands/runBuildCurrentSpecCommand/helpers/documentHelpers.ts:50-77 | no editor gives no notice; a non-`yaml` language gives exactly the warning; a `yaml` document gives no notice if and only if its first line is a Dalec header, and the information notice otherwise |
| `DocumentHelpers.ValidationSilentIff` | src/commands/runBuildCurrentSpecCommand/helpers/documentHelpers.ts:50-77 | validation is silent if and only if there is no editor or the document is YAML with a Dalec header |
| `DocumentHelpers.NonYamlHeaderNotRead` | src/commands/runBuildCurrentSpecCommand/helpers/documentHelpers.ts:58-62 | for a non-`yaml` document the outcome is the warning and does not depend on the text: the header is not checked |
| `DocumentHelpers.ValidationReadsFirstLineOnly` | src/commands/runBuildCurrentSpecCommand/helpers/documentHelpers.ts:56-76 | two documents with the same language and the same line 0, each either ending there or continuing after a line break, get the same outcome |
| `DocumentHelpers.BlankFirstLineNotDalec` | src/commands/runBuildCurrentSpecCommand/helpers/documentHelpers.ts:64-76 | a YAML document with a blank first line, an empty document included, gets the information notice |
| `DocumentHelpers.StringProperty` | src/commands/runBuildCurrentSpecCommand/helpers/documentHelpers.ts:19-20 | `typeof parsed?.key === 'string'`: a value is returned exactly when the parse is a mapping that binds the key to a string, and it is that string |
| `DocumentHelpers.ExtractMetadata` | src/commands/runBuildCurrentSpecCommand/helpers/documentHelpers.ts:13-26 | `name` (`version`) is present exactly when the parse succeeded and its top level binds `name` (`version`) to a string, and is that string |
| `DocumentHelpers.NoMappingNoMetadata` | src/commands/runBuildCurrentSpecCommand/helpers/documentHelpers.ts:14-25 | a parse failure, or a parse that is not a mapping (null, a scalar, a list), gives both fields absent; the error is not passed on |
| `DocumentHelpers.NonStringFieldDropped` | src/commands/runBuildCurrentSpecCommand/helpers/documentHelpers.ts:18-21 | a `name` or `version` bound to a non-string value is dropped, not converted |
| `DocumentHelpers.FieldsIndependent` | src/commands/runBuildCurrentSpecCommand/helpers/documentHelpers.ts:18-21 | changing any key other than `name` leaves `name` unchanged, and likewise for `version` |
| `DocumentHelpers.MetadataRoundTrip` | src/commands/runBuildCurrentSpecCommand/helpers/documentHelpers.ts:18-21 | projecting the mapping that declares a metadata value's fields gives that metadata back |
| `DocumentHelpers.NumericVersionDropped` | src/commands/runBuildCurrentSpecCommand/helpers/documentHelpers.ts:18-21 | `name: foo` with a numeric `version: 1.0` gives name `foo` and no version |
| `DocumentHelpers.ResolveDalecDocument` | src/commands/runBuildCurrentSpecCommand/helpers/documentHelpers.ts:28-48 | a resolved document is accepted by the classifier and comes with no message. With a URI, the result is that document if and only if the classifier accepts it, otherwise the "Selected file is not recognized" error. Without a URI, the result is the active document if and only if there is one and it is accepted, otherwise the "Open a Dalec spec" error |
| `DocumentHelpers.ResolutionOneErrorOnFailure` | src/commands/runBuildCurrentSpecCommand/helpers/documentHelpers.ts:32-47 | each call either resolves a document with no message or resolves none with exactly one error-level message |
| `DocumentHelpers.SelectedTakesPrecedence` | src/commands/runBuildCurrentSpecCommand/helpers/documentHelpers.ts:32-39 | with a URI the active editor is never consulted: the result is the same for any active document, even an accepted one |

## Left out

- Editor host calls are not modelled: `vscode.workspace.openTextDocument`, `window.activeTextEditor` and the `show*Message` popups. Their results are inputs, and the popups are the returned `Notice` values.
- A failure of `openTextDocument` (line 33) is not caught by the code and belongs to the host. It is not an outcome of `ResolveDalecDocument`.
- The YAML parser (`YAML.parse`, line 16) is a foreign library. Its result is an input, a `Result<YamlValue, ParseError>`. Mapping keys are strings in `YamlValue`, as they are on the JavaScript object the parser returns.
- `console.error` (line 23) is a log side effect with no behavioural consequence.
- `DalecDocumentTracker.isDalecDocument` is not part of this model. It is a classifier parameter of `ResolveDalecDocument`, and nothing assumes it equals the header check.
- `async` and `Promise` wrapping are left out: the model treats each call as a single step. `resolveDalecDocument` suspends at `await vscode.workspace.openTextDocument(uri)` (line 33); after that it only calls the classifier, which is a parameter here.
- `return {}` on a parse failure and `{ name: undefined, version: undefined }` are the same `Metadata(None, None)`. They differ only to own-property tests (`in`, `Object.keys`, object spread), which `Metadata` does not represent.
- Strings are sequences of Unicode scalar values, not UTF-16 code units. Every character that `trim`, `startsWith` and `includes` compare against is a single BMP code unit outside the surrogate range (`WhitespaceIsBmp`), so the results agree on well-formed text. Text containing an unpaired surrogate cannot be represented.
- Line 0 ends at the first LF or CR, as in the editor's text model.

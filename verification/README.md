# Verified models of Penguin Redis

A Dafny project that models the parts of Penguin Redis where data can be silently lost, confused or sent
to the wrong place, and proves what those parts promise. Everything is checked by
`dafny verify dfyconfig.toml`.

The source writes two kinds of code and the project follows it. Recursive renderers and grammars are
functions over datatypes. Code that advances an index, fills a buffer or updates fields is a method or a
class, and each such method is proved equal to a function, about which the lemmas then speak.

What a format is, is said a second time and without those functions: `JsonGrammar`, `WireForms`, `PathForms`,
`LineForms`, `GlobForms`, `JournalForms` and `VersionedText.Parts` are derivations with the octets written out, and
`JsonReading`, `EventReading`, `ProjectionReading` and `ReplyOutput` read what was printed off such a derivation.

## What is modelled

| area | files | in short |
|---|---|---|
| Lossless JSON tree and editor | `JsonDom`, `JsonStrings`, `JsonParser`, `JsonStability`, `JsonTree`, `JsonEdit`, `JsonPath`, `JsonPathParser`, `PathForms`, `JsonDocument`, `JsonDuplicates`, `JsonStringLaws`, `JsonGrammar`, `JsonDerivations`, `JsonLanguage` | the hand-written parser with spans, depth and occurrence numbers, and the grammar it accepts; paths; splice editing |
| Printers | `JsonText`, `JsonRoundTrip`, `JsonNumerals`, `Base64`, `EventJson`, `JsonProjection`, `Projector`, `FloatSyntax`, `JsonReading`, `EventReading`, `ProjectionReading` | the event JSON, the `--json` projection and base64, read back by that same parser and read off the grammar |
| RESP | `RespValue`, `Resp3`, `Decoder`, `DecoderLaws`, `DecoderRoundTrip`, `WireForms`, `WireLanguage`, `AlikeFrames`, `PlainText`, `Emitter`, `PushFrames`, `ReplyOutput`, `EndToEnd` | the bounded decoder and the wire forms it accepts, the RESP3 re-encoder, the reply layouts, the routing of pushes, and the pipeline from wire to standard output |
| Admission and grammars | `Pipe`, `Grammar`, `GrammarLaws`, `GrammarOptions` | `--pipe` frame by frame; the role of every argument |
| Patterns and discovery | `Glob`, `GlobForms`, `Discovery` | the key-pattern matcher, literal prefixes, budgets of a discovery run |
| Input line | `LineSyntax`, `LineForms`, `Analyser` | the authoritative tokenizer, the lenient one, and completion |
| Shared state | `VersionedText`, `SharedFile`, `SharedRuns`, `RefusedEdits`, `Journal`, `JournalForms`, `Reconciling`, `JournalRuns`, `JournalTrail` | the lock, version and rename protocol; crash-safe credential binding; both as interleaved steps with crashes |
| Tasks | `TaskScope` | which abort handles are kept, pruned and aborted |
| Vocabulary | `Prelude`, `Utf8`, `LossyText`, `Decimal` | octets, UTF-8 (sections 3 and 4 of RFC 3629) and lossy decoding, decimal numerals |

## Where the code and its promises part

Each of these is a theorem of the project, with the condition under which the promise does hold.

- A finite double whose Rust spelling is no JSON number (`.5`, `1.`, `+1`) makes `--json` write text that
  no JSON parser accepts, although the decoder lets it through. `JsonProjection.ProjectionParses` gives the
  exact condition; `EndToEnd.DecodedDoubleThatIsNotJson` is the instance.
- The glob loop can miss a match when a pattern has a backslash before an opening bracket and the key has a
  backslash (`Glob.GlobMissesAMatch`). `Glob.GlobIsComplete` is a guard under which it cannot: the key has no
  backslash, or behind the first star no backslash outside a class escapes a bracket whose class is closed.
  The guard is sufficient, not exact.
- The comment in `policy.rs` takes an unterminated `[` for a literal; the loop takes it for a failed match, so
  a pattern that comes to one matches nothing (`Glob.UnclosedReadsNothing`).
- An escaped literal prefix means starts-with on every key exactly when the prefix holds none of `*`, `?`
  and `]` (`Glob.PrefixesThatMeanStartsWith`).
- The credential journal promises that no secret is left behind undiscovered. Five kinds of event break this,
  each of them alone (`JournalTrail.OneLapseIsEnough`): a rotation installs its reference over another one than
  it read at its start, with no crash at all; a process crashes between installing a reference and its committed
  record; a cleaned record lands on a binding whose committed record still names a stored secret, as it does
  when a rotation crashed before its cleanup and the next one went through; somebody removes a profile;
  somebody removes the journal. Without them every stored secret that no profile references is reported, or
  held by a live process that is about to record it (`JournalTrail.SecretsAreForgottenOnlyByLapses`).
- For the third of these reasons a cleanup that was cut short can make reconciliation forget a deletion it had
  asked for; `Reconciling.SecondReconciliation` says exactly which ones it still asks for.
- `--pipe` feeds the whole input before decoding, so input beyond the decoder's buffer limit loses even the
  frames that a shorter input had admitted (`Pipe.MoreInputExtends`).
- `shutdown` answers that a task had to be aborted even when the last one left between the deadline and the
  aborts (`TaskScope.ShutdownStopsEverything`, with `late` such tasks).
- A discovery budget with a rate of zero allows one scan and then panics (`Discovery.StepsExactly`).
- The `numkeys` rule of EVAL adds two to the count in 64 bits. At `EVAL s 18446744073709551615 a` the sum
  overflows: a debug build panics, and a release build calls `a` a value where the walker calls it a key
  (`GrammarLaws.EvalRuleOverflows`). `GrammarLaws.EvalAgrees` says exactly when the two agree. The walker
  itself makes as many rounds as the count says, however few arguments there are
  (`Grammar.Walker.VisitKeys`).
- `--csv` quotes no carriage return. A reader by RFC 4180 takes one that ends an unquoted last cell for part of
  the line end and drops it (`PlainText.ReturnIsLost`); every other octet of every cell comes back, and the whole
  table does exactly when no record ends that way (`PlainText.SheetReadsBackIff`). The lines themselves merge
  nothing but an empty collection with one empty cell (`PlainText.SameLineIffSameRow`).
- The conflict file of a refused edit lasts exactly until the same process is refused again with the same
  expected and found version, which overwrites it (`RefusedEdits.RefusedEditLasts`,
  `RefusedEdits.LaterRefusalOverwrites`).
- A line payload that holds CR LF makes re-encoded RESP3 ambiguous (`Resp3.SplitLineIsAmbiguous`).
- An error or a big number that is not UTF-8 loses octets under `--json` without a notice, and strict mode
  does not refuse it (`JsonProjection.ErrorsKeepTheirBytesIffUtf8`).
- A member whose name holds a quote and also a dot, an opening bracket or a hash has no path at all
  (`JsonPath.PathsExpressSpellableSteps`).
- `update` compares versions only, so a foreign write that kept the version is overwritten
  (`SharedFile.SharedFile.Update`, where `outside` is such a write).

## Model

| member | source | states |
|---|---|---|
| JsonParser.Parser.ParseValue | crates/pr-json/src/dom.rs:234-361 | the recursive parser returns exactly the specified tree or error and leaves its position there, with every level it opened closed again |
| JsonParser.Parser.ParseArray | crates/pr-json/src/dom.rs:277-301 | the array loop, item by item, equals the specified list of items |
| JsonParser.Parser.ParseObject | crates/pr-json/src/dom.rs:302-357 | the object loop collects exactly the specified pairs, in source order |
| JsonParser.AssignOccurrences | crates/pr-json/src/dom.rs:329-352 | the two counting passes over hash tables give each member its rank and total among equal keys |
| JsonParser.Parser.ScanString | crates/pr-json/src/dom.rs:158-186 | the string scanner stops exactly where the specified token stops or fails |
| JsonParser.Parser.ScanNumber | crates/pr-json/src/dom.rs:188-232 | the number scanner stops exactly where the specified lexeme stops or fails |
| JsonNumerals.NumberIffGrammar | crates/pr-json/src/dom.rs:188-232 | a whole text is one number token if and only if the grammar of section 6 of RFC 8259 derives it |
| JsonParser.ParseText | crates/pr-json/src/dom.rs:430-444 | a document is a value with blanks around it and nothing else |
| JsonLanguage.AcceptedIffDerived | crates/pr-json/src/dom.rs:133-444 | a text is accepted if and only if the grammar of sections 2 to 7 of RFC 8259 derives it, with white space wherever that allows it, every key decodes and its nesting is within the limit |
| JsonLanguage.DocumentIsDerivation | crates/pr-json/src/dom.rs:234-444 | whatever derivation a text has, the document is the tree of that derivation, with its spans |
| JsonGrammar.TokenScans | crates/pr-json/src/dom.rs:158-186 | a string token of the grammar is scanned to its end wherever it stands |
| JsonStability.ValueMoves | crates/pr-json/src/dom.rs:234-361 | context independence: a value that parses in one buffer parses to the same tree, moved, in any buffer that holds the same bytes at any offset, under any limit its depth respects |
| JsonTree.ValueNested | crates/pr-json/src/dom.rs:234-361 | in every parsed tree the spans of children are ordered, disjoint and inside their parent |
| JsonTree.DescendantInside | crates/pr-json/src/dom.rs:234-361 | a node at any route lies inside the document's span |
| JsonDocument.ParsedIsSound | crates/pr-json/src/dom.rs:430-444 | every parsed document is nested inside its source and numbered by rank throughout |
| JsonPath.OccurrencesRankDuplicates | crates/pr-json/src/dom.rs:329-352 | members sharing a key are numbered exactly 1 to total, in source order, with none missing |
| JsonPath.BareNameNeedsUniqueness | crates/pr-json/src/path.rs:116-144 | a name without `#n` succeeds if and only if one member carries it, and each error has its exact cause |
| JsonPath.CanonicalStepsAreUnique | crates/pr-json/src/path.rs:116-144 | every node has one qualified step list that leads to it, and no other qualified list does |
| JsonPath.PathsExpressSpellableSteps | crates/pr-json/src/path.rs:28-109 | which step lists some path text spells, both ways |
| PathForms.PathsExactly | crates/pr-json/src/path.rs:28-109 | a text parses to given steps if and only if it is those steps as typed: `.name`, `["name"]`, `[n]`, `#n` in their ranges, perhaps behind a dollar sign |
| JsonPathParser.Parse | crates/pr-json/src/path.rs:28-88 | the index loops return exactly the specified steps or error |
| JsonPathParser.ParseOccurrence | crates/pr-json/src/path.rs:90-109 | the optional `#n` with its four error cases |
| JsonParser.Lookup | crates/pr-json/src/dom.rs:493-500 | walking the steps from the root gives the node or the first error |
| JsonEdit.EditValue | crates/pr-json/src/dom.rs:506-513 | re-parsing a value whose bytes were spliced below it gives the old tree with the new one grafted in and everything behind it moved |
| JsonDocument.ReplaceParses | crates/pr-json/src/dom.rs:506-513 | replacing a resolvable node by any complete value that fits the remaining depth gives a document that parses, to the grafted tree |
| JsonDocument.ReplaceInstallsValue | crates/pr-json/src/dom.rs:506-513 | the same steps then lead to the same place, where the bytes are exactly the new text, trimmed |
| JsonDocument.ReplaceKeepsTheRest | crates/pr-json/src/dom.rs:506-513 | every node that is neither ancestor nor descendant of the edit keeps its bytes; ancestors keep keys and occurrence numbers; no route outside appears or disappears |
| JsonParser.ReplaceNode | crates/pr-json/src/dom.rs:506-513 | the buffer that is built is the source with just the node's span replaced |
| JsonParser.DecodeToken | crates/pr-json/src/dom.rs:370-423 | the decoding loop yields exactly the specified text or nothing |
| JsonStringLaws.DecodeInvertsSpelling | crates/pr-json/src/dom.rs:370-423 | however the characters of a text are spelled (raw UTF-8, short escape, `\u`, surrogate pair), decoding gives the text back |
| JsonStringLaws.AcceptsExactlyUnits | crates/pr-json/src/dom.rs:158-186 | the scanner ends a token at a quote if and only if the content before it splits into plain octets and complete escapes |
| JsonStringLaws.DeclinesExactly | crates/pr-json/src/dom.rs:370-423 | on accepted tokens decoding declines if and only if the octets are not UTF-8 or a surrogate stands alone |
| JsonDuplicates.Collector.Collect | crates/pr-json/src/dom.rs:525-542 | the recursion pushes each repeated name once, at its first occurrence |
| JsonDuplicates.DuplicatesReported | crates/pr-json/src/dom.rs:518-542 | a document reports no duplicate if and only if no object of its content repeats a key |
| JsonDuplicates.ReportedExactly | crates/pr-json/src/dom.rs:518-542 | a name is reported with a number if and only if some object has that many members of this name, more than one |
| JsonRoundTrip.DecodeInvertsJsonString | crates/pr-application/src/output.rs:538-557 | decoding inverts `json_string` on every text |
| JsonRoundTrip.PrintThenParse | crates/pr-application/src/output.rs:490-557 | whatever content is printed, the repository's parser reads exactly that content back, for any limit the depth respects |
| JsonRoundTrip.PrintingIsInjective | crates/pr-application/src/output.rs:490-557 | two contents with one text are equal |
| JsonNumerals.ParsesIffLexical | crates/pr-application/src/json_projection.rs:247-260 | printed content whose numbers are float texts parses if and only if every one of them is a JSON number |
| Projector.WriteString | crates/pr-application/src/json_projection.rs:319-338 | the character loop writes exactly the specified escaped string |
| Base64.EncodeChunks | crates/pr-application/src/output.rs:564-588 | the chunk loop writes exactly the specified text |
| Base64.Base64Length | crates/pr-application/src/output.rs:564-588 | four characters for every started group of three octets |
| Base64.Base64RoundTrip | crates/pr-application/src/output.rs:564-588 | base64 (section 4 of RFC 4648) has a left inverse on every byte string |
| EventJson.JsonValuePrints | crates/pr-application/src/output.rs:490-529 | the concatenated text is the printed form of the value's structural image |
| EventJson.JsonValueParses | crates/pr-application/src/output.rs:490-529 | for every RESP value the text parses under three levels for each level of the value, and reads back as that image |
| EventJson.RecoverBytes | crates/pr-application/src/output.rs:531-536 | every byte string, UTF-8 or not, is recovered from its JSON |
| EventJson.TextShowsExactlyTheFace | crates/pr-application/src/output.rs:490-536 | two values are written alike if and only if they show the same structure and octets |
| EventReading.JsonValueTells | crates/pr-application/src/output.rs:490-536 | the text has a derivation that shows the value (numbers, truths and octets as they are, keys before values, base64 for what is not UTF-8) and the parser finds just this tree |
| JsonProjection.ProjectionParses | crates/pr-application/src/json_projection.rs:164-338 | the `--json` text parses if and only if every finite double is spelled as a JSON number; it then carries the projected content and repeats no member name |
| JsonProjection.FiniteDoubleThatIsNotJson | crates/pr-application/src/json_projection.rs:247-260 | the lexeme `.5` breaks the output under every limit |
| ProjectionReading.ProjectionTells | crates/pr-application/src/json_projection.rs:164-338 | the text has a derivation that shows the value: each truth, number, text and list as it is, entry by entry under its own key or as pairs of key and value, `$bytes` in base64; wherever the parser accepts the text, its tree is that one |
| ProjectionReading.NoticesByPlace | crates/pr-application/src/json_projection.rs:164-317 | the notices are those of the places that are written, in order, each told from its place alone |
| ProjectionReading.RefusalByPlace | crates/pr-application/src/json_projection.rs:224-245 | a refusal names the first place written whose octets are not UTF-8, and only strictness refuses |
| Utf8.LossyKeepsValid | crates/pr-application/src/json_projection.rs:247-260 | lossy decoding leaves well-formed text alone |
| LossyText.LossyExactly | crates/pr-application/src/json_projection.rs:247-260 | lossy decoding reads characters where there are any, and one U+FFFD for each maximal subpart of an encoding, and nothing else |
| FloatSyntax.FloatIff | crates/pr-protocol/src/decoder.rs:200-209 | a double's text is a sign, digits around an optional point and an optional exponent, or `inf`, `infinity`, `nan` in any case |
| Projector.Projector.Render | crates/pr-application/src/json_projection.rs:164-222 | one pass writes the projected text and appends exactly the specified notices and first refusal |
| Projector.Projector.RenderMap | crates/pr-application/src/json_projection.rs:262-317 | a map becomes an object only with distinct UTF-8 keys, else a list of pairs with its notice |
| Projector.Projector.StringOrBytes | crates/pr-application/src/json_projection.rs:224-245 | UTF-8 becomes a string; anything else is refused and written as null, or announced and written as base64 |
| Projector.Projector.Double | crates/pr-application/src/json_projection.rs:247-260 | a finite double keeps its lexeme as a number, any other is announced and written as a string |
| JsonProjection.ErrorsKeepTheirBytesIffUtf8 | crates/pr-application/src/json_projection.rs:164-222 | errors and big numbers keep their octets if and only if these are UTF-8, and no notice or refusal tells otherwise |
| Projector.Project | crates/pr-application/src/json_projection.rs:120-133 | the text shows the value, the notices are those of the places written and the refusal names the first place that has no JSON form |
| Resp3.Sink.Write | crates/pr-application/src/output.rs:368-446 | the recursion appends exactly the specified octets to the buffer |
| Resp3.ReadOfEncode | crates/pr-application/src/output.rs:368-446 | whatever follows an encoded frame, a RESP3 reader stops exactly behind it with the normalised value |
| Resp3.UniquelyDecodable | crates/pr-application/src/output.rs:368-446 | streams that start with encoded frames and are equal started with the same frame and went on alike |
| Resp3.SameBytesIffSameNormal | crates/pr-application/src/output.rs:368-446 | nulls are the only thing the encoding merges |
| AlikeFrames.SameBytesIffAlike | crates/pr-application/src/output.rs:368-446 | two frames have the same octets if and only if they are equal but for the forms of their nulls |
| AlikeFrames.NormalIsAlike | crates/pr-application/src/output.rs:368-446 | what is read back differs from what was written in the forms of nulls only, and these are then those of RESP3 |
| Resp3.SplitLineIsAmbiguous | crates/pr-application/src/output.rs:370-383 | a payload determines its line if and only if it holds no CR LF |
| Decoder.Decoder.Decode | crates/pr-protocol/src/decoder.rs:105-117 | one attempt: a value leaves the buffer, an incomplete frame or an error leaves it alone |
| WireLanguage.DecodesExactlyForms | crates/pr-protocol/src/decoder.rs:220-454 | a buffer yields a value if and only if it begins with a form of that value within the budget: counted, chunked and streamed forms, the three nulls, attributes |
| WireLanguage.BeginningsWait | crates/pr-protocol/src/decoder.rs:105-117 | every proper beginning of a form waits for more |
| DecoderLaws.ValueIsStable | crates/pr-protocol/src/decoder.rs:220-454 | neither a decoded value nor an error changes when more bytes arrive |
| DecoderLaws.PiecesDoNotMatter | crates/pr-protocol/src/decoder.rs:90-117 | however a stream within the buffer limit is cut into pieces, feeding and draining them gives the values and the error of the whole |
| DecoderLaws.LongStreams | crates/pr-protocol/src/decoder.rs:90-117 | the same for streams of any length, as long as remainder and next piece fit the buffer, against a decoder without limit; otherwise the budget error and the values so far |
| DecoderRoundTrip.ValueFits | crates/pr-protocol/src/decoder.rs:220-454 | every decoded value is within the depth, element and size budgets and has valid line payloads |
| DecoderRoundTrip.EncodedReads | crates/pr-application/src/output.rs:368-446 | wherever the encoding of a value that fits stands in a buffer, the decoder reads that value there |
| DecoderRoundTrip.ReencodedDecodes | crates/pr-application/src/output.rs:368-446 | decode, re-encode, decode is decode with nulls normalised, for every stream |
| Emitter.Emitter.Accept | crates/pr-application/src/output.rs:265-313 | one frame changes output, diagnostics, trace and counters exactly as specified for its mode and route, in the layout of each mode |
| Emitter.Emitter.Finish | crates/pr-application/src/output.rs:320-327 | suppressed pushes are reported once, with their number, and only then |
| Emitter.PushesDoNotInterfere | crates/pr-application/src/output.rs:265-313 | in every reply mode standard output equals that of the run with all pushes, attributed or bare, deleted |
| PushFrames.PushIff | crates/pr-application/src/output.rs:347-353 | a frame is a push if and only if the value behind all its attributes is one |
| PushFrames.OneFrameIsRouted | crates/pr-application/src/output.rs:265-313 | by that shape, where a frame is written and what it is counted as |
| PushFrames.OutputIgnoresPushes | crates/pr-application/src/output.rs:265-313 | in every reply mode the frames of that shape can be deleted without changing standard output |
| PushFrames.PushOctet | crates/pr-application/src/output.rs:368-446 | re-encoded, a push is what begins with `>` behind its attributes |
| PushFrames.DroppedPushesAreReported | crates/pr-application/src/output.rs:320-327 | at the end the number of dropped pushes is reported in these words, and nothing else is |
| ReplyOutput.RunAdds | crates/pr-application/src/output.rs:595-623 | in the modes for people and for blobs standard output is, for each reply in order, one line for each leaf of the value, its JSON, or exactly the octets of the blob |
| Emitter.EveryFrameIsCounted | crates/pr-application/src/output.rs:265-313 | pushes and replies add up to the frames, and the trace is the concatenation of the wires |
| Emitter.OneLinePerFrame | crates/pr-application/src/output.rs:265-313 | in the event modes standard output, split at line feeds, is one event for each frame in arrival order, numbered from one |
| Emitter.EventLineParses | crates/pr-application/src/output.rs:455-461 | every event is a document that reads back as version, kind, number, type and content |
| EventReading.EventLineTells | crates/pr-application/src/output.rs:455-483 | the five members of an event by name and place: version 1, push or reply by the value behind the attributes, the number, the type's word and the value |
| Emitter.RespOutputDecodes | crates/pr-application/src/output.rs:265-313 | decoding `resp` output, at once or in any pieces that fit the buffer, gives exactly the replies, normalised and in order |
| PlainText.SheetReads | crates/pr-application/src/output.rs:595-643 | what a reader by RFC 4180, with CR LF or LF at the end of a record, makes of the output: every cell as it was, but for a carriage return that ends an unquoted last cell |
| PlainText.ListCells | crates/pr-application/src/output.rs:625-634 | the cells of a list are those of its items in order, however deep its lists and sets |
| PlainText.MapCells | crates/pr-application/src/output.rs:625-634 | the cells of a map are its keys and values in turn |
| PlainText.SheetReadsBackIff | crates/pr-application/src/output.rs:636-643 | the table comes back if and only if no record's last cell is unquoted and ends in a carriage return |
| PlainText.ReturnIsLost | crates/pr-application/src/output.rs:636-643 | the bulk string `a` CR is read as `a` |
| PlainText.SameLineIffSameRow | crates/pr-application/src/output.rs:625-643 | two replies are written alike if and only if their cells say the same, an empty collection counting as one empty cell |
| Emitter.CsvOutputReadsBack | crates/pr-application/src/output.rs:265-313 | standard output of a CSV run is UTF-8 and reads as one record for each reply in order, and none for a push; all cells come back if and only if no reply's last cell is unquoted and ends in a carriage return |
| EndToEnd.DecodedEventParses | crates/pr-application/src/output.rs:455-461 | any frame the decoder can produce is reported as one line that parses under a limit fixed by the decoder's budget |
| EndToEnd.RespPipeline | crates/pr-application/src/output.rs:265-313 | wire to decoder to emitter to decoder, in pieces and of any length: the replies survive, the pushes do not |
| EndToEnd.DecodedDoubleThatIsNotJson | crates/pr-protocol/src/decoder.rs:200-209 | the decoder accepts `.5`, which no limit lets the projection's reader accept |
| Pipe.AdmitStream | crates/pr-application/src/pipe.rs:168-253 | the admission loop with its decoder, index and offset gives exactly the specified admission, a refused command being named in upper case |
| Pipe.ReadCommand | crates/pr-application/src/pipe.rs:257-270 | a command is a non-empty array of bulk strings, and its arguments are their contents |
| Pipe.JudgedByPermission | crates/pr-application/src/pipe.rs:257-284 | a frame is admitted if and only if it is a command each of whose effects the policy permits |
| Pipe.AdmissibleIff | crates/pr-application/src/pipe.rs:257-284 | a frame is admissible if and only if it is an array of bulk strings, at least one, and the catalog lists its name with effects that are all permitted, or does not list it and the unclassified are permitted |
| Pipe.RefusedFor | crates/pr-application/src/pipe.rs:273-284 | the reason of a refusal: unclassified before destructive before writing |
| Pipe.FailsClosed | crates/pr-application/src/pipe.rs:168-284 | accepted requests are the leading permitted command frames, numbered without a gap; the stop names the next frame by its index and by the octets before it |
| Pipe.StricterAcceptsPrefix | crates/pr-application/src/pipe.rs:273-284 | a stricter policy accepts a prefix of what a looser one accepts |
| Pipe.MoreInputExtends | crates/pr-application/src/pipe.rs:168-253 | appending input extends what is accepted, and cannot undo a refusal, exactly while the whole stays within that limit |
| Grammar.Walker.Visit | crates/pr-catalog/src/spec.rs:470-517 | the walk over a grammar node changes position, roles and `numkeys` as specified |
| Grammar.Walker.VisitRepeat | crates/pr-catalog/src/spec.rs:532-558 | the repeat loop stops when its keyword is missing or nothing is consumed |
| Grammar.Walker.VisitPaired | crates/pr-catalog/src/spec.rs:524-530 | what is left is split into two halves, the odd argument going to the first |
| Grammar.Walker.VisitKeys | crates/pr-catalog/src/spec.rs:536-548 | exactly `numkeys` keys, as far as there are arguments, and none if it did not parse; in `numkeys` rounds |
| Grammar.Resolve | crates/pr-catalog/src/spec.rs:418-430 | one role for each argument |
| GrammarLaws.RolesAreGivenOrValue | crates/pr-catalog/src/spec.rs:418-558 | for every grammar and argument list there is one role per argument, and it is a plain value unless a place of the grammar gives it, a keyword only to the word typed |
| GrammarOptions.OptionsAreRecognised | crates/pr-catalog/src/spec.rs:405-604 | in a command of fixed arguments, groups of optional keywords and a last node, each keyword typed (in any case, where its group stands) is a keyword and its arguments have its roles, whatever the fixed arguments say; the rest is told by the last node |
| GrammarOptions.HalvesAreTold | crates/pr-catalog/src/spec.rs:524-530 | an argument of a halved rest is in the first half if and only if less than half of the rest precedes it |
| GrammarLaws.WalkAgreesWithTable | crates/pr-catalog/src/spec.rs:169-214 | the walker and the positional table agree on all grammars of plain arguments with at most one trailing repeat |
| GrammarLaws.EvalAgrees | crates/pr-catalog/src/spec.rs:389-403 | on the EVAL grammar the walker gives the roles of the `numkeys` rule on a whole line if and only if nothing follows the count, it did not parse, or two more than it fits in 64 bits |
| GrammarLaws.EvalAgreesAt | crates/pr-catalog/src/spec.rs:389-403 | at one position they differ exactly where the sum overflows and the walker sees a key |
| GrammarLaws.EvalRuleOverflows | crates/pr-catalog/src/spec.rs:389-403 | a line on which they differ |
| Glob.GlobBytes | crates/pr-mcp/src/policy.rs:216-267 | the loop ends within a bound proportional to pattern times key; what it accepts the pattern means, and the converse under the guard |
| Glob.ScanClass | crates/pr-mcp/src/policy.rs:270-301 | the class scanner finds the end of the class and whether one of its items holds the octet |
| Glob.GlobIsSound | crates/pr-mcp/src/policy.rs:216-267 | on every pattern and key, a match is a declarative match |
| Glob.RunOvertakes | crates/pr-mcp/src/policy.rs:216-267 | why returning to the last star only is enough |
| Glob.GlobIsComplete | crates/pr-mcp/src/policy.rs:216-267 | the loop decides the declarative relation when the key has no backslash, or behind the first star no backslash escapes a bracket that opens a closed class |
| GlobForms.ClassReads | crates/pr-mcp/src/policy.rs:270-301 | a class written out (members, ranges, escapes, `^`) reads an octet if and only if a member holds it, or for a negated one none does |
| GlobForms.GlobAnswers | crates/pr-mcp/src/policy.rs:216-301 | for a pattern written out piece by piece and a key without a backslash, the loop answers what the pieces mean |
| Glob.GlobMissesAMatch | crates/pr-mcp/src/policy.rs:216-267 | a pattern and key outside the guard on which it fails |
| Glob.UnclosedReadsNothing | crates/pr-mcp/src/policy.rs:230-244 | a bracket that is never closed reads no octet, itself included, and a pattern that comes to it matches nothing |
| Glob.BuildScanPattern | crates/pr-intelligence/src/discovery.rs:51-66 | the escaping loop writes exactly the specified pattern |
| Glob.PrefixIsMatched | crates/pr-intelligence/src/discovery.rs:51-66 | every key that begins with the prefix matches its pattern |
| Glob.EscapedPrefixIsStartsWith | crates/pr-intelligence/src/discovery.rs:51-66 | escape, then match, is starts-with for keys without a backslash, and for all keys if the prefix has no loose octet |
| Glob.PrefixesThatMeanStartsWith | crates/pr-intelligence/src/discovery.rs:51-66 | exactly which prefixes mean starts-with on every key |
| Discovery.Discovery.Next | crates/pr-intelligence/src/discovery.rs:304-344 | finished, time, count, size, rate: the order of the checks and the new state, and the panic of a rate of zero |
| Discovery.Discovery.Reply | crates/pr-intelligence/src/discovery.rs:353-367 | the loop with its hash set adds new keys in first-seen order |
| Discovery.StepsExactly | crates/pr-intelligence/src/discovery.rs:304-382 | after any events, from the history alone: when a run is over and which limit it names, when it waits and how long, and when a rate of zero panics |
| Discovery.WaitEndsWithTheGap | crates/pr-intelligence/src/discovery.rs:324-339 | asked again with a clock that has not gone back, a run waits on exactly until the time it named and then scans, unless it is over |
| Discovery.ScansAreSpaced | crates/pr-intelligence/src/discovery.rs:304-344 | over any run scans are counted, at most the budget, and each comes at least the gap after the last, whatever the clock does; a rate of zero allows one |
| Discovery.ScansExactlyWhen | crates/pr-intelligence/src/discovery.rs:304-382 | after any events a scan is issued if and only if no reply, cancellation or refusal ended the run, no request ever met a limit and the gap is over; it then carries the last cursor fed, no reply carried cursor 0 and the bytes fed are below the budget |
| Discovery.RateIsBounded | crates/pr-intelligence/src/discovery.rs:328-339 | a window of width W holds at most W/gap + 1 scans |
| Discovery.GapIs | crates/pr-intelligence/src/discovery.rs:328-339 | the gap is the largest whole number of nanoseconds that fits `rate` times into a second |
| Discovery.TotalScansAreBounded | crates/pr-intelligence/src/discovery.rs:304-344 | with a clock that does not go back, rate and duration bound all scans of a run |
| Discovery.MatchesAreExact | crates/pr-intelligence/src/discovery.rs:353-367 | the matches are exactly the keys fed, each once, in order of first appearance |
| Discovery.ExhaustedExactly | crates/pr-intelligence/src/discovery.rs:353-382 | a run is conclusive if and only if a reply carried cursor 0 and no refusal came after it |
| LineSyntax.SplitArgs | crates/pr-repl/src/quoting.rs:57-164 | the tokenizer's loops give exactly the specified arguments or error |
| LineForms.SplitsExactlyLines | crates/pr-repl/src/quoting.rs:57-164 | a line is split if and only if it is words with white space between them, with quotes and escapes as written out, and then into their meanings at their places |
| LineSyntax.SpansAreArguments | crates/pr-intelligence/src/analyser.rs:98-254 | on every line the tokenizer accepts, the lenient scanner finds the same arguments at the same places, all closed |
| LineSyntax.SpansTile | crates/pr-intelligence/src/analyser.rs:98-254 | spans are ordered, disjoint and non-empty, and only white space stands outside them |
| LineSyntax.BuildQuote | crates/pr-repl/src/quoting.rs:178-205 | the quoting loop writes exactly the specified text |
| LineSyntax.QuoteReadsBack | crates/pr-repl/src/quoting.rs:178-205 | a quoted argument is read back as it was, whatever octets it has |
| LineSyntax.QuotedLineSplits | crates/pr-repl/src/quoting.rs:178-205 | a line of quoted arguments is split into those arguments |
| Analyser.Analyse | crates/pr-intelligence/src/analyser.rs:98-254 | the nested loops give exactly the specified analysis for every line and cursor |
| Analyser.ActiveExactly | crates/pr-intelligence/src/analyser.rs:98-254 | the active span is the one the cursor is in or at an end of, never two; when the cursor is at a new token, in which quotes, and when the line is incomplete |
| Analyser.SubstitutionIsLocal | crates/pr-intelligence/src/analyser.rs:98-254 | replacing any span by a text that spells an argument changes that span, moves those behind it, and nothing else |
| Analyser.CompletionIsLocal | crates/pr-intelligence/src/analyser.rs:74-81 | so does accepting such a text for the replaceable span, which is then the replaceable one again |
| Analyser.QuotedCompletionIsLocal | crates/pr-repl/src/quoting.rs:173-205 | and so does the quoted form of any argument at all, which then reads as that argument |
| VersionedText.ParseInvertsPrint | crates/pr-profiles/src/shared.rs:281-288 | reading a written file gives back its version and body, whatever the body holds |
| VersionedText.ParseExactly | crates/pr-profiles/src/shared.rs:281-288 | a text is read as a version and a body if and only if it is the header, white space, an optional plus, digits of that version in 64 bits, white space, and the end or a newline and the body |
| VersionedText.NoHeaderNoVersion | crates/pr-profiles/src/shared.rs:281-288 | a text that does not begin with the header has no version |
| SharedFile.SharedFile.Read | crates/pr-profiles/src/shared.rs:111-123 | a missing file is version 0 with an empty body; a file without the header is refused |
| SharedFile.SharedFile.WriteAtomically | crates/pr-profiles/src/shared.rs:225-253 | the file is the complete new text, the temporary file is gone, conflicts are untouched |
| SharedFile.SharedFile.WriteConflict | crates/pr-profiles/src/shared.rs:257-278 | the rejected edit is in the file named by both versions and the process, and nothing else changes |
| SharedFile.SharedFile.Update | crates/pr-profiles/src/shared.rs:134-176 | edit applied and version advanced by one, or the edit kept in its conflict file and the file left as found; a file without the header is left as it is |
| SharedFile.SharedFile.WriteIfUnchanged | crates/pr-profiles/src/shared.rs:184-210 | compare and swap on the version, with each outcome's exact cause and effect; a file without the header is left as it is |
| SharedRuns.NextKeepsInv | crates/pr-profiles/src/shared.rs:134-275 | every step of every process, every crash and every power failure keeps the protocol's invariant |
| SharedRuns.NoLostUpdate | crates/pr-profiles/src/shared.rs:134-176 | at every moment of every run the file is the starting text with all committed edits applied in order, and its version counts them (modulo 2^64, as a release build does) |
| SharedRuns.ForeignIsNeverTouched | crates/pr-profiles/src/shared.rs:111-210 | over every run a file that begins without the header keeps its contents and nothing is saved |
| SharedRuns.VersionsAreProducedOnce | crates/pr-profiles/src/shared.rs:169-175 | no two commits share a version until the counter wraps |
| SharedRuns.SavedEditsAreInTheHistory | crates/pr-profiles/src/shared.rs:134-210 | a call that reported a save finds its edit in the history under that version; a compare-and-swap was applied to the version it named |
| SharedRuns.UpdateNeverConflicts | crates/pr-profiles/src/shared.rs:155-167 | with lock-taking writers only, `update` never meets a conflict |
| SharedRuns.RefusedEditIsKept | crates/pr-profiles/src/shared.rs:257-278 | a refused edit is complete and synced in its conflict file when the call returns, and the version really differed |
| RefusedEdits.RefusedEditLasts | crates/pr-profiles/src/shared.rs:257-278 | through any later steps, crashes and power failures a refused edit stays complete and synced exactly until a refusal with the same name |
| RefusedEdits.LaterRefusalOverwrites | crates/pr-profiles/src/shared.rs:257-278 | a run in which a second refusal of one process takes the place of the first |
| SharedRuns.OpenHandleNeverChanges | crates/pr-profiles/src/shared.rs:225-253 | a reader that opened the file sees the same text through its handle ever after |
| SharedRuns.OldOrNew | crates/pr-profiles/src/shared.rs:225-253 | between two steps the file is the same or a complete next version |
| Journal.Journal.Append | crates/pr-profiles/src/journal.rs:129-151 | one record is added behind what was there |
| Journal.ReadBackIffWritable | crates/pr-profiles/src/journal.rs:129-204 | appended records are read back if and only if their references are well formed and no profile name holds a tab or newline |
| JournalForms.ParsesExactly | crates/pr-profiles/src/journal.rs:129-204 | a line is a given record if and only if it is its profile, reference, superseded reference or hyphen, and stage, with tabs between them |
| Journal.Journal.Read | crates/pr-profiles/src/journal.rs:174-204 | records in order, or the number of the first malformed line |
| Journal.Journal.LatestStates | crates/pr-profiles/src/journal.rs:207-222 | the slot updates in place give the specified latest states |
| Journal.LatestKeepsTheLast | crates/pr-profiles/src/journal.rs:207-222 | one slot for each binding, holding the last record of that binding |
| Journal.Journal.Reconcile | crates/pr-profiles/src/journal.rs:232-274 | the classifying loop gives the three specified lists, or nothing when journal or store cannot answer |
| JournalForms.ListedExactly | crates/pr-profiles/src/journal.rs:232-274 | which profiles and secrets each of the three lists has, and when there is no answer, told from the last record of each binding |
| Journal.Journal.FinishCleanups | crates/pr-profiles/src/journal.rs:280-299 | secrets are deleted and journalled in order, up to the first one the store refuses |
| Reconciling.ReportedExactly | crates/pr-profiles/src/journal.rs:232-274 | exactly which stored, unreferenced secrets a reconciliation reports |
| Reconciling.SecondReconciliation | crates/pr-profiles/src/journal.rs:232-299 | after a cleanup, complete or cut short, a second reconciliation finds the same dangling profiles, the orphans that were not deleted, and of the cleanups not done exactly those for which a record is left that was not overwritten; after a complete one, none |
| JournalRuns.StepKeepsInv | crates/pr-profiles/src/journal.rs:10-19 | each of the six steps, recovery and a crash keep the binding invariant |
| JournalRuns.ReferencedSecretsExist | crates/pr-profiles/src/journal.rs:10-19 | over all interleaved runs with crashes every referenced secret is in the store |
| JournalRuns.CleanupSparesReferenced | crates/pr-profiles/src/journal.rs:224-231 | a deleted secret was referenced by no profile then and is referenced by none ever after |
| JournalRuns.NothingDangles | crates/pr-profiles/src/journal.rs:232-274 | whenever recovery starts in such a run it finds no dangling profile |
| JournalTrail.NothingIsForgotten | crates/pr-profiles/src/journal.rs:3-19 | at every moment of every run without lapses each stored secret that no profile references is reported by a reconciliation or held by a live process |
| JournalTrail.StoredAheadIsReported | crates/pr-profiles/src/journal.rs:92-94 | whatever else happens, while the journal is kept, a secret stored for a binding that got no further is reported |
| JournalTrail.SecretsAreForgottenOnlyByLapses | crates/pr-profiles/src/journal.rs:3-19 | runs with a given set of lapses can forget a secret if and only if that set is not empty |
| JournalTrail.OneLapseIsEnough | crates/pr-profiles/src/journal.rs:232-274 | for each kind of lapse a run that shows no other and forgets a secret |
| JournalTrail.OvertakenRotationIsForgotten | crates/pr-profiles/src/journal.rs:232-274 | two complete rotations, no crash, and the first one's secret is never reported |
| JournalTrail.OverwrittenRecordIsForgotten | crates/pr-profiles/src/journal.rs:207-222 | a rotation that crashed before its cleanup, a complete one after it, and the first superseded secret is never reported |
| JournalTrail.CrashCanForgetASecret | crates/pr-profiles/src/journal.rs:232-274 | a crash before the committed record, after which reconciliation finds nothing at all |
| TaskScope.TaskScope.Spawn | crates/pr-core/src/scope.rs:134-155 | the new handle is tracked, then finished ones are pruned |
| TaskScope.TaskScope.PruneFinished | crates/pr-core/src/scope.rs:168-174 | the guarded pass keeps exactly the handles of unfinished tasks |
| TaskScope.TaskScope.Shutdown | crates/pr-core/src/scope.rs:192-211 | drained if and only if every task left by itself within the wait; otherwise those that are left are asked to stop |
| TaskScope.TaskScope.Drop | crates/pr-core/src/scope.rs:214-222 | every tracked task that is still running is asked to stop |
| TaskScope.RunKeepsInv | crates/pr-core/src/scope.rs:134-174 | over any run handles are distinct, cover the unfinished tasks that were not yet asked to stop, and pay for the passes |
| TaskScope.UnfinishedIsTracked | crates/pr-core/src/scope.rs:134-174 | every unfinished task can still be aborted or has been |
| TaskScope.TrackedIsBounded | crates/pr-core/src/scope.rs:168-174 | after a spawn at most max(63, 2 * live) handles are tracked |
| TaskScope.PruningIsAmortised | crates/pr-core/src/scope.rs:168-174 | all passes together look at no more than two handles for each spawn |
| TaskScope.ShutdownStopsEverything | crates/pr-core/src/scope.rs:192-211 | what still runs afterwards was asked to stop, and once that ended nothing runs; a reported drain asked nothing, otherwise exactly the tasks that stayed were asked |
| TaskScope.NothingSurvivesDrop | crates/pr-core/src/scope.rs:214-222 | what still runs was asked to stop, and no task survives that |

## Left out

- Operating system effects: real locks, permissions, directory syncing and the key ring. Locks, renames and
  store operations are atomic steps; a rename is taken as durable at once.
- The capital letters, wording and numbers inside error messages; decode errors keep only their kind, and
  the RESP reader's messages are merged.
- JsonParser.AssignOccurrences: occurrence numbers and totals are unbounded, where the source saturates or
  wraps at 32 bits.
- Projector.Projector.Render: whether a decimal text is too large for a finite 64-bit float is a parameter;
  the protocol argument, which the source does not use, is dropped.
- Projector.Projector.RenderMap: the source sorts and removes duplicates to find repeated keys; the model
  asks directly whether two keys are equal.
- Emitter.Emitter.Accept: the redacted trace for files is not part of this model.
- PlainText.SheetReads: its reader lets a carriage return through elsewhere in an unquoted field, which RFC 4180
  has no rule for.
- Decoder.Decoder.Decode: `parse_value` is a function over positions rather than a cursor it moves.
- Resp3.ReadOfEncode: its reader is a plain reading of the RESP3 specification without budgets, so that the
  theorem needs nothing of lexemes; `DecoderRoundTrip` repeats it for the repository's own decoder.
- WireLanguage.DecodesExactlyForms: which error a buffer gives that is neither a form nor the beginning of one is
  told by the decoder's own functions only; so is the error of a text that `JsonLanguage.AcceptedIffDerived` refuses.
- Pipe.AdmitStream: `to_uppercase` is a parameter, as is the catalog.
- GrammarLaws.EvalAgrees: `usize` is taken to be 64 bits wide.
- GrammarOptions.OptionsAreRecognised: options inside options and repeated groups are not of its shape.
- GlobForms.GlobAnswers: in a key with a backslash a backslash of the pattern may also stand for itself, so no
  spelling of pieces has one meaning there; `Glob.GlobBytes` speaks of those keys through `Glob.Matches`.
- JsonPathParser.Parse: paths are sequences of characters; the source's index walks their UTF-8 octets.
- Discovery.Discovery.Next: counters are unbounded.
- SharedRuns.OpenHandleNeverChanges: an unlinked inode is never reused in the model.
- JournalRuns.StepKeepsInv: a user who points a profile back at an old reference is outside the protocol;
  reconciliation reads journal, store and profiles in one step; a journal append is all or nothing.
- TaskScope.TaskScope.Spawn: a task's end and its guard's drop are one step, and timers are a set of tasks that end;
  an aborted task ends like any other, some time after it was asked to.
- Analyser.Analyse: `command`, which upper-cases the first span, is not modelled.
- Glob class semantics of the Redis server: classes mean what the source's scanner does with them.
- The cooldown table, budgets' presets, exit codes, flag selection, keyword listing and version comparison:
  short functions without a property across members.
- Ranking and vocabulary, the observation store, catalog compilation, slot routing, approvals and the MCP loop.

# featgraph in Dafny

featgraph reads the feats file of a character planner for an online
role-playing game. The file is a list of blocks separated by blank lines.
Each block describes one feat as `KEY: value;` lines. featgraph turns each
block into a `Feat` record: its name, its parent heading, the prerequisites
it needs all of (`NEEDSALL`), the prerequisites it needs one of
(`NEEDSONE`), and whether it is granted automatically (`ACQUIRE`). It then
draws a directed graph from the prerequisites to the feats.

This project models that core as pure functions over immutable values and
proves properties of it:

| module | file | models |
|---|---|---|
| `Results` | results.dfy | `Option` and `Result`. Python's exceptions become `Err` values. |
| `Text` | text.dfy | The Python 2 string operations the parser uses: `strip()`, `rstrip(c)`, `split(sep, 1)`, `split(sep)`, `splitlines()`, and the whitespace set of `isspace()`. |
| `Feats` | feats.dfy | The `Dependency` and `Feat` classes, `full_name` and `feat_deps`. |
| `FeatParser` | parser.dfy | `Feat.from_text`. Each line becomes a `Directive`, and the directives are applied in order. The module also gives a reference definition, `BlockOutcome`, that describes the whole record at once; the parser is proved to meet it. |
| `FeatsFile` | feats_file.dfy | The loop in `main` that groups file lines into blocks at whitespace-only lines and parses each block. It also covers the list of parsed feats that the graph loop walks. |
| `FeatGraph` | graph.dfy | The graph loop: the edges, the rectangle-shaped nodes, and the "One of:" node label. |
| `FeatsText` | feats_text.dfy | A writer that prints a `Feat` as record lines. It is the partner of the parser: reading a written record gives the same feat back. |
| `ParseExamples` | parse_examples.dfy | The records of featgraph's test suite (featgraph/test_parse.py), each proved to parse to the expected outcome. |

Behaviours of featgraph that the model keeps as they are:

- `FEATNAME` may be missing. The name is then `None`. `full_name` is `None` without a heading, and `"P: None"` with heading `P`.
- `rstrip(";")` removes every trailing `;`, not just one.
- A final block that no blank line follows is never parsed.
- A file with no blank line at all has no parsed feat. The graph loop then fails on an unbound name (feat_graph.py:108). The model returns `Err(NoBlankLine)`.
- A `NEEDSALL` or `NEEDSONE` token with no space fails the unpacking at lines 64 and 69. The model returns `Err(MissingKindSeparator(token))`.
- The `rstrip(",")` at line 129 never removes anything, because the label always ends in a newline (`FeatGraph.OneOfLabelCommaStripNoOp`).

## Model

| member | source | states |
|---|---|---|
| Feats.FullNameShape | featgraph/feat_graph.py:37-42 | Without a parent heading the full name is the name. With heading `P` it is `P`, then `": "`, then the name's text. |
| Feats.FullNameInjective | featgraph/feat_graph.py:37-42 | Two feats with names, the same heading and the same full name have the same name. The name is recoverable from the full name. |
| Feats.FeatTargets | featgraph/feat_graph.py:44-46 | The result is exactly the targets of the prerequisites whose kind is "Feat". It is never longer than the list. |
| Feats.FeatTargetsAppend | featgraph/feat_graph.py:44-46 | Filtering distributes over concatenation, so order is preserved. |
| Feats.FeatTargetsAllFeats | featgraph/feat_graph.py:44-46 | When every prerequisite is a Feat, the filter keeps all targets, in order. |
| Feats.FeatTargetsNoFeats | featgraph/feat_graph.py:44-46 | When no prerequisite is a Feat, the filter is empty. |
| Text.Strip | featgraph/feat_graph.py:52 | The result has no whitespace at either end, and the input is the result surrounded by whitespace only. |
| Text.StripUnique | featgraph/feat_graph.py:52 | Those two conditions determine the strip: tight text padded with whitespace strips back to itself. |
| Text.StripIdempotent | featgraph/feat_graph.py:52 | Stripping twice is stripping once. |
| Text.StripPadded | featgraph/feat_graph.py:52 | Adding whitespace on either side of a text does not change its strip. |
| Text.SplitLines | featgraph/feat_graph.py:51 | No line holds a line break. What the lines are is stated by `Text.SplitLinesRebuild` and `Text.SplitLinesGlued`. |
| Text.SplitLinesRebuild | featgraph/feat_graph.py:51 | Each line followed by the terminator it lost (LF, CR or CR LF, or none after a final unterminated line) rebuilds the text. The lines and terminators form a well-formed split: no line holds a break, and a lone CR is never followed by an empty line ended by LF. |
| Text.SplitLinesGlued | featgraph/feat_graph.py:51 | Conversely, any well-formed split of a text into lines and terminators is the one `splitlines()` finds, with the same lines and terminators. |
| Text.CrLfBreaks | featgraph/feat_graph.py:51 | CR LF is one break: "a\r\nb" gives the lines a and b. LF CR is two breaks: "a\n\rb" gives a, an empty line, and b. |
| Text.SplitLinesTerminated | featgraph/feat_graph.py:51 | Lines each ending in a line feed split back into the same lines. |
| Text.SplitFirst | featgraph/feat_graph.py:53-55 | There is no split exactly when the separator is absent. Otherwise the key holds no separator, and key, separator and rest rebuild the line. |
| Text.SplitFirstOf | featgraph/feat_graph.py:55 | Only the first ':' separates. Later colons stay in the value. |
| Text.SplitOn | featgraph/feat_graph.py:62 | There is at least one part. No part holds the separator, and joining the parts gives the input back. |
| Text.SplitOnJoin | featgraph/feat_graph.py:62 | Splitting joined separator-free parts gives the same parts back. |
| Text.RStripChar | featgraph/feat_graph.py:56 | The result is a prefix of the input that does not end in the character. Everything cut is that character. |
| Text.RStripCharNoOp | featgraph/feat_graph.py:129 | Text that does not end in the character is unchanged. |
| FeatParser.CleanValue | featgraph/feat_graph.py:56 | The value is the stripped text with trailing ';' cut. It has no leading whitespace and no final ';', and only ';' was removed after the strip. |
| FeatParser.CleanFieldValue | featgraph/feat_graph.py:56 | `" " + r + ";"` cleans to `r` for any tight `r` that does not end in ';'. |
| FeatParser.CleanValueKeepsSpaceBeforeSemicolon | featgraph/feat_graph.py:56 | `" " + r + " ;"` cleans to `r + " "`. The space before the ';' survives. |
| FeatParser.EntryOf | featgraph/feat_graph.py:52-56 | A line yields an entry exactly when it holds ':'. The key is the trimmed line up to its first ':' (so the key holds no ':'), and the value is the cleaned rest after that ':'. |
| FeatParser.EntryOfPadded | featgraph/feat_graph.py:52 | Indentation and trailing whitespace around a line do not change its entry. |
| FeatParser.EntryOfKeyValue | featgraph/feat_graph.py:53-56 | `k:v` reads as key `k` with the cleaned `v`, even when `v` holds ':'. |
| FeatParser.FieldEntry | featgraph/feat_graph.py:52-56 | `"k: r;"` reads back as entry (k, r). |
| FeatParser.LineWithoutColonIgnored | featgraph/feat_graph.py:53-54 | A line with no ':' leaves the record unchanged. |
| FeatParser.UnrecognisedKeyIgnored | featgraph/feat_graph.py:57-74 | A key other than the five recognised ones has no effect on the record. |
| FeatParser.NameEntries | featgraph/feat_graph.py:57-60 | FEATNAME and PARENTHEADING store the value and change nothing else. That a later line wins over an earlier one across a whole block is stated by `FeatParser.ReferenceSnoc` and `FeatParser.ApplyAllMeetsReference`. |
| FeatParser.ParseDependency | featgraph/feat_graph.py:64 | A token fails exactly when it has no space. Otherwise the kind has no space, and kind, " " and target rebuild the token. |
| FeatParser.ParseDependencyOf | featgraph/feat_graph.py:64 | `kind + " " + target` parses to that pair whenever the kind has no space. The target may hold spaces and colons. |
| FeatParser.ParseAll | featgraph/feat_graph.py:63-65 | The list succeeds exactly when every token does, giving one prerequisite per token in order. Otherwise it fails with the error of the first failing token. |
| FeatParser.StripAll | featgraph/feat_graph.py:62 | Each token is stripped, and the count is kept. |
| FeatParser.DepList | featgraph/feat_graph.py:62 | One stripped token per comma-separated part of the value, in order. |
| FeatParser.NonAutomatic | featgraph/feat_graph.py:72 | The result holds no "Automatic". It is empty exactly when every token is "Automatic". |
| FeatParser.IsAutomaticAcquire | featgraph/feat_graph.py:71-74 | The ACQUIRE value counts as automatic exactly when every trimmed token is "Automatic". |
| FeatParser.Directives | featgraph/feat_graph.py:51-56 | There is one directive per line, each read from that line alone. |
| FeatParser.RequireTokens | featgraph/feat_graph.py:61-65 | NEEDSALL succeeds exactly when every token parses. It then appends one prerequisite per token, in order, and changes nothing else. On failure the error comes from a token. |
| FeatParser.AlternativesTokens | featgraph/feat_graph.py:66-70 | NEEDSONE does the same to the alternatives and leaves the required list alone. |
| FeatParser.NeedsEntries | featgraph/feat_graph.py:61-70 | NEEDSALL and NEEDSONE values are cut at commas, trimmed, and parsed token by token. |
| FeatParser.AcquireEntry | featgraph/feat_graph.py:71-74 | ACQUIRE never fails and touches only the flag. It sets the flag exactly when every token is "Automatic", and never clears it. |
| FeatParser.ParsedAppended | featgraph/feat_graph.py:63-65 | Parsed tokens appended to a list keep the old list as prefix and line up with the tokens. |
| FeatParser.ApplyAllSnoc | featgraph/feat_graph.py:51-74 | Applying one more line applies it to the record built from the earlier lines. |
| FeatParser.ReferenceSnoc | featgraph/feat_graph.py:57-70 | With one more line, the last name and heading are that line's when it sets them. Its prerequisites come after all earlier ones. |
| FeatParser.AcquiredSnoc | featgraph/feat_graph.py:71-74 | One more line makes the record automatic exactly when it is an all-"Automatic" ACQUIRE or an earlier line already did. |
| FeatParser.FirstFailureSnoc | featgraph/feat_graph.py:61-70 | The first failing NEEDS line stays the first one when more lines follow. |
| FeatParser.BlockOutcomeSnoc | featgraph/feat_graph.py:51-74 | One more line extends the reference outcome by that line. |
| FeatParser.ApplyAllMeetsReference | featgraph/feat_graph.py:49-75 | For any starting record and any directives, line-by-line application meets the reference `BlockOutcome`. It fails exactly when some NEEDS line fails, with the first one's error. Otherwise it keeps the last name and heading, appends all prerequisites in order, and sets the flag on any all-Automatic ACQUIRE. |
| FeatParser.FromTextMeetsReference | featgraph/feat_graph.py:49-75 | `from_text` meets the reference definition, starting from the empty record. |
| FeatParser.FullNameFromText | featgraph/feat_graph.py:37-60 | A parsed record's full name is the last FEATNAME when there is no PARENTHEADING. Otherwise it is the last heading, ": " and the last name. |
| FeatParser.AutomaticNeverCleared | featgraph/feat_graph.py:71-74 | Once set, the automatic flag stays set whatever lines follow. |
| FeatsFile.FileLines | featgraph/feat_graph.py:81-83 | File lines are non-empty. Every line but the last ends in a line feed, and none holds one earlier. |
| FeatsFile.FileLinesConcat | featgraph/feat_graph.py:81-83 | Concatenating the lines gives the file content back. |
| FeatsFile.BlocksCount | featgraph/feat_graph.py:83-90 | There is one block per whitespace-only line. |
| FeatsFile.BlankClosesBlock | featgraph/feat_graph.py:84-90 | A whitespace-only line closes the block of the lines since the previous one. |
| FeatsFile.TrailingLinesDropped | featgraph/feat_graph.py:89-90 | Lines after the last whitespace-only line start no block. They only grow the pending text. |
| FeatsFile.ConcatSnoc | featgraph/feat_graph.py:90 | Appending a line to the buffer extends its text by that line. |
| FeatsFile.GroupBlocks | featgraph/feat_graph.py:82-90 | The loop yields exactly the blocks of the reference grouping. |
| FeatsFile.ParseEach | featgraph/feat_graph.py:85 | One parse result per block, in block order. |
| FeatsFile.Collect | featgraph/feat_graph.py:85-90 | All results succeed exactly when the collection does, which then keeps them in order. Otherwise it fails with the first error. |
| FeatsFile.FeatsOfBlocks | featgraph/feat_graph.py:83-108 | No blocks is the NoBlankLine error. Otherwise it succeeds exactly when every block parses, giving one feat per block, in order; a failure carries the first bad block's error. |
| FeatsFile.FeatsOfFileBlocks | featgraph/feat_graph.py:83-108 | A file fails with NoBlankLine exactly when none of its lines is whitespace-only. |
| FeatGraph.LabelInjective | featgraph/feat_graph.py:118-121 | Two prerequisites of the same kind get the same node label exactly when their targets are equal. |
| FeatGraph.LabelKindDistinct | featgraph/feat_graph.py:118-121 | Prerequisites of the five bare kinds on one target share one node. A prerequisite of any other non-empty kind gets a different node: its label starts with its kind. |
| FeatGraph.Labels | featgraph/feat_graph.py:124-128 | There is one label per alternative, in order. |
| FeatGraph.OneOfLabelLines | featgraph/feat_graph.py:123-128 | When labels hold no line break, the node text's lines are "One of:" and then one label per alternative. |
| FeatGraph.OneOfLabelCommaStripNoOp | featgraph/feat_graph.py:129 | `rstrip(",")` leaves the node text unchanged. |
| FeatGraph.OneOfLabelSnoc | featgraph/feat_graph.py:124-128 | Each alternative appends its label and a line feed. |
| FeatGraph.RequiredEdges | featgraph/feat_graph.py:112-121 | There is one edge per required prerequisite, in order, from its label to the feat's full name. |
| FeatGraph.RequiredEdgesSnoc | featgraph/feat_graph.py:112-121 | One more prerequisite adds one edge at the end. |
| FeatGraph.RequiredPrefix | featgraph/feat_graph.py:112-117 | Each step of the prerequisite loop adds one edge, and a rectangle when the kind is Feat or Epic:. |
| FeatGraph.FeatKindTargetsSnoc | featgraph/feat_graph.py:113-117 | One more prerequisite adds its target as a rectangle exactly when its kind is Feat or Epic:. |
| FeatGraph.RequiredStep | featgraph/feat_graph.py:112-121 | The loop gives the reference edges, and the targets of the Feat and Epic: prerequisites as rectangles. |
| FeatGraph.OneOfText | featgraph/feat_graph.py:122-129 | The loop builds the "One of:" node text. |
| FeatGraph.FeatEdges | featgraph/feat_graph.py:109-131 | A feat contributes its required edges, plus one "One of:" edge when it has alternatives. Every edge points to its full name. |
| FeatGraph.FeatGraphStep | featgraph/feat_graph.py:109-131 | One pass of the loop body gives the feat's edges and rectangles. |
| FeatGraph.BuildGraph | featgraph/feat_graph.py:107-131 | The whole loop gives the edges of all feats in order, and the union of their rectangles. |
| FeatGraph.FeatDepsAreEdgeSources | featgraph/feat_graph.py:112-119 | Every Feat prerequisite is the source of an edge into the feat. |
| FeatGraph.EdgeTargetsAreFeats | featgraph/feat_graph.py:108-131 | Every edge points to the full name of some parsed feat. |
| FeatGraph.FeatRectanglesHold | featgraph/feat_graph.py:109-130 | A feat with prerequisites, each Feat prerequisite, and the "One of:" node are rectangles. Every rectangle of a feat is its full name, the target of a Feat or Epic: prerequisite, or its "One of:" node. |
| FeatGraph.RectanglesOfFeats | featgraph/feat_graph.py:107-131 | A node is a rectangle exactly when some feat contributes it. |
| FeatsText.FieldReadBack | featgraph/feat_graph.py:52-56 | A written field with a plain key and value reads back as that entry. |
| FeatsText.IgnoredFieldReadBack | featgraph/feat_graph.py:57-74 | A field of any other key reads back as no effect. |
| FeatsText.SpacedPartsTrim | featgraph/feat_graph.py:62 | Each written part strips back to its token. |
| FeatsText.CommaTextTokens | featgraph/feat_graph.py:62 | Comma-joined tokens split and trim back to the same tokens. |
| FeatsText.CommaTextCons | featgraph/test_parse.py:42 | Writer helper: a written list is its first token, ", " and the written rest. The tests' ACQUIRE lists (lines 42 and 68) are rebuilt from it token by token. |
| FeatsText.DependencyTokenReadBack | featgraph/feat_graph.py:64 | A written prerequisite parses back to itself. |
| FeatsText.ParseAllTokens | featgraph/feat_graph.py:62-65 | A written list of prerequisites parses back to the same list. |
| FeatsText.DependenciesRoundTrip | featgraph/feat_graph.py:61-65 | A written NEEDS value reads back as the same prerequisites, in order. |
| FeatsText.NeedsLinesReadBack | featgraph/feat_graph.py:61-70 | Written NEEDSALL and NEEDSONE lines ask for exactly those prerequisites. |
| FeatsText.AcquiredLineReadBack | featgraph/feat_graph.py:71-74 | A written ACQUIRE line sets the flag exactly when all its tokens are "Automatic". |
| FeatsText.LineReadBack | featgraph/feat_graph.py:52-74 | Every well-formed written line is one line, and the parser reads it as its meaning. |
| FeatsText.RecordReadBack | featgraph/feat_graph.py:49-75 | Parsing a written record applies the meanings of its lines in order. |
| FeatsText.FeatRecordApplied | featgraph/feat_graph.py:49-75 | The meanings of a feat's written record rebuild the feat. |
| FeatsText.FromTextRoundTrip | featgraph/feat_graph.py:49-75 | `from_text` of a written feat gives the feat back. |
| ParseExamples.AbundantStepText | featgraph/test_parse.py:11-17 | The modelled record's lines are the test's lines. |
| ParseExamples.TestParseName | featgraph/test_parse.py:10-19 | The Abundant Step record parses. Its full name is "Abundant Step" and it is automatic. |
| ParseExamples.BludgeoningFocusNeeds | featgraph/test_parse.py:29 | The modelled NEEDSALL line is the test's line. |
| ParseExamples.TestParseParentHeading | featgraph/test_parse.py:21-34 | The record's full name is "Greater Weapon Focus: Bludgeoning Weapons". It needs one Feat whose target holds a colon, and it is not automatic. |
| ParseExamples.TwoWeaponNeedsText | featgraph/test_parse.py:43 | The modelled NEEDSALL line is the test's line. |
| ParseExamples.TwoWeaponAcquireText | featgraph/test_parse.py:42 | The modelled ACQUIRE line is the test's line: thirteen Train tokens with AutoNoPrereq seventh. |
| ParseExamples.TestParseDependenciesKinds | featgraph/test_parse.py:36-48 | The three prerequisites (Ability, BAB, Feat) parse in order. `feat_deps` is ["Improved Two Weapon Fighting"]. The record is not automatic despite its AutoNoPrereq token. |
| ParseExamples.SlashingNeedsText | featgraph/test_parse.py:57 | The modelled NEEDSALL line is the test's line. |
| ParseExamples.TestParseDependenciesColons | featgraph/test_parse.py:50-62 | `feat_deps` is the two targets that hold colons, in order. |
| ParseExamples.TrapmakingNeedsText | featgraph/test_parse.py:69 | The modelled NEEDSALL line is the test's line. |
| ParseExamples.TrapmakingAlternativesText | featgraph/test_parse.py:70 | The modelled NEEDSONE line is the test's line. |
| ParseExamples.TrapmakingAcquireText | featgraph/test_parse.py:68 | The modelled ACQUIRE line is the test's line. |
| ParseExamples.TestParseDependenciesAlternatives | featgraph/test_parse.py:64-75 | The three alternatives' targets are as the test expects, in order. The one required prerequisite is Feat Trapfinding. |
| ParseExamples.PrerequisiteWithoutKind | featgraph/feat_graph.py:61-65 | A NEEDSALL token without a space is the parse error, and a record holding it fails with that error. |
| ParseExamples.NameKeepsSpaceBeforeSemicolon | featgraph/feat_graph.py:56-58 | "FEATNAME: r ;" names the feat `r` followed by a space. |

## Left out

- The class-wide `Feat.FEATS` list (feat_graph.py:21, 35) is not modelled. Parsing a file returns the ordered sequence of feats, and the graph takes that sequence as a parameter.
- A block that fails at line 64 or 69 has already appended its partly built feat to `FEATS`. The exception then ends the program. The model returns `Err` and keeps no partial record.
- pygraphviz is not modelled. That covers layout and drawing (133-134), graph and node attributes (100-106), node identity and the `seen` list. Edges are a sequence of (source, target) pairs and rectangles a set of labels. The `seen` check only avoids re-adding a node, so it changes nothing in a set.
- FeatGraph.Edge: the target is an `Option`. A feat with neither name nor heading has full name `None`, and pygraphviz's handling of a `None` node is not modelled.
- The planner-version title string (95-104) is not modelled.
- The command line, the directory check, the usage message and the file opening (79-81, 91-93) are not modelled. The file's content is a parameter.
- Python 2 byte strings are modelled as `seq<char>`. Whitespace is the C `isspace` set: space, tab, line feed, carriage return, vertical tab and form feed. Encoding is not modelled.
- The test records' description, tag, class list, level, icon and verified fields are parameters (any text without a line break). Their content does not affect the outcome.
- FeatParser.CleanValue: whitespace just before a trailing ';' is kept ("Foo ;" gives "Foo "), so a cleaned value can end in whitespace. The model therefore does not promise "no whitespace on either side".

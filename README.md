# Spring Cloud Data Flow language server: a Dafny model of its document segmenter and its consumers

The language server edits three kinds of documents: stream definitions, task definitions
and app-import manifests. Its core is the line-by-line segmenter of the stream and task
documents. The segmenter reads a document once and cuts it into items. Each item is closed
by a definition line, or it is the metadata-only item at the end of the document. Each item
carries:

- the `@env`, `@name` and `@desc` metadata lines in force;
- its deployment blocks of `@prop` lines, and for tasks `@arg` lines;
- for streams, the comment runs;
- the parse of its definition line.

Every editor feature reads these items: the symbol table, the renamer, the code lenses, the
folding ranges, the linter and the environment lookup. The app-import manifest has its own
line parser. It maps each `type.name[.metadata]=uri` line to an entry keyed by type, name
and version.

The model has one module per concern:

- `Segmenter` holds one scanner for both languages and for both revisions of each service.
  - A `Dialect` record says whether comments are tracked, whether `@arg` is recognised, and
    whether the block end only advances on recognised metadata lines.
  - A delegate function parses a definition line. It returns an `Outcome`, because the older
    task revision can throw.
  - The specification is a fold over the lines: `ScanTo` and `ScanFrom`, then `ItemsFrom`.
  - The scanner itself is imperative: `ParseNext`, `ScanItem`, `ReadMetadataLines` and `ParseItems`,
    each proved equal to the fold; the loops are in `ReadMetadataLines` and `ParseItems`.
- `SegmenterFacts`, `SegmenterShape` and `SegmenterComments` hold what the scanner
  guarantees:
  - items are ordered and disjoint, and cover every definition line;
  - blocks are never empty;
  - every metadata line carries its token at its content start;
  - comment runs are closed;
  - only the last item may lack a definition.
- `StreamService` and `TaskService` hold the definition-line parses of both revisions of
  each service, and relate the revisions to each other.
- `Environment` holds the environment lookup, and `ParseCache` the per-version cache (a
  class with a map field).
- The consumers are `StreamLenser`, `TaskLenser`, `Lenses`, `Metadata`, `StreamSymbolizer`,
  `TaskSymbolizer`, `Symbols`, `StreamRenamer`, `StreamFolder`, `StreamLinter` and
  `Completion`.
- `AppService`, `AppLenser` and `AppSymbolizer` cover the app-import manifest.
- `Text`, `Ranges`, `Dsl` and `Wrappers` hold the string operations of `String` and
  `DocumentText`, positions and ranges, the parser interface, and `Option`/`Outcome`.

Java's exceptions are values in the model: a `substring` past the end of its string gives
`Throws`. Each throwing operation of the segmenter and its consumers is modelled as written,
returning an `Outcome`, next to a guarded variant that does not throw, and a lemma shows the
two agree whenever the original does not throw. The version reader of the app-import manifest
is the one throwing path left out; see "Left out".

## Model

| member | source | states |
|---|---|---|
| Ranges.LineRange | src/main/java/org/springframework/cloud/dataflow/language/server/stream/AbstractStreamLanguageService.java:193 | the range of a line runs from column 0 of that line to the end of its text |
| Ranges.PointRange | src/main/java/org/springframework/cloud/dataflow/language/server/stream/AbstractStreamLanguageService.java:329 | a problem's range is the empty range at one position, and that position lies in it |
| Ranges.RangeExtend | src/main/java/org/springframework/cloud/dataflow/language/server/stream/AbstractDataflowStreamLanguageService.java:435-438 | extending a range keeps its start and takes the end of the other range |
| Segmenter.ContentStart | src/main/java/org/springframework/cloud/dataflow/language/server/stream/AbstractStreamLanguageService.java:297-312 | the offset of the first `@`, letter or digit of a line, and -1 exactly when the line has none; every character before it is skipped |
| Segmenter.FindContentStart | src/main/java/org/springframework/cloud/dataflow/language/server/stream/AbstractStreamLanguageService.java:297-312 | the scanner's loop returns the content start of the line |
| Segmenter.Classify | src/main/java/org/springframework/cloud/dataflow/language/server/stream/AbstractStreamLanguageService.java:245-255 | a recognised kind is one the dialect looks for, and its token sits at the content start |
| Segmenter.ClassifyOrder | src/main/java/org/springframework/cloud/dataflow/language/server/task/AbstractTaskLanguageService.java:248-260 | tokens are tried as `@env`, `@name`, `@desc`, `@prop`, then `@arg` for tasks only; a line matching none is ignored |
| Segmenter.TrackComment | src/main/java/org/springframework/cloud/dataflow/language/server/stream/AbstractStreamLanguageService.java:222-231 | comment tracking changes only the closed and open comment ranges |
| Segmenter.Record | src/main/java/org/springframework/cloud/dataflow/language/server/stream/AbstractStreamLanguageService.java:245-252 | storing a metadata line changes only the slot or block list its kind names |
| Segmenter.MarkerLine | src/main/java/org/springframework/cloud/dataflow/language/server/stream/AbstractStreamLanguageService.java:233-261 | a marker line never touches finished blocks or comment ranges |
| Segmenter.SeparatorLine | src/main/java/org/springframework/cloud/dataflow/language/server/stream/AbstractStreamLanguageService.java:262-276 | any other line stores the pending block and empties the pending `@prop` and `@arg` lists |
| Segmenter.StepConsistent | src/main/java/org/springframework/cloud/dataflow/language/server/stream/AbstractStreamLanguageService.java:192-278 | one line read keeps the scanner's variables consistent with each other |
| Segmenter.NextDefinitionLine | src/main/java/org/springframework/cloud/dataflow/language/server/stream/AbstractStreamLanguageService.java:192-196 | the first definition line at or after a line, with none skipped before it |
| Segmenter.ScanToNext | src/main/java/org/springframework/cloud/dataflow/language/server/stream/AbstractStreamLanguageService.java:192-278 | the state after one more line is one step from the state before it |
| Segmenter.ScanToConsistent | src/main/java/org/springframework/cloud/dataflow/language/server/stream/AbstractStreamLanguageService.java:192-278 | every state the loop reaches is consistent |
| Segmenter.CloseAt | src/main/java/org/springframework/cloud/dataflow/language/server/stream/AbstractStreamLanguageService.java:196-219 | the item emitted when the scan stops lies inside the document, from the search start on |
| Segmenter.ScanFrom | src/main/java/org/springframework/cloud/dataflow/language/server/stream/AbstractStreamLanguageService.java:176-295 | the item found from a line starts there or later and ends inside the document |
| Segmenter.NextItem | src/main/java/org/springframework/cloud/dataflow/language/server/stream/AbstractStreamLanguageService.java:187 | the search resumes on the line after the previous item, or on line 0 |
| Segmenter.ItemsFrom | src/main/java/org/springframework/cloud/dataflow/language/server/stream/AbstractStreamLanguageService.java:164-174 | the items lie inside the document, in order, and do not overlap |
| Segmenter.Items | src/main/java/org/springframework/cloud/dataflow/language/server/stream/AbstractStreamLanguageService.java:164-174 | the items of a whole document lie inside it, in line order, each ending above the next one's start |
| Segmenter.ReadMarkerLine | src/main/java/org/springframework/cloud/dataflow/language/server/stream/AbstractStreamLanguageService.java:233-261 | the marker-line branch computes the marker-line step |
| Segmenter.ReadLine | src/main/java/org/springframework/cloud/dataflow/language/server/stream/AbstractStreamLanguageService.java:220-277 | the non-definition branch computes one step of the fold |
| Segmenter.ReadDefinitionLine | src/main/java/org/springframework/cloud/dataflow/language/server/stream/AbstractStreamLanguageService.java:196-219 | the definition-line branch emits the item of the search |
| Segmenter.ReadEnd | src/main/java/org/springframework/cloud/dataflow/language/server/stream/AbstractStreamLanguageService.java:280-294 | at the end of the document the metadata-only item, if any, is the item of the search |
| Segmenter.ParseNext | src/main/java/org/springframework/cloud/dataflow/language/server/stream/AbstractStreamLanguageService.java:176-295 | parseNextStream returns the next item of the specification |
| Segmenter.ScanItem | src/main/java/org/springframework/cloud/dataflow/language/server/stream/AbstractStreamLanguageService.java:192-278 | the scanner's loop returns the item of the search from its start line |
| Segmenter.ReadMetadataLines | src/main/java/org/springframework/cloud/dataflow/language/server/stream/AbstractStreamLanguageService.java:192-278 | the loop stops at the next definition line, or the end, with the fold of every line before it and the range of the last line read |
| Segmenter.ItemsFromNext | src/main/java/org/springframework/cloud/dataflow/language/server/stream/AbstractStreamLanguageService.java:167-172 | the items from the resume line are the next item followed by the items after it |
| Segmenter.ParseItems | src/main/java/org/springframework/cloud/dataflow/language/server/stream/AbstractStreamLanguageService.java:164-174 | parseStreams collects exactly the items of the specification, or throws when a parse throws |
| SegmenterFacts.RecordOk | src/main/java/org/springframework/cloud/dataflow/language/server/stream/AbstractStreamLanguageService.java:245-252 | storing a tagged line keeps every stored line tagged |
| SegmenterFacts.MarkerLineOk | src/main/java/org/springframework/cloud/dataflow/language/server/stream/AbstractStreamLanguageService.java:233-261 | a marker line stores only lines whose token sits at their content start |
| SegmenterFacts.SeparatorLineOk | src/main/java/org/springframework/cloud/dataflow/language/server/stream/AbstractStreamLanguageService.java:263-274 | a stored block is never empty |
| SegmenterFacts.StepOk | src/main/java/org/springframework/cloud/dataflow/language/server/stream/AbstractStreamLanguageService.java:220-277 | one line read keeps the state well formed |
| SegmenterFacts.DefinitionItemOk | src/main/java/org/springframework/cloud/dataflow/language/server/stream/AbstractStreamLanguageService.java:196-219 | an item closed by a definition line is well formed |
| SegmenterFacts.ScanToOk | src/main/java/org/springframework/cloud/dataflow/language/server/stream/AbstractStreamLanguageService.java:192-278 | every state the loop reaches is well formed |
| SegmenterFacts.CloseAtOk | src/main/java/org/springframework/cloud/dataflow/language/server/stream/AbstractStreamLanguageService.java:196-219 | the emitted item is well formed |
| SegmenterFacts.ScanFromOk | src/main/java/org/springframework/cloud/dataflow/language/server/stream/AbstractStreamLanguageService.java:176-295 | the item of a search is well formed |
| SegmenterFacts.ItemsOk | src/main/java/org/springframework/cloud/dataflow/language/server/stream/AbstractStreamLanguageService.java:164-174 | every item of a document has non-empty blocks and tagged metadata lines |
| SegmenterShape.FirstItem | src/main/java/org/springframework/cloud/dataflow/language/server/stream/AbstractStreamLanguageService.java:192-288 | the first item spans the search start through the next definition line, or is the metadata-only item when no definition line is left |
| SegmenterShape.ItemsCoverDefinitions | src/main/java/org/springframework/cloud/dataflow/language/server/stream/AbstractStreamLanguageService.java:164-219 | every definition line is the definition range of some item |
| SegmenterShape.ScanFromEnd | src/main/java/org/springframework/cloud/dataflow/language/server/stream/AbstractStreamLanguageService.java:192 | a search from the end of the document finds nothing |
| SegmenterShape.EmptyDocument | src/main/java/org/springframework/cloud/dataflow/language/server/stream/AbstractStreamLanguageService.java:164-174 | an empty document has no items |
| SegmenterShape.TrailingItemLast | src/main/java/org/springframework/cloud/dataflow/language/server/stream/AbstractStreamLanguageService.java:280-288 | only the last item can lack a definition |
| SegmenterShape.ItemsNeverThrow | src/main/java/org/springframework/cloud/dataflow/language/server/stream/AbstractStreamLanguageService.java:314-334 | when definition parses report errors as problems, segmenting never throws |
| SegmenterShape.ItemsHold | src/main/java/org/springframework/cloud/dataflow/language/server/stream/AbstractStreamLanguageService.java:164-174 | a property of the item every search finds holds of every item of the segmentation |
| SegmenterShape.ItemsFromMapped | src/main/java/org/springframework/cloud/dataflow/language/server/stream/AbstractStreamLanguageService.java:314-334 | two delegates whose every search finds the same item up to a range-preserving map segment the whole document alike up to that map |
| SegmenterComments.ExtendRun | src/main/java/org/springframework/cloud/dataflow/language/server/stream/AbstractStreamLanguageService.java:226 | a comment line extends the open run to the end of that line |
| SegmenterComments.OpenRun | src/main/java/org/springframework/cloud/dataflow/language/server/stream/AbstractStreamLanguageService.java:224 | a comment line with no run open opens a run over that line |
| SegmenterComments.CloseRun | src/main/java/org/springframework/cloud/dataflow/language/server/stream/AbstractStreamLanguageService.java:228-231 | any other line closes the open run, which is stored |
| SegmenterComments.TrackCommentTracked | src/main/java/org/springframework/cloud/dataflow/language/server/stream/AbstractStreamLanguageService.java:222-231 | comment tracking keeps the comment variables equal to the runs read so far |
| SegmenterComments.ScanToComments | src/main/java/org/springframework/cloud/dataflow/language/server/stream/AbstractStreamLanguageService.java:192-278 | every state of the stream scanner tracks the comment runs of the lines read |
| SegmenterComments.StreamItemComments | src/main/java/org/springframework/cloud/dataflow/language/server/stream/AbstractStreamLanguageService.java:290-292 | an item's comment ranges are closed maximal runs of `#` lines, in order, before its last line |
| SegmenterComments.UntrackedNoComments | src/main/java/org/springframework/cloud/dataflow/language/server/task/AbstractTaskLanguageService.java:236-262 | the task scanner records no comment range |
| SegmenterComments.TaskItemComments | src/main/java/org/springframework/cloud/dataflow/language/server/task/AbstractTaskLanguageService.java:192-299 | task items carry no comment ranges |
| Metadata.ValueAfter | src/main/java/org/springframework/cloud/dataflow/language/server/stream/StreamLanguageLenser.java:134-144 | reading the value past a token throws exactly when the cut lies past the line's end; the value is trimmed |
| Metadata.ValueAfterInBounds | src/main/java/org/springframework/cloud/dataflow/language/server/stream/StreamLanguageLenser.java:134-144 | within bounds the value is the trimmed rest of the line |
| Metadata.TokenValue | src/main/java/org/springframework/cloud/dataflow/language/server/stream/StreamLanguageLenser.java:146-156 | on a scanner line the value past its own token is always defined |
| Metadata.SlotValue | src/main/java/org/springframework/cloud/dataflow/language/server/stream/StreamLanguageLenser.java:134-144 | a slot's value exists exactly when the slot is filled |
| Metadata.TokenFirst | src/main/java/org/springframework/cloud/dataflow/language/server/task/TaskLanguageLenser.java:184 | on a scanner line no earlier offset holds the token, so a search for it finds the content start |
| Lenses.FirstLetterOrDigit | src/main/java/org/springframework/cloud/dataflow/language/server/stream/StreamLanguageLenser.java:191-198 | the first letter or digit of the text, and -1 exactly when there is none |
| Lenses.PropertyOf | src/main/java/org/springframework/cloud/dataflow/language/server/stream/StreamLanguageLenser.java:173-189 | a property exists only with an `=` in the line; key and value are trimmed |
| Lenses.PropertyUpdates | src/main/java/org/springframework/cloud/dataflow/language/server/stream/StreamLanguageLenser.java:173-189 | one property reading per `@prop` line, in order |
| Lenses.AssignLastWins | src/main/java/org/springframework/cloud/dataflow/language/server/stream/StreamLanguageLenser.java:180-186 | a key is in the properties exactly when some line sets it, with the value of the last line that does |
| Lenses.ReadProperty | src/main/java/org/springframework/cloud/dataflow/language/server/stream/StreamLanguageLenser.java:176-185 | the loop reads the property of one line |
| Lenses.DeploymentProperties | src/main/java/org/springframework/cloud/dataflow/language/server/task/TaskLanguageLenser.java:164-180 | the loop builds the map of the specification |
| Lenses.ArgOf | src/main/java/org/springframework/cloud/dataflow/language/server/task/TaskLanguageLenser.java:181-192 | an argument is read exactly when the line contains `@arg` |
| Lenses.ArgsOf | src/main/java/org/springframework/cloud/dataflow/language/server/task/TaskLanguageLenser.java:181-192 | at most one argument per `@arg` line |
| Lenses.CommandLineArgs | src/main/java/org/springframework/cloud/dataflow/language/server/task/TaskLanguageLenser.java:181-192 | the loop collects the arguments of the specification |
| Lenses.PresentAll | src/main/java/org/springframework/cloud/dataflow/language/server/task/TaskLanguageLenser.java:181-192 | when every line gives an argument, the arguments are all kept in order |
| Lenses.ArgsOfTagged | src/main/java/org/springframework/cloud/dataflow/language/server/task/TaskLanguageLenser.java:181-192 | on scanner lines every `@arg` line gives its token value, in order |
| StreamService.NameRange | src/main/java/org/springframework/cloud/dataflow/language/server/stream/AbstractStreamLanguageService.java:319-325 | the range of the first occurrence of the parsed name on the line; none when the name is missing, blank or not in the text |
| StreamService.StreamDefinition | src/main/java/org/springframework/cloud/dataflow/language/server/stream/AbstractStreamLanguageService.java:314-334 | a line gives a node or a problem, never both; the problem sits at the error position of that line |
| StreamService.OldStreamDefinition | src/main/java/org/springframework/cloud/dataflow/language/server/stream/AbstractDataflowStreamLanguageService.java:318-337 | the older revision records no name range and puts problems on line 0 |
| StreamService.StreamItemsNeverThrow | src/main/java/org/springframework/cloud/dataflow/language/server/stream/AbstractStreamLanguageService.java:326-332 | both stream services catch every parse error, so segmenting never throws |
| StreamService.DocumentItems | src/main/java/org/springframework/cloud/dataflow/language/server/stream/AbstractStreamLanguageService.java:152-174 | the items of a stream document are well formed |
| StreamService.OldDocumentItems | src/main/java/org/springframework/cloud/dataflow/language/server/stream/AbstractDataflowStreamLanguageService.java:156-178 | the older revision's items are well formed |
| StreamService.OldStreamItems | src/main/java/org/springframework/cloud/dataflow/language/server/stream/AbstractDataflowStreamLanguageService.java:180-337 | the older revision's items are the newer ones without name ranges and with problems on line 0 |
| StreamService.BareEnvItems | src/main/java/org/springframework/cloud/dataflow/language/server/stream/AbstractStreamLanguageService.java:245-246 | a bare `# @env` line above `time \| log` gives one item over both lines, with that line as its environment |
| StreamService.BareEnvLineThrows | src/main/java/org/springframework/cloud/dataflow/language/server/stream/AbstractStreamLanguageService.java:117-144 | the environment lookup of such a document throws, and so does the request for its environment; the guarded lookup finds none |
| TaskService.NameAssignment | src/main/java/org/springframework/cloud/dataflow/language/server/task/AbstractTaskLanguageService.java:301-317 | a name prefix exists exactly when the line has `=`; it runs through the first `=` |
| TaskService.ParseName | src/main/java/org/springframework/cloud/dataflow/language/server/task/AbstractTaskLanguageService.java:301-317 | the loop returns that prefix |
| TaskService.ParseNameOld | src/main/java/org/springframework/cloud/dataflow/language/server/task/AbstractDataflowTaskLanguageService.java:243-256 | the older parse throws exactly on an empty line |
| TaskService.DefinitionLineName | src/main/java/org/springframework/cloud/dataflow/language/server/task/AbstractDataflowTaskLanguageService.java:243-256 | on a definition line both revisions agree |
| TaskService.InlineName | src/main/java/org/springframework/cloud/dataflow/language/server/task/AbstractTaskLanguageService.java:324-332 | the inline name is trimmed and strictly shorter than the trimmed prefix, which loses its `=` |
| TaskService.InlineNameHasNoEquals | src/main/java/org/springframework/cloud/dataflow/language/server/task/AbstractTaskLanguageService.java:324-332 | the name prefix has text, and the inline name holds no `=` |
| TaskService.InlineNameHasText | src/main/java/org/springframework/cloud/dataflow/language/server/task/AbstractTaskLanguageService.java:324-332 | on a definition line with an `=`, the inline name is never blank |
| TaskService.NameFromItem | src/main/java/org/springframework/cloud/dataflow/language/server/task/AbstractTaskLanguageService.java:333-340 | a `@name` line gives a trimmed name only when text follows the token |
| TaskService.NameFromItemOld | src/main/java/org/springframework/cloud/dataflow/language/server/task/AbstractDataflowTaskLanguageService.java:272-277 | the older fallback throws exactly when the line ends before the token's end plus one |
| TaskService.TaskNameChoice | src/main/java/org/springframework/cloud/dataflow/language/server/task/AbstractTaskLanguageService.java:324-340 | the inline name wins over the `@name` line |
| TaskService.DefinitionBody | src/main/java/org/springframework/cloud/dataflow/language/server/task/AbstractTaskLanguageService.java:324-332 | the definition is the line with the name prefix removed |
| TaskService.NamedDefinition | src/main/java/org/springframework/cloud/dataflow/language/server/task/AbstractTaskLanguageService.java:341-366 | without a name the parser is not called and the problem "Task Definition must have a name" sits at column 0 |
| TaskService.NoNameNoParse | src/main/java/org/springframework/cloud/dataflow/language/server/task/AbstractTaskLanguageService.java:341-347 | without a name the result does not depend on the parser |
| TaskService.TaskDefinition | src/main/java/org/springframework/cloud/dataflow/language/server/task/AbstractTaskLanguageService.java:324-366 | a line gives a node or a problem, never both, and no name range; with an `=` the parser gets the inline name and the text after the prefix; without one, a `@name` line reaching past six characters after its content start gives the trimmed name and the whole line; otherwise the no-name problem at column 0 and no node |
| TaskService.OldTaskDefinition | src/main/java/org/springframework/cloud/dataflow/language/server/task/AbstractDataflowTaskLanguageService.java:258-303 | the older revision throws exactly on an empty line, or when the name must come from a `@name` line ending before six characters past its content start; otherwise a node or a problem, never both |
| TaskService.OldTaskDefinitionAgrees | src/main/java/org/springframework/cloud/dataflow/language/server/task/AbstractDataflowTaskLanguageService.java:258-303 | the older revision throws exactly on an empty line or a short `@name` line; otherwise it gives the newer result, except on a `@name` line ending exactly six characters past its content start, which `TaskService.OldTaskDefinitionAtCut` covers |
| TaskService.OldTaskDefinitionAtCut | src/main/java/org/springframework/cloud/dataflow/language/server/task/AbstractDataflowTaskLanguageService.java:272-277 | on a `@name` line ending exactly six characters past its content start, such as `-- @name ` with one trailing space, the older revision parses with the empty name where the newer one reports "Task Definition must have a name" |
| TaskService.TaskItemsNeverThrow | src/main/java/org/springframework/cloud/dataflow/language/server/task/AbstractTaskLanguageService.java:163-173 | the newer task service never throws while segmenting |
| TaskService.BareNameLineThrows | src/main/java/org/springframework/cloud/dataflow/language/server/task/AbstractDataflowTaskLanguageService.java:272-277 | a bare `-- @name` above `timestamp` makes the older revision throw |
| TaskService.BareNameLineProblem | src/main/java/org/springframework/cloud/dataflow/language/server/task/AbstractTaskLanguageService.java:333-347 | the newer revision gives one item with the no-name problem on the definition line |
| Environment.EnvNameAsWritten | src/main/java/org/springframework/cloud/dataflow/language/server/stream/AbstractStreamLanguageService.java:133-135 | reading the `@env` value throws exactly when the line ends before the token does |
| Environment.EnvName | src/main/java/org/springframework/cloud/dataflow/language/server/stream/AbstractStreamLanguageService.java:133-135 | the guarded read is trimmed, and empty when no text follows the token |
| Environment.EnvNameAgrees | src/main/java/org/springframework/cloud/dataflow/language/server/stream/AbstractStreamLanguageService.java:133-135 | when the original read succeeds, the guarded read gives the same value |
| Environment.DefinedEnvironment | src/main/java/org/springframework/cloud/dataflow/language/server/task/AbstractTaskLanguageService.java:124-143 | the environment of the first item whose range holds the position and whose `@env` has a value; none exactly when no item applies |
| Environment.DefinedEnvironmentAsWritten | src/main/java/org/springframework/cloud/dataflow/language/server/task/AbstractTaskLanguageService.java:124-143 | the lookup shared by the three services that have one (the newer and the older stream service, and the newer task service), which goes on past an item whose `@env` is blank; a value it returns is never blank |
| Environment.ResolveDefinedEnvironmentName | src/main/java/org/springframework/cloud/dataflow/language/server/task/AbstractTaskLanguageService.java:124-143 | the loop computes that lookup as written |
| Environment.DefinedEnvironmentAgrees | src/main/java/org/springframework/cloud/dataflow/language/server/task/AbstractTaskLanguageService.java:124-143 | when that lookup does not throw, it equals the guarded one |
| Environment.ResolveStreamEnvironment | src/main/java/org/springframework/cloud/dataflow/language/server/stream/AbstractStreamLanguageService.java:117-144 | the request throws exactly when the lookup throws; otherwise the defined environment wins, else the default of the parameters |
| Environment.ResolveTaskEnvironment | src/main/java/org/springframework/cloud/dataflow/language/server/task/AbstractTaskLanguageService.java:116-143 | the same for the newer task service, with no default when there are no parameters |
| ParseCache.CacheKey | src/main/java/org/springframework/cloud/dataflow/language/server/stream/AbstractStreamLanguageService.java:153 | the key is the uri, then `#`, then the version |
| ParseCache.CacheKeyInjective | src/main/java/org/springframework/cloud/dataflow/language/server/stream/AbstractStreamLanguageService.java:153 | two documents share a key only when uri and version are equal |
| ParseCache.ItemCache.constructor | src/main/java/org/springframework/cloud/dataflow/language/server/support/DataflowCacheService.java:37-44 | a new cache is empty |
| ParseCache.ItemCache.Get | src/main/java/org/springframework/cloud/dataflow/language/server/stream/AbstractStreamLanguageService.java:152-158 | the result is the segmentation of the document, provided a `uri#version` key is never reused for other content (the client raises the version on every change); a cached entry is returned unchanged, otherwise it is stored |
| Symbols.NameOrUnnamed | src/main/java/org/springframework/cloud/dataflow/language/server/stream/StreamLanguageSymbolizer.java:121 | a missing name becomes `[unnamed]` |
| Symbols.FlattenMembers | src/main/java/org/springframework/cloud/dataflow/language/server/stream/StreamLanguageSymbolizer.java:97 | the flat symbol list holds every member of every symbol |
| StreamLenser.StreamName | src/main/java/org/springframework/cloud/dataflow/language/server/stream/StreamLanguageLenser.java:119-132 | a parsed name with text wins, otherwise the `@name` value |
| StreamLenser.BlockEnvironment | src/main/java/org/springframework/cloud/dataflow/language/server/stream/StreamLanguageLenser.java:158-171 | a block's own `@env` value wins when it has text, otherwise the definition's |
| StreamLenser.BlockLens | src/main/java/org/springframework/cloud/dataflow/language/server/stream/StreamLanguageLenser.java:51-66 | a deploy lens on the block's first line carrying the block's properties |
| StreamLenser.DefinitionLenses | src/main/java/org/springframework/cloud/dataflow/language/server/stream/StreamLanguageLenser.java:68-113 | a parsed definition gets create, destroy, deploy and undeploy, in that order; create carries the text from the stream's start |
| StreamLenser.BlockLenses | src/main/java/org/springframework/cloud/dataflow/language/server/stream/StreamLanguageLenser.java:45-49 | one deploy lens per block, in order |
| StreamLenser.ItemLenses | src/main/java/org/springframework/cloud/dataflow/language/server/stream/StreamLanguageLenser.java:45-49 | the block lenses come first, then the definition's four |
| StreamLenser.LensesOfCount | src/main/java/org/springframework/cloud/dataflow/language/server/stream/StreamLanguageLenser.java:45-49 | the lens count is the blocks plus four per parsed definition |
| StreamLenser.Lense | src/main/java/org/springframework/cloud/dataflow/language/server/stream/StreamLanguageLenser.java:45-49 | one lens per block plus four per parsed definition; an empty document has none |
| TaskLenser.TaskName | src/main/java/org/springframework/cloud/dataflow/language/server/task/TaskLanguageLenser.java:110-123 | a parsed name with text wins, otherwise the `@name` value |
| TaskLenser.BlockEnvironment | src/main/java/org/springframework/cloud/dataflow/language/server/task/TaskLanguageLenser.java:149-162 | a block's own `@env` value wins when it has text, otherwise the definition's |
| TaskLenser.BlockLens | src/main/java/org/springframework/cloud/dataflow/language/server/task/TaskLanguageLenser.java:51-67 | a launch lens on the block's first line, with its properties and one argument per `@arg` line |
| TaskLenser.DefinitionLenses | src/main/java/org/springframework/cloud/dataflow/language/server/task/TaskLanguageLenser.java:69-104 | a parsed definition gets create, destroy and launch, in that order; no node gives none |
| TaskLenser.BlockLenses | src/main/java/org/springframework/cloud/dataflow/language/server/task/TaskLanguageLenser.java:45-49 | one launch lens per block, in order |
| TaskLenser.ItemLenses | src/main/java/org/springframework/cloud/dataflow/language/server/task/TaskLanguageLenser.java:45-49 | the block lenses come first, then the definition's three |
| TaskLenser.LensesOfCount | src/main/java/org/springframework/cloud/dataflow/language/server/task/TaskLanguageLenser.java:45-49 | the lens count is the blocks plus three per parsed definition |
| TaskLenser.DocumentItems | src/main/java/org/springframework/cloud/dataflow/language/server/task/AbstractTaskLanguageService.java:155-173 | the items of a task document are well formed |
| TaskLenser.Lense | src/main/java/org/springframework/cloud/dataflow/language/server/task/TaskLanguageLenser.java:45-49 | one lens per block plus three per parsed definition; an empty document has none |
| TaskLenser.BareNameNoDefinitionLenses | src/main/java/org/springframework/cloud/dataflow/language/server/task/TaskLanguageLenser.java:70-73 | a nameless definition gets no lenses |
| StreamSymbolizer.AppKind | src/main/java/org/springframework/cloud/dataflow/language/server/stream/StreamLanguageSymbolizer.java:148-172 | the first app is a source unless the stream reads a destination; the last is a sink when it is not that source |
| StreamSymbolizer.AppSymbol | src/main/java/org/springframework/cloud/dataflow/language/server/stream/StreamLanguageSymbolizer.java:148-180 | an app symbol spans the app on the definition line and has one member per argument |
| StreamSymbolizer.AppSymbols | src/main/java/org/springframework/cloud/dataflow/language/server/stream/StreamLanguageSymbolizer.java:148-180 | one symbol per app, in order |
| StreamSymbolizer.DestinationRefs | src/main/java/org/springframework/cloud/dataflow/language/server/stream/StreamLanguageSymbolizer.java:183-203 | two references exactly when the source destination splits on `.` into two pieces |
| StreamSymbolizer.MetaNameAsWritten | src/main/java/org/springframework/cloud/dataflow/language/server/stream/StreamLanguageSymbolizer.java:133-144 | reading the `@name` symbol throws exactly when the cut lies past the line's end |
| StreamSymbolizer.MetaName | src/main/java/org/springframework/cloud/dataflow/language/server/stream/StreamLanguageSymbolizer.java:133-144 | the guarded `@name` symbol ends at the line's end and names the text it covers |
| StreamSymbolizer.MetaNameAgrees | src/main/java/org/springframework/cloud/dataflow/language/server/stream/StreamLanguageSymbolizer.java:133-144 | both agree, and the original throws exactly on a bare `@name` |
| StreamSymbolizer.StreamSymbolWith | src/main/java/org/springframework/cloud/dataflow/language/server/stream/StreamLanguageSymbolizer.java:121-132 | the stream symbol is named like the lenses name it, spans the stream, and holds the name symbol, the apps and the references |
| StreamSymbolizer.ItemScope | src/main/java/org/springframework/cloud/dataflow/language/server/stream/StreamLanguageSymbolizer.java:104-180 | a scope exactly for a parsed item, nesting the metadata scope and the stream scope |
| StreamSymbolizer.ItemScopeAgrees | src/main/java/org/springframework/cloud/dataflow/language/server/stream/StreamLanguageSymbolizer.java:104-180 | when the original does not throw, it builds the guarded scope |
| StreamSymbolizer.ItemScopeThrows | src/main/java/org/springframework/cloud/dataflow/language/server/stream/StreamLanguageSymbolizer.java:133-144 | an item's scope throws exactly on a bare `@name` line |
| StreamSymbolizer.ScopesOf | src/main/java/org/springframework/cloud/dataflow/language/server/stream/StreamLanguageSymbolizer.java:104-108 | at most one scope per item |
| StreamSymbolizer.ParsedItems | src/main/java/org/springframework/cloud/dataflow/language/server/stream/StreamLanguageSymbolizer.java:104-108 | exactly the items whose definition parsed |
| StreamSymbolizer.ParsedItemsAppend | src/main/java/org/springframework/cloud/dataflow/language/server/stream/StreamLanguageSymbolizer.java:104-108 | the parsed items keep item order: those of two runs of items are those of the first, then those of the second |
| StreamSymbolizer.ScopesOfParsed | src/main/java/org/springframework/cloud/dataflow/language/server/stream/StreamLanguageSymbolizer.java:102-110 | one scope per parsed item: the j-th scope is the scope of the j-th parsed item |
| StreamSymbolizer.TableAgrees | src/main/java/org/springframework/cloud/dataflow/language/server/stream/StreamLanguageSymbolizer.java:102-206 | when buildTable does not throw, it builds the guarded table |
| StreamSymbolizer.TableThrows | src/main/java/org/springframework/cloud/dataflow/language/server/stream/StreamLanguageSymbolizer.java:102-206 | buildTable throws exactly when some item has a bare `@name` line |
| StreamSymbolizer.BuildTable | src/main/java/org/springframework/cloud/dataflow/language/server/stream/StreamLanguageSymbolizer.java:102-206 | the loop computes buildTable as written, ending with the exception at the first bare `@name` line |
| StreamSymbolizer.SigilKind | src/main/java/org/springframework/cloud/dataflow/language/server/stream/StreamLanguageSymbolizer.java:235-262 | the characters `<`, `^`, `>` and `@` each select a symbol kind |
| StreamSymbolizer.Select | src/main/java/org/springframework/cloud/dataflow/language/server/stream/StreamLanguageSymbolizer.java:231-267 | a symbol is kept exactly when the query matches it |
| StreamSymbolizer.SelectAppend | src/main/java/org/springframework/cloud/dataflow/language/server/stream/StreamLanguageSymbolizer.java:231-267 | selecting keeps the symbols' order: the selection of two runs of symbols is that of the first, then that of the second |
| StreamSymbolizer.Symbolize | src/main/java/org/springframework/cloud/dataflow/language/server/stream/StreamLanguageSymbolizer.java:93-100 | no or a blank query lists every symbol; otherwise exactly the matching symbols, kept in table order as `StreamSymbolizer.SelectAppend` states |
| StreamSymbolizer.SymbolizeDocument | src/main/java/org/springframework/cloud/dataflow/language/server/stream/StreamLanguageSymbolizer.java:93-100 | the request fails exactly when some parsed item has a bare `@name` line; otherwise the query selects from the guarded table |
| StreamSymbolizer.BareNameMeta | src/main/java/org/springframework/cloud/dataflow/language/server/stream/StreamLanguageSymbolizer.java:133-144 | on `# @name` the original throws and the guarded symbol is empty, at column 7 |
| StreamSymbolizer.BareNameTableThrows | src/main/java/org/springframework/cloud/dataflow/language/server/stream/StreamLanguageSymbolizer.java:133-144 | the document `# @name` above `time \| log` makes buildTable throw |
| StreamRenamer.FindSymbol | src/main/java/org/springframework/cloud/dataflow/language/server/stream/StreamLanguageRenamer.java:77-83 | the first symbol, other than a stream symbol, whose range holds the position; none exactly when none does |
| StreamRenamer.Namesakes | src/main/java/org/springframework/cloud/dataflow/language/server/stream/StreamLanguageRenamer.java:56-60 | exactly the renameable symbols with the target's name |
| StreamRenamer.Edits | src/main/java/org/springframework/cloud/dataflow/language/server/stream/StreamLanguageRenamer.java:65-68 | every namesake gets an edit to the new name, and every edit is over a namesake |
| StreamRenamer.BuildEdits | src/main/java/org/springframework/cloud/dataflow/language/server/stream/StreamLanguageRenamer.java:51-75 | no edits exactly when nothing renameable is at the position; otherwise the target's own edit is included, for the document's uri and version |
| StreamRenamer.Rename | src/main/java/org/springframework/cloud/dataflow/language/server/stream/StreamLanguageRenamer.java:41-46 | the request fails exactly when building the table throws on a bare `@name` line; otherwise it gives the edits over the guarded table |
| TaskSymbolizer.ItemScope | src/main/java/org/springframework/cloud/dataflow/language/server/task/TaskLanguageSymbolizer.java:73-88 | a scope exactly for a parsed item, holding the task symbol over the task |
| TaskSymbolizer.ParsedItems | src/main/java/org/springframework/cloud/dataflow/language/server/task/TaskLanguageSymbolizer.java:72-76 | exactly the items whose definition parsed |
| TaskSymbolizer.ParsedItemsAppend | src/main/java/org/springframework/cloud/dataflow/language/server/task/TaskLanguageSymbolizer.java:72-76 | the parsed items keep item order: those of two runs of items are those of the first, then those of the second |
| TaskSymbolizer.ScopesOfParsed | src/main/java/org/springframework/cloud/dataflow/language/server/task/TaskLanguageSymbolizer.java:71-91 | one scope per parsed item: the j-th scope is the scope of the j-th parsed item |
| TaskSymbolizer.BuildTable | src/main/java/org/springframework/cloud/dataflow/language/server/task/TaskLanguageSymbolizer.java:71-91 | the loop builds one scope per parsed item, in order |
| TaskSymbolizer.TaskSymbolsCount | src/main/java/org/springframework/cloud/dataflow/language/server/task/TaskLanguageSymbolizer.java:71-91 | the table has as many scopes as there are parsed items |
| StreamFolder.RegionFold | src/main/java/org/springframework/cloud/dataflow/language/server/stream/DataflowStreamLanguageFolderer.java:40-58 | the region starts on the item's first line, or below the comment run starting there, and ends where the item ends |
| StreamFolder.CommentFolds | src/main/java/org/springframework/cloud/dataflow/language/server/stream/DataflowStreamLanguageFolderer.java:60-72 | one comment fold per comment range, spanning it exactly |
| StreamFolder.ItemFolds | src/main/java/org/springframework/cloud/dataflow/language/server/stream/DataflowStreamLanguageFolderer.java:33-38 | an item's region first, then its comments |
| StreamFolder.FoldsOfCount | src/main/java/org/springframework/cloud/dataflow/language/server/stream/DataflowStreamLanguageFolderer.java:33-38 | one fold per item plus one per comment range |
| StreamFolder.Fold | src/main/java/org/springframework/cloud/dataflow/language/server/stream/DataflowStreamLanguageFolderer.java:33-38 | one fold per item plus one per comment range; an empty document has none |
| StreamFolder.ItemsCommentsClosed | src/main/java/org/springframework/cloud/dataflow/language/server/stream/DataflowStreamLanguageFolderer.java:60-72 | every comment range covers comment lines only and ends above its item's last line |
| StreamFolder.FoldsSkipLeadingComments | src/main/java/org/springframework/cloud/dataflow/language/server/stream/DataflowStreamLanguageFolderer.java:43-48 | a region never starts inside a comment run and never past its item's end |
| StreamLinter.DefinitionProblem | src/main/java/org/springframework/cloud/dataflow/language/server/stream/StreamLanguageLinter.java:37-39 | the definition line's problem, if it reported one |
| StreamLinter.NameProblem | src/main/java/org/springframework/cloud/dataflow/language/server/stream/StreamLanguageLinter.java:41-54 | "Stream name missing" over the item exactly when the parsed name has no text and there is no non-empty `@name` line |
| StreamLinter.ItemProblems | src/main/java/org/springframework/cloud/dataflow/language/server/stream/StreamLanguageLinter.java:31-35 | an item's definition problem first, then its name problem |
| StreamLinter.Lint | src/main/java/org/springframework/cloud/dataflow/language/server/stream/StreamLanguageLinter.java:31-35 | at most two problems per item; an empty document has none |
| StreamLinter.NameLineSilences | src/main/java/org/springframework/cloud/dataflow/language/server/stream/StreamLanguageLinter.java:47-52 | any `@name` line the scanner stored silences the name problem |
| StreamLinter.ProblemsOrigin | src/main/java/org/springframework/cloud/dataflow/language/server/stream/StreamLanguageLinter.java:31-54 | every problem is a definition line's or a missing name's |
| StreamLinter.ProblemsOfBound | src/main/java/org/springframework/cloud/dataflow/language/server/stream/StreamLanguageLinter.java:31-35 | at most two problems per item |
| Completion.InterestingStart | src/main/java/org/springframework/cloud/dataflow/language/server/stream/StreamLanguageCompletioner.java:80-87 | the word being typed starts after the last whitespace past offset 0, else at 0 |
| Completion.InterestingPrefixStart | src/main/java/org/springframework/cloud/dataflow/language/server/stream/StreamLanguageCompletioner.java:80-87 | the backward scan finds that start |
| Completion.CommonPrefixOf | src/main/java/org/springframework/cloud/dataflow/language/server/stream/StreamLanguageCompletioner.java:89-97 | a prefix of both strings that no longer common prefix extends |
| Completion.CommonPrefix | src/main/java/org/springframework/cloud/dataflow/language/server/stream/StreamLanguageCompletioner.java:89-97 | the scan returns the longest common prefix |
| Completion.Label | src/main/java/org/springframework/cloud/dataflow/language/server/stream/StreamLanguageCompletioner.java:73-78 | the label is the suffix of the proposal past what it shares with the text before the word |
| Completion.ResultLabel | src/main/java/org/springframework/cloud/dataflow/language/server/stream/StreamLanguageCompletioner.java:73-78 | the two scans compute that label |
| Completion.PrefixRange | src/main/java/org/springframework/cloud/dataflow/language/server/stream/StreamLanguageCompletioner.java:45 | the range runs from the line start to the cursor |
| Completion.ItemOf | src/main/java/org/springframework/cloud/dataflow/language/server/stream/StreamLanguageCompletioner.java:51-65 | the item replaces the typed text by the whole proposal, filters on it, and shows a suffix of it |
| Completion.Complete | src/main/java/org/springframework/cloud/dataflow/language/server/stream/StreamLanguageCompletioner.java:37-71 | no service gives nothing; otherwise one item per proposal, in order |
| Completion.LabelWithinApp | src/test/java/org/springframework/cloud/dataflow/language/server/stream/StreamLanguageCompletionerTests.java:73-90 | typing `ticktock = ti` labels the proposal `time` |
| Completion.LabelAfterApp | src/test/java/org/springframework/cloud/dataflow/language/server/stream/StreamLanguageCompletionerTests.java:91-135 | after `ticktock = time ` the label is `--time-unit=` |
| AppService.AppKey | src/main/java/org/springframework/cloud/dataflow/language/server/app/AbstractAppLanguageService.java:56-57 | the key is type, name and version run together |
| AppService.Register | src/main/java/org/springframework/cloud/dataflow/language/server/app/AbstractAppLanguageService.java:52-59 | a registration covers the key part of the line, which holds no `=`; type and name hold no `.`; the version is read from the uri, which holds no `=`; an app line is keyed by type, name and version |
| AppService.RegisterShape | src/main/java/org/springframework/cloud/dataflow/language/server/app/AbstractAppLanguageService.java:52-59 | a line registers exactly when it splits on `=` into two pieces and its key into two dot pieces (app) or three (metadata); type and name are the first two key pieces, the version is read from the uri, the range covers the key |
| AppService.Create | src/main/java/org/springframework/cloud/dataflow/language/server/app/AbstractAppLanguageService.java:60-62 | a new entry takes the line's type, name and version |
| AppService.Update | src/main/java/org/springframework/cloud/dataflow/language/server/app/AbstractAppLanguageService.java:63-81 | an update never changes type, name or version |
| AppService.Apply | src/main/java/org/springframework/cloud/dataflow/language/server/app/AbstractAppLanguageService.java:56-81 | a registration adds its key and nothing else; an ignored line changes nothing |
| AppService.Apps | src/main/java/org/springframework/cloud/dataflow/language/server/app/AbstractAppLanguageService.java:47-85 | no more entries than lines, and each entry is made by its key's first line and holds the last app uri and metadata uri given for it |
| AppService.ParseApps | src/main/java/org/springframework/cloud/dataflow/language/server/app/AbstractAppLanguageService.java:47-85 | the loop builds the map of the specification |
| AppService.ParseLine | src/main/java/org/springframework/cloud/dataflow/language/server/app/AbstractAppLanguageService.java:52-81 | one line applies its registration |
| AppService.Values | src/main/java/org/springframework/cloud/dataflow/language/server/app/AbstractAppLanguageService.java:84 | the entries in the map's iteration order |
| AppService.IterationOrderLength | src/main/java/org/springframework/cloud/dataflow/language/server/app/AbstractAppLanguageService.java:84 | that order lists each entry once |
| AppService.AppsAgree | src/main/java/org/springframework/cloud/dataflow/language/server/app/AbstractAppLanguageService.java:47-85 | each entry is made by its key's first line and holds the last app uri and the last metadata uri given for it |
| AppService.AppsCount | src/main/java/org/springframework/cloud/dataflow/language/server/app/AbstractAppLanguageService.java:47-85 | no more entries than lines |
| AppService.TwoEqualsIgnored | src/main/java/org/springframework/cloud/dataflow/language/server/app/AbstractAppLanguageService.java:52-53 | a line with two `=` registers nothing |
| AppService.VersionsSeparate | src/main/java/org/springframework/cloud/dataflow/language/server/app/AbstractAppLanguageService.java:55-57 | two versions of an app get two keys |
| AppService.KeysMeet | src/main/java/org/springframework/cloud/dataflow/language/server/app/AbstractAppLanguageService.java:56-57 | types and names that run together the same way share a key |
| AppLenser.EntryLenses | src/main/java/org/springframework/cloud/dataflow/language/server/app/AppLanguageLenser.java:45-65 | register with the uris, then unregister with the version, both over the app line |
| AppLenser.LensesOf | src/main/java/org/springframework/cloud/dataflow/language/server/app/AppLanguageLenser.java:40-73 | two lenses per entry, in order |
| AppLenser.Lense | src/main/java/org/springframework/cloud/dataflow/language/server/app/AppLanguageLenser.java:40-73 | two lenses per registered app |
| AppSymbolizer.EntrySymbol | src/main/java/org/springframework/cloud/dataflow/language/server/app/AppLanguageSymbolizer.java:69-84 | an app symbol over the app line with a uri member and a metadata member |
| AppSymbolizer.Table | src/main/java/org/springframework/cloud/dataflow/language/server/app/AppLanguageSymbolizer.java:66-87 | one scope per entry holding its symbol |
| AppSymbolizer.BuildTable | src/main/java/org/springframework/cloud/dataflow/language/server/app/AppLanguageSymbolizer.java:66-87 | the loop builds that table |
| AppSymbolizer.TableSymbols | src/main/java/org/springframework/cloud/dataflow/language/server/app/AppLanguageSymbolizer.java:53-64 | the table lists each app followed by its two members |
| AppSymbolizer.Symbolize | src/main/java/org/springframework/cloud/dataflow/language/server/app/AppLanguageSymbolizer.java:53-64 | three symbols per registered app, the query unused |

## Left out

- The Spring Cloud Data Flow server and its operations (`resolveDataFlowOperations`, the registered apps and streams): network calls, not part of this model.
- The completion service behind `complete`: it is a parameter that maps the typed text to proposals.
- The stream and task grammar parsers (`StreamParser`, `TaskParser`): they are parameters returning a node or an error with a position; only the node's name, range, apps, arguments and source destination are read.
- `AppService.Register`: the version is the parameter `versionOf`, a total function, so the model never throws there. The source's `getVersion` reads the `maven`, `docker`, `http` and `https` schemes and gives `""` for any other. It throws, uncaught, on a uri with no scheme, on an `http(s)` last path segment with no `.`, and on a segment that does not match `(.*)-(\d)(.*?)`. It is called on every line with one `=`, before the dot count of the key is checked.
- `AppService.Apps`, `AppService.ParseApps`: built on `AppService.Register`, they never throw; in the source a single line whose uri `getVersion` cannot read makes the whole manifest fail.
- The Caffeine cache's expiry and size policy: the cache is a map that keeps every entry.
- Reactor (`Mono`, `Flux`) plumbing, logging, and the JSON-RPC session attributes: the operations are modelled as the values they produce.
- The symbol table library (`DefaultSymbolTable`, `LocalScope`, `DocumentSymbolTableVisitor`): scopes are a tree datatype, and listing its symbols is a pre-order flattening of scopes, symbols and their members.
- `StreamRuntimeLanguageLenser` and the debug commands: they read the live state of the server.
- `TaskLanguageLinter.checkName`: it asks the server's app registry, a network call. The app linter always reports nothing and is not part of this model.
- `AppSymbolizer.EntrySymbol`: an entry's name is always a piece of its key line, so the source's `[unnamed]` fallback for a missing name never applies.
- Configuration classes, controllers and the data-transfer objects: not part of this model.
- Character classes (`Character.isWhitespace`, `isLetterOrDigit`) and `String.toLowerCase`, used by the case-insensitive symbol query, are ASCII only; the document is a sequence of lines with no line terminators.
- `AppService.Values`: Java's `HashMap` iteration order is not specified; the model takes it as a parameter `order` listing every key once.
- `AppService.Apply`: entries are updated in place through setters in the source; the model replaces the entry in the map, since no other reference to an entry is kept.
- `StreamRenamer.FindSymbol`: a symbol with no range never holds the position.
- `TaskSymbolizer` and `AppSymbolizer`: the query is not used by the source, so every symbol is listed.
- `StreamLinter.NameProblem` checks the length of the `@name` line, not its value, so a `@name` line with no value silences the missing-name problem; the model keeps this.
- `ParseCache.ItemCache.Get`: assumes a `uri#version` key is never reused for different content, as the editor raises the version on every change.
- `SegmenterComments.StreamItemComments`: the metadata-only last item also takes the closed comment runs of its search, as the source does.

## Findings

| source | as written | input that shows it | evidently intended | confidence | as-written member | corrected member |
|---|---|---|---|---|---|---|
| src/main/java/org/springframework/cloud/dataflow/language/server/task/AbstractDataflowTaskLanguageService.java:272-277 | the `@name` fallback takes the text from six characters past the content start, with no length check | the document `-- @name` above `timestamp`: the line is eight characters long and the cut starts at nine, so segmenting throws | no name, reported as the no-name problem, as the newer task service does | not executed | TaskService.BareNameLineThrows | TaskService.BareNameLineProblem |
| src/main/java/org/springframework/cloud/dataflow/language/server/stream/AbstractStreamLanguageService.java:133-135 | the environment name is read from five characters past the content start, with no length check | the document `# @env` above `time \| log`, asking at line 1, column 0: the line is six characters long and the cut starts at seven | a bare `@env` line sets no environment, so the lookup falls back to the default | not executed | StreamService.BareEnvLineThrows | Environment.DefinedEnvironmentAgrees |
| src/main/java/org/springframework/cloud/dataflow/language/server/stream/StreamLanguageSymbolizer.java:133-144 | the `@name` symbol's text is read from six characters past the content start, with no length check | the document `# @name` above `time \| log`: the line is seven characters long and the cut starts at eight, so building the symbol table throws | an empty `@name` symbol at the end of the line | not executed | StreamSymbolizer.BareNameTableThrows | StreamSymbolizer.MetaNameAgrees |
| src/main/java/org/springframework/cloud/dataflow/language/server/task/AbstractDataflowTaskLanguageService.java:272-277 | the `@name` fallback accepts a line that ends exactly six characters past its content start | the document `-- @name ` (one trailing space) above `timestamp`: the cut is the line's end, so the name is `""` and the parser is called with it | no name, reported as the no-name problem, as the newer task service does | not executed | TaskService.OldTaskDefinitionAtCut | TaskService.TaskDefinition |

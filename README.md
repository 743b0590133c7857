# konjure core, modelled in Dafny

konjure turns resource specifications into Kubernetes resource nodes and writes
them out. This project models four parts of it:

- **Multi-format output** (`pkg/konjure/writer.go`). The writer parses the format
  specifier and picks a strategy:
  - YAML through kyaml's byte writer, with optional vertical white space restoration;
  - JSON or NDJSON, with annotations cleared first;
  - Go templates, including the `name` and `custom-columns` formats;
  - shell variable assignments from config maps and secrets.

  The group writer indexes the nodes by a classifier and writes each group to its
  own sink.
- **The Jsonnet generator plugin** (`plugin/jsonnet/generator/jsonnet_generator.go`):
  - where the program comes from;
  - the import search path;
  - how external variables and top-level arguments become VM calls;
  - how the evaluated JSON becomes an ordered list of resources.
- **Reader composition** (`internal/readers/readers.go`):
  - choosing a reader and applying options in order;
  - picking the binary and the executor of an external tool;
  - cleaning up a failed tool's error message;
  - in-memory pipelines that hand back what their single output received.
- **kubectl argument assembly** (`pkg/pipes/kubectl.go`): the program name, the
  global flags, then the verb and its arguments.

## Modelling choices

- **Nodes.** A YAML node is the datatype `Document.Node`: kind, scalar value,
  line, head and foot comments, children, and the resource's annotation table.
  An annotation table is either a map or *malformed*; clearing an annotation
  fails on a malformed table, which is how the core's clearing error arises.
- **Libraries and the environment.** kyaml, `encoding/json`, `text/template`,
  the Jsonnet VM, the label selector, `os.Getenv`, file creation, flushing the
  output stream and process execution are all parameters. Each one that can
  fail in Go returns an error in the model, and the core logic around them
  handles that error as the source does. "## Left out" lists what is not
  followed.
- **Go map iteration.** The data map of a secret and the map of groups are
  visited in an order Go leaves unspecified. The methods pick the next key with
  `:|`. Their contracts hold for every order, and the order actually used is
  returned (`orders`, `order`), so the results can be stated against it.
- **Go library pieces.** The parts of the standard library the core relies on
  are implemented, each with its partner and a round-trip lemma:
  - `Base64`: standard-alphabet decoding as in section 4 of RFC 4648, with
    the encoder as its partner.
  - `GoQuote`: `%q` quoting, with unquoting as its partner.
  - `GoAtoi`: `strconv.Atoi` over the int64 range, with `Itoa` as its partner.
  - `GoStrings`: `Split` and `Join`, trimming, `filepath.Base`, and Go's string order.
- **Strings.** A `char` stands for one byte of a Go string.
- **Imperative code stays imperative.** Code that updates state in place is
  modelled as methods proved against the functions that specify them:
  - array updates in the JSON writer, the white space pass and the group sort;
  - the `GroupWriter` fields the writer installs its defaults into;
  - the loops that collect columns, jpath entries, parameter calls and resources.

## Behaviour of the source kept as written

These behaviours look unintended. They are modelled as the code does them, and
lemmas make each one visible.

- **The group sort compares ordinals by position.** The comparator of `indexNodes`
  reads `ordinal[group][i]` by the current position in the group. The sort, however,
  swaps the nodes and not the ordinals (pkg/konjure/writer.go:410-421).
  - `Grouping.PositionalComparatorMisorders`: a group whose ordinals are "3", "1",
    "2" comes out as b, a, c, so the node with ordinal 3 ends up ahead of the node
    with ordinal 2.
  - What holds, and is proved, is that every group is a permutation of its members.
  - `Grouping.ComparatorNotTransitive`: the comparator is not transitive on mixed
    ordinals.
- **The code-file parameter never names the file.** `processParameters` formats
  `p.StringFile` in the `CodeFile` branch, and that field is empty there
  (plugin/jsonnet/generator/jsonnet_generator.go:125-126).
  `Jsonnet.CodeFileImportsNothing` proves that the call is always `import @''`.
- **`GroupWriter.Write` installs its defaults into the writer itself.** After
  the first call the classifier is no longer nil. A second call therefore no
  longer adds the path and index annotations to the clear list.
  `GroupOutput.GroupWriter.Write` states that the new classifier is set and which
  clear list each call uses.
- **A decoding error anywhere ends the env output.** A value that fails to decode
  aborts the whole write, even when its key would have been dropped. This holds
  for any node that is not skipped (`EnvOutput.Write`).

## Model

| member | source | states |
|---|---|---|
| Format.ParseFormat | pkg/konjure/writer.go:60-66 | With an '=', the name is the lower-cased text before the first '=' and the argument is the text after it, case kept; without '=', the argument is the whole format and the name is "template" when the lowered format holds "{{", else the lowered format |
| Format.LowerKeepsIndex | pkg/konjure/writer.go:60-63 | The first '=' is at the same position in the lowered format as in the original one, so the lowered index can be used to slice the original |
| Format.ParseFormatJoin | pkg/konjure/writer.go:60-63 | A format written as name '=' argument, with no '=' in the name, comes apart into the lowered name and the untouched argument |
| Format.BareTemplate | pkg/konjure/writer.go:64-66 | A format with "{{" and no '=' selects a template writer whose template is the whole format as given, with the caller's functions |
| Format.Header | pkg/konjure/writer.go:122 | A heading holds no '.' and is no longer than its column specification |
| Format.HeaderIsLastSegment | pkg/konjure/writer.go:122 | A heading is the upper-cased tail of its specification, and that tail follows a '.' whenever it is not the whole specification |
| Format.Column | pkg/konjure/writer.go:123 | A column action is `{{ ` + the path + ` }}`, the path being the specification as given when it starts with '.', and the specification with a '.' put in front otherwise |
| Format.ColumnSpecs | pkg/konjure/writer.go:120-121 | There is one column specification per comma-separated piece (one more than the commas), and no specification holds a comma |
| Format.CollectColumns | pkg/konjure/writer.go:119-124 | The column loop yields, for each trimmed piece in order, its heading and its column action |
| Format.ColumnsSnoc | pkg/konjure/writer.go:119-124 | One more piece adds exactly one heading and one column action at the end |
| Format.BuildColumns | pkg/konjure/writer.go:119-124 | The headings and column actions of a columns format are those of its trimmed comma-separated pieces |
| Format.HeadingRowCells | pkg/konjure/writer.go:122-131 | Without a tab in the format, splitting the heading row on tabs gives back exactly the headings, one per comma-separated piece |
| Format.ColumnsFormat | pkg/konjure/writer.go:118-134 | `custom-columns=<arg>` selects a tabular template writer that wraps the nodes in one v1 List, with the caller's functions and the columns template built from the headings and column actions of `<arg>` |
| Format.ColumnsTemplate | pkg/konjure/writer.go:131-133 | The columns template starts by testing whether there are items |
| Format.StrategyFor | pkg/konjure/writer.go:68-136 | Unknown names select nothing. YAML carries the restore flag and the byte-writer settings. JSON and NDJSON keep the annotation and sort settings and wrap in a List only for "json". env gets the default shell, unset and selector. A template writer is tabular exactly when it wraps, "name" gets the name template and no caller functions, template and go-template the argument as template with the caller's functions, and the columns formats the columns template of the argument, wrapped in a v1 List. "json" wraps in a v1 List, "ndjson" not at all |
| Format.Select | pkg/konjure/writer.go:68-140 | Selection fails exactly for an unknown name, with "unknown format: " and the format as given; otherwise it is the strategy of the parsed name and argument |
| Format.Write | pkg/konjure/writer.go:57-142 | An unknown format writes nothing and leaves the nodes alone. YAML restores white space in place only when asked and encodes the nodes. The other formats leave the nodes to their writer's contract. The tab writer always counts as flushable |
| JsonOutput.ClearedKeys | pkg/konjure/writer.go:165-176 | The index annotation is cleared exactly when reader annotations are not kept (or it is listed), and every extra annotation is cleared |
| JsonOutput.ClearNode | pkg/konjure/writer.go:165-176 | Clearing fails exactly when there is a key to clear and the annotations are malformed. Otherwise only the annotations change, and all the keys are removed |
| JsonOutput.ClearNodes | pkg/konjure/writer.go:163-177 | Clearing the list fails exactly when clearing some node fails; otherwise each node is its own cleared version, in order |
| JsonOutput.ClearNodesFirstError | pkg/konjure/writer.go:163-177 | A clearing error is that of the first node that cannot be cleared, every node before it clearing |
| JsonOutput.ClearOne | pkg/konjure/writer.go:171-176 | The inner clearing loop computes ClearNode |
| JsonOutput.ClearAll | pkg/konjure/writer.go:163-177 | The clearing loop succeeds exactly when every node clears, and then leaves the array holding the cleared nodes; otherwise its error is the one the list clearing reports |
| JsonOutput.Encoded | pkg/konjure/writer.go:179-188 | Without a wrapping kind, one value per node in order. With one, exactly one value, whose mapping keys are apiVersion, kind, items in that order, with the given kind and the nodes as items |
| JsonOutput.Emit | pkg/konjure/writer.go:179-188 | Encoding writes the values up to the first one the encoder fails on, and the error is that failure; with no failure every value is written |
| JsonOutput.EmitStopsAtFirstError | pkg/konjure/writer.go:180-184 | Encoding fails exactly when some value fails to encode, and every value written before the failure encoded |
| JsonOutput.EncodeAll | pkg/konjure/writer.go:180-188 | The encoding loop computes Emit |
| JsonOutput.Write | pkg/konjure/writer.go:155-189 | A sort error returns at once, with that error and the nodes in whatever order the sort left them. Otherwise the nodes are sorted, then every node is cleared before anything is encoded, so a clearing error encodes nothing and is the error of the first node that fails. After clearing, the nodes are the cleared ones, and the values written and the error are those of encoding the cleared nodes, or their List, up to the first encoder failure |
| Document.ClearAnnotation | pkg/konjure/writer.go:166-172 | Clearing fails exactly on malformed annotations. Otherwise the key is gone, every other annotation is kept, and nothing but the annotations changes |
| Document.ClearAbsentAnnotation | pkg/konjure/writer.go:166-172 | Clearing an absent annotation changes nothing |
| Document.ClearAnnotationIdempotent | pkg/konjure/writer.go:166-172 | Clearing the same annotation twice equals clearing it once |
| Document.Wrap | pkg/konjure/writer.go:428-450 | The wrapping mapping has keys apiVersion, kind, items in that order, the given apiVersion and kind as scalars, and a sequence holding exactly the nodes as items |
| Document.MappingKeys | pkg/konjure/writer.go:428-450 | A mapping has one key per pair of children, the even-position children |
| Document.DataMap | pkg/konjure/writer.go:267 | Every key of the data map is a key of the node's `data` mapping |
| TemplateOutput.Builtins | pkg/konjure/writer.go:202-205 | The built-in functions are exactly "upper" and "lower" |
| TemplateOutput.MergeFunctions | pkg/konjure/writer.go:202-208 | The merged function map has the caller's names plus "upper" and "lower". A caller's function overrides a built-in of the same name, and a built-in is kept where the caller has none |
| TemplateOutput.MergedIsUnion | pkg/konjure/writer.go:202-208 | The map MergeFunctions builds is the built-ins overridden by the caller's functions |
| TemplateOutput.Items | pkg/konjure/writer.go:215-217 | Without a wrapping kind the template runs over the nodes; with one, over a single List whose items are the nodes |
| TemplateOutput.Run | pkg/konjure/writer.go:219-228 | At most one text per item, one per item when nothing fails, and each text is the template executed on its item's decoded data |
| TemplateOutput.Execute | pkg/konjure/writer.go:219-228 | The execution loop computes Run, stopping at the first decode or execution error |
| TemplateOutput.Write | pkg/konjure/writer.go:201-237 | A parse error writes nothing and flushes nothing. Otherwise the executions run over the items, and the stream is flushed only if it can be and every execution succeeded. The error is that of the first failing execution, otherwise that of the flush |
| TemplateOutput.ExecutionCount | pkg/konjure/writer.go:215-228 | Without failure there is one execution per node, or exactly one when the nodes are wrapped |
| EnvOutput.DetectShell | pkg/konjure/writer.go:250-255 | The shell is the configured one in lower case; when that is empty, it is the lower-cased base name of SHELL, and that is non-empty when SHELL is |
| EnvOutput.BytesToString | pkg/konjure/writer.go:272 | Decoded bytes become a string with one character per byte, same values |
| EnvOutput.DecodeValue | pkg/konjure/writer.go:262-272 | Values decode unchanged for non-secrets. For a secret they decode exactly when the value is valid standard base64 |
| EnvOutput.EnvLine | pkg/konjure/writer.go:288-313 | Each pair writes one line ending in a newline, and only that newline when key and value hold none |
| EnvOutput.EnvText | pkg/konjure/writer.go:288-313 | The text of a line adds no newline of its own |
| EnvOutput.EnvLineQuotes | pkg/konjure/writer.go:297-311 | For fish the line is `set -gx K <q>;` and for other shells `export K=<q>`, the value written as a literal that unquotes to exactly the value |
| EnvOutput.PairLines | pkg/konjure/writer.go:274-280 | A pair writes no line exactly when its key has a '.' or its value a newline or carriage return |
| EnvOutput.NodeLinesDecoded | pkg/konjure/writer.go:267-271 | A node's lines exist exactly when every key's value decodes, and there is at most one line per key |
| EnvOutput.NodeLinesAppend | pkg/konjure/writer.go:267-281 | Visiting one more decodable key appends that pair's lines |
| EnvOutput.WriteData | pkg/konjure/writer.go:267-281 | The data loop fails exactly when some value of the map fails to decode. On success it visits every key once and writes the lines of that order |
| EnvOutput.KeyVisited | pkg/konjure/writer.go:267 | Visiting one more key keeps the visited keys distinct and accounted for |
| EnvOutput.NoDecodeError | pkg/konjure/writer.go:267-271 | Lines for every key of the map mean no value failed to decode |
| EnvOutput.AllLinesAppend | pkg/konjure/writer.go:257-282 | The output of one more node is the output so far followed by that node's lines |
| EnvOutput.VisitedSnoc | pkg/konjure/writer.go:257-282 | Recording one more node's key order keeps every node before it recorded |
| EnvOutput.VisitedAllDecode | pkg/konjure/writer.go:257-282 | When every node is recorded, every node that is not skipped decodes |
| EnvOutput.Write | pkg/konjure/writer.go:248-285 | The write fails exactly when some node that is not skipped has a value that fails to decode, whether or not that pair would be dropped. A node is skipped only when the selector evaluates without error to false. On success the lines are those of every node in turn, each in the order its map was visited |
| GroupOutput.FileAnnotations | pkg/konjure/writer.go:331 | The default classifier fails exactly when reading the metadata fails, the same condition under which the env writer does not treat a resource as a Secret. Otherwise the group is the path annotation and the ordinal the index annotation, "" when absent |
| GroupOutput.DefaultFactory | pkg/konjure/writer.go:343-350 | The empty name gets no sink and no error; any other name gets the file created for it, or its error |
| GroupOutput.ClearList | pkg/konjure/writer.go:329-339 | The configured annotations are always cleared. The path and index annotations are added exactly when the default classifier is used and reader annotations are not kept |
| GroupOutput.Step | pkg/konjure/writer.go:367-389 | A factory error ends the group with no event. No sink means nothing happens. With a sink, the group is written, the sink is closed if it can be, and the write's error is reported after that |
| GroupOutput.GroupEventsAppend | pkg/konjure/writer.go:365-390 | After groups that all succeeded, one more group adds exactly its own step |
| GroupOutput.GroupEvents | pkg/konjure/writer.go:365-390 | The group loop gives at most a write and a close per group, an error only when there is a group, and every write carries the writer's settings |
| GroupOutput.ClosedAfterWrite | pkg/konjure/writer.go:383-389 | Every write carries one group's nodes and the writer's settings, and a write to a closable sink is followed at once by closing it, whether or not the write failed |
| GroupOutput.StepWithoutSink | pkg/konjure/writer.go:367-370 | A factory error on the first group ends the writing with that error and no events |
| GroupOutput.GroupWriter.InstallDefaults | pkg/konjure/writer.go:329-351 | Missing defaults are stored into the writer: the file annotations as classifier and the default factory as sink maker. Fields already set are kept, and the clear list is ClearList of whether the classifier was missing |
| GroupOutput.GroupWriter.Write | pkg/konjure/writer.go:327-393 | Defaults are installed into the writer's own fields, and white space is restored in place before indexing when asked. An indexing error gives no events, and it is the error of the first node the classifier fails on. Otherwise the groups are written in a map order that visits each group at most once, and all of them unless one failed |
| GroupOutput.GroupWriter.Labels | pkg/konjure/writer.go:399-407 | Classification succeeds exactly when every node classifies, giving each node's label in order; otherwise its error is that of a node every node before which classified |
| GroupOutput.GroupWriter.LabelsFirstError | pkg/konjure/writer.go:399-403 | The classification error is the error of the first node the classifier fails on |
| GroupOutput.GroupWriter.WriteClassified | pkg/konjure/writer.go:358-390 | A classification error gives no events, no groups and that error. Otherwise the index of the classification is written group by group in a map order visiting each group at most once, and all of them unless one failed |
| GroupOutput.WriteGroups | pkg/konjure/writer.go:365-392 | The group loop writes distinct groups of the index, each by its step, stopping at the first error, and visits every group when none fails |
| Grouping.SwapPermutes | pkg/konjure/writer.go:411 | One swap of the sort only exchanges two nodes |
| Grouping.SinkPermutes | pkg/konjure/writer.go:411-421 | Moving one node back during the sort only reorders the group |
| Grouping.SortFromPermutes | pkg/konjure/writer.go:411-421 | The outer loop of the insertion sort only reorders the group |
| Grouping.SortGroupPermutes | pkg/konjure/writer.go:411-421 | sort.SliceStable with this comparator leaves each group a permutation of itself |
| Grouping.SortGroup | pkg/konjure/writer.go:411-421 | sort.SliceStable on a group keeps its length and is a permutation of it (the step-by-step proof is `Grouping.SortFromPermutes`) |
| Grouping.AscendingKeepsOrder | pkg/konjure/writer.go:411-421 | When no ordinal compares less than the one before it, the sort from any position keeps the group as it is |
| Grouping.AscendingGroupUnchanged | pkg/konjure/writer.go:411-421 | A group whose ordinals already ascend keeps its input order |
| Grouping.SmallOrdinals | pkg/konjure/writer.go:413-414 | "1", "2", "3", "9" and "10" parse as their numbers, and "1a" does not parse |
| Grouping.PositionalComparatorMisorders | pkg/konjure/writer.go:410-421 | A group with ordinals "3", "1", "2" comes out as b, a, c, because the ordinals stay by position while the nodes move |
| Grouping.SinkFirstPair | pkg/konjure/writer.go:411-421 | The first step swaps the first two nodes when the second ordinal compares less than the first |
| Grouping.MisorderOrdinals | pkg/konjure/writer.go:413-416 | "1" compares less than "3", and "2" does not compare less than "1" |
| Grouping.ComparatorNotTransitive | pkg/konjure/writer.go:413-420 | 9 < 10 numerically, "10" < "1a" and "1a" < "9" as strings, so the comparator is not transitive |
| Grouping.SortInPlace | pkg/konjure/writer.go:411 | The in-place insertion sort leaves the array as SortGroup of its old contents |
| Grouping.SinkInPlace | pkg/konjure/writer.go:411 | The inner loop leaves the array as Sink of its old contents |
| Grouping.Members | pkg/konjure/writer.go:405 | A group has no more members than there are nodes |
| Grouping.Ordinals | pkg/konjure/writer.go:406 | A group has one ordinal per member |
| Grouping.Indexed | pkg/konjure/writer.go:396-425 | The index has exactly the groups some node is labelled with |
| Grouping.IndexedPermutes | pkg/konjure/writer.go:396-425 | Each group of the index holds exactly its members, reordered |
| Grouping.MembersAbsent | pkg/konjure/writer.go:405-406 | A group no label names has no members and no ordinals |
| Grouping.GroupsAppend | pkg/konjure/writer.go:405 | One more label adds exactly its group |
| Grouping.MembersSnoc | pkg/konjure/writer.go:405-406 | One more node is appended to its own group's members and ordinals and to no other |
| Grouping.Partition | pkg/konjure/writer.go:399-407 | A classifier error is the first node's error, after every earlier node was classified. Otherwise each group holds its members and their ordinals in input order |
| Grouping.SortGroups | pkg/konjure/writer.go:410-422 | Sorting in map order sorts every group, whatever the order |
| Grouping.IndexNodes | pkg/konjure/writer.go:396-425 | A classifier error aborts with no groups, and it is the error of the first node that fails. Otherwise the result is the index of the classification |
| Grouping.AllMembersAppend | pkg/konjure/writer.go:405 | One more node adds itself to the members of the listed groups only if its group is listed |
| Grouping.PartitionIsExact | pkg/konjure/writer.go:399-407 | Every input node lands in exactly one group: the members of all groups, each listed once, are the input nodes, counted with multiplicity |
| Grouping.AllMembersEmpty | pkg/konjure/writer.go:399-407 | No nodes give no members |
| Grouping.IndexedSizes | pkg/konjure/writer.go:396-425 | The sizes of the sorted groups add up to the number of input nodes |
| Grouping.SumSizesMembers | pkg/konjure/writer.go:396-425 | The sorted groups have as many nodes together as their members |
| Whitespace.MaxOf | pkg/konjure/writer.go:499-504 | The maximum is at least the start and every element, and is one of them |
| Whitespace.LastLine | pkg/konjure/writer.go:498-506 | A node's last line is at least its own line |
| Whitespace.LastLineOf | pkg/konjure/writer.go:498-506 | The recursive loop of lastLine computes LastLine |
| Whitespace.LastLineBounds | pkg/konjure/writer.go:498-506 | The last line is at least that of every child, and is the node's own line or one of theirs |
| Whitespace.MinLLAfter | pkg/konjure/writer.go:458-474 | The running bound is never below the resource's line |
| Whitespace.MinLLAfterBounds | pkg/konjure/writer.go:472-474 | The running bound is at least the last line of every entry just before an entry that starts a new line |
| Whitespace.MinLLAfterMonotone | pkg/konjure/writer.go:472-474 | The running bound never decreases |
| Whitespace.Inserted | pkg/konjure/writer.go:461-489 | Blank lines are put back only before an entry that starts a new line. They never exceed the lines between the previous entry's last line and this entry, less its head comment and the preceding foot comment |
| Whitespace.RestoredEntry | pkg/konjure/writer.go:491-492 | A restored entry differs only in its head comment, which gains the inserted newlines in front |
| Whitespace.Restored | pkg/konjure/writer.go:455-495 | Restoring changes only a resource's top-level entries and keeps their number |
| Whitespace.RestoredShape | pkg/konjure/writer.go:459-492 | Only the head comments of the direct children change, each only by prefixing newlines, and an entry on the line of its predecessor (entry 0 included) is untouched |
| Whitespace.RestoreNode | pkg/konjure/writer.go:456-494 | The loop over one resource's entries computes Restored |
| Whitespace.RestoreAt | pkg/konjure/writer.go:459-493 | One step restores entry i from the entries before it, already restored, and carries the running bound on |
| Whitespace.RestoredEntryKeeps | pkg/konjure/writer.go:472-483 | A restored entry keeps the line, the foot comment and the last line that later steps read |
| Whitespace.RestoreVerticalWhiteSpace | pkg/konjure/writer.go:455-495 | Every resource of the array is replaced by its restored version, in place |
| Whitespace.LastLineIgnoresComments | pkg/konjure/writer.go:498-506 | A node's last line does not depend on its head comment |
| Whitespace.MinLLAfterRestored | pkg/konjure/writer.go:458-474 | Restoring leaves the running bound unchanged |
| Whitespace.NewlinesPrefixCount | pkg/konjure/writer.go:468-492 | Prefixing k newlines adds k to the newlines a head comment counts |
| Whitespace.RestoredIdempotent | pkg/konjure/writer.go:455-495 | Restoring twice equals restoring once |
| Jsonnet.ReadInput | plugin/jsonnet/generator/jsonnet_generator.go:95-106 | A file name wins, is the program's name, and its read error is the error. Otherwise inline code is the program under `<cmdline>`. Otherwise the program is nil under `<empty>` |
| Jsonnet.FilenameWins | plugin/jsonnet/generator/jsonnet_generator.go:96-99 | With a file name, the inline code makes no difference |
| Jsonnet.NilInput | plugin/jsonnet/generator/jsonnet_generator.go:95-106 | The program is nil exactly when there is neither file name nor code, or the file could not be read |
| Jsonnet.SplitList | plugin/jsonnet/generator/jsonnet_generator.go:110 | The empty path has no entries. Otherwise there is one entry more than there are ':', and joining them on ':' gives the path back |
| Jsonnet.Reverse | plugin/jsonnet/generator/jsonnet_generator.go:111-113 | Reversing keeps the length and puts element i at the mirrored position |
| Jsonnet.ReverseReverse | plugin/jsonnet/generator/jsonnet_generator.go:111-113 | Reversing twice gives the list back |
| Jsonnet.SearchPathShape | plugin/jsonnet/generator/jsonnet_generator.go:108-115 | The search path is as long as the JSONNET_PATH entries and the configured paths together. It ends with the configured paths, and begins with the JSONNET_PATH entries, last first |
| Jsonnet.ReverseCons | plugin/jsonnet/generator/jsonnet_generator.go:111-113 | Reversing a list with a first element puts that element last |
| Jsonnet.ReversedEntries | plugin/jsonnet/generator/jsonnet_generator.go:111-114 | The reversing loop yields the entries reversed, then the configured paths |
| Jsonnet.EvalJpath | plugin/jsonnet/generator/jsonnet_generator.go:108-115 | evalJpath is the search path of JSONNET_PATH and the configured paths |
| Jsonnet.NewKonjureImporter | plugin/jsonnet/generator/jsonnet_generator.go:206-221 | The importer fails exactly when the secret importer cannot be made. Otherwise its file importer searches the same path evalJpath gives |
| Jsonnet.Double | plugin/jsonnet/generator/jsonnet_generator.go:122 | Doubling quotes grows the text by one character per quote |
| Jsonnet.UndoubleDouble | plugin/jsonnet/generator/jsonnet_generator.go:122 | Undoubling "''" recovers the path that was doubled |
| Jsonnet.ImportStr | plugin/jsonnet/generator/jsonnet_generator.go:122 | The code is `importstr @'`, the doubled path and a closing quote, and the path reads back from between the quotes |
| Jsonnet.ParamCall | plugin/jsonnet/generator/jsonnet_generator.go:118-127 | A parameter makes a call exactly when some field is set, under its own name. It is a variable call exactly when the string is set, and otherwise a code call for the first set of string file, code, code file |
| Jsonnet.CodeFileImportsNothing | plugin/jsonnet/generator/jsonnet_generator.go:125-126 | A parameter that only has a code file always gets the code call `import @''` |
| Jsonnet.CallsBound | plugin/jsonnet/generator/jsonnet_generator.go:117-129 | At most one call per parameter |
| Jsonnet.CallsAppend | plugin/jsonnet/generator/jsonnet_generator.go:117-129 | The calls follow the parameter order: those of a list are those of its first part, then its second |
| Jsonnet.EmptyParameterNoCall | plugin/jsonnet/generator/jsonnet_generator.go:118-127 | A parameter with every field empty makes no call wherever it appears |
| Jsonnet.ProcessParameters | plugin/jsonnet/generator/jsonnet_generator.go:117-129 | The loop makes the handler calls of the parameters, in order |
| Jsonnet.AppendAll | plugin/jsonnet/generator/jsonnet_generator.go:153-161 | On success every item was an object and is appended in order after what was there. Any non-object item makes it fail |
| Jsonnet.AppendAllNonObject | plugin/jsonnet/generator/jsonnet_generator.go:158-160 | With appends that never fail, a non-object item anywhere gives exactly the shape's message |
| Jsonnet.AppendAllObjects | plugin/jsonnet/generator/jsonnet_generator.go:153-157 | With appends that never fail, a list of objects is appended whole |
| Jsonnet.Insert | plugin/jsonnet/generator/jsonnet_generator.go:182 | Inserting into a sorted list keeps it sorted and adds exactly the element |
| Jsonnet.SortStrings | plugin/jsonnet/generator/jsonnet_generator.go:182 | sort.Strings gives a sorted permutation of its input |
| Jsonnet.StrictWhenDistinct | plugin/jsonnet/generator/jsonnet_generator.go:182 | A sorted list without repetitions is strictly increasing |
| Jsonnet.SortedUnique | plugin/jsonnet/generator/jsonnet_generator.go:178-182 | Two strictly sorted lists with the same elements are equal, so the sorted key order does not depend on map order |
| Jsonnet.SameElementsEmpty | plugin/jsonnet/generator/jsonnet_generator.go:178-182 | Lists with the same elements are empty together |
| Jsonnet.SetToSeq | plugin/jsonnet/generator/jsonnet_generator.go:179-181 | Some list holds each key of a set exactly once |
| Jsonnet.SortedKeys | plugin/jsonnet/generator/jsonnet_generator.go:178-182 | The keys of an object, each once, in strictly increasing order |
| Jsonnet.ValuesAt | plugin/jsonnet/generator/jsonnet_generator.go:184-185 | The values are taken in the order of the keys |
| Jsonnet.KindlessResMap | plugin/jsonnet/generator/jsonnet_generator.go:177-192 | An object without "kind" gives its values appended in increasing order of their names, and on success resource i is the value of the i-th smallest name |
| Jsonnet.ResMapShapes | plugin/jsonnet/generator/jsonnet_generator.go:136-198 | Empty output gives no resources and no error. Output not starting with '[' or '{' gives "expected JSON object or list". An object with "kind" gives exactly that one resource when appending it succeeds. A list that converts gives one resource per item, each item being that object |
| Jsonnet.ResMap | plugin/jsonnet/generator/jsonnet_generator.go:136-198 | Output that is empty after leading white space gives no resources and no error, and output succeeds only when it starts with '[' or '{'; the other cases are stated by `Jsonnet.ResMapShapes` and `Jsonnet.KindlessResMap` |
| Jsonnet.LeadingSpaceIgnored | plugin/jsonnet/generator/jsonnet_generator.go:139-143 | White space in front of the output changes nothing |
| Jsonnet.TrimLeftSpaceAppend | plugin/jsonnet/generator/jsonnet_generator.go:140 | Trimming skips any white space put in front |
| Jsonnet.LeadingSpacesAppend | plugin/jsonnet/generator/jsonnet_generator.go:140 | White space put in front lengthens the leading run by exactly its length |
| Jsonnet.AppendItems | plugin/jsonnet/generator/jsonnet_generator.go:153-161 | The appending loop computes AppendAll |
| Jsonnet.NewResMap | plugin/jsonnet/generator/jsonnet_generator.go:136-198 | The method yields the resources the output describes, in the unique sorted key order for an object without "kind", whatever the map order |
| Jsonnet.CollectKeys | plugin/jsonnet/generator/jsonnet_generator.go:178-181 | The key loop collects every key of the object exactly once |
| Jsonnet.DistinctSorted | plugin/jsonnet/generator/jsonnet_generator.go:182 | Sorting a list without repetitions gives one without repetitions |
| Jsonnet.DistinctCount | plugin/jsonnet/generator/jsonnet_generator.go:182 | In a list without repetitions an element occurs once |
| Jsonnet.TwoOccurrences | plugin/jsonnet/generator/jsonnet_generator.go:182 | An element at two positions occurs at least twice |
| Jsonnet.Generate | plugin/jsonnet/generator/jsonnet_generator.go:66-93 | An importer error comes first, then a read error. Otherwise the VM is run with the search-path importer, the program's name, its text (the empty text for a nil program) and the calls of both parameter lists, and its output becomes the resource list |
| Readers.BaseReader | internal/readers/readers.go:35-56 | An input has no reader exactly when its type is not recognised; every recognised input type (resource list, Helm, Jsonnet, Kubernetes, Kustomize, Secret, Git, HTTP, file) gets the reader of that kind, holding the input |
| Readers.AppliedAppend | internal/readers/readers.go:58-61 | Applying a list of options applies its first part, then its second |
| Readers.AppliedFirst | internal/readers/readers.go:58-61 | The first option is applied to the reader New chose, before the rest |
| Readers.New | internal/readers/readers.go:32-64 | An unrecognised input gives no reader. Otherwise the reader for the input, with every option applied in order to the result of the ones before |
| Readers.RuntimeCommand | internal/readers/readers.go:79-89 | The binary is the configured one, or the default when none is configured. It is run with itself as its only argument, by the configured executor |
| Readers.CommandOutput | internal/readers/readers.go:99-105 | The executor's result when one is set, otherwise the process's own output |
| Readers.ExitMessage | internal/readers/readers.go:114-115 | The message is standard error trimmed of surrounding white space, with at most one leading "Error: " removed |
| Readers.CommandRead | internal/readers/readers.go:109-122 | An exit error gives `<base of path> <error>: <cleaned stderr>`, still wrapping the exit error. Any other error is passed on unchanged. Success decodes the output |
| Readers.ExitMessageStripsOnce | internal/readers/readers.go:115 | Only one leading "Error: " is removed |
| Readers.ExitMessageUnprefixed | internal/readers/readers.go:114-115 | Without the prefix, the message is standard error trimmed, ending in no white space |
| Readers.ExitErrorNamesProgram | internal/readers/readers.go:116 | A failed process's message starts with the program's base name and the exit error, and keeps its standard error |
| Readers.LastReceived | internal/readers/readers.go:142-145 | The capturing writer holds the last list it was handed, or nothing when never called |
| Readers.LastReceivedSnoc | internal/readers/readers.go:143 | Each call replaces what the writer held |
| Readers.PipelineRead | internal/readers/readers.go:135-153 | A pipeline error gives that error and no nodes; otherwise exactly the nodes the output writer last received |
| Kubectl.FlagPair | pkg/pipes/kubectl.go:45-53 | A flag pair is present only for a non-empty value, flag first |
| Kubectl.GlobalArgs | pkg/pipes/kubectl.go:44-53 | There are two global arguments per non-empty setting. The kubeconfig pair comes first when set, and the namespace pair last when set |
| Kubectl.GlobalArgsPaired | pkg/pipes/kubectl.go:44-53 | Global arguments alternate flag and value, every flag a global one |
| Kubectl.Command | pkg/pipes/kubectl.go:38-56 | The program is the configured binary or `kubectl`. The arguments are the global flags followed by the caller's, 2 per non-empty setting plus the caller's count |
| Kubectl.ParseCommand | pkg/pipes/kubectl.go:44-55 | The global flags come in the order kubeconfig, context, namespace. Reading them back gives the settings and the caller's arguments untouched, when those do not start with a global flag |
| Kubectl.TakePair | pkg/pipes/kubectl.go:45-53 | One flag pair reads back as its value |
| Kubectl.Reader | pkg/pipes/kubectl.go:59-63 | A reader's arguments are the global flags, the caller's, then `--output=yaml` last |
| Kubectl.Writer | pkg/pipes/kubectl.go:66-70 | A writer's arguments are the global flags, the caller's, then `--filename=-` last |
| Kubectl.DryRun | pkg/pipes/kubectl.go:82-84 | The dry-run flag is there exactly for a non-empty mode |
| Kubectl.Get | pkg/pipes/kubectl.go:73-77 | A get source runs the configured kubectl. After the global flags come `get` and the objects in order, with `--output=yaml` last; `Kubectl.GetArgs` states the whole list, global flags included |
| Kubectl.Create | pkg/pipes/kubectl.go:80-86 | A create sink runs the configured kubectl. After the global flags come `create`, then `--dry-run=<mode>` only for a non-empty mode, with `--filename=-` last; `Kubectl.CreateApplyArgs` states the whole list |
| Kubectl.Apply | pkg/pipes/kubectl.go:89-95 | An apply sink runs the configured kubectl. After the global flags come `apply`, then `--dry-run=<mode>` only for a non-empty mode, with `--filename=-` last; `Kubectl.CreateApplyArgs` states the whole list |
| Kubectl.Delete | pkg/pipes/kubectl.go:98-107 | A delete sink runs the configured kubectl. After the global flags come `delete` and the dry-run flag for a non-empty mode; `--ignore-not-found` comes just before the last argument, `--filename=-`, when asked. `Kubectl.DeleteArgs` states the whole list |
| Kubectl.GetArgs | pkg/pipes/kubectl.go:73-77 | Get runs the configured kubectl with the global flags, `get`, the objects and `--output=yaml` |
| Kubectl.CreateApplyArgs | pkg/pipes/kubectl.go:80-95 | Create and Apply give the verb, `--dry-run=<mode>` only for a non-empty mode, then `--filename=-` |
| Kubectl.DeleteArgs | pkg/pipes/kubectl.go:98-107 | Delete gives the verb, the optional dry-run flag, `--ignore-not-found` only when asked, then `--filename=-` |
| Kubectl.DeleteIgnoresNotFound | pkg/pipes/kubectl.go:103-106 | `--ignore-not-found` is just before the file argument exactly when asked for, and the count of arguments follows |
| Base64.DecodeEncode | pkg/konjure/writer.go:264 | Decoding standard base64 gives back the bytes that were encoded |
| Base64.DecodeQuantaEncode | pkg/konjure/writer.go:264 | Decoding the groups of four gives back the encoded bytes |
| Base64.DecodeQuantaLength | pkg/konjure/writer.go:264 | Only text in whole groups of four decodes, to at most three bytes a group |
| Base64.CharOf | pkg/konjure/writer.go:264 | Each 6-bit value has an alphabet character that decodes to it |
| Base64.Encode | pkg/konjure/writer.go:264 | Encoded text comes in groups of four with no line breaks |
| Base64.DecodeTest | pkg/konjure/writer.go:264 | "dGVzdA==" decodes to the bytes of "test" |
| Base64.StripNewlines | pkg/konjure/writer.go:264 | The text the decoder reads has no line breaks, is no longer than the input, and is the input itself when it had none |
| Base64.DecodeString | pkg/konjure/writer.go:264 | Text without line breaks decodes as its groups of four, and a successful decoding gives at most three bytes per four characters of input |
| GoQuote.UnquoteQuote | pkg/konjure/writer.go:302-310 | Unquoting what `%q` wrote gives back the value |
| GoQuote.Quote | pkg/konjure/writer.go:302-310 | A quoted value is enclosed in double quotes and holds no line break |
| GoQuote.UnescapeEscape | pkg/konjure/writer.go:302-310 | Reading back the escapes gives the original text |
| GoAtoi.Atoi | pkg/konjure/writer.go:413-414 | A parsed ordinal is an int64 written with an optional sign and digits, and a plain numeral in range parses as its value |
| GoAtoi.AtoiItoa | pkg/konjure/writer.go:413-414 | Every int64 written in decimal parses back to itself |
| GoStrings.Split | pkg/konjure/writer.go:120 | There is one piece more than separators, and joining the pieces gives the text back |
| GoStrings.SplitPiecesFree | pkg/konjure/writer.go:120 | No piece holds the separator |
| GoStrings.SplitJoin | pkg/konjure/writer.go:120 | Splitting a join on a separator no part holds gives the parts back |
| GoStrings.ToLower | pkg/konjure/writer.go:60 | Lower-casing keeps the length, maps each character, and leaves no upper-case letter |
| GoStrings.ToUpper | pkg/konjure/writer.go:122 | Upper-casing keeps the length, maps each character, and leaves no lower-case letter |
| GoStrings.IndexByte | pkg/konjure/writer.go:61 | The first position of a character, or -1 exactly when it is absent |
| GoStrings.LastIndexByte | pkg/konjure/writer.go:122 | The last position of a character, or -1 exactly when it is absent |
| GoStrings.TrimPrefix | pkg/konjure/writer.go:123 | One leading copy of the prefix is removed when there is one, and otherwise nothing changes |
| GoStrings.TrimSpace | pkg/konjure/writer.go:121 | The text without leading and trailing white space, starting and ending with none |
| GoStrings.TrimSpaceKeepsHighBytes | pkg/konjure/writer.go:121 | A text that starts with a UTF-8 continuation byte and ends with a lead byte is kept whole, since each decodes alone as the error rune, which is not white space |
| GoStrings.Base | pkg/konjure/writer.go:253 | The base name is never empty, holds a '/' only when it is "/", and a path without '/' is its own base name |
| GoStrings.LexLessIrreflexive | pkg/konjure/writer.go:420 | No string is less than itself |
| GoStrings.LexLessTransitive | pkg/konjure/writer.go:420 | Go's string order is transitive |
| GoStrings.LexLessTotal | pkg/konjure/writer.go:420 | Any two different strings are ordered one way |
| GoStrings.ReplaceCharLength | plugin/jsonnet/generator/jsonnet_generator.go:122 | Replacing each occurrence of a character grows the text by the replacement's extra length per occurrence |
| GoStrings.ReplaceChar | plugin/jsonnet/generator/jsonnet_generator.go:122 | Replacing a character that does not occur changes nothing |
| GoStrings.TrimLeftSpace | plugin/jsonnet/generator/jsonnet_generator.go:140 | The result is a suffix of the text, everything cut off is white space, and it does not start with white space |

## Left out

- The YAML and JSON encoders, `kioutil.SortNodes`, node decoding for templates,
  template parsing and execution, label selector matching, the Jsonnet VM, the
  berglas secret importer and `rf.FromMap` are foreign libraries. They are
  function parameters, constrained only by what the core relies on: the sort
  keeps the number of nodes, and on an error gives the order it had reached.
- tabwriter padding is left out. The columns formats write through a tab writer
  only to align the cells; the model records only that such a writer is flushed.
- Output streams, `os.Create`, `ioutil.ReadFile`, `os.Getenv` and close errors
  are I/O. A file read, file creation and the SHELL and JSONNET_PATH variables
  are parameters, and closing is an event. Go discards close errors, and so
  does the model.
- Process execution and `context.Context` cancellation are left out. A process
  run is a function from the command to its output or error, and the context
  passed to kubectl commands is not modelled.
- Readers.RuntimeCommand: `exec.Command` looks the binary up on PATH; the
  model keeps the configured or default name as the path.
- The reader types New builds (Helm, Git, HTTP, Kubernetes, Kustomize, Secret,
  File) and the defaults `NewJsonnetReader` fills in are tags and left
  uninterpreted. A reader option is any function from reader to reader.
- kio.Pipeline.Execute: only the lists it hands its single output and its
  error are modelled.
- The Jsonnet importer's `Import` delegates to the secret and file importers,
  and is not part of this model.
- Jsonnet.AppendAllNonObject, Jsonnet.AppendAllObjects: stated for a
  resource map whose appends never fail. The append error is a library error
  left abstract; `Jsonnet.AppendAll` covers the general case only in one
  direction.
- Grouping.SortGroup: models Go's insertion sort, which is what
  `sort.SliceStable` runs for groups of at most 20 nodes. For larger groups Go
  merges sorted blocks with symMerge, which the model does not follow. The
  permutation property proved holds either way.
- JsonOutput.Write: after a clearing error the contents of the node array are
  not stated. Go leaves the nodes before the failing one cleared in place, and
  `JsonOutput.ClearAll` states this only on success. The sort is a parameter
  returning the list in the order it reached and its error, constrained only
  to keep the number of nodes.
- GroupOutput.FileAnnotations: the failure of kyaml's `GetMeta` is modelled
  as `Document.MetaFails`, a malformed annotation section. Other metadata that
  does not decode is not represented in the node model, because kyaml is not
  part of this model. `Document.IsSecret` uses the same condition.
- EnvOutput.Write: after a decoding error, the lines already printed for
  earlier nodes are not stated. Only the failure itself is.
- Format.ColumnsTemplate: its contract states only that the template starts by
  testing for items. The rest of the template (heading row, range over the
  items, "No results.") is its definition, and the headings and columns it is
  built from are stated by `Format.BuildColumns` and `Format.HeadingRowCells`.
- GoStrings.TrimSpace, GoStrings.TrimLeftSpace: white space is the ASCII
  white space bytes. Multi-byte UTF-8 white space (U+0085, U+00A0, U+2000 to
  U+200A and the others `unicode.IsSpace` lists) is not trimmed, where Go trims
  it. This carries over to `Format.Trimmed`, `Readers.ExitMessage` and
  `Jsonnet.ResMap`.
- GoStrings.ToLower, GoStrings.ToUpper: case mapping covers ASCII letters
  only. Go's Unicode case mapping can change the byte length of non-ASCII text,
  which would then shift the index the format split uses.
- GoQuote.Quote: characters at or above 0x80 are copied as they are. Go
  escapes invalid UTF-8 and non-printable runes.
- GoAtoi.Atoi: over the int64 range, with Go's error values reduced to None.
- Base64.DecodeQuanta: the byte offset Go reports in a corrupt-input error is
  left out, and errors are one message. Like Go's standard encoding, the model
  does not reject non-zero padding bits.
- Jsonnet.SplitList: it splits on ':' as on Unix hosts.
- Go's int width is not modelled: line numbers and counts are unbounded
  integers.
- Aliasing between node pointers is not modelled: nodes are values held in
  arrays. Where Go changes a node through a pointer, the model replaces the
  array element.

# SQLBridge extraction engine in Dafny

SQLBridge reads an Oracle schema export and writes C# classes for it.
Two passes do the work; the rest writes files.

- **The entity pass** (`ProcessEntities`) takes one DDL dump. It cuts the
  dump into table, view, index and trigger blocks on the `DDL for <Type>`
  markers the exporter writes. The four cuts run in that order, each on
  what the previous cut left. Every table block becomes a `TableEntity`.
  The entity holds:
  - its columns (`TableProperty`), with type, length and comment;
  - the index and trigger scripts filed under the table's name.
- **The package pass** (`ProcessPackages`) reads every PL/SQL package
  file of a schema:
  - it cuts the file into procedures and functions at their header lines;
  - for each routine it collects the calls and the table references of
    its body;
  - it resolves each routine's calls against the routines of its own
    package (internal calls);
  - once every package is read, it resolves them against a registry of
    every routine of the schema, written `SCHEMA.PACKAGE.name` (external
    calls).

This project models both passes, together with:
- the clean-up helpers of `Utils` (`RemoveComments`, `RemoveEmptyLines`);
- the records built along the way (`PkgFunc`, `TableEntity`,
  `TableProperty`).

Modules follow the source:

| module | models |
|---|---|
| `Wrappers` | `Option`, `Result` and the .NET exceptions the code can raise |
| `Strings` | the parts of `System.String` used: ordinal search, `Replace`, `Trim`, `Split`, `Join`, ASCII case mapping |
| `Dictionaries` | `Dictionary<string, V>` as an insertion-ordered list of entries |
| `TextUtils` | `Utils.cs` |
| `PkgFuncs` | `PkgFunc.cs` (a class whose call lists are assigned in place) and `PkgFile.cs` |
| `TableProperties`, `TableEntities` | `TableProperty.cs`, `TableEntity.cs` |
| `EntityBlocks` | `ExtractBlockScripts`, `GetBlockName`, `GetTriggerName`, `GetBlockCleaned` |
| `TableSchema` | `ExtractTableProperties`, `ExtractTableComments`, `ExtractTableInformation` |
| `EntityExtraction` | `ExtractInformation` |
| `RoutineSegmenter` | `ExtractProceduresAndFunctions`, `ProcedureOrFunctionGetName` |
| `ReferenceExtractor` | `ExtractCalls`, `GetCallName`, `IsLocalOrInAllowedSchemas`, `ExtractTablesAndViews`, `GetTableName`, `IsInAllowedSchemas` |
| `CallGraph` | `SetInternalCalls`, `SetExternalCalls` and `Enumerable.Intersect` |
| `PackageProcessing` | the loops of the `ProcessPackages` constructor |

Each loop of the source is a method with loop invariants. Its postcondition
ties it to a function that states the same computation on values (for
example, `ExtractBlockScripts` returns what `BlockScripts` defines). The
lemmas then prove the properties of those functions.

An exception the source would raise becomes an `Err` carrying the
exception's kind. This covers `Substring` out of range, `Last()` or
`First()` on an empty list, and `Dictionary.Add` or `Replace("")` on bad
arguments.

Each regular expression is a hand-written scanner. The comment beside each
scanner argues why it finds the match the .NET engine finds; this is argued
in comments, not proved.

The rules that make the model's output match the source's:
- Dictionaries keep insertion order, which is the order in which the source
  enumerates them, since nothing is ever removed.
- A repeated column name overwrites the earlier entry in place.

Some behaviour is modelled exactly as written, even where it looks
unintended:
- **Early return in the call passes.** `SetInternalCalls` and
  `SetExternalCalls` stop at the first routine without calls. That routine
  and every routine after it keep empty lists.
- **No collision handling for the last segment.** Only segments inside the
  loop get a `_func` or `_proc` suffix on a name collision. A collision in
  the last segment throws.
- **Table names keep their schema prefix.** `GetTableName` applies
  `Replace("FROM ", "")` after `ToLower`, so the replacement never fires.
- **`RemoveEmptyLines` is not idempotent.** Each replacement is a single
  pass.
- **Column names can damage the type text.** The type is found by removing
  *every* occurrence of the column's first token from the line. An
  unquoted column `N` would therefore also lose the `N` of `NUMBER`.
  Oracle exports quote column names, which makes this harmless there.

## Model

| member | source | states |
|---|---|---|
| TextUtils.CommentEnd | OracleToDotNet/Classes/Utils.cs:9 | a comment match that starts at a `/*` ends at a CR or LF at least three characters further on |
| TextUtils.StripFirstComment | OracleToDotNet/Classes/Utils.cs:9-10 | a comment is deleted from its `/*` through the first `*` after it and on to just before the next CR or LF; the line break stays and the scan resumes there |
| TextUtils.RemoveCommentsNoEnye | OracleToDotNet/Classes/Utils.cs:10 | the result of `RemoveComments` holds no `ñ` and no `Ñ` |
| TextUtils.RemoveCommentsIdentity | OracleToDotNet/Classes/Utils.cs:7-11 | a text with no `/*`, `*/`, `ñ` or `Ñ` is returned unchanged |
| TextUtils.RemoveEmptyLinesNotLonger | OracleToDotNet/Classes/Utils.cs:13-14 | `RemoveEmptyLines` never makes its input longer |
| TextUtils.RemoveEmptyLinesIdentity | OracleToDotNet/Classes/Utils.cs:13-14 | a text with no `\n\n`, `\r\n\r\n` or `\r\n\t\r\n` is returned unchanged |
| TextUtils.RemoveEmptyLinesNotIdempotent | OracleToDotNet/Classes/Utils.cs:14 | single passes: `\n\n\n` becomes `\n\n`, and applying it again gives `\n` |
| PkgFuncs.PkgFunc.constructor | OracleToDotNet/Classes/PkgFunc.cs:15-26 | name, calls and the four table lists are stored as given; the script loses its empty lines; both resolved call lists start empty |
| TableProperties.NewTableProperty | OracleToDotNet/Classes/TableProperty.cs:5-11 | name, type and comment are stored as given; the length is absent for a null or empty text or one that does not parse, never an error; it is present exactly when the trimmed text is a numeral, with the value it spells |
| TableProperties.LengthOfDecimal | OracleToDotNet/Classes/TableProperty.cs:10 | a length written in decimal is stored as the number it spells |
| TableProperties.LengthGroupSeparator | OracleToDotNet/Classes/TableProperty.cs:10 | `,` is a group separator: the length text `10,2` is stored as 102 |
| TableEntities.NewTableEntity | OracleToDotNet/Classes/TableEntity.cs:5-12 | name, properties and indexes are stored as given; triggers keep their number and order, each with its empty lines removed; the script loses its empty lines |
| TableEntities.EntityScriptsNotLonger | OracleToDotNet/Classes/TableEntity.cs:10-11 | the stored script and trigger scripts are never longer than the ones given |
| TableEntities.IndexesKeepEmptyLines | OracleToDotNet/Classes/TableEntity.cs:9-10 | index scripts keep their empty lines while trigger scripts lose them |
| EntityBlocks.IndexName | OracleToDotNet/ProcessEntities.cs:165 | an index name starts after the first ` ON ` and drops the character just before the first `(`; the call throws exactly when that range is not inside the block |
| EntityBlocks.TriggerNameAtShape | OracleToDotNet/ProcessEntities.cs:169-174 | a trigger-name match is a non-empty whole word followed by white space and `REFERENCING`, `DECLARE`, `FOR EACH` or `BEGIN` |
| EntityBlocks.FirstTriggerNameIsFirst | OracleToDotNet/ProcessEntities.cs:169-174 | the trigger name is the first such match in the block, or the empty string when there is none |
| EntityBlocks.TableNameValue | OracleToDotNet/ProcessEntities.cs:167 | a table or view name is the block, `$` replaced by `_`, up to its first CR LF pair (all of it when there is none), trimmed |
| EntityBlocks.TableNameShape | OracleToDotNet/ProcessEntities.cs:167 | a table or view name is trimmed and holds no `$` and no CR LF pair |
| EntityBlocks.BlockKeyShape | OracleToDotNet/ProcessEntities.cs:158 | every block key is upper-cased and free of double quotes |
| EntityBlocks.CleanedBlockShape | OracleToDotNet/ProcessEntities.cs:176-177 | the body runs from the first `CREATE ` to the last `;` inclusive; the call throws exactly when there is no `CREATE ` or the last `;` comes before it |
| EntityBlocks.MakeBlockShape | OracleToDotNet/ProcessEntities.cs:157-160 | every block made has an upper-cased, quote-free key and a body that starts with `CREATE ` and ends with `;` |
| EntityBlocks.MakeBlocks | OracleToDotNet/ProcessEntities.cs:157-160 | one block per source fragment, in order, the k-th made from the k-th fragment |
| EntityBlocks.ExtractBlockScripts | OracleToDotNet/ProcessEntities.cs:141-161 | the loop returns the blocks and remainder `BlockScripts` defines, or the same exception |
| EntityBlocks.BlankScriptFails | OracleToDotNet/ProcessEntities.cs:143-147 | an all-blank script has no fragment, so `Last()` throws |
| EntityBlocks.BlockScriptsShape | OracleToDotNet/ProcessEntities.cs:143-160 | with n non-blank fragments, the remainder is the last one and there are n - 1 blocks (1 when n = 1); block k, other than the last, is made from fragment k + 1; every block has an upper-cased, quote-free key and a body from `CREATE ` to `;` |
| EntityBlocks.BlockScriptsLast | OracleToDotNet/ProcessEntities.cs:151-155 | the last block is made from the first non-blank piece of the remainder, cut again on the generic `DDL for ` |
| EntityBlocks.RemainderWithin | OracleToDotNet/ProcessEntities.cs:147 | the remainder threaded to the next cut is part of the script that was cut |
| EntityExtraction.BodiesWithKey | OracleToDotNet/ProcessEntities.cs:133-134 | the bodies returned are exactly those of the blocks filed under the key |
| EntityExtraction.BodiesWithKeyAppend | OracleToDotNet/ProcessEntities.cs:133-134 | bodies are collected block by block, so order and repetitions are kept |
| EntityExtraction.Tables | OracleToDotNet/ProcessEntities.cs:129-135 | one entity per table block |
| EntityExtraction.TablesAt | OracleToDotNet/ProcessEntities.cs:129-135 | the k-th entity is built from the k-th table block with the index and trigger bodies filed under its key |
| EntityExtraction.ExtractInformation | OracleToDotNet/ProcessEntities.cs:118-139 | the four cuts, the table list and the view dictionary give what `Extraction` defines, or the same exception |
| EntityExtraction.BuildTables | OracleToDotNet/ProcessEntities.cs:129-135 | the table loop builds what `Tables` defines; the first failing table is the exception raised |
| EntityExtraction.BuildViewDictionary | OracleToDotNet/ProcessEntities.cs:137-138 | the view loop builds what `ViewDictionary` defines |
| EntityExtraction.ViewDictionaryDistinct | OracleToDotNet/ProcessEntities.cs:138 | `ToDictionary` succeeds exactly when no two views share a name, and then holds view k under its name at position k |
| EntityExtraction.BlankDumpFails | OracleToDotNet/ProcessEntities.cs:118-147 | a dump that is all white space makes `ExtractInformation` throw |
| EntityExtraction.NoTriggerMarkerNoTriggers | OracleToDotNet/ProcessEntities.cs:126-135 | with no `DDL for Trigger` in the dump the trigger cut is skipped and every table has no trigger |
| EntityExtraction.TablesCarryTheirBlocks | OracleToDotNet/ProcessEntities.cs:118-139 | one entity per table block, in order, named by the block key; its indexes are the index bodies filed under that key, in order; its triggers are the trigger bodies filed under it, with their empty lines removed; view names are distinct |
| TableSchema.ColumnRegion | OracleToDotNet/ProcessEntities.cs:198 | the columns are read strictly between the first `(` (or from the start when there is none) and the last `)`; the call throws unless the last `)` comes after the first `(` |
| TableSchema.StopIndex | OracleToDotNet/ProcessEntities.cs:202-204 | the column list stops at the first line that, trimmed, is empty or starts with `)` |
| TableSchema.ColumnLines | OracleToDotNet/ProcessEntities.cs:202-204 | no line read as a column ends the column list |
| TableSchema.CutDateNumber | OracleToDotNet/ProcessEntities.cs:218-219 | a `DATE…` or `NUMBER…` type is cut to one token that keeps its prefix and has no space; other types are kept |
| TableSchema.ParseColumn | OracleToDotNet/ProcessEntities.cs:206-224 | a line whose first token is empty throws; a column key is never the table name; types hold no double quote, and keys hold none when the table name has none |
| TableSchema.ColumnKeyRule | OracleToDotNet/ProcessEntities.cs:221-222 | a column is keyed by its unquoted, trimmed name, except that a name equal to the table's becomes `<table>_<table>` |
| TableSchema.PutColumns | OracleToDotNet/ProcessEntities.cs:224 | the column dictionary never holds a key twice |
| TableSchema.ExtractTableProperties | OracleToDotNet/ProcessEntities.cs:196-228 | the line loop builds what `TableColumns` defines, or the same exception |
| TableSchema.PutColumnsParsed | OracleToDotNet/ProcessEntities.cs:202-225 | a successful read parsed every line, and every parsed name is a key |
| TableSchema.PutColumnsLastWins | OracleToDotNet/ProcessEntities.cs:224 | each entry holds the column of the last line with its name |
| TableSchema.TableColumnsShape | OracleToDotNet/ProcessEntities.cs:196-228 | the columns have distinct names, none equal to the table's, and each is the parse of the last line of the column list with that name |
| TableSchema.CommentAt | OracleToDotNet/ProcessEntities.cs:233 | a comment match ends after where it was tried; its column and comment hold no line feed, its column is made of characters of the text and its comment holds no `'` |
| TableSchema.CommentMatches | OracleToDotNet/ProcessEntities.cs:235 | every match's column has no line break and comes from the text; its comment holds no `'` |
| TableSchema.ExtractTableComments | OracleToDotNet/ProcessEntities.cs:230-243 | the match loop builds what `TableComments` defines |
| TableSchema.CommentMapKeys | OracleToDotNet/ProcessEntities.cs:236-241 | every matched column is a key of the comment map |
| TableSchema.CommentMapLastWins | OracleToDotNet/ProcessEntities.cs:236-241 | each key holds the comment of its last match, with `'` removed |
| TableSchema.TableCommentsShape | OracleToDotNet/ProcessEntities.cs:230-243 | comment keys hold no double quote and no line break; comments hold no `'` |
| TableSchema.PropertiesOfColumns | OracleToDotNet/ProcessEntities.cs:186-191 | one property per column, in column order, with the column's name and type; it has a comment exactly when the comments have the column's name, and then that comment; it has a length exactly when the column's trimmed length text is a numeral, and then the length it spells |
| TableSchema.ExtractTableInformation | OracleToDotNet/ProcessEntities.cs:179-194 | the property loop builds what `TableInformation` defines |
| TableSchema.TableInformationShape | OracleToDotNet/ProcessEntities.cs:179-194 | the entity fails exactly when reading the columns fails; its properties are the columns in order, with distinct names none equal to the table's; a property has a comment exactly when one was found under its name |
| RoutineSegmenter.Headers | OracleToDotNet/ProcessPackages.cs:126-129 | the header indexes are increasing line indexes |
| RoutineSegmenter.HeadersExact | OracleToDotNet/ProcessPackages.cs:126-129 | a line index is a header index exactly when its line contains `PROCEDURE ` or `FUNCTION ` |
| RoutineSegmenter.NoHeaderNoRoutine | OracleToDotNet/ProcessPackages.cs:126-131 | a source without header lines yields no routine |
| RoutineSegmenter.RoutineName | OracleToDotNet/ProcessPackages.cs:157-167 | a routine name has no space and is lower-cased |
| RoutineSegmenter.CollisionSuffix | OracleToDotNet/ProcessPackages.cs:143 | a colliding name gets `_func` exactly when the trimmed, upper-cased body starts with `FUNCTION`, `_proc` otherwise |
| RoutineSegmenter.ExtractProceduresAndFunctions | OracleToDotNet/ProcessPackages.cs:120-156 | the `prev`/`next` cursor loop returns what `Routines` defines, or the same exception |
| RoutineSegmenter.FilePieceCases | OracleToDotNet/ProcessPackages.cs:139-153 | a segment without `BEGIN` is skipped; inside the loop a colliding name is retried once with its suffix and throws only if that collides too; the last segment throws on any collision |
| RoutineSegmenter.RoutinesWellFormed | OracleToDotNet/ProcessPackages.cs:120-156 | routine names are distinct, lower-cased and space-free; bodies are trimmed and contain `BEGIN` |
| RoutineSegmenter.RoutinesBodies | OracleToDotNet/ProcessPackages.cs:135-154 | the bodies are exactly the segments that contain `BEGIN`, trimmed, in file order |
| RoutineSegmenter.OneLineRoutine | OracleToDotNet/ProcessPackages.cs:120-156 | a one-line source whose line names a PROCEDURE or FUNCTION and has `BEGIN` is one routine, filed under the header's name, with the trimmed line as its body |
| RoutineSegmenter.OneLineNoRoutine | OracleToDotNet/ProcessPackages.cs:126-131 | a one-line source whose line is not a header gives no routine |
| RoutineSegmenter.TrailingSpaceHeaderRoutine | OracleToDotNet/ProcessPackages.cs:126-154 | the source `x BEGIN FUNCTION ` is one routine with the body `x BEGIN FUNCTION` |
| RoutineSegmenter.TrimmedBodyHeaderless | OracleToDotNet/ProcessPackages.cs:126-131 | the text `x BEGIN FUNCTION` gives no routine: without the trailing space it has no header line |
| RoutineSegmenter.ResegmentLosesRoutine | OracleToDotNet/ProcessPackages.cs:120-156 | segmenting a routine's body again need not give the routine back: a one-routine source whose body gives none |
| ReferenceExtractor.CallAt | OracleToDotNet/ProcessPackages.cs:173 | a call match is non-empty and lies inside the text |
| ReferenceExtractor.CallSpans | OracleToDotNet/ProcessPackages.cs:174 | every match found is a match of the call pattern at its start |
| ReferenceExtractor.Calls | OracleToDotNet/ProcessPackages.cs:169-186 | the call throws `ArgumentOutOfRange` exactly when the body has no `BEGIN` |
| ReferenceExtractor.ExtractCalls | OracleToDotNet/ProcessPackages.cs:169-186 | the match loop records what `Calls` defines |
| ReferenceExtractor.CallNameAt | OracleToDotNet/ProcessPackages.cs:187-191 | the name of a call match is its identifier, lower-cased |
| ReferenceExtractor.CallMatchNames | OracleToDotNet/ProcessPackages.cs:173-191 | every call match names a lower-cased dotted name of at least two characters that starts and ends with a word character |
| ReferenceExtractor.KeptCallsMembers | OracleToDotNet/ProcessPackages.cs:177-183 | a name is recorded exactly when some match does not start with `RETURN` and is local, a `PK_` call or in the schema |
| ReferenceExtractor.KeptCallsAppend | OracleToDotNet/ProcessPackages.cs:177-183 | matches are recorded one after the other: order and repetitions are kept |
| ReferenceExtractor.CallsAreNames | OracleToDotNet/ProcessPackages.cs:169-191 | every recorded call is a lower-cased dotted name of at least two characters |
| ReferenceExtractor.QualifiedEnd | OracleToDotNet/ProcessPackages.cs:195-197 | a table group is a run of word characters and dots that starts and ends with a word character |
| ReferenceExtractor.SelectAt | OracleToDotNet/ProcessPackages.cs:194 | a select match captures a group that holds a dot and ends the match |
| ReferenceExtractor.InsertAt | OracleToDotNet/ProcessPackages.cs:195 | an insert match captures a group that the match extends past |
| ReferenceExtractor.UpdateAt | OracleToDotNet/ProcessPackages.cs:196 | an update match captures a group that the match extends past |
| ReferenceExtractor.DeleteAt | OracleToDotNet/ProcessPackages.cs:197 | a delete match captures a group that ends the match |
| ReferenceExtractor.TableGroups | OracleToDotNet/ProcessPackages.cs:199-207 | every captured group is a run of word characters and dots starting and ending with a word character; a select group has a dot |
| ReferenceExtractor.LowerHasNoFrom | OracleToDotNet/ProcessPackages.cs:210 | after `ToLower`, `Replace("FROM ", "")` never changes the text |
| ReferenceExtractor.TableNameOfGroup | OracleToDotNet/ProcessPackages.cs:209-210 | `GetTableName` only upper-cases a captured name and keeps its schema qualifier |
| ReferenceExtractor.TablesInMembers | OracleToDotNet/ProcessPackages.cs:204-207 | a table name is recorded exactly when some captured name has a dot and names the schema |
| ReferenceExtractor.TablesInAppend | OracleToDotNet/ProcessPackages.cs:204-207 | the tables of two stretches of groups are those of the first followed by those of the second: scan order and repetitions are kept |
| ReferenceExtractor.TableNameInSchema | OracleToDotNet/ProcessPackages.cs:209-216 | a kept name is upper-cased, has a dot and contains `<SCHEMA>.` |
| ReferenceExtractor.TableReferencesInSchema | OracleToDotNet/ProcessPackages.cs:192-216 | every table of the four lists is upper-cased, has a dot and contains `<SCHEMA>.` |
| CallGraph.IntersectSound | OracleToDotNet/ProcessPackages.cs:67 | every element of the intersection comes from the first list and is in the second, ignoring case |
| CallGraph.IntersectComplete | OracleToDotNet/ProcessPackages.cs:67 | every element of the first list that is in the second is in the intersection, ignoring case |
| CallGraph.IntersectDistinct | OracleToDotNet/ProcessPackages.cs:80 | no two elements of the intersection are equal ignoring case |
| CallGraph.IntersectPrefix | OracleToDotNet/ProcessPackages.cs:67-80 | the intersection follows the order of the first list: the intersection of a prefix of it is a prefix of the intersection |
| CallGraph.IntersectFirstOfClass | OracleToDotNet/ProcessPackages.cs:67-80 | each element of the intersection is the first element of the first list of its class ignoring case |
| CallGraph.FirstWithoutCalls | OracleToDotNet/ProcessPackages.cs:64-65 | the index where a pass returns: every routine before it has calls, the one at it has none |
| CallGraph.SetInternalCalls | OracleToDotNet/ProcessPackages.cs:71-82 | the routines of the package become `InternalPass` of what they were |
| CallGraph.SetExternalCalls | OracleToDotNet/ProcessPackages.cs:60-69 | the routines of the package become `ExternalPass` of what they were, against the registry |
| CallGraph.ResolveOne | OracleToDotNet/ProcessPackages.cs:67 | one assignment sets one list of one routine and changes no other routine |
| CallGraph.PassStopsAtFirstWithoutCalls | OracleToDotNet/ProcessPackages.cs:75-81 | a routine without calls and every routine after it keep what they had; every routine before the first one without calls is resolved |
| CallGraph.PassSetsOneList | OracleToDotNet/ProcessPackages.cs:60-82 | a pass changes only the internal or the external call list of each routine |
| CallGraph.InternalCallsResolved | OracleToDotNet/ProcessPackages.cs:71-82 | internal calls are calls naming a routine of the package, ignoring case, and pairwise distinct; each is the first of the routine's calls of its class; before the early return each such call is there, in the order of the calls |
| CallGraph.ExternalCallsResolved | OracleToDotNet/ProcessPackages.cs:60-69 | external calls are registry entries among the routine's calls, ignoring case, and pairwise distinct; each is the first registry entry of its class; before the early return each such entry is there, in registry order |
| PackageProcessing.Extension | OracleToDotNet/ProcessPackages.cs:27 | the extension is the name's end from its last `.`, `.` alone when the name ends with it; it is empty exactly when there is no `.` |
| PackageProcessing.PackageName | OracleToDotNet/ProcessPackages.cs:27 | the package name is upper-cased; it exists exactly when the file name has a `.`, and otherwise `Replace("")` throws |
| PackageProcessing.TrailingDotPackageName | OracleToDotNet/ProcessPackages.cs:27 | the file `pkg.` gives the package `PKG`: the trailing `.` is its extension |
| PackageProcessing.NoDotPackageName | OracleToDotNet/ProcessPackages.cs:27 | the file `pkg` has no extension, so `Replace` throws an argument exception |
| PackageProcessing.RoutineOf | OracleToDotNet/ProcessPackages.cs:34-37 | a new routine keeps its extracted name and has no resolved call yet |
| PackageProcessing.RoutinesOfAt | OracleToDotNet/ProcessPackages.cs:31-41 | routine k of a package is built from extracted entry k |
| PackageProcessing.QualifiedNamesReadBack | OracleToDotNet/ProcessPackages.cs:38 | one registry entry per routine; dropping `schema.PACKAGE.` from an entry gives its routine name back, so two entries are equal exactly when their routine names are |
| PackageProcessing.ExternalPassAllKeeps | OracleToDotNet/ProcessPackages.cs:48 | the external pass keeps every package file's name and routines, and each routine's name, script, calls, table references and internal calls; only the external calls change |
| PackageProcessing.NewPkgFunc | OracleToDotNet/ProcessPackages.cs:34-37 | the new `PkgFunc` holds the routine's calls and table references |
| PackageProcessing.BuildFuncs | OracleToDotNet/ProcessPackages.cs:31-41 | one new, distinct `PkgFunc` per extracted routine, in order |
| PackageProcessing.ReadPackage | OracleToDotNet/ProcessPackages.cs:26-45 | one package file read, with internal calls resolved, as `PackageOf` defines, or the same exception |
| PackageProcessing.ReadPackages | OracleToDotNet/ProcessPackages.cs:24-46 | the first loop builds the files and the registry `Scan` defines; the objects are new and not shared between files |
| PackageProcessing.SetAllExternalCalls | OracleToDotNet/ProcessPackages.cs:48 | every package file gets the external pass against the registry |
| PackageProcessing.ProcessPackages | OracleToDotNet/ProcessPackages.cs:24-48 | both loops leave the package files `Processed` defines, or raise the same exception |
| PackageProcessing.PackageOfCases | OracleToDotNet/ProcessPackages.cs:26-45 | a file yields a package exactly when its name has a `.` and its routines extract; a name without a `.` throws the argument exception of `Replace`; the package holds them in extraction order, registered as `schema.PACKAGE.name`, with no external call set |
| PackageProcessing.PackageRoutinesUnresolved | OracleToDotNet/ProcessPackages.cs:31-45 | a package's routines are the internal pass over the extracted routines, which had no resolved call before it |
| PackageProcessing.PackageInternalCalls | OracleToDotNet/ProcessPackages.cs:45-48 | after both passes each internal call is one of the routine's calls naming a routine of its package |
| PackageProcessing.PackageExternalCalls | OracleToDotNet/ProcessPackages.cs:45-48 | after both passes each external call is a registry entry naming one of the routine's calls |
| PackageProcessing.ScanFiles | OracleToDotNet/ProcessPackages.cs:24-46 | the first loop succeeds exactly when every file yields a package; it keeps one package per file, in order, and a registry of all their entries |
| PackageProcessing.RegistryListsEveryRoutine | OracleToDotNet/ProcessPackages.cs:38-48 | the registry holds `schema.PACKAGE.name` for every routine of every package and nothing else |
| PackageProcessing.ProcessedCallsResolved | OracleToDotNet/ProcessPackages.cs:24-48 | at the end, internal calls name routines of the same package and external calls name registered routines, each one of the routine's calls up to case |

## Left out

- File and directory I/O is not modelled. This covers `Directory.GetFiles`, `File.ReadAllText` with Latin-1 decoding, folder creation and `File.WriteAllText`. The package files are a parameter: a sequence of file names and contents, in the order they are listed. The DDL dump is given as text.
- The composition in the `ProcessEntities` constructor (`RemoveComments` applied to the dump before `ExtractInformation`) is not a member of its own. Both halves are modelled.
- Code generation is not modelled: `GenerateViewFile`, `GenerateTableFile`, `GenerateTableProperties`, the `SQLToNetDataTypes` lookup, `GeneratePackageFile` and `GenerateFuncContent`. They only interpolate strings.
- `Program.cs` is not part of this model. `PkgFile.cs` is modelled as the datatype `PkgFile` of its two fields: a name and a list of `PkgFunc` objects.
- PackageProcessing.Extension: follows `FileInfo.Extension` as it behaves on Unix, where a trailing `.` is kept in the full path and is the extension. On Windows the full path loses trailing dots, so there `pkg.` has no extension and the constructor throws; that platform behaviour is not modelled.
- Culture-sensitive operations are approximated:
  - `ToUpper`, `ToLower` and `InvariantCultureIgnoreCase` map ASCII letters only.
  - `IndexOf(string)` and `StartsWith(string)` are ordinal, not culture-aware.
  - Case mapping outside ASCII, and culture-specific matching, are not modelled.
- The regular expressions are hand-written scanners. Their equivalence to the .NET engine is argued in comments, not proved.
- Enumerable laziness is not modelled. The intersections are computed when they are assigned. Their inputs do not change afterwards (routine names are fixed, and the registry is complete before the external pass), so the result is the same.
- The registry is appended once per package, rather than once per routine inside the inner loop. Nothing reads it before every package is done, and nothing in the inner loop can fail, so the list is the same.
- An exception in the constructor is modelled as an `Err` result. Files or folders written before it are not modelled.
- TableProperties.NewTableProperty: models only part of `float.TryParse`. It accepts lengths made of digits and `,` group separators, after trimming. Decimal points, signs, exponents and other cultures are not modelled. The value is an exact `nat`, without rounding to single precision.
- TableSchema.ParseColumn: its contract states the key and quote rules. The type and length rules (the text before `(`, the parenthesised length without ` BYTE`, commas removed otherwise) are stated only by its definition.
- EntityBlocks.BlockKeyShape: does not state that the key is free of `<SCHEMA>.`. Removing every occurrence in one pass can join text into a new occurrence: `AAB.B.` with schema `AB` gives `AB.`.
- RoutineSegmenter.Routines: no lemma states that segmenting a routine's body again gives that routine back, because it does not hold. Bodies are trimmed, and trimming can remove the space a header line needs: `ResegmentLosesRoutine` shows the source `x BEGIN FUNCTION `.

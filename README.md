# mbRole in Dafny

mbRole does metabolite-set enrichment analysis. It reads a query set of
compound identifiers. It then tests that set against every annotation
category (a named set of compounds). Each test is Fisher's exact test on a
2x2 contingency table. The resulting p-values are corrected with the
Benjamini-Hochberg false-discovery-rate procedure, and the categories that
stay significant are reported. The annotation table is filled beforehand by
import scripts that read the KEGG COMPOUND flat file and the ChEBI ontology
graph. A further script cuts the HMDB metabolite XML into chunks.

This project models that core and proves what it does:

- `functional_enrichment.dfy` (module `FunctionalEnrichment`): the
  evaluator `functional_enrichment`, over sets and category member lists;
  its contingency table; and the grouping loop of `get_genes_per_category`.
- `correction.dfy` (module `Correction`): `correct_pvalue`, the
  Benjamini-Hochberg adjustment. It is defined in closed form over exact
  reals and proved equal to scipy's procedure: sort, scale by `m / rank`,
  take the running minimum from the top, clip, and restore the original
  order. The proof holds for every tie order the sort may pick.
- `kegg.dfy` (module `Kegg`): the line-driven `parse_kegg` state machine.
  It is written as a loop proved against a function that reads the file line by line. The
  module also models the printing loop of the KEGG script's `main`.
- `chebi.dfy` (module `Chebi`): the ChEBI helpers and the relation-to-row
  loop of the ChEBI script's `main`. The helpers are id-from-URL,
  edge-to-pair, the labelled-node table and the label lookup.
- `hmdb_split.dfy` (module `HmdbSplit`): the chunking loop of the HMDB
  splitter.
- `cli.dfy` (module `Cli`): the data flow of `main.py`. It covers:
  - reading the query file and choosing the background;
  - merging the per-database categories, or building the named ones;
  - one result row per category, the FDR column and the `< 0.05` filter.
- Support modules:
  - `text.dfy` (module `Text`): the Python `str` operations the scripts
    use, written out over `seq<char>`;
  - `pydict.dfy` (module `PyDict`): insertion-ordered Python dicts as
    association lists, with `d[k] = v`, `d | e`, dict comprehensions and
    `defaultdict(list)` appends;
  - `results.dfy` (module `Results`): `Option` and `Result`.

Fisher's exact test is a parameter of type `Table -> PValue`: any function
from a 2x2 table to a real in `[0, 1]`. Database queries are replaced by the
table's rows, given as a sequence. Files are given as their lines.

In three places the code behaves in a way one might not expect, and the model follows the code:

- When every category of the chosen databases is used, `main.py` passes
  each category's members as a list. The reported size `len(...)` then
  counts repeated compounds.
- Merging the databases' categories is `dict | dict`. On a shared name, the
  later database wins.
- An empty background gives no special error. The exact test receives the
  table as it is.

## Model

| member | source | states |
|---|---|---|
| Text.StripChars | scripts/kegg-compound-to-sqlite.py:51 | the result neither starts nor ends with a stripped character, and it is the input with only such characters removed at the two ends |
| Text.StripCharsIdempotent | main.py:24 | stripping an already stripped string changes nothing |
| Text.Split | scripts/kegg-compound-to-sqlite.py:53 | every token of `split()` is non-empty and contains no whitespace |
| Text.SplitJoin | scripts/kegg-compound-to-sqlite.py:57 | splitting words joined with single spaces gives back the same words |
| Text.SplitAtSpace | scripts/kegg-compound-to-sqlite.py:53 | `split()` cuts at every whitespace character: the tokens of `a + c + b` are those of `a` followed by those of `b` |
| Text.SplitWord | scripts/kegg-compound-to-sqlite.py:53 | a non-empty word without whitespace is exactly one token |
| Text.SplitBlank | scripts/kegg-compound-to-sqlite.py:53 | text of nothing but whitespace has no tokens; with the two rows above this fixes the tokens of every string |
| Text.SplitTwoWords | scripts/kegg-compound-to-sqlite.py:51 | two words around one whitespace character split into exactly those two words |
| Text.LastSegment | scripts/chebi-to-sqlite.py:27 | `split("/")[-1]` contains no separator, is a suffix of the input, and is the whole input or follows a separator |
| Text.LastSegmentIdempotent | scripts/chebi-to-sqlite.py:27 | taking the last segment twice gives the same result as once |
| Text.NatToString | scripts/split-hmdb-xml.py:31 | the f-string rendering of a counter is a non-empty run of decimal digits with no leading zero |
| Text.NatToStringRoundTrip | scripts/split-hmdb-xml.py:31 | reading the rendered digits back gives the number |
| Text.NatToStringInjective | scripts/split-hmdb-xml.py:31-32 | different counters render differently |
| PyDict.Put | scripts/chebi-to-sqlite.py:139 | `d[k] = v` keeps an existing key in place or appends a new one, makes `k` map to `v`, leaves every other key's value alone and keeps keys distinct |
| PyDict.PutToMap | scripts/chebi-to-sqlite.py:139 | read as a mapping, `d[k] = v` changes the value at `k` and at no other key |
| PyDict.UnionFacts | main.py:97 | `l \| r` has the keys of `l` followed by the new keys of `r`, each once, and looks a key up in `r` first, then in `l` |
| PyDict.UnionToMap | main.py:97 | read as mappings, `l \| r` is the right-biased union |
| PyDict.ComprehensionIntoFacts | main.py:101 | a dict comprehension has each key once, in order of first appearance, mapped to its computed value |
| PyDict.AppendToGetOr | mbrole/functional_enrichment.py:40 | appending to a `defaultdict(list)` adds the value at the end of that key's list and changes no other list |
| PyDict.GroupIntoSnoc | mbrole/functional_enrichment.py:38-40 | grouping one more pair is one more append |
| PyDict.GroupIntoKeys | mbrole/functional_enrichment.py:37-41 | grouping keeps keys distinct and adds new keys in order of first appearance |
| PyDict.GroupIntoValues | mbrole/functional_enrichment.py:37-41 | after grouping, each key's list is its old list followed by the key's values in input order |
| PyDict.GroupMeaning | mbrole/functional_enrichment.py:37-41 | a fresh grouping has exactly the input's keys, once each, and maps each key to all of its values in order, repeats kept |
| PyDict.GroupFacts | mbrole/functional_enrichment.py:37-41 | the grouping of a list of pairs has each key once, in order of first appearance, and each item holds exactly that key's values in input order |
| PyDict.GroupIntoTotalLength | mbrole/functional_enrichment.py:37-41 | grouping stores every pair: the lists' total length grows by the number of pairs |
| FunctionalEnrichment.Table.Rows | mbrole/functional_enrichment.py:72 | the reshape puts `[a, b, c, d]` in row-major order `[[a, b], [c, d]]`; it documents that layout, since the exact test is a parameter that takes the `Table` itself |
| FunctionalEnrichment.Members.AsSet | mbrole/functional_enrichment.py:61 | the set operations see a member list as the set of its elements |
| FunctionalEnrichment.ContingencyTable | mbrole/functional_enrichment.py:61-72 | `a + c` is the query's size, `b + d` is the background's size, and `a` and `b` are at most the category's size |
| FunctionalEnrichment.Evaluate | mbrole/functional_enrichment.py:53-75 | the overlap is the size of query ∩ category and the size is `len(category)` on both paths; with no overlap the p-value is 1, otherwise it is the test on the table, whose first cell is at least 1 |
| FunctionalEnrichment.ZeroOverlapSkipsTest | mbrole/functional_enrichment.py:62-64 | with no overlap the result is `(1, 0, len)` whatever the background and the exact test |
| FunctionalEnrichment.EmptyCategoryOrQuery | mbrole/functional_enrichment.py:61-64 | an empty category or an empty query always takes the zero-overlap path |
| FunctionalEnrichment.ListSizeCountsDuplicates | mbrole/functional_enrichment.py:75 | a member list counts its repeated compounds in the size; a set does not |
| FunctionalEnrichment.FixtureScenario | tests/functional_enrichment_test.py:14-18 | the project's test case gives table `[[4, 4], [1, 5]]`, overlap 4, size 4 |
| FunctionalEnrichment.SwappedRolesChangeTable | mbrole/functional_enrichment.py:66-72 | swapping the query and the background gives a different table, so the exact test is asked a different question |
| FunctionalEnrichment.EmptyBackground | mbrole/functional_enrichment.py:68-74 | an empty background gives zero background cells, and the test still runs |
| FunctionalEnrichment.GenesPerCategory | mbrole/functional_enrichment.py:37-41 | the loop builds the grouping of (annotation, compound) pairs: each annotation once, in order of first appearance, with its compounds in row order, repeats kept |
| Correction.CorrectPValues | mbrole/functional_enrichment.py:77-78 | one adjusted value per p-value, at its position; each is in `[0, 1]` and at least its p-value; a smaller p-value never gets a larger adjusted value; a single p-value is unchanged |
| Correction.StepUpMinMonotone | mbrole/functional_enrichment.py:78 | the step-up minimum grows with the p-value it starts from |
| Correction.ProcedureMatches | mbrole/functional_enrichment.py:78 | for every valid argsort order, sort, scale, running minimum, clip and unsort give exactly `CorrectPValues` |
| Correction.PositionsKept | mbrole/functional_enrichment.py:78 | `[0.5, 0.01, 0.2]` is adjusted to `[0.5, 0.03, 0.3]` at the same positions |
| Correction.EmptyInput | mbrole/functional_enrichment.py:78 | no p-values give no adjusted values |
| Kegg.ParseKegg | scripts/kegg-compound-to-sqlite.py:27-71 | the loop returns the recorded (ID, pathway) pairs grouped by ID, or the first line's `IndexError`; every ID with a recorded pathway is a key once, in first-record order, holding its pathways in file order |
| Kegg.ParseLine | scripts/kegg-compound-to-sqlite.py:49-70 | one pass of the loop body raises exactly when the line-by-line reading of the file fails on that line, and otherwise moves the ID, the pathway flag and the recorded pairs as that reading does, the dict staying the grouping of the recorded pairs |
| Kegg.ErrorStops | scripts/kegg-compound-to-sqlite.py:48-70 | after a line raises, no later line changes the outcome |
| Kegg.EntryLine | scripts/kegg-compound-to-sqlite.py:49-51 | an `ENTRY` line sets the ID to its second token and records nothing; the pathway flag is unchanged; fewer than two tokens raise |
| Kegg.PathwayLine | scripts/kegg-compound-to-sqlite.py:52-60 | a `PATHWAY` line turns pathway mode on and records `(token 2, rest joined)` only when an ID is set; fewer than two tokens raise |
| Kegg.ContinuationLine | scripts/kegg-compound-to-sqlite.py:66-70 | in pathway mode a space-led line records `(token 1, rest joined)` under the current ID, even the empty one; a blank line raises |
| Kegg.OtherLine | scripts/kegg-compound-to-sqlite.py:64-66 | any other line records nothing; a line not starting with a space ends pathway mode |
| Kegg.RecordsOnlyGrow | scripts/kegg-compound-to-sqlite.py:56-70 | the pairs recorded from the first lines are a prefix of those from the whole file |
| Kegg.KeyLines | scripts/kegg-compound-to-sqlite.py:80-81 | one line `ID,"name",KEGG,False` per pathway of a compound, in list order |
| Kegg.PrintPathways | scripts/kegg-compound-to-sqlite.py:77-82 | the nested loop prints the output of every compound in key order, and the counter ends one past the number of pathways |
| Kegg.OutputLength | scripts/kegg-compound-to-sqlite.py:78-81 | exactly one line is printed per stored pathway |
| Kegg.OutputAt | scripts/kegg-compound-to-sqlite.py:78-81 | the `j`-th pathway of the `k`-th compound is printed at the position after all pathways of earlier compounds |
| Kegg.OneLinePerRecord | scripts/kegg-compound-to-sqlite.py:75-81 | for a parsed file, the number of printed lines equals the number of recorded pairs |
| Chebi.ParseId | scripts/chebi-to-sqlite.py:22-27 | the id is the text after the last `/`, or the whole URL when it has none; it contains no `/` |
| Chebi.ParseIdIdempotent | scripts/chebi-to-sqlite.py:27 | parsing an id again gives the same id |
| Chebi.ParseIdAfterSlash | scripts/chebi-to-sqlite.py:27 | a prefix ending in `/` followed by a `/`-free id parses to that id |
| Chebi.OboUrlRoundTrip | scripts/chebi-to-sqlite.py:130-137 | the OBO URL built by the label lookup parses back to the id the node table uses |
| Chebi.EdgePairs | scripts/chebi-to-sqlite.py:116-119 | exactly one (sub, obj) pair per edge, in edge order, with both ends parsed |
| Chebi.ParseChebi | scripts/chebi-to-sqlite.py:116-119 | a document without graphs fails; otherwise the relations are the edge pairs of the first graph |
| Chebi.PairsAreIds | scripts/chebi-to-sqlite.py:118 | the ends of a relation parse to themselves |
| Chebi.LastLabelled | scripts/chebi-to-sqlite.py:137-139 | a node is found for an id exactly when some labelled node's URL parses to that id |
| Chebi.NodeTableMeaning | scripts/chebi-to-sqlite.py:133-142 | the node table has each id once; its keys are the parsed ids of the labelled nodes; each maps to (label, URL) of the last labelled node with that id |
| Chebi.ChebiNodes | scripts/chebi-to-sqlite.py:133-142 | the loop builds that table: unlabelled nodes are skipped and later nodes overwrite earlier ones |
| Chebi.GetObjName | scripts/chebi-to-sqlite.py:121-131 | stops the iteration exactly when no node has the OBO URL of the id; otherwise, for the first node with that URL, returns its label when it has one and is a missing `"lbl"` key when it has none |
| Chebi.ObjNameInTable | scripts/chebi-to-sqlite.py:130-131 | an id whose label the lookup finds is also a key of the node table |
| Chebi.Inserted | scripts/chebi-to-sqlite.py:163-168 | the loop stops with an error exactly when fewer rows than relations are inserted |
| Chebi.InsertedMeaning | scripts/chebi-to-sqlite.py:163-168 | the inserted rows are `(sub label, obj label, "CHEBI", sub URL)` for the relations before the first one with a missing end; the error names that end, checking the object first |
| Chebi.AllLabelled | scripts/chebi-to-sqlite.py:163-168 | when every end is in the node table, there is one row per relation and no error |
| Chebi.InsertRelations | scripts/chebi-to-sqlite.py:163-168 | the loop inserts exactly those rows and stops with exactly that error |
| Chebi.ChebiToRows | scripts/chebi-to-sqlite.py:157-168 | the conversion builds the table and relations from the first graph and inserts rows whose database column is always `CHEBI` |
| Chebi.RowsDescribeRelations | scripts/chebi-to-sqlite.py:163-168 | each inserted row carries the subject's label and URL and the object's label from the last labelled node of each id |
| HmdbSplit.ProcessFacts | scripts/split-hmdb-xml.py:25-36 | the written chunks' lines followed by the pending lines are the input; chunk `n` is named `chunks_{chunksize}_{n}`; each chunk ends at its first cut point (a closing line reached with exactly `chunksize` opening lines) and at no earlier line; the pending lines contain no cut point, so no chunk is missed; the counter equals the pending opening lines |
| HmdbSplit.StepKeeps | scripts/split-hmdb-xml.py:25-36 | one more line preserves all of these facts |
| HmdbSplit.StepNoCut | scripts/split-hmdb-xml.py:30-36 | a line that makes a cut point is written out at once, so the pending lines never hold one |
| HmdbSplit.SplitXml | scripts/split-hmdb-xml.py:20-36 | the loop writes exactly those chunks' texts under their names, and its text and counters match the pending state |
| HmdbSplit.SplitLine | scripts/split-hmdb-xml.py:26-36 | one pass of the loop body takes the text, the counters and the written files from one state of the line-by-line splitting to the next |
| HmdbSplit.NothingLost | scripts/split-hmdb-xml.py:25-36 | the written files' text followed by the unwritten text is the whole input |
| HmdbSplit.OneMetaboliteChunk | scripts/split-hmdb-xml.py:25-36 | a file of one metabolite split by ones writes it as chunk `chunks_1_0` and leaves nothing pending |
| HmdbSplit.ChunkNamesDistinct | scripts/split-hmdb-xml.py:31-32 | no two written files share a name |
| HmdbSplit.NegativeChunksizeWritesNothing | scripts/split-hmdb-xml.py:30 | with a negative chunk size nothing is ever written |
| Cli.ParseInputFile | main.py:20-25 | the set holds the stripped form of every line and nothing else |
| Cli.CompoundsAreStripped | main.py:24 | no compound read from a file has whitespace around it |
| Cli.BlankLineGivesEmptyName | main.py:24 | a whitespace-only line contributes the empty name |
| Cli.DuplicatesCollapse | main.py:24 | more lines that strip to names already read add nothing |
| Cli.EmptyQueryMeansNoLines | main.py:70-73 | the query set is empty exactly when the file has no lines |
| Cli.BlankFileIsNotEmpty | main.py:70-73 | a file holding one blank line gives the query set `{""}`, so the run goes on |
| Cli.CompoundsFrom | main.py:18 | the background from the table is the compounds of the rows from the given database |
| Cli.GetBgSet | main.py:15-18 | with a background file, the background is the stripped lines of that file; without one, it is every compound of the table's rows from `CHEBI` |
| Cli.ChebiBackground | main.py:15-18 | without a background file, a table filled by the ChEBI import gives exactly the imported subjects as background |
| Cli.RowsOf | main.py:96 | the rows of one database are exactly the table's rows with that database, and the result is no longer than the table |
| Cli.RowsOfCount | main.py:96 | each row of the database is selected as often as it occurs in the table, repeats included, and no other row is |
| Cli.RowsOfAppend | main.py:96 | selecting a database's rows from two parts of the table gives the first part's rows, then the second's, so the table's order and repeats are kept |
| Cli.MergedIsRightBiased | main.py:95-97 | the merged dict has each category once, and as a mapping it is the union of the databases' categories in which each database overrides the ones before |
| Cli.LastDatabaseWins | main.py:95-97 | a category of the last database has that database's compounds in the merge |
| Cli.MergeDatabases | main.py:86-97 | the loop merges the categories of the databases asked for, in order; the `stored` list stands for the fallback of main.py:89-90, which the argument parser never lets run |
| Cli.CategoryCompounds | main.py:101 | a named category holds the compounds of all rows with that annotation |
| Cli.NamedCategoriesFacts | main.py:101 | the named categories are exactly the names given, once each, in order of first mention, each with its compounds |
| Cli.AsLists | main.py:96 | merged categories keep their order and pass their compounds on as lists |
| Cli.SelectCategories | main.py:81-101 | the categories are the named ones when names are given, otherwise all categories of the merged databases |
| Cli.EvaluateCategories | main.py:112-117 | one result row per category, in the dict's order, each the evaluation of that category |
| Cli.EvaluatedAll | main.py:112-117 | the result column holds one evaluation per category, position by position |
| Cli.FdrAligned | main.py:118-119 | each row's FDR is the adjustment of its own p-value, its other columns are kept, it is at least the p-value, and the order of p-values is respected |
| Cli.Significant | main.py:120-121 | the filter keeps exactly the rows whose FDR is below 0.05 |
| Cli.SignificantAppend | main.py:120-121 | the filter keeps the rows' order |
| Cli.KeptRowsAreNominallySignificant | main.py:119-121 | a kept row also has a p-value below 0.05 |
| Cli.RunAnalysis | main.py:59-122 | an empty query set stops the run with an error before anything else; otherwise the report is the analysis of the query set |

## Left out

- SQL and SQLite. The model replaces the database with the table's rows as a sequence. This covers:
  - the query functions of `mbrole/functional_enrichment.py` and `mbrole/annotation.py`;
  - `insert_into_db` and `initialize_db`;
  - the table names. `get_category_compounds` and `get_bg_set` use the fixed table `mbrole`, while `main.py:96` passes `args.table`. The model uses one row sequence for all of them.
- The Fisher exact test's numerics are not modelled. The test is any function from a table to a probability.
- Floating point is not modelled. The Benjamini-Hochberg adjustment is over exact reals. scipy's rejection of p-values outside `[0, 1]` is built into the `PValue` type.
- The run with no categories at all is not modelled in full. The model reports an empty table. What scipy does with the empty, untyped pandas column is not modelled.
- `mbrole/annotation.py` is not part of this model. The fallback of main.py:89-90, which lists the stored databases when none is named, cannot run: `--database` is required and takes one or more values (mbrole/arg_parse.py:22), so `databases` is never `[]`. That line also uses `mbrole.annotation`, which `main.py` never imports. The model keeps the branch as the parameter `stored` of `MergeDatabases`.
- Cli.ParseInputFile: the model takes the file's lines. In the code, `--compound` and `--background` are `argparse.FileType` objects (mbrole/arg_parse.py:18 and :21), already open, and `parse_input_file` calls `open()` on them (main.py:22). That raises `TypeError`, so the run as written stops when it reads the query file (main.py:70). The model reads the file as `parse_input_file` evidently intends.
- `args.all`, `args.table` and `args.output` are not declared by the argument parser. `all` is a plain parameter. The output path and the CSV writing are left out.
- The `pval is None` branch of `main.py:115-116` is not modelled. It is unreachable, because a `None` result would already fail to unpack on the line before.
- The following are not modelled:
  - argument parsing;
  - logging setup and log levels;
  - `tqdm` progress bars;
  - pandas DataFrame plumbing;
  - gzip, JSON and XML loading;
  - file encodings;
  - creating the output directory;
  - writing the gzip chunks;
  - the splitter's progress line.
- The scripts with no logic of their own are not modelled: `hmdb-to-sqlite.py`, `reactome-to-sqlite.py`, `kegg-organism-backgrounds.py`, `CTD-to-sqlite.py` and `ymdb-to-sqlite.py`.
- HmdbSplit.Process: the chunk size is an integer. An absent `--chunksize` is `None` in the script. There the comparison never holds, as for a negative size, and nothing is written.
- Chebi.GetObjName: the model searches the nodes of the first graph, `graphs[0]["nodes"]`. The code as written never does that: `_get_obj_name` filters its `chebi_data` argument directly, and iterating a dict yields its keys, so `x["id"]` raises `TypeError` on any non-empty document. The function has no caller in the script.
- Chebi.ParseChebi: of the possible malformed JSON shapes, only a document without graphs is modelled. Missing `"id"`, `"sub"`, `"obj"`, `"nodes"` or `"edges"` keys are not.
- Cli.EvaluateCategories: reads each category's members from that category's own entry instead of looking its name up again. The two are the same, because every dict the model builds has each key once (`Cli.MergedIsRightBiased`, `Cli.NamedCategoriesFacts`).
- Text.Split: whitespace is Python's `str.isspace` set, written out character by character. Unicode normalisation is not modelled.

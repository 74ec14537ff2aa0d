/**
 * The command-line analysis of `main.py`: read the query compounds, pick
 * the categories (every category of the chosen databases, merged, or the
 * categories named by the user), pick the background, evaluate each
 * category, add the FDR column and keep the significant rows.
 *
 * The annotation table is given as its rows; the exact test is a parameter.
 */
module Cli {
  import opened Text
  import opened PyDict
  import opened Results
  import opened FunctionalEnrichment
  import Correction
  import Chebi

  /** `parse_input_file`: the lines of the file, each stripped of surrounding whitespace, as a set. */
  function ParseInputFile(lines: seq<string>): (compounds: set<string>)
    ensures forall i | 0 <= i < |lines| :: Strip(lines[i]) in compounds
    ensures forall x | x in compounds :: exists i | 0 <= i < |lines| :: Strip(lines[i]) == x
  {
    set i | 0 <= i < |lines| :: Strip(lines[i])
  }

  /** No compound read from a file has whitespace around it. */
  lemma CompoundsAreStripped(lines: seq<string>, x: string)
    requires x in ParseInputFile(lines)
    ensures Strip(x) == x
  {
    var i :| 0 <= i < |lines| && Strip(lines[i]) == x;
    StripCharsIdempotent(lines[i], Whitespace);
  }

  /** A line of nothing but whitespace contributes the empty compound name. */
  lemma BlankLineGivesEmptyName(lines: seq<string>, i: nat)
    requires i < |lines| && forall k | 0 <= k < |lines[i]| :: IsSpace(lines[i][k])
    ensures "" in ParseInputFile(lines)
  {
    assert Strip(lines[i]) == [];
  }

  /** Repeated lines, or lines differing only in surrounding whitespace, give one compound. */
  lemma DuplicatesCollapse(lines: seq<string>, extra: seq<string>)
    requires forall k | 0 <= k < |extra| :: exists i | 0 <= i < |lines| :: Strip(lines[i]) == Strip(extra[k])
    ensures ParseInputFile(lines + extra) == ParseInputFile(lines)
  {
    var all := lines + extra;
    forall x | x in ParseInputFile(all) ensures x in ParseInputFile(lines) {
      var j :| 0 <= j < |all| && Strip(all[j]) == x;
      if j >= |lines| {
        assert all[j] == extra[j - |lines|];
      } else {
        assert all[j] == lines[j];
      }
    }
    forall x | x in ParseInputFile(lines) ensures x in ParseInputFile(all) {
      var j :| 0 <= j < |lines| && Strip(lines[j]) == x;
      assert all[j] == lines[j];
    }
  }

  /** The compounds of the rows from one source database. */
  function CompoundsFrom(rows: seq<Row>, database: string): (s: set<string>)
    ensures forall x :: x in s <==> exists i | 0 <= i < |rows| :: rows[i].database == database && rows[i].compound == x
  {
    set i | 0 <= i < |rows| && rows[i].database == database :: rows[i].compound
  }

  /**
   * `get_bg_set`: the compounds of the background file when one is given,
   * otherwise every compound the table has from ChEBI.
   */
  function GetBgSet(background: Option<seq<string>>, rows: seq<Row>): (s: set<string>)
    ensures background.Some? ==>
              forall x :: x in s <==> exists i | 0 <= i < |background.value| :: Strip(background.value[i]) == x
    ensures background.None? ==>
              forall x :: x in s <==> exists i | 0 <= i < |rows| :: rows[i].database == "CHEBI" && rows[i].compound == x
  {
    match background
    case Some(lines) => ParseInputFile(lines)
    case None => CompoundsFrom(rows, "CHEBI")
  }

  /**
   * Without a background file, a table filled by the ChEBI import gives as
   * background exactly the subjects of the imported relations.
   */
  lemma ChebiBackground(graphs: seq<Chebi.Graph>)
    ensures var rows := Chebi.Convert(graphs).0;
            GetBgSet(None, rows) == set i | 0 <= i < |rows| :: rows[i].compound
  {
    var rows := Chebi.Convert(graphs).0;
    if graphs != [] {
      Chebi.InsertedMeaning(Chebi.EdgePairs(graphs[0].edges), Chebi.NodeTable(graphs[0].nodes));
    }
    assert forall i | 0 <= i < |rows| :: rows[i].database == "CHEBI";
  }

  /** The rows from one source database, in table order. */
  function RowsOf(rows: seq<Row>, database: string): (r: seq<Row>)
    ensures |r| <= |rows|
    ensures forall x :: x in r <==> x in rows && x.database == database
  {
    if rows == [] then []
    else RowsOf(rows[..|rows| - 1], database) + if rows[|rows| - 1].database == database then [rows[|rows| - 1]] else []
  }

  /** Each row of the database is selected as often as it occurs in the table, and no other row is. */
  lemma {:induction false} RowsOfCount(rows: seq<Row>, database: string, x: Row)
    ensures multiset(RowsOf(rows, database))[x] == if x.database == database then multiset(rows)[x] else 0
  {
    if rows != [] {
      var init, last := rows[..|rows| - 1], rows[|rows| - 1];
      assert rows == init + [last];
      RowsOfCount(init, database, x);
    }
  }

  /** One more row at the end of the table is selected at the end, or not at all. */
  lemma RowsOfSnoc(rows: seq<Row>, x: Row, database: string)
    ensures RowsOf(rows + [x], database) == RowsOf(rows, database) + if x.database == database then [x] else []
  {
    assert (rows + [x])[..|rows|] == rows;
  }

  /** Selecting keeps the table's order: the rows of two parts are those of the first, then those of the second. */
  lemma {:induction false} RowsOfAppend(a: seq<Row>, b: seq<Row>, database: string)
    ensures RowsOf(a + b, database) == RowsOf(a, database) + RowsOf(b, database)
    decreases |b|
  {
    if b == [] {
      assert a + b == a;
    } else {
      var init, last := b[..|b| - 1], b[|b| - 1];
      assert b == init + [last];
      assert a + b == (a + init) + [last];
      RowsOfSnoc(a + init, last, database);
      RowsOfSnoc(init, last, database);
      RowsOfAppend(a, init, database);
      AppendAssoc(RowsOf(a, database), RowsOf(init, database), if last.database == database then [last] else []);
    }
  }

  lemma AppendAssoc<T>(x: seq<T>, y: seq<T>, z: seq<T>)
    ensures (x + y) + z == x + (y + z)
  {
  }

  /** The categories of one database, as `get_genes_per_category` groups them. */
  function CategoriesOf(rows: seq<Row>, database: string): Dict<string, seq<string>> {
    Group(AnnotationPairs(RowsOf(rows, database)))
  }

  /** `annotation | ann_` over the databases in turn, from an empty dict. */
  function Merged(rows: seq<Row>, databases: seq<string>): Dict<string, seq<string>> {
    if databases == [] then []
    else Union(Merged(rows, databases[..|databases| - 1]), CategoriesOf(rows, databases[|databases| - 1]))
  }

  /** The same merge read as mappings: each database's categories override those of the ones before. */
  function MergedMap(rows: seq<Row>, databases: seq<string>): map<string, seq<string>> {
    if databases == [] then map[]
    else MergedMap(rows, databases[..|databases| - 1]) + ToMap(CategoriesOf(rows, databases[|databases| - 1]))
  }

  /** The merged dict has each category once and is the right-biased union of the databases' categories. */
  lemma {:induction false} MergedIsRightBiased(rows: seq<Row>, databases: seq<string>)
    ensures Valid(Merged(rows, databases))
    ensures ToMap(Merged(rows, databases)) == MergedMap(rows, databases)
  {
    if databases != [] {
      var init := databases[..|databases| - 1];
      var last := CategoriesOf(rows, databases[|databases| - 1]);
      MergedIsRightBiased(rows, init);
      GroupMeaning(AnnotationPairs(RowsOf(rows, databases[|databases| - 1])));
      UnionFacts(Merged(rows, init), last);
      UnionToMap(Merged(rows, init), last);
    }
  }

  /**
   * On a category name that several databases share, the last database
   * that has it decides its compounds.
   */
  lemma LastDatabaseWins(rows: seq<Row>, databases: seq<string>, name: string)
    requires databases != []
    requires name in AnnotationsOf(RowsOf(rows, databases[|databases| - 1]))
    ensures Get(Merged(rows, databases), name) == Some(CompoundsOf(RowsOf(rows, databases[|databases| - 1]), name))
  {
    var init := databases[..|databases| - 1];
    var lastRows := RowsOf(rows, databases[|databases| - 1]);
    MergedIsRightBiased(rows, init);
    GroupMeaning(AnnotationPairs(lastRows));
    UnionFacts(Merged(rows, init), CategoriesOf(rows, databases[|databases| - 1]));
    DedupIntoFacts([], Keys(AnnotationPairs(lastRows)));
    var m := ToMap(CategoriesOf(rows, databases[|databases| - 1]));
    assert name in m;
    assert Get(CategoriesOf(rows, databases[|databases| - 1]), name) == Some(m[name]);
  }

  /**
   * The merge loop of `main` (no categories named): the databases asked
   * for, or the stored ones when none are, each grouped and merged in.
   */
  method MergeDatabases(rows: seq<Row>, databases: seq<string>, stored: seq<string>)
    returns (annotation: Dict<string, seq<string>>)
    ensures annotation == Merged(rows, if databases == [] then stored else databases)
    ensures Valid(annotation)
  {
    var dbs := if databases == [] then stored else databases;
    annotation := [];
    var i := 0;
    while i < |dbs|
      invariant 0 <= i <= |dbs|
      invariant annotation == Merged(rows, dbs[..i])
    {
      assert dbs[..i + 1][..i] == dbs[..i];
      var ann := GenesPerCategory(RowsOf(rows, dbs[i]));
      annotation := Union(annotation, ann);
      i := i + 1;
    }
    assert dbs[..i] == dbs;
    MergedIsRightBiased(rows, dbs);
  }

  /** `get_category_compounds`: the compounds of every row with that annotation, as a set. */
  function CategoryCompounds(rows: seq<Row>, name: string): (s: set<string>)
    ensures forall x :: x in s <==> exists i | 0 <= i < |rows| :: rows[i].annotation == name && rows[i].compound == x
  {
    set i | 0 <= i < |rows| && rows[i].annotation == name :: rows[i].compound
  }

  /** The dict comprehension of `main` over the named categories. */
  function NamedCategories(rows: seq<Row>, names: seq<string>): Dict<string, Members> {
    Comprehension(names, name => Set(CategoryCompounds(rows, name)))
  }

  /** Its keys are exactly the names given, each once, in order of first mention, with the compounds so annotated. */
  lemma NamedCategoriesFacts(rows: seq<Row>, names: seq<string>)
    ensures Valid(NamedCategories(rows, names))
    ensures Keys(NamedCategories(rows, names)) == Dedup(names)
    ensures forall name | name in names :: Get(NamedCategories(rows, names), name) == Some(Set(CategoryCompounds(rows, name)))
  {
    ComprehensionIntoFacts([], names, name => Set(CategoryCompounds(rows, name)));
  }

  /** Grouped categories hand their compounds over as lists. */
  function AsLists(d: Dict<string, seq<string>>): (r: Dict<string, Members>)
    ensures |r| == |d|
    ensures forall i | 0 <= i < |d| :: r[i] == (d[i].0, List(d[i].1))
  {
    if d == [] then [] else [(d[0].0, List(d[0].1))] + AsLists(d[1..])
  }

  /** The categories `main` analyses: the named ones, or all of the merged databases'. */
  function Categories(rows: seq<Row>, names: seq<string>, databases: seq<string>, stored: seq<string>): Dict<string, Members> {
    if names == [] then AsLists(Merged(rows, if databases == [] then stored else databases))
    else NamedCategories(rows, names)
  }

  /** The choice of categories in `main`. */
  method SelectCategories(rows: seq<Row>, names: seq<string>, databases: seq<string>, stored: seq<string>)
    returns (annotation: Dict<string, Members>)
    ensures annotation == Categories(rows, names, databases, stored)
  {
    if names == [] {
      var merged := MergeDatabases(rows, databases, stored);
      annotation := AsLists(merged);
    } else {
      annotation := NamedCategories(rows, names);
    }
  }

  /** A row of the result table before the FDR column: name, p-value, overlap, category size. */
  datatype ResultRow = ResultRow(name: string, pval: PValue, inSet: nat, inAnnotation: nat)

  /** The row of one category. */
  function Evaluated(entry: (string, Members), query: set<string>, background: set<string>, fisher: FisherTest): ResultRow {
    var e := Evaluate(query, entry.1, background, fisher);
    ResultRow(entry.0, e.pvalue, e.overlap, e.size)
  }

  /** The loop of `main` over the categories: one row per category, in the dict's order. */
  method EvaluateCategories(annotation: Dict<string, Members>, query: set<string>, background: set<string>, fisher: FisherTest)
    returns (result: seq<ResultRow>)
    ensures |result| == |annotation|
    ensures forall i | 0 <= i < |annotation| :: result[i] == Evaluated(annotation[i], query, background, fisher)
  {
    result := [];
    var i := 0;
    while i < |annotation|
      invariant 0 <= i <= |annotation|
      invariant |result| == i
      invariant forall k | 0 <= k < i :: result[k] == Evaluated(annotation[k], query, background, fisher)
    {
      var name := annotation[i].0;
      var e := Evaluate(query, annotation[i].1, background, fisher);
      result := result + [ResultRow(name, e.pvalue, e.overlap, e.size)];
      i := i + 1;
    }
  }

  /** A row of the final table, with its FDR. */
  datatype ReportRow = ReportRow(name: string, pval: PValue, inSet: nat, inAnnotation: nat, fdr: PValue)

  function PValues(result: seq<ResultRow>): (p: seq<PValue>)
    ensures |p| == |result|
    ensures forall i | 0 <= i < |result| :: p[i] == result[i].pval
  {
    seq(|result|, i requires 0 <= i < |result| => result[i].pval)
  }

  /** `df["FDR"] = false_discovery_control(df["pval"])`: the column of adjusted p-values, row by row. */
  function WithFdr(result: seq<ResultRow>): seq<ReportRow> {
    var q := Correction.CorrectPValues(PValues(result));
    seq(|result|, i requires 0 <= i < |result| =>
      ReportRow(result[i].name, result[i].pval, result[i].inSet, result[i].inAnnotation, q[i]))
  }

  /**
   * The FDR of a row is the adjustment of that row's own p-value: it keeps
   * the row's other columns, is at least its p-value, and a smaller
   * p-value never gets a larger FDR.
   */
  lemma FdrAligned(result: seq<ResultRow>)
    ensures var t := WithFdr(result);
            && |t| == |result|
            && (forall i | 0 <= i < |t| ::
                  && (t[i].name, t[i].pval, t[i].inSet, t[i].inAnnotation) == (result[i].name, result[i].pval, result[i].inSet, result[i].inAnnotation)
                  && t[i].fdr == Correction.CorrectPValues(PValues(result))[i]
                  && t[i].pval <= t[i].fdr)
            && (forall i, j | 0 <= i < |t| && 0 <= j < |t| && t[i].pval <= t[j].pval :: t[i].fdr <= t[j].fdr)
  {
    var p := PValues(result);
    var q := Correction.CorrectPValues(p);
    var t := WithFdr(result);
    forall i, j | 0 <= i < |t| && 0 <= j < |t| && t[i].pval <= t[j].pval ensures t[i].fdr <= t[j].fdr {
      assert p[i] <= p[j];
    }
  }

  /** `df[df["FDR"] < 0.05]`: the rows with FDR below 0.05, in their order. */
  function Significant(rows: seq<ReportRow>): (r: seq<ReportRow>)
    ensures |r| <= |rows|
    ensures forall x :: x in r <==> x in rows && x.fdr < 0.05
  {
    if rows == [] then []
    else Significant(rows[..|rows| - 1]) + if rows[|rows| - 1].fdr < 0.05 then [rows[|rows| - 1]] else []
  }

  /** Filtering keeps the order: the rows kept from two parts are those of the first, then those of the second. */
  lemma {:induction false} SignificantAppend(a: seq<ReportRow>, b: seq<ReportRow>)
    ensures Significant(a + b) == Significant(a) + Significant(b)
    decreases |b|
  {
    if b == [] {
      assert a + b == a;
    } else {
      var init := b[..|b| - 1];
      assert (a + b)[..|a + b| - 1] == a + init;
      SignificantAppend(a, init);
    }
  }

  /** A kept row is significant before correction too: its p-value is below 0.05. */
  lemma KeptRowsAreNominallySignificant(result: seq<ResultRow>, x: ReportRow)
    requires x in Significant(WithFdr(result))
    ensures x.pval < 0.05
  {
    FdrAligned(result);
  }

  /** The query set is empty exactly when the file has no lines. */
  lemma EmptyQueryMeansNoLines(lines: seq<string>)
    ensures ParseInputFile(lines) == {} <==> lines == []
  {
    if lines != [] {
      assert Strip(lines[0]) in ParseInputFile(lines);
    }
  }

  /** Why the run stops early. */
  datatype CliError = EmptyInputFile

  /** The analysis after the query has been read: categories, background, rows, FDR, filter. */
  function Analysis(query: set<string>, names: seq<string>, databases: seq<string>, stored: seq<string>,
                    background: Option<seq<string>>, all: bool, rows: seq<Row>, fisher: FisherTest): seq<ReportRow>
  {
    var categories := Categories(rows, names, databases, stored);
    var table := WithFdr(EvaluatedAll(categories, query, GetBgSet(background, rows), fisher));
    if all then table else Significant(table)
  }

  /** The rows of all categories, in the dict's order. */
  function EvaluatedAll(annotation: Dict<string, Members>, query: set<string>, background: set<string>, fisher: FisherTest): (r: seq<ResultRow>)
    ensures |r| == |annotation|
    ensures forall i | 0 <= i < |annotation| :: r[i] == Evaluated(annotation[i], query, background, fisher)
  {
    if annotation == [] then []
    else [Evaluated(annotation[0], query, background, fisher)] + EvaluatedAll(annotation[1..], query, background, fisher)
  }

  /**
   * `main`: an empty query set stops the run before anything else is read;
   * otherwise the report is the analysis of the query set.
   */
  method RunAnalysis(queryLines: seq<string>, names: seq<string>, databases: seq<string>, stored: seq<string>,
                     background: Option<seq<string>>, all: bool, rows: seq<Row>, fisher: FisherTest)
    returns (r: Result<seq<ReportRow>, CliError>)
    ensures r.Err? <==> queryLines == []
    ensures r.Err? ==> r.error == EmptyInputFile
    ensures r.Ok? ==> r.value == Analysis(ParseInputFile(queryLines), names, databases, stored, background, all, rows, fisher)
  {
    var query := ParseInputFile(queryLines);
    EmptyQueryMeansNoLines(queryLines);
    if |query| == 0 {
      return Err(EmptyInputFile);
    }
    var annotation := SelectCategories(rows, names, databases, stored);
    var bg := GetBgSet(background, rows);
    var result := EvaluateCategories(annotation, query, bg, fisher);
    assert result == EvaluatedAll(annotation, query, bg, fisher);
    var table := WithFdr(result);
    if all {
      r := Ok(table);
    } else {
      r := Ok(Significant(table));
    }
  }

  /** Only a file without lines is empty: a blank line still gives a query set, `{""}`. */
  lemma BlankFileIsNotEmpty()
    ensures ParseInputFile(["\n"]) == {""}
  {
    BlankLineGivesEmptyName(["\n"], 0);
  }
}

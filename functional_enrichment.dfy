/**
 * The enrichment evaluator and the false-discovery-rate corrector of
 * `mbrole/functional_enrichment.py`, and the grouping of annotation rows
 * into categories that feeds them.
 *
 * Fisher's exact test itself is not modelled: it is a parameter of type
 * `FisherTest`, any function from a 2x2 table to a probability.
 */
module FunctionalEnrichment {
  import opened PyDict
  import opened Results

  /** A probability, as returned by the exact test and by the correction. */
  type PValue = r: real | 0.0 <= r <= 1.0

  /** A 2x2 contingency table `[[a, b], [c, d]]`. */
  datatype Table = Table(a: nat, b: nat, c: nat, d: nat) {
    /** `np.array([a, b, c, d]).reshape((2, 2))`: the four cells in row-major order. */
    function Rows(): (rows: seq<seq<nat>>)
      ensures |rows| == 2 && |rows[0]| == 2 && |rows[1]| == 2
      ensures [rows[0][0], rows[0][1], rows[1][0], rows[1][1]] == [a, b, c, d]
    {
      [[a, b], [c, d]]
    }
  }

  /** `scipy.stats.fisher_exact(table).pvalue`, taken as given. */
  type FisherTest = Table -> PValue

  /**
   * The members of a category as the caller hands them over: a list when the
   * categories come from grouping database rows, a set when they are fetched
   * by name. `len()` counts a list's duplicates; the set operations do not.
   */
  datatype Members = List(list: seq<string>) | Set(elems: set<string>) {
    /** `len(genes_in_category)` */
    function Len(): nat {
      match this
      case List(l) => |l|
      case Set(s) => |s|
    }

    /** The members as the set operations see them. */
    function AsSet(): (s: set<string>)
      ensures forall x :: x in s <==> (if List? then x in list else x in elems)
    {
      match this
      case List(l) => set x | x in l
      case Set(s) => s
    }
  }

  /** What `functional_enrichment` returns: `(pvalue, genes_from_query_in_set, len(genes_in_category))`. */
  datatype Evaluation = Evaluation(pvalue: PValue, overlap: nat, size: nat)

  /** Splitting a set by membership in another partitions it. */
  lemma {:induction false} SplitCardinality(s: set<string>, t: set<string>)
    ensures |s * t| + |s - t| == |s|
  {
    assert s == (s * t) + (s - t);
    assert (s * t) !! (s - t);
  }

  /**
   * The table handed to the exact test: the query and the background, each
   * split by membership in the category. The cells of each column add up to
   * the size of its set.
   */
  function ContingencyTable(query: set<string>, category: set<string>, background: set<string>): (t: Table)
    ensures t.a + t.c == |query|
    ensures t.b + t.d == |background|
    ensures t.a <= |category| && t.b <= |category|
  {
    SplitCardinality(query, category);
    SplitCardinality(background, category);
    SubsetCardinality(query * category, category);
    SubsetCardinality(background * category, category);
    Table(|query * category|, |background * category|, |query - category|, |background - category|)
  }

  /** A subset is no larger than its superset. */
  lemma SubsetCardinality<T>(s: set<T>, t: set<T>)
    requires s <= t
    ensures |s| <= |t|
  {
    assert t == s + (t - s);
  }

  /**
   * `functional_enrichment(genes_in_query, genes_in_category, background)`.
   * With no query compound in the category the answer is `(1, 0, len)` and the
   * test is not run; otherwise the test runs on the contingency table, whose
   * first cell is then at least one.
   */
  function Evaluate(query: set<string>, category: Members, background: set<string>, fisher: FisherTest): (r: Evaluation)
    ensures r.overlap == |query * category.AsSet()|
    ensures r.size == category.Len()
    ensures r.overlap == 0 ==> r.pvalue == 1.0
    ensures r.overlap != 0 ==>
              var t := ContingencyTable(query, category.AsSet(), background);
              t.a >= 1 && r.pvalue == fisher(t)
  {
    var members := category.AsSet();
    var overlap := |query * members|;
    if overlap == 0 then
      Evaluation(1.0, overlap, category.Len())
    else
      var table := ContingencyTable(query, members, background);
      Evaluation(fisher(table), overlap, category.Len())
  }

  /** Without overlap the exact test is never consulted: any test and any background give the same answer. */
  lemma ZeroOverlapSkipsTest(query: set<string>, category: Members, b1: set<string>, b2: set<string>,
                             f1: FisherTest, f2: FisherTest)
    requires query * category.AsSet() == {}
    ensures Evaluate(query, category, b1, f1) == Evaluate(query, category, b2, f2) == Evaluation(1.0, 0, category.Len())
  {
  }

  /** An empty category, or an empty query, always takes the zero-overlap path. */
  lemma EmptyCategoryOrQuery(query: set<string>, category: Members, background: set<string>, fisher: FisherTest)
    requires category.AsSet() == {} || query == {}
    ensures Evaluate(query, category, background, fisher) == Evaluation(1.0, 0, category.Len())
  {
    assert query * category.AsSet() == {};
  }

  /** A category given as a list is measured by its length, duplicates included. */
  lemma ListSizeCountsDuplicates(query: set<string>, x: string, background: set<string>, fisher: FisherTest)
    ensures Evaluate(query, List([x, x]), background, fisher).size == 2
    ensures Evaluate(query, Set({x}), background, fisher).size == 1
  {
  }

  /** The scenario of the project's own test: overlap 4, size 4, table `[[4, 4], [1, 5]]`. */
  lemma FixtureScenario(fisher: FisherTest)
    ensures var query := {"A", "B", "C", "D", "E"};
            var background := {"A", "B", "C", "D", "E", "F", "G", "H", "I"};
            var category := {"B", "C", "D", "E"};
            && ContingencyTable(query, category, background) == Table(4, 4, 1, 5)
            && Evaluate(query, Set(category), background, fisher) == Evaluation(fisher(Table(4, 4, 1, 5)), 4, 4)
  {
    var query := {"A", "B", "C", "D", "E"};
    var background := {"A", "B", "C", "D", "E", "F", "G", "H", "I"};
    var category := {"B", "C", "D", "E"};
    assert query * category == category;
    assert background * category == category;
    assert query - category == {"A"};
    assert background - category == {"A", "F", "G", "H", "I"};
  }

  /** Swapping the roles of query and background changes the table passed to the test. */
  lemma SwappedRolesChangeTable()
    ensures var query := {"A", "B", "C", "D", "E"};
            var background := {"A", "B", "C", "D", "E", "F", "G", "H", "I"};
            var category := {"B", "C", "D", "E"};
            ContingencyTable(background, category, query) == Table(4, 4, 5, 1) != ContingencyTable(query, category, background)
  {
    FixtureScenario(t => 1.0);
    var query := {"A", "B", "C", "D", "E"};
    var background := {"A", "B", "C", "D", "E", "F", "G", "H", "I"};
    var category := {"B", "C", "D", "E"};
    assert query * category == category;
    assert background * category == category;
  }

  /** An empty background leaves its column empty, and the test still gets a table with the query's column. */
  lemma EmptyBackground(fisher: FisherTest)
    ensures ContingencyTable({"X"}, {"X", "Y"}, {}) == Table(1, 0, 0, 0)
    ensures Evaluate({"X"}, Set({"X", "Y"}), {}, fisher) == Evaluation(fisher(Table(1, 0, 0, 0)), 1, 2)
  {
    assert {"X"} * {"X", "Y"} == {"X"};
    assert {"X"} - {"X", "Y"} == {};
  }

  /** A row of the annotation table: compound, annotation, database, URL. */
  datatype Row = Row(compound: string, annotation: string, database: string, url: string)

  /** Each row as the pair (annotation, compound) that the grouping files under its annotation. */
  function AnnotationPairs(rows: seq<Row>): (kvs: seq<(string, string)>)
    ensures |kvs| == |rows|
    ensures forall i | 0 <= i < |rows| :: kvs[i] == (rows[i].annotation, rows[i].compound)
  {
    seq(|rows|, i requires 0 <= i < |rows| => (rows[i].annotation, rows[i].compound))
  }

  /** The compounds of the rows annotated with `annotation`, in row order, repeats kept. */
  function CompoundsOf(rows: seq<Row>, annotation: string): seq<string> {
    ValuesFor(AnnotationPairs(rows), annotation)
  }

  /** The annotations of the rows, each once, in order of first appearance. */
  function AnnotationsOf(rows: seq<Row>): seq<string> {
    Dedup(Keys(AnnotationPairs(rows)))
  }

  /**
   * The loop of `get_genes_per_category`: each fetched row's compound is
   * appended to the list of its annotation. Every annotation that occurs
   * becomes a key, once, in order of first appearance, and holds exactly the
   * compounds of its rows in fetch order, duplicates included.
   */
  method GenesPerCategory(rows: seq<Row>) returns (categories: Dict<string, seq<string>>)
    ensures categories == Group(AnnotationPairs(rows))
    ensures Valid(categories)
    ensures Keys(categories) == AnnotationsOf(rows)
    ensures forall i | 0 <= i < |categories| :: categories[i].1 == CompoundsOf(rows, categories[i].0)
  {
    var pairs := AnnotationPairs(rows);
    categories := [];
    var i := 0;
    while i < |rows|
      invariant 0 <= i <= |rows|
      invariant GroupInto(categories, pairs[i..]) == Group(pairs)
    {
      assert pairs[i..][1..] == pairs[i + 1..];
      categories := AppendTo(categories, rows[i].annotation, rows[i].compound);
      i := i + 1;
    }
    assert pairs[i..] == [];
    GroupIntoKeys([], pairs);
    forall i | 0 <= i < |categories| ensures categories[i].1 == CompoundsOf(rows, categories[i].0) {
      GroupAt(pairs, i);
    }
  }
}

/**
 * The ChEBI ontology import of `scripts/chebi-to-sqlite.py`: ids from URLs,
 * relations from the edges of the first graph, the table of labelled nodes,
 * the label lookup by id, and the loop of `main` that turns each relation
 * into a row of the annotation table.
 *
 * The JSON document is given already loaded, as its sequence of graphs.
 */
module Chebi {
  import opened Text
  import opened PyDict
  import opened Results
  import FunctionalEnrichment

  /** The prefix of every ontology URL. */
  const OboPrefix: string := "http://purl.obolibrary.org/obo/"

  /** A node of the graph: its URL, and its label when the JSON has `"lbl"`. */
  datatype Node = Node(id: string, lbl: Option<string>)

  /** An edge of the graph, both ends given by URL. */
  datatype Edge = Edge(sub: string, obj: string)

  datatype Graph = Graph(nodes: seq<Node>, edges: seq<Edge>)

  /**
   * The ways the script fails: `graphs[0]` on a document without graphs,
   * `next` on an empty filter, and a missing dictionary key.
   */
  datatype ChebiError = NoGraph | StopIteration | KeyError(key: string)

  /** `_parse_CHEBI_id_from_url(url)`: the text after the last `/`, or the whole URL if it has none. */
  function ParseId(url: string): (id: string)
    ensures '/' !in id
    ensures |id| <= |url| && id == url[|url| - |id|..]
    ensures |id| < |url| ==> url[|url| - |id| - 1] == '/'
  {
    LastSegment(url, '/')
  }

  /** An id is its own parse, so parsing twice changes nothing. */
  lemma ParseIdIdempotent(url: string)
    ensures ParseId(ParseId(url)) == ParseId(url)
  {
    LastSegmentIdempotent(url, '/');
  }

  /** Any URL ending in `/` followed by an id without `/` parses back to that id. */
  lemma {:induction false} ParseIdAfterSlash(prefix: string, id: string)
    requires prefix != [] && prefix[|prefix| - 1] == '/' && '/' !in id
    ensures ParseId(prefix + id) == id
    decreases |id|
  {
    if id == [] {
      assert prefix + id == prefix;
    } else {
      var init := id[..|id| - 1];
      assert (prefix + id)[..|prefix + id| - 1] == prefix + init;
      assert '/' !in init;
      ParseIdAfterSlash(prefix, init);
      assert id == init + [id[|id| - 1]];
    }
  }

  /** The OBO URL of an id parses back to the id. */
  lemma OboUrlRoundTrip(id: string)
    requires '/' !in id
    ensures ParseId(OboPrefix + id) == id
  {
    ParseIdAfterSlash(OboPrefix, id);
  }

  /** `parse_chebi` over the edges of the first graph: one (sub, obj) id pair per edge, in edge order. */
  function EdgePairs(edges: seq<Edge>): (pairs: seq<(string, string)>)
    ensures |pairs| == |edges|
    ensures forall i | 0 <= i < |edges| :: pairs[i] == (ParseId(edges[i].sub), ParseId(edges[i].obj))
  {
    seq(|edges|, i requires 0 <= i < |edges| => (ParseId(edges[i].sub), ParseId(edges[i].obj)))
  }

  /** `parse_chebi(data)`, consumed to the end: the edge pairs of `graphs[0]`, or the failed index. */
  function ParseChebi(graphs: seq<Graph>): (r: Result<seq<(string, string)>, ChebiError>)
    ensures r.Err? <==> graphs == []
    ensures r.Err? ==> r.error == NoGraph
    ensures r.Ok? ==> r.value == EdgePairs(graphs[0].edges)
  {
    if graphs == [] then Err(NoGraph) else Ok(EdgePairs(graphs[0].edges))
  }

  /** A relation end never holds a `/`, so parsing its id again gives it back. */
  lemma PairsAreIds(edges: seq<Edge>, i: nat)
    requires i < |edges|
    ensures var p := EdgePairs(edges)[i]; ParseId(p.0) == p.0 && ParseId(p.1) == p.1
  {
    ParseIdIdempotent(edges[i].sub);
    ParseIdIdempotent(edges[i].obj);
  }

  /** What the node table holds for an id: the label and the full URL. */
  type Entry = (string, string)

  /**
   * The node table after the first nodes: each labelled node puts
   * `(label, URL)` under its parsed id, replacing what an earlier node put
   * there; unlabelled nodes are skipped.
   */
  function NodeTable(nodes: seq<Node>): Dict<string, Entry> {
    if nodes == [] then []
    else
      var table := NodeTable(nodes[..|nodes| - 1]);
      var node := nodes[|nodes| - 1];
      match node.lbl
      case None => table
      case Some(name) => Put(table, ParseId(node.id), (name, node.id))
  }

  /** The parsed ids of the labelled nodes, in node order. */
  function LabelledIds(nodes: seq<Node>): seq<string> {
    if nodes == [] then []
    else
      var node := nodes[|nodes| - 1];
      LabelledIds(nodes[..|nodes| - 1]) + if node.lbl.Some? then [ParseId(node.id)] else []
  }

  /** The entry of the last labelled node whose URL parses to `k`, if any. */
  function LastLabelled(nodes: seq<Node>, k: string): (r: Option<Entry>)
    ensures r.Some? <==> k in LabelledIds(nodes)
  {
    if nodes == [] then None
    else
      var node := nodes[|nodes| - 1];
      LabelledIdsLast(nodes, k);
      if node.lbl.Some? && ParseId(node.id) == k then Some((node.lbl.value, node.id))
      else LastLabelled(nodes[..|nodes| - 1], k)
  }

  lemma LabelledIdsLast(nodes: seq<Node>, k: string)
    requires nodes != []
    ensures var node := nodes[|nodes| - 1];
            k in LabelledIds(nodes) <==> k in LabelledIds(nodes[..|nodes| - 1]) || (node.lbl.Some? && ParseId(node.id) == k)
  {
  }

  /**
   * The node table answers every id with the last labelled node that
   * parses to it, has exactly the labelled ids as keys, and has each key once.
   */
  lemma {:induction false} NodeTableMeaning(nodes: seq<Node>)
    ensures Valid(NodeTable(nodes))
    ensures forall k :: k in Keys(NodeTable(nodes)) <==> k in LabelledIds(nodes)
    ensures forall k :: Get(NodeTable(nodes), k) == LastLabelled(nodes, k)
  {
    if nodes != [] {
      NodeTableMeaning(nodes[..|nodes| - 1]);
    }
  }

  /**
   * `_get_chebi_nodes` over the nodes of the first graph: the node table,
   * filled one node at a time.
   */
  method ChebiNodes(nodes: seq<Node>) returns (table: Dict<string, Entry>)
    ensures table == NodeTable(nodes)
    ensures Valid(table)
    ensures forall k :: Get(table, k) == LastLabelled(nodes, k)
  {
    table := [];
    var i := 0;
    while i < |nodes|
      invariant 0 <= i <= |nodes|
      invariant table == NodeTable(nodes[..i])
    {
      assert nodes[..i + 1][..i] == nodes[..i];
      var node := nodes[i];
      var id := ParseId(node.id);
      if node.lbl.Some? {
        table := Put(table, id, (node.lbl.value, node.id));
      }
      i := i + 1;
    }
    assert nodes[..i] == nodes;
    NodeTableMeaning(nodes);
  }

  /** The URLs of the nodes, in order. */
  function Urls(nodes: seq<Node>): (urls: seq<string>)
    ensures |urls| == |nodes|
    ensures forall i | 0 <= i < |nodes| :: urls[i] == nodes[i].id
  {
    seq(|nodes|, i requires 0 <= i < |nodes| => nodes[i].id)
  }

  /**
   * `_get_obj_name(chebi_id, nodes)`: the label of the first node whose URL
   * is the OBO URL of `chebi_id`. No such node stops the iteration; a first
   * such node without a label is a missing `"lbl"` key.
   */
  function GetObjName(chebiId: string, nodes: seq<Node>): (r: Result<string, ChebiError>)
    ensures r == Err(StopIteration) <==> forall i | 0 <= i < |nodes| :: nodes[i].id != OboPrefix + chebiId
    ensures r.Ok? ==> exists i | 0 <= i < |nodes| :: IsFirstWithUrl(nodes, OboPrefix + chebiId, i) && nodes[i].lbl == Some(r.value)
    ensures r == Err(KeyError("lbl")) ==> exists i | 0 <= i < |nodes| :: IsFirstWithUrl(nodes, OboPrefix + chebiId, i) && nodes[i].lbl == None
    ensures forall i: nat | IsFirstWithUrl(nodes, OboPrefix + chebiId, i) ::
              r == if nodes[i].lbl.Some? then Ok(nodes[i].lbl.value) else Err(KeyError("lbl"))
  {
    var url := OboPrefix + chebiId;
    var i := Find(Urls(nodes), url);
    if i == |nodes| then
      assert forall j | 0 <= j < |nodes| :: nodes[j].id != url by {
        assert url !in Urls(nodes);
      }
      Err(StopIteration)
    else
      assert IsFirstWithUrl(nodes, url, i);
      match nodes[i].lbl
      case None => Err(KeyError("lbl"))
      case Some(name) => Ok(name)
  }

  /** Node `i` is the first node with this URL. */
  predicate IsFirstWithUrl(nodes: seq<Node>, url: string, i: nat) {
    i < |nodes| && nodes[i].id == url && forall j | 0 <= j < i :: nodes[j].id != url
  }

  /** An id whose label `_get_obj_name` finds is also a key of the node table. */
  lemma ObjNameInTable(chebiId: string, nodes: seq<Node>)
    requires '/' !in chebiId && GetObjName(chebiId, nodes).Ok?
    ensures chebiId in Keys(NodeTable(nodes))
  {
    var i :| 0 <= i < |nodes| && IsFirstWithUrl(nodes, OboPrefix + chebiId, i) && nodes[i].lbl.Some?;
    OboUrlRoundTrip(chebiId);
    LabelledIdsHas(nodes, i);
    NodeTableMeaning(nodes);
  }

  lemma {:induction false} LabelledIdsHas(nodes: seq<Node>, i: nat)
    requires i < |nodes| && nodes[i].lbl.Some?
    ensures ParseId(nodes[i].id) in LabelledIds(nodes)
  {
    if i < |nodes| - 1 {
      LabelledIdsHas(nodes[..|nodes| - 1], i);
    }
  }

  /** The row inserted for a relation whose both ends are in the table: `(sub label, obj label, "CHEBI", sub URL)`. */
  function RowFor(pair: (string, string), table: Dict<string, Entry>): FunctionalEnrichment.Row
    requires pair.0 in Keys(table) && pair.1 in Keys(table)
  {
    var sub := Get(table, pair.0).value;
    var obj := Get(table, pair.1).value;
    FunctionalEnrichment.Row(sub.0, obj.0, "CHEBI", sub.1)
  }

  /** The first end of a relation missing from the table, the object end looked up first. */
  function MissingEnd(pair: (string, string), table: Dict<string, Entry>): Option<string> {
    if pair.1 !in Keys(table) then Some(pair.1)
    else if pair.0 !in Keys(table) then Some(pair.0)
    else None
  }

  /**
   * The rows the loop of `main` inserts, and the error that stops it. Each
   * insert is committed on its own, so the rows before a failing relation
   * stay inserted: the rows are those of the relations before the first one
   * with an end missing from the table, and the error names that end,
   * the object end first.
   */
  function Inserted(pairs: seq<(string, string)>, table: Dict<string, Entry>): (r: (seq<FunctionalEnrichment.Row>, Option<ChebiError>))
    ensures |r.0| <= |pairs|
    ensures r.1 == None <==> |r.0| == |pairs|
  {
    if pairs == [] then ([], None)
    else
      match MissingEnd(pairs[0], table)
      case Some(k) => ([], Some(KeyError(k)))
      case None =>
        var rest := Inserted(pairs[1..], table);
        ([RowFor(pairs[0], table)] + rest.0, rest.1)
  }

  /**
   * The rows are those of the relations before the first one with an end
   * missing from the table, in relation order, and the error names that
   * end, the object end first.
   */
  lemma {:induction false} InsertedMeaning(pairs: seq<(string, string)>, table: Dict<string, Entry>)
    ensures var r := Inserted(pairs, table);
            && (forall i | 0 <= i < |r.0| :: MissingEnd(pairs[i], table) == None && r.0[i] == RowFor(pairs[i], table))
            && (r.1 != None ==> MissingEnd(pairs[|r.0|], table).Some? && r.1 == Some(KeyError(MissingEnd(pairs[|r.0|], table).value)))
  {
    if pairs != [] && MissingEnd(pairs[0], table) == None {
      InsertedMeaning(pairs[1..], table);
      var r := Inserted(pairs, table);
      var rest := Inserted(pairs[1..], table);
      assert r.0 == [RowFor(pairs[0], table)] + rest.0;
      forall i | 0 <= i < |r.0| ensures MissingEnd(pairs[i], table) == None && r.0[i] == RowFor(pairs[i], table) {
        if i > 0 {
          assert r.0[i] == rest.0[i - 1];
          assert pairs[1..][i - 1] == pairs[i];
        }
      }
    }
  }

  /** When every end of every relation is labelled, there is one row per relation and no error. */
  lemma {:induction false} AllLabelled(pairs: seq<(string, string)>, table: Dict<string, Entry>)
    requires forall i | 0 <= i < |pairs| :: pairs[i].0 in Keys(table) && pairs[i].1 in Keys(table)
    ensures Inserted(pairs, table).1 == None
    ensures |Inserted(pairs, table).0| == |pairs|
  {
    if pairs != [] {
      assert MissingEnd(pairs[0], table) == None;
      AllLabelled(pairs[1..], table);
    }
  }

  /** The loop of `main` over the relations: look up the object, then the subject, then insert. */
  method InsertRelations(pairs: seq<(string, string)>, table: Dict<string, Entry>)
    returns (rows: seq<FunctionalEnrichment.Row>, error: Option<ChebiError>)
    ensures (rows, error) == Inserted(pairs, table)
  {
    rows := [];
    error := None;
    var i := 0;
    while i < |pairs|
      invariant 0 <= i <= |pairs|
      invariant rows + Inserted(pairs[i..], table).0 == Inserted(pairs, table).0
      invariant Inserted(pairs[i..], table).1 == Inserted(pairs, table).1
    {
      var (sub, obj) := pairs[i];
      var objEntry := Get(table, obj);
      assert pairs[i..][0] == pairs[i];
      if objEntry.None? {
        assert MissingEnd(pairs[i], table) == Some(obj);
        error := Some(KeyError(obj));
        assert rows + [] == rows;
        return;
      }
      var subEntry := Get(table, sub);
      if subEntry.None? {
        assert MissingEnd(pairs[i], table) == Some(sub);
        error := Some(KeyError(sub));
        assert rows + [] == rows;
        return;
      }
      assert pairs[i..][1..] == pairs[i + 1..];
      var row := FunctionalEnrichment.Row(subEntry.value.0, objEntry.value.0, "CHEBI", subEntry.value.1);
      assert Inserted(pairs[i..], table).0 == [row] + Inserted(pairs[i + 1..], table).0;
      assert (rows + [row]) + Inserted(pairs[i + 1..], table).0 == rows + ([row] + Inserted(pairs[i + 1..], table).0);
      rows := rows + [row];
      i := i + 1;
    }
    assert pairs[i..] == [];
    assert rows + [] == rows;
  }

  /**
   * The whole conversion in `main`: the node table and the relations both
   * come from the first graph, then each relation becomes a row.
   */
  function Convert(graphs: seq<Graph>): (seq<FunctionalEnrichment.Row>, Option<ChebiError>) {
    if graphs == [] then ([], Some(NoGraph))
    else Inserted(EdgePairs(graphs[0].edges), NodeTable(graphs[0].nodes))
  }

  /** `main` of the ChEBI import, from the loaded document to the inserted rows. */
  method ChebiToRows(graphs: seq<Graph>) returns (rows: seq<FunctionalEnrichment.Row>, error: Option<ChebiError>)
    ensures (rows, error) == Convert(graphs)
    ensures forall i | 0 <= i < |rows| :: rows[i].database == "CHEBI"
  {
    if graphs == [] {
      return [], Some(NoGraph);
    }
    var table := ChebiNodes(graphs[0].nodes);
    var relations := ParseChebi(graphs);
    rows, error := InsertRelations(relations.value, table);
    InsertedMeaning(relations.value, table);
  }

  /**
   * Every inserted row describes its relation: the compound is the label of
   * the subject node, the annotation the label of the object node, and the
   * URL the subject's full URL, each taken from the last labelled node with
   * that id.
   */
  lemma RowsDescribeRelations(graphs: seq<Graph>, i: nat)
    requires graphs != [] && i < |Convert(graphs).0|
    ensures var g := graphs[0];
            var pair := EdgePairs(g.edges)[i];
            var row := Convert(graphs).0[i];
            && LastLabelled(g.nodes, pair.0) == Some((row.compound, row.url))
            && LastLabelled(g.nodes, pair.1).Some?
            && LastLabelled(g.nodes, pair.1).value.0 == row.annotation
  {
    var g := graphs[0];
    var pairs := EdgePairs(g.edges);
    var table := NodeTable(g.nodes);
    InsertedMeaning(pairs, table);
    NodeTableMeaning(g.nodes);
    assert Convert(graphs).0[i] == RowFor(pairs[i], table);
  }
}

/**
 * `parse_kegg` and the printing loop of `main` in
 * `scripts/kegg-compound-to-sqlite.py`.
 *
 * The KEGG COMPOUND flat file is read line by line. An `ENTRY` line names
 * the current compound, a `PATHWAY` line opens the pathway section (and
 * carries its first pathway), the following lines that start with a space
 * carry one pathway each, and any other line closes the section. Each
 * pathway is a pair (map id, name) filed under the current compound.
 *
 * `Step` and `Run` state what the loop does, line by line; `ParseKegg` is
 * the loop itself, proved to return the grouping of the pairs `Run` records.
 */
module Kegg {
  import opened Text
  import opened PyDict
  import opened Results

  /** A pathway of a compound: its map id and its name. */
  type Pathway = (string, string)

  /**
   * What the loop carries from one line to the next: the current `ID`, the
   * `pathways` flag, and every (ID, pathway) pair appended so far, in order.
   */
  datatype Scan = Scan(id: string, pathways: bool, records: seq<(string, Pathway)>)

  /** An `IndexError` raised while handling the line at this position. */
  datatype KeggError = IndexError(line: nat)

  const Start: Scan := Scan("", false, [])

  /** `line.strip("\n").split()` */
  function Tokens(line: string): seq<string> {
    Split(StripChars(line, {'\n'}))
  }

  /** `line.strip("\n").strip(";").split()` */
  function EntryTokens(line: string): seq<string> {
    Split(StripChars(StripChars(line, {'\n'}), {';'}))
  }

  /** The tokens from `k` on, joined by single spaces: a name that had spaces in it. */
  function NameFrom(t: seq<string>, k: nat): string
    requires k <= |t|
  {
    Join(" ", t[k..])
  }

  /** The body of the loop for one line; `None` when it raises `IndexError`. */
  function Step(s: Scan, line: string): Option<Scan> {
    if StartsWith(line, "ENTRY") then
      var t := EntryTokens(line);
      if |t| < 2 then None else Some(s.(id := t[1]))
    else if StartsWith(line, "PATHWAY") then
      var t := Tokens(line);
      if |t| < 2 then None
      else
        var records := if s.id != "" then s.records + [(s.id, (t[1], NameFrom(t, 2)))] else s.records;
        Some(Scan(s.id, true, records))
    else if !StartsWith(line, " ") then
      Some(s.(pathways := false))
    else if s.pathways then
      var t := Tokens(line);
      if |t| < 1 then None else Some(s.(records := s.records + [(s.id, (t[0], NameFrom(t, 1)))]))
    else
      Some(s)
  }

  /** The loop over the first lines of the file: the state after them, or the first error. */
  function Run(lines: seq<string>): Result<Scan, KeggError> {
    if lines == [] then Ok(Start)
    else
      match Run(lines[..|lines| - 1])
      case Err(e) => Err(e)
      case Ok(s) =>
        match Step(s, lines[|lines| - 1])
        case None => Err(IndexError(|lines| - 1))
        case Some(s') => Ok(s')
  }

  /** What `parse_kegg` returns for a file: the recorded pairs grouped by ID, or the error. */
  function Parsed(lines: seq<string>): Result<Dict<string, seq<Pathway>>, KeggError> {
    match Run(lines)
    case Ok(s) => Ok(Group(s.records))
    case Err(e) => Err(e)
  }

  /** Reading one more line: the step on the state so far. */
  lemma RunSnoc(lines: seq<string>, line: string)
    requires Run(lines).Ok?
    ensures Run(lines + [line]) == match Step(Run(lines).value, line)
                                   case None => Err(IndexError(|lines|))
                                   case Some(s) => Ok(s)
  {
    assert (lines + [line])[..|lines|] == lines;
  }

  /** Two prefixes that differ in their first character cannot both start a line. */
  lemma DifferentHeads(line: string, a: string, b: string)
    requires a != [] && b != [] && a[0] != b[0] && StartsWith(line, a)
    ensures !StartsWith(line, b)
  {
    assert line[0] == a[0];
  }

  /** Once a line has raised, the lines after it are never read. */
  lemma {:induction false} ErrorStops(lines: seq<string>, i: nat)
    requires i <= |lines| && Run(lines[..i]).Err?
    ensures Run(lines) == Run(lines[..i])
    decreases |lines| - i
  {
    if i == |lines| {
      assert lines[..i] == lines;
    } else {
      var init := lines[..|lines| - 1];
      assert init[..i] == lines[..i];
      ErrorStops(init, i);
    }
  }

  /**
   * `parse_kegg(file)` over the lines of the file (each with its newline).
   * On success every compound with at least one pathway line is a key, once,
   * in order of its first pathway, and holds its pathways in file order;
   * a compound without pathway lines is never a key.
   */
  method ParseKegg(lines: seq<string>) returns (r: Result<Dict<string, seq<Pathway>>, KeggError>)
    ensures r == Parsed(lines)
    ensures r.Ok? ==>
              var records := Run(lines).value.records;
              && Valid(r.value)
              && Keys(r.value) == Dedup(Keys(records))
              && forall i | 0 <= i < |r.value| :: r.value[i].1 == ValuesFor(records, r.value[i].0)
  {
    var compounds: Dict<string, seq<Pathway>> := [];
    var pathways := false;
    var id := "";
    ghost var records: seq<(string, Pathway)> := [];
    var i := 0;
    while i < |lines|
      invariant 0 <= i <= |lines|
      invariant Run(lines[..i]) == Ok(Scan(id, pathways, records))
      invariant compounds == Group(records)
    {
      RunNext(lines, i);
      var ok;
      ok, id, pathways, compounds, records := ParseLine(lines[i], id, pathways, compounds, records);
      if !ok {
        ErrorStops(lines, i + 1);
        return Err(IndexError(i));
      }
      i := i + 1;
    }
    assert lines[..i] == lines;
    GroupFacts(records);
    r := Ok(compounds);
  }

  /** The loop after one more line of the file. */
  lemma RunNext(lines: seq<string>, i: nat)
    requires i < |lines| && Run(lines[..i]).Ok?
    ensures Run(lines[..i + 1]) == match Step(Run(lines[..i]).value, lines[i])
                                   case None => Err(IndexError(i))
                                   case Some(s) => Ok(s)
  {
    assert lines[..i + 1][..i] == lines[..i];
  }

  /**
   * The body of the loop of `parse_kegg` for one line, on the loop's
   * variables; `ok` is false where the line raises `IndexError`.
   */
  method ParseLine(line: string, id: string, pathways: bool, compounds: Dict<string, seq<Pathway>>, ghost records: seq<(string, Pathway)>)
    returns (ok: bool, id': string, pathways': bool, compounds': Dict<string, seq<Pathway>>, ghost records': seq<(string, Pathway)>)
    requires compounds == Group(records)
    ensures ok <==> Step(Scan(id, pathways, records), line).Some?
    ensures ok ==> Step(Scan(id, pathways, records), line) == Some(Scan(id', pathways', records'))
    ensures ok ==> compounds' == Group(records')
  {
    ok, id', pathways', compounds', records' := true, id, pathways, compounds, records;
    if StartsWith(line, "ENTRY") {
      var t := EntryTokens(line);
      if |t| < 2 {
        return false, id, pathways, compounds, records;
      }
      id' := t[1];
    } else if StartsWith(line, "PATHWAY") {
      DifferentHeads(line, "PATHWAY", "ENTRY");
      var elements := Tokens(line);
      pathways' := true;
      if |elements| < 2 {
        return false, id, pathways, compounds, records;
      }
      var data := (elements[1], NameFrom(elements, 2));
      if id != "" {
        GroupSnoc(records, id, data);
        compounds' := AppendTo(compounds, id, data);
        records' := records + [(id, data)];
      }
    } else if !StartsWith(line, " ") {
      pathways' := false;
    } else if pathways {
      var t := Tokens(line);
      if |t| < 1 {
        return false, id, pathways, compounds, records;
      }
      var data := (t[0], NameFrom(t, 1));
      GroupSnoc(records, id, data);
      compounds' := AppendTo(compounds, id, data);
      records' := records + [(id, data)];
    }
  }

  /**
   * An `ENTRY` line only names the compound, by its second token after the
   * newline and semicolons are stripped: nothing is recorded and the
   * pathway section stays as it was. Fewer than two tokens raise.
   */
  lemma EntryLine(lines: seq<string>, line: string)
    requires Run(lines).Ok? && StartsWith(line, "ENTRY")
    ensures var s := Run(lines).value;
            var t := EntryTokens(line);
            && (Run(lines + [line]).Err? <==> |t| < 2)
            && (|t| >= 2 ==> Run(lines + [line]) == Ok(Scan(t[1], s.pathways, s.records)))
  {
    assert (lines + [line])[..|lines|] == lines;
  }

  /**
   * A `PATHWAY` line opens the pathway section and records its own pathway
   * (second token, the rest as the name) under the current compound, unless
   * no compound has been named yet. Fewer than two tokens raise.
   */
  lemma PathwayLine(lines: seq<string>, line: string)
    requires Run(lines).Ok? && StartsWith(line, "PATHWAY")
    ensures var s := Run(lines).value;
            var t := Tokens(line);
            && (Run(lines + [line]).Err? <==> |t| < 2)
            && (|t| >= 2 ==>
                  var s' := Run(lines + [line]).value;
                  && s'.id == s.id && s'.pathways
                  && s'.records == s.records + (if s.id == "" then [] else [(s.id, (t[1], Join(" ", t[2..])))]))
  {
    RunSnoc(lines, line);
    DifferentHeads(line, "PATHWAY", "ENTRY");
  }

  /**
   * Inside the pathway section a line that starts with a space records one
   * pathway (first token, the rest as the name) under the current ID, even
   * when that ID is still empty. A blank such line raises.
   */
  lemma ContinuationLine(lines: seq<string>, line: string)
    requires Run(lines).Ok? && Run(lines).value.pathways && StartsWith(line, " ")
    ensures var s := Run(lines).value;
            var t := Tokens(line);
            && (Run(lines + [line]).Err? <==> t == [])
            && (t != [] ==> Run(lines + [line]) == Ok(Scan(s.id, true, s.records + [(s.id, (t[0], Join(" ", t[1..])))])))
  {
    RunSnoc(lines, line);
    DifferentHeads(line, " ", "ENTRY");
    DifferentHeads(line, " ", "PATHWAY");
  }

  /**
   * Any other line records nothing: one that does not start with a space
   * closes the pathway section, one that does is ignored outside it.
   */
  lemma OtherLine(lines: seq<string>, line: string)
    requires Run(lines).Ok? && !StartsWith(line, "ENTRY") && !StartsWith(line, "PATHWAY")
    requires !StartsWith(line, " ") || !Run(lines).value.pathways
    ensures var s := Run(lines).value;
            Run(lines + [line]) == Ok(Scan(s.id, s.pathways && StartsWith(line, " "), s.records))
  {
    assert (lines + [line])[..|lines|] == lines;
  }

  /** Recording only ever appends: the pairs of a file's first lines start the pairs of the whole file. */
  lemma {:induction false} RecordsOnlyGrow(lines: seq<string>, i: nat)
    requires i <= |lines| && Run(lines).Ok?
    ensures Run(lines[..i]).Ok? && Run(lines[..i]).value.records <= Run(lines).value.records
    decreases |lines| - i
  {
    if i == |lines| {
      assert lines[..i] == lines;
    } else {
      var init := lines[..|lines| - 1];
      InitGrows(lines);
      assert init[..i] == lines[..i];
      RecordsOnlyGrow(init, i);
    }
  }

  /** A last line that does not raise keeps the pairs recorded before it. */
  lemma InitGrows(lines: seq<string>)
    requires lines != [] && Run(lines).Ok?
    ensures Run(lines[..|lines| - 1]).Ok?
    ensures Run(lines[..|lines| - 1]).value.records <= Run(lines).value.records
  {
    StepGrows(Run(lines[..|lines| - 1]).value, lines[|lines| - 1]);
  }

  lemma StepGrows(s: Scan, line: string)
    requires Step(s, line).Some?
    ensures s.records <= Step(s, line).value.records
  {
  }

  /** One printed line: `{key},"{name}",KEGG,False`. */
  function Line(key: string, name: string): string {
    key + ",\"" + name + "\",KEGG,False"
  }

  /** The lines printed for one compound, one per pathway, in list order. */
  function KeyLines(key: string, ps: seq<Pathway>): (out: seq<string>)
    ensures |out| == |ps|
    ensures forall j | 0 <= j < |ps| :: out[j] == Line(key, ps[j].1)
  {
    seq(|ps|, j requires 0 <= j < |ps| => Line(key, ps[j].1))
  }

  /** Everything printed: the compounds in key order, each one's pathways in list order. */
  function Output(data: Dict<string, seq<Pathway>>): seq<string> {
    if data == [] then [] else KeyLines(data[0].0, data[0].1) + Output(data[1..])
  }

  /** One line per stored pathway. */
  lemma {:induction false} OutputLength(data: Dict<string, seq<Pathway>>)
    ensures |Output(data)| == TotalLength(data)
  {
    if data != [] {
      OutputLength(data[1..]);
    }
  }

  /**
   * Key-then-list order: the `j`-th pathway of the `k`-th compound is
   * printed after all pathways of the compounds before it.
   */
  lemma {:induction false} OutputAt(data: Dict<string, seq<Pathway>>, k: nat, j: nat)
    requires k < |data| && j < |data[k].1|
    ensures TotalLength(data[..k]) + j < |Output(data)|
    ensures Output(data)[TotalLength(data[..k]) + j] == Line(data[k].0, data[k].1[j].1)
  {
    OutputLength(data);
    if k == 0 {
      assert data[..k] == [];
    } else {
      var rest := data[1..];
      assert rest[k - 1] == data[k];
      assert data[..k][1..] == rest[..k - 1];
      OutputAt(rest, k - 1, j);
      OutputLength(data[..k]);
    }
  }

  /**
   * The printing loop of `main`: one line per (compound, pathway), key then
   * list order. The counter `i` starts at 1 and ends one past the number of
   * lines printed.
   */
  method PrintPathways(data: Dict<string, seq<Pathway>>) returns (out: seq<string>, i: int)
    ensures out == Output(data)
    ensures i == 1 + TotalLength(data)
  {
    out := [];
    i := 1;
    var n := 0;
    while n < |data|
      invariant 0 <= n <= |data|
      invariant out + Output(data[n..]) == Output(data)
      invariant i == 1 + |out|
    {
      var key := data[n].0;
      var pathways := data[n].1;
      assert data[n..][1..] == data[n + 1..];
      ghost var lines := KeyLines(key, pathways);
      ghost var before := out;
      assert before + lines + Output(data[n + 1..]) == Output(data);
      var j := 0;
      while j < |pathways|
        invariant 0 <= j <= |pathways|
        invariant out == before + lines[..j]
        invariant i == 1 + |out|
      {
        assert lines[..j + 1] == lines[..j] + [Line(key, pathways[j].1)];
        out := out + [Line(key, pathways[j].1)];
        i := i + 1;
        j := j + 1;
      }
      assert lines[..j] == lines;
      assert out + Output(data[n + 1..]) == Output(data);
      n := n + 1;
    }
    assert data[n..] == [];
    OutputLength(data);
  }

  /** What gets printed for a parsed file has exactly one line per recorded pair. */
  lemma OneLinePerRecord(lines: seq<string>)
    requires Run(lines).Ok?
    ensures |Output(Parsed(lines).value)| == |Run(lines).value.records|
  {
    var records := Run(lines).value.records;
    OutputLength(Group(records));
    GroupIntoTotalLength([], records);
  }
}

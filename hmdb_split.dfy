/**
 * The loop of `scripts/split-hmdb-xml.py` that cuts the HMDB metabolite XML
 * into gzip files of `chunksize` metabolites each.
 *
 * Every line is added to a pending text; lines opening a `<metabolite>`
 * are counted; a line closing one while the count equals `chunksize`
 * writes the pending text as file `chunks_{chunksize}_{n}` and starts over.
 * Whatever is pending at the end is never written.
 *
 * `Process` follows the loop over lines and keeps the lines of each chunk;
 * `SplitXml` is the loop itself, over text, proved to write the text of
 * those chunks.
 */
module HmdbSplit {
  import opened Text

  const Open: string := "<metabolite>"
  const Close: string := "</metabolite>"

  /** A written chunk: its file name and the lines it holds. */
  datatype Chunk = Chunk(name: string, lines: seq<string>)

  /**
   * The loop's state after some lines: the chunks written, the lines
   * pending (whose text is `text`), the `metabolites` counter and the
   * `file` counter.
   */
  datatype Splitter = Splitter(written: seq<Chunk>, pending: seq<string>, metabolites: nat, file: nat)

  /** `f"chunks_{chunksize}_{file}"` */
  function ChunkName(chunksize: int, n: nat): string {
    "chunks_" + IntToString(chunksize) + "_" + NatToString(n)
  }

  /** Text made of lines, one after the other. */
  function Concat(lines: seq<string>): string {
    if lines == [] then [] else Concat(lines[..|lines| - 1]) + lines[|lines| - 1]
  }

  /** How many of the lines open a metabolite. */
  function CountOpen(lines: seq<string>): (n: nat)
    ensures n <= |lines|
  {
    if lines == [] then 0
    else CountOpen(lines[..|lines| - 1]) + if StartsWith(lines[|lines| - 1], Open) then 1 else 0
  }

  /** The lines of the chunks, one chunk after the other. */
  function ChunkLines(chunks: seq<Chunk>): seq<string> {
    if chunks == [] then [] else ChunkLines(chunks[..|chunks| - 1]) + chunks[|chunks| - 1].lines
  }

  /**
   * The script writes after line `j` of `lines`: that line closes a
   * metabolite and the first `j` lines open exactly `chunksize`.
   */
  predicate CutAt(lines: seq<string>, j: int, chunksize: int) {
    0 < j <= |lines| && StartsWith(lines[j - 1], Close) && CountOpen(lines[..j]) == chunksize
  }

  /** No line of `lines` before line `n` is a cut point. */
  predicate NoCutBefore(lines: seq<string>, n: int, chunksize: int) {
    forall j | 0 < j < n :: !CutAt(lines, j, chunksize)
  }

  /**
   * A chunk as it is written: it ends at its first cut point, so it holds
   * `chunksize` metabolites, its last line closes one, and no earlier line
   * would have ended it.
   */
  predicate WellCut(c: Chunk, chunksize: int) {
    CutAt(c.lines, |c.lines|, chunksize) && NoCutBefore(c.lines, |c.lines|, chunksize)
  }

  /** A cut point before the new line is one before and after adding it. */
  lemma CutAtSnoc(lines: seq<string>, line: string, j: int, chunksize: int)
    requires 0 < j <= |lines|
    ensures CutAt(lines + [line], j, chunksize) == CutAt(lines, j, chunksize)
  {
    assert (lines + [line])[..j] == lines[..j];
  }

  /** The pending lines end where the script would cut them exactly when the new line is a cut point. */
  lemma CutAtLast(lines: seq<string>, chunksize: int)
    requires lines != []
    ensures CutAt(lines, |lines|, chunksize) <==> StartsWith(lines[|lines| - 1], Close) && CountOpen(lines) == chunksize
  {
    assert lines[..|lines|] == lines;
  }

  /** Chunk `n` is named `chunks_{chunksize}_{n}`, and each is well cut. */
  predicate Numbered(written: seq<Chunk>, chunksize: int) {
    forall n | 0 <= n < |written| :: written[n].name == ChunkName(chunksize, n) && WellCut(written[n], chunksize)
  }

  lemma NumberedAppend(written: seq<Chunk>, chunk: Chunk, chunksize: int)
    requires Numbered(written, chunksize)
    requires chunk.name == ChunkName(chunksize, |written|) && WellCut(chunk, chunksize)
    ensures Numbered(written + [chunk], chunksize)
  {
  }

  /** The body of the loop for one line. */
  function Step(s: Splitter, line: string, chunksize: int): Splitter {
    var pending := s.pending + [line];
    var metabolites := if StartsWith(line, Open) then s.metabolites + 1 else s.metabolites;
    if StartsWith(line, Close) && metabolites == chunksize then
      Splitter(s.written + [Chunk(ChunkName(chunksize, s.file), pending)], [], 0, s.file + 1)
    else
      Splitter(s.written, pending, metabolites, s.file)
  }

  /** The loop over the lines of the input. */
  function Process(lines: seq<string>, chunksize: int): Splitter {
    if lines == [] then Splitter([], [], 0, 0)
    else Step(Process(lines[..|lines| - 1], chunksize), lines[|lines| - 1], chunksize)
  }

  /**
   * Nothing is lost or reordered: the chunks' lines followed by the pending
   * lines are the input. Chunks are numbered from 0 and each ends at its
   * first cut point; the pending lines hold no cut point, so no chunk was
   * missed; the counter is the number of opening lines pending.
   */
  lemma {:induction false} ProcessFacts(lines: seq<string>, chunksize: int)
    ensures var s := Process(lines, chunksize);
            && ChunkLines(s.written) + s.pending == lines
            && s.metabolites == CountOpen(s.pending)
            && s.file == |s.written|
            && Numbered(s.written, chunksize)
            && NoCutBefore(s.pending, |s.pending| + 1, chunksize)
  {
    if lines != [] {
      var init := lines[..|lines| - 1];
      var line := lines[|lines| - 1];
      assert init + [line] == lines;
      ProcessFacts(init, chunksize);
      StepKeeps(Process(init, chunksize), init, line, chunksize);
    }
  }

  /** One more line keeps the facts `ProcessFacts` states. */
  lemma StepKeeps(s: Splitter, lines: seq<string>, line: string, chunksize: int)
    requires ChunkLines(s.written) + s.pending == lines
    requires s.metabolites == CountOpen(s.pending)
    requires s.file == |s.written|
    requires Numbered(s.written, chunksize)
    requires NoCutBefore(s.pending, |s.pending| + 1, chunksize)
    ensures var r := Step(s, line, chunksize);
            && ChunkLines(r.written) + r.pending == lines + [line]
            && r.metabolites == CountOpen(r.pending)
            && r.file == |r.written|
            && Numbered(r.written, chunksize)
            && NoCutBefore(r.pending, |r.pending| + 1, chunksize)
  {
    StepLines(s, line, chunksize);
    StepCount(s, line, chunksize);
    StepNumbered(s, line, chunksize);
    StepNoCut(s, line, chunksize);
  }

  /** One more step moves the line to the end of the pending lines, and maybe the pending lines into a chunk. */
  lemma StepLines(s: Splitter, line: string, chunksize: int)
    ensures var r := Step(s, line, chunksize);
            ChunkLines(r.written) + r.pending == (ChunkLines(s.written) + s.pending) + [line]
  {
    var pending := s.pending + [line];
    var r := Step(s, line, chunksize);
    if r.written == s.written {
      assert r.pending == pending;
    } else {
      var chunk := Chunk(ChunkName(chunksize, s.file), pending);
      assert r.written == s.written + [chunk] && r.pending == [];
      ChunkLinesSnoc(s.written, chunk);
    }
  }

  /** One more step keeps the counter equal to the number of opening lines pending. */
  lemma StepCount(s: Splitter, line: string, chunksize: int)
    requires s.metabolites == CountOpen(s.pending)
    ensures var r := Step(s, line, chunksize);
            r.metabolites == CountOpen(r.pending)
  {
    CountOpenSnoc(s.pending, line);
  }

  /** One more step keeps the chunks numbered and well cut. */
  lemma StepNumbered(s: Splitter, line: string, chunksize: int)
    requires s.metabolites == CountOpen(s.pending)
    requires s.file == |s.written|
    requires Numbered(s.written, chunksize)
    requires NoCutBefore(s.pending, |s.pending| + 1, chunksize)
    ensures var r := Step(s, line, chunksize);
            r.file == |r.written| && Numbered(r.written, chunksize)
  {
    var pending := s.pending + [line];
    CountOpenSnoc(s.pending, line);
    if StartsWith(line, Close) && CountOpen(pending) == chunksize {
      var chunk := Chunk(ChunkName(chunksize, s.file), pending);
      CutAtLast(pending, chunksize);
      forall j | 0 < j < |pending| ensures !CutAt(pending, j, chunksize) {
        CutAtSnoc(s.pending, line, j, chunksize);
      }
      NumberedAppend(s.written, chunk, chunksize);
    }
  }

  /** One more step leaves no cut point among the pending lines: a cut point at the new line is cut at once. */
  lemma StepNoCut(s: Splitter, line: string, chunksize: int)
    requires s.metabolites == CountOpen(s.pending)
    requires NoCutBefore(s.pending, |s.pending| + 1, chunksize)
    ensures var r := Step(s, line, chunksize);
            NoCutBefore(r.pending, |r.pending| + 1, chunksize)
  {
    var pending := s.pending + [line];
    CountOpenSnoc(s.pending, line);
    if !(StartsWith(line, Close) && CountOpen(pending) == chunksize) {
      assert Step(s, line, chunksize).pending == pending;
      CutAtLast(pending, chunksize);
      forall j | 0 < j < |pending| + 1 ensures !CutAt(pending, j, chunksize) {
        if j < |pending| {
          CutAtSnoc(s.pending, line, j, chunksize);
        }
      }
    }
  }

  lemma CountOpenSnoc(lines: seq<string>, line: string)
    ensures CountOpen(lines + [line]) == CountOpen(lines) + if StartsWith(line, Open) then 1 else 0
  {
    assert (lines + [line])[..|lines|] == lines;
  }

  lemma ChunkLinesSnoc(chunks: seq<Chunk>, chunk: Chunk)
    ensures ChunkLines(chunks + [chunk]) == ChunkLines(chunks) + chunk.lines
  {
    assert (chunks + [chunk])[..|chunks|] == chunks;
  }

  /** The loop after one more line is one more step. */
  lemma ProcessSnoc(lines: seq<string>, line: string, chunksize: int)
    ensures Process(lines + [line], chunksize) == Step(Process(lines, chunksize), line, chunksize)
  {
    assert (lines + [line])[..|lines|] == lines;
  }

  /** The file contents of the chunks, by name. */
  function Files(chunks: seq<Chunk>): (files: seq<(string, string)>)
    ensures |files| == |chunks|
    ensures forall n | 0 <= n < |chunks| :: files[n] == (chunks[n].name, Concat(chunks[n].lines))
  {
    seq(|chunks|, n requires 0 <= n < |chunks| => (chunks[n].name, Concat(chunks[n].lines)))
  }

  /** The script's variables hold the state `s`: the files of its chunks, the text of its pending lines, its counters. */
  predicate Holds(s: Splitter, files: seq<(string, string)>, text: string, metabolites: nat, file: nat) {
    files == Files(s.written) && text == Concat(s.pending) && metabolites == s.metabolites && file == s.file
  }

  /**
   * The `__main__` loop: `text`, `metabolites` and `file` as the script
   * keeps them, and the files it writes, in order. The written files are
   * the chunks of `Process`, and the text left over is its pending lines.
   */
  method SplitXml(lines: seq<string>, chunksize: int)
    returns (files: seq<(string, string)>, text: string, metabolites: nat, file: nat)
    ensures var s := Process(lines, chunksize);
            && files == Files(s.written)
            && text == Concat(s.pending)
            && metabolites == s.metabolites
            && file == s.file
  {
    files := [];
    text := "";
    metabolites := 0;
    file := 0;
    var i := 0;
    while i < |lines|
      invariant 0 <= i <= |lines|
      invariant Holds(Process(lines[..i], chunksize), files, text, metabolites, file)
    {
      assert lines[..i + 1] == lines[..i] + [lines[i]];
      ProcessSnoc(lines[..i], lines[i], chunksize);
      files, text, metabolites, file := SplitLine(Process(lines[..i], chunksize), lines[i], chunksize, files, text, metabolites, file);
      i := i + 1;
    }
    assert lines[..i] == lines;
  }

  /** The body of the `__main__` loop for one line: it takes the script's variables from state `s` to `Step(s, line)`. */
  method SplitLine(ghost s: Splitter, line: string, chunksize: int,
                   files: seq<(string, string)>, text: string, metabolites: nat, file: nat)
    returns (files': seq<(string, string)>, text': string, metabolites': nat, file': nat)
    requires Holds(s, files, text, metabolites, file)
    ensures Holds(Step(s, line, chunksize), files', text', metabolites', file')
  {
    ConcatSnoc(s.pending, line);
    files', text', metabolites', file' := files, text + line, metabolites, file;
    if StartsWith(line, Open) {
      metabolites' := metabolites' + 1;
    }
    if StartsWith(line, Close) && metabolites' == chunksize {
      var filename := ChunkName(chunksize, file');
      file' := file' + 1;
      FilesSnoc(s.written, Chunk(filename, s.pending + [line]));
      files' := files' + [(filename, text')];
      metabolites' := 0;
      text' := "";
    }
  }

  lemma ConcatSnoc(lines: seq<string>, line: string)
    ensures Concat(lines + [line]) == Concat(lines) + line
  {
    assert (lines + [line])[..|lines|] == lines;
  }

  lemma FilesSnoc(chunks: seq<Chunk>, chunk: Chunk)
    ensures Files(chunks + [chunk]) == Files(chunks) + [(chunk.name, Concat(chunk.lines))]
  {
  }

  lemma {:induction false} ConcatAppend(a: seq<string>, b: seq<string>)
    ensures Concat(a + b) == Concat(a) + Concat(b)
    decreases |b|
  {
    if b == [] {
      assert a + b == a;
    } else {
      var init := b[..|b| - 1];
      assert (a + b)[..|a + b| - 1] == a + init;
      ConcatAppend(a, init);
    }
  }

  /** The text of all chunks, one after the other. */
  function FilesText(files: seq<(string, string)>): string {
    if files == [] then [] else FilesText(files[..|files| - 1]) + files[|files| - 1].1
  }

  lemma {:induction false} FilesTextOfChunks(chunks: seq<Chunk>)
    ensures FilesText(Files(chunks)) == Concat(ChunkLines(chunks))
  {
    if chunks != [] {
      var init := chunks[..|chunks| - 1];
      assert Files(chunks)[..|chunks| - 1] == Files(init);
      FilesTextOfChunks(init);
      ConcatAppend(ChunkLines(init), chunks[|chunks| - 1].lines);
    }
  }

  /** The files written, followed by the text never written, are the whole input. */
  lemma NothingLost(lines: seq<string>, chunksize: int)
    ensures var s := Process(lines, chunksize);
            FilesText(Files(s.written)) + Concat(s.pending) == Concat(lines)
  {
    var s := Process(lines, chunksize);
    ProcessFacts(lines, chunksize);
    FilesTextOfChunks(s.written);
    ConcatAppend(ChunkLines(s.written), s.pending);
  }

  /** File names are numbered, so no two written files share a name. */
  lemma ChunkNamesDistinct(chunksize: int, m: nat, n: nat)
    requires m != n
    ensures ChunkName(chunksize, m) != ChunkName(chunksize, n)
  {
    var prefix := "chunks_" + IntToString(chunksize) + "_";
    assert ChunkName(chunksize, m) == prefix + NatToString(m);
    assert ChunkName(chunksize, n) == prefix + NatToString(n);
    assert (prefix + NatToString(m))[|prefix|..] == NatToString(m);
    assert (prefix + NatToString(n))[|prefix|..] == NatToString(n);
    if NatToString(m) == NatToString(n) {
      NatToStringInjective(m, n);
    }
  }

  /** A file of one metabolite split by ones writes that metabolite as chunk 0 and leaves nothing pending. */
  lemma OneMetaboliteChunk()
    ensures var lines := [Open, Close];
            Process(lines, 1) == Splitter([Chunk(ChunkName(1, 0), lines)], [], 0, 1)
  {
    var lines := [Open, Close];
    assert StartsWith(Open, Open) && !StartsWith(Open, Close);
    assert Close[..|Open|][1] != Open[1];
    assert StartsWith(Close, Close) && !StartsWith(Close, Open);
    assert lines[..1] == [Open];
    assert Process([Open], 1) == Splitter([], [Open], 1, 0);
    assert lines[..|lines| - 1] == [Open];
    assert [Open] + [Close] == lines;
    assert Process(lines, 1) == Step(Splitter([], [Open], 1, 0), Close, 1);
  }

  /** With a chunk size below zero the count never matches, so nothing is written. */
  lemma NegativeChunksizeWritesNothing(lines: seq<string>, chunksize: int)
    requires chunksize < 0
    ensures Process(lines, chunksize).written == []
  {
    ProcessFacts(lines, chunksize);
  }
}

/** Building the span dataset from brat standoff files: a `.ann` file's text
    lines ("T" lines with a label, character offsets and the surface form)
    become entities over the text of the `.txt` file with the same numeric
    id. File contents are inputs; the directory listing order is the order of
    the input lists. */
module DataLoader {
  import opened Wrappers
  import opened Seqs
  import opened PyStr
  import opened Spans
  import opened Corpus

  /** The longest prefix of ASCII digits. */
  function LeadingDigits(s: string): (r: string)
    ensures |r| <= |s| && r == s[..|r|]
    ensures forall i | 0 <= i < |r| :: IsAsciiDigit(r[i])
    ensures |r| < |s| ==> !IsAsciiDigit(s[|r|])
  {
    if s == [] || !IsAsciiDigit(s[0]) then [] else [s[0]] + LeadingDigits(s[1..])
  }

  /** `extract_id`: the run of digits that starts the file name; a name that
      does not start with a digit raises `ValueError`. */
  function ExtractId(fname: string): (r: Result<string>)
    ensures r.Fail? <==> fname == [] || !IsAsciiDigit(fname[0])
    ensures r.Ok? ==> r.value != [] && StartsWith(fname, r.value)
  {
    var d := LeadingDigits(fname);
    if d == [] then Fail("ValueError") else Ok(d)
  }

  /** The id is the whole leading run: every character of it is a digit and
      the character after it, if any, is not. */
  lemma ExtractIdMaximal(fname: string)
    requires ExtractId(fname).Ok?
    ensures var id := ExtractId(fname).value;
            (forall i | 0 <= i < |id| :: IsAsciiDigit(id[i])) && (|id| < |fname| ==> !IsAsciiDigit(fname[|id|]))
  {
  }

  /** `int(s)` on a string without surrounding whitespace: an optional sign
      then ASCII digits. */
  function ParseInt(s: string): (r: Option<int>)
    ensures r.Some? ==> s != []
  {
    if s == [] then None
    else
      var signed := s[0] == '-' || s[0] == '+';
      var sign := if signed then s[0] else '+';
      var digits := if signed then s[1..] else s;
      if digits == [] || exists i | 0 <= i < |digits| :: !IsAsciiDigit(digits[i]) then None
      else Some(if sign == '-' then 0 - DecimalValue(digits) as int else DecimalValue(digits))
  }

  /** `str(n)` is read back by `int`. */
  lemma ParseNat(n: nat)
    ensures ParseInt(NatToString(n)) == Some(n)
  {
    NatToStringValue(n);
  }

  /** A line the parser looks at: its left-stripped form starts with "T". */
  predicate IsTextBound(line: string) {
    StartsWith(LStrip(line), "T")
  }

  /** `tid, infos, surface = line.rstrip().split("\t")` then
      `label, *coords = infos.split()`: the label and the offset words, or
      `ValueError` when there are not three fields or no label. */
  function Fields(line: string): Result<(string, seq<string>)> {
    var fields := SplitOn(RStrip(line), "\t");
    if |fields| != 3 then Fail("ValueError")
    else
      var words := SplitWs(fields[1]);
      if words == [] then Fail("ValueError") else Ok((words[0], words[1..]))
  }

  /** `" ".join(coords).split(";")`: one chunk per segment of the entity. */
  function Chunks(coords: seq<string>): (r: seq<string>)
    ensures |r| >= 1
  {
    SplitOn(Join(coords, " "), ";")
  }

  /** `start, end = map(int, chunk.split())` and the entity it yields; a chunk
      that is not two integers raises `ValueError`. */
  function Segment(chunk: string, entityLabel: string, text: string): (r: Result<GoldEntity>)
    ensures r.Ok? ==> r.value.code == entityLabel
    ensures r.Ok? ==> r.value.entity == PySlice(text, r.value.span.start, r.value.span.end)
  {
    var parts := SplitWs(chunk);
    if |parts| != 2 then Fail("ValueError")
    else
      var start, end := ParseInt(parts[0]), ParseInt(parts[1]);
      if start.None? || end.None? then Fail("ValueError")
      else Ok(GoldEntity(entityLabel, Span(start.value, end.value), PySlice(text, start.value, end.value)))
  }

  /** The entities of a list of chunks, in order; the first bad chunk raises. */
  function Segments(chunks: seq<string>, entityLabel: string, text: string): Result<seq<GoldEntity>> {
    if chunks == [] then Ok([])
    else
      var prev := Segments(chunks[..|chunks| - 1], entityLabel, text);
      var s := Segment(chunks[|chunks| - 1], entityLabel, text);
      if prev.Fail? then prev else if s.Fail? then Fail(s.error) else Ok(prev.value + [s.value])
  }

  /** The entities one line contributes. */
  function LineEntities(line: string, text: string): Result<seq<GoldEntity>> {
    if !IsTextBound(line) then Ok([])
    else
      var f := Fields(line);
      if f.Fail? then Fail(f.error) else Segments(Chunks(f.value.1), f.value.0, text)
  }

  /** `parse_ann` over the lines of the file. */
  function AnnEntities(lines: seq<string>, text: string): Result<seq<GoldEntity>> {
    if lines == [] then Ok([])
    else
      var prev := AnnEntities(lines[..|lines| - 1], text);
      var es := LineEntities(lines[|lines| - 1], text);
      if prev.Fail? then prev else if es.Fail? then es else Ok(prev.value + es.value)
  }

  /** The loop over the segments of one line. */
  method ParseSegments(chunks: seq<string>, entityLabel: string, text: string) returns (r: Result<seq<GoldEntity>>)
    ensures r == Segments(chunks, entityLabel, text)
  {
    var ents: seq<GoldEntity> := [];
    for k := 0 to |chunks|
      invariant Segments(chunks[..k], entityLabel, text) == Ok(ents)
    {
      assert chunks[..k + 1][..k] == chunks[..k];
      var s := Segment(chunks[k], entityLabel, text);
      if s.Fail? {
        SegmentFailureSticks(chunks, k + 1, entityLabel, text);
        return Fail(s.error);
      }
      ents := ents + [s.value];
    }
    assert chunks[..|chunks|] == chunks;
    r := Ok(ents);
  }

  /** `parse_ann` with the file given as its lines. */
  method ParseAnn(lines: seq<string>, text: string) returns (r: Result<seq<GoldEntity>>)
    ensures r == AnnEntities(lines, text)
  {
    var ents: seq<GoldEntity> := [];
    for i := 0 to |lines|
      invariant AnnEntities(lines[..i], text) == Ok(ents)
    {
      AnnStep(lines, i, text);
      var line := lines[i];
      if !IsTextBound(line) {
        assert LineEntities(line, text) == Ok([]);
        assert ents + [] == ents;
        continue;
      }
      var f := Fields(line);
      if f.Fail? {
        assert LineEntities(line, text) == Fail(f.error);
        AnnFailureSticks(lines, i + 1, text);
        return Fail(f.error);
      }
      var (entityLabel, coords) := f.value;
      var segs := ParseSegments(Chunks(coords), entityLabel, text);
      assert LineEntities(line, text) == segs;
      if segs.Fail? {
        AnnFailureSticks(lines, i + 1, text);
        return Fail(segs.error);
      }
      ents := ents + segs.value;
    }
    assert lines[..|lines|] == lines;
    r := Ok(ents);
  }

  lemma AnnStep(lines: seq<string>, i: nat, text: string)
    requires i < |lines|
    ensures var prev, es := AnnEntities(lines[..i], text), LineEntities(lines[i], text);
            AnnEntities(lines[..i + 1], text) == if prev.Fail? then prev else if es.Fail? then es else Ok(prev.value + es.value)
  {
    assert lines[..i + 1][..i] == lines[..i];
  }

  lemma {:induction false} SegmentFailureSticks(chunks: seq<string>, k: nat, entityLabel: string, text: string)
    requires k <= |chunks| && Segments(chunks[..k], entityLabel, text).Fail?
    ensures Segments(chunks, entityLabel, text) == Segments(chunks[..k], entityLabel, text)
    decreases |chunks| - k
  {
    if k < |chunks| {
      assert chunks[..k + 1][..k] == chunks[..k];
      SegmentFailureSticks(chunks, k + 1, entityLabel, text);
    } else {
      assert chunks[..k] == chunks;
    }
  }

  /** Once a line has raised, the later lines change nothing. */
  lemma {:induction false} AnnFailureSticks(lines: seq<string>, i: nat, text: string)
    requires i <= |lines| && AnnEntities(lines[..i], text).Fail?
    ensures AnnEntities(lines, text) == AnnEntities(lines[..i], text)
    decreases |lines| - i
  {
    if i < |lines| {
      assert lines[..i + 1][..i] == lines[..i];
      AnnFailureSticks(lines, i + 1, text);
    } else {
      assert lines[..i] == lines;
    }
  }

  /** A line not starting with "T" after its leading whitespace is ignored. */
  lemma IgnoredLine(lines: seq<string>, line: string, text: string)
    requires !IsTextBound(line)
    ensures AnnEntities(lines + [line], text) == AnnEntities(lines, text)
  {
    assert (lines + [line])[..|lines|] == lines;
    var prev := AnnEntities(lines, text);
    if prev.Ok? {
      assert prev.value + [] == prev.value;
    }
  }

  /** A "T" line without exactly three tab-separated fields raises. */
  lemma FieldCountMatters(lines: seq<string>, line: string, text: string)
    requires IsTextBound(line) && |SplitOn(RStrip(line), "\t")| != 3
    ensures AnnEntities(lines + [line], text).Fail?
  {
    var all := lines + [line];
    assert all[..|all| - 1] == lines && all[|all| - 1] == line;
    assert Fields(line).Fail?;
    assert LineEntities(line, text).Fail?;
  }

  /** Every segment of an accepted line gives one entity, all with the line's
      label, each spanning its two offsets and holding the text between. */
  lemma {:induction false} SegmentsShape(chunks: seq<string>, entityLabel: string, text: string)
    requires Segments(chunks, entityLabel, text).Ok?
    ensures |Segments(chunks, entityLabel, text).value| == |chunks|
    ensures forall e | e in Segments(chunks, entityLabel, text).value ::
              e.code == entityLabel && e.entity == PySlice(text, e.span.start, e.span.end)
    decreases |chunks|
  {
    if chunks != [] {
      SegmentsShape(chunks[..|chunks| - 1], entityLabel, text);
    }
  }

  /** Every entity of a parsed file spans its two offsets and holds the text
      between them. */
  lemma {:induction false} AnnEntitiesShape(lines: seq<string>, text: string)
    requires AnnEntities(lines, text).Ok?
    ensures forall e | e in AnnEntities(lines, text).value :: e.entity == PySlice(text, e.span.start, e.span.end)
    decreases |lines|
  {
    if lines != [] {
      var line := lines[|lines| - 1];
      AnnEntitiesShape(lines[..|lines| - 1], text);
      if IsTextBound(line) && Fields(line).Ok? {
        SegmentsShape(Chunks(Fields(line).value.1), Fields(line).value.0, text);
      }
    }
  }

  /** The ids of a list of file names; the first bad name raises. */
  function ExtractIds(names: seq<string>): (r: Result<seq<string>>)
    ensures r.Ok? ==> |r.value| == |names|
  {
    if names == [] then Ok([])
    else
      var prev := ExtractIds(names[..|names| - 1]);
      var id := ExtractId(names[|names| - 1]);
      if prev.Fail? then prev else if id.Fail? then Fail(id.error) else Ok(prev.value + [id.value])
  }

  /** A dictionary built from ids and values: a repeated id keeps its last
      value. */
  function IdMap<V>(ids: seq<string>, vals: seq<V>): (m: map<string, V>)
    requires |ids| == |vals|
    ensures m.Keys == Elems(ids)
  {
    if ids == [] then map[]
    else IdMap(ids[..|ids| - 1], vals[..|vals| - 1])[ids[|ids| - 1] := vals[|vals| - 1]]
  }

  /** A `.txt` file: its name and contents. */
  datatype TextFile = TextFile(name: string, content: string)

  /** An `.ann` file: its name and lines. */
  datatype AnnFile = AnnFile(name: string, lines: seq<string>)

  function TextNames(fs: seq<TextFile>): seq<string> {
    seq(|fs|, i requires 0 <= i < |fs| => fs[i].name)
  }

  function TextContents(fs: seq<TextFile>): seq<string> {
    seq(|fs|, i requires 0 <= i < |fs| => fs[i].content)
  }

  function AnnNames(fs: seq<AnnFile>): seq<string> {
    seq(|fs|, i requires 0 <= i < |fs| => fs[i].name)
  }

  function AnnLines(fs: seq<AnnFile>): seq<seq<string>> {
    seq(|fs|, i requires 0 <= i < |fs| => fs[i].lines)
  }

  /** The examples for the `.ann` ids in `order`: an id without a text is
      skipped; the first file that fails to parse raises. (The ids in
      `order` are the annotation dictionary's own keys.) */
  function Examples(order: seq<string>, anns: map<string, seq<string>>, texts: map<string, string>): Result<seq<Document>>
  {
    if order == [] then Ok([])
    else
      var prev := Examples(order[..|order| - 1], anns, texts);
      var id := order[|order| - 1];
      if prev.Fail? || id !in anns || id !in texts then prev
      else
        var es := AnnEntities(anns[id], texts[id]);
        if es.Fail? then Fail(es.error) else Ok(prev.value + [Document(id, texts[id], es.value)])
  }

  /** `build_split` without the directory listing and the file writing:
      `txts` and `anns` are the files found, in listing order. */
  method BuildSplit(txts: seq<TextFile>, anns: seq<AnnFile>) returns (r: Result<seq<Document>>)
    ensures var txtIds, annIds := ExtractIds(TextNames(txts)), ExtractIds(AnnNames(anns));
            if txtIds.Fail? then r == Fail(txtIds.error)
            else if annIds.Fail? then r == Fail(annIds.error)
            else
              r == Examples(FirstSeen(annIds.value), IdMap(annIds.value, AnnLines(anns)),
                            IdMap(txtIds.value, TextContents(txts)))
  {
    var txtIds := ExtractIds(TextNames(txts));
    if txtIds.Fail? {
      return Fail(txtIds.error);
    }
    var annIds := ExtractIds(AnnNames(anns));
    if annIds.Fail? {
      return Fail(annIds.error);
    }
    var txtFiles := IdMap(txtIds.value, TextContents(txts));
    var annFiles := IdMap(annIds.value, AnnLines(anns));
    FirstSeenKeys(annIds.value);
    r := CollectExamples(FirstSeen(annIds.value), annFiles, txtFiles);
  }

  /** The loop over the `.ann` files of `build_split`. */
  method CollectExamples(order: seq<string>, annFiles: map<string, seq<string>>, txtFiles: map<string, string>)
    returns (r: Result<seq<Document>>)
    requires Elems(order) <= annFiles.Keys
    ensures r == Examples(order, annFiles, txtFiles)
  {
    var examples: seq<Document> := [];
    for i := 0 to |order|
      invariant Examples(order[..i], annFiles, txtFiles) == Ok(examples)
    {
      assert order[..i + 1][..i] == order[..i];
      var id := order[i];
      assert id in Elems(order);
      if id !in txtFiles {
        continue;
      }
      var entities := ParseAnn(annFiles[id], txtFiles[id]);
      if entities.Fail? {
        ExamplesFailureSticks(order, i + 1, annFiles, txtFiles);
        return Fail(entities.error);
      }
      examples := examples + [Document(id, txtFiles[id], entities.value)];
    }
    assert order[..|order|] == order;
    r := Ok(examples);
  }

  lemma {:induction false} ExamplesFailureSticks(order: seq<string>, i: nat, anns: map<string, seq<string>>,
                                                  texts: map<string, string>)
    requires i <= |order|
    requires Examples(order[..i], anns, texts).Fail?
    ensures Examples(order, anns, texts) == Examples(order[..i], anns, texts)
    decreases |order| - i
  {
    if i < |order| {
      assert order[..i + 1][..i] == order[..i];
      ExamplesFailureSticks(order, i + 1, anns, texts);
    } else {
      assert order[..i] == order;
    }
  }

  /** Every example is an `.ann` id that has a `.txt`, with the text of that
      file and the entities of that annotation file, and every such id has
      an example. */
  lemma {:induction false} ExamplesShape(order: seq<string>, anns: map<string, seq<string>>, texts: map<string, string>)
    requires Examples(order, anns, texts).Ok?
    ensures var docs := Examples(order, anns, texts).value;
            |docs| <= |order|
            && (forall d | d in docs :: d.textId in order && d.textId in anns && d.textId in texts && d.text == texts[d.textId]
                                        && AnnEntities(anns[d.textId], d.text) == Ok(d.entities))
            && (forall id | id in order && id in anns && id in texts :: exists d | d in docs :: d.textId == id)
    decreases |order|
  {
    if order != [] {
      var n := |order| - 1;
      ExamplesShape(order[..n], anns, texts);
      var prevDocs := Examples(order[..n], anns, texts).value;
      var docs := Examples(order, anns, texts).value;
      forall id | id in order && id in anns && id in texts ensures exists d | d in docs :: d.textId == id {
        if id != order[n] {
          var k :| 0 <= k < |order| && order[k] == id;
          assert order[..n][k] == id;
          var d :| d in prevDocs && d.textId == id;
          assert d in docs;
        } else {
          assert docs[|docs| - 1].textId == id;
        }
      }
    }
  }
}

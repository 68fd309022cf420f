/** Rewriting the entity codes of a GLiNER-style dataset into their textual
    definitions, in place. Each example's `ner` list holds three-element
    spans; the rewrite reads them as `(start, code, end)`. */
module EntitieToDef {
  import opened Wrappers

  /** A JSON scalar as it appears in a span triple. */
  datatype JVal = JInt(i: int) | JStr(s: string)

  /** `DEFINITIONS`: the definition of each category code. */
  const Definitions: map<string, string> := map[
    "DISO" := "Any deviation from the normal state of an organism: diseases, symptoms, dysfunctions, organ abnormalities (excluding injuries or poisoning).",
    "CHEM" := "Chemical substances, including legal/illegal drugs and biomolecules.",
    "DEVICE" := "Manufactured object used for medical or laboratory purposes.",
    "LABPROC" := "Testing of body substances and other diagnostic procedures such as ultrasonography.",
    "PHYS" := "Biological function or process in an organism, including organism attributes (e.g., temperature), excluding mental processes.",
    "ANATOMY" := "Organs, body parts, cells, cellular components and body substances.",
    "FINDING" := "Statement conveying the results of a scientific observation or experiment.",
    "INJURY_POISONING" := "damage inflicted on the body as the direct or indirect result"
  ]

  /** `DEFINITIONS.get(code, code)`: a known code becomes its definition,
      anything else (another string, a number) is kept. */
  function Define(code: JVal): (r: JVal)
    ensures code.JStr? && code.s in Definitions ==> r == JStr(Definitions[code.s])
    ensures !(code.JStr? && code.s in Definitions) ==> r == code
  {
    if code.JStr? && code.s in Definitions then JStr(Definitions[code.s]) else code
  }

  /** One span as written: `start, code, end = span` then
      `[start, end, definition]`; a span that is not three values cannot be
      unpacked (`ValueError`). */
  function RewriteSpan(span: seq<JVal>): (r: Result<seq<JVal>>)
    ensures r.Ok? <==> |span| == 3
    ensures r.Ok? ==> r.value == [span[0], span[2], Define(span[1])]
  {
    if |span| != 3 then Fail("ValueError") else Ok([span[0], span[2], Define(span[1])])
  }

  /** The new `ner` list of one example: every span rewritten, in order; the
      first span that does not unpack raises. */
  function RewriteAll(ner: seq<seq<JVal>>): (r: Result<seq<seq<JVal>>>)
    ensures r.Ok? ==> |r.value| == |ner|
    ensures r.Ok? ==> forall k | 0 <= k < |ner| :: RewriteSpan(ner[k]) == Ok(r.value[k])
  {
    if ner == [] then Ok([])
    else
      var prev := RewriteAll(ner[..|ner| - 1]);
      var s := RewriteSpan(ner[|ner| - 1]);
      if prev.Fail? then prev else if s.Fail? then Fail(s.error) else Ok(prev.value + [s.value])
  }

  /** The list is rewritten exactly when every span has three values. */
  lemma {:induction false} RewriteAllOk(ner: seq<seq<JVal>>)
    ensures RewriteAll(ner).Ok? <==> forall k | 0 <= k < |ner| :: |ner[k]| == 3
    decreases |ner|
  {
    if ner != [] {
      var n := |ner| - 1;
      RewriteAllOk(ner[..n]);
      assert forall k | 0 <= k < n :: ner[..n][k] == ner[k];
    }
  }

  /** A dataset example; only its `ner` field is read or written. */
  class Example {
    var ner: Option<seq<seq<JVal>>>

    constructor (ner: Option<seq<seq<JVal>>>)
      ensures this.ner == ner
    {
      this.ner := ner;
    }

    /** `example.get("ner", [])` */
    function Spans(): seq<seq<JVal>>
      reads this
    {
      if ner.Some? then ner.value else []
    }

    /** The loop body for one example: build `new_ner` and store it. On a
        span that does not unpack, the exception leaves the example as it
        was. */
    method Rewrite() returns (r: Result<()>)
      modifies this
      ensures r.Ok? <==> RewriteAll(old(Spans())).Ok?
      ensures r.Ok? ==> ner == Some(RewriteAll(old(Spans())).value)
      ensures r.Fail? ==> ner == old(ner)
    {
      var spans := if ner.Some? then ner.value else [];
      var newNer: seq<seq<JVal>> := [];
      for k := 0 to |spans|
        invariant RewriteAll(spans[..k]) == Ok(newNer)
      {
        assert spans[..k + 1][..k] == spans[..k];
        var span := spans[k];
        if |span| != 3 {
          RewriteFailureSticks(spans, k + 1);
          assert spans[..|spans|] == spans;
          return Fail("ValueError");
        }
        var start, code, end := span[0], span[1], span[2];
        var definition := if code.JStr? && code.s in Definitions then JStr(Definitions[code.s]) else code;
        newNer := newNer + [[start, end, definition]];
      }
      assert spans[..|spans|] == spans;
      ner := Some(newNer);
      r := Ok(());
    }
  }

  lemma {:induction false} RewriteFailureSticks(ner: seq<seq<JVal>>, k: nat)
    requires k <= |ner| && RewriteAll(ner[..k]).Fail?
    ensures RewriteAll(ner) == RewriteAll(ner[..k])
    decreases |ner| - k
  {
    if k < |ner| {
      assert ner[..k + 1][..k] == ner[..k];
      RewriteFailureSticks(ner, k + 1);
    } else {
      assert ner[..k] == ner;
    }
  }

  /** `replace_codes_with_definitions`: every example's `ner` is replaced in
      place and the same list is returned. An example that raises stops the
      loop: the examples before it are rewritten, it and the later ones are
      left as they were. (The examples come from a JSON document, so no
      object occurs twice in the list.) */
  method ReplaceCodesWithDefinitions(data: seq<Example>) returns (r: Result<seq<Example>>)
    requires forall i, j | 0 <= i < j < |data| :: data[i] != data[j]
    modifies set e | e in data
    ensures r.Ok? ==> r.value == data
    ensures r.Ok? <==> forall e | e in data :: RewriteAll(old(e.Spans())).Ok?
    ensures r.Ok? ==> forall e | e in data :: Rewritten(e, old(e.Spans()))
    ensures r.Fail? ==> exists i | 0 <= i < |data| ::
              && RewriteAll(old(data[i].Spans())).Fail?
              && (forall k | 0 <= k < i :: Rewritten(data[k], old(data[k].Spans())))
              && (forall k | i <= k < |data| :: data[k].ner == old(data[k].ner))
  {
    ghost var before := seq(|data|, k requires 0 <= k < |data| reads data => data[k].Spans());
    ghost var ners := seq(|data|, k requires 0 <= k < |data| reads data => data[k].ner);
    for i := 0 to |data|
      invariant forall k | 0 <= k < i :: Rewritten(data[k], before[k])
      invariant forall k | i <= k < |data| :: data[k].ner == ners[k]
    {
      var res := data[i].Rewrite();
      assert forall k | 0 <= k < |data| && k != i :: data[k] != data[i];
      if res.Fail? {
        assert RewriteAll(before[i]).Fail?;
        return Fail(res.error);
      }
    }
    r := Ok(data);
  }

  /** The example holds the rewrite of the spans it had. */
  ghost predicate Rewritten(e: Example, spans: seq<seq<JVal>>)
    reads e
  {
    RewriteAll(spans).Ok? && e.ner == Some(RewriteAll(spans).value)
  }

  /** The rewrite as it was evidently meant for the dataset's spans, which
      are `[start, end, label]` triples: the positions are kept and the label
      is replaced by its definition. */
  function RewriteSpanIntended(span: seq<JVal>): (r: Result<seq<JVal>>)
    ensures r.Ok? <==> |span| == 3
  {
    if |span| != 3 then Fail("ValueError") else Ok([span[0], span[1], Define(span[2])])
  }

  /** On a `[start, end, label]` triple the intended rewrite keeps both
      offsets in place and maps the label; a label without a definition
      leaves the triple unchanged. */
  lemma IntendedKeepsOffsets(start: int, end: int, code: string)
    ensures RewriteSpanIntended([JInt(start), JInt(end), JStr(code)]).Ok?
    ensures var r := RewriteSpanIntended([JInt(start), JInt(end), JStr(code)]).value;
            r[0] == JInt(start) && r[1] == JInt(end) && r[2] == Define(JStr(code))
    ensures code !in Definitions ==> RewriteSpanIntended([JInt(start), JInt(end), JStr(code)]) == Ok([JInt(start), JInt(end), JStr(code)])
  {
  }

  /** As written, a `[start, end, label]` triple comes out as
      `[start, label, end]`: the end offset is read as the code (a number, so
      it has no definition) and the label is moved without being mapped, even
      when it has a definition. */
  lemma WrittenSwapsSpan(start: int, end: int, name: string)
    requires name in Definitions
    ensures RewriteSpan([JInt(start), JInt(end), JStr(name)]) == Ok([JInt(start), JStr(name), JInt(end)])
    ensures RewriteSpanIntended([JInt(start), JInt(end), JStr(name)]) == Ok([JInt(start), JInt(end), JStr(Definitions[name])])
    ensures RewriteSpan([JInt(start), JInt(end), JStr(name)]) != RewriteSpanIntended([JInt(start), JInt(end), JStr(name)])
  {
  }
}

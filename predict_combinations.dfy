/** The combination-level prediction dump: for every category, every
    selection of its synonyms of a size in range, and every document, the
    model's predictions whose label belongs to the selection, stored under
    the key `code__syn1__syn2...`. The model is an input. */
module PredictCombinations {
  import opened Wrappers
  import opened Spans
  import opened Seqs
  import opened PyStr
  import opened Corpus
  import opened Combos

  /** A dataset document: its optional `text_id` and its text. */
  datatype DataDoc = DataDoc(textId: Option<string>, text: string)

  /** One entity returned by `model.predict_entities`. */
  datatype ModelEntity = ModelEntity(start: int, end: int, name: string)

  /** The model call with the threshold fixed: a text and the labels to look
      for give the predicted entities. */
  type Model = (string, seq<string>) -> seq<ModelEntity>

  /** `MAX_COMB or len(synonyms)`: an unset or zero bound means all sizes. */
  function MaxComb(maxComb: Option<int>, synonyms: seq<string>): int {
    if maxComb.None? || maxComb.value == 0 then |synonyms| else maxComb.value
  }

  /** The `combinations` list of one category. */
  method EnumerateCombos(synonyms: seq<string>, minComb: nat, maxComb: Option<int>) returns (combos: seq<seq<string>>)
    ensures combos == CombosBetween(synonyms, minComb, MaxComb(maxComb, synonyms))
  {
    var hi := MaxComb(maxComb, synonyms);
    combos := [];
    var k := minComb;
    while k <= hi
      invariant minComb <= k <= (if hi < minComb then minComb else hi + 1)
      invariant combos == CombosBetween(synonyms, minComb, k - 1)
      decreases hi - k + 1
    {
      assert CombosBetween(synonyms, minComb, k) == CombosBetween(synonyms, minComb, k - 1) + Combinations(synonyms, k);
      combos := combos + Combinations(synonyms, k);
      k := k + 1;
    }
    if hi >= minComb {
      assert k == hi + 1;
    } else {
      assert CombosBetween(synonyms, minComb, hi) == [];
    }
  }

  /** Without a bound, the enumeration holds every ordered selection of
      `minComb` or more synonyms, each once per way of choosing it, and there
      are Σ C(n, k) of them. */
  lemma UnboundedEnumeration(synonyms: seq<string>, minComb: nat, c: seq<string>)
    ensures |CombosBetween(synonyms, minComb, MaxComb(None, synonyms))| == BinomSum(|synonyms|, minComb, |synonyms|)
    ensures c in CombosBetween(synonyms, minComb, MaxComb(None, synonyms)) <==> minComb <= |c| && IsSubseq(c, synonyms)
  {
    if c in CombosBetween(synonyms, minComb, |synonyms|) {
      CombosBetweenSound(synonyms, minComb, |synonyms|, c);
    }
    if minComb <= |c| && IsSubseq(c, synonyms) {
      SubseqLength(c, synonyms);
      CombosBetweenComplete(synonyms, minComb, |synonyms|, c);
    }
  }

  /** A selection is no longer than the list it is taken from. */
  lemma {:induction false} SubseqLength(c: seq<string>, s: seq<string>)
    requires IsSubseq(c, s)
    ensures |c| <= |s|
    decreases |s|
  {
    if c != [] {
      if c[0] == s[0] && IsSubseq(c[1..], s[1..]) {
        SubseqLength(c[1..], s[1..]);
      } else {
        SubseqLength(c, s[1..]);
      }
    }
  }

  /** `f"{entity_code}__{'__'.join(combo)}"` */
  function FullKey(code: string, combo: seq<string>): string {
    code + "__" + Join(combo, "__")
  }

  /** The record of one kept prediction. */
  function Record(doc: DataDoc, e: ModelEntity): PredEntry {
    PredEntry(if doc.textId.Some? then doc.textId.value else "", doc.text, Span(e.start, e.end),
              PySlice(doc.text, e.start, e.end), e.name)
  }

  /** The records of one document: its predictions whose label is in the
      selection, in the model's order. */
  function DocEntries(doc: DataDoc, preds: seq<ModelEntity>, combo: seq<string>): seq<PredEntry> {
    if preds == [] then []
    else
      var e := preds[|preds| - 1];
      DocEntries(doc, preds[..|preds| - 1], combo) + (if e.name in combo then [Record(doc, e)] else [])
  }

  /** `debug_entries` of one selection over the dataset. */
  function ComboEntries(dataset: seq<DataDoc>, model: Model, combo: seq<string>): seq<PredEntry> {
    if dataset == [] then []
    else
      var doc := dataset[|dataset| - 1];
      ComboEntries(dataset[..|dataset| - 1], model, combo) + DocEntries(doc, model(doc.text, combo), combo)
  }

  /** The loop over the documents and their predictions for one selection. */
  method PredictCombo(dataset: seq<DataDoc>, model: Model, combo: seq<string>) returns (entries: seq<PredEntry>)
    ensures entries == ComboEntries(dataset, model, combo)
  {
    entries := [];
    for i := 0 to |dataset|
      invariant entries == ComboEntries(dataset[..i], model, combo)
    {
      assert dataset[..i + 1][..i] == dataset[..i];
      var doc := dataset[i];
      var preds := model(doc.text, combo);
      ghost var before := entries;
      for j := 0 to |preds|
        invariant entries == before + DocEntries(doc, preds[..j], combo)
      {
        assert preds[..j + 1][..j] == preds[..j];
        if preds[j].name in combo {
          entries := entries + [Record(doc, preds[j])];
        }
      }
      assert preds[..|preds|] == preds;
    }
    assert dataset[..|dataset|] == dataset;
  }

  /** Every record of a selection carries a label of the selection, the span
      the model gave, and the text that span covers in its document. */
  lemma {:induction false} ComboEntriesShape(dataset: seq<DataDoc>, model: Model, combo: seq<string>)
    ensures forall e | e in ComboEntries(dataset, model, combo) ::
              e.entityLabel in combo && e.entityText == PySlice(e.text, e.span.start, e.span.end)
    decreases |dataset|
  {
    if dataset != [] {
      var doc := dataset[|dataset| - 1];
      ComboEntriesShape(dataset[..|dataset| - 1], model, combo);
      DocEntriesShape(doc, model(doc.text, combo), combo);
    }
  }

  lemma {:induction false} DocEntriesShape(doc: DataDoc, preds: seq<ModelEntity>, combo: seq<string>)
    ensures forall e | e in DocEntries(doc, preds, combo) ::
              e.entityLabel in combo && e.text == doc.text && e.entityText == PySlice(e.text, e.span.start, e.span.end)
    decreases |preds|
  {
    if preds != [] {
      DocEntriesShape(doc, preds[..|preds| - 1], combo);
    }
  }

  /** The dump entries of one category, one per selection, in enumeration
      order. */
  function CodeBlock(code: string, combos: seq<seq<string>>, dataset: seq<DataDoc>, model: Model): (r: DebugData)
    ensures |r| == |combos|
  {
    seq(|combos|, i requires 0 <= i < |combos| => (FullKey(code, combos[i]), ComboEntries(dataset, model, combos[i])))
  }

  /** The dump entries of a category: one pair per enumerated selection. */
  function CategoryBlock(code: string, synonyms: seq<string>, dataset: seq<DataDoc>, model: Model,
                         minComb: nat, maxComb: Option<int>): DebugData {
    CodeBlock(code, CombosBetween(synonyms, minComb, MaxComb(maxComb, synonyms)), dataset, model)
  }

  /** The dump entries of every category, category by category. */
  function Blocks(types: EntityTypes, dataset: seq<DataDoc>, model: Model, minComb: nat, maxComb: Option<int>): (r: seq<DebugData>)
    ensures |r| == |types|
  {
    seq(|types|, c requires 0 <= c < |types| => CategoryBlock(types[c].0, types[c].1, dataset, model, minComb, maxComb))
  }

  /** The loops over the selections of one category. */
  method PredictCategory(code: string, synonyms: seq<string>, dataset: seq<DataDoc>, model: Model,
                         minComb: nat, maxComb: Option<int>) returns (block: DebugData)
    ensures block == CategoryBlock(code, synonyms, dataset, model, minComb, maxComb)
  {
    var combos := EnumerateCombos(synonyms, minComb, maxComb);
    block := [];
    for j := 0 to |combos|
      invariant block == CodeBlock(code, combos[..j], dataset, model)
    {
      var entries := PredictCombo(dataset, model, combos[j]);
      block := block + [(FullKey(code, combos[j]), entries)];
    }
    assert combos[..|combos|] == combos;
  }

  /** `main` without the model loading and the file writing: the dump as the
      list of its key/value pairs in insertion order (a repeated key, from a
      repeated synonym, is looked up as its last value, as the dictionary
      keeps it). Every category contributes one pair per enumerated
      selection. */
  method PredictAll(types: EntityTypes, dataset: seq<DataDoc>, model: Model, minComb: nat, maxComb: Option<int>)
    returns (debug: DebugData)
    ensures debug == Flatten(Blocks(types, dataset, model, minComb, maxComb))
  {
    debug := [];
    for c := 0 to |types|
      invariant debug == Flatten(Blocks(types, dataset, model, minComb, maxComb)[..c])
    {
      var block := PredictCategory(types[c].0, types[c].1, dataset, model, minComb, maxComb);
      ghost var bs := Blocks(types, dataset, model, minComb, maxComb);
      assert bs[..c + 1] == bs[..c] + [block];
      FlattenAppend(bs[..c], [block]);
      debug := debug + block;
    }
    ghost var bs := Blocks(types, dataset, model, minComb, maxComb);
    assert bs[..|types|] == bs;
  }

  /** The keys of a category's block are the full keys of its selections, so
      a selection's records are found under its full key. */
  lemma BlockKeys(code: string, combos: seq<seq<string>>, dataset: seq<DataDoc>, model: Model, i: nat)
    requires i < |combos|
    ensures CodeBlock(code, combos, dataset, model)[i].0 == FullKey(code, combos[i])
    ensures StartsWith(CodeBlock(code, combos, dataset, model)[i].0, code + "__")
  {
    var k := FullKey(code, combos[i]);
    assert k[..|code + "__"|] == code + "__";
  }
}

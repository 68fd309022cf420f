/** The annotated corpus and the prediction dump the evaluators read, as the
    parsed JSON values they are: gold documents with their entities, and the
    prediction entries stored under a `code__label` key. */
module Corpus {
  import opened Spans

  /** One gold entity of a document: its category, offsets and surface text. */
  datatype GoldEntity = GoldEntity(code: string, span: Span, entity: string)

  /** One gold document. */
  datatype Document = Document(textId: string, text: string, entities: seq<GoldEntity>)

  /** One prediction record: the document it belongs to, offsets, the
      predicted text and the label the model was prompted with. */
  datatype PredEntry = PredEntry(textId: string, text: string, span: Span, entityText: string, entityLabel: string)

  /** The prediction dump: a JSON object from `code__label` keys to lists of
      prediction records, keys in file order. */
  type DebugData = seq<(string, seq<PredEntry>)>

  /** The category table: each code with its synonyms, in declaration order. */
  type EntityTypes = seq<(string, seq<string>)>

  /** The dump key of a category and a label, `f"{code}__{label}"`. */
  function Key(code: string, name: string): string {
    code + "__" + name
  }

  /** `debug_data.get(key, [])`: the list stored under `key` (the last one,
      as a JSON object keeps the last of repeated keys), or `[]`. */
  function Get(d: DebugData, key: string): seq<PredEntry> {
    if d == [] then []
    else if d[|d| - 1].0 == key then d[|d| - 1].1
    else Get(d[..|d| - 1], key)
  }

  /** The distinct spans of the entries recorded for document `textId`. */
  function PredSpans(entries: seq<PredEntry>, textId: string): set<Span> {
    if entries == [] then {}
    else
      var last := entries[|entries| - 1];
      PredSpans(entries[..|entries| - 1], textId) + (if last.textId == textId then {last.span} else {})
  }

  /** The documents the entries mention. */
  function TextIds(entries: seq<PredEntry>): set<string> {
    if entries == [] then {}
    else TextIds(entries[..|entries| - 1]) + {entries[|entries| - 1].textId}
  }

  /** A span is predicted for a document exactly when some entry of that
      document records it. */
  lemma {:induction false} PredSpansMembers(entries: seq<PredEntry>, textId: string)
    ensures forall s :: s in PredSpans(entries, textId) <==>
      exists k | 0 <= k < |entries| :: entries[k].textId == textId && entries[k].span == s
    decreases |entries|
  {
    if entries != [] {
      var n := |entries| - 1;
      PredSpansMembers(entries[..n], textId);
      forall s ensures s in PredSpans(entries, textId) <==>
        exists k | 0 <= k < |entries| :: entries[k].textId == textId && entries[k].span == s
      {
        if s in PredSpans(entries[..n], textId) {
          var k :| 0 <= k < n && entries[..n][k].textId == textId && entries[..n][k].span == s;
          assert entries[k] == entries[..n][k];
        }
        if exists k | 0 <= k < |entries| :: entries[k].textId == textId && entries[k].span == s {
          var k :| 0 <= k < |entries| && entries[k].textId == textId && entries[k].span == s;
          if k < n {
            assert entries[..n][k] == entries[k];
          }
        }
      }
    }
  }

  /** The documents mentioned are exactly the entries' `text_id`s. */
  lemma {:induction false} TextIdsMembers(entries: seq<PredEntry>)
    ensures forall t :: t in TextIds(entries) <==> exists k | 0 <= k < |entries| :: entries[k].textId == t
    decreases |entries|
  {
    if entries != [] {
      var n := |entries| - 1;
      TextIdsMembers(entries[..n]);
      forall t ensures t in TextIds(entries) <==> exists k | 0 <= k < |entries| :: entries[k].textId == t
      {
        if t in TextIds(entries[..n]) {
          var k :| 0 <= k < n && entries[..n][k].textId == t;
          assert entries[k] == entries[..n][k];
        }
        if exists k | 0 <= k < |entries| :: entries[k].textId == t {
          var k :| 0 <= k < |entries| && entries[k].textId == t;
          if k < n {
            assert entries[..n][k] == entries[k];
          }
        }
      }
    }
  }

  /** A document the entries never mention has no predicted span. */
  lemma {:induction false} UnmentionedEmpty(entries: seq<PredEntry>, textId: string)
    requires textId !in TextIds(entries)
    ensures PredSpans(entries, textId) == {}
    decreases |entries|
  {
    if entries != [] {
      UnmentionedEmpty(entries[..|entries| - 1], textId);
    }
  }

  /** The distinct spans of a list of entries, whatever their document. */
  function EntrySpans(entries: seq<PredEntry>): set<Span> {
    set e | e in entries :: e.span
  }

  /** The entries' spans grouped by document: `{text_id: set(spans)}`. */
  function ByText(entries: seq<PredEntry>): map<string, set<Span>> {
    map t | t in TextIds(entries) :: PredSpans(entries, t)
  }

  /** `m.get(key, set())` for a grouping by document. */
  function Lookup(m: map<string, set<Span>>, textId: string): set<Span> {
    if textId in m then m[textId] else {}
  }

  /** Looking a document up in the grouping gives its spans, and `set()` for a
      document the entries never mention. */
  lemma LookupByText(entries: seq<PredEntry>, textId: string)
    ensures Lookup(ByText(entries), textId) == PredSpans(entries, textId)
  {
    if textId !in TextIds(entries) {
      UnmentionedEmpty(entries, textId);
    }
  }

  /** The grouping loop `m.setdefault(text_id, set()).add(span)` over a list
      of entries. */
  method GroupByText(entries: seq<PredEntry>) returns (m: map<string, set<Span>>)
    ensures m == ByText(entries)
  {
    m := map[];
    for i := 0 to |entries|
      invariant m.Keys == TextIds(entries[..i])
      invariant forall t | t in m :: m[t] == PredSpans(entries[..i], t)
    {
      var e := entries[i];
      assert entries[..i + 1][..i] == entries[..i];
      if e.textId !in m {
        UnmentionedEmpty(entries[..i], e.textId);
      }
      m := m[e.textId := Lookup(m, e.textId) + {e.span}];
    }
    assert entries[..|entries|] == entries;
  }

  /** The distinct spans of the entities of category `code` (when `same`) or
      of any other category (when not `same`). */
  function CodeSpans(ents: seq<GoldEntity>, code: string, same: bool): set<Span> {
    if ents == [] then {}
    else
      var last := ents[|ents| - 1];
      var rest := CodeSpans(ents[..|ents| - 1], code, same);
      if (last.code == code) == same then rest + {last.span} else rest
  }

  /** The number of entity entries of category `code` (or of other categories). */
  function CountWhere(ents: seq<GoldEntity>, code: string, same: bool): nat {
    if ents == [] then 0
    else CountWhere(ents[..|ents| - 1], code, same) + (if (ents[|ents| - 1].code == code) == same then 1 else 0)
  }

  /** The gold (or other-category) set holds exactly the spans of the
      entities of that category (or of the other categories). */
  lemma {:induction false} CodeSpansMembers(ents: seq<GoldEntity>, code: string, same: bool)
    ensures forall s :: s in CodeSpans(ents, code, same) <==>
      exists k | 0 <= k < |ents| :: (ents[k].code == code) == same && ents[k].span == s
    decreases |ents|
  {
    if ents != [] {
      var n := |ents| - 1;
      CodeSpansMembers(ents[..n], code, same);
      forall s ensures s in CodeSpans(ents, code, same) <==>
        exists k | 0 <= k < |ents| :: (ents[k].code == code) == same && ents[k].span == s
      {
        if s in CodeSpans(ents[..n], code, same) {
          var k :| 0 <= k < n && (ents[..n][k].code == code) == same && ents[..n][k].span == s;
          assert ents[k] == ents[..n][k];
        }
        if exists k | 0 <= k < |ents| :: (ents[k].code == code) == same && ents[k].span == s {
          var k :| 0 <= k < |ents| && (ents[k].code == code) == same && ents[k].span == s;
          if k < n {
            assert ents[..n][k] == ents[k];
          }
        }
      }
    }
  }

  /** Repeated spans count once, so there are no more distinct spans than
      entries. */
  lemma {:induction false} CodeSpansAtMostEntries(ents: seq<GoldEntity>, code: string, same: bool)
    ensures |CodeSpans(ents, code, same)| <= CountWhere(ents, code, same)
    decreases |ents|
  {
    if ents != [] {
      CodeSpansAtMostEntries(ents[..|ents| - 1], code, same);
    }
  }

  /** The gold set of a document for one category. */
  function GoldSpans(doc: Document, code: string): set<Span> {
    CodeSpans(doc.entities, code, true)
  }

  /** The distinct gold spans of the other categories. */
  function OtherGoldSpans(doc: Document, code: string): set<Span> {
    CodeSpans(doc.entities, code, false)
  }

  /** The documents of the corpus. */
  function CorpusIds(corpus: seq<Document>): set<string> {
    set d | d in corpus :: d.textId
  }

  /** The predicted set of every document, in corpus order, for one key. */
  function PerDoc(corpus: seq<Document>, entries: seq<PredEntry>): (r: seq<set<Span>>)
    ensures |r| == |corpus|
  {
    seq(|corpus|, i requires 0 <= i < |corpus| => PredSpans(entries, corpus[i].textId))
  }

  /** `spans_by_text` filled by the grouping loop, then read with
      `.get(doc["text_id"], set())` for every document of the corpus. */
  method GroupedPerDoc(corpus: seq<Document>, entries: seq<PredEntry>) returns (preds: seq<set<Span>>)
    ensures preds == PerDoc(corpus, entries)
  {
    var byText := GroupByText(entries);
    preds := seq(|corpus|, i requires 0 <= i < |corpus| => Lookup(byText, corpus[i].textId));
    forall i | 0 <= i < |corpus|
      ensures preds[i] == PerDoc(corpus, entries)[i]
    {
      LookupByText(entries, corpus[i].textId);
    }
  }

  /** Entries naming a document outside the corpus change no document's
      predicted set. */
  lemma ForeignEntriesIgnored(corpus: seq<Document>, entries: seq<PredEntry>, extra: seq<PredEntry>)
    requires forall k | 0 <= k < |extra| :: extra[k].textId !in CorpusIds(corpus)
    ensures PerDoc(corpus, entries + extra) == PerDoc(corpus, entries)
  {
    forall i | 0 <= i < |corpus|
      ensures PredSpans(entries + extra, corpus[i].textId) == PredSpans(entries, corpus[i].textId)
    {
      assert corpus[i] in corpus;
      ForeignSpans(entries, extra, corpus[i].textId);
    }
  }

  lemma {:induction false} ForeignSpans(entries: seq<PredEntry>, extra: seq<PredEntry>, textId: string)
    requires forall k | 0 <= k < |extra| :: extra[k].textId != textId
    ensures PredSpans(entries + extra, textId) == PredSpans(entries, textId)
    decreases |extra|
  {
    if extra == [] {
      assert entries + extra == entries;
    } else {
      var shorter := extra[..|extra| - 1];
      assert (entries + extra)[..|entries + extra| - 1] == entries + shorter;
      ForeignSpans(entries, shorter, textId);
    }
  }

  /** Σ |gold| over the corpus for one category. */
  function GoldTotal(corpus: seq<Document>, code: string): nat {
    if corpus == [] then 0
    else GoldTotal(corpus[..|corpus| - 1], code) + |GoldSpans(corpus[|corpus| - 1], code)|
  }

  /** The true-negative count of the aggregate evaluators: Σ over documents of
      the distinct gold spans of other categories. */
  function TnCount(corpus: seq<Document>, code: string): nat {
    if corpus == [] then 0
    else TnCount(corpus[..|corpus| - 1], code) + |OtherGoldSpans(corpus[|corpus| - 1], code)|
  }

  /** Σ |pred| over a list of per-document predicted sets. */
  function PredTotal(preds: seq<set<Span>>): nat {
    if preds == [] then 0 else PredTotal(preds[..|preds| - 1]) + |preds[|preds| - 1]|
  }

  /** Σ |pred ∩ gold| over the corpus: the exact-pass true positives. */
  function ExactTotal(corpus: seq<Document>, code: string, preds: seq<set<Span>>): nat
    requires |preds| == |corpus|
  {
    if corpus == [] then 0
    else
      var n := |corpus| - 1;
      ExactTotal(corpus[..n], code, preds[..n]) + |preds[n] * GoldSpans(corpus[n], code)|
  }

  /** The number of entity entries of the other categories in the corpus. */
  function OtherEntries(corpus: seq<Document>, code: string): nat {
    if corpus == [] then 0
    else OtherEntries(corpus[..|corpus| - 1], code) + CountWhere(corpus[|corpus| - 1].entities, code, false)
  }

  /** The true-negative count never exceeds the number of other-category
      entity entries, as repeated spans count once. */
  lemma {:induction false} TnAtMostEntries(corpus: seq<Document>, code: string)
    ensures TnCount(corpus, code) <= OtherEntries(corpus, code)
    decreases |corpus|
  {
    if corpus != [] {
      TnAtMostEntries(corpus[..|corpus| - 1], code);
      CodeSpansAtMostEntries(corpus[|corpus| - 1].entities, code, false);
    }
  }

  /** The true-negative count of two corpora read one after the other is the
      sum of their counts. */
  lemma {:induction false} TnCountAppend(a: seq<Document>, b: seq<Document>, code: string)
    ensures TnCount(a + b, code) == TnCount(a, code) + TnCount(b, code)
    decreases |b|
  {
    if b == [] {
      assert a + b == a;
    } else {
      var b' := b[..|b| - 1];
      assert (a + b)[..|a + b| - 1] == a + b';
      TnCountAppend(a, b', code);
    }
  }
}

/** Regrouping a prediction dump keyed by `code__synonym` into one document
    per `text_id`, each with its entities tagged by category code, and the
    entity-count check that follows it. */
module Structure {
  import opened Seqs
  import opened PyStr
  import opened Spans
  import opened Corpus

  /** The category code of a dump key: the part before the first "__", or the
      whole key when it has none. */
  function EntityCode(key: string): string {
    if Contains(key, "__") then SplitOn(key, "__")[0] else key
  }

  /** The code is a prefix of the key holding no "__"; when the key has a
      "__", the key is the code, "__" and the rest. */
  lemma EntityCodePrefix(key: string)
    ensures !Contains(EntityCode(key), "__")
    ensures Contains(key, "__") ==> key == EntityCode(key) + "__" + AfterFirst(key, "__")
    ensures !Contains(key, "__") ==> EntityCode(key) == key
  {
    if Contains(key, "__") {
      var j := Find(key, "__");
      assert SplitOn(key, "__")[0] == key[..j];
    }
  }

  /** A key built as `code + "__" + rest`, from a code that holds no "__" and
      does not end in "_", gives its code back. */
  lemma EntityCodeOfKey(code: string, rest: string)
    requires !Contains(code, "__") && (code == [] || code[|code| - 1] != '_')
    ensures EntityCode(code + "__" + rest) == code
  {
    var key := code + "__" + rest;
    assert OccursAt(key, "__", |code|);
    forall j | 0 <= j < |code| ensures !OccursAt(key, "__", j) {
      if j + 2 <= |code| {
        assert key[j..j + 2] == code[j..j + 2];
        NoOccurrence(code, j);
      } else {
        assert key[j] == code[|code| - 1];
        assert key[j..j + 2][0] == key[j];
      }
    }
    assert Find(key, "__") == |code|;
    assert SplitOn(key, "__")[0] == key[..|code|] == code;
  }

  /** A string without "__" has no occurrence of it anywhere. */
  lemma NoOccurrence(s: string, j: nat)
    requires !Contains(s, "__")
    ensures !OccursAt(s, "__", j)
  {
  }

  /** One entry of the dump, with the code of the key it was listed under. */
  datatype Row = Row(code: string, entry: PredEntry)

  /** The entries of one key, in list order. */
  function KeyRows(key: string, entries: seq<PredEntry>): (r: seq<Row>)
    ensures |r| == |entries|
  {
    seq(|entries|, j requires 0 <= j < |entries| => Row(EntityCode(key), entries[j]))
  }

  lemma KeyRowsSnoc(key: string, entries: seq<PredEntry>, j: nat)
    requires j < |entries|
    ensures KeyRows(key, entries[..j + 1]) == KeyRows(key, entries[..j]) + [Row(EntityCode(key), entries[j])]
  {
  }

  /** Every entry of the dump: key order, then list order. */
  function Rows(items: DebugData): seq<Row> {
    if items == [] then []
    else Rows(items[..|items| - 1]) + KeyRows(items[|items| - 1].0, items[|items| - 1].1)
  }

  function Ids(rows: seq<Row>): (r: seq<string>)
    ensures |r| == |rows|
  {
    seq(|rows|, k requires 0 <= k < |rows| => rows[k].entry.textId)
  }

  /** The entity an entry becomes. */
  function EntityOf(row: Row): GoldEntity {
    GoldEntity(row.code, row.entry.span, row.entry.entityText)
  }

  /** The entities of a document: those of the entries with its `text_id`,
      in input order. */
  function Entities(rows: seq<Row>, id: string): seq<GoldEntity> {
    if rows == [] then []
    else
      var r := rows[|rows| - 1];
      Entities(rows[..|rows| - 1], id) + (if r.entry.textId == id then [EntityOf(r)] else [])
  }

  /** The text of the first entry with `text_id` `id`. */
  function FirstText(rows: seq<Row>, id: string): string {
    if rows == [] then ""
    else if rows[0].entry.textId == id then rows[0].entry.text
    else FirstText(rows[1..], id)
  }

  /** The text of the last entry with `text_id` `id`. */
  function LastText(rows: seq<Row>, id: string): string {
    if rows == [] then ""
    else if rows[|rows| - 1].entry.textId == id then rows[|rows| - 1].entry.text
    else LastText(rows[..|rows| - 1], id)
  }

  /** A document's text. The fields are set while the stored `text_id` is
      empty, so a non-empty id keeps its first text and the empty id takes
      every text in turn, ending with the last. */
  function DocText(rows: seq<Row>, id: string): string {
    if id == "" then LastText(rows, id) else FirstText(rows, id)
  }

  /** The document the regrouping builds for `id`. */
  function DocOf(rows: seq<Row>, id: string): Document {
    Document(id, DocText(rows, id), Entities(rows, id))
  }

  /** The list of documents `transform_synonym_to_entity_structure` returns:
      one per distinct `text_id`, in first-seen order. */
  function Transformed(items: DebugData): (r: seq<Document>)
  {
    var rows := Rows(items);
    var ids := FirstSeen(Ids(rows));
    seq(|ids|, i requires 0 <= i < |ids| => DocOf(rows, ids[i]))
  }

  /** The `documents` dictionary holds, for the entries seen, one document
      per `text_id`; its key order is first-seen order. */
  ghost predicate Represents(docs: map<string, Document>, order: seq<string>, rows: seq<Row>) {
    && order == FirstSeen(Ids(rows))
    && docs.Keys == Elems(Ids(rows))
    && forall id | id in docs :: docs[id] == DocOf(rows, id)
  }

  lemma IdsSnoc(rows: seq<Row>, r: Row)
    ensures Ids(rows + [r]) == Ids(rows) + [r.entry.textId]
  {
  }

  lemma {:induction false} FirstTextSnoc(rows: seq<Row>, r: Row, id: string)
    ensures id in Ids(rows) ==> FirstText(rows + [r], id) == FirstText(rows, id)
    ensures id !in Ids(rows) && r.entry.textId == id ==> FirstText(rows + [r], id) == r.entry.text
    decreases |rows|
  {
    if rows != [] {
      assert (rows + [r])[1..] == rows[1..] + [r];
      if rows[0].entry.textId != id {
        assert id in Ids(rows) ==> id in Ids(rows[1..]) by {
          if id in Ids(rows) {
            var k :| 0 <= k < |rows| && Ids(rows)[k] == id;
            assert Ids(rows[1..])[k - 1] == id;
          }
        }
        assert id !in Ids(rows) ==> id !in Ids(rows[1..]) by {
          if id in Ids(rows[1..]) {
            var k :| 0 <= k < |rows| - 1 && Ids(rows[1..])[k] == id;
            assert Ids(rows)[k + 1] == id;
          }
        }
        FirstTextSnoc(rows[1..], r, id);
      } else {
        assert Ids(rows)[0] == id;
      }
    }
  }

  lemma EntitiesSnoc(rows: seq<Row>, r: Row, id: string)
    ensures Entities(rows + [r], id) == Entities(rows, id) + (if r.entry.textId == id then [EntityOf(r)] else [])
  {
    assert (rows + [r])[..|rows|] == rows;
  }

  lemma LastTextSnoc(rows: seq<Row>, r: Row, id: string)
    ensures LastText(rows + [r], id) == if r.entry.textId == id then r.entry.text else LastText(rows, id)
  {
    assert (rows + [r])[..|rows|] == rows;
  }

  /** The dictionary after one entry: the `defaultdict` access creates its
      document when its id is new, the empty `text_id` check sets the fields,
      and the entity is appended. */
  function Insert(docs: map<string, Document>, r: Row): map<string, Document> {
    var id := r.entry.textId;
    var d := if id in docs then docs[id] else Document("", "", []);
    var d' := if d.textId == "" then d.(textId := id, text := r.entry.text) else d;
    docs[id := d'.(entities := d'.entities + [EntityOf(r)])]
  }

  /** One entry: the `defaultdict` access creates its document when its id is
      new, the empty `text_id` check sets the fields, and the entity is
      appended. */
  lemma {:induction false} StepRepresents(docs: map<string, Document>, order: seq<string>, rows: seq<Row>, r: Row)
    requires Represents(docs, order, rows)
    ensures Represents(Insert(docs, r), if r.entry.textId in docs then order else order + [r.entry.textId], rows + [r])
  {
    var id := r.entry.textId;
    IdsSnoc(rows, r);
    FirstSeenKeys(Ids(rows));
    var rows' := rows + [r];
    assert FirstSeen(Ids(rows')) == if id in docs then order else order + [id] by {
      assert Ids(rows')[..|rows|] == Ids(rows);
    }
    EntitiesSnoc(rows, r, id);
    FirstTextSnoc(rows, r, id);
    LastTextSnoc(rows, r, id);
    if id !in docs {
      EntitiesAbsent(rows, id);
    }
    forall x | x in docs && x != id ensures DocOf(rows', x) == DocOf(rows, x) {
      EntitiesSnoc(rows, r, x);
      FirstTextSnoc(rows, r, x);
      LastTextSnoc(rows, r, x);
    }
  }

  /** An id no entry carries has no entity. */
  lemma {:induction false} EntitiesAbsent(rows: seq<Row>, id: string)
    requires id !in Ids(rows)
    ensures Entities(rows, id) == []
    decreases |rows|
  {
    if rows != [] {
      var n := |rows| - 1;
      assert Ids(rows[..n]) == Ids(rows)[..n];
      assert Ids(rows)[n] != id;
      EntitiesAbsent(rows[..n], id);
    }
  }

  /** The inner loop: the entries of one key. */
  method AddEntries(docs: map<string, Document>, order: seq<string>, ghost rows: seq<Row>,
                    key: string, entries: seq<PredEntry>)
    returns (docs': map<string, Document>, order': seq<string>)
    requires Represents(docs, order, rows)
    ensures Represents(docs', order', rows + KeyRows(key, entries))
  {
    var code := EntityCode(key);
    docs', order' := docs, order;
    assert rows + KeyRows(key, entries[..0]) == rows;
    for j := 0 to |entries|
      invariant Represents(docs', order', rows + KeyRows(key, entries[..j]))
    {
      var e := entries[j];
      ghost var done := rows + KeyRows(key, entries[..j]);
      KeyRowsSnoc(key, entries, j);
      assert rows + KeyRows(key, entries[..j + 1]) == done + [Row(code, e)];
      StepRepresents(docs', order', done, Row(code, e));
      ghost var before := docs';
      var tid := e.textId;
      // the `defaultdict` read: a new id gets an empty document and a place
      // at the end of the key order
      var d := if tid in docs' then docs'[tid] else Document("", "", []);
      if tid !in docs' {
        order' := order' + [tid];
      }
      if d.textId == "" {
        d := d.(textId := tid, text := e.text);
      }
      docs' := docs'[tid := d.(entities := d.entities + [GoldEntity(code, e.span, e.entityText)])];
      assert docs' == Insert(before, Row(code, e));
    }
    assert entries[..|entries|] == entries;
  }

  /** `transform_synonym_to_entity_structure` without the file reading,
      writing and printing. */
  method Transform(items: DebugData) returns (result: seq<Document>)
    ensures result == Transformed(items)
  {
    var docs: map<string, Document> := map[];
    var order: seq<string> := [];
    for i := 0 to |items|
      invariant Represents(docs, order, Rows(items[..i]))
    {
      assert items[..i + 1][..i] == items[..i];
      docs, order := AddEntries(docs, order, Rows(items[..i]), items[i].0, items[i].1);
    }
    assert items[..|items|] == items;
    FirstSeenKeys(Ids(Rows(items)));
    result := seq(|order|, i requires 0 <= i < |order| => docs[order[i]]);
  }

  /** The output has one document per distinct `text_id` of the input, each
      once, and each document's entities are exactly its entries'. */
  lemma TransformedDocs(items: DebugData)
    ensures Distinct(KeyList(Transformed(items), (d: Document) => d.textId))
    ensures Elems(KeyList(Transformed(items), (d: Document) => d.textId)) == Elems(Ids(Rows(items)))
    ensures forall d | d in Transformed(items) :: d.entities == Entities(Rows(items), d.textId)
  {
    var ids := FirstSeen(Ids(Rows(items)));
    FirstSeenKeys(Ids(Rows(items)));
    assert KeyList(Transformed(items), (d: Document) => d.textId) == ids;
  }

  /** A document with a non-empty id takes the text of its first entry. */
  lemma {:induction false} FirstEntryText(rows: seq<Row>, k: nat)
    requires k < |rows| && rows[k].entry.textId != ""
    requires forall i | 0 <= i < k :: rows[i].entry.textId != rows[k].entry.textId
    ensures DocOf(rows, rows[k].entry.textId).text == rows[k].entry.text
    decreases k
  {
    if k > 0 {
      FirstEntryText(rows[1..], k - 1);
    }
  }

  /** The entities of the output, counted as `validate_transformation` does. */
  function TotalEntities(docs: seq<Document>): nat {
    if docs == [] then 0 else TotalEntities(docs[..|docs| - 1]) + |docs[|docs| - 1].entities|
  }

  /** The entries of the input, counted as `validate_transformation` does. */
  function TotalEntries(items: DebugData): nat {
    if items == [] then 0 else TotalEntries(items[..|items| - 1]) + |items[|items| - 1].1|
  }

  /** `validate_transformation` on the input and its transformation. */
  predicate Validated(items: DebugData, docs: seq<Document>) {
    TotalEntries(items) == TotalEntities(docs)
  }

  /** The entities counted over a list of ids. */
  function CountOver(rows: seq<Row>, ids: seq<string>): nat {
    if ids == [] then 0 else CountOver(rows, ids[..|ids| - 1]) + |Entities(rows, ids[|ids| - 1])|
  }

  /** One more entry adds one entity to the count over distinct ids when its
      id is among them, and nothing otherwise. */
  lemma {:induction false} CountOverSnoc(rows: seq<Row>, r: Row, ids: seq<string>)
    requires Distinct(ids)
    ensures CountOver(rows + [r], ids) == CountOver(rows, ids) + (if r.entry.textId in ids then 1 else 0)
    decreases |ids|
  {
    if ids != [] {
      var n := |ids| - 1;
      assert ids == ids[..n] + [ids[n]];
      assert ids[n] !in ids[..n];
      CountOverSnoc(rows, r, ids[..n]);
      EntitiesSnoc(rows, r, ids[n]);
    }
  }

  /** Counted over the first-seen ids, every entry is counted once. */
  lemma {:induction false} CountAll(rows: seq<Row>)
    ensures CountOver(rows, FirstSeen(Ids(rows))) == |rows|
    decreases |rows|
  {
    if rows != [] {
      var n := |rows| - 1;
      var r := rows[n];
      var order := FirstSeen(Ids(rows[..n]));
      CountAll(rows[..n]);
      assert rows == rows[..n] + [r];
      IdsSnoc(rows[..n], r);
      FirstSeenKeys(Ids(rows[..n]));
      assert Ids(rows)[..n] == Ids(rows[..n]);
      CountOverSnoc(rows[..n], r, order);
      if r.entry.textId !in order {
        assert r.entry.textId !in Elems(Ids(rows[..n]));
        EntitiesAbsent(rows[..n], r.entry.textId);
        EntitiesSnoc(rows[..n], r, r.entry.textId);
        assert FirstSeen(Ids(rows)) == order + [r.entry.textId];
      }
    }
  }

  lemma {:induction false} TotalOfDocs(rows: seq<Row>, ids: seq<string>)
    ensures TotalEntities(seq(|ids|, i requires 0 <= i < |ids| => DocOf(rows, ids[i]))) == CountOver(rows, ids)
    decreases |ids|
  {
    if ids != [] {
      var n := |ids| - 1;
      var docs := seq(|ids|, i requires 0 <= i < |ids| => DocOf(rows, ids[i]));
      assert docs[..n] == seq(n, i requires 0 <= i < n => DocOf(rows, ids[..n][i]));
      TotalOfDocs(rows, ids[..n]);
    }
  }

  lemma {:induction false} RowsCount(items: DebugData)
    ensures |Rows(items)| == TotalEntries(items)
    decreases |items|
  {
    if items != [] {
      RowsCount(items[..|items| - 1]);
    }
  }

  /** The regrouping loses and invents no entity: the check of
      `validate_transformation` always succeeds on it. */
  lemma TransformValidates(items: DebugData)
    ensures Validated(items, Transformed(items))
  {
    var rows := Rows(items);
    TotalOfDocs(rows, FirstSeen(Ids(rows)));
    CountAll(rows);
    RowsCount(items);
  }
}

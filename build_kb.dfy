/** The first knowledge base built from an annotated corpus: every distinct
    (lower-cased mention, category code) becomes a concept with an id
    `CODE_nnn`, its first surface form as label and its surface forms as
    synonyms; the configured synonyms are merged in the same way. */
module BuildKb {
  import opened Wrappers
  import opened Seqs
  import opened PyStr
  import opened PySort
  import opened Corpus

  /** `f"{code}_{str(n).zfill(3)}"` */
  function KbId(code: string, n: nat): string {
    code + "_" + ZFill(NatToString(n), 3)
  }

  /** Different codes or different counters never give the same id: the id
      ends in the padded counter, which holds no "_", and the padded counter
      reads back as the counter. */
  lemma KbIdInjective(c1: string, n1: nat, c2: string, n2: nat)
    ensures KbId(c1, n1) == KbId(c2, n2) <==> c1 == c2 && n1 == n2
  {
    if KbId(c1, n1) == KbId(c2, n2) {
      var z1, z2 := ZFill(NatToString(n1), 3), ZFill(NatToString(n2), 3);
      ZFillValue(n1, 3);
      ZFillValue(n2, 3);
      SplitAtSeparator(c1, z1, c2, z2, '_');
    }
  }

  /** A string made of a head, a separator and a tail free of the separator
      determines the head and the tail. */
  lemma SplitAtSeparator(c1: string, z1: string, c2: string, z2: string, sep: char)
    requires (forall i | 0 <= i < |z1| :: z1[i] != sep) && (forall i | 0 <= i < |z2| :: z2[i] != sep)
    requires c1 + [sep] + z1 == c2 + [sep] + z2
    ensures c1 == c2 && z1 == z2
  {
    var s := c1 + [sep] + z1;
    assert s[|c1|] == sep && s[|c2|] == sep;
    assert forall q | |c1| < q < |s| :: s[q] == z1[q - |c1| - 1];
    assert forall q | |c2| < q < |s| :: s[q] == z2[q - |c2| - 1];
    assert |c1| == |c2|;
    assert c1 == s[..|c1|] == c2;
    assert z1 == s[|c1| + 1..] == z2;
  }

  /** An entity of a corpus document: `entity` and `code_entity`, each
      possibly absent. */
  datatype Mention = Mention(entity: Option<string>, code: Option<string>)

  /** A corpus document: its `entities` list, absent when the key is missing
      or does not hold a list. */
  datatype KbDoc = KbDoc(entities: Option<seq<Mention>>)

  /** One occurrence of a surface form under a code, with the lower-cased,
      stripped form that identifies its concept. */
  datatype Event = Event(norm: string, code: string, surface: string)

  /** A corpus mention: stripped text and code; skipped when either is
      empty. */
  function MentionEvent(m: Mention): Option<Event> {
    var text := Strip(if m.entity.Some? then m.entity.value else "");
    var code := Strip(if m.code.Some? then m.code.value else "");
    if text == [] || code == [] then None else Some(Event(Lower(text), code, text))
  }

  /** The defined results of `f` over `xs`, in order. */
  function FilterMap<A, B>(f: A -> Option<B>, xs: seq<A>): seq<B> {
    if xs == [] then []
    else
      var y := f(xs[|xs| - 1]);
      FilterMap(f, xs[..|xs| - 1]) + (if y.Some? then [y.value] else [])
  }

  /** The occurrences given by a document's mentions, in order. */
  function MentionEvents(ms: seq<Mention>): seq<Event> {
    FilterMap(MentionEvent, ms)
  }

  /** The occurrences of the corpus, document by document. */
  function DataEvents(docs: seq<KbDoc>): seq<Event> {
    if docs == [] then []
    else
      var d := docs[|docs| - 1];
      DataEvents(docs[..|docs| - 1]) + (if d.entities.Some? then MentionEvents(d.entities.value) else [])
  }

  /** A configured synonym: identified by `syn.lower().strip()`, kept as
      written. */
  function ConfigEvent(entityType: string, syn: string): Event {
    Event(Strip(Lower(syn)), entityType, syn)
  }

  function SynonymEvents(entityType: string, syns: seq<string>): seq<Event> {
    if syns == [] then []
    else SynonymEvents(entityType, syns[..|syns| - 1]) + [ConfigEvent(entityType, syns[|syns| - 1])]
  }

  /** The occurrences of the configuration, category by category. */
  function ConfigEvents(types: EntityTypes): seq<Event> {
    if types == [] then []
    else ConfigEvents(types[..|types| - 1]) + SynonymEvents(types[|types| - 1].0, types[|types| - 1].1)
  }

  type Key = (string, string)

  function KeyOf(e: Event): Key {
    (e.norm, e.code)
  }

  function KeysOf(es: seq<Event>): (r: seq<Key>)
    ensures |r| == |es|
  {
    seq(|es|, i requires 0 <= i < |es| => KeyOf(es[i]))
  }

  /** The concepts in creation order. */
  function Order(es: seq<Event>): seq<Key> {
    FirstSeen(KeysOf(es))
  }

  /** The number of keys of a code in a list. */
  function CodeCount(keys: seq<Key>, code: string): nat {
    if keys == [] then 0
    else CodeCount(keys[..|keys| - 1], code) + (if keys[|keys| - 1].1 == code then 1 else 0)
  }

  /** The counter a concept was numbered with: the number of concepts of its
      code created before it. */
  function Rank(es: seq<Event>, k: Key): nat {
    if es == [] then 0
    else
      var n := |es| - 1;
      if k in KeysOf(es[..n]) then Rank(es[..n], k) else CodeCount(Order(es[..n]), k.1)
  }

  /** The surface form of the first occurrence of a concept. */
  function FirstSurface(es: seq<Event>, k: Key): string {
    if es == [] then ""
    else if KeyOf(es[0]) == k then es[0].surface
    else FirstSurface(es[1..], k)
  }

  /** Every surface form of a concept. */
  function Surfaces(es: seq<Event>, k: Key): set<string> {
    set i | 0 <= i < |es| && KeyOf(es[i]) == k :: es[i].surface
  }

  /** A concept in the staging dictionary. */
  datatype Staged = Staged(kbId: string, entityLabel: string, entityType: string, synonyms: set<string>)

  /** What the staging dictionary holds for a concept after `es`. */
  function StagedOf(es: seq<Event>, k: Key): Staged {
    Staged(KbId(k.1, Rank(es, k)), FirstSurface(es, k), k.1, Surfaces(es, k))
  }

  /** `current_kb_id_counter[code]` */
  function Counter(counter: map<string, nat>, code: string): nat {
    if code in counter then counter[code] else 0
  }

  /** The staging dictionary, its key order and the counters after `es`. */
  ghost predicate Staging(concepts: map<Key, Staged>, counter: map<string, nat>, order: seq<Key>, es: seq<Event>) {
    && order == Order(es)
    && concepts.Keys == Elems(KeysOf(es))
    && (forall k | k in concepts :: concepts[k] == StagedOf(es, k))
    && (forall c :: Counter(counter, c) == CodeCount(order, c))
  }

  /** The dictionary after one occurrence: a new concept is numbered with its
      code's counter and labelled with the occurrence; the occurrence is
      added to the synonyms. */
  function Insert(concepts: map<Key, Staged>, counter: map<string, nat>, e: Event): map<Key, Staged> {
    var k := KeyOf(e);
    var c := if k in concepts then concepts[k] else Staged(KbId(e.code, Counter(counter, e.code)), e.surface, e.code, {});
    concepts[k := c.(synonyms := c.synonyms + {e.surface})]
  }

  /** The counters after one occurrence: a new concept advances its code's
      counter. */
  function Bumped(concepts: map<Key, Staged>, counter: map<string, nat>, e: Event): map<string, nat> {
    if KeyOf(e) in concepts then counter else counter[e.code := Counter(counter, e.code) + 1]
  }

  /** The key order after one occurrence: a new concept goes last. */
  function Extended(concepts: map<Key, Staged>, order: seq<Key>, e: Event): seq<Key> {
    if KeyOf(e) in concepts then order else order + [KeyOf(e)]
  }

  lemma KeysOfSnoc(es: seq<Event>, e: Event)
    ensures KeysOf(es + [e]) == KeysOf(es) + [KeyOf(e)]
  {
  }

  lemma CodeCountSnoc(keys: seq<Key>, k: Key, code: string)
    ensures CodeCount(keys + [k], code) == CodeCount(keys, code) + (if k.1 == code then 1 else 0)
  {
    assert (keys + [k])[..|keys|] == keys;
  }

  lemma {:induction false} FirstSurfaceSnoc(es: seq<Event>, e: Event, k: Key)
    ensures k in KeysOf(es) ==> FirstSurface(es + [e], k) == FirstSurface(es, k)
    ensures k !in KeysOf(es) && KeyOf(e) == k ==> FirstSurface(es + [e], k) == e.surface
    decreases |es|
  {
    if es != [] {
      assert (es + [e])[1..] == es[1..] + [e];
      if KeyOf(es[0]) != k {
        assert k in KeysOf(es) ==> k in KeysOf(es[1..]) by {
          if k in KeysOf(es) {
            var i :| 0 <= i < |es| && KeysOf(es)[i] == k;
            assert KeysOf(es[1..])[i - 1] == k;
          }
        }
        assert k !in KeysOf(es) ==> k !in KeysOf(es[1..]) by {
          if k in KeysOf(es[1..]) {
            var i :| 0 <= i < |es| - 1 && KeysOf(es[1..])[i] == k;
            assert KeysOf(es)[i + 1] == k;
          }
        }
        FirstSurfaceSnoc(es[1..], e, k);
      } else {
        assert KeysOf(es)[0] == k;
      }
    }
  }

  lemma SurfacesSnoc(es: seq<Event>, e: Event, k: Key)
    ensures Surfaces(es + [e], k) == Surfaces(es, k) + (if KeyOf(e) == k then {e.surface} else {})
  {
    var es' := es + [e];
    forall s | s in Surfaces(es', k) ensures s in Surfaces(es, k) + (if KeyOf(e) == k then {e.surface} else {}) {
      var i :| 0 <= i < |es'| && KeyOf(es'[i]) == k && es'[i].surface == s;
      if i < |es| {
        assert es[i] == es'[i];
      }
    }
    forall s | s in Surfaces(es, k) ensures s in Surfaces(es', k) {
      var i :| 0 <= i < |es| && KeyOf(es[i]) == k && es[i].surface == s;
      assert es'[i] == es[i];
    }
    if KeyOf(e) == k {
      assert es'[|es|] == e;
    }
  }

  lemma RankSnoc(es: seq<Event>, e: Event, k: Key)
    ensures k in KeysOf(es) ==> Rank(es + [e], k) == Rank(es, k)
    ensures k !in KeysOf(es) ==> Rank(es + [e], k) == CodeCount(Order(es), k.1)
  {
    assert (es + [e])[..|es|] == es;
  }

  /** One occurrence keeps the staging dictionary, its order and the counters
      in step with the occurrences seen. */
  lemma StagingStep(concepts: map<Key, Staged>, counter: map<string, nat>, order: seq<Key>,
                    es: seq<Event>, e: Event)
    requires Staging(concepts, counter, order, es)
    ensures Staging(Insert(concepts, counter, e), Bumped(concepts, counter, e), Extended(concepts, order, e), es + [e])
  {
    var k := KeyOf(e);
    var m := Insert(concepts, counter, e);
    var counter' := Bumped(concepts, counter, e);
    var order' := Extended(concepts, order, e);
    OrderStep(concepts, counter, order, es, e);
    assert order' == Order(es + [e]);
    assert m.Keys == Elems(KeysOf(es + [e]));
    CounterStep(counter, order, k, k in concepts);
    assert forall c :: Counter(counter', c) == CodeCount(order', c);
    ConceptsStep(concepts, counter, order, es, e);
    assert forall x | x in m :: m[x] == StagedOf(es + [e], x);
  }

  lemma OrderStep(concepts: map<Key, Staged>, counter: map<string, nat>, order: seq<Key>, es: seq<Event>, e: Event)
    requires order == Order(es) && concepts.Keys == Elems(KeysOf(es))
    ensures Order(es + [e]) == if KeyOf(e) in concepts then order else order + [KeyOf(e)]
    ensures Insert(concepts, counter, e).Keys == Elems(KeysOf(es + [e]))
  {
    KeysOfSnoc(es, e);
    FirstSeenKeys(KeysOf(es));
    assert KeysOf(es + [e])[..|es|] == KeysOf(es);
  }

  lemma CounterStep(counter: map<string, nat>, order: seq<Key>, k: Key, seen: bool)
    requires forall c :: Counter(counter, c) == CodeCount(order, c)
    ensures var counter' := if seen then counter else counter[k.1 := Counter(counter, k.1) + 1];
            var order' := if seen then order else order + [k];
            forall c :: Counter(counter', c) == CodeCount(order', c)
  {
    forall c ensures CodeCount(order + [k], c) == CodeCount(order, c) + (if k.1 == c then 1 else 0) {
      CodeCountSnoc(order, k, c);
    }
  }

  lemma ConceptsStep(concepts: map<Key, Staged>, counter: map<string, nat>, order: seq<Key>,
                     es: seq<Event>, e: Event)
    requires Staging(concepts, counter, order, es)
    ensures var m := Insert(concepts, counter, e);
            forall x | x in m :: m[x] == StagedOf(es + [e], x)
  {
    var k := KeyOf(e);
    var m := Insert(concepts, counter, e);
    if k in concepts {
      OldKeyValue(es, e);
    } else {
      NewKeyValue(order, es, e);
    }
    assert m[k] == StagedOf(es + [e], k);
    forall x | x in m && x != k ensures m[x] == StagedOf(es + [e], x) {
      OtherKeyValue(es, e, x);
    }
  }

  /** A concept met again only gains the occurrence's surface form. */
  lemma OldKeyValue(es: seq<Event>, e: Event)
    requires KeyOf(e) in KeysOf(es)
    ensures var k := KeyOf(e);
            StagedOf(es + [e], k) == StagedOf(es, k).(synonyms := Surfaces(es, k) + {e.surface})
  {
    var k := KeyOf(e);
    FirstSurfaceSnoc(es, e, k);
    SurfacesSnoc(es, e, k);
    RankSnoc(es, e, k);
  }

  /** A new concept is numbered with the number of concepts of its code so
      far and labelled with the occurrence. */
  lemma NewKeyValue(order: seq<Key>, es: seq<Event>, e: Event)
    requires order == Order(es) && KeyOf(e) !in KeysOf(es)
    ensures StagedOf(es + [e], KeyOf(e))
            == Staged(KbId(e.code, CodeCount(order, e.code)), e.surface, e.code, {e.surface})
  {
    var k := KeyOf(e);
    FirstSurfaceSnoc(es, e, k);
    SurfacesSnoc(es, e, k);
    RankSnoc(es, e, k);
    NoSurfaces(es, k);
  }

  /** Another concept is untouched. */
  lemma OtherKeyValue(es: seq<Event>, e: Event, x: Key)
    requires x != KeyOf(e) && x in KeysOf(es)
    ensures StagedOf(es + [e], x) == StagedOf(es, x)
  {
    FirstSurfaceSnoc(es, e, x);
    SurfacesSnoc(es, e, x);
    RankSnoc(es, e, x);
  }

  lemma NoSurfaces(es: seq<Event>, k: Key)
    requires k !in KeysOf(es)
    ensures Surfaces(es, k) == {}
  {
    forall i | 0 <= i < |es| ensures KeyOf(es[i]) != k {
      assert KeysOf(es)[i] == KeyOf(es[i]);
    }
  }

  /** The mentions of one document added to the staging dictionary (the
      inner loop over `doc["entities"]`). */
  method StageMentions(concepts: map<Key, Staged>, counter: map<string, nat>, order: seq<Key>,
                       ghost es: seq<Event>, ms: seq<Mention>)
    returns (concepts': map<Key, Staged>, counter': map<string, nat>, order': seq<Key>)
    requires Staging(concepts, counter, order, es)
    ensures Staging(concepts', counter', order', es + MentionEvents(ms))
  {
    concepts', counter', order' := concepts, counter, order;
    ghost var seen := es;
    assert es + MentionEvents(ms[..0]) == es;
    for j := 0 to |ms|
      invariant seen == es + MentionEvents(ms[..j])
      invariant Staging(concepts', counter', order', seen)
    {
      MentionEventsSnoc(ms, j);
      var ev := MentionEvent(ms[j]);
      if ev.None? {
        assert MentionEvents(ms[..j + 1]) == MentionEvents(ms[..j]) + [];
        continue;
      }
      var e := ev.value;
      AppendAssoc(es, MentionEvents(ms[..j]), [e]);
      StagingStep(concepts', counter', order', seen, e);
      concepts', counter', order' := AddMention(concepts', counter', order', e.surface, e.code);
      seen := seen + [e];
      assert seen == es + MentionEvents(ms[..j + 1]);
    }
    assert ms[..|ms|] == ms;
  }

  /** The occurrences of the corpus added to an empty staging dictionary. */
  method StageData(docs: seq<KbDoc>) returns (concepts: map<Key, Staged>, counter: map<string, nat>, order: seq<Key>)
    ensures Staging(concepts, counter, order, DataEvents(docs))
  {
    concepts, counter, order := map[], map[], [];
    for i := 0 to |docs|
      invariant Staging(concepts, counter, order, DataEvents(docs[..i]))
    {
      assert docs[..i + 1][..i] == docs[..i];
      if docs[i].entities.Some? {
        concepts, counter, order := StageMentions(concepts, counter, order, DataEvents(docs[..i]), docs[i].entities.value);
      } else {
        assert DataEvents(docs[..i]) + [] == DataEvents(docs[..i]);
      }
    }
    assert docs[..|docs|] == docs;
  }

  /** The synonyms of one configured category added to the staging
      dictionary; a synonym that creates its concept starts its synonyms
      with itself. */
  method StageSynonyms(concepts: map<Key, Staged>, counter: map<string, nat>, order: seq<Key>,
                       ghost es: seq<Event>, entityType: string, syns: seq<string>)
    returns (concepts': map<Key, Staged>, counter': map<string, nat>, order': seq<Key>)
    requires Staging(concepts, counter, order, es)
    ensures Staging(concepts', counter', order', es + SynonymEvents(entityType, syns))
  {
    concepts', counter', order' := concepts, counter, order;
    ghost var seen := es;
    assert es + SynonymEvents(entityType, syns[..0]) == es;
    for j := 0 to |syns|
      invariant seen == es + SynonymEvents(entityType, syns[..j])
      invariant Staging(concepts', counter', order', seen)
    {
      var syn := syns[j];
      ghost var e := ConfigEvent(entityType, syn);
      SynonymEventsSnoc(entityType, syns, j);
      AppendAssoc(es, SynonymEvents(entityType, syns[..j]), [e]);
      StagingStep(concepts', counter', order', seen, e);
      concepts', counter', order' := AddSynonym(concepts', counter', order', entityType, syn);
      seen := seen + [e];
    }
    assert syns[..|syns|] == syns;
  }

  /** The configured synonyms added after the corpus, category by
      category. */
  method StageConfig(concepts: map<Key, Staged>, counter: map<string, nat>, order: seq<Key>,
                     ghost es: seq<Event>, types: EntityTypes)
    returns (concepts': map<Key, Staged>, counter': map<string, nat>, order': seq<Key>)
    requires Staging(concepts, counter, order, es)
    ensures Staging(concepts', counter', order', es + ConfigEvents(types))
  {
    concepts', counter', order' := concepts, counter, order;
    ghost var seen := es;
    assert es + ConfigEvents(types[..0]) == es;
    for i := 0 to |types|
      invariant seen == es + ConfigEvents(types[..i])
      invariant Staging(concepts', counter', order', seen)
    {
      ConfigEventsSnoc(types, i);
      AppendAssoc(es, ConfigEvents(types[..i]), SynonymEvents(types[i].0, types[i].1));
      concepts', counter', order' := StageSynonyms(concepts', counter', order', seen, types[i].0, types[i].1);
      seen := seen + SynonymEvents(types[i].0, types[i].1);
    }
    assert types[..|types|] == types;
  }

  lemma ConfigEventsSnoc(types: EntityTypes, i: nat)
    requires i < |types|
    ensures ConfigEvents(types[..i + 1]) == ConfigEvents(types[..i]) + SynonymEvents(types[i].0, types[i].1)
  {
    assert types[..i + 1][..i] == types[..i];
  }

  lemma SynonymEventsSnoc(entityType: string, syns: seq<string>, j: nat)
    requires j < |syns|
    ensures SynonymEvents(entityType, syns[..j + 1]) == SynonymEvents(entityType, syns[..j]) + [ConfigEvent(entityType, syns[j])]
  {
    assert syns[..j + 1][..j] == syns[..j];
  }

  lemma MentionEventsSnoc(ms: seq<Mention>, j: nat)
    requires j < |ms|
    ensures MentionEvents(ms[..j + 1])
            == MentionEvents(ms[..j]) + (if MentionEvent(ms[j]).Some? then [MentionEvent(ms[j]).value] else [])
  {
    assert ms[..j + 1][..j] == ms[..j];
  }

  lemma AppendAssoc<T>(a: seq<T>, b: seq<T>, c: seq<T>)
    ensures a + (b + c) == (a + b) + c
  {
  }

  /** One corpus mention: a new concept starts with no synonyms, then the
      mention is added to its concept's synonyms. */
  method AddMention(concepts: map<Key, Staged>, counter: map<string, nat>, order: seq<Key>, text: string, code: string)
    returns (concepts': map<Key, Staged>, counter': map<string, nat>, order': seq<Key>)
    ensures var e := Event(Lower(text), code, text);
            concepts' == Insert(concepts, counter, e) && counter' == Bumped(concepts, counter, e)
            && order' == Extended(concepts, order, e)
  {
    var k := (Lower(text), code);
    concepts', counter', order' := concepts, counter, order;
    if k !in concepts' {
      var kbId := KbId(code, Counter(counter', code));
      concepts' := concepts'[k := Staged(kbId, text, code, {})];
      counter' := counter'[code := Counter(counter', code) + 1];
      order' := order' + [k];
    }
    concepts' := concepts'[k := concepts'[k].(synonyms := concepts'[k].synonyms + {text})];
  }

  /** One configured synonym: a new concept starts with the synonym itself,
      an existing one gains it. */
  method AddSynonym(concepts: map<Key, Staged>, counter: map<string, nat>, order: seq<Key>, entityType: string, syn: string)
    returns (concepts': map<Key, Staged>, counter': map<string, nat>, order': seq<Key>)
    ensures var e := ConfigEvent(entityType, syn);
            concepts' == Insert(concepts, counter, e) && counter' == Bumped(concepts, counter, e)
            && order' == Extended(concepts, order, e)
  {
    var k := (Strip(Lower(syn)), entityType);
    concepts', counter', order' := concepts, counter, order;
    if k !in concepts' {
      var kbId := KbId(entityType, Counter(counter', entityType));
      concepts' := concepts'[k := Staged(kbId, syn, entityType, {syn})];
      counter' := counter'[entityType := Counter(counter', entityType) + 1];
      order' := order' + [k];
      assert {} + {syn} == {syn};
    } else {
      concepts' := concepts'[k := concepts'[k].(synonyms := concepts'[k].synonyms + {syn})];
    }
    assert k == KeyOf(ConfigEvent(entityType, syn));
  }

  /** A finished concept: `synonyms` a sorted list, `definition` and
      `related_concepts` left for manual curation. */
  datatype Concept = Concept(kbId: string, entityLabel: string, entityType: string, synonyms: seq<string>,
                             definition: string, relatedConcepts: seq<string>)

  function Self(s: string): string {
    s
  }

  function IdOf(c: Concept): string {
    c.kbId
  }

  /** `c` is the staged concept `s` with its synonyms turned into
      `sorted(list(...))`. */
  predicate Finished(c: Concept, s: Staged) {
    && c.kbId == s.kbId && c.entityLabel == s.entityLabel && c.entityType == s.entityType
    && Distinct(c.synonyms) && Elems(c.synonyms) == s.synonyms && SortedBy(c.synonyms, Self)
    && c.definition == "" && c.relatedConcepts == []
  }

  /** `list(s)`, in an order the model leaves open. */
  method ListOf(s: set<string>) returns (r: seq<string>)
    ensures Distinct(r) && Elems(r) == s
  {
    r := [];
    var rest := s;
    while rest != {}
      invariant Distinct(r) && Elems(r) + rest == s && Elems(r) !! rest
      decreases |rest|
    {
      var x :| x in rest;
      DistinctSnoc(r, x);
      r := r + [x];
      rest := rest - {x};
    }
  }

  /** The finalisation loop over `concepts_staging.values()`, in insertion
      order. */
  method Finalize(concepts: map<Key, Staged>, order: seq<Key>) returns (list: seq<Concept>)
    requires Elems(order) <= concepts.Keys
    ensures |list| == |order|
    ensures forall i | 0 <= i < |order| :: Finished(list[i], concepts[order[i]])
  {
    list := [];
    for i := 0 to |order|
      invariant |list| == i
      invariant forall j | 0 <= j < i :: Finished(list[j], concepts[order[j]])
    {
      var c := Finish(concepts[order[i]]);
      list := list + [c];
    }
  }

  /** One staged concept with `sorted(list(synonyms))`. */
  method Finish(s: Staged) returns (c: Concept)
    ensures Finished(c, s)
  {
    var syns := ListOf(s.synonyms);
    var sorted := Sort(syns, Self);
    DistinctPermutation(syns, sorted);
    forall x ensures x in sorted <==> x in syns {
      assert x in sorted <==> x in multiset(sorted);
    }
    c := Concept(s.kbId, s.entityLabel, s.entityType, sorted, "", []);
  }

  /** Every occurrence: the corpus first, then the configuration. */
  function AllEvents(docs: seq<KbDoc>, types: EntityTypes): seq<Event> {
    DataEvents(docs) + ConfigEvents(types)
  }

  /** `c` is the finished concept of key `k` after the occurrences `es`. */
  predicate Describes(c: Concept, es: seq<Event>, k: Key) {
    Finished(c, StagedOf(es, k))
  }

  /** `build_knowledge_base` on the parsed file: `None` when the file is
      missing or not valid JSON. */
  method BuildKnowledgeBase(data: Option<seq<KbDoc>>, types: EntityTypes) returns (kb: seq<Concept>)
    ensures data.None? ==> kb == []
    ensures data.Some? ==> KnowledgeBase(kb, AllEvents(data.value, types))
  {
    if data.None? {
      return [];
    }
    var concepts, counter, order := StageData(data.value);
    concepts, counter, order := StageConfig(concepts, counter, order, DataEvents(data.value), types);
    ghost var es := AllEvents(data.value, types);
    StagedKeys(concepts, counter, order, es);
    var list := Finalize(concepts, order);
    StagedDescriptions(concepts, counter, order, es, list);
    kb := Sort(list, IdOf);
    SortedConcepts(list, kb, order, es);
  }

  /** The knowledge base of the occurrences `es`: one concept per key, sorted
      by id, no id twice. */
  ghost predicate KnowledgeBase(kb: seq<Concept>, es: seq<Event>) {
    && |kb| == |Order(es)|
    && SortedBy(kb, IdOf)
    && (forall i, j | 0 <= i < j < |kb| :: kb[i].kbId != kb[j].kbId)
    && (forall i | 0 <= i < |kb| :: exists k | k in Order(es) :: Describes(kb[i], es, k))
    && (forall k | k in Order(es) :: exists i | 0 <= i < |kb| :: Describes(kb[i], es, k))
  }

  /** Sorting the finished concepts by id gives the knowledge base. */
  lemma SortedConcepts(list: seq<Concept>, kb: seq<Concept>, order: seq<Key>, es: seq<Event>)
    requires order == Order(es) && |list| == |order| && multiset(kb) == multiset(list) && SortedBy(kb, IdOf)
    requires forall i | 0 <= i < |order| :: Describes(list[i], es, order[i])
    ensures KnowledgeBase(kb, es)
  {
    assert |kb| == |multiset(kb)| == |multiset(list)| == |list|;
    PermutedDescriptions(list, kb, order, es);
    DistinctIds(list, kb, order, es);
  }

  /** Concepts of different keys carry different ids, before and after
      sorting. */
  lemma DistinctIds(list: seq<Concept>, kb: seq<Concept>, order: seq<Key>, es: seq<Event>)
    requires order == Order(es) && |list| == |order| && multiset(kb) == multiset(list)
    requires forall i | 0 <= i < |order| :: Describes(list[i], es, order[i])
    ensures forall i, j | 0 <= i < j < |kb| :: kb[i].kbId != kb[j].kbId
  {
    FirstSeenKeys(KeysOf(es));
    forall a, b | 0 <= a < b < |list| ensures list[a].kbId != list[b].kbId {
      IdsDistinct(es, order[a], order[b]);
    }
    DistinctPermutation(list, kb);
    forall i, j | 0 <= i < j < |kb| ensures kb[i].kbId != kb[j].kbId {
      assert kb[i] in multiset(list) && kb[j] in multiset(list);
      var a :| 0 <= a < |list| && list[a] == kb[i];
      var b :| 0 <= b < |list| && list[b] == kb[j];
      assert a != b;
      if a < b {
        assert list[a].kbId != list[b].kbId;
      } else {
        assert list[b].kbId != list[a].kbId;
      }
    }
  }

  lemma StagedKeys(concepts: map<Key, Staged>, counter: map<string, nat>, order: seq<Key>, es: seq<Event>)
    requires Staging(concepts, counter, order, es)
    ensures Elems(order) <= concepts.Keys
  {
    FirstSeenKeys(KeysOf(es));
  }

  /** The finished concepts, in insertion order, describe the keys in that
      order. */
  lemma StagedDescriptions(concepts: map<Key, Staged>, counter: map<string, nat>, order: seq<Key>,
                           es: seq<Event>, list: seq<Concept>)
    requires Staging(concepts, counter, order, es) && |list| == |order|
    requires forall i | 0 <= i < |order| :: order[i] in concepts && Finished(list[i], concepts[order[i]])
    ensures forall i | 0 <= i < |order| :: Describes(list[i], es, order[i])
  {
  }

  /** Sorting the finished concepts keeps one description per key. */
  lemma PermutedDescriptions(list: seq<Concept>, kb: seq<Concept>, order: seq<Key>, es: seq<Event>)
    requires |list| == |order| && multiset(kb) == multiset(list)
    requires forall i | 0 <= i < |order| :: Describes(list[i], es, order[i])
    ensures forall i | 0 <= i < |kb| :: exists k | k in order :: Describes(kb[i], es, k)
    ensures forall k | k in order :: exists i | 0 <= i < |kb| :: Describes(kb[i], es, k)
  {
    forall i | 0 <= i < |kb| ensures exists k | k in order :: Describes(kb[i], es, k) {
      assert kb[i] in multiset(list);
      var j :| 0 <= j < |list| && list[j] == kb[i];
      assert Describes(kb[i], es, order[j]);
    }
    forall k | k in order ensures exists i | 0 <= i < |kb| :: Describes(kb[i], es, k) {
      var j :| 0 <= j < |order| && order[j] == k;
      assert list[j] in multiset(kb);
      var i :| 0 <= i < |kb| && kb[i] == list[j];
      assert Describes(kb[i], es, k);
    }
  }

  lemma OrderSnoc(es: seq<Event>, e: Event)
    ensures Order(es + [e]) == if KeyOf(e) in Order(es) then Order(es) else Order(es) + [KeyOf(e)]
  {
    KeysOfSnoc(es, e);
    assert KeysOf(es + [e])[..|es|] == KeysOf(es);
  }

  /** A concept's counter is the number of concepts of its code created
      before it. */
  lemma {:induction false} RankPosition(es: seq<Event>, j: nat)
    requires j < |Order(es)|
    ensures Rank(es, Order(es)[j]) == CodeCount(Order(es)[..j], Order(es)[j].1)
    decreases |es|
  {
    var n := |es| - 1;
    var p, e := es[..n], es[n];
    assert es == p + [e];
    OrderSnoc(p, e);
    FirstSeenKeys(KeysOf(p));
    var k := Order(es)[j];
    if j < |Order(p)| {
      assert k == Order(p)[j] && k in Elems(KeysOf(p));
      RankPosition(p, j);
      assert Order(es)[..j] == Order(p)[..j];
    } else {
      assert KeyOf(e) !in Order(p) && k == KeyOf(e);
      assert k !in Elems(KeysOf(p));
      assert Order(es)[..j] == Order(p);
    }
  }

  /** A later key of a code counts one more key of that code before it. */
  lemma {:induction false} CodeCountGrows(keys: seq<Key>, i: nat, j: nat)
    requires i < j <= |keys|
    ensures CodeCount(keys[..j], keys[i].1) > CodeCount(keys[..i], keys[i].1)
    decreases j
  {
    assert keys[..j][..j - 1] == keys[..j - 1];
    if j > i + 1 {
      CodeCountGrows(keys, i, j - 1);
    }
  }

  /** The concepts of a code are numbered 0, 1, ... in creation order: each
      counter is below the number of concepts of its code, and two concepts
      of one code never share a counter. */
  lemma RankBounds(es: seq<Event>, k1: Key, k2: Key)
    requires k1 in Order(es) && k2 in Order(es)
    ensures Rank(es, k1) < CodeCount(Order(es), k1.1)
    ensures k1 != k2 && k1.1 == k2.1 ==> Rank(es, k1) != Rank(es, k2)
  {
    var o := Order(es);
    FirstSeenKeys(KeysOf(es));
    var j1 :| 0 <= j1 < |o| && o[j1] == k1;
    var j2 :| 0 <= j2 < |o| && o[j2] == k2;
    RankPosition(es, j1);
    RankPosition(es, j2);
    CodeCountGrows(o, j1, |o|);
    assert o[..|o|] == o;
    if j1 < j2 {
      CodeCountGrows(o, j1, j2);
    } else if j2 < j1 {
      CodeCountGrows(o, j2, j1);
    }
  }

  /** Two different concepts never share an id. */
  lemma IdsDistinct(es: seq<Event>, k1: Key, k2: Key)
    requires k1 in Order(es) && k2 in Order(es) && k1 != k2
    ensures StagedOf(es, k1).kbId != StagedOf(es, k2).kbId
  {
    KbIdInjective(k1.1, Rank(es, k1), k2.1, Rank(es, k2));
    RankBounds(es, k1, k2);
  }

  /** The label is the surface form of the first occurrence of the concept;
      a configured synonym is the label only when no earlier occurrence had
      its key. */
  lemma {:induction false} FirstSurfaceAt(es: seq<Event>, k: Key, i: nat)
    requires i < |es| && KeyOf(es[i]) == k
    requires forall j | 0 <= j < i :: KeyOf(es[j]) != k
    ensures FirstSurface(es, k) == es[i].surface
    decreases i
  {
    if i > 0 {
      FirstSurfaceAt(es[1..], k, i - 1);
    }
  }

  lemma MentionEventFields(m: Mention)
    requires MentionEvent(m).Some?
    ensures var e := MentionEvent(m).value; e.surface != [] && e.code != [] && e.norm == Lower(e.surface)
  {
  }

  /** Each corpus occurrence comes from a mention with non-empty stripped
      text and code and is keyed by its lower-cased text; each such mention
      gives an occurrence. */
  lemma MentionEventsShape(ms: seq<Mention>)
    ensures forall e | e in MentionEvents(ms) ::
              e.surface != [] && e.code != [] && e.norm == Lower(e.surface)
              && exists m | m in ms :: MentionEvent(m) == Some(e)
    ensures forall m | m in ms && MentionEvent(m).Some? :: MentionEvent(m).value in MentionEvents(ms)
  {
    FilterMapSound(MentionEvent, ms);
    FilterMapComplete(MentionEvent, ms);
    forall e | e in MentionEvents(ms) ensures e.surface != [] && e.code != [] && e.norm == Lower(e.surface) {
      var m :| m in ms && MentionEvent(m) == Some(e);
      MentionEventFields(m);
    }
  }

  lemma {:induction false} FilterMapSound<A, B>(f: A -> Option<B>, xs: seq<A>)
    ensures forall y | y in FilterMap(f, xs) :: exists x | x in xs :: f(x) == Some(y)
    decreases |xs|
  {
    if xs != [] {
      var n := |xs| - 1;
      FilterMapSound(f, xs[..n]);
      forall y | y in FilterMap(f, xs) ensures exists x | x in xs :: f(x) == Some(y) {
        if y in FilterMap(f, xs[..n]) {
          var x :| x in xs[..n] && f(x) == Some(y);
          var i :| 0 <= i < n && xs[..n][i] == x;
          assert xs[i] == x;
        } else {
          assert f(xs[n]) == Some(y);
        }
      }
    }
  }

  lemma {:induction false} FilterMapComplete<A, B>(f: A -> Option<B>, xs: seq<A>)
    ensures forall x | x in xs && f(x).Some? :: f(x).value in FilterMap(f, xs)
    decreases |xs|
  {
    if xs != [] {
      var n := |xs| - 1;
      FilterMapComplete(f, xs[..n]);
      forall x | x in xs && f(x).Some? ensures f(x).value in FilterMap(f, xs) {
        var i :| 0 <= i < |xs| && xs[i] == x;
        if i < n {
          assert xs[..n][i] == x;
        }
      }
    }
  }
}

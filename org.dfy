/** Filtering the per-document trace lists down to some statuses, with the
    totals before and after. */
module Org {
  import opened Wrappers
  import opened Seqs
  import opened PyStr

  /** A reorganised trace record: its `status` and `count` when present, and
      its other fields, which the filter copies unchanged. */
  datatype Rec = Rec(status: Option<string>, count: Option<int>, fields: seq<(string, string)>)

  /** One `text_id` of the input dictionary with its list of records. */
  datatype Group = Group(textId: string, traces: seq<Rec>)

  /** `trace.get("status") in statuses_to_keep` */
  predicate Keep(t: Rec, keep: seq<string>) {
    t.status.Some? && t.status.value in keep
  }

  /** What a kept record adds to the filtered total: a TN record carrying a
      count adds that count, every other record adds one. */
  function Weight(t: Rec): int {
    if t.status == Some("TN") && t.count.Some? then t.count.value else 1
  }

  /** The kept records of a list, in order. */
  function Kept(ts: seq<Rec>, keep: seq<string>): seq<Rec> {
    if ts == [] then []
    else Kept(ts[..|ts| - 1], keep) + (if Keep(ts[|ts| - 1], keep) then [ts[|ts| - 1]] else [])
  }

  function TotalWeight(ts: seq<Rec>): int {
    if ts == [] then 0 else TotalWeight(ts[..|ts| - 1]) + Weight(ts[|ts| - 1])
  }

  /** The records the output holds for `id`: the kept records of every group
      with that id, in input order. */
  function Collected(groups: seq<Group>, keep: seq<string>, id: string): seq<Rec> {
    if groups == [] then []
    else
      var g := groups[|groups| - 1];
      Collected(groups[..|groups| - 1], keep, id) + (if g.textId == id then Kept(g.traces, keep) else [])
  }

  /** `total_original_traces` */
  function OriginalTotal(groups: seq<Group>): nat {
    if groups == [] then 0 else OriginalTotal(groups[..|groups| - 1]) + |groups[|groups| - 1].traces|
  }

  /** `total_filtered_traces` */
  function FilteredTotal(groups: seq<Group>, keep: seq<string>): int {
    if groups == [] then 0
    else FilteredTotal(groups[..|groups| - 1], keep) + TotalWeight(Kept(groups[|groups| - 1].traces, keep))
  }

  /** The output dictionary with its key order, and the two totals. */
  datatype Filtered = Filtered(byId: map<string, seq<Rec>>, order: seq<string>, totalOriginal: nat, totalFiltered: int)

  /** The `defaultdict(list)` holds, for the groups seen, exactly the ids with
      a kept record, each with its kept records; the key order lists each of
      them once. */
  ghost predicate Represents(byId: map<string, seq<Rec>>, order: seq<string>, groups: seq<Group>, keep: seq<string>) {
    && Distinct(order) && Elems(order) == byId.Keys
    && (forall id :: Agrees(byId, groups, keep, id))
  }

  /** The dictionary's entry for `id` is what the groups seen collect for
      it, and is present exactly when that is not empty. */
  ghost predicate Agrees(byId: map<string, seq<Rec>>, groups: seq<Group>, keep: seq<string>, id: string) {
    && (id in byId <==> Collected(groups, keep, id) != [])
    && (id in byId ==> byId[id] == Collected(groups, keep, id))
  }

  /** One more record of the current group adds it to its id's output when
      it is kept, and changes nothing else. */
  lemma CollectedStep(groups: seq<Group>, id: string, ts: seq<Rec>, t: Rec, keep: seq<string>)
    ensures forall x :: Collected(groups + [Group(id, ts + [t])], keep, x)
                        == Collected(groups + [Group(id, ts)], keep, x) + (if x == id && Keep(t, keep) then [t] else [])
  {
    var before, after := groups + [Group(id, ts)], groups + [Group(id, ts + [t])];
    assert before[..|groups|] == groups && after[..|groups|] == groups;
    assert (ts + [t])[..|ts|] == ts;
  }

  /** The same, for one id. */
  lemma CollectedStepAt(groups: seq<Group>, id: string, ts: seq<Rec>, t: Rec, keep: seq<string>, x: string)
    ensures Collected(groups + [Group(id, ts + [t])], keep, x)
            == Collected(groups + [Group(id, ts)], keep, x) + (if x == id && Keep(t, keep) then [t] else [])
  {
    CollectedStep(groups, id, ts, t, keep);
  }

  lemma SkipStep(byId: map<string, seq<Rec>>, order: seq<string>, groups: seq<Group>, id: string,
                 ts: seq<Rec>, t: Rec, keep: seq<string>)
    requires Represents(byId, order, groups + [Group(id, ts)], keep) && !Keep(t, keep)
    ensures Represents(byId, order, groups + [Group(id, ts + [t])], keep)
  {
    forall x ensures Agrees(byId, groups + [Group(id, ts + [t])], keep, x) {
      assert Agrees(byId, groups + [Group(id, ts)], keep, x);
      CollectedStepAt(groups, id, ts, t, keep, x);
    }
  }

  lemma AppendStep(byId: map<string, seq<Rec>>, order: seq<string>, groups: seq<Group>, id: string,
                   ts: seq<Rec>, t: Rec, keep: seq<string>)
    requires Represents(byId, order, groups + [Group(id, ts)], keep) && Keep(t, keep) && id in byId
    ensures Represents(byId[id := byId[id] + [t]], order, groups + [Group(id, ts + [t])], keep)
  {
    assert Agrees(byId, groups + [Group(id, ts)], keep, id);
    var byId', after := byId[id := byId[id] + [t]], groups + [Group(id, ts + [t])];
    forall x ensures Agrees(byId', after, keep, x) {
      assert Agrees(byId, groups + [Group(id, ts)], keep, x);
      CollectedStepAt(groups, id, ts, t, keep, x);
    }
  }

  lemma CreateStep(byId: map<string, seq<Rec>>, order: seq<string>, groups: seq<Group>, id: string,
                   ts: seq<Rec>, t: Rec, keep: seq<string>)
    requires Represents(byId, order, groups + [Group(id, ts)], keep) && Keep(t, keep) && id !in byId
    ensures Represents(byId[id := [t]], order + [id], groups + [Group(id, ts + [t])], keep)
  {
    var after := groups + [Group(id, ts + [t])];
    var byId' := byId[id := [t]];
    NewKey(byId, order, id, [t]);
    forall x ensures Agrees(byId', after, keep, x) {
      assert Agrees(byId, groups + [Group(id, ts)], keep, x);
      CreateStepAt(byId, groups, id, ts, t, keep, x);
    }
  }

  /** A key new to the dictionary extends its key order. */
  lemma NewKey(byId: map<string, seq<Rec>>, order: seq<string>, id: string, v: seq<Rec>)
    requires Distinct(order) && Elems(order) == byId.Keys && id !in byId
    ensures Distinct(order + [id]) && Elems(order + [id]) == byId[id := v].Keys
  {
    assert id !in Elems(order);
    DistinctSnoc(order, id);
  }

  /** `CreateStep` for one id `x`. */
  lemma CreateStepAt(byId: map<string, seq<Rec>>, groups: seq<Group>, id: string,
                     ts: seq<Rec>, t: Rec, keep: seq<string>, x: string)
    requires Keep(t, keep) && id !in byId
    requires Agrees(byId, groups + [Group(id, ts)], keep, x)
    ensures Agrees(byId[id := [t]], groups + [Group(id, ts + [t])], keep, x)
  {
    CollectedStepAt(groups, id, ts, t, keep, x);
    if x == id {
      assert Collected(groups + [Group(id, ts)], keep, x) == [];
    }
  }

  /** A new group starts with nothing of its own. */
  lemma StartGroup(byId: map<string, seq<Rec>>, order: seq<string>, groups: seq<Group>, id: string, keep: seq<string>)
    requires Represents(byId, order, groups, keep)
    ensures Represents(byId, order, groups + [Group(id, [])], keep)
  {
    var after := groups + [Group(id, [])];
    assert after[..|groups|] == groups;
    forall x ensures Agrees(byId, after, keep, x) {
      assert Agrees(byId, groups, keep, x);
      assert Collected(after, keep, x) == Collected(groups, keep, x);
    }
  }

  /** The inner loop: the records of one `text_id`. */
  method FilterGroup(byId: map<string, seq<Rec>>, order: seq<string>, groups: seq<Group>, id: string,
                     ts: seq<Rec>, keep: seq<string>)
    returns (byId': map<string, seq<Rec>>, order': seq<string>, added: int)
    requires Represents(byId, order, groups, keep)
    ensures Represents(byId', order', groups + [Group(id, ts)], keep)
    ensures added == TotalWeight(Kept(ts, keep))
  {
    StartGroup(byId, order, groups, id, keep);
    byId', order', added := byId, order, 0;
    for j := 0 to |ts|
      invariant Represents(byId', order', groups + [Group(id, ts[..j])], keep)
      invariant added == TotalWeight(Kept(ts[..j], keep))
    {
      var t := ts[j];
      assert ts[..j + 1] == ts[..j] + [t];
      KeptSnoc(ts[..j], t, keep);
      TotalWeightSnoc(Kept(ts[..j], keep), t);
      if !Keep(t, keep) {
        SkipStep(byId', order', groups, id, ts[..j], t, keep);
      } else if id in byId' {
        AppendStep(byId', order', groups, id, ts[..j], t, keep);
        byId' := byId'[id := byId'[id] + [t]];
        added := added + Weight(t);
      } else {
        CreateStep(byId', order', groups, id, ts[..j], t, keep);
        byId' := byId'[id := [t]];
        order' := order' + [id];
        added := added + Weight(t);
      }
    }
    assert ts[..|ts|] == ts;
  }

  /** `filter_traces_by_status` without the file reading and writing. */
  method FilterByStatus(groups: seq<Group>, keep: seq<string>) returns (r: Filtered)
    ensures Distinct(r.order) && Elems(r.order) == r.byId.Keys
    ensures forall id :: id in r.byId <==> Collected(groups, keep, id) != []
    ensures forall id | id in r.byId :: r.byId[id] == Collected(groups, keep, id)
    ensures r.totalOriginal == OriginalTotal(groups)
    ensures r.totalFiltered == FilteredTotal(groups, keep)
  {
    var byId: map<string, seq<Rec>> := map[];
    var order: seq<string> := [];
    var original: nat := 0;
    var filtered: int := 0;
    for g := 0 to |groups|
      invariant Represents(byId, order, groups[..g], keep)
      invariant original == OriginalTotal(groups[..g])
      invariant filtered == FilteredTotal(groups[..g], keep)
    {
      var id, ts := groups[g].textId, groups[g].traces;
      TotalsSnoc(groups, g, keep);
      original := original + |ts|;
      var added;
      byId, order, added := FilterGroup(byId, order, groups[..g], id, ts, keep);
      filtered := filtered + added;
    }
    assert groups[..|groups|] == groups;
    RepresentsAll(byId, order, groups, keep);
    r := Filtered(byId, order, original, filtered);
  }

  /** One more group adds its size and its kept weight to the totals. */
  lemma TotalsSnoc(groups: seq<Group>, g: nat, keep: seq<string>)
    requires g < |groups|
    ensures groups[..g + 1] == groups[..g] + [Group(groups[g].textId, groups[g].traces)]
    ensures OriginalTotal(groups[..g + 1]) == OriginalTotal(groups[..g]) + |groups[g].traces|
    ensures FilteredTotal(groups[..g + 1], keep) == FilteredTotal(groups[..g], keep) + TotalWeight(Kept(groups[g].traces, keep))
  {
    assert groups[..g + 1][..g] == groups[..g];
  }

  /** `Represents`, spelled out for every id. */
  lemma RepresentsAll(byId: map<string, seq<Rec>>, order: seq<string>, groups: seq<Group>, keep: seq<string>)
    requires Represents(byId, order, groups, keep)
    ensures forall id :: id in byId <==> Collected(groups, keep, id) != []
    ensures forall id | id in byId :: byId[id] == Collected(groups, keep, id)
  {
    forall id ensures (id in byId <==> Collected(groups, keep, id) != [])
                      && (id in byId ==> byId[id] == Collected(groups, keep, id)) {
      assert Agrees(byId, groups, keep, id);
    }
  }

  lemma KeptSnoc(ts: seq<Rec>, t: Rec, keep: seq<string>)
    ensures Keep(t, keep) ==> Kept(ts + [t], keep) == Kept(ts, keep) + [t]
    ensures !Keep(t, keep) ==> Kept(ts + [t], keep) == Kept(ts, keep)
  {
    assert (ts + [t])[..|ts|] == ts;
    assert Kept(ts, keep) + [] == Kept(ts, keep);
  }

  lemma TotalWeightSnoc(ts: seq<Rec>, t: Rec)
    ensures TotalWeight(ts + [t]) == TotalWeight(ts) + Weight(t)
  {
    assert (ts + [t])[..|ts|] == ts;
  }

  /** A record is in the filtered list exactly when it is in the input and
      has a kept status: records are neither invented nor changed. */
  lemma {:induction false} KeptMembers(ts: seq<Rec>, keep: seq<string>)
    ensures forall t :: t in Kept(ts, keep) <==> t in ts && Keep(t, keep)
    decreases |ts|
  {
    if ts != [] {
      var n := |ts| - 1;
      KeptMembers(ts[..n], keep);
      assert ts == ts[..n] + [ts[n]];
    }
  }

  /** The filtered list is a subsequence of the input: filtering a
      concatenation filters each part, so the input order is kept. */
  lemma {:induction false} KeptAppend(a: seq<Rec>, b: seq<Rec>, keep: seq<string>)
    ensures Kept(a + b, keep) == Kept(a, keep) + Kept(b, keep)
    decreases |b|
  {
    if b == [] {
      assert a + b == a;
    } else {
      var n := |b| - 1;
      assert (a + b)[..|a + b| - 1] == a + b[..n];
      KeptAppend(a, b[..n], keep);
    }
  }

  /** Without "TN" among the kept statuses, every kept record adds one to the
      filtered total. */
  lemma {:induction false} NoTnWeight(ts: seq<Rec>, keep: seq<string>)
    requires "TN" !in keep
    ensures TotalWeight(Kept(ts, keep)) == |Kept(ts, keep)|
    decreases |ts|
  {
    if ts != [] {
      var n := |ts| - 1;
      NoTnWeight(ts[..n], keep);
      assert ts == ts[..n] + [ts[n]];
      KeptSnoc(ts[..n], ts[n], keep);
      TotalWeightSnoc(Kept(ts[..n], keep), ts[n]);
      if Keep(ts[n], keep) {
        assert ts[n].status != Some("TN");
      }
    }
  }

  /** The output file name, `entity_evaluation_traces_` + the lower-cased,
      `_`-joined statuses + `_by_text_idnew.json`. */
  function OutputName(statuses: seq<string>): (r: string)
    ensures |r| == |Join(statuses, "_")| + 44
  {
    "entity_evaluation_traces_" + Lower(Join(statuses, "_")) + "_by_text_idnew.json"
  }

  /** The name is the fixed prefix, then the joined statuses lower-cased
      character by character, then the fixed suffix. */
  lemma OutputNameParts(statuses: seq<string>)
    ensures var r, joined := OutputName(statuses), Join(statuses, "_");
      && r[..25] == "entity_evaluation_traces_"
      && r[|r| - 19..] == "_by_text_idnew.json"
      && (forall i | 0 <= i < |joined| :: r[25 + i] == LowerChar(joined[i]))
      && (forall i | 25 <= i < |r| - 19 :: !('A' <= r[i] <= 'Z'))
  {
  }

  /** The statuses kept by default, FN and FP, give the name ending in
      `_fn_fp_by_text_idnew.json`. */
  lemma DefaultOutputName()
    ensures OutputName(["FN", "FP"]) == "entity_evaluation_traces_fn_fp_by_text_idnew.json"
  {
    assert Join(["FN", "FP"], "_") == "FN_FP";
  }
}

/** The per-category confusion counts read back from a list of trace records:
    TP, FP and FN records add one each, a TN record adds its count. */
module AnalyseTraces {
  import opened Wrappers
  import Trace

  /** A trace record as read from JSON: the fields the counting loop reads,
      each possibly absent. */
  datatype Entry = Entry(status: Option<string>, code: Option<string>, count: Option<int>)

  /** The inner dictionary `{'TP': .., 'FP': .., 'FN': .., 'TN': ..}`. */
  datatype Counts = Counts(tp: int, fp: int, fn: int, tn: int)

  /** An entry the loop counts: both `status` and `entity_code` present and
      non-empty (an absent key and an empty string are both falsy). */
  predicate WellFormed(e: Entry) {
    e.status.Some? && e.status.value != "" && e.code.Some? && e.code.value != ""
  }

  /** The four keys of the inner dictionary. */
  predicate KnownStatus(s: string) {
    s == "TP" || s == "FP" || s == "FN" || s == "TN"
  }

  /** `trace.get('count', 0)` */
  function CountOrZero(e: Entry): int {
    if e.count.Some? then e.count.value else 0
  }

  /** One counted entry added to its category's counts. */
  function Bump(c: Counts, e: Entry): Counts
    requires WellFormed(e) && KnownStatus(e.status.value)
  {
    var s := e.status.value;
    if s == "TN" then c.(tn := c.tn + CountOrZero(e))
    else if s == "TP" then c.(tp := c.tp + 1)
    else if s == "FP" then c.(fp := c.fp + 1)
    else c.(fn := c.fn + 1)
  }

  /** The `defaultdict` read: a category seen for the first time starts at
      zero everywhere. */
  function CountsOf(m: map<string, Counts>, code: string): Counts {
    if code in m then m[code] else Counts(0, 0, 0, 0)
  }

  /** The dictionary after the loop over `entries`; an entry with another
      status raises `KeyError`. */
  function Tally(entries: seq<Entry>): Result<map<string, Counts>> {
    if entries == [] then Ok(map[])
    else
      var prev := Tally(entries[..|entries| - 1]);
      var e := entries[|entries| - 1];
      if prev.Fail? || !WellFormed(e) then prev
      else if !KnownStatus(e.status.value) then Fail("KeyError")
      else Ok(prev.value[e.code.value := Bump(CountsOf(prev.value, e.code.value), e)])
  }

  /** The counting loop of the analysis. */
  method CountByCode(entries: seq<Entry>) returns (r: Result<map<string, Counts>>)
    ensures r == Tally(entries)
  {
    var counts: map<string, Counts> := map[];
    for i := 0 to |entries|
      invariant Tally(entries[..i]) == Ok(counts)
    {
      assert entries[..i + 1][..i] == entries[..i];
      var e := entries[i];
      if !WellFormed(e) {
        continue;
      }
      if !KnownStatus(e.status.value) {
        FailureSticks(entries, i + 1);
        assert entries[..|entries|] == entries;
        return Fail("KeyError");
      }
      counts := counts[e.code.value := Bump(CountsOf(counts, e.code.value), e)];
    }
    assert entries[..|entries|] == entries;
    r := Ok(counts);
  }

  /** Once an entry has raised, the later entries change nothing. */
  lemma {:induction false} FailureSticks(entries: seq<Entry>, i: nat)
    requires i <= |entries| && Tally(entries[..i]).Fail?
    ensures Tally(entries) == Tally(entries[..i])
    decreases |entries| - i
  {
    if i < |entries| {
      assert entries[..i + 1][..i] == entries[..i];
      FailureSticks(entries, i + 1);
    } else {
      assert entries[..i] == entries;
    }
  }

  /** Some counted entry has a status other than the four. */
  predicate SomeUnknown(entries: seq<Entry>) {
    exists k | 0 <= k < |entries| :: WellFormed(entries[k]) && !KnownStatus(entries[k].status.value)
  }

  /** The categories of the counted entries. */
  function Codes(entries: seq<Entry>): set<string> {
    set k | 0 <= k < |entries| && WellFormed(entries[k]) :: entries[k].code.value
  }

  /** The number of counted entries of a category with a status. */
  function StatusCount(entries: seq<Entry>, code: string, s: string): nat {
    if entries == [] then 0
    else
      var e := entries[|entries| - 1];
      StatusCount(entries[..|entries| - 1], code, s)
        + (if WellFormed(e) && e.code.value == code && e.status.value == s then 1 else 0)
  }

  /** The sum of the counts of a category's counted TN entries. */
  function TnSum(entries: seq<Entry>, code: string): int {
    if entries == [] then 0
    else
      var e := entries[|entries| - 1];
      TnSum(entries[..|entries| - 1], code)
        + (if WellFormed(e) && e.code.value == code && e.status.value == "TN" then CountOrZero(e) else 0)
  }

  /** The loop raises exactly when a counted entry has an unknown status. */
  lemma {:induction false} TallyFails(entries: seq<Entry>)
    ensures Tally(entries).Fail? <==> SomeUnknown(entries)
    decreases |entries|
  {
    if entries != [] {
      var n := |entries| - 1;
      TallyFails(entries[..n]);
      assert forall k | 0 <= k < n :: entries[..n][k] == entries[k];
    }
  }

  /** When the loop completes, the dictionary has a row for exactly the
      categories of the counted entries, and each row holds the number of
      that category's TP, FP and FN entries and the sum of its TN counts. */
  lemma {:induction false} TallyValues(entries: seq<Entry>)
    requires Tally(entries).Ok?
    ensures Tally(entries).value.Keys == Codes(entries)
    ensures forall c | c in Codes(entries) ::
              Tally(entries).value[c]
              == Counts(StatusCount(entries, c, "TP"), StatusCount(entries, c, "FP"),
                        StatusCount(entries, c, "FN"), TnSum(entries, c))
    decreases |entries|
  {
    if entries != [] {
      var n := |entries| - 1;
      var e := entries[n];
      TallyValues(entries[..n]);
      assert Codes(entries) == Codes(entries[..n]) + (if WellFormed(e) then {e.code.value} else {}) by {
        forall c ensures c in Codes(entries) <==> c in Codes(entries[..n]) + (if WellFormed(e) then {e.code.value} else {}) {
          if c in Codes(entries) {
            var k :| 0 <= k < |entries| && WellFormed(entries[k]) && entries[k].code.value == c;
            if k < n {
              assert entries[..n][k] == entries[k];
            }
          }
          if c in Codes(entries[..n]) {
            var k :| 0 <= k < n && WellFormed(entries[..n][k]) && entries[..n][k].code.value == c;
            assert entries[k] == entries[..n][k];
          }
        }
      }
      forall c | c !in Codes(entries[..n])
        ensures StatusCount(entries[..n], c, "TP") == 0 && StatusCount(entries[..n], c, "FP") == 0
        ensures StatusCount(entries[..n], c, "FN") == 0 && TnSum(entries[..n], c) == 0
      {
        Unseen(entries[..n], c);
      }
    }
  }

  /** A category with no counted entry has nothing counted. */
  lemma {:induction false} Unseen(entries: seq<Entry>, c: string)
    requires c !in Codes(entries)
    ensures StatusCount(entries, c, "TP") == 0 && StatusCount(entries, c, "FP") == 0
    ensures StatusCount(entries, c, "FN") == 0 && TnSum(entries, c) == 0
    decreases |entries|
  {
    if entries != [] {
      var n := |entries| - 1;
      forall k | 0 <= k < n && WellFormed(entries[..n][k]) ensures entries[..n][k].code.value != c {
        assert entries[..n][k] == entries[k];
      }
      Unseen(entries[..n], c);
      if WellFormed(entries[n]) {
        assert entries[n].code.value in Codes(entries);
      }
    }
  }

  /** The `"status"` string the trace extractor writes. */
  function StatusName(st: Trace.Status): (s: string)
    ensures KnownStatus(s)
  {
    match st
    case TP => "TP"
    case FP => "FP"
    case FN => "FN"
    case TN => "TN"
  }

  /** A record of the trace extractor, as the counting loop reads it. */
  function Render(t: Trace.Trace): Entry {
    Entry(Some(StatusName(Trace.StatusOf(t))), Some(t.code), if t.Negatives? then Some(t.count) else None)
  }

  function RenderAll(ts: seq<Trace.Trace>): (r: seq<Entry>)
    ensures |r| == |ts|
  {
    seq(|ts|, k requires 0 <= k < |ts| => Render(ts[k]))
  }

  /** The extractor's own records never make the loop raise. */
  lemma RenderedNeverFails(ts: seq<Trace.Trace>)
    ensures Tally(RenderAll(ts)).Ok?
  {
    TallyFails(RenderAll(ts));
  }
}

/** The correlation phase: emitting the roll-up rows and annotating this run's findings. */
module CorrelationPass {
  import opened Findings
  import opened TextOrder
  import opened Correlation
  import opened IntOrder

  /** The annotation's list: first occurrences only, then sorted. */
  method Dedup(siblings: seq<int>) returns (out: seq<int>)
    ensures Ascending(out) && Elems(out) == Elems(siblings)
  {
    var seen: set<int> := {};
    var dedup: seq<int> := [];
    for i := 0 to |siblings|
      invariant seen == Elems(dedup) == Elems(siblings[..i])
      invariant forall a, b :: 0 <= a < b < |dedup| ==> dedup[a] != dedup[b]
    {
      assert siblings[..i + 1] == siblings[..i] + [siblings[i]];
      ElemsOf(siblings[..i], [siblings[i]]);
      if siblings[i] !in seen {
        ElemsOf(dedup, [siblings[i]]);
        seen := seen + {siblings[i]};
        dedup := dedup + [siblings[i]];
      }
    }
    assert siblings[..|siblings|] == siblings;
    SortedAscends(dedup);
    out := Sorted(dedup);
  }

  /** The ids a pair collected, one per fingerprint, in no particular order. */
  method ListIds(m: map<Fingerprint, int>) returns (ids: seq<int>)
    ensures Elems(ids) == m.Values
  {
    ids := [];
    var left := m.Keys;
    ghost var done: set<Fingerprint> := {};
    while left != {}
      invariant done + left == m.Keys
      invariant Elems(ids) == set fp | fp in done :: m[fp]
      decreases |left|
    {
      var fp :| fp in left;
      ElemsOf(ids, [m[fp]]);
      ids := ids + [m[fp]];
      left := left - {fp};
      done := done + {fp};
    }
  }

  function AnnotationOf(annotations: map<int, seq<int>>, id: int): seq<int> {
    if id in annotations then annotations[id] else []
  }

  /** Everyone else in the pair, and the roll-up row. */
  method Siblings(before: seq<int>, ids: seq<int>, id: int, rowId: int) returns (siblings: seq<int>)
    ensures Elems(siblings) == Elems(before) + (Elems(ids) - {id}) + {rowId}
  {
    siblings := before;
    for i := 0 to |ids|
      invariant Elems(siblings) == Elems(before) + (Elems(ids[..i]) - {id})
    {
      assert ids[..i + 1] == ids[..i] + [ids[i]];
      ElemsOf(ids[..i], [ids[i]]);
      if ids[i] != id {
        ElemsOf(siblings, [ids[i]]);
        siblings := siblings + [ids[i]];
      }
    }
    assert ids[..|ids|] == ids;
    ElemsOf(siblings, [rowId]);
    siblings := siblings + [rowId];
  }

  /** What annotating the ids of one row makes of one id's list. */
  ghost predicate Extended(out: map<int, seq<int>>, before: map<int, seq<int>>, all: set<int>, rowId: int, id: int) {
    id in out && Elems(out[id]) == Elems(AnnotationOf(before, id)) + (all - {id}) + {rowId}
  }

  method Annotate(annotations: map<int, seq<int>>, ids: seq<int>, rowId: int) returns (out: map<int, seq<int>>)
    ensures out.Keys == annotations.Keys + Elems(ids)
    ensures forall id :: id in out && id !in Elems(ids) ==> out[id] == annotations[id]
    ensures forall id :: id in Elems(ids) ==> Extended(out, annotations, Elems(ids), rowId, id)
  {
    ghost var done: set<int> := {};
    out := annotations;
    for i := 0 to |ids|
      invariant done == Elems(ids[..i])
      invariant out.Keys == annotations.Keys + done
      invariant forall id :: id in out && id !in done ==> out[id] == annotations[id]
      invariant forall id :: id in done ==> Extended(out, annotations, Elems(ids), rowId, id)
    {
      assert ids[..i + 1] == ids[..i] + [ids[i]];
      ElemsOf(ids[..i], [ids[i]]);
      assert Elems([ids[i]]) == {ids[i]};
      var siblings := Siblings(AnnotationOf(out, ids[i]), ids, ids[i], rowId);
      hide Elems;
      out := out[ids[i] := siblings];
      done := done + {ids[i]};
    }
    assert ids[..|ids|] == ids;
  }

  // ---- What a run must produce ----

  /** This run's ids are positive and distinct; stored ids are not negative. */
  ghost predicate IdsOk(recent: seq<Finding>, hist: seq<Finding>, nextId: int) {
    && nextId >= 0
    && (forall i :: 0 <= i < |recent| ==> 0 < recent[i].id <= nextId)
    && (forall i, j :: 0 <= i < j < |recent| ==> recent[i].id != recent[j].id)
    && forall i :: 0 <= i < |hist| ==> hist[i].id >= 0
  }

  /** The pairs that earn a row: at least minTypes distinct eligible types. */
  ghost predicate Qualifies(obs: seq<Obs>, k: PairKey, minTypes: int) {
    k in Gather(obs) && |TypesAt(obs, k)| >= minTypes
  }

  /** The loudest contributor, five points for each extra type, at most 99. */
  function RowScore(loudest: int, types: int, minTypes: int): int {
    var score := loudest + 5 * (types - minTypes);
    if score > 99 then 99 else score
  }

  ghost predicate IsRow(row: Finding, obs: seq<Obs>, k: PairKey, minTypes: int, defaultSensor: string) {
    && row.kind == CORRELATED && row.src == k.src && row.dst == k.dst && row.port == row.channel == ""
    && row.sensor == (if k.sensor == "" then defaultSensor else k.sensor)
    && row.score == RowScore(Data(obs, k).maxScore, |TypesAt(obs, k)|, minTypes)
    && row.timestamp == Data(obs, k).earliest
    && Elems(row.correlations) == Linked(obs, k)
  }

  /** The row with this id, after the first findings and numbered from the first free id. */
  ghost predicate RowAt(all: seq<Finding>, first: nat, nextId: int, id: int, obs: seq<Obs>, k: PairKey, minTypes: int,
                        defaultSensor: string) {
    var at := first + id - nextId - 1;
    first <= at < |all| && all[at].id == id && IsRow(all[at], obs, k, minTypes, defaultSensor)
  }

  /** One row after the first findings for each key of rows. */
  ghost predicate RowsOk(all: seq<Finding>, first: nat, nextId: int, rows: map<PairKey, int>,
                         obs: seq<Obs>, minTypes: int, defaultSensor: string) {
    && |all| == first + |rows|
    && (forall k :: k in rows ==>
          Qualifies(obs, k, minTypes) && RowAt(all, first, nextId, rows[k], obs, k, minTypes, defaultSensor))
    && forall k, q :: k in rows && q in rows && rows[k] == rows[q] ==> k == q
  }

  /** The annotations link each positive contributor id to the rest of its pair and the pair's row. */
  ghost predicate AnnotationsOk(annotations: map<int, seq<int>>, rows: map<PairKey, int>, obs: seq<Obs>) {
    && (forall k, id :: k in rows && id in Linked(obs, k) && id > 0 ==>
          id in annotations && Elems(annotations[id]) == Linked(obs, k) - {id} + {rows[k]})
    && forall id :: id in annotations && id > 0 ==> exists k :: k in rows && id in Linked(obs, k)
  }

  /** A stored finding's link id is never positive. */
  lemma StoredNotPositive(recent: seq<Finding>, hist: seq<Finding>, nextId: int, i: nat)
    requires IdsOk(recent, hist, nextId) && i < |recent| + |hist|
    ensures Observations(recent, hist)[i].historical <==> LinkId(Observations(recent, hist)[i]) <= 0
    ensures Observations(recent, hist)[i].historical <==> i >= |recent|
  {
    hide Observations;
    ObservedAt(recent, hist, i);
  }

  /** A positive link id comes from one finding of this run: the two id spaces never meet. */
  lemma LinkedFrom(recent: seq<Finding>, hist: seq<Finding>, nextId: int, k: PairKey, id: int) returns (i: nat)
    requires IdsOk(recent, hist, nextId)
    requires id > 0 && id in Linked(Observations(recent, hist), k)
    ensures i < |recent| && recent[i].id == id && FirstSeen(Observations(recent, hist), i) && KeyOf(recent[i]) == k
  {
    hide FirstSeen; hide Observations;
    var obs := Observations(recent, hist);
    i :| 0 <= i < |obs| && FirstSeen(obs, i) && KeyOf(obs[i].f) == k && LinkId(obs[i]) == id;
    StoredNotPositive(recent, hist, nextId, i);
    ObservedAt(recent, hist, i);
  }

  lemma LinkedDisjoint(recent: seq<Finding>, hist: seq<Finding>, nextId: int, k: PairKey, q: PairKey, id: int)
    requires IdsOk(recent, hist, nextId) && id > 0
    requires id in Linked(Observations(recent, hist), k) && id in Linked(Observations(recent, hist), q)
    ensures k == q
  {
    hide FirstSeen; hide Linked;
    var i := LinkedFrom(recent, hist, nextId, k, id);
    var j := LinkedFrom(recent, hist, nextId, q, id);
    assert i == j;
  }

  lemma AnnotateKeeps(before: map<int, seq<int>>, after: map<int, seq<int>>, ids: seq<int>, rows: map<PairKey, int>,
                      k: PairKey, rowId: int, recent: seq<Finding>, hist: seq<Finding>, nextId: int)
    requires IdsOk(recent, hist, nextId) && k !in rows
    requires Elems(ids) == Linked(Observations(recent, hist), k)
    requires AnnotationsOk(before, rows, Observations(recent, hist))
    requires after.Keys == before.Keys + Elems(ids)
    requires forall id :: id in after && id !in Elems(ids) ==> after[id] == before[id]
    requires forall id :: id in Elems(ids) ==> Extended(after, before, Elems(ids), rowId, id)
    ensures AnnotationsOk(after, rows[k := rowId], Observations(recent, hist))
  {
    hide Linked; hide FirstSeen; hide Elems; hide IdsOk; hide Observations;
    var obs, more := Observations(recent, hist), rows[k := rowId];
    forall q, id | q in more && id in Linked(obs, q) && id > 0
      ensures id in after && Elems(after[id]) == Linked(obs, q) - {id} + {more[q]}
    {
      if q == k {
        NotYet(before, rows, k, id, recent, hist, nextId);
        NoElems();
        assert Elems(AnnotationOf(before, id)) == {};
      } else {
        if id in Elems(ids) {
          LinkedDisjoint(recent, hist, nextId, q, k, id);
          assert false;
        }
      }
    }
    forall id | id in after && id > 0
      ensures exists q :: q in more && id in Linked(obs, q)
    {
      if id in Elems(ids) {
        assert k in more && id in Linked(obs, k);
      } else {
        var q :| q in rows && id in Linked(obs, q);
        assert q in more;
      }
    }
  }

  lemma NoElems()
    ensures Elems([]) == {}
  {
  }

  lemma NotYet(annotations: map<int, seq<int>>, rows: map<PairKey, int>, k: PairKey, id: int,
               recent: seq<Finding>, hist: seq<Finding>, nextId: int)
    requires IdsOk(recent, hist, nextId) && k !in rows && id > 0
    requires id in Linked(Observations(recent, hist), k)
    requires AnnotationsOk(annotations, rows, Observations(recent, hist))
    ensures id !in annotations
  {
    hide Linked; hide FirstSeen; hide Elems; hide IdsOk; hide Observations;
    if id in annotations {
      var q :| q in rows && id in Linked(Observations(recent, hist), q);
      LinkedDisjoint(recent, hist, nextId, q, k, id);
    }
  }

  /** How a run leaves one of the findings it started with. */
  ghost predicate Annotated(f: Finding, was: Finding, obs: seq<Obs>, i: nat, rows: map<PairKey, int>)
    requires i < |obs|
  {
    if was.kind == CORRELATED then f == was
    else
      && f == was.(correlations := f.correlations)
      && if FirstSeen(obs, i) && KeyOf(was) in rows then
           && Ascending(f.correlations)
           && Elems(f.correlations) == Linked(obs, KeyOf(was)) - {was.id} + {rows[KeyOf(was)]}
         else f.correlations == []
  }

  lemma AnnotatedRight(f: Finding, annotations: map<int, seq<int>>, rows: map<PairKey, int>,
                       recent: seq<Finding>, hist: seq<Finding>, nextId: int, i: nat)
    requires IdsOk(recent, hist, nextId) && i < |recent|
    requires AnnotationsOk(annotations, rows, Observations(recent, hist))
    requires recent[i].kind == CORRELATED ==> f == recent[i]
    requires recent[i].kind != CORRELATED ==> f == recent[i].(correlations := f.correlations)
    requires recent[i].kind != CORRELATED && recent[i].id in annotations ==>
      Ascending(f.correlations) && Elems(f.correlations) == Elems(annotations[recent[i].id])
    requires recent[i].kind != CORRELATED && recent[i].id !in annotations ==> f.correlations == []
    ensures Annotated(f, recent[i], Observations(recent, hist), i, rows)
  {
    hide FirstSeen; hide Linked; hide Elems; hide Ascending; hide Observations;
    var obs := Observations(recent, hist);
    ObservedAt(recent, hist, i);
    OnlyLinkedAnnotated(annotations, rows, recent, hist, nextId, i);
    if FirstSeen(obs, i) && KeyOf(recent[i]) in rows {
      IsLinked(obs, i);
    }
  }

  /** Only a first-seen contributor of an emitted pair is annotated. */
  lemma OnlyLinkedAnnotated(annotations: map<int, seq<int>>, rows: map<PairKey, int>,
                            recent: seq<Finding>, hist: seq<Finding>, nextId: int, i: nat)
    requires IdsOk(recent, hist, nextId) && i < |recent|
    requires AnnotationsOk(annotations, rows, Observations(recent, hist))
    ensures recent[i].id in annotations ==> FirstSeen(Observations(recent, hist), i) && KeyOf(recent[i]) in rows
  {
    hide FirstSeen; hide Linked; hide Elems; hide Observations;
    var id := recent[i].id;
    if id in annotations {
      var q :| q in rows && id in Linked(Observations(recent, hist), q);
      var j := LinkedFrom(recent, hist, nextId, q, id);
      assert j == i;
    }
  }

  lemma IsLinked(obs: seq<Obs>, i: nat)
    requires i < |obs| && FirstSeen(obs, i)
    ensures LinkId(obs[i]) in Linked(obs, KeyOf(obs[i].f))
  {
  }

  // ---- The run ----

  class Analyzer {
    var findings: seq<Finding>
    var nextId: int
    const defaultSensor: string

    constructor (defaultSensor: string)
      ensures findings == [] && nextId == 0 && this.defaultSensor == defaultSensor
    {
      findings, nextId, this.defaultSensor := [], 0, defaultSensor;
    }

    /** Appends a finding under the next id; a finding without a sensor gets the default one. */
    method Add(f: Finding)
      modifies this
      ensures nextId == old(nextId) + 1
      ensures findings == old(findings) + [f.(id := nextId, sensor := if f.sensor == "" then defaultSensor else f.sensor)]
    {
      nextId := nextId + 1;
      findings := findings + [f.(id := nextId, sensor := if f.sensor == "" then defaultSensor else f.sensor)];
    }

    method GatherPairs(hist: seq<Finding>) returns (pairs: map<PairKey, PairData>)
      ensures pairs == Gather(Observations(findings, hist))
    {
      hide GatheredTo; hide Contribute; hide Gather; hide Observations;
      GatheredEnds(findings, hist);
      pairs := map[];
      for i := 0 to |findings|
        invariant pairs == GatheredTo(findings, hist, i)
      {
        GatheredStep(findings, hist, i);
        pairs := Contribute(pairs, Obs(findings[i], false));
      }
      for i := 0 to |hist|
        invariant pairs == GatheredTo(findings, hist, |findings| + i)
      {
        GatheredStep(findings, hist, |findings| + i);
        pairs := Contribute(pairs, Obs(hist[i], true));
      }
    }

    /** Replaces every finding's list, except on this phase's own rows. */
    method Apply(annotations: map<int, seq<int>>)
      modifies `findings
      ensures |findings| == |old(findings)|
      ensures forall i :: 0 <= i < |findings| ==> Applied(findings[i], old(findings)[i], annotations)
    {
      for i := 0 to |findings|
        invariant |findings| == |old(findings)|
        invariant forall j :: 0 <= j < i ==> Applied(findings[j], old(findings)[j], annotations)
        invariant forall j :: i <= j < |findings| ==> findings[j] == old(findings)[j]
      {
        if findings[i].kind == CORRELATED {
          continue;
        }
        if findings[i].id !in annotations {
          findings := findings[i := findings[i].(correlations := [])];
          continue;
        }
        var dedup := Dedup(annotations[findings[i].id]);
        findings := findings[i := findings[i].(correlations := dedup)];
      }
    }

    /** Emits the row of one pair and remembers whom to link. */
    method EmitRow(pd: PairData, k: PairKey, minTypes: int, before: map<int, seq<int>>, ghost rows: map<PairKey, int>,
                   ghost recent: seq<Finding>, ghost hist: seq<Finding>, ghost firstId: int)
      returns (annotations: map<int, seq<int>>)
      requires IdsOk(recent, hist, firstId) && k !in rows && nextId == firstId + |rows|
      requires pd == Data(Observations(recent, hist), k) && Qualifies(Observations(recent, hist), k, minTypes)
      requires RowsOk(findings, |recent|, firstId, rows, Observations(recent, hist), minTypes, defaultSensor)
      requires AnnotationsOk(before, rows, Observations(recent, hist))
      modifies this
      ensures nextId == old(nextId) + 1 && |findings| == |old(findings)| + 1 && old(findings) <= findings
      ensures RowsOk(findings, |recent|, firstId, rows[k := nextId], Observations(recent, hist), minTypes, defaultSensor)
      ensures AnnotationsOk(annotations, rows[k := nextId], Observations(recent, hist))
    {
      hide RowsOk; hide AnnotationsOk; hide IdsOk; hide Qualifies; hide TypesAt; hide Linked; hide FirstSeen;
      hide Observations; hide Elems; hide Data; hide Gather; hide PrintsAt;
      ghost var obs := Observations(recent, hist);
      Gathered(obs, k);
      var contributorIds := ListIds(pd.ids);
      var score := pd.maxScore + 5 * (|pd.types| - minTypes);
      if score > 99 {
        score := 99;
      }
      Add(Finding(0, CORRELATED, score, k.src, k.dst, "", k.sensor, "", "", "", pd.earliest, contributorIds));
      annotations := Annotate(before, contributorIds, nextId);
      OneMoreRow(old(findings), findings[|old(findings)|], |recent|, firstId, rows, k, obs, minTypes, defaultSensor);
      AnnotateKeeps(before, annotations, contributorIds, rows, k, nextId, recent, hist, firstId);
    }

    /** Emits one row per pair with enough types, whatever order the pairs come in. */
    method EmitRows(pairs: map<PairKey, PairData>, minTypes: int, ghost hist: seq<Finding>)
      returns (annotations: map<int, seq<int>>, ghost rows: map<PairKey, int>)
      requires IdsOk(findings, hist, nextId) && pairs == Gather(Observations(findings, hist))
      modifies this
      ensures nextId == old(nextId) + |rows| && old(findings) <= findings
      ensures RowsOk(findings, |old(findings)|, old(nextId), rows, Observations(old(findings), hist), minTypes, defaultSensor)
      ensures forall k :: Qualifies(Observations(old(findings), hist), k, minTypes) ==> k in rows
      ensures AnnotationsOk(annotations, rows, Observations(old(findings), hist))
    {
      hide RowsOk; hide AnnotationsOk; hide IdsOk; hide Gather; hide TypesAt; hide Observations; hide PrintsAt; hide Linked;
      ghost var recent, obs := findings, Observations(findings, hist);
      annotations, rows := map[], map[];
      NoRows(findings, nextId, obs, minTypes, defaultSensor);
      var left := pairs.Keys;
      while left != {}
        invariant left <= pairs.Keys
        invariant nextId == old(nextId) + |rows| && recent <= findings
        invariant RowsOk(findings, |recent|, old(nextId), rows, obs, minTypes, defaultSensor)
        invariant forall k :: k in rows ==> k !in left
        invariant forall k :: k in pairs && k !in left && Qualifies(obs, k, minTypes) ==> k in rows
        invariant AnnotationsOk(annotations, rows, obs)
        decreases |left|
      {
        var k :| k in left;
        left := left - {k};
        var pd := pairs[k];
        Gathered(obs, k);
        if |pd.types| < minTypes {
          continue;
        }
        annotations := EmitRow(pd, k, minTypes, annotations, rows, recent, hist, old(nextId));
        GrownByOne(rows, k, nextId);
        rows := rows[k := nextId];
      }
    }

    /**
     The phase. With fewer than two required types it does nothing. Otherwise it appends
     exactly one row per qualifying pair and leaves every earlier finding annotated.
     */
    method Correlate(hist: seq<Finding>, minTypes: int) returns (ghost rows: map<PairKey, int>)
      requires IdsOk(findings, hist, nextId)
      modifies this
      ensures minTypes < 2 ==> findings == old(findings) && nextId == old(nextId) && rows == map[]
      ensures minTypes >= 2 ==>
        && (forall k :: k in rows <==> Qualifies(Observations(old(findings), hist), k, minTypes))
        && RowsOk(findings, |old(findings)|, old(nextId), rows, Observations(old(findings), hist), minTypes, defaultSensor)
        && nextId == old(nextId) + |rows|
        && forall i :: 0 <= i < |old(findings)| ==>
             Annotated(findings[i], old(findings)[i], Observations(old(findings), hist), i, rows)
    {
      hide AnnotationsOk; hide IdsOk; hide Gather; hide Observations; hide Linked; hide FirstSeen; hide RowsOk;
      hide Qualifies; hide Annotated; hide Applied;
      rows := map[];
      if minTypes < 2 {
        return;
      }
      ghost var recent := findings;
      var pairs := GatherPairs(hist);
      var annotations;
      annotations, rows := EmitRows(pairs, minTypes, hist);
      ghost var emitted := findings;
      Apply(annotations);
      RowsSurvive(emitted, findings, recent, old(nextId), rows, annotations, Observations(recent, hist), minTypes, defaultSensor);
      forall i | 0 <= i < |recent|
        ensures Annotated(findings[i], recent[i], Observations(recent, hist), i, rows)
      {
        assert emitted[i] == recent[i];
        assert Applied(findings[i], emitted[i], annotations);
        AppliedRight(findings[i], annotations, rows, recent, hist, old(nextId), i);
      }
    }
  }

  lemma AppliedRight(f: Finding, annotations: map<int, seq<int>>, rows: map<PairKey, int>,
                     recent: seq<Finding>, hist: seq<Finding>, nextId: int, i: nat)
    requires IdsOk(recent, hist, nextId) && i < |recent|
    requires AnnotationsOk(annotations, rows, Observations(recent, hist))
    requires Applied(f, recent[i], annotations)
    ensures Annotated(f, recent[i], Observations(recent, hist), i, rows)
  {
    hide IdsOk; hide AnnotationsOk; hide Elems; hide Ascending; hide Observations; hide Annotated;
    AnnotatedRight(f, annotations, rows, recent, hist, nextId, i);
  }

  lemma GrownByOne(rows: map<PairKey, int>, k: PairKey, id: int)
    requires k !in rows
    ensures |rows[k := id]| == |rows| + 1
  {
    var more := rows[k := id];
    assert more.Keys == rows.Keys + {k};
    assert |more.Keys| == |rows.Keys| + 1;
  }

  lemma NoRows(all: seq<Finding>, nextId: int, obs: seq<Obs>, minTypes: int, defaultSensor: string)
    ensures RowsOk(all, |all|, nextId, map[], obs, minTypes, defaultSensor) && AnnotationsOk(map[], map[], obs)
  {
  }

  lemma RowStays(all: seq<Finding>, row: Finding, first: nat, nextId: int, id: int, obs: seq<Obs>, k: PairKey,
                 minTypes: int, defaultSensor: string)
    requires RowAt(all, first, nextId, id, obs, k, minTypes, defaultSensor)
    ensures RowAt(all + [row], first, nextId, id, obs, k, minTypes, defaultSensor)
    ensures id - nextId <= |all| - first
  {
    hide IsRow;
  }

  lemma OneMoreRow(all: seq<Finding>, row: Finding, first: nat, nextId: int, rows: map<PairKey, int>,
                   k: PairKey, obs: seq<Obs>, minTypes: int, defaultSensor: string)
    requires RowsOk(all, first, nextId, rows, obs, minTypes, defaultSensor) && k !in rows
    requires Qualifies(obs, k, minTypes) && IsRow(row, obs, k, minTypes, defaultSensor) && row.id == nextId + |rows| + 1
    ensures RowsOk(all + [row], first, nextId, rows[k := row.id], obs, minTypes, defaultSensor)
  {
    hide Qualifies; hide IsRow;
    GrownByOne(rows, k, row.id);
    assert RowAt(all + [row], first, nextId, row.id, obs, k, minTypes, defaultSensor);
    hide RowAt;
    forall q | q in rows
      ensures RowAt(all + [row], first, nextId, rows[q], obs, q, minTypes, defaultSensor) && rows[q] < row.id
    {
      RowStays(all, row, first, nextId, rows[q], obs, q, minTypes, defaultSensor);
    }
  }

  /** The apply pass leaves the new rows alone. */
  lemma RowsSurvive(emitted: seq<Finding>, final: seq<Finding>, recent: seq<Finding>, nextId: int, rows: map<PairKey, int>,
                    annotations: map<int, seq<int>>, obs: seq<Obs>, minTypes: int, defaultSensor: string)
    requires RowsOk(emitted, |recent|, nextId, rows, obs, minTypes, defaultSensor)
    requires |final| == |emitted|
    requires forall i :: 0 <= i < |final| ==> Applied(final[i], emitted[i], annotations)
    ensures RowsOk(final, |recent|, nextId, rows, obs, minTypes, defaultSensor)
    ensures forall k :: k in rows ==> Qualifies(obs, k, minTypes)
  {
    hide Qualifies;
    forall k | k in rows
      ensures RowAt(final, |recent|, nextId, rows[k], obs, k, minTypes, defaultSensor)
    {
      var at := |recent| + rows[k] - nextId - 1;
      assert RowAt(emitted, |recent|, nextId, rows[k], obs, k, minTypes, defaultSensor);
      assert Applied(final[at], emitted[at], annotations);
    }
  }

  ghost predicate Applied(f: Finding, was: Finding, annotations: map<int, seq<int>>) {
    if was.kind == CORRELATED then f == was
    else
      && f == was.(correlations := f.correlations)
      && if was.id in annotations
         then Ascending(f.correlations) && Elems(f.correlations) == Elems(annotations[was.id])
         else f.correlations == []
  }

  /** What the first i observations gather. */
  ghost function GatheredTo(recent: seq<Finding>, hist: seq<Finding>, i: nat): map<PairKey, PairData>
    requires i <= |recent| + |hist|
  {
    Gather(Observations(recent, hist)[..i])
  }

  lemma GatheredEnds(recent: seq<Finding>, hist: seq<Finding>)
    ensures GatheredTo(recent, hist, 0) == map[]
    ensures GatheredTo(recent, hist, |recent| + |hist|) == Gather(Observations(recent, hist))
  {
    assert Observations(recent, hist)[..|recent| + |hist|] == Observations(recent, hist);
  }

  lemma GatheredStep(recent: seq<Finding>, hist: seq<Finding>, i: nat)
    requires i < |recent| + |hist|
    ensures var o := if i < |recent| then Obs(recent[i], false) else Obs(hist[i - |recent|], true);
      GatheredTo(recent, hist, i + 1) == Contribute(GatheredTo(recent, hist, i), o)
  {
    hide Contribute;
    var obs := Observations(recent, hist);
    assert obs[..i + 1] == obs[..i] + [obs[i]];
    DropLast(obs[..i], obs[i]);
    ObservedAt(recent, hist, i);
  }

  // ---- What the phase promises ----

  /** The recorded score is the loudest contributor's, the recorded time the earliest one stamped. */
  ghost predicate Extremes(d: PairData, obs: seq<Obs>, k: PairKey) {
    && d.maxScore >= 0
    && (forall i :: 0 <= i < |obs| && At(obs, i, k) ==> obs[i].f.score <= d.maxScore)
    && (d.maxScore == 0 || exists i :: 0 <= i < |obs| && At(obs, i, k) && obs[i].f.score == d.maxScore)
    && (forall i :: 0 <= i < |obs| && At(obs, i, k) && obs[i].f.timestamp != "" ==>
          d.earliest != "" && NotAfter(d.earliest, obs[i].f.timestamp))
    && (d.earliest == "" || exists i :: 0 <= i < |obs| && At(obs, i, k) && obs[i].f.timestamp == d.earliest)
  }

  lemma ExtremesMore(d: PairData, obs: seq<Obs>, o: Obs, k: PairKey)
    requires Extremes(d, obs, k)
    ensures Extremes(if Contributes(o.f) && KeyOf(o.f) == k then Added(d, o) else d, obs + [o], k)
  {
    hide NotAfter; hide Less; hide Contributes; hide FingerprintOf; hide FirstSeen; hide TypesAt; hide PrintsAt;
    var all, mine := obs + [o], Contributes(o.f) && KeyOf(o.f) == k;
    var e := if mine then Added(d, o) else d;
    AtPrefix(obs, o, k);
    assert forall i :: 0 <= i < |obs| ==> all[i] == obs[i] && At(all, i, k) == At(obs, i, k);
    assert all[|obs|] == o && At(all, |obs|, k) == mine;
    forall i | 0 <= i < |all| && At(all, i, k) && all[i].f.timestamp != ""
      ensures e.earliest != "" && NotAfter(e.earliest, all[i].f.timestamp)
    {
      EarlierKept(d.earliest, o.f.timestamp, all[i].f.timestamp);
    }
  }

  lemma EarlierKept(earliest: string, t: string, u: string)
    ensures Less(t, earliest) && NotAfter(earliest, u) ==> NotAfter(t, u)
    ensures NotAfter(t, t)
    ensures !Less(t, earliest) ==> NotAfter(earliest, t)
  {
    hide Less;
    LessTotal(t, t);
    LessTotal(t, earliest);
    if Less(t, earliest) && NotAfter(earliest, u) {
      NotAfterTransitive(t, earliest, u);
    }
  }

  lemma {:induction false} GatheredExtremes(obs: seq<Obs>, k: PairKey)
    ensures Extremes(Data(obs, k), obs, k)
    decreases |obs|
  {
    hide Contributes; hide Data; hide Gather; hide Added; hide Extremes;
    if obs == [] {
      NoExtremes(k);
    } else {
      var init, o := obs[..|obs| - 1], obs[|obs| - 1];
      assert obs == init + [o];
      GatheredExtremes(init, k);
      DataSnoc(init, o, k);
      ExtremesMore(Data(init, k), init, o, k);
    }
  }

  lemma NoExtremes(k: PairKey)
    ensures Extremes(Data([], k), [], k)
  {
  }

  /**
   A row never scores above 99, and never below its loudest contributor unless that
   contributor itself is above 99; its time is at or before any a contributor carries.
   */
  lemma RowBounds(row: Finding, obs: seq<Obs>, k: PairKey, minTypes: int, defaultSensor: string, i: nat)
    requires Qualifies(obs, k, minTypes) && IsRow(row, obs, k, minTypes, defaultSensor)
    requires i < |obs| && At(obs, i, k)
    ensures (if obs[i].f.score < 99 then obs[i].f.score else 99) <= row.score <= 99
    ensures row.score < obs[i].f.score <==> obs[i].f.score > 99
    ensures obs[i].f.timestamp != "" ==> row.timestamp != "" && NotAfter(row.timestamp, obs[i].f.timestamp)
  {
    hide Data; hide NotAfter; hide Contributes; hide TypesAt; hide Linked;
    GatheredExtremes(obs, k);
  }

  /** A pair earns a row if and only if this run's and the stored findings between its endpoints show enough types. */
  lemma EarnsRowIff(recent: seq<Finding>, hist: seq<Finding>, k: PairKey, minTypes: int)
    ensures Qualifies(Observations(recent, hist), k, minTypes)
      <==> Shown(recent, hist, k) != {} && |Shown(recent, hist, k)| >= minTypes
  {
    var obs := Observations(recent, hist);
    TypesAre(recent, hist, k);
    Gathered(obs, k);
  }

  /** The loudest contributor of a pair. */
  ghost predicate Loudest(obs: seq<Obs>, k: PairKey, i: nat) {
    i < |obs| && At(obs, i, k) && forall j :: 0 <= j < |obs| && At(obs, j, k) ==> obs[j].f.score <= obs[i].f.score
  }

  /** With exactly as many types as are asked for, a row scores what its loudest contributor scores, up to 99. */
  lemma FewestTypesScore(row: Finding, obs: seq<Obs>, k: PairKey, minTypes: int, defaultSensor: string, i: nat)
    requires IsRow(row, obs, k, minTypes, defaultSensor) && |TypesAt(obs, k)| == minTypes
    requires Loudest(obs, k, i) && obs[i].f.score >= 0
    ensures row.score == if obs[i].f.score <= 99 then obs[i].f.score else 99
  {
    hide Data; hide NotAfter; hide Contributes; hide TypesAt; hide Linked;
    GatheredExtremes(obs, k);
  }

  /** Each further type adds exactly five, until the row reaches 99. */
  lemma FurtherTypeAddsFive(row: Finding, obs: seq<Obs>, i: nat, row': Finding, obs': seq<Obs>, i': nat, k: PairKey,
                            minTypes: int, defaultSensor: string)
    requires IsRow(row, obs, k, minTypes, defaultSensor) && IsRow(row', obs', k, minTypes, defaultSensor)
    requires Loudest(obs, k, i) && Loudest(obs', k, i') && obs[i].f.score == obs'[i'].f.score >= 0
    requires |TypesAt(obs', k)| == |TypesAt(obs, k)| + 1
    ensures row'.score == if row.score <= 94 then row.score + 5 else 99
  {
    hide Data; hide NotAfter; hide Contributes; hide TypesAt; hide Linked;
    GatheredExtremes(obs, k);
    GatheredExtremes(obs', k);
  }

  /** A row names the endpoints of its contributors, links each of them, and is a roll-up itself. */
  lemma RowNamesContributors(row: Finding, obs: seq<Obs>, k: PairKey, minTypes: int, defaultSensor: string, i: nat)
    requires IsRow(row, obs, k, minTypes, defaultSensor) && i < |obs| && At(obs, i, k)
    ensures row.src == obs[i].f.src && row.dst == obs[i].f.dst
    ensures row.sensor == if obs[i].f.sensor == "" then defaultSensor else obs[i].f.sensor
    ensures IsRollup(row.kind) && !Contributes(row)
    ensures FirstSeen(obs, i) ==> (if obs[i].historical then -obs[i].f.id else obs[i].f.id) in row.correlations
  {
    hide Data; hide TypesAt; hide FingerprintOf;
    if FirstSeen(obs, i) {
      assert LinkId(obs[i]) in Linked(obs, k);
      assert LinkId(obs[i]) in Elems(row.correlations);
    }
  }

  /** Two rows share an identity exactly when their pairs differ at most in a sensor left blank. */
  lemma SharedFingerprintIff(row: Finding, k: PairKey, row': Finding, q: PairKey, obs: seq<Obs>, minTypes: int, defaultSensor: string)
    requires IsRow(row, obs, k, minTypes, defaultSensor) && IsRow(row', obs, q, minTypes, defaultSensor)
    ensures FingerprintOf(row) == FingerprintOf(row') <==> Resolved(k, defaultSensor) == Resolved(q, defaultSensor)
  {
    hide Data; hide TypesAt; hide Linked;
    assert CORRELATED[0] != "HTTP Beacon"[0];
  }

  /** The pair with the default sensor in place of a blank one. */
  function Resolved(k: PairKey, defaultSensor: string): PairKey {
    if k.sensor == "" then k.(sensor := defaultSensor) else k
  }

  /**
   The rows of a run have distinct identities if and only if no pair earns one row under a
   blank sensor and another under the default one.
   */
  lemma RowsDistinctIff(all: seq<Finding>, first: nat, nextId: int, rows: map<PairKey, int>, obs: seq<Obs>, minTypes: int,
                        defaultSensor: string)
    requires RowsOk(all, first, nextId, rows, obs, minTypes, defaultSensor)
    ensures (forall k, q :: k in rows && q in rows && k != q ==>
              FingerprintOf(RowOf(all, first, nextId, rows[k])) != FingerprintOf(RowOf(all, first, nextId, rows[q])))
      <==> forall k :: k in rows && k.sensor == "" && defaultSensor != "" ==> k.(sensor := defaultSensor) !in rows
  {
    hide IsRow; hide Qualifies; hide FingerprintOf;
    forall k, q | k in rows && q in rows
      ensures FingerprintOf(RowOf(all, first, nextId, rows[k])) == FingerprintOf(RowOf(all, first, nextId, rows[q]))
        <==> Resolved(k, defaultSensor) == Resolved(q, defaultSensor)
    {
      SharedFingerprintIff(RowOf(all, first, nextId, rows[k]), k, RowOf(all, first, nextId, rows[q]), q, obs, minTypes, defaultSensor);
    }
    forall k, q | k in rows && q in rows && k != q && Resolved(k, defaultSensor) == Resolved(q, defaultSensor)
      ensures exists p :: p in rows && p.sensor == "" && defaultSensor != "" && p.(sensor := defaultSensor) in rows
    {
      var p := if k.sensor == "" then k else q;
      assert p in rows && p.(sensor := defaultSensor) in rows;
    }
    forall k | k in rows && k.sensor == "" && defaultSensor != "" && k.(sensor := defaultSensor) in rows
      ensures exists p, q :: p in rows && q in rows && p != q && Resolved(p, defaultSensor) == Resolved(q, defaultSensor)
    {
      var q := k.(sensor := defaultSensor);
      assert Resolved(k, defaultSensor) == Resolved(q, defaultSensor);
    }
  }

  function RowOf(all: seq<Finding>, first: nat, nextId: int, id: int): Finding
    requires nextId < id && first + id - nextId - 1 < |all|
  {
    all[first + id - nextId - 1]
  }

  /** A beacon at 100 and one more type on its pair: the row reports 99. */
  lemma RowBelowItsBeacon() returns (beacon: Finding, other: Finding, row: Finding)
    ensures var obs := Observations([beacon, other], []);
      && Qualifies(obs, KeyOf(beacon), 2) && IsRow(row, obs, KeyOf(beacon), 2, "")
      && beacon.kind == "Beacon" && beacon.score == 100 && row.score == 99
  {
    beacon := Finding(1, "Beacon", 100, "10.0.0.5", "203.0.113.9", "443", "s", "", "", "", "2024-05-01 10:00:00", []);
    other := beacon.(id := 2, kind := "Strobe", score := 60);
    var a, b, k := Obs(beacon, false), Obs(other, false), KeyOf(beacon);
    var obs := Observations([beacon, other], []);
    assert obs == [] + [a] + [b];
    assert Contributes(beacon) && Contributes(other) by {
      assert beacon.kind[0] == 'B' && |beacon.kind| == 6 && other.kind[0] == 'S';
    }
    row := RowOfTwo(a, b, k);
    RowBounds(row, obs, k, 2, "", 0);
  }

  /** The row of a pair with two contributors of different types. */
  lemma RowOfTwo(a: Obs, b: Obs, k: PairKey) returns (row: Finding)
    requires Contributes(a.f) && Contributes(b.f) && KeyOf(a.f) == KeyOf(b.f) == k && a.f.kind != b.f.kind
    requires FingerprintOf(a.f) != FingerprintOf(b.f) && k.sensor != ""
    ensures Qualifies([] + [a] + [b], k, 2) && IsRow(row, [] + [a] + [b], k, 2, "")
  {
    hide Contributes; hide FingerprintOf; hide Linked; hide TypesAt; hide Data; hide Gather;
    var obs := [] + [a] + [b];
    TwoContributors(a, b, k);
    var ids := [LinkId(a), LinkId(b)];
    assert Elems(ids) == {LinkId(a), LinkId(b)};
    row := a.f.(kind := CORRELATED, port := "", channel := "", correlations := ids, timestamp := Data(obs, k).earliest,
                score := RowScore(Data(obs, k).maxScore, 2, 2));
  }

  lemma TwoContributors(a: Obs, b: Obs, k: PairKey)
    requires Contributes(a.f) && Contributes(b.f) && KeyOf(a.f) == KeyOf(b.f) == k && FingerprintOf(a.f) != FingerprintOf(b.f)
    ensures var obs := [] + [a] + [b];
      && k in Gather(obs) && TypesAt(obs, k) == {a.f.kind, b.f.kind} && Linked(obs, k) == {LinkId(a), LinkId(b)}
  {
    hide Contributes; hide FingerprintOf; hide Data; hide Gather;
    var none: seq<Obs> := [];
    AtPrefix(none, a, k);
    AtPrefix(none + [a], b, k);
    LinkedSnoc(none, a, k);
    LinkedSnoc(none + [a], b, k);
    DataSnoc(none, a, k);
    DataSnoc(none + [a], b, k);
  }

  /** Two contributors of one pair refer to each other, to its row, and never to themselves. */
  lemma Mutual(f: Finding, g: Finding, recent: seq<Finding>, hist: seq<Finding>, nextId: int,
               rows: map<PairKey, int>, i: nat, j: nat)
    requires IdsOk(recent, hist, nextId) && i < |recent| && j < |recent| && i != j
    requires Annotated(f, recent[i], Observations(recent, hist), i, rows)
    requires Annotated(g, recent[j], Observations(recent, hist), j, rows)
    requires FirstSeen(Observations(recent, hist), i) && FirstSeen(Observations(recent, hist), j)
    requires KeyOf(recent[i]) == KeyOf(recent[j]) && KeyOf(recent[i]) in rows
    requires forall k :: k in rows ==> rows[k] > nextId
    ensures g.id in f.correlations && f.id in g.correlations
    ensures rows[KeyOf(f)] in f.correlations && rows[KeyOf(f)] in g.correlations
    ensures f.id !in f.correlations
  {
    hide Linked; hide Elems; hide Ascending; hide Observations;
    var obs := Observations(recent, hist);
    ObservedAt(recent, hist, i);
    ObservedAt(recent, hist, j);
    IsLinked(obs, i);
    IsLinked(obs, j);
    assert recent[i].kind != CORRELATED && recent[j].kind != CORRELATED;
    assert recent[i].id != recent[j].id;
    InElems(f.correlations, g.id);
    InElems(g.correlations, f.id);
    InElems(f.correlations, rows[KeyOf(f)]);
    InElems(g.correlations, rows[KeyOf(f)]);
    InElems(f.correlations, f.id);
  }

  lemma InElems(s: seq<int>, x: int)
    ensures x in Elems(s) <==> x in s
  {
  }

  /** A repeat of an earlier finding's fingerprint ends with no list, whatever its pair earned. */
  lemma RepeatIsCleared(f: Finding, recent: seq<Finding>, hist: seq<Finding>, rows: map<PairKey, int>, i: nat, j: nat)
    requires j < i < |recent| && Contributes(recent[j]) && FingerprintOf(recent[j]) == FingerprintOf(recent[i])
    requires Annotated(f, recent[i], Observations(recent, hist), i, rows) && recent[i].kind != CORRELATED
    ensures f.correlations == []
  {
    hide Contributes; hide Linked; hide FingerprintOf; hide Observations;
    ObservedAt(recent, hist, i);
    ObservedAt(recent, hist, j);
  }

  /** The observations without the roll-up rows. */
  function WithoutRollups(obs: seq<Obs>): seq<Obs> {
    if obs == [] then []
    else WithoutRollups(obs[..|obs| - 1]) + if IsRollup(obs[|obs| - 1].f.kind) then [] else [obs[|obs| - 1]]
  }

  /** Rows of earlier runs never feed a later one: with or without them the pairs are the same. */
  lemma {:induction false} RollupsAreInert(obs: seq<Obs>)
    ensures Gather(obs) == Gather(WithoutRollups(obs))
    decreases |obs|
  {
    if obs != [] {
      var init, o := obs[..|obs| - 1], obs[|obs| - 1];
      RollupsAreInert(init);
      if !IsRollup(o.f.kind) {
        DropLast(WithoutRollups(init), o);
      } else {
        assert WithoutRollups(obs) == WithoutRollups(init);
      }
    }
  }

  lemma DropLast(obs: seq<Obs>, o: Obs)
    ensures Gather(obs + [o]) == Contribute(Gather(obs), o)
  {
    hide Contribute;
    assert (obs + [o])[..|obs|] == obs;
  }
}

/** Rolling findings up into host risk rows, and what cannot change the outcome. */
module RiskRollup {
  import opened Findings
  import opened TextOrder
  import opened Risk

  /** Evidence is any finding with a real source that is not itself a roll-up. */
  predicate Counts(f: Finding) {
    f.src != "" && f.src != "(cert)" && f.src != "(escalation)" && f.src != "(network)" && !IsRollup(f.kind)
  }

  /** The best score of each type, the destinations of each type, and the earliest time. */
  datatype HostData = HostData(maxes: map<string, int>, dsts: map<string, set<string>>, firstTs: string)

  const BLANK: HostData := HostData(map[], map[], "")

  function MaxOf(hd: HostData, kind: string): int {
    if kind in hd.maxes then hd.maxes[kind] else 0
  }

  function DstsOf(hd: HostData, kind: string): set<string> {
    if kind in hd.dsts then hd.dsts[kind] else {}
  }

  function Joined(hd: HostData, f: Finding): HostData {
    HostData(
      if f.score > MaxOf(hd, f.kind) then hd.maxes[f.kind := f.score] else hd.maxes,
      hd.dsts[f.kind := DstsOf(hd, f.kind) + {f.dst}],
      if f.timestamp != "" && (hd.firstTs == "" || Less(f.timestamp, hd.firstTs)) then f.timestamp else hd.firstTs)
  }

  type Table = map<string, HostData>

  function In(table: Table, src: string): HostData {
    if src in table then table[src] else BLANK
  }

  function Contribute(table: Table, f: Finding): Table {
    if !Counts(f) then table else table[f.src := Joined(In(table, f.src), f)]
  }

  function TableOf(findings: seq<Finding>): Table {
    if findings == [] then map[] else Contribute(TableOf(findings[..|findings| - 1]), findings[|findings| - 1])
  }

  /** A host's evidence: a set, so neither order nor repetition can show in it. */
  function Evidence(findings: seq<Finding>, src: string): set<Finding> {
    set f | f in findings && Counts(f) && f.src == src
  }

  // ---- What a host's data says about its evidence ----

  ghost predicate MaxOk(hd: HostData, evidence: set<Finding>, kind: string) {
    && (forall f :: f in evidence && f.kind == kind ==> f.score <= MaxOf(hd, kind))
    && (kind in hd.maxes ==> hd.maxes[kind] > 0 && exists f :: f in evidence && f.kind == kind && f.score == hd.maxes[kind])
  }

  ghost predicate DstsOk(hd: HostData, evidence: set<Finding>, kind: string) {
    && (kind in hd.dsts <==> exists f :: f in evidence && f.kind == kind)
    && DstsOf(hd, kind) == set f | f in evidence && f.kind == kind :: f.dst
  }

  ghost predicate TimeOk(hd: HostData, evidence: set<Finding>) {
    && (forall f :: f in evidence && f.timestamp != "" ==> hd.firstTs != "" && NotAfter(hd.firstTs, f.timestamp))
    && (hd.firstTs == "" || exists f :: f in evidence && f.timestamp == hd.firstTs)
  }

  ghost predicate Tells(hd: HostData, evidence: set<Finding>) {
    TimeOk(hd, evidence) && forall kind :: MaxOk(hd, evidence, kind) && DstsOk(hd, evidence, kind)
  }

  lemma TimeMore(hd: HostData, evidence: set<Finding>, f: Finding)
    requires TimeOk(hd, evidence)
    ensures TimeOk(Joined(hd, f), evidence + {f})
  {
    hide Less;
    var more := evidence + {f};
    assert f in more;
    LessTotal(f.timestamp, f.timestamp);
    LessTotal(f.timestamp, hd.firstTs);
    forall g | g in more && g.timestamp != ""
      ensures Joined(hd, f).firstTs != "" && NotAfter(Joined(hd, f).firstTs, g.timestamp)
    {
      if Less(f.timestamp, hd.firstTs) && g in evidence {
        NotAfterTransitive(f.timestamp, hd.firstTs, g.timestamp);
      }
    }
  }

  lemma MaxMore(hd: HostData, evidence: set<Finding>, f: Finding, kind: string)
    requires MaxOk(hd, evidence, kind)
    ensures MaxOk(Joined(hd, f), evidence + {f}, kind)
  {
    hide Less;
    var more := evidence + {f};
    assert f in more;
    if kind in hd.maxes {
      var g :| g in evidence && g.kind == kind && g.score == hd.maxes[kind];
      assert g in more;
    }
  }

  lemma DstsMore(hd: HostData, evidence: set<Finding>, f: Finding, kind: string)
    requires DstsOk(hd, evidence, kind)
    ensures DstsOk(Joined(hd, f), evidence + {f}, kind)
  {
    hide Less;
    var more := evidence + {f};
    assert f in more;
    if kind in hd.dsts {
      var g :| g in evidence && g.kind == kind;
      assert g in more;
    }
  }

  lemma TellsMore(hd: HostData, evidence: set<Finding>, f: Finding)
    requires Tells(hd, evidence)
    ensures Tells(Joined(hd, f), evidence + {f})
  {
    hide MaxOk; hide DstsOk; hide TimeOk; hide Joined;
    TimeMore(hd, evidence, f);
    forall kind
      ensures MaxOk(Joined(hd, f), evidence + {f}, kind) && DstsOk(Joined(hd, f), evidence + {f}, kind)
    {
      MaxMore(hd, evidence, f, kind);
      DstsMore(hd, evidence, f, kind);
    }
  }

  lemma EvidenceSnoc(findings: seq<Finding>, f: Finding, src: string)
    ensures Evidence(findings + [f], src) == Evidence(findings, src) + if Counts(f) && f.src == src then {f} else {}
  {
    hide Counts;
  }

  lemma TableSnoc(findings: seq<Finding>, f: Finding)
    ensures TableOf(findings + [f]) == Contribute(TableOf(findings), f)
  {
    hide Contribute;
    assert (findings + [f])[..|findings|] == findings;
  }

  /** The gathered data of every host describes its evidence and nothing else. */
  lemma {:induction false} TableTells(findings: seq<Finding>, src: string)
    ensures Tells(In(TableOf(findings), src), Evidence(findings, src))
    decreases |findings|
  {
    hide Tells; hide TableOf; hide Counts; hide Joined; hide Evidence;
    if findings == [] {
      BlankTells(src);
    } else {
      var init, f := findings[..|findings| - 1], findings[|findings| - 1];
      assert findings == init + [f];
      TableTells(init, src);
      TableSnoc(init, f);
      EvidenceSnoc(init, f, src);
      if Counts(f) && f.src == src {
        TellsMore(In(TableOf(init), src), Evidence(init, src), f);
      } else {
        assert Evidence(init, src) + {} == Evidence(init, src);
      }
    }
  }

  lemma BlankTells(src: string)
    ensures Tells(In(TableOf([]), src), Evidence([], src))
  {
  }

  /** The evidence decides the data. */
  lemma OneHostData(hd: HostData, hd': HostData, evidence: set<Finding>)
    requires Tells(hd, evidence) && Tells(hd', evidence)
    ensures hd == hd'
  {
    hide MaxOk; hide DstsOk; hide TimeOk;
    forall kind
      ensures kind in hd.maxes <==> kind in hd'.maxes
      ensures kind in hd.maxes ==> hd.maxes[kind] == hd'.maxes[kind]
      ensures kind in hd.dsts <==> kind in hd'.dsts
      ensures kind in hd.dsts ==> hd.dsts[kind] == hd'.dsts[kind]
    {
      assert MaxOk(hd, evidence, kind) && MaxOk(hd', evidence, kind) && DstsOk(hd, evidence, kind) && DstsOk(hd', evidence, kind);
      OneMax(hd, hd', evidence, kind);
      OneDsts(hd, hd', evidence, kind);
    }
    OneTime(hd, hd', evidence);
    assert hd.maxes == hd'.maxes && hd.dsts == hd'.dsts;
  }

  lemma OneMax(hd: HostData, hd': HostData, evidence: set<Finding>, kind: string)
    requires MaxOk(hd, evidence, kind) && MaxOk(hd', evidence, kind)
    ensures kind in hd.maxes <==> kind in hd'.maxes
    ensures kind in hd.maxes ==> hd.maxes[kind] == hd'.maxes[kind]
  {
  }

  lemma OneDsts(hd: HostData, hd': HostData, evidence: set<Finding>, kind: string)
    requires DstsOk(hd, evidence, kind) && DstsOk(hd', evidence, kind)
    ensures kind in hd.dsts <==> kind in hd'.dsts
    ensures kind in hd.dsts ==> hd.dsts[kind] == hd'.dsts[kind]
  {
  }

  lemma OneTime(hd: HostData, hd': HostData, evidence: set<Finding>)
    requires TimeOk(hd, evidence) && TimeOk(hd', evidence)
    ensures hd.firstTs == hd'.firstTs
  {
    hide Less;
    LessTotal(hd.firstTs, hd'.firstTs);
  }

  // ---- The composite ----

  function PointsOf(maths: Maths, hd: HostData): map<string, int> {
    map kind | kind in hd.maxes && Weight(kind) > 0 :: Points(maths, Weight(kind), hd.maxes[kind], |DstsOf(hd, kind)|)
  }

  ghost function Raw(maths: Maths, hd: HostData): int {
    Sum(PointsOf(maths, hd), hd.maxes.Keys)
  }

  /** A host's composite score over a list of findings. */
  ghost function Composite(maths: Maths, findings: seq<Finding>, src: string): int {
    DampenComposite(maths, Raw(maths, In(TableOf(findings), src)))
  }

  /** A finding without what the phase does not read: a stored copy has another id and other links. */
  function Unlabelled(f: Finding): Finding {
    Finding(0, f.kind, f.score, f.src, f.dst, "", "", "", "", "", f.timestamp, [])
  }

  function AllUnlabelled(findings: seq<Finding>): (r: seq<Finding>)
    ensures |r| == |findings| && forall i :: 0 <= i < |r| ==> r[i] == Unlabelled(findings[i])
  {
    seq(|findings|, i requires 0 <= i < |findings| => Unlabelled(findings[i]))
  }

  lemma {:induction false} LabelsUnread(findings: seq<Finding>)
    ensures TableOf(AllUnlabelled(findings)) == TableOf(findings)
    decreases |findings|
  {
    hide Joined;
    if findings != [] {
      var init, f := findings[..|findings| - 1], findings[|findings| - 1];
      LabelsUnread(init);
      assert AllUnlabelled(findings)[..|findings| - 1] == AllUnlabelled(init);
      JoinedUnlabelled(In(TableOf(init), f.src), f);
    }
  }

  lemma JoinedUnlabelled(hd: HostData, f: Finding)
    ensures Joined(hd, Unlabelled(f)) == Joined(hd, f)
  {
  }

  /** The same evidence is in the other list, under whatever id. */
  ghost predicate Within(findings: seq<Finding>, others: seq<Finding>) {
    forall f :: f in findings && !IsRollup(f.kind) ==> exists g :: g in others && Unlabelled(g) == Unlabelled(f)
  }

  /**
   Findings reordered, repeated, stored again under other ids, or joined by any roll-up
   rows give every host the same data and so the same composite.
   */
  lemma RollupsNeverFeed(maths: Maths, findings: seq<Finding>, again: seq<Finding>, src: string)
    requires Within(findings, again) && Within(again, findings)
    ensures In(TableOf(again), src) == In(TableOf(findings), src)
    ensures Composite(maths, again, src) == Composite(maths, findings, src)
  {
    hide TableOf; hide Tells; hide Raw; hide DampenComposite; hide In; hide Evidence;
    LabelsUnread(findings);
    LabelsUnread(again);
    var few, more := AllUnlabelled(findings), AllUnlabelled(again);
    TableTells(few, src);
    TableTells(more, src);
    SameEvidence(findings, again, src);
    SameEvidence(again, findings, src);
    assert Evidence(more, src) == Evidence(few, src);
    OneHostData(In(TableOf(more), src), In(TableOf(few), src), Evidence(few, src));
  }

  lemma SameEvidence(findings: seq<Finding>, others: seq<Finding>, src: string)
    requires Within(findings, others)
    ensures Evidence(AllUnlabelled(findings), src) <= Evidence(AllUnlabelled(others), src)
  {
    hide IsRollup;
    forall e | e in Evidence(AllUnlabelled(findings), src)
      ensures e in Evidence(AllUnlabelled(others), src)
    {
      var i :| 0 <= i < |findings| && AllUnlabelled(findings)[i] == e;
      assert findings[i] in findings && e.kind == findings[i].kind;
      var g :| g in others && Unlabelled(g) == Unlabelled(findings[i]);
      var j :| 0 <= j < |others| && others[j] == g;
      assert AllUnlabelled(others)[j] == e;
    }
  }

  lemma MaxGrows(hd: HostData, hd': HostData, evidence: set<Finding>, more: set<Finding>, kind: string)
    requires evidence <= more && MaxOk(hd, evidence, kind) && MaxOk(hd', more, kind)
    ensures kind in hd.maxes ==> kind in hd'.maxes && 0 < hd.maxes[kind] <= hd'.maxes[kind]
  {
  }

  lemma DstsGrow(hd: HostData, hd': HostData, evidence: set<Finding>, more: set<Finding>, kind: string)
    requires evidence <= more && DstsOk(hd, evidence, kind) && DstsOk(hd', more, kind)
    ensures |DstsOf(hd, kind)| <= |DstsOf(hd', kind)|
  {
    Subset(DstsOf(hd, kind), DstsOf(hd', kind));
  }

  lemma {:induction false} Subset(a: set<string>, b: set<string>)
    requires a <= b
    ensures |a| <= |b|
  {
    if a != {} {
      var x :| x in a;
      Subset(a - {x}, b - {x});
    }
  }

  lemma TermGrows(maths: Maths, hd: HostData, hd': HostData, evidence: set<Finding>, more: set<Finding>, kind: string)
    requires Monotone(maths) && Tells(hd, evidence) && Tells(hd', more) && evidence <= more
    ensures Term(PointsOf(maths, hd), kind) <= Term(PointsOf(maths, hd'), kind) && 0 <= Term(PointsOf(maths, hd'), kind)
    ensures kind in hd.maxes ==> kind in hd'.maxes
  {
    hide MaxOk; hide DstsOk; hide Weight; hide Points; hide Monotone; hide TimeOk;
    assert MaxOk(hd, evidence, kind) && MaxOk(hd', more, kind) && DstsOk(hd, evidence, kind) && DstsOk(hd', more, kind);
    MaxGrows(hd, hd', evidence, more, kind);
    MaxGrows(hd', hd', more, more, kind);
    DstsGrow(hd, hd', evidence, more, kind);
    if kind in hd'.maxes {
      PointsGrow(maths, Weight(kind), MaxOf(hd, kind), hd'.maxes[kind], |DstsOf(hd, kind)|, |DstsOf(hd', kind)|);
    }
  }

  /** More evidence never lowers a host's score. */
  lemma MoreEvidenceNeverLowers(maths: Maths, findings: seq<Finding>, more: seq<Finding>, src: string)
    requires Monotone(maths) && Within(findings, more)
    ensures 0 <= Composite(maths, findings, src) <= Composite(maths, more, src) <= 99
  {
    hide TableOf; hide Tells; hide DampenComposite; hide In; hide Monotone; hide PointsOf; hide Term; hide Evidence; hide Raw; hide Within;
    LabelsUnread(findings);
    LabelsUnread(more);
    var few, all := AllUnlabelled(findings), AllUnlabelled(more);
    var hd, hd' := In(TableOf(few), src), In(TableOf(all), src);
    TableTells(few, src);
    TableTells(all, src);
    SameEvidence(findings, more, src);
    RawGrows(maths, hd, hd', Evidence(few, src), Evidence(all, src));
    DampingKeepsOrder(maths, Raw(maths, hd), Raw(maths, hd'));
    DampingKeepsOrder(maths, 0, Raw(maths, hd));
    AtMost(maths, Raw(maths, hd'));
  }

  lemma RawGrows(maths: Maths, hd: HostData, hd': HostData, evidence: set<Finding>, more: set<Finding>)
    requires Monotone(maths) && Tells(hd, evidence) && Tells(hd', more) && evidence <= more
    ensures 0 <= Raw(maths, hd) <= Raw(maths, hd')
  {
    hide Tells; hide Monotone; hide PointsOf; hide Term; hide Sum;
    var points, points' := PointsOf(maths, hd), PointsOf(maths, hd');
    forall kind
      ensures Term(points, kind) <= Term(points', kind) && 0 <= Term(points, kind) && 0 <= Term(points', kind)
      ensures kind in hd.maxes ==> kind in hd'.maxes
    {
      TermGrows(maths, hd, hd', evidence, more, kind);
      TermGrows(maths, hd, hd, evidence, evidence, kind);
    }
    SumGrows(points, hd.maxes.Keys, points', hd'.maxes.Keys);
    SumGrows(points, {}, points, hd.maxes.Keys);
    EmptySum(points);
  }

  lemma EmptySum(points: map<string, int>)
    ensures Sum(points, {}) == 0
  {
  }

  lemma AtMost(maths: Maths, raw: int)
    ensures DampenComposite(maths, raw) <= 99
  {
  }

  // ---- The phase ----

  function RowFor(src: string, composite: int, firstTs: string): Finding {
    Finding(0, HOST_RISK, composite, src, "(network)", "", "", "", "", "", firstTs, [])
  }

  method Gather(recent: seq<Finding>, hist: seq<Finding>) returns (hosts: Table)
    ensures hosts == TableOf(recent + hist)
  {
    hide Contribute; hide TableOf;
    ghost var all := recent + hist;
    NoHosts();
    hosts := map[];
    assert all[..0] == [];
    for i := 0 to |recent|
      invariant hosts == TableOf(all[..i])
    {
      assert all[..i + 1] == all[..i] + [recent[i]];
      TableSnoc(all[..i], recent[i]);
      hosts := Contribute(hosts, recent[i]);
    }
    for i := 0 to |hist|
      invariant hosts == TableOf(all[..|recent| + i])
    {
      assert all[..|recent| + i + 1] == all[..|recent| + i] + [hist[i]];
      TableSnoc(all[..|recent| + i], hist[i]);
      hosts := Contribute(hosts, hist[i]);
    }
    assert all[..|all|] == all;
  }

  lemma NoHosts()
    ensures TableOf([]) == map[]
  {
  }

  /** The undamped composite, adding up the types in no particular order. */
  method AddPoints(maths: Maths, hd: HostData) returns (composite: int)
    ensures composite == Raw(maths, hd)
  {
    hide Weight; hide Points; hide Sum;
    ghost var points := PointsOf(maths, hd);
    composite := 0;
    var left := hd.maxes.Keys;
    while left != {}
      invariant left <= hd.maxes.Keys
      invariant composite + Sum(points, left) == Raw(maths, hd)
      decreases |left|
    {
      var kind :| kind in left;
      SumTakes(points, left, kind);
      if Weight(kind) > 0 {
        composite := composite + Points(maths, Weight(kind), hd.maxes[kind], |DstsOf(hd, kind)|);
      }
      left := left - {kind};
    }
    EmptySum(points);
  }

  predicate HasRow(rows: seq<Finding>, src: string) {
    exists i :: 0 <= i < |rows| && rows[i].src == src
  }

  /** One row for each host whose evidence earns points, with its damped composite and earliest time. */
  method AggregateRisk(maths: Maths, recent: seq<Finding>, hist: seq<Finding>) returns (rows: seq<Finding>)
    ensures forall i, j :: 0 <= i < j < |rows| ==> rows[i].src != rows[j].src
    ensures forall src :: HasRow(rows, src) <==> Raw(maths, In(TableOf(recent + hist), src)) != 0
    ensures forall i :: 0 <= i < |rows| ==>
      rows[i] == Finding(0, "Host Risk Score", Composite(maths, recent + hist, rows[i].src), rows[i].src, "(network)", "", "", "", "", "",
                         In(TableOf(recent + hist), rows[i].src).firstTs, [])
  {
    hide TableOf; hide Raw; hide DampenComposite;
    rows := [];
    var hosts := Gather(recent, hist);
    BlankRaw(maths);
    var left := hosts.Keys;
    while left != {}
      invariant left <= hosts.Keys
      invariant forall i, j :: 0 <= i < j < |rows| ==> rows[i].src != rows[j].src
      invariant forall i :: 0 <= i < |rows| ==>
        var src := rows[i].src;
        && src !in left && src in hosts && Raw(maths, hosts[src]) != 0
        && rows[i] == RowFor(src, DampenComposite(maths, Raw(maths, hosts[src])), hosts[src].firstTs)
      invariant forall src :: src in hosts && src !in left && Raw(maths, hosts[src]) != 0 ==> HasRow(rows, src)
      decreases |left|
    {
      var src :| src in left;
      left := left - {src};
      var composite := AddPoints(maths, hosts[src]);
      if composite == 0 {
        continue;
      }
      RowAdded(rows, RowFor(src, DampenComposite(maths, composite), hosts[src].firstTs));
      rows := rows + [RowFor(src, DampenComposite(maths, composite), hosts[src].firstTs)];
    }
  }

  lemma RowAdded(rows: seq<Finding>, row: Finding)
    ensures forall src :: HasRow(rows + [row], src) <==> HasRow(rows, src) || src == row.src
  {
    var more := rows + [row];
    assert more[|rows|] == row;
    forall src | HasRow(rows, src)
      ensures HasRow(more, src)
    {
      var i :| 0 <= i < |rows| && rows[i].src == src;
      assert more[i] == rows[i];
    }
  }

  lemma BlankRaw(maths: Maths)
    ensures Raw(maths, BLANK) == 0
  {
  }

  /** A row's time is the earliest any of the host's evidence carries. */
  lemma EarliestEvidence(findings: seq<Finding>, src: string, f: Finding)
    requires f in findings && Counts(f) && f.src == src && f.timestamp != ""
    ensures In(TableOf(findings), src).firstTs != "" && NotAfter(In(TableOf(findings), src).firstTs, f.timestamp)
  {
    hide TableOf; hide Counts; hide MaxOk; hide DstsOk; hide In; hide Less;
    TableTells(findings, src);
  }

  // ---- What earns a row, and how much ----

  /** The sources that stand for nobody, and the types that roll others up. */
  const PLACEHOLDERS: set<string> := {"", "(cert)", "(escalation)", "(network)"}
  const ROLLUPS: set<string> := {"Host Risk Score", "Correlated Activity", "Multi-Stage Beacon"}

  lemma CountsIff(f: Finding)
    ensures Counts(f) <==> f.src !in PLACEHOLDERS && f.kind !in ROLLUPS
  {
  }

  /** A row of this phase is never evidence for another. */
  lemma RowIsNoEvidence(src: string, composite: int, firstTs: string)
    ensures RowFor(src, composite, firstTs).kind in ROLLUPS && !Counts(RowFor(src, composite, firstTs))
  {
    CountsIff(RowFor(src, composite, firstTs));
  }

  /** A finding that earns points by itself. */
  predicate Scores(f: Finding) {
    f.src !in PLACEHOLDERS && f.kind !in ROLLUPS && Weight(f.kind) > 0 && f.score > 0
  }

  lemma {:induction false} SumOfNone(points: map<string, int>, kinds: set<string>)
    requires forall k :: k in kinds ==> Term(points, k) == 0
    ensures Sum(points, kinds) == 0
    decreases kinds
  {
    hide Term;
    if kinds != {} {
      var kind :| kind in kinds;
      SumTakes(points, kinds, kind);
      SumOfNone(points, kinds - {kind});
    }
  }

  /** Even one weak finding earns a point. */
  lemma PointsPositive(maths: Maths, weight: nat, maxScore: int, destinations: nat)
    requires Monotone(maths) && weight > 0 && maxScore > 0
    ensures Points(maths, weight, maxScore, destinations) > 0
  {
    PointsGrow(maths, weight, 0, maxScore, 0, destinations);
    PointsAtEnds(maths, weight, 0);
  }

  /** A host gets a row if and only if some finding of its own, named and no roll-up, is of a scoring type and above zero. */
  lemma RowIffScored(maths: Maths, findings: seq<Finding>, src: string)
    requires Monotone(maths)
    ensures Raw(maths, In(TableOf(findings), src)) > 0 <==> exists f :: f in findings && f.src == src && Scores(f)
    ensures Raw(maths, In(TableOf(findings), src)) >= 0
  {
    hide TableOf; hide In; hide Points; hide Weight; hide Monotone; hide Counts; hide TimeOk; hide DstsOk; hide Sum;
    TableTells(findings, src);
    var hd := In(TableOf(findings), src);
    var points := PointsOf(maths, hd);
    forall kind | kind in points
      ensures points[kind] > 0
    {
      assert MaxOk(hd, Evidence(findings, src), kind);
      PointsPositive(maths, Weight(kind), hd.maxes[kind], |DstsOf(hd, kind)|);
    }
    EmptySum(points);
    SumGrows(points, {}, points, hd.maxes.Keys);
    if f :| f in findings && f.src == src && Scores(f) {
      CountsIff(f);
      assert MaxOk(hd, Evidence(findings, src), f.kind);
      SumTakes(points, hd.maxes.Keys, f.kind);
      SumGrows(points, {}, points, hd.maxes.Keys - {f.kind});
    } else {
      forall kind | kind in hd.maxes.Keys
        ensures Term(points, kind) == 0
      {
        assert MaxOk(hd, Evidence(findings, src), kind);
        var f :| f in Evidence(findings, src) && f.kind == kind && f.score == hd.maxes[kind];
        CountsIff(f);
      }
      SumOfNone(points, hd.maxes.Keys);
    }
  }

  /** With evidence of one type, a host earns that type's points at its best score and its number of destinations. */
  lemma OneTypeEarns(maths: Maths, findings: seq<Finding>, src: string, best: Finding)
    requires best in Evidence(findings, src) && best.score > 0 && Weight(best.kind) > 0
    requires forall f :: f in Evidence(findings, src) ==> f.kind == best.kind && f.score <= best.score
    ensures Raw(maths, In(TableOf(findings), src))
         == Points(maths, Weight(best.kind), best.score, |set f | f in Evidence(findings, src) :: f.dst|)
  {
    hide TableOf; hide In; hide Points; hide Weight; hide TimeOk; hide Sum;
    TableTells(findings, src);
    var hd, evidence := In(TableOf(findings), src), Evidence(findings, src);
    assert MaxOk(hd, evidence, best.kind) && DstsOk(hd, evidence, best.kind);
    assert (set f | f in evidence && f.kind == best.kind :: f.dst) == set f | f in evidence :: f.dst;
    forall kind | kind in hd.maxes
      ensures kind == best.kind
    {
      assert MaxOk(hd, evidence, kind);
    }
    assert hd.maxes.Keys == {best.kind};
    var points := PointsOf(maths, hd);
    SumTakes(points, hd.maxes.Keys, best.kind);
    assert hd.maxes.Keys - {best.kind} == {};
    EmptySum(points);
  }

  lemma {:induction false} SumSplits(points: map<string, int>, one: map<string, int>, kinds: set<string>, two: map<string, int>, others: set<string>)
    requires kinds !! others
    requires forall k :: k in kinds ==> Term(points, k) == Term(one, k)
    requires forall k :: k in others ==> Term(points, k) == Term(two, k)
    ensures Sum(points, kinds + others) == Sum(one, kinds) + Sum(two, others)
    decreases kinds, others
  {
    hide Term;
    if k :| k in kinds {
      SumTakes(points, kinds + others, k);
      SumTakes(one, kinds, k);
      SumSplits(points, one, kinds - {k}, two, others);
      assert kinds + others - {k} == (kinds - {k}) + others;
    } else if k :| k in others {
      SumTakes(points, kinds + others, k);
      SumTakes(two, others, k);
      SumSplits(points, one, kinds, two, others - {k});
      assert kinds + others - {k} == kinds + (others - {k});
    } else {
      assert kinds + others == {} && kinds == {} && others == {};
      EmptySum(points);
      EmptySum(one);
      EmptySum(two);
    }
  }

  /** Evidence of different types adds up. */
  lemma TypesAdd(maths: Maths, findings: seq<Finding>, more: seq<Finding>, src: string)
    requires forall f, g :: f in Evidence(findings, src) && g in Evidence(more, src) ==> f.kind != g.kind
    ensures Raw(maths, In(TableOf(findings + more), src)) == Raw(maths, In(TableOf(findings), src)) + Raw(maths, In(TableOf(more), src))
  {
    hide TableOf; hide In; hide Points; hide Weight; hide PointsOf; hide Sum; hide Counts; hide Tells;
    TableTells(findings, src);
    TableTells(more, src);
    TableTells(findings + more, src);
    var hd, hd', both := In(TableOf(findings), src), In(TableOf(more), src), In(TableOf(findings + more), src);
    var e, e' := Evidence(findings, src), Evidence(more, src);
    assert Evidence(findings + more, src) == e + e' == e' + e;
    KindsKept(maths, hd, both, e, e');
    KindsKept(maths, hd', both, e', e);
    KindsJoined(hd, hd', both, e, e');
    SumSplits(PointsOf(maths, both), PointsOf(maths, hd), hd.maxes.Keys, PointsOf(maths, hd'), hd'.maxes.Keys);
  }

  /** Evidence of other types leaves a type's points alone. */
  lemma KindsKept(maths: Maths, hd: HostData, both: HostData, evidence: set<Finding>, others: set<Finding>)
    requires Tells(hd, evidence) && Tells(both, evidence + others)
    requires forall f, g :: f in evidence && g in others ==> f.kind != g.kind
    ensures forall kind :: kind in hd.maxes ==> kind in both.maxes && Term(PointsOf(maths, both), kind) == Term(PointsOf(maths, hd), kind)
  {
    hide Points; hide Weight; hide TimeOk; hide DstsOf; hide MaxOk; hide DstsOk;
    forall kind | kind in hd.maxes
      ensures kind in both.maxes && Term(PointsOf(maths, both), kind) == Term(PointsOf(maths, hd), kind)
    {
      KindSeen(hd, evidence, kind);
      OnlyKind(hd, both, evidence, others, kind);
    }
  }

  lemma KindSeen(hd: HostData, evidence: set<Finding>, kind: string)
    requires Tells(hd, evidence) && kind in hd.maxes
    ensures exists f :: f in evidence && f.kind == kind
  {
    hide TimeOk; hide DstsOk;
    assert MaxOk(hd, evidence, kind);
  }

  lemma KindsJoined(hd: HostData, hd': HostData, both: HostData, e: set<Finding>, e': set<Finding>)
    requires Tells(hd, e) && Tells(hd', e') && Tells(both, e + e')
    requires forall f, g :: f in e && g in e' ==> f.kind != g.kind
    ensures both.maxes.Keys == hd.maxes.Keys + hd'.maxes.Keys && hd.maxes.Keys !! hd'.maxes.Keys
  {
    hide Tells;
    forall kind
      ensures kind in both.maxes <==> kind in hd.maxes || kind in hd'.maxes
      ensures !(kind in hd.maxes && kind in hd'.maxes)
    {
      if kind in hd.maxes {
        KindSeen(hd, e, kind);
        OnlyKind(hd, both, e, e', kind);
      }
      if kind in hd'.maxes {
        KindSeen(hd', e', kind);
        assert e' + e == e + e';
        OnlyKind(hd', both, e', e, kind);
      }
      if kind in both.maxes {
        KindSeen(both, e + e', kind);
        if exists f :: f in e && f.kind == kind {
          OnlyKind(hd, both, e, e', kind);
        } else {
          assert e' + e == e + e';
          OnlyKind(hd', both, e', e, kind);
        }
      }
    }
  }

  predicate SameKind(hd: HostData, both: HostData, kind: string) {
    (kind in hd.maxes <==> kind in both.maxes) && MaxOf(hd, kind) == MaxOf(both, kind) && DstsOf(hd, kind) == DstsOf(both, kind)
  }

  lemma OnlyKind(hd: HostData, both: HostData, evidence: set<Finding>, others: set<Finding>, kind: string)
    requires Tells(hd, evidence) && Tells(both, evidence + others)
    requires !exists g :: g in others && g.kind == kind
    ensures SameKind(hd, both, kind)
  {
    hide TimeOk;
    assert MaxOk(hd, evidence, kind) && MaxOk(both, evidence + others, kind);
    assert DstsOk(hd, evidence, kind) && DstsOk(both, evidence + others, kind);
    assert (set f | f in evidence && f.kind == kind :: f.dst) == set f | f in evidence + others && f.kind == kind :: f.dst;
  }
}

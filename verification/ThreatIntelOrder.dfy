/** What the targeted sweep records does not depend on how the workers interleave. */
module ThreatIntelOrder {
  import opened Text
  import opened ThreatIntel

  predicate Match(c: Contact, t: Target, src: string) {
    c.target == t && c.src == src
  }

  /** The contacts of one source with one target. */
  function Matching(order: seq<Contact>, t: Target, src: string): (r: seq<Contact>)
    ensures forall c :: c in r <==> c in order && Match(c, t, src)
  {
    if order == [] then []
    else
      var c := order[|order| - 1];
      assert order == order[..|order| - 1] + [c];
      Matching(order[..|order| - 1], t, src) + if Match(c, t, src) then [c] else []
  }

  lemma {:induction false} MatchingCounts(order: seq<Contact>, t: Target, src: string, c: Contact)
    ensures multiset(Matching(order, t, src))[c] == if Match(c, t, src) then multiset(order)[c] else 0
  {
    if order != [] {
      MatchingCounts(order[..|order| - 1], t, src, c);
      assert order == order[..|order| - 1] + [order[|order| - 1]];
    }
  }

  lemma MatchingSize(order: seq<Contact>, order': seq<Contact>, t: Target, src: string)
    requires multiset(order) == multiset(order')
    ensures |Matching(order, t, src)| == |Matching(order', t, src)|
  {
    var m, m' := Matching(order, t, src), Matching(order', t, src);
    forall c
      ensures multiset(m)[c] == multiset(m')[c]
    {
      MatchingCounts(order, t, src, c);
      MatchingCounts(order', t, src, c);
    }
    assert multiset(m) == multiset(m');
    assert |multiset(m)| == |m| && |multiset(m')| == |m'|;
  }

  /** The sources' barriers: a later log is scanned only after the earlier ones. */
  predicate Barriered(order: seq<Contact>) {
    forall i, j :: 0 <= i < j < |order| ==> order[i].stage <= order[j].stage
  }

  function Lookup(table: Table, t: Target, src: string): Option<Observation> {
    if t in table && src in table[t] then Some(table[t][src]) else None
  }

  // ---- What an observation must be, from the contacts alone ----

  /** The earliest positive time, or zero when no contact carries one. */
  ghost predicate IsEarliest(ts: real, contacts: seq<Contact>) {
    && ts >= 0.0
    && (forall c :: c in contacts && c.ts > 0.0 ==> 0.0 < ts <= c.ts)
    && (ts == 0.0 || exists c :: c in contacts && c.ts == ts)
  }

  /** A negative time on the first contact is kept; otherwise the earliest positive one. */
  ghost predicate IsTime(ts: real, contacts: seq<Contact>) {
    contacts != [] && if contacts[0].ts < 0.0 then ts == contacts[0].ts else IsEarliest(ts, contacts)
  }

  ghost predicate FirstStage(stage: nat, contacts: seq<Contact>) {
    && (exists c :: c in contacts && c.stage == stage)
    && forall c :: c in contacts ==> stage <= c.stage
  }

  /** Encrypted traffic wins over plain connections; otherwise the first log that saw the pair names it. */
  ghost predicate IsLabel(proto: string, isIp: bool, contacts: seq<Contact>) {
    if isIp && exists c :: c in contacts && c.stage == SSL then proto == "ssl"
    else exists stage :: FirstStage(stage, contacts) && proto == Proto(stage)
  }

  ghost predicate Facts(o: Option<Observation>, contacts: seq<Contact>, isIp: bool) {
    && (o.None? <==> contacts == [])
    && (o.Some? ==> o.value.count == |contacts| && IsTime(o.value.ts, contacts) && IsLabel(o.value.proto, isIp, contacts)
                    && contacts[0].port == o.value.port && contacts[0].qtype == o.value.qtype)
  }

  lemma TimeMore(ts: real, contacts: seq<Contact>, c: Contact)
    requires IsTime(ts, contacts)
    ensures IsTime(if c.ts > 0.0 && (ts == 0.0 || c.ts < ts) then c.ts else ts, contacts + [c])
  {
    var more := contacts + [c];
    assert more[|contacts|] == c;
    forall d | d in contacts
      ensures d in more
    {
    }
    var ts' := if c.ts > 0.0 && (ts == 0.0 || c.ts < ts) then c.ts else ts;
    assert ts' == 0.0 || exists d :: d in more && d.ts == ts';
  }

  lemma LabelMore(proto: string, isIp: bool, contacts: seq<Contact>, c: Contact)
    requires contacts != [] && IsLabel(proto, isIp, contacts)
    requires forall d :: d in contacts ==> d.stage <= c.stage
    ensures IsLabel(if isIp && Proto(c.stage) == "ssl" && proto == "conn" then "ssl" else proto, isIp, contacts + [c])
  {
    var more := contacts + [c];
    assert more[|contacts|] == c;
    assert forall d :: d in more <==> d in contacts || d == c;
    ProtoNames(c.stage);
    if !(isIp && exists d :: d in contacts && d.stage == SSL) {
      var stage :| FirstStage(stage, contacts) && proto == Proto(stage);
      ProtoNames(stage);
      assert FirstStage(stage, more);
    }
  }

  lemma ProtoNames(stage: nat)
    ensures Proto(stage) == "ssl" <==> stage == SSL
    ensures Proto(stage) == "conn" <==> stage == CONN
  {
    assert "finding"[0] == 'f' && "conn"[0] == 'c' && "ssl"[0] == 's' && "dns"[0] == 'd' && "http"[0] == 'h';
  }

  lemma LabelFirst(isIp: bool, c: Contact)
    ensures IsLabel(Proto(c.stage), isIp, [c]) && IsTime(c.ts, [c])
  {
    assert [c][0] == c;
    assert FirstStage(c.stage, [c]);
  }

  lemma FactsMore(o: Option<Observation>, contacts: seq<Contact>, c: Contact)
    requires Facts(o, contacts, c.target.isIp)
    requires forall d :: d in contacts ==> d.stage <= c.stage
    ensures Facts(Some(if o.Some? then Again(o.value, c) else Observed(c)), contacts + [c], c.target.isIp)
  {
    hide IsTime; hide IsLabel; hide Proto;
    if o.Some? {
      TimeMore(o.value.ts, contacts, c);
      LabelMore(o.value.proto, c.target.isIp, contacts, c);
    } else {
      assert contacts + [c] == [c];
      LabelFirst(c.target.isIp, c);
    }
  }

  lemma NotedLookup(filter: Filter, table: Table, c: Contact, t: Target, src: string)
    ensures Lookup(Noted(filter, table, c), t, src) ==
      if Passes(filter, t) && src != "" && Match(c, t, src)
      then Some(if Lookup(table, t, src).Some? then Again(Lookup(table, t, src).value, c) else Observed(c))
      else Lookup(table, t, src)
  {
    hide Again; hide Observed;
  }

  lemma MatchingSnoc(order: seq<Contact>, c: Contact, t: Target, src: string)
    ensures Matching(order + [c], t, src) == Matching(order, t, src) + if Match(c, t, src) then [c] else []
  {
    assert (order + [c])[..|order|] == order;
  }

  /** Every recorded observation is determined by the contacts it stands for. */
  lemma {:induction false} RecordedFacts(filter: Filter, order: seq<Contact>, t: Target, src: string)
    requires Barriered(order) && Passes(filter, t) && src != ""
    ensures Facts(Lookup(AllNoted(filter, map[], order), t, src), Matching(order, t, src), t.isIp)
    decreases |order|
  {
    hide Noted; hide Facts; hide Matching; hide Again; hide Observed; hide AllNoted;
    if order == [] {
      NoFacts(filter, t, src);
    } else {
      var init, c := order[..|order| - 1], order[|order| - 1];
      assert order == init + [c];
      RecordedFacts(filter, init, t, src);
      MatchingSnoc(init, c, t, src);
      NotedSnoc(filter, map[], init, c);
      NotedLookup(filter, AllNoted(filter, map[], init), c, t, src);
      if Match(c, t, src) {
        FactsMore(Lookup(AllNoted(filter, map[], init), t, src), Matching(init, t, src), c);
      } else {
        assert Matching(init, t, src) + [] == Matching(init, t, src);
      }
    }
  }

  /** A contact that passes the filter leaves its source recorded, in whatever order the contacts arrive. */
  lemma {:induction false} ContactsRecorded(filter: Filter, order: seq<Contact>, c: Contact)
    requires c in order && Passes(filter, c.target) && c.src != ""
    ensures Lookup(AllNoted(filter, map[], order), c.target, c.src).Some?
    decreases |order|
  {
    hide Noted; hide AllNoted;
    var init, last := order[..|order| - 1], order[|order| - 1];
    assert order == init + [last];
    NotedSnoc(filter, map[], init, last);
    NotedLookup(filter, AllNoted(filter, map[], init), last, c.target, c.src);
    if last != c {
      ContactsRecorded(filter, init, c);
    }
  }

  lemma NoFacts(filter: Filter, t: Target, src: string)
    ensures Facts(Lookup(AllNoted(filter, map[], []), t, src), Matching([], t, src), t.isIp)
  {
  }

  lemma {:induction false} LosersUnrecorded(filter: Filter, order: seq<Contact>, t: Target)
    requires !Passes(filter, t)
    ensures t !in AllNoted(filter, map[], order)
    decreases |order|
  {
    if order != [] {
      LosersUnrecorded(filter, order[..|order| - 1], t);
    }
  }

  ghost predicate Lowest(c: Contact, contacts: seq<Contact>) {
    c in contacts && FirstStage(c.stage, contacts)
  }

  /** The first log to see the pair has no negative time of it, or one time only. */
  ghost predicate Steady(contacts: seq<Contact>) {
    || (forall c :: Lowest(c, contacts) ==> c.ts >= 0.0)
    || (forall c, d :: Lowest(c, contacts) && Lowest(d, contacts) ==> c.ts == d.ts)
  }

  /** The same contacts leave one count and one label, and when steady one time. */
  lemma FactsUnique(o: Option<Observation>, p: Option<Observation>, contacts: seq<Contact>, contacts': seq<Contact>, isIp: bool)
    requires Facts(o, contacts, isIp) && Facts(p, contacts', isIp)
    requires |contacts| == |contacts'| && forall c :: c in contacts <==> c in contacts'
    requires contacts != [] ==> Lowest(contacts[0], contacts) && Lowest(contacts'[0], contacts')
    ensures o.Some? == p.Some?
    ensures o.Some? ==> o.value.count == p.value.count && o.value.proto == p.value.proto
    ensures o.Some? && Steady(contacts) ==> o.value.ts == p.value.ts
  {
    hide Proto; hide IsTime; hide IsLabel; hide Steady; hide Lowest;
    if o.Some? {
      OneLabel(o.value.proto, p.value.proto, isIp, contacts, contacts');
      if Steady(contacts) {
        OneTime(o.value.ts, p.value.ts, contacts, contacts');
      }
    }
  }

  lemma OneTime(ts: real, ts': real, contacts: seq<Contact>, contacts': seq<Contact>)
    requires IsTime(ts, contacts) && IsTime(ts', contacts') && forall c :: c in contacts <==> c in contacts'
    requires Lowest(contacts[0], contacts) && Lowest(contacts'[0], contacts') && Steady(contacts)
    ensures ts == ts'
  {
    hide IsEarliest;
    assert Lowest(contacts'[0], contacts);
    if contacts[0].ts >= 0.0 {
      OneEarliest(ts, ts', contacts, contacts');
    }
  }

  lemma OneEarliest(ts: real, ts': real, contacts: seq<Contact>, contacts': seq<Contact>)
    requires IsEarliest(ts, contacts) && IsEarliest(ts', contacts') && forall c :: c in contacts <==> c in contacts'
    ensures ts == ts'
  {
  }

  lemma OneLabel(proto: string, proto': string, isIp: bool, contacts: seq<Contact>, contacts': seq<Contact>)
    requires IsLabel(proto, isIp, contacts) && IsLabel(proto', isIp, contacts') && forall c :: c in contacts <==> c in contacts'
    ensures proto == proto'
  {
    hide Proto;
    if !(isIp && exists c :: c in contacts && c.stage == SSL) {
      var stage :| FirstStage(stage, contacts) && proto == Proto(stage);
      var stage' :| FirstStage(stage', contacts') && proto' == Proto(stage');
      assert stage == stage';
    }
  }

  /** Log by log, the first contact of a pair is from the first log that saw it. */
  lemma {:induction false} FirstIsLowest(order: seq<Contact>, t: Target, src: string)
    requires Barriered(order)
    ensures Matching(order, t, src) != [] ==> Lowest(Matching(order, t, src)[0], Matching(order, t, src))
    decreases |order|
  {
    if order != [] {
      var init, c := order[..|order| - 1], order[|order| - 1];
      FirstIsLowest(init, t, src);
      assert order == init + [c];
      if Matching(init, t, src) != [] {
        var first := Matching(init, t, src)[0];
        assert first in init && first in Matching(order, t, src);
        assert forall d :: d in order ==> d in init || d == c;
      }
    }
  }

  /**
   The targeted sweep refines the one-phase collector: on every target that was hit the two
   record the same sources with the same counts, labels and, of a steady pair, times, whatever
   the interleavings, and the targeted sweep records nothing else.
   */
  lemma TwoPhaseRefinesOnePhase(winners: set<Target>, order: seq<Contact>, order': seq<Contact>, t: Target, src: string)
    requires Barriered(order) && Barriered(order') && multiset(order) == multiset(order') && src != ""
    ensures var two, one := Lookup(AllNoted(Only(winners), map[], order), t, src), Lookup(AllNoted(Everything, map[], order'), t, src);
      if t !in winners then two.None?
      else
        && two.Some? == one.Some?
        && (two.Some? ==> two.value.count == one.value.count && two.value.proto == one.value.proto)
        && (two.Some? && Steady(Matching(order, t, src)) ==> two.value.ts == one.value.ts)
  {
    hide AllNoted; hide Facts; hide Matching; hide Lowest; hide Steady;
    if t in winners {
      SameRecords(Only(winners), Everything, order, order', t, src);
    } else {
      LosersUnrecorded(Only(winners), order, t);
    }
  }

  lemma SameRecords(filter: Filter, filter': Filter, order: seq<Contact>, order': seq<Contact>, t: Target, src: string)
    requires Barriered(order) && Barriered(order') && multiset(order) == multiset(order') && src != ""
    requires Passes(filter, t) && Passes(filter', t)
    ensures var o, p := Lookup(AllNoted(filter, map[], order), t, src), Lookup(AllNoted(filter', map[], order'), t, src);
      && o.Some? == p.Some?
      && (o.Some? ==> o.value.count == p.value.count && o.value.proto == p.value.proto)
      && (o.Some? && Steady(Matching(order, t, src)) ==> o.value.ts == p.value.ts)
  {
    hide AllNoted; hide Facts; hide Matching; hide Lowest; hide Steady;
    RecordedFacts(filter, order, t, src);
    RecordedFacts(filter', order', t, src);
    SameMatches(order, order', t, src);
    FirstIsLowest(order, t, src);
    FirstIsLowest(order', t, src);
    FactsUnique(Lookup(AllNoted(filter, map[], order), t, src), Lookup(AllNoted(filter', map[], order'), t, src),
                Matching(order, t, src), Matching(order', t, src), t.isIp);
  }

  lemma SameMatches(order: seq<Contact>, order': seq<Contact>, t: Target, src: string)
    requires multiset(order) == multiset(order')
    ensures |Matching(order, t, src)| == |Matching(order', t, src)|
    ensures forall c :: c in Matching(order, t, src) <==> c in Matching(order', t, src)
  {
    MatchingSize(order, order', t, src);
    forall c
      ensures c in order <==> c in order'
    {
      assert c in multiset(order) <==> c in multiset(order');
    }
  }

  // ---- Exactly when the recorded time depends on the interleaving ----

  function TimeOf(filter: Filter, order: seq<Contact>, t: Target, src: string): Option<real> {
    var o := Lookup(AllNoted(filter, map[], order), t, src);
    if o.Some? then Some(o.value.ts) else None
  }

  /** An order the barriers allow for the same contacts. */
  ghost predicate Reordered(order: seq<Contact>, order': seq<Contact>) {
    Barriered(order') && multiset(order') == multiset(order)
  }

  lemma {:induction false} Unmatched(order: seq<Contact>, t: Target, src: string)
    ensures Matching(order, t, src) == [] <==> forall j :: 0 <= j < |order| ==> !Match(order[j], t, src)
  {
    if order != [] {
      Unmatched(order[..|order| - 1], t, src);
    }
  }

  /** The first contact of a pair in the list is the first one recorded. */
  lemma {:induction false} MatchingHead(order: seq<Contact>, t: Target, src: string, i: nat)
    requires i < |order| && Match(order[i], t, src) && forall j :: 0 <= j < i ==> !Match(order[j], t, src)
    ensures Matching(order, t, src) != [] && Matching(order, t, src)[0] == order[i]
    decreases |order|
  {
    var init := order[..|order| - 1];
    if i < |init| {
      MatchingHead(init, t, src, i);
    } else {
      Unmatched(init, t, src);
    }
  }

  /** Any contact of the lowest stage can come first. */
  lemma AnyLowestFirst(order: seq<Contact>, t: Target, src: string, b: Contact) returns (order': seq<Contact>)
    requires Barriered(order) && Lowest(b, Matching(order, t, src))
    ensures Reordered(order, order') && Matching(order', t, src) != [] && Matching(order', t, src)[0] == b
  {
    var i := FirstMatch(order, t, src);
    var j := IndexOf(order, b);
    assert i <= j;
    MatchingHead(order, t, src, i);
    FirstIsLowest(order, t, src);
    assert order[i].stage == order[j].stage;
    order' := Exchanged(order, i, j);
    MatchingHead(order', t, src, i);
  }

  lemma IndexOf(order: seq<Contact>, b: Contact) returns (j: nat)
    requires b in order
    ensures j < |order| && order[j] == b
  {
    j :| j < |order| && order[j] == b;
  }

  lemma {:induction false} FirstMatch(order: seq<Contact>, t: Target, src: string) returns (i: nat)
    requires Matching(order, t, src) != []
    ensures i < |order| && Match(order[i], t, src) && forall j :: 0 <= j < i ==> !Match(order[j], t, src)
    decreases |order|
  {
    var init := order[..|order| - 1];
    if Matching(init, t, src) != [] {
      i := FirstMatch(init, t, src);
    } else {
      i := |init|;
      Unmatched(init, t, src);
    }
  }

  /** Exchanging two contacts of one stage respects the barriers. */
  lemma Exchanged(order: seq<Contact>, i: nat, j: nat) returns (order': seq<Contact>)
    requires Barriered(order) && i <= j < |order| && order[i].stage == order[j].stage
    ensures Reordered(order, order') && order' == order[i := order[j]][j := order[i]]
  {
    order' := order[i := order[j]][j := order[i]];
  }

  /**
   The recorded time of a pair is the same in every order the barriers allow if and only if
   the first log that saw it has no negative time of it, or one time only.
   */
  lemma TimeIndependentOfOrderIff(filter: Filter, order: seq<Contact>, t: Target, src: string)
    requires Barriered(order) && Passes(filter, t) && src != ""
    ensures Steady(Matching(order, t, src)) <==>
      forall order' :: Reordered(order, order') ==> TimeOf(filter, order', t, src) == TimeOf(filter, order, t, src)
  {
    hide AllNoted; hide Matching; hide Barriered; hide Lookup;
    if Steady(Matching(order, t, src)) {
      forall order' | Reordered(order, order')
        ensures TimeOf(filter, order', t, src) == TimeOf(filter, order, t, src)
      {
        hide Steady;
        SameRecords(filter, filter, order, order', t, src);
      }
    } else {
      var order' := Otherwise(filter, order, t, src);
      assert Reordered(order, order');
    }
  }

  lemma Conflicting(contacts: seq<Contact>) returns (b: Contact)
    requires !Steady(contacts)
    ensures contacts != [] && Lowest(b, contacts) && b.ts != contacts[0].ts && (b.ts < 0.0 || contacts[0].ts < 0.0)
  {
    hide FirstStage;
    var c :| Lowest(c, contacts) && c.ts < 0.0;
    var d, e :| Lowest(d, contacts) && Lowest(e, contacts) && d.ts != e.ts;
    b := if contacts[0].ts >= 0.0 then c else if d.ts != contacts[0].ts then d else e;
  }

  lemma Otherwise(filter: Filter, order: seq<Contact>, t: Target, src: string) returns (order': seq<Contact>)
    requires Barriered(order) && Passes(filter, t) && src != "" && !Steady(Matching(order, t, src))
    ensures Reordered(order, order') && TimeOf(filter, order', t, src) != TimeOf(filter, order, t, src)
  {
    hide AllNoted; hide Matching; hide Barriered; hide Lookup; hide Lowest; hide IsLabel;
    FirstIsLowest(order, t, src);
    var m := Matching(order, t, src);
    var b := Conflicting(m);
    order' := AnyLowestFirst(order, t, src, b);
    RecordedFacts(filter, order, t, src);
    RecordedFacts(filter, order', t, src);
  }

  /** Two times of one pair in its first log, one of them negative: whichever contact comes first decides. */
  lemma NegativeTimeDependsOnOrder() returns (t: Target, a: Contact, b: Contact)
    ensures Barriered([a, b]) && Barriered([b, a]) && a.target == b.target == t && a.src == b.src == "s"
    ensures Lookup(AllNoted(Everything, map[], [a, b]), t, "s").Some? && Lookup(AllNoted(Everything, map[], [b, a]), t, "s").Some?
    ensures Lookup(AllNoted(Everything, map[], [a, b]), t, "s").value.ts != Lookup(AllNoted(Everything, map[], [b, a]), t, "s").value.ts
  {
    t := Target(true, "d");
    a, b := Contact(t, "s", CONN, "", "", "", -1.0), Contact(t, "s", CONN, "", "", "", 5.0);
    TwoNoted(t, a, b);
    TwoNoted(t, b, a);
  }

  lemma TwoNoted(t: Target, a: Contact, b: Contact)
    requires a.target == t && b.target == t && a.src == b.src == "s"
    ensures Lookup(AllNoted(Everything, map[], [a, b]), t, "s") == Some(Again(Observed(a), b))
  {
    assert [a, b] == [] + [a] + [b];
    NotedSnoc(Everything, map[], [], a);
    NotedSnoc(Everything, map[], [] + [a], b);
    NotedLookup(Everything, AllNoted(Everything, map[], []), a, t, "s");
    NotedLookup(Everything, AllNoted(Everything, map[], [] + [a]), b, t, "s");
  }
}

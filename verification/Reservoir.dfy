/** Algorithm R: the capped sample that beacon state keeps of an unbounded stream. */
module Reservoir {

  /** One item; `pick` is what the random source returned, at most `seen`. */
  function Added<T>(buf: seq<T>, seen: nat, v: T, cap: nat, pick: nat): (r: seq<T>)
    requires |buf| >= cap ==> pick <= seen
  {
    if |buf| < cap then buf + [v]
    else if pick < cap && pick < |buf| then buf[pick := v]
    else buf
  }

  method ReservoirAdd<T>(buf: seq<T>, seen: nat, v: T, cap: nat, pick: nat) returns (buf': seq<T>, seen': nat)
    requires |buf| <= cap && pick <= seen
    ensures buf' == Added(buf, seen, v, cap, pick) && seen' == seen + 1
    ensures |buf'| <= cap
  {
    buf' := buf;
    if |buf| < cap {
      buf' := buf' + [v];
    } else if pick < cap {
      buf' := buf'[pick := v];
    }
    seen' := seen + 1;
  }

  // ---- A whole stream ----

  /** The sample of the stream's positions after n items; `choices` are the picks made once it was full. */
  function Sample(cap: nat, n: nat, choices: seq<nat>): (s: seq<nat>)
    requires |choices| == if n <= cap then 0 else n - cap
    ensures |s| == if n <= cap then n else cap
    ensures forall i :: 0 <= i < |s| ==> s[i] < n
    decreases n
  {
    if n <= cap then seq(n, i => i)
    else
      var s := Sample(cap, n - 1, choices[..n - cap - 1]);
      var pick := choices[n - cap - 1];
      if pick < cap then s[pick := n - 1] else s
  }

  /** The buffer the program holds after a stream of values. */
  function Buffer<T>(cap: nat, xs: seq<T>, choices: seq<nat>): seq<T>
    requires ValidChoices(cap, |xs|, choices)
    decreases |xs|
  {
    var n := |xs|;
    if n == 0 then []
    else if n <= cap then Added(Buffer(cap, xs[..n - 1], []), n - 1, xs[n - 1], cap, 0)
    else
      var before := choices[..n - cap - 1];
      ChoicesPrefix(cap, n, choices);
      Added(Buffer(cap, xs[..n - 1], before), n - 1, xs[n - 1], cap, choices[n - cap - 1])
  }

  predicate ValidChoices(cap: nat, n: nat, choices: seq<nat>) {
    && |choices| == (if n <= cap then 0 else n - cap)
    && forall k :: 0 <= k < |choices| ==> choices[k] <= cap + k
  }

  lemma ChoicesPrefix(cap: nat, n: nat, choices: seq<nat>)
    requires ValidChoices(cap, n, choices) && n > cap
    ensures ValidChoices(cap, n - 1, choices[..n - cap - 1])
  {
  }

  /** The buffer always holds the values at the sampled positions. */
  lemma {:induction false} BufferHoldsSample<T>(cap: nat, xs: seq<T>, choices: seq<nat>)
    requires ValidChoices(cap, |xs|, choices)
    ensures var s := Sample(cap, |xs|, choices);
      |Buffer(cap, xs, choices)| == |s| && forall i :: 0 <= i < |s| ==> Buffer(cap, xs, choices)[i] == xs[s[i]]
    decreases |xs|
  {
    var n := |xs|;
    if n > 0 {
      if n <= cap {
        BufferHoldsSample(cap, xs[..n - 1], []);
      } else {
        ChoicesPrefix(cap, n, choices);
        BufferHoldsSample(cap, xs[..n - 1], choices[..n - cap - 1]);
      }
    }
  }

  predicate Distinct(s: seq<nat>) {
    forall i, j :: 0 <= i < j < |s| ==> s[i] != s[j]
  }

  /** No position is sampled twice, and nothing is dropped before the buffer is full. */
  lemma {:induction false} SampleDistinct(cap: nat, n: nat, choices: seq<nat>)
    requires |choices| == if n <= cap then 0 else n - cap
    ensures Distinct(Sample(cap, n, choices))
    decreases n
  {
    if n > cap {
      SampleDistinct(cap, n - 1, choices[..n - cap - 1]);
    }
  }

  lemma UnderCapKeepsAll<T>(cap: nat, xs: seq<T>)
    requires |xs| <= cap
    ensures Buffer(cap, xs, []) == xs
  {
    BufferHoldsSample(cap, xs, []);
  }

  // ---- Counting choice sequences ----

  function Factorial(n: nat): (f: nat)
    ensures f > 0
  {
    if n == 0 then 1 else n * Factorial(n - 1)
  }

  predicate Under(i: nat, n: nat) {
    i < n
  }

  function Below(n: nat): set<nat> {
    set i: nat | i < n && Under(i, n)
  }

  lemma {:induction false} BelowCount(n: nat)
    ensures |Below(n)| == n
  {
    if n > 0 {
      BelowCount(n - 1);
      assert Below(n) == Below(n - 1) + {n - 1};
    }
  }

  ghost function Extend(a: set<seq<nat>>, allowed: seq<nat> -> set<nat>): set<seq<nat>> {
    set ch, i | ch in a && i in allowed(ch) :: ch + [i]
  }

  /** Every sequence of picks for n items, each pick at most the number of items seen before it. */
  ghost function AllChoices(cap: nat, n: nat): set<seq<nat>> {
    if n <= cap then {[]} else Extend(AllChoices(cap, n - 1), _ => Below(n))
  }

  lemma {:induction false} AllChoicesValid(cap: nat, n: nat, choices: seq<nat>)
    ensures choices in AllChoices(cap, n) <==> ValidChoices(cap, n, choices)
    decreases n
  {
    if n > cap && |choices| > 0 {
      var k := |choices| - 1;
      assert choices == choices[..k] + [choices[k]];
      AllChoicesValid(cap, n - 1, choices[..k]);
      ExtendMember(AllChoices(cap, n - 1), _ => Below(n), choices);
    }
  }

  /** A continued sequence is one of the given ones with one allowed pick more. */
  lemma ExtendMember(a: set<seq<nat>>, allowed: seq<nat> -> set<nat>, s: seq<nat>)
    requires s != []
    ensures s in Extend(a, allowed) <==> s[..|s| - 1] in a && s[|s| - 1] in allowed(s[..|s| - 1])
  {
    var k := |s| - 1;
    assert s == s[..k] + [s[k]];
    if s in Extend(a, allowed) {
      var ch, i :| ch in a && i in allowed(ch) && s == ch + [i];
      assert s[..k] == ch;
    }
  }

  lemma {:induction false} OneFan(ch: seq<nat>, s: set<nat>)
    ensures |set i | i in s :: ch + [i]| == |s|
  {
    var fan := set i | i in s :: ch + [i];
    if s == {} {
      assert fan == {};
    } else {
      var x :| x in s;
      var rest := set i | i in s - {x} :: ch + [i];
      OneFan(ch, s - {x});
      assert fan == rest + {ch + [x]};
      forall i | i in s - {x} ensures ch + [i] != ch + [x] {
        assert (ch + [i])[|ch|] != (ch + [x])[|ch|];
      }
    }
  }

  lemma ExtendSplit(a: set<seq<nat>>, allowed: seq<nat> -> set<nat>, x: seq<nat>)
    requires x in a
    ensures |Extend(a, allowed)| == |Extend(a - {x}, allowed)| + |allowed(x)|
  {
    var fan := set i | i in allowed(x) :: x + [i];
    forall s | s in fan ensures s !in Extend(a - {x}, allowed) {
      ExtendMember(a - {x}, allowed, s);
      assert s[..|s| - 1] == x;
    }
    assert Extend(a, allowed) == Extend(a - {x}, allowed) + fan;
    OneFan(x, allowed(x));
  }

  lemma ExtendEmpty(allowed: seq<nat> -> set<nat>)
    ensures Extend({}, allowed) == {}
  {
  }

  /** When every sequence has k continuations, the extended set is k times as large. */
  lemma {:induction false} FanOut(a: set<seq<nat>>, allowed: seq<nat> -> set<nat>, k: nat)
    requires forall ch :: ch in a ==> |allowed(ch)| == k
    ensures |Extend(a, allowed)| == |a| * k
    decreases |a|
  {
    hide Extend;
    if a == {} {
      ExtendEmpty(allowed);
    } else {
      var x :| x in a;
      FanOut(a - {x}, allowed, k);
      ExtendSplit(a, allowed, x);
      AddedProduct(|Extend(a, allowed)|, |Extend(a - {x}, allowed)|, |a - {x}|, k);
    }
  }

  lemma AddedProduct(all: nat, most: nat, n: nat, k: nat)
    requires all == most + k && most == n * k
    ensures all == (n + 1) * k
  {
  }

  lemma {:induction false} ChoiceCount(cap: nat, n: nat)
    requires cap <= n
    ensures |AllChoices(cap, n)| * Factorial(cap) == Factorial(n)
    decreases n
  {
    if n > cap {
      ChoiceCount(cap, n - 1);
      BelowCount(n);
      FanOut(AllChoices(cap, n - 1), _ => Below(n), n);
      Regroup(|AllChoices(cap, n - 1)|, n, Factorial(cap));
    }
  }

  /** The choice sequences after which position j is in the sample. */
  ghost function Keeping(cap: nat, n: nat, j: nat): set<seq<nat>> {
    set ch | ch in AllChoices(cap, n) && Keeps(cap, n, j, ch)
  }

  ghost predicate Keeps(cap: nat, n: nat, j: nat, ch: seq<nat>) {
    ValidChoices(cap, n, ch) && j in Sample(cap, n, ch)
  }

  ghost function SlotOf(s: seq<nat>, j: nat): (k: nat)
    ensures j in s ==> k < |s| && s[k] == j
  {
    if j in s then var k :| 0 <= k < |s| && s[k] == j; k else 0
  }

  /** The picks after n items that leave position j where it is. */
  ghost function Sparing(cap: nat, n: nat, j: nat, ch: seq<nat>): set<nat> {
    if Keeps(cap, n, j, ch) then Below(n + 1) - {SlotOf(Sample(cap, n, ch), j)} else {}
  }

  lemma KeepsStep(cap: nat, n: nat, j: nat, ch: seq<nat>, i: nat)
    requires cap <= n && j <= n && ValidChoices(cap, n, ch) && i <= n
    ensures ValidChoices(cap, n + 1, ch + [i])
    ensures Keeps(cap, n + 1, j, ch + [i]) <==>
              if j == n then i < cap else i in Sparing(cap, n, j, ch)
  {
    var all := ch + [i];
    assert all[..n - cap] == ch;
    var s := Sample(cap, n, ch);
    SampleDistinct(cap, n, ch);
    var t := if i < cap then s[i := n] else s;
    assert Sample(cap, n + 1, all) == t;
    if j == n {
      assert i < cap ==> t[i] == j;
    } else if j in s {
      var k := SlotOf(s, j);
      assert i != k ==> t[k] == j;
      assert i == k ==> forall m :: 0 <= m < |t| ==> t[m] != j;
    }
  }

  lemma KeepingStep(cap: nat, n: nat, j: nat, s: seq<nat>)
    requires cap <= n && j <= n
    ensures s in Keeping(cap, n + 1, j) <==>
              if j == n then s in Extend(AllChoices(cap, n), _ => Below(cap))
              else s in Extend(Keeping(cap, n, j), ch => Sparing(cap, n, j, ch))
  {
    hide Sample;
    AllChoicesValid(cap, n + 1, s);
    if s == [] {
    } else {
      var k := |s| - 1;
      var ch, i := s[..k], s[k];
      assert s == ch + [i];
      AllChoicesValid(cap, n, ch);
      ExtendMember(AllChoices(cap, n), _ => Below(n + 1), s);
      ExtendMember(AllChoices(cap, n), _ => Below(cap), s);
      ExtendMember(Keeping(cap, n, j), ch => Sparing(cap, n, j, ch), s);
      if ch in AllChoices(cap, n) && i <= n {
        KeepsStep(cap, n, j, ch, i);
      }
    }
  }

  /** The newest position is kept by the picks below the capacity. */
  lemma NewestCount(cap: nat, n: nat)
    requires cap <= n
    ensures |Keeping(cap, n + 1, n)| == |AllChoices(cap, n)| * cap
  {
    hide AllChoices; hide Keeping; hide Extend;
    var kept, fan := Keeping(cap, n + 1, n), Extend(AllChoices(cap, n), _ => Below(cap));
    forall s ensures s in kept <==> s in fan {
      KeepingStep(cap, n, n, s);
    }
    assert kept == fan;
    BelowCount(cap);
    FanOut(AllChoices(cap, n), _ => Below(cap), cap);
  }

  /** An older position is kept by all picks but the one of its own slot. */
  lemma OlderCount(cap: nat, n: nat, j: nat)
    requires 1 <= cap <= n && j < n
    ensures |Keeping(cap, n + 1, j)| == |Keeping(cap, n, j)| * n
  {
    hide Extend; hide Sample;
    var allowed := ch => Sparing(cap, n, j, ch);
    var kept, fan := Keeping(cap, n + 1, j), Extend(Keeping(cap, n, j), allowed);
    forall s ensures s in kept <==> s in fan {
      KeepingStep(cap, n, j, s);
      assert allowed == (ch => Sparing(cap, n, j, ch));
    }
    assert kept == fan;
    BelowCount(n + 1);
    FanOut(Keeping(cap, n, j), allowed, n);
  }

  /**
   Algorithm R is unbiased: every position of the stream survives in the same
   number of choice sequences, cap * (n - 1)! / cap! of the n! / cap! there are.
   */
  lemma {:induction false} Unbiased(cap: nat, n: nat, j: nat)
    requires 1 <= cap <= n && j < n
    ensures |Keeping(cap, n, j)| * Factorial(cap) == cap * Factorial(n - 1)
    decreases n
  {
    hide Keeping;
    if n == cap {
      AllKept(cap, j);
    } else if j == n - 1 {
      NewestCount(cap, n - 1);
      ChoiceCount(cap, n - 1);
      Regroup(|AllChoices(cap, n - 1)|, cap, Factorial(cap));
    } else {
      Unbiased(cap, n - 1, j);
      OlderCount(cap, n - 1, j);
      Regroup(|Keeping(cap, n - 1, j)|, n - 1, Factorial(cap));
      Regroup(cap, n - 1, Factorial(n - 2));
    }
  }

  lemma AllKept(cap: nat, j: nat)
    requires j < cap
    ensures |Keeping(cap, cap, j)| == 1 && cap * Factorial(cap - 1) == Factorial(cap)
  {
    assert Sample(cap, cap, [])[j] == j;
    assert Keeping(cap, cap, j) == {[]};
  }

  lemma Regroup(a: nat, b: nat, c: nat)
    ensures a * b * c == b * (a * c) == a * (b * c)
  {
  }
}

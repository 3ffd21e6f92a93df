/** Host risk: one composite score per internal host, rolled up from its findings. */
module Risk {

  /** The exponential and the binary logarithm, known only to be monotone. */
  datatype Maths = Maths(exp: real -> real, log2: nat -> real)

  ghost predicate Monotone(maths: Maths) {
    && (forall x, y :: x <= y ==> maths.exp(x) <= maths.exp(y))
    && (forall x :: maths.exp(x) > 0.0)
    && maths.exp(0.0) == 1.0
    && (forall m, n :: 1 <= m <= n ==> maths.log2(m) <= maths.log2(n))
    && maths.log2(1) == 0.0
  }

  /** Halves round away from zero. */
  function Round(x: real): int {
    if x >= 0.0 then (x + 0.5).Floor else -((-x + 0.5).Floor)
  }

  lemma RoundMonotone(x: real, y: real)
    requires x <= y
    ensures Round(x) <= Round(y)
  {
  }

  // ---- Damping ----

  function Damped(maths: Maths, raw: int): real {
    75.0 + 24.0 * (1.0 - maths.exp(-((raw - 75) as real) / 50.0))
  }

  function DampenComposite(maths: Maths, raw: int): int {
    if raw <= 75 then raw
    else
      var rounded := Round(Damped(maths, raw));
      if rounded > 99 then 99 else rounded
  }

  lemma DampedBounds(maths: Maths, raw: int)
    requires Monotone(maths) && raw >= 75
    ensures 75.0 <= Damped(maths, raw) < 99.0
  {
    var x := -((raw - 75) as real) / 50.0;
    assert x <= 0.0;
    assert 0.0 < maths.exp(x) <= maths.exp(0.0);
  }

  /** Damping leaves scores up to 75 alone, keeps the order of the rest below 99, and never needs its last clamp. */
  lemma DampingKeepsOrder(maths: Maths, raw: int, more: int)
    requires Monotone(maths) && raw <= more
    ensures DampenComposite(maths, raw) <= DampenComposite(maths, more)
    ensures raw <= 75 ==> DampenComposite(maths, raw) == raw
    ensures raw > 75 ==> 75 <= DampenComposite(maths, raw) == Round(Damped(maths, raw)) <= 99
  {
    if raw > 75 {
      DampedBounds(maths, raw);
      DampedBounds(maths, more);
      var x, y := -((raw - 75) as real) / 50.0, -((more - 75) as real) / 50.0;
      assert y <= x;
      assert maths.exp(y) <= maths.exp(x);
      RoundMonotone(Damped(maths, raw), Damped(maths, more));
    } else if more > 75 {
      DampedBounds(maths, more);
    }
  }

  // ---- Weights ----

  /** What a finding type contributes; zero for the types that do not count. */
  function Weight(kind: string): nat {
    if kind == "Beacon" || kind == "Port-Hopping Beacon" || kind == "DNS Beacon" then 30
    else if kind == "HTTP Beacon" then 28
    else if kind == "Cobalt Strike URI" || kind == "Malicious JA3" || kind == "Malicious JA4" then 40
    else if kind == "C2 URI Pattern" then 38
    else if kind == "Domain Fronting" then 32
    else if kind == "TI Hit (IP)" || kind == "TI Hit (Domain)" || kind == "TI Hit (Hash)" || kind == "Threat Intel Hit" then 35
    else if kind == "DNS Tunneling" then 35
    else if kind == "Data Exfiltration" || kind == "Suspicious File Download" || kind == "Protocol on Unexpected Port" then 25
    else if kind == "Lateral Movement" || kind == "Suspicious Certificate" || kind == "Admin Protocol Egress" then 20
    else if kind == "Strobe" || kind == "SSL No-SNI" then 15
    else if kind == "Long Connection" then 10
    else if kind == "DNS NXDOMAIN Flood" || kind == "DoH Bypass" then 18
    else if kind == "DNS Subdomain DGA" || kind == "C2 Port" || kind == "Database Protocol Egress" then 22
    else if kind == "SSL No-SNI on C2 Port" || kind == "Suspicious URL" then 30
    else if kind == "Suspicious UA" then 12
    else 0
  }

  /** How many destinations a type touched, on a logarithmic scale up to threefold. */
  function Multiplier(maths: Maths, destinations: nat): real {
    var n := if destinations < 1 then 1 else destinations;
    var spread := 1.0 + 0.5 * maths.log2(n);
    if spread > 3.0 then 3.0 else spread
  }

  function Scale(maxScore: int): real {
    0.5 + 0.5 * maxScore as real / 100.0
  }

  function Product(w: real, a: real, c: real): real {
    w * a * c
  }

  /** A type's points: its weight, scaled by its best score and by its spread. */
  function Points(maths: Maths, weight: nat, maxScore: int, destinations: nat): int {
    Round(Product(weight as real, Scale(maxScore), Multiplier(maths, destinations)))
  }

  lemma ProductsGrow(w: real, a: real, b: real, c: real, d: real)
    requires 0.0 <= w && 0.0 <= a <= b && 0.0 <= c <= d
    ensures 0.0 <= Product(w, a, c) <= Product(w, b, d)
  {
    assert 0.0 <= w * a <= w * b;
    Times(w * a, w * b, c);
    Times(c, d, w * b);
  }

  lemma Times(x: real, y: real, z: real)
    requires 0.0 <= x <= y && 0.0 <= z
    ensures 0.0 <= x * z <= y * z
  {
  }

  lemma MultiplierGrows(maths: Maths, destinations: nat, more: nat)
    requires Monotone(maths) && destinations <= more
    ensures 1.0 <= Multiplier(maths, destinations) <= Multiplier(maths, more) <= 3.0
  {
    var n, m := if destinations < 1 then 1 else destinations, if more < 1 then 1 else more;
    assert 0.0 == maths.log2(1) <= maths.log2(n) <= maths.log2(m);
  }

  lemma PointsGrow(maths: Maths, weight: nat, maxScore: int, better: int, destinations: nat, more: nat)
    requires Monotone(maths) && 0 <= maxScore <= better && destinations <= more
    ensures 0 <= Points(maths, weight, maxScore, destinations) <= Points(maths, weight, better, more)
  {
    assert 0.0 <= Scale(maxScore) <= Scale(better);
    MultiplierGrows(maths, destinations, more);
    hide Scale; hide Multiplier; hide Product; hide Round; hide Monotone;
    var w := weight as real;
    ProductsGrow(w, Scale(maxScore), Scale(better), Multiplier(maths, destinations), Multiplier(maths, more));
    RoundMonotone(Product(w, Scale(maxScore), Multiplier(maths, destinations)), Product(w, Scale(better), Multiplier(maths, more)));
    RoundMonotone(0.0, Product(w, Scale(maxScore), Multiplier(maths, destinations)));
    RoundZero();
  }

  lemma RoundZero()
    ensures Round(0.0) == 0
  {
  }

  /** One destination counts once, two half as much again, and however many at most threefold. */
  lemma SpreadSteps(maths: Maths, destinations: nat)
    requires Monotone(maths)
    ensures destinations <= 1 ==> Multiplier(maths, destinations) == 1.0
    ensures destinations >= 1 && maths.log2(destinations) == 1.0 ==> Multiplier(maths, destinations) == 1.5
    ensures destinations >= 1 && maths.log2(destinations) >= 4.0 ==> Multiplier(maths, destinations) == 3.0
  {
  }

  /**
   A type at its best with one destination earns its weight, without any score half of it,
   and with the widest spread three times its weight.
   */
  lemma PointsAtEnds(maths: Maths, weight: nat, destinations: nat)
    requires Monotone(maths)
    ensures destinations <= 1 ==> Points(maths, weight, 100, destinations) == weight
    ensures destinations <= 1 ==> Points(maths, weight, 0, destinations) == (weight + 1) / 2
    ensures destinations >= 1 && maths.log2(destinations) == 1.0 ==> Points(maths, weight, 100, destinations) == (3 * weight + 1) / 2
    ensures destinations >= 1 && maths.log2(destinations) >= 4.0 ==> Points(maths, weight, 100, destinations) == 3 * weight
  {
    SpreadSteps(maths, destinations);
    hide Multiplier; hide Monotone;
    var w := weight as real;
    assert Scale(100) == 1.0 && Scale(0) == 0.5;
    RoundHalf(weight);
    RoundHalf(3 * weight);
    RoundWhole(weight);
    RoundWhole(3 * weight);
    assert (3 * weight) as real == 3.0 * w;
  }

  lemma RoundWhole(n: nat)
    ensures Round(n as real) == n && Round(-(n as real)) == 0 - n
  {
  }

  lemma RoundHalf(n: nat)
    ensures Round(n as real * 0.5) == (n + 1) / 2
  {
    var half := n as real * 0.5;
    if n % 2 == 0 {
      assert half == (n / 2) as real;
    } else {
      assert half == (n / 2) as real + 0.5;
    }
  }

  /** Above 75 what is missing to 99 shrinks by the exponential of the excess. */
  lemma DampedApproaches(maths: Maths, raw: int)
    requires Monotone(maths)
    ensures 99.0 - Damped(maths, raw) == 24.0 * maths.exp((75 - raw) as real / 50.0)
    ensures Damped(maths, 75) == 75.0
  {
    assert -((raw - 75) as real) / 50.0 == (75 - raw) as real / 50.0;
  }

  // ---- Sums over types ----

  function Term(points: map<string, int>, kind: string): int {
    if kind in points then points[kind] else 0
  }

  ghost function Sum(points: map<string, int>, kinds: set<string>): int {
    if kinds == {} then 0
    else
      var kind :| kind in kinds;
      Term(points, kind) + Sum(points, kinds - {kind})
  }

  /** Which type is taken first does not matter. */
  lemma {:induction false} SumTakes(points: map<string, int>, kinds: set<string>, kind: string)
    requires kind in kinds
    ensures Sum(points, kinds) == Term(points, kind) + Sum(points, kinds - {kind})
    decreases kinds
  {
    hide Term;
    var first :| first in kinds && Sum(points, kinds) == Term(points, first) + Sum(points, kinds - {first});
    if first != kind {
      SumTakes(points, kinds - {first}, kind);
      SumTakes(points, kinds - {kind}, first);
      assert kinds - {first} - {kind} == kinds - {kind} - {first};
    }
  }

  lemma {:induction false} SumGrows(points: map<string, int>, kinds: set<string>, more: map<string, int>, all: set<string>)
    requires kinds <= all
    requires forall k :: k in kinds ==> Term(points, k) <= Term(more, k)
    requires forall k :: k in all ==> 0 <= Term(more, k)
    ensures Sum(points, kinds) <= Sum(more, all)
    decreases all
  {
    hide Term;
    if all != {} {
      var kind :| kind in all;
      SumTakes(more, all, kind);
      if kind in kinds {
        SumTakes(points, kinds, kind);
        SumGrows(points, kinds - {kind}, more, all - {kind});
      } else {
        SumGrows(points, kinds, more, all - {kind});
      }
    }
  }
}

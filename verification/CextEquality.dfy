/**
 Equality of C-extension values. Values live in a table and refer to each other by handle,
 so arrays and hashes form a graph; the comparison carries a depth limit because that
 graph may be cyclic.
 */
module CextEquality {
  import opened Common

  /** The value classes of IEEE 754 binary64 that its equality can tell apart. */
  datatype F64 = NaN(payload: nat) | PosInf | NegInf | NegZero | Finite(r: real)

  predicate IeeeEq(x: F64, y: F64) {
    !x.NaN? && !y.NaN? && Unsigned(x) == Unsigned(y)
  }

  function Unsigned(x: F64): F64 {
    if x.NegZero? then Finite(0.0) else x
  }

  type Handle = nat

  datatype CValue =
    | Nil
    | True
    | False
    | Str(bytes: seq<nat>)
    | Int(n: int)
    | Float(f: F64)
    | Class(name: string)
    | Array(elems: seq<Handle>)
    | Hash(pairs: seq<(Handle, Handle)>)
    | BlockRef(id: nat)
    | Symbol(name: string)
    | HeapRef(id: nat)

  type Table = seq<CValue>

  /** Out-of-range handles read as nil. */
  function Resolve(t: Table, h: Handle): CValue {
    if h < |t| then t[h] else Nil
  }

  const MAX_DEPTH: nat := 256

  /** Comparison of values that hold no handles. */
  predicate LeafEq(x: CValue, y: CValue) {
    match (x, y)
    case (Nil, Nil) => true
    case (True, True) => true
    case (False, False) => true
    case (Str(a), Str(b)) => a == b
    case (Int(a), Int(b)) => a == b
    case (Float(a), Float(b)) => IeeeEq(a, b)
    case _ => false
  }

  /** `cvalue_eq_d`: handle identity first, then content, giving up at the depth limit. */
  predicate EqAt(t: Table, a: Handle, b: Handle, depth: nat)
    decreases MAX_DEPTH - depth, 0
  {
    a == b ||
    (depth < MAX_DEPTH &&
     match (Resolve(t, a), Resolve(t, b))
     case (Array(x), Array(y)) =>
       |x| == |y| && forall i | 0 <= i < |x| :: EqAt(t, x[i], y[i], depth + 1)
     case (Hash(x), Hash(y)) =>
       |x| == |y| && forall i | 0 <= i < |x| :: FoundAt(t, x[i], y, depth + 1)
     case (x, y) => LeafEq(x, y))
  }

  /** Some pair of `y` matches `p`. */
  predicate FoundAt(t: Table, p: (Handle, Handle), y: seq<(Handle, Handle)>, depth: nat)
    decreases MAX_DEPTH - depth, 2
  {
    exists j | 0 <= j < |y| :: PairEqAt(t, p, y[j], depth)
  }

  predicate PairEqAt(t: Table, p: (Handle, Handle), q: (Handle, Handle), depth: nat)
    decreases MAX_DEPTH - depth, 1
  {
    EqAt(t, p.0, q.0, depth) && EqAt(t, p.1, q.1, depth)
  }

  predicate Eq(t: Table, a: Handle, b: Handle) {
    EqAt(t, a, b, 0)
  }

  // ---- acyclic tables ----

  predicate Refers(v: CValue, h: Handle) {
    match v
    case Array(xs) => h in xs
    case Hash(ps) => exists i | 0 <= i < |ps| :: ps[i].0 == h || ps[i].1 == h
    case _ => false
  }

  /** How deep the value at `h` nests, as far as `rank` knows. */
  function Rank(rank: seq<nat>, h: Handle): nat {
    if h < |rank| then rank[h] else 0
  }

  /** Every handle ranks above the handles it refers to; such a ranking exists exactly for acyclic tables. */
  ghost predicate Ranked(t: Table, rank: seq<nat>) {
    forall h, c :: Refers(Resolve(t, h), c) ==> Rank(rank, c) < Rank(rank, h)
  }

  lemma ElemRank(t: Table, rank: seq<nat>, h: Handle, i: nat)
    requires Ranked(t, rank) && Resolve(t, h).Array? && i < |Resolve(t, h).elems|
    ensures Rank(rank, Resolve(t, h).elems[i]) < Rank(rank, h)
  {
    assert Refers(Resolve(t, h), Resolve(t, h).elems[i]);
  }

  lemma PairRank(t: Table, rank: seq<nat>, h: Handle, i: nat)
    requires Ranked(t, rank) && Resolve(t, h).Hash? && i < |Resolve(t, h).pairs|
    ensures Rank(rank, Resolve(t, h).pairs[i].0) < Rank(rank, h)
    ensures Rank(rank, Resolve(t, h).pairs[i].1) < Rank(rank, h)
  {
    assert Refers(Resolve(t, h), Resolve(t, h).pairs[i].0);
    assert Refers(Resolve(t, h), Resolve(t, h).pairs[i].1);
  }

  /** Structural equality without a depth limit. */
  ghost predicate SameValue(t: Table, rank: seq<nat>, a: Handle, b: Handle)
    requires Ranked(t, rank)
    decreases Rank(rank, a), 0
  {
    a == b ||
    match (Resolve(t, a), Resolve(t, b))
    case (Array(x), Array(y)) =>
      |x| == |y| && forall i | 0 <= i < |x| :: (ElemRank(t, rank, a, i); SameValue(t, rank, x[i], y[i]))
    case (Hash(x), Hash(y)) =>
      |x| == |y| && forall i | 0 <= i < |x| :: (PairRank(t, rank, a, i); Found(t, rank, x[i], y))
    case (x, y) => LeafEq(x, y)
  }

  ghost predicate Found(t: Table, rank: seq<nat>, p: (Handle, Handle), y: seq<(Handle, Handle)>)
    requires Ranked(t, rank)
    decreases Max(Rank(rank, p.0), Rank(rank, p.1)), 2
  {
    exists j | 0 <= j < |y| :: SamePair(t, rank, p, y[j])
  }

  ghost predicate SamePair(t: Table, rank: seq<nat>, p: (Handle, Handle), q: (Handle, Handle))
    requires Ranked(t, rank)
    decreases Max(Rank(rank, p.0), Rank(rank, p.1)), 1
  {
    SameValue(t, rank, p.0, q.0) && SameValue(t, rank, p.1, q.1)
  }

  /** Below the limit the depth-limited comparison is structural equality. */
  lemma {:induction false} EqIsSameValue(t: Table, rank: seq<nat>, a: Handle, b: Handle, depth: nat)
    requires Ranked(t, rank) && depth + Rank(rank, a) < MAX_DEPTH
    ensures EqAt(t, a, b, depth) <==> SameValue(t, rank, a, b)
    decreases Rank(rank, a)
  {
    if a != b {
      match (Resolve(t, a), Resolve(t, b))
      case (Array(x), Array(y)) =>
        if |x| == |y| {
          forall i | 0 <= i < |x| ensures EqAt(t, x[i], y[i], depth + 1) <==> SameValue(t, rank, x[i], y[i]) {
            ElemRank(t, rank, a, i);
            EqIsSameValue(t, rank, x[i], y[i], depth + 1);
          }
        }
      case (Hash(x), Hash(y)) =>
        if |x| == |y| {
          forall i | 0 <= i < |x| ensures FoundAt(t, x[i], y, depth + 1) <==> Found(t, rank, x[i], y) {
            PairRank(t, rank, a, i);
            forall j | 0 <= j < |y| ensures PairEqAt(t, x[i], y[j], depth + 1) <==> SamePair(t, rank, x[i], y[j]) {
              EqIsSameValue(t, rank, x[i].0, y[j].0, depth + 1);
              EqIsSameValue(t, rank, x[i].1, y[j].1, depth + 1);
            }
          }
        }
      case _ =>
    }
  }

  /** At any depth the limit only loses equalities: what compares as equal is structurally equal. */
  lemma {:induction false} EqImpliesSameValue(t: Table, rank: seq<nat>, a: Handle, b: Handle, depth: nat)
    requires Ranked(t, rank) && EqAt(t, a, b, depth)
    ensures SameValue(t, rank, a, b)
    decreases Rank(rank, a)
  {
    if a != b {
      match (Resolve(t, a), Resolve(t, b))
      case (Array(x), Array(y)) =>
        forall i | 0 <= i < |x| ensures SameValue(t, rank, x[i], y[i]) {
          ElemRank(t, rank, a, i);
          EqImpliesSameValue(t, rank, x[i], y[i], depth + 1);
        }
      case (Hash(x), Hash(y)) =>
        forall i | 0 <= i < |x| ensures Found(t, rank, x[i], y) {
          PairRank(t, rank, a, i);
          assert FoundAt(t, x[i], y, depth + 1);
          var j :| 0 <= j < |y| && PairEqAt(t, x[i], y[j], depth + 1);
          EqImpliesSameValue(t, rank, x[i].0, y[j].0, depth + 1);
          EqImpliesSameValue(t, rank, x[i].1, y[j].1, depth + 1);
          assert SamePair(t, rank, x[i], y[j]);
        }
      case _ =>
    }
  }

  // ---- an equivalence ----

  /** No hash has two equal keys. */
  ghost predicate WellKeyed(t: Table, rank: seq<nat>)
    requires Ranked(t, rank)
  {
    forall h, i, j ::
      Resolve(t, h).Hash? && 0 <= i < |Resolve(t, h).pairs| && 0 <= j < |Resolve(t, h).pairs| && i != j ==>
        !SameValue(t, rank, Resolve(t, h).pairs[i].0, Resolve(t, h).pairs[j].0)
  }

  lemma {:induction false} SameValueTransitive(t: Table, rank: seq<nat>, a: Handle, b: Handle, c: Handle)
    requires Ranked(t, rank) && SameValue(t, rank, a, b) && SameValue(t, rank, b, c)
    ensures SameValue(t, rank, a, c)
    decreases Rank(rank, a)
  {
    if a != b && b != c && a != c {
      match (Resolve(t, a), Resolve(t, b), Resolve(t, c))
      case (Array(x), Array(y), Array(z)) =>
        forall i | 0 <= i < |x| ensures SameValue(t, rank, x[i], z[i]) {
          ElemRank(t, rank, a, i);
          SameValueTransitive(t, rank, x[i], y[i], z[i]);
        }
      case (Hash(x), Hash(y), Hash(z)) =>
        forall i | 0 <= i < |x|
          ensures Found(t, rank, x[i], z)
        {
          PairRank(t, rank, a, i);
          assert Found(t, rank, x[i], y);
          var j :| 0 <= j < |y| && SamePair(t, rank, x[i], y[j]);
          assert Found(t, rank, y[j], z);
          var k :| 0 <= k < |z| && SamePair(t, rank, y[j], z[k]);
          SameValueTransitive(t, rank, x[i].0, y[j].0, z[k].0);
          SameValueTransitive(t, rank, x[i].1, y[j].1, z[k].1);
          assert SamePair(t, rank, x[i], z[k]);
        }
      case _ =>
    }
  }

  function UpTo(n: nat): (s: set<nat>)
    ensures |s| == n && forall i: nat :: i in s <==> i < n
  {
    if n == 0 then {} else UpTo(n - 1) + {n - 1}
  }

  function Elements(f: seq<nat>): (s: set<nat>)
    ensures forall x :: x in s <==> x in f
  {
    set x | x in f
  }

  lemma {:induction false} DistinctElements(f: seq<nat>)
    requires forall i, k | 0 <= i < k < |f| :: f[i] != f[k]
    ensures |Elements(f)| == |f|
  {
    if f == [] {
    } else {
      DistinctElements(Front(f));
      assert f == Front(f) + [Last(f)];
      assert Elements(f) == Elements(Front(f)) + {Last(f)};
      assert forall i | 0 <= i < |Front(f)| :: Front(f)[i] == f[i];
    }
  }

  lemma {:induction false} SubsetSize(a: set<nat>, b: set<nat>)
    requires a <= b
    ensures |a| <= |b|
  {
    if a != {} {
      var x :| x in a;
      SubsetSize(a - {x}, b - {x});
    }
  }

  /** An injection of `0..n` into itself reaches every number. */
  lemma Pigeonhole(f: seq<nat>, j: nat)
    requires forall i | 0 <= i < |f| :: f[i] < |f|
    requires forall i, k | 0 <= i < k < |f| :: f[i] != f[k]
    requires j < |f|
    ensures j in f
  {
    DistinctElements(f);
    if j !in f {
      SubsetSize(Elements(f), UpTo(|f|) - {j});
    }
  }

  /** Equality is symmetric; on hashes because distinct keys make the matching of pairs one-to-one. */
  lemma {:induction false} SameValueSymmetric(t: Table, rank: seq<nat>, a: Handle, b: Handle)
    requires Ranked(t, rank) && WellKeyed(t, rank) && SameValue(t, rank, a, b)
    ensures SameValue(t, rank, b, a)
    decreases Rank(rank, a)
  {
    if a != b {
      match (Resolve(t, a), Resolve(t, b))
      case (Array(x), Array(y)) =>
        forall i | 0 <= i < |y| ensures SameValue(t, rank, y[i], x[i]) {
          ElemRank(t, rank, a, i);
          SameValueSymmetric(t, rank, x[i], y[i]);
        }
      case (Hash(x), Hash(y)) =>
        var f := Matching(t, rank, a, b);
        forall j | 0 <= j < |y|
          ensures Found(t, rank, y[j], x)
        {
          Pigeonhole(f, j);
          var i :| 0 <= i < |f| && f[i] == j;
          PairRank(t, rank, a, i);
          SameValueSymmetric(t, rank, x[i].0, y[j].0);
          SameValueSymmetric(t, rank, x[i].1, y[j].1);
          assert SamePair(t, rank, y[j], x[i]);
        }
      case _ =>
    }
  }

  /** The pairs of `a` match distinct pairs of `b`. */
  lemma {:induction false} Matching(t: Table, rank: seq<nat>, a: Handle, b: Handle) returns (f: seq<nat>)
    requires Ranked(t, rank) && WellKeyed(t, rank) && a != b && SameValue(t, rank, a, b)
    requires Resolve(t, a).Hash? && Resolve(t, b).Hash?
    ensures var (x, y) := (Resolve(t, a).pairs, Resolve(t, b).pairs);
            && |f| == |x| == |y|
            && (forall i | 0 <= i < |f| :: f[i] < |y| && SamePair(t, rank, x[i], y[f[i]]))
            && (forall i, k | 0 <= i < k < |f| :: f[i] != f[k])
    decreases Rank(rank, a), 1
  {
    hide SameValue, SamePair, WellKeyed, Ranked, Resolve;
    var x, y := Resolve(t, a).pairs, Resolve(t, b).pairs;
    f := [];
    SameLength(t, rank, a, b);
    while |f| < |x|
      invariant |f| <= |x|
      invariant forall i | 0 <= i < |f| :: f[i] < |y| && SamePair(t, rank, x[i], y[f[i]])
    {
      var j := Match(t, rank, a, b, |f|);
      f := f + [j];
    }
    forall i, k | 0 <= i < k < |f| ensures f[i] != f[k] {
      if f[i] == f[k] {
        OneMatch(t, rank, a, i, k, y[f[i]]);
      }
    }
  }

  lemma SameLength(t: Table, rank: seq<nat>, a: Handle, b: Handle)
    requires Ranked(t, rank) && a != b && SameValue(t, rank, a, b)
    requires Resolve(t, a).Hash? && Resolve(t, b).Hash?
    ensures |Resolve(t, a).pairs| == |Resolve(t, b).pairs|
  {
  }

  lemma Match(t: Table, rank: seq<nat>, a: Handle, b: Handle, i: nat) returns (j: nat)
    requires Ranked(t, rank) && a != b && SameValue(t, rank, a, b)
    requires Resolve(t, a).Hash? && Resolve(t, b).Hash? && i < |Resolve(t, a).pairs|
    ensures j < |Resolve(t, b).pairs| && SamePair(t, rank, Resolve(t, a).pairs[i], Resolve(t, b).pairs[j])
  {
    hide SamePair;
    var y := Resolve(t, b).pairs;
    assert Found(t, rank, Resolve(t, a).pairs[i], y);
    j :| 0 <= j < |y| && SamePair(t, rank, Resolve(t, a).pairs[i], y[j]);
  }

  /** Two pairs of one hash cannot match the same pair. */
  lemma {:induction false} OneMatch(t: Table, rank: seq<nat>, a: Handle, i: nat, k: nat, q: (Handle, Handle))
    requires Ranked(t, rank) && WellKeyed(t, rank) && Resolve(t, a).Hash? && i != k
    requires i < |Resolve(t, a).pairs| && k < |Resolve(t, a).pairs|
    ensures !(SamePair(t, rank, Resolve(t, a).pairs[i], q) && SamePair(t, rank, Resolve(t, a).pairs[k], q))
    decreases Rank(rank, a), 0
  {
    hide SameValue;
    var x := Resolve(t, a).pairs;
    if SamePair(t, rank, x[i], q) && SamePair(t, rank, x[k], q) {
      PairRank(t, rank, a, k);
      SameValueSymmetric(t, rank, x[k].0, q.0);
      SameValueTransitive(t, rank, x[i].0, q.0, x[k].0);
    }
  }

  /** The comparison the hash functions use is an equivalence on values nested less than the limit. */
  lemma EqIsEquivalence(t: Table, rank: seq<nat>, a: Handle, b: Handle, c: Handle)
    requires Ranked(t, rank) && WellKeyed(t, rank)
    requires Rank(rank, a) < MAX_DEPTH && Rank(rank, b) < MAX_DEPTH && Rank(rank, c) < MAX_DEPTH
    ensures Eq(t, a, a)
    ensures Eq(t, a, b) <==> Eq(t, b, a)
    ensures Eq(t, a, b) && Eq(t, b, c) ==> Eq(t, a, c)
  {
    EqIsSameValue(t, rank, a, b, 0);
    EqIsSameValue(t, rank, b, a, 0);
    EqIsSameValue(t, rank, b, c, 0);
    EqIsSameValue(t, rank, a, c, 0);
    if Eq(t, a, b) { SameValueSymmetric(t, rank, a, b); }
    if Eq(t, b, a) { SameValueSymmetric(t, rank, b, a); }
    if Eq(t, a, b) && Eq(t, b, c) { SameValueTransitive(t, rank, a, b, c); }
  }

  // ---- the limit is sharp ----

  /** Two separate towers of singleton arrays over equal integers: even handles on one, odd on the other. */
  function Towers(height: nat): Table {
    seq(2 * height + 2, i => if i < 2 then Int(7) else Array([i - 2]))
  }

  function TowerRank(height: nat): seq<nat> {
    seq(2 * height + 2, i => i / 2)
  }

  lemma TowersRanked(height: nat)
    ensures Ranked(Towers(height), TowerRank(height))
  {
    var t, rank := Towers(height), TowerRank(height);
    forall h: Handle, c: Handle | Refers(Resolve(t, h), c) ensures Rank(rank, c) < Rank(rank, h) {
      assert 2 <= h < |t| && c == h - 2;
      assert (h - 2) / 2 == h / 2 - 1;
    }
  }

  lemma EqSingletons(t: Table, a: Handle, b: Handle, x: Handle, y: Handle, depth: nat)
    requires a != b && Resolve(t, a) == Array([x]) && Resolve(t, b) == Array([y])
    ensures EqAt(t, a, b, depth) <==> depth < MAX_DEPTH && EqAt(t, x, y, depth + 1)
  {
    if depth < MAX_DEPTH {
      assert EqAt(t, a, b, depth) ==> EqAt(t, [x][0], [y][0], depth + 1);
    }
  }

  /** Equal towers are found equal exactly when they are lower than the levels left. */
  lemma {:induction false} TowerCompare(height: nat, k: nat, depth: nat)
    requires k <= height && depth <= MAX_DEPTH
    ensures EqAt(Towers(height), 2 * k, 2 * k + 1, depth) <==> depth + k < MAX_DEPTH
  {
    var t := Towers(height);
    if depth < MAX_DEPTH {
      if k > 0 {
        hide EqAt;
        TowerCompare(height, k - 1, depth + 1);
        assert t[2 * k] == Array([2 * (k - 1)]) && t[2 * k + 1] == Array([2 * (k - 1) + 1]);
        EqSingletons(t, 2 * k, 2 * k + 1, 2 * (k - 1), 2 * (k - 1) + 1, depth);
      } else {
        assert t[0] == Int(7) && t[1] == Int(7);
      }
    }
  }

  lemma {:induction false} TowersSame(height: nat, k: nat)
    requires k <= height
    ensures Ranked(Towers(height), TowerRank(height))
    ensures SameValue(Towers(height), TowerRank(height), 2 * k, 2 * k + 1)
  {
    TowersRanked(height);
    var t := Towers(height);
    assert Resolve(t, 2 * k) == t[2 * k] && Resolve(t, 2 * k + 1) == t[2 * k + 1];
    if k > 0 {
      TowersSame(height, k - 1);
      assert t[2 * k] == Array([2 * (k - 1)]) && t[2 * k + 1] == Array([2 * (k - 1) + 1]);
    } else {
      assert t[0] == Int(7) && t[1] == Int(7);
    }
  }

  /** One level more, and structurally equal values compare as different. */
  lemma LimitIsSharp()
    ensures Ranked(Towers(256), TowerRank(256)) && Rank(TowerRank(256), 512) == MAX_DEPTH
    ensures SameValue(Towers(256), TowerRank(256), 512, 513) && !Eq(Towers(256), 512, 513)
  {
    TowersSame(256, 256);
    TowerCompare(256, 256, 0);
  }
}

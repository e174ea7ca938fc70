/**
 What the comparison of values means, said without handles and without the comparison: a
 value is unfolded into a tree of bytes, numbers, lists and finite maps, and two values compare
 as equal exactly when their trees are the same.
 */
module CextTree {
  import opened Common
  import opened CextEquality
  import opened CextHash

  datatype Number = Infinite | MinusInfinite | Rational(r: real)

  /** A leaf of a class compared by identity is its handle. */
  datatype Tree =
    | NilTree
    | BoolTree(b: bool)
    | BytesTree(bytes: seq<nat>)
    | IntTree(n: int)
    | FloatTree(x: Number)
    | NotANumber
    | ListTree(items: seq<Tree>)
    | MapTree(entries: map<Tree, Tree>)
    | Identity(h: Handle)

  /** Both zeros are zero. */
  function NumberTree(f: F64): Tree {
    match f
    case NaN(_) => NotANumber
    case PosInf => FloatTree(Infinite)
    case NegInf => FloatTree(MinusInfinite)
    case NegZero => FloatTree(Rational(0.0))
    case Finite(r) => FloatTree(Rational(r))
  }

  ghost function Unfold(t: Table, rank: seq<nat>, h: Handle): Tree
    requires Ranked(t, rank)
    decreases Rank(rank, h), 1, 0
  {
    match Resolve(t, h)
    case Nil => NilTree
    case True => BoolTree(true)
    case False => BoolTree(false)
    case Str(bytes) => BytesTree(bytes)
    case Int(n) => IntTree(n)
    case Float(f) => NumberTree(f)
    case Array(xs) =>
      (forall i | 0 <= i < |xs| ensures Rank(rank, xs[i]) < Rank(rank, h) { ElemRank(t, rank, h, i); }
       ListTree(UnfoldList(t, rank, h, xs)))
    case Hash(ps) =>
      (forall i | 0 <= i < |ps| ensures Below(rank, h, ps[i]) { PairRank(t, rank, h, i); }
       MapTree(UnfoldPairs(t, rank, h, ps)))
    case _ => Identity(h)
  }

  predicate Below(rank: seq<nat>, h: Handle, p: (Handle, Handle)) {
    Rank(rank, p.0) < Rank(rank, h) && Rank(rank, p.1) < Rank(rank, h)
  }

  ghost function UnfoldPairs(t: Table, rank: seq<nat>, h: Handle, ps: seq<(Handle, Handle)>): map<Tree, Tree>
    requires Ranked(t, rank) && forall i | 0 <= i < |ps| :: Below(rank, h, ps[i])
    decreases Rank(rank, h), 0, |ps|
  {
    if ps == [] then map[]
    else
      assert Below(rank, h, Last(ps));
      UnfoldPairs(t, rank, h, Front(ps))[Unfold(t, rank, Last(ps).0) := Unfold(t, rank, Last(ps).1)]
  }

  ghost function UnfoldList(t: Table, rank: seq<nat>, h: Handle, xs: seq<Handle>): (r: seq<Tree>)
    requires Ranked(t, rank) && forall i | 0 <= i < |xs| :: Rank(rank, xs[i]) < Rank(rank, h)
    ensures |r| == |xs| && forall i | 0 <= i < |xs| :: r[i] == Unfold(t, rank, xs[i])
    decreases Rank(rank, h), 0, |xs|
  {
    if xs == [] then [] else UnfoldList(t, rank, h, Front(xs)) + [Unfold(t, rank, Last(xs))]
  }

  /** No NaN at `h` or below. */
  ghost predicate NaNFree(t: Table, rank: seq<nat>, h: Handle)
    requires Ranked(t, rank)
    decreases Rank(rank, h)
  {
    match Resolve(t, h)
    case Float(f) => !f.NaN?
    case Array(xs) => forall i | 0 <= i < |xs| :: (ElemRank(t, rank, h, i); NaNFree(t, rank, xs[i]))
    case Hash(ps) => forall i | 0 <= i < |ps| :: (PairRank(t, rank, h, i); NaNFree(t, rank, ps[i].0) && NaNFree(t, rank, ps[i].1))
    case _ => true
  }

  /** Keys whose trees differ. */
  ghost predicate KeysApart(t: Table, rank: seq<nat>, ps: seq<(Handle, Handle)>)
    requires Ranked(t, rank)
  {
    forall i, j | 0 <= i < j < |ps| :: Unfold(t, rank, ps[i].0) != Unfold(t, rank, ps[j].0)
  }

  ghost predicate HasKey(t: Table, rank: seq<nat>, ps: seq<(Handle, Handle)>, k: Tree)
    requires Ranked(t, rank)
  {
    exists i :: 0 <= i < |ps| && Unfold(t, rank, ps[i].0) == k
  }

  /** `m` has one entry for each pair. */
  ghost predicate EntriesAre(t: Table, rank: seq<nat>, ps: seq<(Handle, Handle)>, m: map<Tree, Tree>)
    requires Ranked(t, rank)
  {
    && |m| == |ps|
    && (forall i | 0 <= i < |ps| :: Unfold(t, rank, ps[i].0) in m && m[Unfold(t, rank, ps[i].0)] == Unfold(t, rank, ps[i].1))
    && (forall k | k in m :: HasKey(t, rank, ps, k))
  }

  lemma KeyIsNew(t: Table, rank: seq<nat>, ps: seq<(Handle, Handle)>, m: map<Tree, Tree>)
    requires Ranked(t, rank) && ps != [] && KeysApart(t, rank, ps) && EntriesAre(t, rank, Front(ps), m)
    ensures Unfold(t, rank, Last(ps).0) !in m
  {
    hide Unfold, Ranked;
    var key, n := Unfold(t, rank, Last(ps).0), |ps| - 1;
    forall i | 0 <= i < n ensures Unfold(t, rank, Front(ps)[i].0) != key {
      assert Unfold(t, rank, ps[i].0) != Unfold(t, rank, ps[n].0);
    }
    assert !HasKey(t, rank, Front(ps), key);
  }

  lemma AddFresh<K, V>(m: map<K, V>, k: K, v: V)
    requires k !in m
    ensures |m[k := v]| == |m| + 1
  {
    assert m[k := v].Keys == m.Keys + {k};
  }

  lemma KeyStays(t: Table, rank: seq<nat>, ps: seq<(Handle, Handle)>, k: Tree)
    requires Ranked(t, rank) && ps != []
    ensures HasKey(t, rank, ps, Unfold(t, rank, Last(ps).0))
    ensures HasKey(t, rank, Front(ps), k) ==> HasKey(t, rank, ps, k)
  {
    hide Unfold, Ranked;
    assert ps[|ps| - 1] == Last(ps);
    if HasKey(t, rank, Front(ps), k) {
      var i :| 0 <= i < |ps| - 1 && Unfold(t, rank, Front(ps)[i].0) == k;
      assert Unfold(t, rank, ps[i].0) == k;
    }
  }

  lemma OneEntryMore(t: Table, rank: seq<nat>, ps: seq<(Handle, Handle)>, m: map<Tree, Tree>)
    requires Ranked(t, rank) && ps != [] && KeysApart(t, rank, ps) && EntriesAre(t, rank, Front(ps), m)
    ensures EntriesAre(t, rank, ps, m[Unfold(t, rank, Last(ps).0) := Unfold(t, rank, Last(ps).1)])
  {
    hide Unfold, Ranked, KeysApart, HasKey;
    var key, val := Unfold(t, rank, Last(ps).0), Unfold(t, rank, Last(ps).1);
    var m1 := m[key := val];
    KeyIsNew(t, rank, ps, m);
    AddFresh(m, key, val);
    forall i | 0 <= i < |ps| ensures Unfold(t, rank, ps[i].0) in m1 && m1[Unfold(t, rank, ps[i].0)] == Unfold(t, rank, ps[i].1) {
      if i < |ps| - 1 {
        assert Front(ps)[i] == ps[i];
        assert Unfold(t, rank, Front(ps)[i].0) in m;
      }
    }
    forall k | k in m1 ensures HasKey(t, rank, ps, k) {
      KeyStays(t, rank, ps, k);
    }
  }

  /** The entries of a hash whose keys are apart: one for each pair. */
  lemma {:induction false} EntriesOf(t: Table, rank: seq<nat>, h: Handle, ps: seq<(Handle, Handle)>)
    requires Ranked(t, rank) && (forall i | 0 <= i < |ps| :: Below(rank, h, ps[i])) && KeysApart(t, rank, ps)
    ensures EntriesAre(t, rank, ps, UnfoldPairs(t, rank, h, ps))
    decreases |ps|
  {
    hide Unfold, Below, Ranked;
    if ps == [] {
      assert EntriesAre(t, rank, ps, map[]);
    } else {
      var before := Front(ps);
      assert forall i | 0 <= i < |before| :: before[i] == ps[i];
      EntriesOf(t, rank, h, before);
      OneEntryMore(t, rank, ps, UnfoldPairs(t, rank, h, before));
    }
  }

  /** A map inside another of the same size is the other. */
  lemma SameSizeSame<K, V>(a: map<K, V>, b: map<K, V>)
    requires |a| == |b| && forall k | k in a :: k in b && b[k] == a[k]
    ensures a == b
  {
    if exists k :: k in b && k !in a {
      var k :| k in b && k !in a;
      SubsetSize(a.Keys, b.Keys - {k});
    }
    assert a.Keys == b.Keys;
  }

  lemma {:induction false} SubsetSize<T>(a: set<T>, b: set<T>)
    requires a <= b
    ensures |a| <= |b|
  {
    if a != {} {
      var x :| x in a;
      SubsetSize(a - {x}, b - {x});
    }
  }

  /** Structural equality is equality of trees, where no NaN is in reach. */
  lemma {:induction false} SameIsTree(t: Table, rank: seq<nat>, a: Handle, b: Handle)
    requires Ranked(t, rank) && WellKeyed(t, rank) && NaNFree(t, rank, a) && NaNFree(t, rank, b)
    ensures SameValue(t, rank, a, b) <==> Unfold(t, rank, a) == Unfold(t, rank, b)
    decreases Max(Rank(rank, a), Rank(rank, b)), 1
  {
    hide WellKeyed, Ranked;
    if a != b {
      match (Resolve(t, a), Resolve(t, b))
      case (Array(_), Array(_)) => ListsSame(t, rank, a, b);
      case (Hash(_), Hash(_)) => HashesSame(t, rank, a, b);
      case _ => LeavesSame(t, rank, a, b);
    }
  }

  lemma LeavesSame(t: Table, rank: seq<nat>, a: Handle, b: Handle)
    requires Ranked(t, rank) && NaNFree(t, rank, a) && NaNFree(t, rank, b) && a != b
    requires !(Resolve(t, a).Array? && Resolve(t, b).Array?) && !(Resolve(t, a).Hash? && Resolve(t, b).Hash?)
    ensures SameValue(t, rank, a, b) <==> Unfold(t, rank, a) == Unfold(t, rank, b)
  {
    hide UnfoldList, UnfoldPairs, Ranked;
  }

  lemma {:induction false} ListsSame(t: Table, rank: seq<nat>, a: Handle, b: Handle)
    requires Ranked(t, rank) && WellKeyed(t, rank) && NaNFree(t, rank, a) && NaNFree(t, rank, b) && a != b
    requires Resolve(t, a).Array? && Resolve(t, b).Array?
    ensures SameValue(t, rank, a, b) <==> Unfold(t, rank, a) == Unfold(t, rank, b)
    decreases Max(Rank(rank, a), Rank(rank, b)), 0
  {
    hide WellKeyed, Ranked;
    var x, y := Resolve(t, a).elems, Resolve(t, b).elems;
    var tx, ty := Unfold(t, rank, a).items, Unfold(t, rank, b).items;
    forall i | 0 <= i < |x| && i < |y|
      ensures SameValue(t, rank, x[i], y[i]) <==> tx[i] == ty[i]
    {
      ElemRank(t, rank, a, i);
      ElemRank(t, rank, b, i);
      SameIsTree(t, rank, x[i], y[i]);
    }
    assert tx == ty <==> |x| == |y| && forall i | 0 <= i < |x| :: tx[i] == ty[i];
  }

  lemma {:induction false} KeysAreApart(t: Table, rank: seq<nat>, h: Handle, top: nat)
    requires Ranked(t, rank) && WellKeyed(t, rank) && NaNFree(t, rank, h) && Resolve(t, h).Hash? && Rank(rank, h) <= top
    ensures KeysApart(t, rank, Resolve(t, h).pairs)
    decreases top, 0, 0
  {
    var ps := Resolve(t, h).pairs;
    forall i, j | 0 <= i < j < |ps| ensures Unfold(t, rank, ps[i].0) != Unfold(t, rank, ps[j].0) {
      PairRank(t, rank, h, i);
      PairRank(t, rank, h, j);
      SameIsTree(t, rank, ps[i].0, ps[j].0);
    }
  }

  lemma {:induction false} PairsSame(t: Table, rank: seq<nat>, a: Handle, b: Handle, i: nat, j: nat)
    requires Ranked(t, rank) && WellKeyed(t, rank) && NaNFree(t, rank, a) && NaNFree(t, rank, b)
    requires Resolve(t, a).Hash? && Resolve(t, b).Hash? && i < |Resolve(t, a).pairs| && j < |Resolve(t, b).pairs|
    ensures var (p, q) := (Resolve(t, a).pairs[i], Resolve(t, b).pairs[j]);
            SamePair(t, rank, p, q) <==> Unfold(t, rank, p.0) == Unfold(t, rank, q.0) && Unfold(t, rank, p.1) == Unfold(t, rank, q.1)
    decreases Max(Rank(rank, a), Rank(rank, b)), 0, 0
  {
    hide WellKeyed, Ranked, Unfold, SameValue;
    var (p, q) := (Resolve(t, a).pairs[i], Resolve(t, b).pairs[j]);
    PairRank(t, rank, a, i);
    PairRank(t, rank, b, j);
    SameIsTree(t, rank, p.0, q.0);
    SameIsTree(t, rank, p.1, q.1);
  }

  lemma {:induction false} HashesSame(t: Table, rank: seq<nat>, a: Handle, b: Handle)
    requires Ranked(t, rank) && WellKeyed(t, rank) && NaNFree(t, rank, a) && NaNFree(t, rank, b) && a != b
    requires Resolve(t, a).Hash? && Resolve(t, b).Hash?
    ensures SameValue(t, rank, a, b) <==> Unfold(t, rank, a) == Unfold(t, rank, b)
    decreases Max(Rank(rank, a), Rank(rank, b)), 0, 1
  {
    hide WellKeyed, Ranked, UnfoldPairs, SamePair;
    var x, y := Resolve(t, a).pairs, Resolve(t, b).pairs;
    var mx, my := Unfold(t, rank, a).entries, Unfold(t, rank, b).entries;
    var top := Max(Rank(rank, a), Rank(rank, b));
    KeysAreApart(t, rank, a, top);
    KeysAreApart(t, rank, b, top);
    MapOf(t, rank, a);
    MapOf(t, rank, b);
    if SameValue(t, rank, a, b) {
      forall k | k in mx ensures k in my && my[k] == mx[k] {
        assert HasKey(t, rank, x, k);
        var i :| 0 <= i < |x| && Unfold(t, rank, x[i].0) == k;
        assert Found(t, rank, x[i], y);
        var j :| 0 <= j < |y| && SamePair(t, rank, x[i], y[j]);
        PairsSame(t, rank, a, b, i, j);
      }
      SameSizeSame(mx, my);
    }
    if mx == my {
      forall i | 0 <= i < |x| ensures Found(t, rank, x[i], y) {
        var k := Unfold(t, rank, x[i].0);
        assert k in my && HasKey(t, rank, y, k);
        var j :| 0 <= j < |y| && Unfold(t, rank, y[j].0) == k;
        PairsSame(t, rank, a, b, i, j);
        assert SamePair(t, rank, x[i], y[j]);
      }
    }
  }

  lemma MapOf(t: Table, rank: seq<nat>, h: Handle)
    requires Ranked(t, rank) && Resolve(t, h).Hash? && KeysApart(t, rank, Resolve(t, h).pairs)
    ensures Unfold(t, rank, h).MapTree? && EntriesAre(t, rank, Resolve(t, h).pairs, Unfold(t, rank, h).entries)
  {
    var ps := Resolve(t, h).pairs;
    forall i | 0 <= i < |ps| ensures Below(rank, h, ps[i]) {
      PairRank(t, rank, h, i);
    }
    EntriesOf(t, rank, h, ps);
  }

  // ---- the theorems ----

  /** Below the depth limit and without NaN, two values compare as equal exactly when their trees are the same. */
  lemma EqIsTreeEquality(t: Table, rank: seq<nat>, a: Handle, b: Handle)
    requires Ranked(t, rank) && WellKeyed(t, rank) && NaNFree(t, rank, a) && NaNFree(t, rank, b)
    requires Rank(rank, a) < MAX_DEPTH
    ensures Eq(t, a, b) <==> Unfold(t, rank, a) == Unfold(t, rank, b)
  {
    hide SameValue, Unfold, WellKeyed, NaNFree, EqAt;
    EqIsSameValue(t, rank, a, b, 0);
    SameIsTree(t, rank, a, b);
  }

  /** A NaN equals itself only by its handle; the two zeros are one number. */
  lemma FloatCorners(t: Table, a: Handle, b: Handle, payload: nat, depth: nat)
    requires a != b && depth < MAX_DEPTH
    ensures Resolve(t, a) == Float(NaN(payload)) ==> !EqAt(t, a, b, depth) && !EqAt(t, b, a, depth) && EqAt(t, a, a, depth)
    ensures Resolve(t, a) == Float(NegZero) && Resolve(t, b) == Float(Finite(0.0)) ==> EqAt(t, a, b, depth) && EqAt(t, b, a, depth)
  {
  }

  /** Compared by identity: equal to themselves only. */
  predicate ByIdentity(v: CValue) {
    v.Class? || v.Symbol? || v.BlockRef? || v.HeapRef?
  }

  /** Two handles never compare as equal when their values are of different classes, or of one compared by identity. */
  lemma ClassesApart(t: Table, a: Handle, b: Handle, depth: nat)
    requires a != b && EqAt(t, a, b, depth)
    ensures var (x, y) := (Resolve(t, a), Resolve(t, b));
            && !ByIdentity(x) && !ByIdentity(y)
            && (x.Nil? <==> y.Nil?) && (x.True? <==> y.True?) && (x.False? <==> y.False?) && (x.Str? <==> y.Str?)
            && (x.Int? <==> y.Int?) && (x.Float? <==> y.Float?) && (x.Array? <==> y.Array?) && (x.Hash? <==> y.Hash?)
  {
  }

  /** Reading a hash is looking its key's tree up in its map of trees. */
  lemma ReadIsMapLookup(t: Table, rank: seq<nat>, h: Handle, key: Handle)
    requires Ranked(t, rank) && WellKeyed(t, rank) && NaNFree(t, rank, h) && NaNFree(t, rank, key)
    requires Resolve(t, h).Hash? && Rank(rank, h) <= MAX_DEPTH
    ensures var (m, k) := (Unfold(t, rank, h).entries, Unfold(t, rank, key));
            match Lookup(t, h, key)
            case None => k !in m
            case Some(v) => k in m && m[k] == Unfold(t, rank, v)
  {
    hide Unfold, Eq, WellKeyed, Ranked;
    var ps := Resolve(t, h).pairs;
    var k := Unfold(t, rank, key);
    forall i | 0 <= i < |ps| ensures Eq(t, ps[i].0, key) <==> Unfold(t, rank, ps[i].0) == k {
      PairRank(t, rank, h, i);
      PairNaNFree(t, rank, h, i);
      EqIsTreeEquality(t, rank, ps[i].0, key);
    }
    KeysAreApart(t, rank, h, Rank(rank, h));
    MapOf(t, rank, h);
    if Position(t, ps, key).None? {
      assert !HasKey(t, rank, ps, k);
    }
  }

  lemma PairNaNFree(t: Table, rank: seq<nat>, h: Handle, i: nat)
    requires Ranked(t, rank) && NaNFree(t, rank, h) && Resolve(t, h).Hash? && i < |Resolve(t, h).pairs|
    ensures NaNFree(t, rank, Resolve(t, h).pairs[i].0)
  {
  }

  /** Handles stand for what the table holds under them, handles outside the table for nil. */
  lemma HandlesRead(t: Table, a: Handle, b: Handle, depth: nat)
    requires a != b && depth < 256
    ensures a < |t| && b < |t| && t[a].Str? && t[b].Str? ==> (EqAt(t, a, b, depth) <==> t[a].bytes == t[b].bytes)
    ensures a < |t| && b < |t| && t[a].Int? && t[b].Int? ==> (EqAt(t, a, b, depth) <==> t[a].n == t[b].n)
    ensures a < |t| && b < |t| && t[a].Array? && t[b].Array? && |t[a].elems| != |t[b].elems| ==> !EqAt(t, a, b, depth)
    ensures a >= |t| ==> (EqAt(t, a, b, depth) <==> b >= |t| || t[b] == Nil)
    ensures b >= |t| ==> (EqAt(t, a, b, depth) <==> a >= |t| || t[a] == Nil)
  {
  }
}

/**
 `rb_hash_new`, `rb_hash_aset` and `rb_hash_aref` on the handle table: an insertion-ordered
 association list that behaves as a finite map on the equality classes of its keys.
 */
module CextHash {
  import opened Common
  import opened CextEquality

  const Q_NIL: Handle := 0

  /** Position of the first pair whose key equals `key`. */
  function Position(t: Table, pairs: seq<(Handle, Handle)>, key: Handle): (r: Option<nat>)
    ensures r.Some? ==> r.value < |pairs| && Eq(t, pairs[r.value].0, key)
    ensures r.Some? ==> forall i | 0 <= i < r.value :: !Eq(t, pairs[i].0, key)
    ensures r.None? ==> forall i | 0 <= i < |pairs| :: !Eq(t, pairs[i].0, key)
  {
    if pairs == [] then None
    else if Eq(t, pairs[0].0, key) then Some(0)
    else match Position(t, pairs[1..], key)
      case None => None
      case Some(i) => Some(i + 1)
  }

  /** The pairs after `h[key] = value`. */
  function Stored(t: Table, pairs: seq<(Handle, Handle)>, key: Handle, value: Handle): seq<(Handle, Handle)> {
    match Position(t, pairs, key)
    case Some(i) => pairs[i := (pairs[i].0, value)]
    case None => pairs + [(key, value)]
  }

  function Aset(t: Table, h: Handle, key: Handle, value: Handle): Table
    requires h < |t| && t[h].Hash?
  {
    t[h := Hash(Stored(t, t[h].pairs, key, value))]
  }

  /** The value stored under `key`, if `h` is a hash that has one. */
  function Lookup(t: Table, h: Handle, key: Handle): Option<Handle> {
    match Resolve(t, h)
    case Hash(pairs) =>
      (match Position(t, pairs, key)
       case Some(i) => Some(pairs[i].1)
       case None => None)
    case _ => None
  }

  class CExtState {
    var values: Table

    constructor (values: Table)
      ensures this.values == values
    {
      this.values := values;
    }

    method HashNew() returns (h: Handle)
      modifies this
      ensures h == |old(values)| && values == old(values) + [Hash([])]
    {
      h := |values|;
      values := values + [Hash([])];
    }

    /** Aborts, changing nothing, when `h` is no hash. */
    method HashAset(h: Handle, key: Handle, value: Handle) returns (r: Result<Handle, string>)
      modifies this
      ensures h < |old(values)| && old(values)[h].Hash? ==> r == Ok(value) && values == Aset(old(values), h, key, value)
      ensures !(h < |old(values)| && old(values)[h].Hash?) ==> r.Err? && values == old(values)
    {
      var existing: Option<nat> := None;
      match Resolve(values, h)
      case Hash(pairs) =>
        var i := 0;
        while i < |pairs| && !Eq(values, pairs[i].0, key)
          invariant i <= |pairs|
          invariant forall k | 0 <= k < i :: !Eq(values, pairs[k].0, key)
        {
          i := i + 1;
        }
        existing := if i < |pairs| then Some(i) else None;
        assert existing == Position(values, pairs, key);
        if h >= |values| {
          return Err("ICE: cext handle out of range on write path");
        }
        if existing.Some? {
          values := values[h := Hash(pairs[existing.value := (pairs[existing.value].0, value)])];
        } else {
          values := values[h := Hash(pairs + [(key, value)])];
        }
        return Ok(value);
      case _ =>
        return Err("ICE: rb_hash_aset on non-Hash CValue");
    }

    method HashAref(h: Handle, key: Handle) returns (v: Handle)
      ensures match Lookup(values, h, key)
              case Some(w) => v == w
              case None => v == 0
    {
      match Resolve(values, h)
      case Hash(pairs) =>
        for i := 0 to |pairs|
          invariant forall k | 0 <= k < i :: !Eq(values, pairs[k].0, key)
        {
          if Eq(values, pairs[i].0, key) {
            return pairs[i].1;
          }
        }
        return Q_NIL;
      case _ =>
        return Q_NIL;
    }
  }

  // ---- keys whose equality does not depend on the hash being changed ----

  /** Everything reachable from a member is a member. */
  ghost predicate Closed(t: Table, dom: set<Handle>) {
    forall x, c :: x in dom && Refers(Resolve(t, x), c) ==> c in dom
  }

  /** The table as seen from `dom`. */
  function Seen(t: Table, dom: set<Handle>): Table {
    seq(|t|, x requires 0 <= x < |t| => if x in dom then t[x] else Nil)
  }

  lemma ElemSeen(t: Table, dom: set<Handle>, x: Handle, i: nat)
    requires Closed(t, dom) && x in dom && Resolve(t, x).Array? && i < |Resolve(t, x).elems|
    ensures Resolve(t, x).elems[i] in dom
  {
    assert Refers(Resolve(t, x), Resolve(t, x).elems[i]);
  }

  lemma PairSeen(t: Table, dom: set<Handle>, x: Handle, i: nat)
    requires Closed(t, dom) && x in dom && Resolve(t, x).Hash? && i < |Resolve(t, x).pairs|
    ensures Resolve(t, x).pairs[i].0 in dom && Resolve(t, x).pairs[i].1 in dom
  {
    assert Refers(Resolve(t, x), Resolve(t, x).pairs[i].0);
    assert Refers(Resolve(t, x), Resolve(t, x).pairs[i].1);
  }

  /** Comparing members looks at members only. */
  lemma {:induction false} EqSeen(t: Table, dom: set<Handle>, a: Handle, b: Handle, depth: nat)
    requires Closed(t, dom) && a in dom && b in dom
    ensures EqAt(Seen(t, dom), a, b, depth) <==> EqAt(t, a, b, depth)
    decreases MAX_DEPTH - depth
  {
    hide LeafEq, Closed;
    var s := Seen(t, dom);
    assert Resolve(s, a) == Resolve(t, a) && Resolve(s, b) == Resolve(t, b);
    if a != b && depth < MAX_DEPTH {
      match (Resolve(t, a), Resolve(t, b))
      case (Array(x), Array(y)) =>
        if |x| == |y| {
          forall i | 0 <= i < |x| ensures EqAt(s, x[i], y[i], depth + 1) <==> EqAt(t, x[i], y[i], depth + 1) {
            ElemSeen(t, dom, a, i);
            ElemSeen(t, dom, b, i);
            EqSeen(t, dom, x[i], y[i], depth + 1);
          }
        }
      case (Hash(x), Hash(y)) =>
        if |x| == |y| {
          forall i | 0 <= i < |x| ensures FoundAt(s, x[i], y, depth + 1) <==> FoundAt(t, x[i], y, depth + 1) {
            PairSeen(t, dom, a, i);
            forall j | 0 <= j < |y| ensures PairEqAt(s, x[i], y[j], depth + 1) <==> PairEqAt(t, x[i], y[j], depth + 1) {
              PairSeen(t, dom, b, j);
              EqSeen(t, dom, x[i].0, y[j].0, depth + 1);
              EqSeen(t, dom, x[i].1, y[j].1, depth + 1);
            }
          }
        }
      case _ =>
    }
  }

  /**
   Usable keys: a closed set of handles that does not contain the hash `h` itself, acyclic,
   nested below the limit, and without hashes that have equal keys. What else the table
   holds, and what the hash maps its keys to, is unrestricted and may be cyclic.
   */
  ghost predicate KeyDomain(t: Table, rank: seq<nat>, dom: set<Handle>, h: Handle) {
    && h !in dom && Closed(t, dom)
    && Ranked(Seen(t, dom), rank) && WellKeyed(Seen(t, dom), rank)
    && forall x | x in dom :: Rank(rank, x) < MAX_DEPTH
  }

  /** On usable keys, equality is an equivalence. */
  lemma DomainEquivalence(t: Table, rank: seq<nat>, dom: set<Handle>, h: Handle, a: Handle, b: Handle, c: Handle)
    requires KeyDomain(t, rank, dom, h) && a in dom && b in dom && c in dom
    ensures Eq(t, a, b) <==> Eq(t, b, a)
    ensures Eq(t, a, b) && Eq(t, b, c) ==> Eq(t, a, c)
  {
    EqSeen(t, dom, a, b, 0);
    EqSeen(t, dom, b, a, 0);
    EqSeen(t, dom, b, c, 0);
    EqSeen(t, dom, a, c, 0);
    EqIsEquivalence(Seen(t, dom), rank, a, b, c);
  }

  /** Changing `h` changes nothing a key domain can see. */
  lemma DomainKept(t: Table, rank: seq<nat>, dom: set<Handle>, h: Handle, v: CValue)
    requires KeyDomain(t, rank, dom, h) && h < |t|
    ensures KeyDomain(t[h := v], rank, dom, h)
    ensures forall a, b | a in dom && b in dom :: Eq(t[h := v], a, b) <==> Eq(t, a, b)
  {
    hide Ranked, WellKeyed;
    var t' := t[h := v];
    assert Seen(t', dom) == Seen(t, dom);
    assert forall x | x in dom :: Resolve(t', x) == Resolve(t, x);
    assert Closed(t', dom);
    forall a, b | a in dom && b in dom ensures Eq(t', a, b) <==> Eq(t, a, b) {
      EqSeen(t, dom, a, b, 0);
      EqSeen(t', dom, a, b, 0);
    }
  }

  // ---- the map laws ----

  function Keys(pairs: seq<(Handle, Handle)>): (ks: seq<Handle>)
    ensures |ks| == |pairs| && forall i | 0 <= i < |ks| :: ks[i] == pairs[i].0
  {
    if pairs == [] then [] else Keys(Front(pairs)) + [Last(pairs).0]
  }

  predicate DistinctKeys(t: Table, pairs: seq<(Handle, Handle)>) {
    forall i, j | 0 <= i < j < |pairs| :: !Eq(t, pairs[i].0, pairs[j].0)
  }

  /** `h` is a hash whose keys are usable and pairwise unequal. */
  ghost predicate MapReady(t: Table, rank: seq<nat>, dom: set<Handle>, h: Handle) {
    && KeyDomain(t, rank, dom, h)
    && h < |t| && t[h].Hash?
    && DistinctKeys(t, t[h].pairs)
    && forall i | 0 <= i < |t[h].pairs| :: t[h].pairs[i].0 in dom
  }

  lemma PositionIs(t: Table, pairs: seq<(Handle, Handle)>, key: Handle, i: nat)
    requires i < |pairs| && Eq(t, pairs[i].0, key) && forall j | 0 <= j < i :: !Eq(t, pairs[j].0, key)
    ensures Position(t, pairs, key) == Some(i)
  {
    hide Eq;
  }

  /** The first match depends only on which keys match. */
  lemma PositionAgrees(t: Table, pairs: seq<(Handle, Handle)>, t': Table, pairs': seq<(Handle, Handle)>, key: Handle)
    requires |pairs| <= |pairs'|
    requires forall i | 0 <= i < |pairs| :: Eq(t', pairs'[i].0, key) <==> Eq(t, pairs[i].0, key)
    requires forall i | |pairs| <= i < |pairs'| :: !Eq(t', pairs'[i].0, key)
    ensures Position(t', pairs', key) == Position(t, pairs, key)
  {
    hide Eq;
    match Position(t, pairs, key)
    case Some(i) => PositionIs(t', pairs', key, i);
    case None =>
  }

  /** Storing keeps the hash a map: keys stay distinct, in their order of insertion, and `key` is added only if it is new. */
  lemma AsetKeys(t: Table, rank: seq<nat>, dom: set<Handle>, h: Handle, key: Handle, value: Handle)
    requires MapReady(t, rank, dom, h) && key in dom
    ensures var (before, t') := (t[h].pairs, Aset(t, h, key, value));
            && MapReady(t', rank, dom, h)
            && Keys(t'[h].pairs) == if exists i | 0 <= i < |before| :: Eq(t, before[i].0, key) then Keys(before) else Keys(before) + [key]
  {
    hide Eq, KeyDomain, Position;
    var before, t' := t[h].pairs, Aset(t, h, key, value);
    var after := t'[h].pairs;
    assert h !in dom by { NotOwnKey(t, rank, dom, h); }
    DomainKept(t, rank, dom, h, t'[h]);
    assert Keys(after) == if Position(t, before, key).Some? then Keys(before) else Keys(before) + [key];
    forall i, j | 0 <= i < j < |after| ensures !Eq(t', after[i].0, after[j].0) {
      assert after[i].0 in dom && after[j].0 in dom;
    }
  }

  lemma NotOwnKey(t: Table, rank: seq<nat>, dom: set<Handle>, h: Handle)
    requires KeyDomain(t, rank, dom, h)
    ensures h !in dom
  {
  }

  /** Reading back: the key's class now maps to the new value, every other class is as it was. */
  lemma AsetThenAref(t: Table, rank: seq<nat>, dom: set<Handle>, h: Handle, key: Handle, value: Handle, other: Handle)
    requires MapReady(t, rank, dom, h) && key in dom && other in dom
    ensures Lookup(Aset(t, h, key, value), h, other) == if Eq(t, key, other) then Some(value) else Lookup(t, h, other)
  {
    hide Eq, KeyDomain, Position;
    var before, t' := t[h].pairs, Aset(t, h, key, value);
    var after := t'[h].pairs;
    DomainKept(t, rank, dom, h, t'[h]);
    forall i | 0 <= i < |after| ensures Eq(t', after[i].0, other) <==> Eq(t, after[i].0, other) {
      assert after[i].0 in dom;
    }
    match Position(t, before, key)
    case Some(i) =>
      var k := before[i].0;
      DomainEquivalence(t, rank, dom, h, k, key, other);
      DomainEquivalence(t, rank, dom, h, key, k, other);
      if Eq(t, key, other) {
        forall j | 0 <= j < i ensures !Eq(t', after[j].0, other) {
          DomainEquivalence(t, rank, dom, h, before[j].0, other, k);
          DomainEquivalence(t, rank, dom, h, k, other, k);
        }
        PositionIs(t', after, other, i);
      } else {
        PositionAgrees(t, before, t', after, other);
      }
    case None =>
      if Eq(t, key, other) {
        forall j | 0 <= j < |before| ensures !Eq(t', after[j].0, other) {
          DomainEquivalence(t, rank, dom, h, before[j].0, other, key);
          DomainEquivalence(t, rank, dom, h, other, key, key);
        }
        PositionIs(t', after, other, |before|);
      } else {
        PositionAgrees(t, before, t', after, other);
      }
  }

  // ---- whole runs ----

  /** A sequence of stores into one hash. */
  function AsetAll(t: Table, h: Handle, ops: seq<(Handle, Handle)>): Table
    requires h < |t| && t[h].Hash?
    decreases |ops|
  {
    if ops == [] then t else AsetAll(Aset(t, h, ops[0].0, ops[0].1), h, ops[1..])
  }

  /** The latest value stored under a key equal to `key`, else `before`. */
  function Latest(t: Table, ops: seq<(Handle, Handle)>, key: Handle, before: Option<Handle>): Option<Handle>
    decreases |ops|
  {
    if ops == [] then before
    else if Eq(t, Last(ops).0, key) then Some(Last(ops).1)
    else Latest(t, Front(ops), key, before)
  }

  lemma {:induction false} LatestFirst(t: Table, ops: seq<(Handle, Handle)>, key: Handle, before: Option<Handle>)
    requires ops != []
    ensures Latest(t, ops, key, before)
         == Latest(t, ops[1..], key, if Eq(t, ops[0].0, key) then Some(ops[0].1) else before)
    decreases |ops|
  {
    hide Eq;
    if |ops| > 1 {
      LatestFirst(t, Front(ops), key, before);
      assert Front(ops)[1..] == Front(ops[1..]) && Last(ops[1..]) == Last(ops);
    } else {
      assert Front(ops) == [];
    }
  }

  lemma {:induction false} LatestAgrees(t: Table, t': Table, dom: set<Handle>, ops: seq<(Handle, Handle)>, key: Handle, before: Option<Handle>)
    requires key in dom && forall i | 0 <= i < |ops| :: ops[i].0 in dom
    requires forall a, b | a in dom && b in dom :: Eq(t', a, b) <==> Eq(t, a, b)
    ensures Latest(t', ops, key, before) == Latest(t, ops, key, before)
    decreases |ops|
  {
    hide Eq;
    if ops == [] {
    } else {
      assert Last(ops) == ops[|ops| - 1];
      LatestAgrees(t, t', dom, Front(ops), key, before);
    }
  }

  /** Over any run of stores, the hash stays a map with distinct keys and every read returns the latest value of its class. */
  lemma {:induction false} RunIsMap(t: Table, rank: seq<nat>, dom: set<Handle>, h: Handle, ops: seq<(Handle, Handle)>, key: Handle)
    requires MapReady(t, rank, dom, h) && key in dom && forall i | 0 <= i < |ops| :: ops[i].0 in dom
    ensures MapReady(AsetAll(t, h, ops), rank, dom, h)
    ensures Lookup(AsetAll(t, h, ops), h, key) == Latest(t, ops, key, Lookup(t, h, key))
    decreases |ops|
  {
    hide Eq, KeyDomain, DistinctKeys;
    if ops == [] {
    } else {
      var t' := Aset(t, h, ops[0].0, ops[0].1);
      AsetKeys(t, rank, dom, h, ops[0].0, ops[0].1);
      AsetThenAref(t, rank, dom, h, ops[0].0, ops[0].1, key);
      DomainKept(t, rank, dom, h, t'[h]);
      RunIsMap(t', rank, dom, h, ops[1..], key);
      LatestAgrees(t, t', dom, ops[1..], key, Lookup(t', h, key));
      LatestFirst(t, ops, key, Lookup(t, h, key));
    }
  }
}

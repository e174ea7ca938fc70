/** `compile`'s merge of the recorded needs: a stable sort by path, then a pass that folds neighbours together. */
module LiquidusMerge {
  import opened Common
  import opened LiquidusText
  import opened LiquidusSyntax
  import opened LiquidusDemand

  /** The stable sort by path, as insertion from the right. */
  function InsertByPath(n: VarNeed, sorted: seq<VarNeed>): seq<VarNeed> {
    if sorted == [] || StrLe(n.path, sorted[0].path) then [n] + sorted
    else [sorted[0]] + InsertByPath(n, sorted[1..])
  }

  function SortByPath(needs: seq<VarNeed>): seq<VarNeed> {
    if needs == [] then [] else InsertByPath(needs[0], SortByPath(needs[1..]))
  }

  function InsertField(f: string, sorted: seq<string>): seq<string> {
    if sorted == [] then [f]
    else if f == sorted[0] then sorted
    else if StrLe(f, sorted[0]) then [f] + sorted
    else [sorted[0]] + InsertField(f, sorted[1..])
  }

  /** `sort` followed by `dedup` on field names. */
  function SortedFields(fields: seq<string>): seq<string> {
    if fields == [] then [] else InsertField(fields[0], SortedFields(fields[1..]))
  }

  /** Fold the later need `a` into the kept need `b` of the same path. */
  function MergeInto(b: VarNeed, a: VarNeed): VarNeed {
    VarNeed(b.path, Widest(a.slice, b.slice), b.needSize || a.needSize, SortedFields(b.fields + a.fields))
  }

  /** The pass over the sorted list: `kept` grows at its end or has its last need widened. */
  function DedupStep(kept: seq<VarNeed>, n: VarNeed): seq<VarNeed> {
    if kept != [] && Last(kept).path == n.path then Front(kept) + [MergeInto(Last(kept), n)] else kept + [n]
  }

  function Dedup(kept: seq<VarNeed>, rest: seq<VarNeed>): seq<VarNeed>
    decreases |rest|
  {
    if rest == [] then kept else Dedup(DedupStep(kept, rest[0]), rest[1..])
  }

  function Merge(needs: seq<VarNeed>): seq<VarNeed> {
    Dedup([], SortByPath(needs))
  }

  /** The pass as `compile` runs it, updating the list it keeps. */
  method MergeNeeds(needs: seq<VarNeed>) returns (kept: seq<VarNeed>)
    ensures kept == Merge(needs)
  {
    var sorted := SortByPath(needs);
    kept := [];
    for i := 0 to |sorted|
      invariant Dedup(kept, sorted[i..]) == Merge(needs)
    {
      assert sorted[i..][0] == sorted[i] && sorted[i..][1..] == sorted[i + 1..];
      var n := sorted[i];
      if kept != [] && Last(kept).path == n.path {
        ghost var before := kept;
        kept := kept[|kept| - 1 := MergeInto(Last(kept), n)];
        assert kept == DedupStep(before, n);
      } else {
        kept := kept + [n];
      }
    }
  }

  predicate SortedPaths(needs: seq<VarNeed>) {
    forall i, j | 0 <= i < j < |needs| :: StrLe(needs[i].path, needs[j].path)
  }

  predicate DistinctPaths(needs: seq<VarNeed>) {
    forall i, j | 0 <= i < j < |needs| :: needs[i].path != needs[j].path
  }

  lemma {:induction false} InsertAdds(n: VarNeed, sorted: seq<VarNeed>)
    ensures multiset(InsertByPath(n, sorted)) == multiset{n} + multiset(sorted)
  {
    hide StrLe;
    if sorted == [] || StrLe(n.path, sorted[0].path) {
    } else {
      InsertAdds(n, sorted[1..]);
      assert sorted == [sorted[0]] + sorted[1..];
    }
  }

  lemma {:induction false} InsertHolds(n: VarNeed, sorted: seq<VarNeed>, j: nat)
    requires j < |InsertByPath(n, sorted)|
    ensures InsertByPath(n, sorted)[j] == n || InsertByPath(n, sorted)[j] in sorted
  {
    hide StrLe;
    if sorted == [] || StrLe(n.path, sorted[0].path) || j == 0 {
    } else {
      InsertHolds(n, sorted[1..], j - 1);
    }
  }

  lemma SortedCons(n: VarNeed, sorted: seq<VarNeed>)
    requires SortedPaths(sorted) && forall j | 0 <= j < |sorted| :: StrLe(n.path, sorted[j].path)
    ensures SortedPaths([n] + sorted)
  {
    hide StrLe;
  }

  lemma {:induction false} InsertKeeps(n: VarNeed, sorted: seq<VarNeed>)
    requires SortedPaths(sorted)
    ensures SortedPaths(InsertByPath(n, sorted))
  {
    hide StrLe;
    if sorted == [] || StrLe(n.path, sorted[0].path) {
      forall j | 0 <= j < |sorted| ensures StrLe(n.path, sorted[j].path) {
        if j > 0 { StrLeTransitive(n.path, sorted[0].path, sorted[j].path); }
      }
      SortedCons(n, sorted);
    } else {
      var first, rest := sorted[0], InsertByPath(n, sorted[1..]);
      InsertKeeps(n, sorted[1..]);
      StrLeTotal(n.path, first.path);
      forall j | 0 <= j < |rest| ensures StrLe(first.path, rest[j].path) {
        InsertHolds(n, sorted[1..], j);
        if rest[j] != n {
          var k :| 0 <= k < |sorted[1..]| && sorted[1..][k] == rest[j];
          assert StrLe(sorted[0].path, sorted[k + 1].path);
        }
      }
      SortedCons(first, rest);
    }
  }

  lemma {:induction false} SortKeeps(needs: seq<VarNeed>)
    ensures SortedPaths(SortByPath(needs))
    ensures multiset(SortByPath(needs)) == multiset(needs)
  {
    if needs == [] {
    } else {
      SortKeeps(needs[1..]);
      hide SortedPaths;
      InsertKeeps(needs[0], SortByPath(needs[1..]));
      InsertAdds(needs[0], SortByPath(needs[1..]));
      assert needs == [needs[0]] + needs[1..];
    }
  }

  // ---- demands are a commutative summary ----

  function Plus(a: Option<Demand>, b: Option<Demand>): Option<Demand> {
    if b.None? then a else Some(JoinDemand(a, b.value))
  }

  lemma PlusLaws(a: Option<Demand>, b: Option<Demand>, c: Option<Demand>)
    ensures Plus(a, b) == Plus(b, a)
    ensures Plus(Plus(a, b), c) == Plus(a, Plus(b, c))
  {
    if a.Some? && b.Some? {
      assert a.value.fields + b.value.fields == b.value.fields + a.value.fields;
      if c.Some? {
        assert (a.value.fields + b.value.fields) + c.value.fields == a.value.fields + (b.value.fields + c.value.fields);
      }
    }
  }

  function Single(n: VarNeed, path: string): Option<Demand> {
    if n.path == path then Some(OfNeed(n)) else None
  }

  lemma {:induction false} DemandConcat(xs: seq<VarNeed>, ys: seq<VarNeed>, path: string)
    ensures DemandOf(xs + ys, path) == Plus(DemandOf(xs, path), DemandOf(ys, path))
  {
    if ys == [] {
      assert xs + ys == xs;
    } else {
      assert Front(xs + ys) == xs + Front(ys) && Last(xs + ys) == Last(ys);
      DemandConcat(xs, Front(ys), path);
      PlusLaws(DemandOf(xs, path), DemandOf(Front(ys), path), Single(Last(ys), path));
    }
  }

  lemma DemandCons(n: VarNeed, rest: seq<VarNeed>, path: string)
    ensures DemandOf([n] + rest, path) == Plus(Single(n, path), DemandOf(rest, path))
  {
    DemandConcat([n], rest, path);
    assert Front([n]) == [];
  }

  lemma {:induction false} InsertDemand(n: VarNeed, sorted: seq<VarNeed>, path: string)
    ensures DemandOf(InsertByPath(n, sorted), path) == Plus(Single(n, path), DemandOf(sorted, path))
  {
    if sorted == [] || StrLe(n.path, sorted[0].path) {
      DemandCons(n, sorted, path);
    } else {
      InsertDemand(n, sorted[1..], path);
      DemandCons(sorted[0], InsertByPath(n, sorted[1..]), path);
      DemandCons(sorted[0], sorted[1..], path);
      assert sorted == [sorted[0]] + sorted[1..];
      var x, y, z := Single(n, path), Single(sorted[0], path), DemandOf(sorted[1..], path);
      PlusLaws(y, x, z);
      PlusLaws(x, y, z);
    }
  }

  lemma {:induction false} SortDemand(needs: seq<VarNeed>, path: string)
    ensures DemandOf(SortByPath(needs), path) == DemandOf(needs, path)
  {
    if needs == [] {
    } else {
      SortDemand(needs[1..], path);
      InsertDemand(needs[0], SortByPath(needs[1..]), path);
      DemandCons(needs[0], needs[1..], path);
      assert needs == [needs[0]] + needs[1..];
    }
  }

  lemma {:induction false} SortedFieldsSame(fields: seq<string>)
    ensures (set f | f in SortedFields(fields)) == (set f | f in fields)
  {
    if fields == [] {
    } else {
      SortedFieldsSame(fields[1..]);
      InsertFieldAdds(fields[0], SortedFields(fields[1..]));
      assert (set f | f in fields) == {fields[0]} + (set f | f in fields[1..]);
    }
  }

  lemma {:induction false} InsertFieldAdds(f: string, sorted: seq<string>)
    ensures (set g | g in InsertField(f, sorted)) == {f} + (set g | g in sorted)
  {
    if sorted != [] && f != sorted[0] && !StrLe(f, sorted[0]) {
      InsertFieldAdds(f, sorted[1..]);
      assert (set g | g in sorted) == {sorted[0]} + (set g | g in sorted[1..]);
      assert (set g | g in InsertField(f, sorted)) == {sorted[0]} + (set g | g in InsertField(f, sorted[1..]));
    }
  }

  lemma MergeIntoDemand(b: VarNeed, a: VarNeed)
    ensures OfNeed(MergeInto(b, a)) == JoinDemand(Some(OfNeed(b)), OfNeed(a))
  {
    SortedFieldsSame(b.fields + a.fields);
    assert (set f | f in b.fields + a.fields) == (set f | f in b.fields) + (set f | f in a.fields);
  }

  lemma DedupStepDemand(kept: seq<VarNeed>, n: VarNeed, path: string)
    ensures DemandOf(DedupStep(kept, n), path) == Plus(DemandOf(kept, path), Single(n, path))
  {
    if kept != [] && Last(kept).path == n.path {
      var merged := MergeInto(Last(kept), n);
      MergeIntoDemand(Last(kept), n);
      assert Front(Front(kept) + [merged]) == Front(kept);
      PlusLaws(DemandOf(Front(kept), path), Single(Last(kept), path), Single(n, path));
    } else {
      assert Front(kept + [n]) == kept;
    }
  }

  /** `kept` has strictly increasing paths, and everything still to come sorts at or after its end. */
  predicate DedupInvariant(kept: seq<VarNeed>, rest: seq<VarNeed>) {
    && SortedPaths(kept) && DistinctPaths(kept) && SortedPaths(rest)
    && (kept != [] ==> forall j | 0 <= j < |rest| :: StrLe(Last(kept).path, rest[j].path))
  }

  lemma DedupStepKeeps(kept: seq<VarNeed>, rest: seq<VarNeed>)
    requires rest != [] && DedupInvariant(kept, rest)
    ensures DedupInvariant(DedupStep(kept, rest[0]), rest[1..])
  {
    var n := rest[0];
    var next := DedupStep(kept, n);
    assert Last(next).path == n.path;
    forall j | 0 <= j < |rest[1..]| ensures StrLe(Last(next).path, rest[1..][j].path) {
      assert StrLe(rest[0].path, rest[j + 1].path);
    }
    if kept != [] && Last(kept).path != n.path {
      forall i | 0 <= i < |kept| ensures StrLe(kept[i].path, n.path) && kept[i].path != n.path {
        if i < |kept| - 1 {
          StrLeTransitive(kept[i].path, Last(kept).path, n.path);
          if kept[i].path == n.path { StrLeTotal(kept[i].path, Last(kept).path); }
        }
      }
    }
  }

  lemma NoDemandEmpty(path: string)
    ensures DemandOf([], path) == None
  {
  }

  lemma {:induction false} DedupKeeps(kept: seq<VarNeed>, rest: seq<VarNeed>, path: string)
    requires DedupInvariant(kept, rest)
    ensures SortedPaths(Dedup(kept, rest)) && DistinctPaths(Dedup(kept, rest))
    ensures DemandOf(Dedup(kept, rest), path) == Plus(DemandOf(kept, path), DemandOf(rest, path))
    decreases |rest|
  {
    hide DemandOf, DedupStep, StrLe;
    if rest == [] {
      assert DemandOf([], path) == None by { NoDemandEmpty(path); }
      PlusLaws(DemandOf(kept, path), None, None);
    } else {
      DedupStepKeeps(kept, rest);
      DedupKeeps(DedupStep(kept, rest[0]), rest[1..], path);
      DedupStepDemand(kept, rest[0], path);
      DemandCons(rest[0], rest[1..], path);
      assert rest == [rest[0]] + rest[1..];
      PlusLaws(DemandOf(kept, path), Single(rest[0], path), DemandOf(rest[1..], path));
    }
  }

  /** The merge lists each path once, in order, and asks of it exactly what all the recorded needs asked together. */
  lemma MergeExact(needs: seq<VarNeed>, path: string)
    ensures SortedPaths(Merge(needs)) && DistinctPaths(Merge(needs))
    ensures DemandOf(Merge(needs), path) == DemandOf(needs, path)
  {
    SortKeeps(needs);
    SortDemand(needs, path);
    DedupKeeps([], SortByPath(needs), path);
    PlusLaws(None, DemandOf(needs, path), None);
  }

  /** With distinct paths, a need is the whole demand on its path. */
  lemma {:induction false} NeedIsDemand(needs: seq<VarNeed>, i: nat)
    requires DistinctPaths(needs) && i < |needs|
    ensures DemandOf(needs, needs[i].path) == Some(OfNeed(needs[i]))
  {
    if i == |needs| - 1 {
      NoDemand(Front(needs), needs[i].path);
    } else {
      NeedIsDemand(Front(needs), i);
      assert Front(needs)[i] == needs[i];
    }
  }

  lemma {:induction false} NoDemand(needs: seq<VarNeed>, path: string)
    ensures DemandOf(needs, path).None? <==> forall n | n in needs :: n.path != path
  {
    if needs == [] {
    } else {
      NoDemand(Front(needs), path);
      assert needs == Front(needs) + [Last(needs)];
    }
  }
}

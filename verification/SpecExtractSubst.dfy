/** The substitution engine: edits applied from the back so that earlier offsets stay valid. */
module SpecExtractSubst {
  import opened Common

  datatype Substitution = Substitution(start: nat, end: nat, replacement: string)

  type Subs = seq<Substitution>

  /** Ranges in the text; two of them may touch, inserts may sit at an edge, nothing lies inside another range. */
  predicate Apart(a: Substitution, b: Substitution) {
    a.end <= b.start || b.end <= a.start
  }

  ghost predicate Applicable(source: string, subs: Subs) {
    && (forall i | 0 <= i < |subs| :: subs[i].start <= subs[i].end <= |source|)
    && (forall i, j | 0 <= i < j < |subs| :: Apart(subs[i], subs[j]))
  }

  // ---- the order of application ----

  /** The sort key puts `a` first or leaves the two as they are. */
  predicate Ahead(a: Substitution, b: Substitution) {
    a.start > b.start || (a.start == b.start && a.end >= b.end)
  }

  function Insert(x: Substitution, sorted: Subs): Subs {
    if sorted == [] || Ahead(x, sorted[0]) then [x] + sorted else [sorted[0]] + Insert(x, sorted[1..])
  }

  /** The stable sort by descending start, then descending end. */
  function SortSubs(subs: Subs): Subs {
    if subs == [] then [] else Insert(subs[0], SortSubs(subs[1..]))
  }

  ghost predicate Sorted(subs: Subs) {
    forall i, j | 0 <= i < j < |subs| :: Ahead(subs[i], subs[j])
  }

  lemma {:induction false} InsertAdds(x: Substitution, sorted: Subs)
    ensures multiset(Insert(x, sorted)) == multiset(sorted) + multiset{x}
  {
    hide Ahead;
    if sorted == [] || Ahead(x, sorted[0]) {
    } else {
      assert sorted == [sorted[0]] + sorted[1..];
      InsertAdds(x, sorted[1..]);
    }
  }

  lemma {:induction false} InsertHolds(x: Substitution, sorted: Subs, j: nat)
    requires j < |Insert(x, sorted)|
    ensures Insert(x, sorted)[j] == x || Insert(x, sorted)[j] in sorted
  {
    hide Ahead;
    if sorted == [] || Ahead(x, sorted[0]) || j == 0 {
    } else {
      InsertHolds(x, sorted[1..], j - 1);
    }
  }

  /** Putting a first element before a sorted list keeps it sorted. */
  lemma SortedCons(x: Substitution, sorted: Subs)
    requires Sorted(sorted) && forall j | 0 <= j < |sorted| :: Ahead(x, sorted[j])
    ensures Sorted([x] + sorted)
  {
    hide Ahead;
  }

  lemma FirstAhead(x: Substitution, sorted: Subs, j: nat)
    requires Sorted(sorted) && j < |sorted| && Ahead(x, sorted[0])
    ensures Ahead(x, sorted[j])
  {
    assert j == 0 || Ahead(sorted[0], sorted[j]);
  }

  lemma {:induction false} InsertSorts(x: Substitution, sorted: Subs)
    requires Sorted(sorted)
    ensures Sorted(Insert(x, sorted))
  {
    if sorted == [] || Ahead(x, sorted[0]) {
      forall j | 0 <= j < |sorted| ensures Ahead(x, sorted[j]) {
        FirstAhead(x, sorted, j);
      }
      SortedCons(x, sorted);
    } else {
      var first, rest := sorted[0], Insert(x, sorted[1..]);
      InsertSorts(x, sorted[1..]);
      forall j | 0 <= j < |rest| ensures Ahead(first, rest[j]) {
        InsertHolds(x, sorted[1..], j);
        if rest[j] != x {
          var k :| 0 <= k < |sorted[1..]| && sorted[1..][k] == rest[j];
          assert Ahead(sorted[0], sorted[k + 1]);
        }
      }
      SortedCons(first, rest);
    }
  }

  lemma {:induction false} SortSorts(subs: Subs)
    ensures Sorted(SortSubs(subs)) && multiset(SortSubs(subs)) == multiset(subs)
  {
    if subs == [] {
    } else {
      SortSorts(subs[1..]);
      InsertSorts(subs[0], SortSubs(subs[1..]));
      InsertAdds(subs[0], SortSubs(subs[1..]));
      assert subs == [subs[0]] + subs[1..];
    }
  }

  // ---- the splice ----

  /** Ascending edits in one pass over the text, from offset `from`. */
  function Splice(source: string, edits: Subs, from: nat): string
    requires Ascending(edits, from, |source|)
    decreases |edits|
  {
    if edits == [] then source[from..]
    else source[from..edits[0].start] + edits[0].replacement + Splice(source, edits[1..], edits[0].end)
  }

  /** Each edit begins where the one before it ends, or later. */
  predicate Ascending(edits: Subs, from: nat, size: nat): (b: bool)
    ensures b ==> from <= size
    decreases |edits|
  {
    if edits == [] then from <= size
    else from <= edits[0].start <= edits[0].end && Ascending(edits[1..], edits[0].end, size)
  }

  function Reversed(subs: Subs): (r: Subs)
    ensures |r| == |subs|
  {
    if subs == [] then [] else [Last(subs)] + Reversed(Front(subs))
  }

  /** Descending and pairwise disjoint: what the sort leaves for the loop. */
  ghost predicate Descending(subs: Subs, size: nat) {
    && (forall i | 0 <= i < |subs| :: subs[i].start <= subs[i].end <= size)
    && (forall i, j | 0 <= i < j < |subs| :: subs[j].end <= subs[i].start)
  }

  lemma ApartSwap(subs: Subs, i: nat, j: nat)
    requires i < |subs| && j < |subs| && i != j && forall a, b | 0 <= a < b < |subs| :: Apart(subs[a], subs[b])
    ensures Apart(subs[i], subs[j])
  {
    assert i < j ==> Apart(subs[i], subs[j]);
    assert j < i ==> Apart(subs[j], subs[i]);
  }

  /** Pairwise disjointness is a matter of the elements, not their order. */
  ghost predicate AllApart(m: multiset<Substitution>) {
    forall a, b :: a in m && b in m && (a != b || m[a] > 1) ==> Apart(a, b)
  }

  lemma {:induction false} ApartAsMultiset(subs: Subs)
    requires forall i, j | 0 <= i < j < |subs| :: Apart(subs[i], subs[j])
    ensures AllApart(multiset(subs))
  {
    if subs == [] {
    } else {
      ApartAsMultiset(Front(subs));
      assert subs == Front(subs) + [Last(subs)];
      forall a | a in Front(subs) ensures Apart(a, Last(subs)) {
        var i :| 0 <= i < |subs| - 1 && subs[i] == a;
        ApartSwap(subs, i, |subs| - 1);
      }
    }
  }

  lemma MultisetApart(subs: Subs, i: nat, j: nat)
    requires AllApart(multiset(subs)) && i < j < |subs|
    ensures Apart(subs[i], subs[j])
  {
    assert subs == subs[..i] + [subs[i]] + subs[i + 1..j] + [subs[j]] + subs[j + 1..];
    assert multiset(subs) == multiset(subs[..i]) + multiset{subs[i]} + multiset(subs[i + 1..j]) + multiset{subs[j]} + multiset(subs[j + 1..]);
  }

  /** The sorted edits go down the text without overlap. */
  lemma SortedDescends(source: string, subs: Subs)
    requires Applicable(source, subs)
    ensures Descending(SortSubs(subs), |source|)
  {
    var sorted := SortSubs(subs);
    SortSorts(subs);
    ApartAsMultiset(subs);
    forall i | 0 <= i < |sorted| ensures sorted[i].start <= sorted[i].end <= |source| {
      assert sorted[i] in multiset(sorted);
      assert sorted[i] in subs;
    }
    forall i, j | 0 <= i < j < |sorted| ensures sorted[j].end <= sorted[i].start {
      MultisetApart(sorted, i, j);
      assert Ahead(sorted[i], sorted[j]);
    }
  }

  lemma {:induction false} ReversedAscends(subs: Subs, size: nat, from: nat)
    requires Descending(subs, size) && from <= (if subs == [] then size else Last(subs).start)
    ensures Ascending(Reversed(subs), from, size)
    decreases |subs|
  {
    if subs == [] {
    } else {
      var rest := Front(subs);
      if rest != [] {
        assert Last(rest) == subs[|subs| - 2];
      }
      ReversedAscends(rest, size, Last(subs).end);
      assert Reversed(subs)[1..] == Reversed(rest);
    }
  }

  /** The text after the first edits of the list: the front of the source, then the splice of what they cover. */
  function Partial(source: string, subs: Subs, from: nat): string
    requires Descending(subs, |source|) && from <= (if subs == [] then |source| else Last(subs).start)
  {
    ReversedAscends(subs, |source|, from);
    Splice(source, Reversed(subs), from)
  }

  lemma SpliceUnfold(source: string, edits: Subs, from: nat)
    requires edits != [] && Ascending(edits, from, |source|)
    ensures Splice(source, edits, from)
         == source[from..edits[0].start] + edits[0].replacement + Splice(source, edits[1..], edits[0].end)
  {
  }

  lemma SpliceFrom(source: string, edits: Subs, from: nat, mid: nat)
    requires Ascending(edits, mid, |source|) && from <= mid
    ensures Ascending(edits, from, |source|)
    ensures Splice(source, edits, from) == source[from..mid] + Splice(source, edits, mid)
  {
    assert Ascending(edits, from, |source|);
    if edits == [] {
      assert source[from..] == source[from..mid] + source[mid..];
    } else {
      hide Splice, Ascending;
      SpliceUnfold(source, edits, from);
      SpliceUnfold(source, edits, mid);
      StartInside(edits, mid, |source|);
      var s := edits[0].start;
      assert source[from..s] == source[from..mid] + source[mid..s];
      var r, rest := edits[0].replacement, Splice(source, edits[1..], edits[0].end);
      Regroup(source[from..mid], source[mid..s], r);
      Regroup(source[from..mid], source[mid..s] + r, rest);
    }
  }

  lemma StartInside(edits: Subs, from: nat, size: nat)
    requires edits != [] && Ascending(edits, from, size)
    ensures from <= edits[0].start <= size && Ascending(edits[1..], edits[0].end, size)
  {
  }

  /** One more edit in front of the ones done. */
  lemma OneMore(source: string, subs: Subs, k: nat)
    requires Descending(subs, |source|) && k < |subs|
    ensures Descending(subs[..k], |source|) && Descending(subs[..k + 1], |source|)
    ensures var out, sub := Partial(source, subs[..k], 0), subs[k];
            && sub.end <= |out|
            && out[..sub.start] + sub.replacement + out[sub.end..] == Partial(source, subs[..k + 1], 0)
  {
    var before, sub := subs[..k], subs[k];
    assert Front(subs[..k + 1]) == before && Last(subs[..k + 1]) == sub;
    if k > 0 {
      assert Last(before) == subs[k - 1];
    }
    ReversedAscends(before, |source|, sub.end);
    SpliceFrom(source, Reversed(before), 0, sub.end);
    var tail := Splice(source, Reversed(before), sub.end);
    var out := Partial(source, before, 0);
    assert out == source[..sub.end] + tail;
    assert out[..sub.start] == source[0..sub.start] && out[sub.end..] == tail;
    assert Reversed(subs[..k + 1])[1..] == Reversed(before);
  }

  lemma {:induction false} Nothing(source: string)
    ensures Partial(source, [], 0) == source
  {
    assert source[0..] == source;
  }

  /** What `apply_substitutions` gives: the splice of the edits in ascending order. */
  function Applied(source: string, subs: Subs): string
    requires Applicable(source, subs)
  {
    SortedDescends(source, subs);
    Partial(source, SortSubs(subs), 0)
  }

  /** The loop stays in bounds at every edit and ends with the simultaneous splice. */
  method ApplySubstitutions(source: string, subs: Subs) returns (out: string)
    requires Applicable(source, subs)
    ensures out == Applied(source, subs)
  {
    hide Sorted, SortSubs, Applicable, Reversed, Splice;
    SortedDescends(source, subs);
    var sorted := SortSubs(subs);
    out := source;
    Nothing(source);
    for k := 0 to |sorted|
      invariant Descending(sorted[..k], |source|) && out == Partial(source, sorted[..k], 0)
    {
      OneMore(source, sorted, k);
      var sub := sorted[k];
      out := out[..sub.start] + sub.replacement + out[sub.end..];
    }
    assert sorted[..|sorted|] == sorted;
  }

  // ---- input order ----

  predicate IsInsert(s: Substitution) {
    s.start == s.end
  }

  /** Two inserts at one offset, in either order, put in the same text. */
  predicate Commute(a: Substitution, b: Substitution) {
    IsInsert(a) && IsInsert(b) && a.start == b.start ==> a.replacement + b.replacement == b.replacement + a.replacement
  }

  ghost predicate Commuting(subs: Subs) {
    forall i, j | 0 <= i < j < |subs| :: Commute(subs[i], subs[j])
  }

  /** Applicability does not depend on the order. */
  lemma ApplicablePermuted(source: string, a: Subs, b: Subs)
    requires Applicable(source, a) && multiset(a) == multiset(b)
    ensures Applicable(source, b)
  {
    ApartAsMultiset(a);
    forall i | 0 <= i < |b| ensures b[i].start <= b[i].end <= |source| {
      assert b[i] in multiset(b);
      assert b[i] in a;
    }
    forall i, j | 0 <= i < j < |b| ensures Apart(b[i], b[j]) {
      MultisetApart(b, i, j);
    }
  }

  // ---- commuting inserts: every order gives one text ----

  /** Ascending in the sort's order, equal keys in any order, and commuting. */
  ghost predicate SortedUp(e: Subs) {
    forall i, j | 0 <= i < j < |e| :: Ahead(e[j], e[i]) && Commute(e[i], e[j])
  }

  lemma SortedUpTail(e: Subs)
    requires e != [] && SortedUp(e)
    ensures SortedUp(e[1..])
  {
    hide Ahead, Commute;
  }

  /** Inserts at one offset in front of another one there, all commuting with it. */
  predicate SameSpot(front: Subs, x: Substitution) {
    IsInsert(x) && forall i | 0 <= i < |front| :: IsInsert(front[i]) && front[i].start == x.start && Commute(front[i], x)
  }

  lemma AscendingUnfold(e: Subs, from: nat, size: nat)
    requires e != []
    ensures Ascending(e, from, size) <==> from <= e[0].start <= e[0].end && Ascending(e[1..], e[0].end, size)
  {
  }

  /** The insert may as well come first. */
  lemma {:induction false} MoveToFront(source: string, front: Subs, x: Substitution, rest: Subs, from: nat)
    requires SameSpot(front, x) && Ascending(front + [x] + rest, from, |source|)
    ensures Ascending([x] + (front + rest), from, |source|)
    ensures Splice(source, front + [x] + rest, from) == Splice(source, [x] + (front + rest), from)
    decreases |front|
  {
    if front == [] {
      assert front + [x] + rest == [x] + (front + rest);
    } else {
      var p, more := front[0], front[1..];
      var before, after, inner := front + [x] + rest, [x] + (front + rest), [x] + (more + rest);
      assert before[1..] == more + [x] + rest && before[0] == p;
      assert after[0] == x && after[1..] == front + rest && after[1..][0] == p && after[1..][1..] == more + rest;
      assert inner[1..] == more + rest;
      assert SameSpot(more, x) && Commute(p, x) && IsInsert(p);
      var o := x.start;
      hide Splice, Ascending, SameSpot;
      AscendingUnfold(before, from, |source|);
      MoveToFront(source, more, x, rest, o);
      AscendingUnfold(inner, o, |source|);
      AscendingUnfold(after[1..], o, |source|);
      AscendingUnfold(after, from, |source|);
      SpliceUnfold(source, before, from);
      SpliceUnfold(source, inner, o);
      SpliceUnfold(source, after, from);
      SpliceUnfold(source, after[1..], o);
      SwapTexts(source[from..o], p.replacement, x.replacement, source[o..o], Splice(source, more + rest, o));
    }
  }

  lemma SwapTexts(a: string, p: string, x: string, nothing: string, rest: string)
    requires nothing == [] && p + x == x + p
    ensures a + p + (nothing + x + rest) == a + x + (nothing + p + rest)
  {
    assert nothing + x == x && nothing + p == p;
    Regroup(a, p, x + rest);
    Regroup(p, x, rest);
    Regroup(a, x, p + rest);
    Regroup(x, p, rest);
    assert a + p + (x + rest) == a + (p + x + rest);
    assert a + x + (p + rest) == a + (x + p + rest);
  }

  /** A list the splice can take in its order: sorted, commuting, disjoint. */
  ghost predicate Ordered(f: Subs) {
    && SortedUp(f)
    && (forall i, j | 0 <= i < j < |f| :: Apart(f[i], f[j]))
    && (forall i | 0 <= i < |f| :: f[i].start <= f[i].end)
  }

  lemma LowestFirst(e: Subs, x: Substitution)
    requires SortedUp(e) && x in e
    ensures e[0] == x || Ahead(x, e[0])
  {
    var i :| 0 <= i < |e| && e[i] == x;
    assert i > 0 ==> Ahead(e[i], e[0]);
  }

  lemma RemoveOne(e: Subs, f: Subs, k: nat)
    requires e != [] && multiset(e) == multiset(f) && k < |f| && f[k] == e[0]
    ensures multiset(e[1..]) == multiset(f[..k] + f[k + 1..])
  {
    TailMultiset(e);
    assert f == f[..k] + [f[k]] + f[k + 1..];
    assert multiset(f) == multiset(f[..k]) + multiset{f[k]} + multiset(f[k + 1..]);
  }

  lemma TailMultiset(a: Subs)
    requires a != []
    ensures multiset(a[1..]) == multiset(a) - multiset{a[0]} && a[0] in multiset(a)
  {
    assert a == [a[0]] + a[1..];
  }

  lemma FrontAtSameSpot(e: Subs, f: Subs, k: nat, i: nat)
    requires e != [] && SortedUp(e) && Ordered(f) && i < k < |f| && f[k] == e[0] && f[i] in e
    ensures IsInsert(f[i]) && IsInsert(e[0]) && f[i].start == e[0].start && Commute(f[i], e[0])
  {
    assert Ahead(f[k], f[i]) && Commute(f[i], f[k]) && Apart(f[i], f[k]);
    LowestFirst(e, f[i]);
  }

  /** The element that starts one list is found in the other behind inserts at its own offset. */
  lemma FirstIsFound(e: Subs, f: Subs) returns (k: nat)
    requires e != [] && multiset(e) == multiset(f) && SortedUp(e) && Ordered(f)
    ensures k < |f| && f[k] == e[0] && (k > 0 ==> SameSpot(f[..k], e[0]))
    ensures multiset(e[1..]) == multiset(f[..k] + f[k + 1..])
  {
    hide SortedUp, Ordered, Commute, IsInsert;
    TailMultiset(e);
    assert e[0] in multiset(f);
    k :| 0 <= k < |f| && f[k] == e[0];
    forall i | 0 <= i < k ensures IsInsert(f[i]) && IsInsert(e[0]) && f[i].start == e[0].start && Commute(f[i], e[0]) {
      assert f[i] in multiset(f);
      assert f[i] in multiset(e);
      FrontAtSameSpot(e, f, k, i);
    }
    RemoveOne(e, f, k);
  }

  /** What is left of an ordered list when one element goes. */
  lemma WithoutOne(f: Subs, k: nat)
    requires k < |f| && Ordered(f)
    ensures Ordered(f[..k] + f[k + 1..])
  {
    hide Ahead, Commute, Apart;
    var g := f[..k] + f[k + 1..];
    assert forall i | 0 <= i < |g| :: g[i] == f[if i < k then i else i + 1];
  }

  /** Two lists of the same edits, both in order, splice alike. */
  lemma {:induction false} SameSplice(source: string, e: Subs, f: Subs, from: nat)
    requires multiset(e) == multiset(f) && SortedUp(e) && Ordered(f)
    requires Ascending(e, from, |source|) && Ascending(f, from, |source|)
    ensures Splice(source, e, from) == Splice(source, f, from)
    decreases |e|
  {
    hide Splice, Ascending, SortedUp, Ordered, SameSpot;
    assert |multiset(e)| == |e| && |multiset(f)| == |f|;
    if e == [] {
      assert f == [];
    } else {
      var k := FirstIsFound(e, f);
      var x, g := e[0], f[..k] + f[k + 1..];
      FoundInFront(source, f, k, from);
      WithoutOne(f, k);
      AscendingUnfold([x] + g, from, |source|);
      AscendingUnfold(e, from, |source|);
      assert ([x] + g)[1..] == g;
      SortedUpTail(e);
      SameSplice(source, e[1..], g, x.end);
      SpliceUnfold(source, e, from);
      SpliceUnfold(source, [x] + g, from);
    }
  }

  lemma FoundInFront(source: string, f: Subs, k: nat, from: nat)
    requires k < |f| && Ascending(f, from, |source|) && (k > 0 ==> SameSpot(f[..k], f[k]))
    ensures var moved := [f[k]] + (f[..k] + f[k + 1..]);
            Ascending(moved, from, |source|) && Splice(source, moved, from) == Splice(source, f, from)
  {
    hide Splice, Ascending, SameSpot;
    assert f == f[..k] + [f[k]] + f[k + 1..];
    if k == 0 {
      assert [f[k]] + (f[..k] + f[k + 1..]) == f;
    } else {
      MoveToFront(source, f[..k], f[k], f[k + 1..], from);
    }
  }

  lemma {:induction false} ReversedAt(subs: Subs, i: nat)
    requires i < |subs|
    ensures Reversed(subs)[i] == subs[|subs| - 1 - i]
    decreases |subs|
  {
    if i == 0 {
    } else {
      ReversedAt(Front(subs), i - 1);
    }
  }

  lemma {:induction false} ReversedMultiset(subs: Subs)
    ensures multiset(Reversed(subs)) == multiset(subs)
  {
    if subs == [] {
    } else {
      ReversedMultiset(Front(subs));
      assert subs == Front(subs) + [Last(subs)];
    }
  }

  lemma ReversedSortedUp(source: string, subs: Subs)
    requires Applicable(source, subs) && Commuting(subs) && Sorted(subs)
    ensures Ordered(Reversed(subs))
  {
    hide Ahead, Commute, Reversed;
    var e, n := Reversed(subs), |subs|;
    forall i | 0 <= i < n ensures e[i] == subs[n - 1 - i] {
      ReversedAt(subs, i);
    }
    forall i, j | 0 <= i < j < n ensures Ahead(e[j], e[i]) && Commute(e[i], e[j]) && Apart(e[i], e[j]) {
      assert Ahead(subs[n - 1 - j], subs[n - 1 - i]);
      assert Commute(subs[n - 1 - j], subs[n - 1 - i]) && Apart(subs[n - 1 - j], subs[n - 1 - i]);
      CommuteSwap(subs[n - 1 - j], subs[n - 1 - i]);
    }
  }

  lemma CommuteSwap(a: Substitution, b: Substitution)
    ensures Commute(a, b) <==> Commute(b, a)
  {
  }

  ghost predicate AllCommute(m: multiset<Substitution>) {
    forall a, b | a in m && b in m :: Commute(a, b)
  }

  lemma CommutingAsMultiset(subs: Subs)
    ensures Commuting(subs) <==> AllCommute(multiset(subs))
  {
    hide Commute;
    if Commuting(subs) {
      forall a, b | a in subs && b in subs ensures Commute(a, b) {
        var i :| 0 <= i < |subs| && subs[i] == a;
        var j :| 0 <= j < |subs| && subs[j] == b;
        CommuteSwap(a, b);
        CommuteSelf(a);
        assert i < j ==> Commute(subs[i], subs[j]);
        assert j < i ==> Commute(subs[j], subs[i]);
      }
    }
    if AllCommute(multiset(subs)) {
      forall i, j | 0 <= i < j < |subs| ensures Commute(subs[i], subs[j]) {
        assert subs[i] in multiset(subs) && subs[j] in multiset(subs);
      }
    }
  }

  lemma CommuteSelf(a: Substitution)
    ensures Commute(a, a)
  {
  }

  /** With commuting inserts any order of the edits gives the same text. */
  lemma OrderIndependent(source: string, a: Subs, b: Subs)
    requires Applicable(source, a) && multiset(a) == multiset(b) && Commuting(a)
    ensures Applicable(source, b) && Applied(source, a) == Applied(source, b)
  {
    hide SortSubs, Sorted, Splice, Commuting, AllCommute, Applicable, SortedUp, Descending;
    assert forall f :: Ordered(f) ==> SortedUp(f);
    hide Ordered;
    ApplicablePermuted(source, a, b);
    var x, y := SortSubs(a), SortSubs(b);
    SortSorts(a);
    SortSorts(b);
    ApplicablePermuted(source, a, x);
    ApplicablePermuted(source, b, y);
    CommutingAsMultiset(a);
    CommutingAsMultiset(x);
    CommutingAsMultiset(y);
    ReversedSortedUp(source, x);
    ReversedSortedUp(source, y);
    ReversedMultiset(x);
    ReversedMultiset(y);
    SortedDescends(source, a);
    SortedDescends(source, b);
    ReversedAscends(x, |source|, 0);
    ReversedAscends(y, |source|, 0);
    SameSplice(source, Reversed(x), Reversed(y), 0);
  }

  // ---- inserts that do not commute: the order shows ----

  /** Two edits with one key enter a sorted list next to each other, at a place that depends on the key only. */
  lemma {:induction false} InsertBoth(a: Substitution, b: Substitution, sorted: Subs) returns (k: nat)
    requires a.start == b.start && a.end == b.end
    ensures k <= |sorted|
    ensures Insert(a, Insert(b, sorted)) == sorted[..k] + [a, b] + sorted[k..]
    ensures Insert(b, Insert(a, sorted)) == sorted[..k] + [b, a] + sorted[k..]
    decreases |sorted|
  {
    if sorted == [] || Ahead(a, sorted[0]) {
      k := 0;
      assert [b] + sorted == Insert(b, sorted) && [a] + sorted == Insert(a, sorted);
      assert Insert(a, [b] + sorted) == [a] + ([b] + sorted) && Insert(b, [a] + sorted) == [b] + ([a] + sorted);
      assert [a] + ([b] + sorted) == sorted[..0] + [a, b] + sorted[0..];
      assert [b] + ([a] + sorted) == sorted[..0] + [b, a] + sorted[0..];
    } else {
      var m := InsertBoth(a, b, sorted[1..]);
      k := m + 1;
      var one := [sorted[0]];
      assert Insert(b, sorted) == one + Insert(b, sorted[1..]) && Insert(a, sorted) == one + Insert(a, sorted[1..]);
      assert Insert(b, sorted)[1..] == Insert(b, sorted[1..]) && Insert(a, sorted)[1..] == Insert(a, sorted[1..]);
      assert sorted[..k] == one + sorted[1..][..m] && sorted[k..] == sorted[1..][m..];
    }
  }

  lemma {:induction false} ReversedConcat(a: Subs, b: Subs)
    ensures Reversed(a + b) == Reversed(b) + Reversed(a)
    decreases |b|
  {
    if b == [] {
      assert a + b == a && Reversed(b) + Reversed(a) == Reversed(a);
    } else {
      assert Front(a + b) == a + Front(b) && Last(a + b) == Last(b);
      ReversedConcat(a, Front(b));
      assert [Last(b)] + (Reversed(Front(b)) + Reversed(a)) == [Last(b)] + Reversed(Front(b)) + Reversed(a);
    }
  }

  /** What the edits before `rest` write, and where they end. */
  function Written(source: string, front: Subs, rest: Subs, from: nat): (string, nat)
    requires Ascending(front + rest, from, |source|)
    decreases |front|
  {
    if front == [] then ([], from)
    else
      assert (front + rest)[1..] == front[1..] + rest;
      var (text, end) := Written(source, front[1..], rest, front[0].end);
      (source[from..front[0].start] + front[0].replacement + text, end)
  }

  lemma {:induction false} SpliceParts(source: string, front: Subs, rest: Subs, from: nat)
    requires Ascending(front + rest, from, |source|)
    ensures var (text, end) := Written(source, front, rest, from);
            Ascending(rest, end, |source|) && Splice(source, front + rest, from) == text + Splice(source, rest, end)
    decreases |front|
  {
    if front == [] {
      assert front + rest == rest;
    } else {
      var all := front + rest;
      assert all[1..] == front[1..] + rest && all[0] == front[0];
      SpliceParts(source, front[1..], rest, front[0].end);
      var (text, end) := Written(source, front[1..], rest, front[0].end);
      hide Splice, Ascending;
      SpliceUnfold(source, all, from);
      var head := source[from..front[0].start] + front[0].replacement;
      Regroup(head, text, Splice(source, rest, end));
    }
  }

  /** The text written so far does not depend on what follows. */
  lemma {:induction false} WrittenAlone(source: string, front: Subs, rest: Subs, rest': Subs, from: nat)
    requires Ascending(front + rest, from, |source|) && Ascending(front + rest', from, |source|)
    ensures Written(source, front, rest, from) == Written(source, front, rest', from)
    decreases |front|
  {
    if front == [] {
    } else {
      assert (front + rest)[1..] == front[1..] + rest && (front + rest')[1..] == front[1..] + rest';
      WrittenAlone(source, front[1..], rest, rest', front[0].end);
    }
  }

  /** Two adjacent inserts at one offset: both texts in order, between the same two texts. */
  lemma InsertsBetween(source: string, low: Subs, p: Substitution, q: Substitution, high: Subs)
    requires IsInsert(p) && IsInsert(q) && p.start == q.start
    requires Ascending(low + [p, q] + high, 0, |source|) && Ascending(low + [q, p] + high, 0, |source|)
    requires Splice(source, low + [p, q] + high, 0) == Splice(source, low + [q, p] + high, 0)
    ensures p.replacement + q.replacement == q.replacement + p.replacement
  {
    var one, two := [p, q] + high, [q, p] + high;
    assert low + [p, q] + high == low + one && low + [q, p] + high == low + two;
    SpliceParts(source, low, one, 0);
    SpliceParts(source, low, two, 0);
    WrittenAlone(source, low, one, two, 0);
    var (text, end) := Written(source, low, one, 0);
    TwoInserts(source, p, q, high, end);
    TwoInserts(source, q, p, high, end);
    var gap, rest := source[end..p.start], Splice(source, high, p.end);
    Cancel(text, gap, p.replacement + q.replacement, q.replacement + p.replacement, rest);
  }

  lemma TwoInserts(source: string, p: Substitution, q: Substitution, high: Subs, from: nat)
    requires IsInsert(p) && IsInsert(q) && p.start == q.start && Ascending([p, q] + high, from, |source|)
    ensures from <= p.start <= |source| && Ascending(high, p.end, |source|)
    ensures Splice(source, [p, q] + high, from)
         == source[from..p.start] + (p.replacement + q.replacement) + Splice(source, high, p.end)
  {
    var e := [p, q] + high;
    assert e[1..] == [q] + high && ([q] + high)[1..] == high;
    hide Splice, Ascending;
    AscendingUnfold(e, from, |source|);
    AscendingUnfold([q] + high, p.end, |source|);
    SpliceUnfold(source, e, from);
    SpliceUnfold(source, [q] + high, p.end);
    var rest := Splice(source, high, p.end);
    assert source[p.end..p.start] + q.replacement + rest == q.replacement + rest;
    Regroup(source[from..p.start] + p.replacement, q.replacement, rest);
    Regroup(source[from..p.start], p.replacement, q.replacement);
  }

  lemma Cancel(a: string, gap: string, x: string, y: string, rest: string)
    requires |x| == |y| && a + (gap + x + rest) == a + (gap + y + rest)
    ensures x == y
  {
    var one, two := a + (gap + x + rest), a + (gap + y + rest);
    var n := |a| + |gap|;
    assert one[n..n + |x|] == x && two[n..n + |y|] == y;
  }

  lemma MoveFirst(subs: Subs, i: nat, j: nat)
    requires i < j < |subs|
    ensures var rest := subs[..i] + subs[i + 1..j] + subs[j + 1..];
            multiset([subs[i], subs[j]] + rest) == multiset(subs) && multiset([subs[j], subs[i]] + rest) == multiset(subs)
  {
    var rest := subs[..i] + subs[i + 1..j] + subs[j + 1..];
    assert subs == subs[..i] + [subs[i]] + subs[i + 1..j] + [subs[j]] + subs[j + 1..];
    assert multiset(subs) == multiset(subs[..i]) + multiset{subs[i]} + multiset(subs[i + 1..j]) + multiset{subs[j]} + multiset(subs[j + 1..]);
  }

  /** Every order of the edits gives the same text. */
  ghost predicate OneText(source: string, a: Subs)
    requires Applicable(source, a)
  {
    forall b | multiset(b) == multiset(a) && Applicable(source, b) :: Applied(source, b) == Applied(source, a)
  }

  lemma OneTextPermuted(source: string, a: Subs, b: Subs)
    requires Applicable(source, a) && OneText(source, a) && multiset(a) == multiset(b)
    ensures Applicable(source, b) && Applied(source, b) == Applied(source, a)
  {
    hide Applied, Applicable;
    ApplicablePermuted(source, a, b);
  }

  /** Then inserts at one offset commute: bring any two of them to the front, in either order. */
  lemma OneTextCommutes(source: string, a: Subs, i: nat, j: nat)
    requires Applicable(source, a) && OneText(source, a) && i < j < |a|
    ensures Commute(a[i], a[j])
  {
    hide Applied, Applicable, OneText;
    if IsInsert(a[i]) && IsInsert(a[j]) && a[i].start == a[j].start {
      var rest := a[..i] + a[i + 1..j] + a[j + 1..];
      var one, two := [a[i], a[j]] + rest, [a[j], a[i]] + rest;
      MoveFirst(a, i, j);
      OneTextPermuted(source, a, one);
      OneTextPermuted(source, a, two);
      FirstTwoCommute(source, a[i], a[j], rest);
    }
  }

  lemma FirstTwoCommute(source: string, x: Substitution, y: Substitution, rest: Subs)
    requires IsInsert(x) && IsInsert(y) && x.start == y.start
    requires Applicable(source, [x, y] + rest) && Applicable(source, [y, x] + rest)
    requires Applied(source, [x, y] + rest) == Applied(source, [y, x] + rest)
    ensures x.replacement + y.replacement == y.replacement + x.replacement
  {
    var one, two := [x, y] + rest, [y, x] + rest;
    assert one[1..] == [y] + rest && ([y] + rest)[1..] == rest;
    assert two[1..] == [x] + rest && ([x] + rest)[1..] == rest;
    var sorted := SortSubs(rest);
    assert SortSubs([y] + rest) == Insert(y, sorted) && SortSubs([x] + rest) == Insert(x, sorted);
    assert SortSubs(one) == Insert(x, Insert(y, sorted)) && SortSubs(two) == Insert(y, Insert(x, sorted));
    hide SortSubs, Insert, Splice, Applicable, Descending, Ascending;
    var k := InsertBoth(x, y, sorted);
    SortedDescends(source, one);
    SortedDescends(source, two);
    var high, low := Reversed(sorted[..k]), Reversed(sorted[k..]);
    ReversedPair(sorted[..k], x, y, sorted[k..]);
    ReversedPair(sorted[..k], y, x, sorted[k..]);
    ReversedAscends(SortSubs(one), |source|, 0);
    ReversedAscends(SortSubs(two), |source|, 0);
    InsertsBetween(source, low, y, x, high);
  }

  lemma ReversedPair(a: Subs, x: Substitution, y: Substitution, b: Subs)
    ensures Reversed(a + [x, y] + b) == Reversed(b) + [y, x] + Reversed(a)
  {
    ReversedConcat(a + [x, y], b);
    ReversedConcat(a, [x, y]);
    assert Front([x, y]) == [x] && Front([x]) == [];
    assert Reversed([x]) == [x] && Reversed([x, y]) == [y, x];
    Regroup(Reversed(b), [y, x], Reversed(a));
  }

  /** Every order of the edits gives one text exactly when inserts that share an offset commute. */
  lemma OneTextIffCommuting(source: string, a: Subs)
    requires Applicable(source, a)
    ensures OneText(source, a) <==> Commuting(a)
  {
    hide Applied, Applicable, Commute;
    if Commuting(a) {
      forall b | multiset(b) == multiset(a) && Applicable(source, b) ensures Applied(source, b) == Applied(source, a) {
        OrderIndependent(source, a, b);
      }
    }
    if OneText(source, a) {
      forall i, j | 0 <= i < j < |a| ensures Commute(a[i], a[j]) {
        OneTextCommutes(source, a, i, j);
      }
    }
  }

  // ---- two inserts at one offset ----

  /** They come out last first. */
  lemma SharedOffsetShowsOrder(x: string, y: string)
    ensures var a, b := Substitution(0, 0, x), Substitution(0, 0, y);
            Applicable("", [a, b]) && Applied("", [a, b]) == y + x
  {
    hide SortSubs, Reversed, Sorted, Splice, Ascending;
    var a, b := Substitution(0, 0, x), Substitution(0, 0, y);
    SortTwo(a, b);
    SortedDescends("", [a, b]);
    SpliceTwo(x, y);
  }

  lemma SortTwo(a: Substitution, b: Substitution)
    requires Ahead(a, b)
    ensures SortSubs([a, b]) == [a, b] && Reversed([a, b]) == [b, a]
  {
    assert [a, b][1..] == [b] && [b][1..] == [];
    assert SortSubs([b]) == [b];
    assert Front([a, b]) == [a] && Front([a]) == [];
    assert Reversed([a]) == [a];
  }

  lemma SpliceInsert(x: string, rest: Subs)
    requires Ascending(rest, 0, 0)
    ensures var edits := [Substitution(0, 0, x)] + rest;
            Ascending(edits, 0, 0) && Splice("", edits, 0) == x + Splice("", rest, 0)
  {
    var edits := [Substitution(0, 0, x)] + rest;
    assert edits[1..] == rest;
    assert Ascending(edits, 0, 0);
    hide Splice, Ascending;
    SpliceUnfold("", edits, 0);
    assert ""[0..0] + x == x;
  }

  lemma SpliceTwo(x: string, y: string)
    ensures var edits := [Substitution(0, 0, y), Substitution(0, 0, x)];
            Ascending(edits, 0, 0) && Splice("", edits, 0) == y + x
  {
    hide Splice, Ascending;
    SpliceNone();
    SpliceInsert(x, []);
    assert [Substitution(0, 0, x)] + [] == [Substitution(0, 0, x)];
    SpliceInsert(y, [Substitution(0, 0, x)]);
    assert [Substitution(0, 0, y)] + [Substitution(0, 0, x)] == [Substitution(0, 0, y), Substitution(0, 0, x)];
    assert x + "" == x;
  }

  lemma SpliceNone()
    ensures Ascending([], 0, 0) && Splice("", [], 0) == ""
  {
  }
}

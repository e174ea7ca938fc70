/**
 The least an embedder has to supply: only listed paths, only the reported prefix of an array,
 only the read fields of its items, and a size companion only where the cut would show another
 size. It is a permitted cut, rendering cannot tell it from the full values, and every permitted
 cut holds at least as much.
 */
module LiquidusMinimal {
  import opened Common
  import opened LiquidusSyntax
  import opened LiquidusGrammar
  import opened LiquidusDemand
  import opened LiquidusMerge
  import opened LiquidusRender
  import opened LiquidusSoundness

  /** The read fields, each once; a field that is nil reads the same when it is left out. */
  function KeepFields(pairs: seq<(string, LValue)>, fields: set<string>): seq<(string, LValue)> {
    if pairs == [] then []
    else
      var rest := KeepFields(pairs[1..], fields - {pairs[0].0});
      if pairs[0].0 in fields && pairs[0].1 != Nil then [pairs[0]] + rest else rest
  }

  function TrimItem(v: LValue, fields: seq<string>): LValue {
    if v.Map? then Map(KeepFields(v.pairs, set f | f in fields)) else v
  }

  function TrimValue(v: LValue, n: VarNeed): LValue {
    if !v.Array? then v
    else
      var kept := if n.slice.Some? then Min(n.slice.value, |v.items|) else |v.items|;
      Array(seq(kept, i requires 0 <= i < |v.items| => TrimItem(v.items[i], n.fields)))
  }

  /** The companion the cut holds for a path: one only where the trimmed value alone would show another size. */
  function Companion(n: VarNeed, full: Values): Option<LValue>
    requires n.path in full
  {
    var size := ShownSize(full, n.path);
    if n.needSize && size.Ok? && SizeOf(TrimValue(full[n.path], n)) != size then Some(size.value) else None
  }

  /** Only the listed paths, each cut as far as its need allows, with its companion. */
  function SmallestCut(needs: seq<VarNeed>, full: Values): Values {
    if needs == [] then map[]
    else
      var n := Last(needs);
      var cut := SmallestCut(Front(needs), full);
      if n.path !in full then cut
      else
        var withValue := cut[n.path := TrimValue(full[n.path], n)];
        match Companion(n, full)
        case Some(size) => withValue[SizeKey(n.path) := size]
        case None => withValue
  }

  lemma {:induction false} KeepFieldsKeeps(pairs: seq<(string, LValue)>, fields: set<string>, f: string)
    ensures var kept := FieldOf(KeepFields(pairs, fields), f);
            if f in fields && FieldOf(pairs, f) != Some(Nil) then kept == FieldOf(pairs, f) else kept == None
  {
    if pairs == [] {
    } else {
      KeepFieldsKeeps(pairs[1..], fields - {pairs[0].0}, f);
    }
  }

  lemma TrimItemCuts(v: LValue, fields: seq<string>)
    ensures CutItem(v, TrimItem(v, fields), fields)
  {
    if v.Map? {
      forall f | f in fields ensures TrimItem(v, fields).FieldOrNil(f) == v.FieldOrNil(f) {
        KeepFieldsKeeps(v.pairs, (set f | f in fields), f);
      }
    }
  }

  lemma TrimValueCuts(v: LValue, n: VarNeed)
    ensures CutValue(v, TrimValue(v, n), n)
  {
    hide CutItem, TrimItem;
    if v.Array? {
      var c := TrimValue(v, n);
      forall i | 0 <= i < |c.items| ensures CutItem(v.items[i], c.items[i], n.fields) {
        TrimItemCuts(v.items[i], n.fields);
      }
    }
  }

  /** A size key is never a path, so companions and values do not collide. */
  lemma SizeKeyApart(p: string, q: string)
    requires '#' !in q
    ensures SizeKey(p) != q
  {
    assert SizeKey(p)[|p|] == '#';
  }

  lemma SizeKeyInjective(p: string, q: string)
    ensures SizeKey(p) == SizeKey(q) ==> p == q
  {
    if SizeKey(p) == SizeKey(q) {
      assert p == SizeKey(p)[..|p|] && q == SizeKey(q)[..|q|];
    }
  }

  lemma {:induction false} SmallestCutEntries(needs: seq<VarNeed>, full: Values, i: nat)
    requires DistinctPaths(needs) && CleanPaths(needs) && i < |needs|
    ensures var (n, cut) := (needs[i], SmallestCut(needs, full));
            && (n.path in full <==> n.path in cut)
            && (n.path in full ==>
                  && cut[n.path] == TrimValue(full[n.path], n)
                  && match Companion(n, full)
                     case Some(size) => SizeKey(n.path) in cut && cut[SizeKey(n.path)] == size
                     case None => SizeKey(n.path) !in cut)
  {
    var n, last := needs[i], Last(needs);
    SizeKeyApart(last.path, n.path);
    SizeKeyApart(n.path, last.path);
    SizeKeyInjective(n.path, last.path);
    if i == |needs| - 1 {
      Untouched(Front(needs), full, n.path);
      SizeKeyApart(n.path, n.path);
    } else {
      assert Front(needs)[i] == n;
      SmallestCutEntries(Front(needs), full, i);
    }
  }

  lemma {:induction false} Untouched(needs: seq<VarNeed>, full: Values, path: string)
    requires CleanPaths(needs) && '#' !in path && forall n | n in needs :: n.path != path
    ensures path !in SmallestCut(needs, full) && SizeKey(path) !in SmallestCut(needs, full)
  {
    if needs == [] {
    } else {
      var last := Last(needs);
      assert last in needs;
      forall n | n in Front(needs) ensures n.path != path { assert n in needs; }
      Untouched(Front(needs), full, path);
      SizeKeyApart(last.path, path);
      SizeKeyApart(path, last.path);
      SizeKeyInjective(path, last.path);
    }
  }

  /** The smallest cut is a cut: the contract of the needs can always be met. */
  lemma SmallestCutIsCut(needs: seq<VarNeed>, full: Values)
    requires DistinctPaths(needs) && CleanPaths(needs)
    ensures CutTo(needs, full, SmallestCut(needs, full))
  {
    forall i | 0 <= i < |needs| ensures PathCut(needs[i], full, SmallestCut(needs, full)) {
      SmallestCutEntries(needs, full, i);
      if needs[i].path in full {
        TrimValueCuts(full[needs[i].path], needs[i]);
      }
    }
  }

  // ---- no permitted cut holds less ----

  /** `c` holds at least the pairs of `least`, or is the same value. */
  predicate HoldsItem(c: LValue, least: LValue) {
    if least.Map? then c.Map? && forall p | p in least.pairs :: p in c.pairs else c == least
  }

  /** `c` holds at least the items of `least`, or is the same value. */
  predicate HoldsValue(c: LValue, least: LValue) {
    if least.Array? then
      c.Array? && |least.items| <= |c.items| && forall i | 0 <= i < |least.items| :: HoldsItem(c.items[i], least.items[i])
    else c == least
  }

  /** Every kept pair is the first with its key, of a read field, and not nil. */
  lemma {:induction false} KeptPair(pairs: seq<(string, LValue)>, fields: set<string>, p: (string, LValue))
    requires p in KeepFields(pairs, fields)
    ensures p.0 in fields && p.1 != Nil && FieldOf(pairs, p.0) == Some(p.1)
  {
    if pairs[0].0 in fields && pairs[0].1 != Nil && p == pairs[0] {
    } else {
      KeptPair(pairs[1..], fields - {pairs[0].0}, p);
    }
  }

  lemma {:induction false} FieldOfIsPair(pairs: seq<(string, LValue)>, f: string)
    requires FieldOf(pairs, f).Some?
    ensures (f, FieldOf(pairs, f).value) in pairs
  {
    if pairs[0].0 == f {
      assert pairs[0] == (f, pairs[0].1);
    } else {
      FieldOfIsPair(pairs[1..], f);
    }
  }

  lemma ItemHolds(v: LValue, c: LValue, fields: seq<string>)
    requires CutItem(v, c, fields)
    ensures HoldsItem(c, TrimItem(v, fields))
  {
    if v.Map? {
      forall p | p in TrimItem(v, fields).pairs ensures p in c.pairs {
        KeptPair(v.pairs, (set f | f in fields), p);
        assert c.FieldOrNil(p.0) == v.FieldOrNil(p.0) == p.1;
        FieldOfIsPair(c.pairs, p.0);
      }
    }
  }

  lemma ValueHolds(v: LValue, c: LValue, n: VarNeed)
    requires CutValue(v, c, n)
    ensures HoldsValue(c, TrimValue(v, n))
  {
    hide CutItem, HoldsItem, TrimItem;
    if v.Array? {
      var least := TrimValue(v, n);
      forall i | 0 <= i < |least.items| ensures HoldsItem(c.items[i], least.items[i]) {
        ItemHolds(v.items[i], c.items[i], n.fields);
      }
    }
  }

  /** What any permitted cut has for the need `n`, compared with the smallest one. */
  predicate HoldsNeed(n: VarNeed, cut: Values, least: Values) {
    (n.path in least ==> n.path in cut && HoldsValue(cut[n.path], least[n.path])) &&
    (SizeKey(n.path) in least ==>
       || (SizeKey(n.path) in cut && cut[SizeKey(n.path)] == least[SizeKey(n.path)])
       || (n.path in least && n.path in cut && least[n.path].Array? && cut[n.path].Array?
           && |least[n.path].items| < |cut[n.path].items|))
  }

  /** Where the smallest cut has a companion, another cut has it too, or else it shows the size with more items. */
  lemma CompanionHeld(n: VarNeed, full: Values, cut: Values)
    requires n.path in full && PathCut(n, full, cut) && Companion(n, full).Some?
    ensures || (SizeKey(n.path) in cut && cut[SizeKey(n.path)] == Companion(n, full).value)
            || (full[n.path].Array? && |TrimValue(full[n.path], n).items| < |cut[n.path].items|)
  {
    hide CutItem, TrimItem;
    var least := TrimValue(full[n.path], n);
    assert ShownSize(cut, n.path) == ShownSize(full, n.path) != SizeOf(least);
  }

  /** The keys of the smallest cut are listed paths that are supplied, and companions of listed paths. */
  lemma {:induction false} NothingElse(needs: seq<VarNeed>, full: Values, key: string)
    requires key in SmallestCut(needs, full)
    ensures exists n :: n in needs && n.path in full && (key == n.path || (n.needSize && key == SizeKey(n.path)))
  {
    var last := Last(needs);
    if last.path in full && (key == last.path || (last.needSize && key == SizeKey(last.path))) {
      assert last in needs;
    } else {
      NothingElse(Front(needs), full, key);
      var n :| n in Front(needs) && n.path in full && (key == n.path || (n.needSize && key == SizeKey(n.path)));
      assert n in needs;
    }
  }

  /** Every permitted cut of `full` holds what the smallest one holds. */
  lemma SmallestCutIsLeast(needs: seq<VarNeed>, full: Values, cut: Values)
    requires DistinctPaths(needs) && CleanPaths(needs) && CutTo(needs, full, cut)
    ensures forall n | n in needs :: HoldsNeed(n, cut, SmallestCut(needs, full))
    ensures forall key | key in SmallestCut(needs, full) ::
              exists n :: n in needs && n.path in full && (key == n.path || (n.needSize && key == SizeKey(n.path)))
  {
    hide CutValue, HoldsValue, TrimValue, Companion;
    var least := SmallestCut(needs, full);
    forall n | n in needs ensures HoldsNeed(n, cut, least) {
      var i :| 0 <= i < |needs| && needs[i] == n;
      NeedHeld(needs, full, cut, i);
    }
    forall key | key in least
      ensures exists n :: n in needs && n.path in full && (key == n.path || (n.needSize && key == SizeKey(n.path)))
    {
      NothingElse(needs, full, key);
    }
  }

  lemma NeedHeld(needs: seq<VarNeed>, full: Values, cut: Values, i: nat)
    requires DistinctPaths(needs) && CleanPaths(needs) && CutTo(needs, full, cut) && i < |needs|
    ensures HoldsNeed(needs[i], cut, SmallestCut(needs, full))
  {
    hide CutValue, HoldsValue, TrimValue, Companion, ShownSize, DistinctPaths, CleanPaths, SmallestCut;
    var n := needs[i];
    assert PathCut(n, full, cut);
    SmallestCutEntries(needs, full, i);
    if n.path in full {
      ValueHolds(full[n.path], cut[n.path], n);
      if Companion(n, full).Some? {
        CompanionHeld(n, full, cut);
        KindKept(full[n.path], cut[n.path], n);
      }
    } else {
      NoCompanionAlone(needs, full, i);
    }
  }

  lemma KindKept(v: LValue, c: LValue, n: VarNeed)
    requires CutValue(v, c, n)
    ensures v.Array? == c.Array? == TrimValue(v, n).Array?
  {
  }

  lemma {:induction false} NoCompanionAlone(needs: seq<VarNeed>, full: Values, i: nat)
    requires DistinctPaths(needs) && CleanPaths(needs) && i < |needs| && needs[i].path !in full
    ensures SizeKey(needs[i].path) !in SmallestCut(needs, full)
  {
    var key := SizeKey(needs[i].path);
    if key in SmallestCut(needs, full) {
      NothingElse(needs, full, key);
      var n :| n in needs && n.path in full && (key == n.path || (n.needSize && key == SizeKey(n.path)));
      SizeKeyApart(needs[i].path, n.path);
      SizeKeyInjective(needs[i].path, n.path);
    }
  }

  lemma CompileClean(source: string, lookup: string -> Option<string>)
    requires Compile(source, lookup).Ok?
    ensures CleanPaths(Compile(source, lookup).value.needs)
  {
    var recorded := ParseTemplate(source, lookup).value.needs;
    ParseNodesClean(TopScope(lookup), Lex(source).value, None, []);
    var merged := Merge(recorded);
    forall i | 0 <= i < |merged| ensures '#' !in merged[i].path {
      MergeExact(recorded, merged[i].path);
      NoDemand(merged, merged[i].path);
      NoDemand(recorded, merged[i].path);
    }
  }

  /** An embedder that supplies nothing but the smallest cut renders the same. */
  lemma SmallestCutSuffices(source: string, lookup: string -> Option<string>, ft: FilterTable, full: Values)
    requires Compile(source, lookup).Ok?
    requires ConsistentLoops([], Compile(source, lookup).value.nodes) && NoItemSize(Compile(source, lookup).value.nodes)
    ensures var t := Compile(source, lookup).value;
            Render(ft, t, SmallestCut(t.needs, full)) == Render(ft, t, full)
  {
    var t := Compile(source, lookup).value;
    CompileCovers(source, lookup);
    CompileClean(source, lookup);
    SmallestCutIsCut(t.needs, full);
    NeedsSufficient(source, lookup, ft, full, SmallestCut(t.needs, full));
  }
}

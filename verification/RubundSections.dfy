/** What the lockfile parser keeps apart: sections are read independently of each other, with one exception. */
module RubundSections {
  import opened Common
  import opened RubundLockfile

  // ---- the index of a spec ----

  function Finished(st: State): nat {
    |Close(st).sources|
  }

  predicate IndicesOk(specs: seq<GemSpec>, n: nat) {
    forall i | 0 <= i < |specs| :: specs[i].sourceIndex < n
  }

  lemma StepIndices(st: State, line: string)
    requires IndicesOk(st.lock.specs, Finished(st))
    ensures IndicesOk(Step(st, line).lock.specs, Finished(Step(st, line)))
  {
    hide Content, DepOf, SplitOnce, Trim, TrimParens;
  }

  lemma {:induction false} StepsIndices(st: State, lines: seq<string>)
    requires IndicesOk(st.lock.specs, Finished(st))
    ensures IndicesOk(Steps(st, lines).lock.specs, Finished(Steps(st, lines)))
    decreases |lines|
  {
    hide Step;
    if lines == [] {
    } else {
      StepIndices(st, lines[0]);
      StepsIndices(Step(st, lines[0]), lines[1..]);
    }
  }

  /** On every input, each spec points at a source of the result. */
  lemma IndicesInBounds(content: string)
    ensures IndicesOk(Parse(content).specs, |Parse(content).sources|)
  {
    hide Steps, Lines;
    StepsIndices(State(EMPTY, Fresh(NoSection)), Lines(content));
  }

  // ---- sections one by one ----

  /** The lines up to the next header. */
  function BodyLength(lines: seq<string>): (n: nat)
    ensures n <= |lines| && (forall i | 0 <= i < n :: !IsHeader(lines[i])) && (n < |lines| ==> IsHeader(lines[n]))
  {
    if lines == [] || IsHeader(lines[0]) then 0 else 1 + BodyLength(lines[1..])
  }

  /** The lines of the section whose header comes first. */
  function SectionBody(lines: seq<string>): (body: seq<string>)
    requires lines != []
    ensures HeaderFree(body)
  {
    lines[1..][..BodyLength(lines[1..])]
  }

  /** What follows that section. */
  function AfterBody(lines: seq<string>): (rest: seq<string>)
    requires lines != []
    ensures |rest| < |lines| && (rest == [] || IsHeader(rest[0])) && lines == [lines[0]] + SectionBody(lines) + rest
  {
    lines[1..][BodyLength(lines[1..])..]
  }

  function BodyCur(cur: Cur, body: seq<string>): Cur
    decreases |body|
  {
    if body == [] then cur else BodyCur(if IsBlank(body[0]) then cur else StepCur(cur, body[0]), body[1..])
  }

  function BodySpecs(cur: Cur, specs: seq<GemSpec>, index: nat, body: seq<string>): seq<GemSpec>
    decreases |body|
  {
    if body == [] then specs
    else if IsBlank(body[0]) then BodySpecs(cur, specs, index, body[1..])
    else BodySpecs(StepCur(cur, body[0]), StepSpecs(cur, specs, index, body[0]), index, body[1..])
  }

  /** Each source section read on its own, from nothing. */
  function SectionSources(lines: seq<string>): seq<GemSource>
    decreases |lines|
  {
    if lines == [] then []
    else if !IsHeader(lines[0]) then SectionSources(lines[1..])
    else
      SectionSource(SectionOf(Content(lines[0])), SectionBody(lines)) + SectionSources(AfterBody(lines))
  }

  function SourceOf(section: Section, body: seq<string>): GemSource
    requires section.SourceSection?
  {
    BodyCurKeepsSection(Fresh(section), body);
    SourceFrom(BodyCur(Fresh(section), body))
  }

  lemma {:induction false} BodyCurKeepsSection(cur: Cur, body: seq<string>)
    ensures BodyCur(cur, body).section == cur.section
    ensures !cur.section.SourceSection? ==> BodyCur(cur, body) == cur
    decreases |body|
  {
    hide Content;
    if body == [] {
    } else {
      BodyCurKeepsSection(if IsBlank(body[0]) then cur else StepCur(cur, body[0]), body[1..]);
    }
  }

  predicate HeaderFree(body: seq<string>) {
    forall i | 0 <= i < |body| :: !IsHeader(body[i])
  }

  lemma {:induction false} StepsInBody(st: State, body: seq<string>)
    requires HeaderFree(body)
    ensures Steps(st, body).cur == BodyCur(st.cur, body) && Steps(st, body).lock.sources == st.lock.sources
    ensures Steps(st, body).lock.specs == BodySpecs(st.cur, st.lock.specs, |st.lock.sources|, body)
    decreases |body|
  {
    hide StepCur, StepSpecs, IsBlank;
    if body == [] {
    } else {
      assert !IsHeader(body[0]);
      StepKeepsSources(st, body[0]);
      StepsInBody(Step(st, body[0]), body[1..]);
    }
  }

  lemma StepKeepsSources(st: State, line: string)
    requires !IsHeader(line)
    ensures Step(st, line).lock.sources == st.lock.sources
    ensures !IsBlank(line) ==> Step(st, line).cur == StepCur(st.cur, line)
    ensures !IsBlank(line) ==> Step(st, line).lock.specs == StepSpecs(st.cur, st.lock.specs, |st.lock.sources|, line)
  {
    hide StepCur, StepSpecs, Content, ChecksumOf, DepOf;
  }

  /** Outside a source section nothing is remembered about a source. */
  predicate Clean(st: State) {
    st.cur.section.SourceSection? || st.cur == Fresh(st.cur.section)
  }

  /** The state at a header, after the header and the lines of its section. */
  function AfterSection(st: State, lines: seq<string>): State
    requires lines != []
  {
    Steps(Step(st, lines[0]), SectionBody(lines))
  }

  lemma SectionStep(st: State, lines: seq<string>)
    requires Clean(st) && lines != [] && IsHeader(lines[0])
    ensures var next, section, body := AfterSection(st, lines), SectionOf(Content(lines[0])), SectionBody(lines);
            && Clean(next) && Steps(st, lines) == Steps(next, AfterBody(lines))
            && next.cur == BodyCur(Fresh(section), body)
            && next.lock.sources == Close(st).sources
            && next.lock.specs == BodySpecs(Fresh(section), st.lock.specs, |Close(st).sources|, body)
  {
    hide Content, StepCur, StepSpecs, SectionOf, BodyCur, BodySpecs, SectionBody, AfterBody, HeaderFree;
    var body, rest := SectionBody(lines), AfterBody(lines);
    var entered := Step(st, lines[0]);
    assert entered == Enter(st, Content(lines[0]));
    StepsInBody(entered, body);
    BodyCurKeepsSection(entered.cur, body);
    assert lines[1..] == body + rest;
    StepsConcat(entered, body, rest);
  }

  function SectionSource(section: Section, body: seq<string>): seq<GemSource> {
    if section.SourceSection? then [SourceOf(section, body)] else []
  }

  lemma SectionAdds(st: State, lines: seq<string>)
    requires Clean(st) && lines != [] && IsHeader(lines[0])
    ensures Close(AfterSection(st, lines)).sources
         == Close(st).sources + SectionSource(SectionOf(Content(lines[0])), SectionBody(lines))
  {
    hide Content, Step, Steps, SectionOf, BodyCur, BodySpecs, IsHeader, AfterSection, SectionBody;
    SectionStep(st, lines);
    BodyCurKeepsSection(Fresh(SectionOf(Content(lines[0]))), SectionBody(lines));
  }

  lemma SourcesUnfold(lines: seq<string>)
    requires lines != [] && IsHeader(lines[0])
    ensures SectionSources(lines) == SectionSource(SectionOf(Content(lines[0])), SectionBody(lines)) + SectionSources(AfterBody(lines))
  {
    hide SectionSource, Content, SectionOf, SectionBody, AfterBody, IsHeader;
  }

  lemma {:induction false} SourcesAreSectionsFrom(st: State, lines: seq<string>)
    requires Clean(st) && (lines == [] || IsHeader(lines[0]))
    ensures Close(Steps(st, lines)).sources == Close(st).sources + SectionSources(lines)
    decreases |lines|
  {
    hide Content, Step, Steps, SectionOf, BodyCur, BodySpecs, IsHeader, AfterSection, Close, SourceOf, Clean;
    hide SectionBody, AfterBody, SectionSources, SectionSource;
    if lines == [] {
      NothingAdded(st);
      assert Close(st).sources + [] == Close(st).sources;
    } else {
      var next, rest := AfterSection(st, lines), AfterBody(lines);
      SectionStep(st, lines);
      SectionAdds(st, lines);
      SourcesAreSectionsFrom(next, rest);
      var one := SectionSource(SectionOf(Content(lines[0])), SectionBody(lines));
      SourcesUnfold(lines);
      assert Close(st).sources + one + SectionSources(rest) == Close(st).sources + (one + SectionSources(rest));
    }
  }

  lemma {:induction false} SkipPreamble(lines: seq<string>)
    ensures SectionSources(lines) == SectionSources(lines[BodyLength(lines)..])
    ensures forall index: nat :: SectionSpecs(lines, index) == SectionSpecs(lines[BodyLength(lines)..], index)
    ensures forall index: nat, earlier :: LeakedDeps(lines, index, earlier) == LeakedDeps(lines[BodyLength(lines)..], index, earlier)
    decreases |lines|
  {
    hide IsHeader;
    if lines != [] && !IsHeader(lines[0]) {
      SkipPreamble(lines[1..]);
      assert lines[1..][BodyLength(lines[1..])..] == lines[BodyLength(lines)..];
    } else {
      assert lines[0..] == lines;
    }
  }

  /** The lines before the first header change nothing. */
  lemma Preamble(lines: seq<string>)
    ensures var n := BodyLength(lines);
            var st := Steps(State(EMPTY, Fresh(NoSection)), lines[..n]);
            && Clean(st) && !st.cur.section.SourceSection? && st.lock.sources == [] && st.lock.specs == []
            && Steps(State(EMPTY, Fresh(NoSection)), lines) == Steps(st, lines[n..])
  {
    hide StepCur, StepSpecs, Step, IsHeader;
    var n, start := BodyLength(lines), State(EMPTY, Fresh(NoSection));
    StepsInBody(start, lines[..n]);
    BodyCurKeepsSection(start.cur, lines[..n]);
    NoSpecsOutside(start.cur, [], 0, lines[..n]);
    StepsConcat(start, lines[..n], lines[n..]);
    assert lines == lines[..n] + lines[n..];
  }

  lemma {:induction false} NoSpecsOutside(cur: Cur, specs: seq<GemSpec>, index: nat, body: seq<string>)
    requires !cur.section.SourceSection?
    ensures BodySpecs(cur, specs, index, body) == specs
    decreases |body|
  {
    hide Content;
    if body == [] {
    } else {
      NoSpecsOutside(cur, specs, index, body[1..]);
    }
  }

  /** Remote, revision, branch and path of every source come from the lines of its own section. */
  lemma SourcesAreSections(lines: seq<string>)
    ensures ParseLines(lines).sources == SectionSources(lines)
  {
    hide Steps, SectionSources, IsHeader;
    Preamble(lines);
    SkipPreamble(lines);
    var n := BodyLength(lines);
    var st := Steps(State(EMPTY, Fresh(NoSection)), lines[..n]);
    SourcesAreSectionsFrom(st, lines[n..]);
    assert [] + SectionSources(lines[n..]) == SectionSources(lines[n..]);
  }

  // ---- specs section by section ----

  /** The specs each source section lists, read on its own. */
  function SectionSpecs(lines: seq<string>, index: nat): seq<GemSpec>
    decreases |lines|
  {
    if lines == [] then []
    else if !IsHeader(lines[0]) then SectionSpecs(lines[1..], index)
    else
      var section := SectionOf(Content(lines[0]));
      BodySpecs(Fresh(section), [], index, SectionBody(lines))
      + SectionSpecs(AfterBody(lines), if section.SourceSection? then index + 1 else index)
  }

  /** A dependency line of a section that has no spec yet. */
  predicate Orphan(cur: Cur, own: seq<GemSpec>, line: string) {
    !IsBlank(line) && cur.section.SourceSection? && cur.inSpecs && own == [] && Indent(line) == 6
  }

  function Orphans(cur: Cur, own: seq<GemSpec>, index: nat, body: seq<string>): nat
    decreases |body|
  {
    if body == [] then 0
    else if IsBlank(body[0]) then Orphans(cur, own, index, body[1..])
    else
      (if Orphan(cur, own, body[0]) then 1 else 0)
      + Orphans(StepCur(cur, body[0]), StepSpecs(cur, own, index, body[0]), index, body[1..])
  }

  /** Orphaned dependency lines in sections that follow a spec of another section. */
  function LeakedDeps(lines: seq<string>, index: nat, earlier: bool): nat
    decreases |lines|
  {
    if lines == [] then 0
    else if !IsHeader(lines[0]) then LeakedDeps(lines[1..], index, earlier)
    else
      var section := SectionOf(Content(lines[0]));
      var body := SectionBody(lines);
      (if earlier then Orphans(Fresh(section), [], index, body) else 0)
      + LeakedDeps(AfterBody(lines), if section.SourceSection? then index + 1 else index,
                   earlier || BodySpecs(Fresh(section), [], index, body) != [])
  }

  function DepCount(specs: seq<GemSpec>): nat {
    if specs == [] then 0 else DepCount(Front(specs)) + |Last(specs).deps|
  }

  lemma {:induction false} DepCountConcat(a: seq<GemSpec>, b: seq<GemSpec>)
    ensures DepCount(a + b) == DepCount(a) + DepCount(b)
    decreases |b|
  {
    if b == [] {
      assert a + b == a;
    } else {
      assert Front(a + b) == a + Front(b) && Last(a + b) == Last(b);
      DepCountConcat(a, Front(b));
    }
  }

  lemma SpecsAppend(cur: Cur, before: seq<GemSpec>, own: seq<GemSpec>, index: nat, line: string)
    requires !Orphan(cur, own, line) && !IsBlank(line)
    ensures StepSpecs(cur, before + own, index, line) == before + StepSpecs(cur, own, index, line)
  {
    hide DepOf, SpecOf, Content;
    if own != [] {
      assert Front(before + own) == before + Front(own) && Last(before + own) == Last(own);
    }
  }

  lemma OrphanGoesBack(cur: Cur, before: seq<GemSpec>, index: nat, line: string)
    requires Orphan(cur, [], line)
    ensures StepSpecs(cur, before, index, line) == WithDep(before, DepOf(Content(line))) && StepSpecs(cur, [], index, line) == []
    ensures DepCount(WithDep(before, DepOf(Content(line)))) == DepCount(before) + if before == [] then 0 else 1
    ensures WithDep(before, DepOf(Content(line))) == [] <==> before == []
  {
    hide DepOf, Content;
    if before != [] {
      var after := WithDep(before, DepOf(Content(line)));
      assert Front(after) == Front(before);
    }
  }

  /** A section appends its own specs; orphans, and nothing else, go to the last spec before it. */
  lemma {:induction false} BodyAppends(cur: Cur, before: seq<GemSpec>, own: seq<GemSpec>, index: nat, body: seq<string>)
    ensures before == [] || Orphans(cur, own, index, body) == 0 ==>
              BodySpecs(cur, before + own, index, body) == before + BodySpecs(cur, own, index, body)
    ensures DepCount(BodySpecs(cur, before + own, index, body))
         == DepCount(before) + DepCount(BodySpecs(cur, own, index, body)) + if before == [] then 0 else Orphans(cur, own, index, body)
    ensures BodySpecs(cur, before + own, index, body) == [] <==> before == [] && BodySpecs(cur, own, index, body) == []
    decreases |body|
  {
    hide StepCur, StepSpecs, IsBlank, DepCount, WithDep;
    if body == [] {
      DepCountConcat(before, own);
    } else if IsBlank(body[0]) {
      BodyAppends(cur, before, own, index, body[1..]);
    } else if !Orphan(cur, own, body[0]) {
      SpecsAppend(cur, before, own, index, body[0]);
      BodyAppends(StepCur(cur, body[0]), before, StepSpecs(cur, own, index, body[0]), index, body[1..]);
    } else {
      OrphanGoesBack(cur, before, index, body[0]);
      assert before + own == before;
      var moved := WithDep(before, DepOf(Content(body[0])));
      assert moved + [] == moved;
      BodyAppends(StepCur(cur, body[0]), moved, [], index, body[1..]);
    }
  }

  lemma NothingAdded(st: State)
    ensures Steps(st, []) == st && SectionSpecs([], Finished(st)) == [] && DepCount([]) == 0
    ensures LeakedDeps([], Finished(st), st.lock.specs != []) == 0 && st.lock.specs + [] == st.lock.specs
    ensures SectionSources([]) == []
  {
  }

  /** One section on top of what stands: its specs, and its orphans. */
  lemma SectionAddsSpecs(st: State, lines: seq<string>)
    requires Clean(st) && lines != [] && IsHeader(lines[0])
    ensures var next, section, body := AfterSection(st, lines), SectionOf(Content(lines[0])), SectionBody(lines);
            var own := BodySpecs(Fresh(section), [], Finished(st), body);
            var orphans := Orphans(Fresh(section), [], Finished(st), body);
            && Finished(next) == (if section.SourceSection? then Finished(st) + 1 else Finished(st))
            && (st.lock.specs == [] || orphans == 0 ==> next.lock.specs == st.lock.specs + own)
            && DepCount(next.lock.specs) == DepCount(st.lock.specs) + DepCount(own) + (if st.lock.specs == [] then 0 else orphans)
            && (next.lock.specs == [] <==> st.lock.specs == [] && own == [])
  {
    hide Content, Step, Steps, SectionOf, BodyCur, BodySpecs, IsHeader, DepCount, Orphans, AfterSection, SectionBody;
    var section, body := SectionOf(Content(lines[0])), SectionBody(lines);
    SectionStep(st, lines);
    BodyCurKeepsSection(Fresh(section), body);
    BodyAppends(Fresh(section), st.lock.specs, [], Finished(st), body);
    assert st.lock.specs + [] == st.lock.specs;
  }

  lemma SpecsUnfold(lines: seq<string>, index: nat, earlier: bool)
    requires lines != [] && IsHeader(lines[0])
    ensures var section, body := SectionOf(Content(lines[0])), SectionBody(lines);
            var after := if section.SourceSection? then index + 1 else index;
            var own := BodySpecs(Fresh(section), [], index, body);
            && SectionSpecs(lines, index) == own + SectionSpecs(AfterBody(lines), after)
            && LeakedDeps(lines, index, earlier) == (if earlier then Orphans(Fresh(section), [], index, body) else 0)
                                                    + LeakedDeps(AfterBody(lines), after, earlier || own != [])
  {
    hide Content, SectionOf, SectionBody, AfterBody, IsHeader, BodySpecs, Orphans;
  }

  lemma {:induction false} SpecsFrom(st: State, lines: seq<string>)
    requires Clean(st) && (lines == [] || IsHeader(lines[0]))
    ensures var (index, own) := (Finished(st), SectionSpecs(lines, Finished(st)));
            var leaked := LeakedDeps(lines, index, st.lock.specs != []);
            && (leaked == 0 ==> Steps(st, lines).lock.specs == st.lock.specs + own)
            && DepCount(Steps(st, lines).lock.specs) == DepCount(st.lock.specs) + DepCount(own) + leaked
    decreases |lines|
  {
    hide Content, Step, Steps, SectionOf, BodyCur, BodySpecs, IsHeader, DepCount, Orphans, AfterSection, Finished, Clean;
    hide SectionBody, AfterBody, SectionSpecs, LeakedDeps;
    if lines == [] {
      NothingAdded(st);
    } else {
      var next, rest := AfterSection(st, lines), AfterBody(lines);
      var section, body := SectionOf(Content(lines[0])), SectionBody(lines);
      SectionStep(st, lines);
      SectionAddsSpecs(st, lines);
      SpecsFrom(next, rest);
      var own, more := BodySpecs(Fresh(section), [], Finished(st), body), SectionSpecs(rest, Finished(next));
      SpecsUnfold(lines, Finished(st), st.lock.specs != []);
      DepCountConcat(own, more);
      assert (st.lock.specs + own) + more == st.lock.specs + (own + more);
    }
  }

  lemma NoDeps()
    ensures DepCount([]) == 0
  {
  }

  lemma NothingFinished(st: State)
    requires !st.cur.section.SourceSection? && st.lock.sources == []
    ensures Finished(st) == 0
  {
  }

  lemma ParsedSpecs(lines: seq<string>)
    ensures ParseLines(lines).specs == Steps(State(EMPTY, Fresh(NoSection)), lines).lock.specs
  {
    hide Steps;
  }

  lemma SpecsOfRun(lines: seq<string>)
    ensures var leaked := LeakedDeps(lines, 0, false);
            && (leaked == 0 ==> ParseLines(lines).specs == SectionSpecs(lines, 0))
            && DepCount(ParseLines(lines).specs) == DepCount(SectionSpecs(lines, 0)) + leaked
  {
    hide Steps, SectionSpecs, LeakedDeps, IsHeader, DepCount, BodyLength, Finished, Clean, ParseLines;
    Preamble(lines);
    SkipPreamble(lines);
    NoDeps();
    var n := BodyLength(lines);
    var st := Steps(State(EMPTY, Fresh(NoSection)), lines[..n]);
    NothingFinished(st);
    SpecsFrom(st, lines[n..]);
    ParsedSpecs(lines);
    assert [] + SectionSpecs(lines[n..], 0) == SectionSpecs(lines[n..], 0);
  }

  /** The specs are those of the sections read one by one, exactly when no orphaned dependency line follows a spec of another section. */
  lemma SpecsAreSections(lines: seq<string>)
    ensures ParseLines(lines).specs == SectionSpecs(lines, 0) <==> LeakedDeps(lines, 0, false) == 0
  {
    hide ParseLines, SectionSpecs, LeakedDeps, DepCount;
    SpecsOfRun(lines);
  }
}

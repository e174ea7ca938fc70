/** Writing a lockfile in Bundler's layout and parsing it gives it back. */
module RubundRoundTrip {
  import opened Common
  import opened RubundLockfile
  import opened RubundSections

  // ---- what the layout can express ----

  /** Text that survives trimming: no space at either end. */
  predicate Trimmed(s: string) {
    s == [] || (!IsSpace(s[0]) && !IsSpace(Last(s)))
  }

  predicate OneLine(s: string) {
    '\n' !in s
  }

  predicate Name(s: string) {
    s != [] && forall i | 0 <= i < |s| :: !IsSpace(s[i])
  }

  /** Text in parentheses that survives their removal. */
  predicate Bare(s: string) {
    OneLine(s) && (s == [] || (!IsParen(s[0]) && !IsParen(Last(s))))
  }

  predicate DepOk(d: Dep) {
    Name(d.0) && (d.1.Some? ==> Bare(d.1.value))
  }

  predicate FieldOk(s: string) {
    Trimmed(s) && OneLine(s)
  }

  predicate OptOk(s: Option<string>) {
    s.Some? ==> FieldOk(s.value)
  }

  predicate SourceOk(s: GemSource) {
    FieldOk(s.remote) && OptOk(s.revision) && OptOk(s.branch) && OptOk(s.path)
  }

  predicate SpecOk(s: GemSpec) {
    Name(s.name) && Bare(s.version) && forall i | 0 <= i < |s.deps| :: DepOk(s.deps[i])
  }

  predicate SumOk(c: (string, string, string)) {
    Name(c.0) && Bare(c.1) && ' ' !in c.1 && FieldOk(c.2) && !(Sha() <= c.2)
  }

  predicate TopDepOk(d: Dep) {
    DepOk(d) && (d.1.None? ==> Last(d.0) != '!')
  }

  predicate EntryOk(s: string) {
    s != [] && FieldOk(s)
  }

  /** Every field can be written on a line, and the specs stand in the order of their sources. */
  ghost predicate WellFormed(l: Lockfile) {
    && (forall i | 0 <= i < |l.sources| :: SourceOk(l.sources[i]))
    && (forall i | 0 <= i < |l.specs| :: SpecOk(l.specs[i]) && l.specs[i].sourceIndex < |l.sources|)
    && (forall i, j | 0 <= i < j < |l.specs| :: l.specs[i].sourceIndex <= l.specs[j].sourceIndex)
    && (forall i | 0 <= i < |l.platforms| :: EntryOk(l.platforms[i]))
    && (forall i | 0 <= i < |l.dependencies| :: TopDepOk(l.dependencies[i]))
    && (forall i | 0 <= i < |l.checksums| :: SumOk(l.checksums[i]))
    && (l.rubyVersion.Some? ==> EntryOk(l.rubyVersion.value))
    && (l.bundledWith.Some? ==> EntryOk(l.bundledWith.value))
  }

  // ---- the layout ----

  function Pad(n: nat): (s: string)
    ensures |s| == n && forall i | 0 <= i < n :: s[i] == ' '
  {
    if n == 0 then [] else [' '] + Pad(n - 1)
  }

  function Key(k: string, v: Option<string>): seq<string> {
    if v.Some? then [Pad(2) + (k + (" " + v.value))] else []
  }

  function DepText(d: Dep): string {
    match d.1
    case Some(c) => d.0 + (" " + ("(" + c + ")"))
    case None => d.0
  }

  function DepLines(deps: seq<Dep>, pad: nat): seq<string> {
    if deps == [] then [] else DepLines(Front(deps), pad) + [Pad(pad) + DepText(Last(deps))]
  }

  /** The dependencies Bundler marks: those some spec of a GIT or PATH source provides. */
  function Elsewhere(l: Lockfile): set<string> {
    set i | 0 <= i < |l.specs| && l.specs[i].sourceIndex < |l.sources| && l.sources[l.specs[i].sourceIndex].kind != Gem
      :: l.specs[i].name
  }

  function TopDepText(d: Dep, marked: set<string>): string {
    DepText(d) + if d.0 in marked then "!" else ""
  }

  function TopLines(deps: seq<Dep>, marked: set<string>): seq<string> {
    if deps == [] then [] else TopLines(Front(deps), marked) + [Pad(2) + TopDepText(Last(deps), marked)]
  }

  function SpecLines(spec: GemSpec): seq<string> {
    [Pad(4) + (spec.name + (" " + ("(" + spec.version + ")")))] + DepLines(spec.deps, 6)
  }

  function AllSpecLines(specs: seq<GemSpec>): seq<string> {
    if specs == [] then [] else AllSpecLines(Front(specs)) + SpecLines(Last(specs))
  }

  function HeaderOf(kind: SourceType): string {
    match kind
    case Gem => "GEM"
    case Git => "GIT"
    case Path => "PATH"
  }

  function SourceKeys(s: GemSource): seq<string> {
    Key("remote:", Some(s.remote)) + Key("revision:", s.revision) + Key("branch:", s.branch) + Key("path:", s.path)
  }

  function SourceLines(s: GemSource, specs: seq<GemSpec>): seq<string> {
    [HeaderOf(s.kind)] + SourceKeys(s) + [Pad(2) + "specs:"] + AllSpecLines(specs) + [""]
  }

  /** How many of the first specs belong to source `index`. */
  function Run(specs: seq<GemSpec>, index: nat): (n: nat)
    ensures n <= |specs| && (forall i | 0 <= i < n :: specs[i].sourceIndex == index) && (n < |specs| ==> specs[n].sourceIndex != index)
  {
    if specs == [] || specs[0].sourceIndex != index then 0 else 1 + Run(specs[1..], index)
  }

  function SourcesLines(sources: seq<GemSource>, specs: seq<GemSpec>, index: nat): seq<string>
    decreases |sources|
  {
    if sources == [] then []
    else
      var n := Run(specs, index);
      SourceLines(sources[0], specs[..n]) + SourcesLines(sources[1..], specs[n..], index + 1)
  }

  function EntryLines(entries: seq<string>): seq<string> {
    if entries == [] then [] else EntryLines(Front(entries)) + [Pad(2) + Last(entries)]
  }

  function Sha(): string { "sha256=" }

  function SumText(c: (string, string, string)): string {
    c.0 + (" " + (("(" + c.1 + ")") + (" " + (Sha() + c.2))))
  }

  function SumLines(sums: seq<(string, string, string)>): seq<string> {
    if sums == [] then [] else SumLines(Front(sums)) + [Pad(2) + SumText(Last(sums))]
  }

  function OptLines(header: string, v: Option<string>): seq<string> {
    if v.Some? then [header, Pad(3) + v.value, ""] else []
  }

  function PrintLines(l: Lockfile): seq<string> {
    SourcesLines(l.sources, l.specs, 0)
    + (["PLATFORMS"] + EntryLines(l.platforms) + [""])
    + (["DEPENDENCIES"] + TopLines(l.dependencies, Elsewhere(l)) + [""])
    + (["CHECKSUMS"] + SumLines(l.checksums) + [""])
    + OptLines("RUBY VERSION", l.rubyVersion)
    + OptLines("BUNDLED WITH", l.bundledWith)
  }

  /** The line ends of either platform. */
  function Eol(crlf: bool): string {
    if crlf then "\r\n" else "\n"
  }

  function Join(lines: seq<string>, crlf: bool): string {
    if lines == [] then [] else lines[0] + Eol(crlf) + Join(lines[1..], crlf)
  }

  function Print(l: Lockfile, crlf: bool): string {
    Join(PrintLines(l), crlf)
  }

  // ---- strings ----

  predicate All(s: string, p: char -> bool) {
    forall i | 0 <= i < |s| :: p(s[i])
  }

  lemma {:induction false} PeelLeft(a: string, s: string, p: char -> bool)
    requires All(a, p) && (s == [] || !p(s[0]))
    ensures TrimLeft(a + s, p) == s
    decreases |a|
  {
    if a == [] {
      assert a + s == s;
    } else {
      assert (a + s)[0] == a[0] && (a + s)[1..] == a[1..] + s;
      PeelLeft(a[1..], s, p);
    }
  }

  lemma PadTrims(n: nat, s: string)
    requires s == [] || !IsSpace(s[0])
    ensures TrimLeft(Pad(n) + s, IsSpace) == s
  {
    assert IsSpace(' ');
    hide IsSpace, TrimLeft;
    PeelLeft(Pad(n), s, IsSpace);
  }

  /** An indented line with text: its content and its indentation. */
  lemma PadLine(n: nat, s: string)
    requires n > 0 && s != [] && !IsSpace(s[0])
    ensures Content(Pad(n) + s) == s && Indent(Pad(n) + s) == n && !IsBlank(Pad(n) + s) && !IsHeader(Pad(n) + s)
  {
    PadTrims(n, s);
  }

  lemma LeadingSpace(s: string)
    ensures TrimLeft(" " + s, IsSpace) == TrimLeft(s, IsSpace)
  {
    assert (" " + s)[0] == ' ' && IsSpace(' ') && (" " + s)[1..] == s;
    hide IsSpace;
  }

  lemma NothingToTrim(s: string)
    requires Trimmed(s)
    ensures TrimLeft(s, IsSpace) == s && TrimRight(s, IsSpace) == s
  {
    hide IsSpace;
  }

  lemma TrimsAway(s: string)
    requires Trimmed(s)
    ensures Trim(s) == s && Trim(" " + s) == s
  {
    hide IsSpace, TrimLeft, TrimRight, Trimmed;
    LeadingSpace(s);
    NothingToTrim(s);
  }

  lemma {:induction false} SpaceAfter(a: string, b: string)
    requires ' ' !in a
    ensures FindSpace(a + (" " + b)) == |a| && SplitOnce(a + (" " + b)) == Some((a, b))
    decreases |a|
  {
    var s := a + (" " + b);
    assert s[|a|] == ' ' && s[..|a|] == a && s[|a| + 1..] == b;
    hide FindSpace;
    var n := FindSpace(s);
    assert forall k | |a| < k <= |s| :: s[..k][|a|] == ' ';
    assert forall k | 0 <= k < |a| :: s[k] == a[k] != ' ';
  }

  lemma NoSpaceIn(s: string)
    requires Name(s)
    ensures ' ' !in s && Trimmed(s) && Trim(s) == s && SplitOnce(s) == None
  {
    TrimsAway(s);
    assert IsSpace(' ');
    assert ' ' !in s;
  }

  lemma ParensTrim(s: string)
    requires Bare(s)
    ensures TrimParens("(" + s + ")") == s
  {
    assert IsParen('(') && IsParen(')');
    hide IsParen;
    var closed := s + ")";
    var all := "(" + s + ")";
    assert all[0] == '(' && all[1..] == closed && Last(closed) == ')' && Front(closed) == s;
    if s == [] {
      assert closed[0] == ')' && closed[1..] == [];
      assert TrimLeft([], IsParen) == [];
      assert TrimLeft(closed, IsParen) == [];
      assert TrimLeft(all, IsParen) == [];
    } else {
      assert closed[0] == s[0];
      assert TrimLeft(all, IsParen) == closed;
      assert TrimRight(s, IsParen) == s;
      assert TrimRight(closed, IsParen) == TrimRight(s, IsParen);
    }
  }

  /** A name with its text in parentheses splits back into both. */
  lemma NamedSplits(name: string, inner: string)
    requires Name(name) && Bare(inner)
    ensures DepOf(name + (" " + ("(" + inner + ")"))) == (name, Some(inner))
    ensures SpecOf(name + (" " + ("(" + inner + ")")), 0).Some?
    ensures forall index: nat :: SpecOf(name + (" " + ("(" + inner + ")")), index) == Some(GemSpec(name, inner, [], index))
  {
    hide Trim, TrimParens, FindSpace;
    NoSpaceIn(name);
    SpaceAfter(name, "(" + inner + ")");
    ParensTrim(inner);
  }

  lemma DepSplits(d: Dep)
    requires DepOk(d)
    ensures DepOf(DepText(d)) == d && DepText(d) != [] && !IsSpace(DepText(d)[0])
  {
    hide Trim, TrimParens, FindSpace;
    match d.1
    case Some(c) => NamedSplits(d.0, c);
    case None => NoSpaceIn(d.0);
  }

  /** The marker comes off, and nothing else does. */
  lemma BangTrims(d: Dep, marked: set<string>)
    requires TopDepOk(d)
    ensures TrimRight(TopDepText(d, marked), IsBang) == DepText(d)
  {
    var s := DepText(d);
    assert Last(s) != '!' by {
      if d.1.Some? {
        assert s == (d.0 + (" " + ("(" + d.1.value))) + ")";
      }
    }
    assert TrimRight(s, IsBang) == s && IsBang('!');
    if d.0 in marked {
      assert Last(s + "!") == '!' && Front(s + "!") == s;
    } else {
      assert s + "" == s;
    }
  }

  lemma SumRest(c: (string, string, string))
    requires SumOk(c)
    ensures var rest := ("(" + c.1 + ")") + (" " + (Sha() + c.2));
            Trim(rest) == rest && SplitOnce(rest) == Some(("(" + c.1 + ")", Sha() + c.2))
  {
    hide FindSpace, Sha, ShaMark, Trim, IsSpace;
    ShaTrims(c.2);
    EndsTrimmed("(" + c.1 + ")", Sha() + c.2);
    SpaceAfter("(" + c.1 + ")", Sha() + c.2);
  }

  lemma SumSplits(c: (string, string, string))
    requires SumOk(c)
    ensures ChecksumOf(SumText(c)) == Some(c) && SumText(c) != [] && !IsSpace(SumText(c)[0])
  {
    hide FindSpace, Sha, ShaMark, StripSha, TrimParens, Trim, IsSpace, SplitOnce;
    var rest := ("(" + c.1 + ")") + (" " + (Sha() + c.2));
    NoSpaceIn(c.0);
    SpaceAfter(c.0, rest);
    SumRest(c);
    ShaTrims(c.2);
    ParensTrim(c.1);
    TrimsAway(c.2);
    assert SumText(c)[0] == c.0[0];
  }

  lemma EndsTrimmed(paren: string, sha: string)
    requires paren != [] && paren[0] == '(' && sha != [] && !IsSpace(Last(sha))
    ensures Trim(paren + (" " + sha)) == paren + (" " + sha)
  {
    var s := paren + (" " + sha);
    assert s[0] == '(' && Last(s) == Last(sha);
    TrimsAway(s);
  }

  lemma ShaTrims(sha: string)
    requires FieldOk(sha) && !(Sha() <= sha)
    ensures StripSha(Sha() + sha) == sha && Sha() + sha != [] && !IsSpace(Last(Sha() + sha))
  {
    assert (Sha() + sha)[|Sha()|..] == sha;
    assert Last(Sha() + sha) == if sha == [] then '=' else Last(sha);
  }

  // ---- one line after another ----

  lemma StepOne(st: State, line: string)
    ensures Steps(st, [line]) == Step(st, line)
  {
    hide Step;
    assert [line][0] == line && [line][1..] == [];
  }

  lemma StepsThen(st: State, a: seq<string>, line: string)
    ensures Steps(st, a + [line]) == Step(Steps(st, a), line)
  {
    hide Steps, Step;
    StepsConcat(st, a, [line]);
    StepOne(Steps(st, a), line);
  }

  predicate InSource(st: State) {
    st.cur.section.SourceSection?
  }

  /** An indented line of a source section changes the specs and the source being read, nothing else. */
  lemma SourceStep(st: State, n: nat, text: string)
    requires InSource(st) && n > 0 && text != [] && !IsSpace(text[0])
    ensures var line := Pad(n) + text;
            && Content(line) == text && Indent(line) == n
            && Step(st, line) == State(st.lock.(specs := StepSpecs(st.cur, st.lock.specs, |st.lock.sources|, line)), StepCur(st.cur, line))
  {
    hide StepCur, StepSpecs, IsSpace;
    PadLine(n, text);
  }

  lemma KeyPrefixes(v: string)
    ensures !("remote:" <= "revision:" + v)
    ensures !("remote:" <= "branch:" + v) && !("revision:" <= "branch:" + v)
    ensures !("remote:" <= "path:" + v) && !("revision:" <= "path:" + v) && !("branch:" <= "path:" + v)
    ensures !("remote:" <= "specs:") && !("revision:" <= "specs:") && !("branch:" <= "specs:") && !("path:" <= "specs:")
  {
    assert ("revision:" + v)[2] == 'v' && ("branch:" + v)[0] == 'b' && ("path:" + v)[0] == 'p';
    assert "remote:"[2] == 'm' && "remote:"[0] == 'r' && "revision:"[0] == 'r' && "branch:"[0] == 'b';
  }

  lemma KeyStep(st: State, k: string, v: string)
    requires InSource(st) && FieldOk(v) && k in ["remote:", "revision:", "branch:", "path:"]
    ensures Step(st, Pad(2) + (k + (" " + v)))
         == State(st.lock, if k == "remote:" then st.cur.(remote := v) else if k == "revision:" then st.cur.(revision := Some(v))
                           else if k == "branch:" then st.cur.(branch := Some(v)) else st.cur.(path := Some(v)))
  {
    hide Trim, IsSpace, Step, Indent, Content;
    assert !IsSpace('r') && !IsSpace('b') && !IsSpace('p') by { Letters(); }
    var text := k + (" " + v);
    assert text[0] == k[0] && k <= text && text[|k|..] == " " + v;
    SourceStep(st, 2, text);
    KeyPrefixes(" " + v);
    TrimsAway(v);
  }

  lemma Letters()
    ensures !IsSpace('r') && !IsSpace('b') && !IsSpace('p') && !IsSpace('s')
    ensures !IsSpace('G') && !IsSpace('P') && !IsSpace('D') && !IsSpace('C') && !IsSpace('R') && !IsSpace('B')
  {
  }

  function WithKey(cur: Cur, k: string, v: Option<string>): Cur {
    if v.None? then cur
    else if k == "remote:" then cur.(remote := v.value)
    else if k == "revision:" then cur.(revision := v)
    else if k == "branch:" then cur.(branch := v)
    else cur.(path := v)
  }

  lemma KeyLines(st: State, k: string, v: Option<string>)
    requires InSource(st) && OptOk(v) && k in ["remote:", "revision:", "branch:", "path:"]
    ensures Steps(st, Key(k, v)) == State(st.lock, WithKey(st.cur, k, v))
  {
    hide Step, FieldOk;
    if v.Some? {
      StepOne(st, Pad(2) + (k + (" " + v.value)));
      KeyStep(st, k, v.value);
    }
  }

  lemma KeysAll(st: State, s: GemSource)
    requires InSource(st) && SourceOk(s) && st.cur == Fresh(SourceSection(s.kind))
    ensures Steps(st, SourceKeys(s)) == State(st.lock, Cur(SourceSection(s.kind), s.remote, s.revision, s.branch, s.path, false))
  {
    hide Steps, Key, FieldOk;
    var a, b, c, d := Key("remote:", Some(s.remote)), Key("revision:", s.revision), Key("branch:", s.branch), Key("path:", s.path);
    StepsConcat(st, a + b + c, d);
    StepsConcat(st, a + b, c);
    StepsConcat(st, a, b);
    KeyLines(st, "remote:", Some(s.remote));
    var st1 := State(st.lock, WithKey(st.cur, "remote:", Some(s.remote)));
    KeyLines(st1, "revision:", s.revision);
    var st2 := State(st.lock, WithKey(st1.cur, "revision:", s.revision));
    KeyLines(st2, "branch:", s.branch);
    KeyLines(State(st.lock, WithKey(st2.cur, "branch:", s.branch)), "path:", s.path);
  }

  lemma SpecsMark(st: State)
    requires InSource(st) && !st.cur.inSpecs
    ensures Step(st, Pad(2) + "specs:") == State(st.lock, st.cur.(inSpecs := true))
  {
    hide Step, IsSpace, Indent, Content, Trim;
    Letters();
    KeyPrefixes("");
    SourceStep(st, 2, "specs:");
  }

  // ---- specs ----

  lemma DepStep(st: State, d: Dep)
    requires InSource(st) && st.cur.inSpecs && DepOk(d)
    ensures Step(st, Pad(6) + DepText(d)) == State(st.lock.(specs := WithDep(st.lock.specs, d)), st.cur)
  {
    hide Step, IsSpace, Indent, Content, DepOf, DepText, WithDep;
    DepSplits(d);
    SourceStep(st, 6, DepText(d));
  }

  predicate DepsOk(deps: seq<Dep>) {
    forall i | 0 <= i < |deps| :: DepOk(deps[i])
  }

  lemma {:induction false} DepsSteps(st: State, before: seq<GemSpec>, spec: GemSpec, deps: seq<Dep>)
    requires InSource(st) && st.cur.inSpecs && st.lock.specs == before + [spec.(deps := [])] && DepsOk(deps)
    ensures Steps(st, DepLines(deps, 6)) == State(st.lock.(specs := before + [spec.(deps := deps)]), st.cur)
    decreases |deps|
  {
    hide Step, DepOk, DepText;
    if deps == [] {
    } else {
      DepsSteps(st, before, spec, Front(deps));
      var mid := Steps(st, DepLines(Front(deps), 6));
      StepsThen(st, DepLines(Front(deps), 6), Pad(6) + DepText(Last(deps)));
      DepStep(mid, Last(deps));
      assert Front(mid.lock.specs) == before && Last(mid.lock.specs) == spec.(deps := Front(deps));
      assert deps == Front(deps) + [Last(deps)];
    }
  }

  lemma SpecStep(st: State, spec: GemSpec)
    requires InSource(st) && st.cur.inSpecs && SpecOk(spec) && spec.sourceIndex == |st.lock.sources|
    ensures Step(st, Pad(4) + (spec.name + (" " + ("(" + spec.version + ")"))))
         == State(st.lock.(specs := st.lock.specs + [spec.(deps := [])]), st.cur)
  {
    hide Step, IsSpace, Indent, Content, DepOf, SpecOf;
    var text := spec.name + (" " + ("(" + spec.version + ")"));
    assert text[0] == spec.name[0];
    NamedSplits(spec.name, spec.version);
    SourceStep(st, 4, text);
  }

  lemma SpecSteps(st: State, spec: GemSpec)
    requires InSource(st) && st.cur.inSpecs && SpecOk(spec) && spec.sourceIndex == |st.lock.sources|
    ensures Steps(st, SpecLines(spec)) == State(st.lock.(specs := st.lock.specs + [spec]), st.cur)
  {
    hide Step, Steps, DepLines;
    var first := Pad(4) + (spec.name + (" " + ("(" + spec.version + ")")));
    StepsConcat(st, [first], DepLines(spec.deps, 6));
    StepOne(st, first);
    SpecStep(st, spec);
    DepsSteps(Step(st, first), st.lock.specs, spec, spec.deps);
  }

  predicate OwnSpecs(specs: seq<GemSpec>, index: nat) {
    forall i | 0 <= i < |specs| :: SpecOk(specs[i]) && specs[i].sourceIndex == index
  }

  lemma {:induction false} AllSpecsSteps(st: State, specs: seq<GemSpec>)
    requires InSource(st) && st.cur.inSpecs && OwnSpecs(specs, |st.lock.sources|)
    ensures Steps(st, AllSpecLines(specs)) == State(st.lock.(specs := st.lock.specs + specs), st.cur)
    decreases |specs|
  {
    hide SpecLines, SpecOk, Step;
    if specs == [] {
      assert st.lock.specs + [] == st.lock.specs;
    } else {
      AllSpecsSteps(st, Front(specs));
      StepsConcat(st, AllSpecLines(Front(specs)), SpecLines(Last(specs)));
      var mid := State(st.lock.(specs := st.lock.specs + Front(specs)), st.cur);
      SpecSteps(mid, Last(specs));
      assert specs == Front(specs) + [Last(specs)];
      assert st.lock.specs + Front(specs) + [Last(specs)] == st.lock.specs + specs;
    }
  }

  // ---- sources ----

  lemma HeaderLine(h: string)
    requires h != [] && !IsSpace(h[0])
    ensures Content(h) == h && IsHeader(h)
  {
  }

  lemma HeaderStep(st: State, h: string)
    requires Clean(st) && h != [] && !IsSpace(h[0])
    ensures Step(st, h) == State(Close(st), Fresh(SectionOf(h)))
  {
    hide IsSpace, SectionOf;
    HeaderLine(h);
  }

  lemma BlankStep(st: State)
    ensures Step(st, "") == st
  {
  }

  lemma SourceHeader(kind: SourceType)
    ensures SectionOf(HeaderOf(kind)) == SourceSection(kind) && HeaderOf(kind) != [] && !IsSpace(HeaderOf(kind)[0])
  {
  }

  lemma SourceSteps(st: State, s: GemSource, specs: seq<GemSpec>)
    requires Clean(st) && SourceOk(s) && OwnSpecs(specs, |Close(st).sources|)
    ensures var next := Steps(st, SourceLines(s, specs));
            && InSource(next) && Clean(next)
            && Close(next) == Close(st).(sources := Close(st).sources + [s], specs := Close(st).specs + specs)
  {
    hide Step, Steps, SourceKeys, AllSpecLines, OwnSpecs, SourceOk, SectionOf, HeaderOf;
    var st1 := State(Close(st), Fresh(SourceSection(s.kind)));
    var st2 := State(Close(st), Cur(SourceSection(s.kind), s.remote, s.revision, s.branch, s.path, false));
    var st3 := State(Close(st), st2.cur.(inSpecs := true));
    var h, keys, mark, all := [HeaderOf(s.kind)], SourceKeys(s), [Pad(2) + "specs:"], AllSpecLines(specs);
    StepsThen(st, h + keys + mark + all, "");
    StepsConcat(st, h + keys + mark, all);
    StepsThen(st, h + keys, Pad(2) + "specs:");
    StepsConcat(st, h, keys);
    StepOne(st, HeaderOf(s.kind));
    SourceHeader(s.kind);
    HeaderStep(st, HeaderOf(s.kind));
    KeysAll(st1, s);
    SpecsMark(st2);
    AllSpecsSteps(st3, specs);
    BlankStep(State(st3.lock.(specs := st3.lock.specs + specs), st3.cur));
  }

  ghost predicate SpecsFit(specs: seq<GemSpec>, index: nat, n: nat) {
    && (forall i | 0 <= i < |specs| :: SpecOk(specs[i]) && index <= specs[i].sourceIndex < index + n)
    && (forall i, j | 0 <= i < j < |specs| :: specs[i].sourceIndex <= specs[j].sourceIndex)
  }

  predicate SourcesOk(sources: seq<GemSource>) {
    forall i | 0 <= i < |sources| :: SourceOk(sources[i])
  }

  lemma RunSplits(specs: seq<GemSpec>, index: nat, n: nat)
    requires n > 0 && SpecsFit(specs, index, n)
    ensures var k := Run(specs, index); OwnSpecs(specs[..k], index) && SpecsFit(specs[k..], index + 1, n - 1)
  {
    hide SpecOk;
  }

  lemma SpecsNeedSources(specs: seq<GemSpec>, index: nat, n: nat)
    requires SpecsFit(specs, index, n)
    ensures n == 0 ==> specs == []
  {
    hide SpecOk;
    assert specs != [] ==> index <= specs[0].sourceIndex < index + n;
  }

  lemma FirstAndRest(sources: seq<GemSource>)
    requires sources != [] && SourcesOk(sources)
    ensures SourceOk(sources[0]) && SourcesOk(sources[1..])
  {
    hide SourceOk;
  }

  lemma {:induction false} SourcesSteps(st: State, sources: seq<GemSource>, specs: seq<GemSpec>, index: nat)
    requires Clean(st) && |Close(st).sources| == index && SourcesOk(sources) && SpecsFit(specs, index, |sources|)
    ensures var next := Steps(st, SourcesLines(sources, specs, index));
            && Clean(next)
            && Close(next) == Close(st).(sources := Close(st).sources + sources, specs := Close(st).specs + specs)
    decreases |sources|
  {
    hide Steps, SourceLines, SourceOk, SourcesOk, SpecOk, Close, Clean, SpecsFit, Run;
    if sources == [] {
      assert Steps(st, []) == st by { NoSteps(st); }
      SpecsNeedSources(specs, index, 0);
      assert Close(st).sources + [] == Close(st).sources && Close(st).specs + [] == Close(st).specs;
    } else {
      var n := Run(specs, index);
      RunSplits(specs, index, |sources|);
      FirstAndRest(sources);
      var lines, rest := SourceLines(sources[0], specs[..n]), SourcesLines(sources[1..], specs[n..], index + 1);
      SourceSteps(st, sources[0], specs[..n]);
      var next := Steps(st, lines);
      SourcesSteps(next, sources[1..], specs[n..], index + 1);
      StepsConcat(st, lines, rest);
      TwoParts(Close(st).sources, sources, 1);
      TwoParts(Close(st).specs, specs, n);
      assert [sources[0]] == sources[..1];
    }
  }

  lemma NoSteps(st: State)
    ensures Steps(st, []) == st
  {
  }

  lemma TwoParts<T>(before: seq<T>, s: seq<T>, n: nat)
    requires n <= |s|
    ensures before + s[..n] + s[n..] == before + s
  {
    assert s == s[..n] + s[n..];
  }

  // ---- the other sections ----

  lemma OtherStep(st: State, n: nat, text: string)
    requires !InSource(st) && n > 0 && text != [] && !IsSpace(text[0])
    ensures var line := Pad(n) + text;
            && Content(line) == text && Indent(line) == n
            && Step(st, line) == State(StepOther(st.cur.section, st.lock, line), st.cur)
  {
    hide IsSpace, StepOther;
    PadLine(n, text);
    assert StepCur(st.cur, Pad(n) + text) == st.cur;
  }

  lemma EntryTrims(s: string)
    requires EntryOk(s)
    ensures s != [] && !IsSpace(s[0]) && Trim(s) == s
  {
    TrimsAway(s);
  }

  lemma {:induction false} PlatformSteps(st: State, entries: seq<string>)
    requires st.cur.section.Platforms? && forall i | 0 <= i < |entries| :: EntryOk(entries[i])
    ensures Steps(st, EntryLines(entries)) == State(st.lock.(platforms := st.lock.platforms + entries), st.cur)
    decreases |entries|
  {
    hide Step, EntryOk, IsSpace, Trim, Content, Indent;
    if entries == [] {
      assert st.lock.platforms + [] == st.lock.platforms;
    } else {
      PlatformSteps(st, Front(entries));
      var mid, last := Steps(st, EntryLines(Front(entries))), Last(entries);
      StepsThen(st, EntryLines(Front(entries)), Pad(2) + last);
      EntryTrims(last);
      OtherStep(mid, 2, last);
      TwoParts(st.lock.platforms, entries, |entries| - 1);
      assert entries[|entries| - 1..] == [last];
    }
  }

  lemma {:induction false} DependencySteps(st: State, deps: seq<Dep>, marked: set<string>)
    requires st.cur.section.Dependencies? && forall i | 0 <= i < |deps| :: TopDepOk(deps[i])
    ensures Steps(st, TopLines(deps, marked)) == State(st.lock.(dependencies := st.lock.dependencies + deps), st.cur)
    decreases |deps|
  {
    hide Step, TopDepOk, DepOk, IsSpace, DepOf, TopDepText, TrimRight, Content, Indent;
    if deps == [] {
      assert st.lock.dependencies + [] == st.lock.dependencies;
    } else {
      DependencySteps(st, Front(deps), marked);
      var mid, last := Steps(st, TopLines(Front(deps), marked)), Last(deps);
      StepsThen(st, TopLines(Front(deps), marked), Pad(2) + TopDepText(last, marked));
      TopDepSplits(last, marked);
      OtherStep(mid, 2, TopDepText(last, marked));
      TwoParts(st.lock.dependencies, deps, |deps| - 1);
      assert deps[|deps| - 1..] == [last];
    }
  }

  /** A dependency line says the same with and without the marker. */
  lemma TopDepSplits(d: Dep, marked: set<string>)
    requires TopDepOk(d)
    ensures DepOf(TrimRight(TopDepText(d, marked), IsBang)) == d
    ensures TopDepText(d, marked) != [] && !IsSpace(TopDepText(d, marked)[0])
  {
    hide IsSpace, DepOf, DepText, TrimRight;
    BangTrims(d, marked);
    DepSplits(d);
    assert TopDepText(d, marked)[0] == DepText(d)[0];
  }

  lemma {:induction false} ChecksumSteps(st: State, sums: seq<(string, string, string)>)
    requires st.cur.section.Checksums? && forall i | 0 <= i < |sums| :: SumOk(sums[i])
    ensures Steps(st, SumLines(sums)) == State(st.lock.(checksums := st.lock.checksums + sums), st.cur)
    decreases |sums|
  {
    hide Step, SumOk, IsSpace, ChecksumOf, SumText, Content, Indent;
    if sums == [] {
      assert st.lock.checksums + [] == st.lock.checksums;
    } else {
      ChecksumSteps(st, Front(sums));
      var mid, last := Steps(st, SumLines(Front(sums))), Last(sums);
      StepsThen(st, SumLines(Front(sums)), Pad(2) + SumText(last));
      SumSplits(last);
      OtherStep(mid, 2, SumText(last));
      TwoParts(st.lock.checksums, sums, |sums| - 1);
      assert sums[|sums| - 1..] == [last];
    }
  }

  lemma OptSteps(st: State, header: string, section: Section, v: Option<string>)
    requires Clean(st) && !InSource(st) && (v.Some? ==> EntryOk(v.value))
    requires header != [] && !IsSpace(header[0]) && SectionOf(header) == section && (section.RubyVersion? || section.BundledWith?)
    ensures var next := Steps(st, OptLines(header, v));
            && Clean(next) && !InSource(next)
            && next.lock == if v.None? then st.lock
                            else if section.RubyVersion? then st.lock.(rubyVersion := v) else st.lock.(bundledWith := v)
  {
    hide Step, Steps, EntryOk, IsSpace, Trim, Content, Indent, SectionOf;
    if v.None? {
      NoSteps(st);
    } else {
      var entered := State(st.lock, Fresh(section));
      var lines := [header, Pad(3) + v.value];
      assert OptLines(header, v) == lines + [""] && lines == [header] + [Pad(3) + v.value];
      StepsThen(st, lines, "");
      StepsThen(st, [header], Pad(3) + v.value);
      StepOne(st, header);
      HeaderStep(st, header);
      EntryTrims(v.value);
      OtherStep(entered, 3, v.value);
      BlankStep(Step(entered, Pad(3) + v.value));
    }
  }

  lemma Headers()
    ensures SectionOf("PLATFORMS") == Platforms && SectionOf("DEPENDENCIES") == Dependencies && SectionOf("CHECKSUMS") == Checksums
    ensures SectionOf("RUBY VERSION") == RubyVersion && SectionOf("BUNDLED WITH") == BundledWith
  {
  }

  /** A block of one section: header, lines, blank line. */
  lemma BlockSteps(st: State, header: string, body: seq<string>)
    requires Clean(st) && header != [] && !IsSpace(header[0])
    ensures Steps(st, [header] + body + [""]) == Steps(State(Close(st), Fresh(SectionOf(header))), body)
  {
    hide Step, Steps, IsSpace, SectionOf, Clean, Close;
    StepsThen(st, [header] + body, "");
    StepsConcat(st, [header], body);
    StepOne(st, header);
    HeaderStep(st, header);
    BlankStep(Steps(State(Close(st), Fresh(SectionOf(header))), body));
  }

  /** The three lists that follow the sources. */
  lemma ListSteps(st: State, l: Lockfile)
    requires Clean(st) && WellFormed(l)
    requires Close(st).platforms == [] && Close(st).dependencies == [] && Close(st).checksums == []
    ensures var lines := (["PLATFORMS"] + EntryLines(l.platforms) + [""])
                       + (["DEPENDENCIES"] + TopLines(l.dependencies, Elsewhere(l)) + [""])
                       + (["CHECKSUMS"] + SumLines(l.checksums) + [""]);
            lines == ListLines(l) && Steps(st, lines) == State(Close(st).(platforms := l.platforms, dependencies := l.dependencies, checksums := l.checksums), Fresh(Checksums))
  {
    hide Step, Steps, IsSpace, SectionOf, EntryLines, TopLines, Elsewhere, SumLines, EntryOk, TopDepOk, SumOk, SourceOk, SpecOk;
    Letters();
    Headers();
    var a := ["PLATFORMS"] + EntryLines(l.platforms) + [""];
    var b := ["DEPENDENCIES"] + TopLines(l.dependencies, Elsewhere(l)) + [""];
    var c := ["CHECKSUMS"] + SumLines(l.checksums) + [""];
    StepsConcat(st, a + b, c);
    StepsConcat(st, a, b);
    var st1 := State(Close(st), Fresh(Platforms));
    BlockSteps(st, "PLATFORMS", EntryLines(l.platforms));
    PlatformSteps(st1, l.platforms);
    assert [] + l.platforms == l.platforms && [] + l.dependencies == l.dependencies && [] + l.checksums == l.checksums;
    var st2 := State(Close(st).(platforms := l.platforms), Fresh(Dependencies));
    BlockSteps(State(st2.lock, Fresh(Platforms)), "DEPENDENCIES", TopLines(l.dependencies, Elsewhere(l)));
    DependencySteps(st2, l.dependencies, Elsewhere(l));
    var st3 := State(st2.lock.(dependencies := l.dependencies), Fresh(Checksums));
    BlockSteps(State(st3.lock, Fresh(Dependencies)), "CHECKSUMS", SumLines(l.checksums));
    ChecksumSteps(st3, l.checksums);
  }

  lemma FitsFromZero(l: Lockfile)
    requires WellFormed(l)
    ensures SourcesOk(l.sources) && SpecsFit(l.specs, 0, |l.sources|)
  {
    hide SourceOk, SpecOk, EntryOk, TopDepOk, SumOk;
  }

  lemma TailSteps(st: State, l: Lockfile)
    requires Clean(st) && !InSource(st) && WellFormed(l) && st.lock.rubyVersion.None? && st.lock.bundledWith.None?
    ensures ParsedFrom(st, OptLines("RUBY VERSION", l.rubyVersion) + OptLines("BUNDLED WITH", l.bundledWith))
         == st.lock.(rubyVersion := l.rubyVersion, bundledWith := l.bundledWith)
  {
    hide Step, Steps, IsSpace, SectionOf, OptLines, EntryOk, TopDepOk, SumOk, SourceOk, SpecOk;
    Letters();
    Headers();
    StepsConcat(st, OptLines("RUBY VERSION", l.rubyVersion), OptLines("BUNDLED WITH", l.bundledWith));
    OptSteps(st, "RUBY VERSION", RubyVersion, l.rubyVersion);
    OptSteps(Steps(st, OptLines("RUBY VERSION", l.rubyVersion)), "BUNDLED WITH", BundledWith, l.bundledWith);
  }

  function ParsedFrom(st: State, lines: seq<string>): Lockfile {
    Close(Steps(st, lines))
  }

  function ListLines(l: Lockfile): seq<string> {
    (["PLATFORMS"] + EntryLines(l.platforms) + [""])
    + (["DEPENDENCIES"] + TopLines(l.dependencies, Elsewhere(l)) + [""])
    + (["CHECKSUMS"] + SumLines(l.checksums) + [""])
  }

  lemma PrintedParts(l: Lockfile)
    ensures PrintLines(l) == SourcesLines(l.sources, l.specs, 0) + ListLines(l)
                             + (OptLines("RUBY VERSION", l.rubyVersion) + OptLines("BUNDLED WITH", l.bundledWith))
  {
    hide SourcesLines, EntryLines, TopLines, Elsewhere, SumLines, OptLines;
  }

  lemma PrintedLinesParse(l: Lockfile)
    requires WellFormed(l)
    ensures ParseLines(PrintLines(l)) == l
  {
    hide Step, Steps, SourcesLines, OptLines, WellFormed, ListLines, PrintLines, SourcesOk, SpecsFit, SectionOf;
    var start := State(EMPTY, Fresh(NoSection));
    var sources, lists := SourcesLines(l.sources, l.specs, 0), ListLines(l);
    var tail := OptLines("RUBY VERSION", l.rubyVersion) + OptLines("BUNDLED WITH", l.bundledWith);
    PrintedParts(l);
    SourcesSteps(start, l.sources, l.specs, 0) by { FitsFromZero(l); }
    var st1 := Steps(start, sources);
    ListSteps(st1, l);
    var st2 := Steps(st1, lists);
    TailSteps(st2, l);
    StepsConcat(start, sources + lists, tail);
    StepsConcat(start, sources, lists);
    assert [] + l.sources == l.sources && [] + l.specs == l.specs;
  }

  // ---- text and lines ----

  predicate LineOk(line: string) {
    OneLine(line) && (line == [] || Last(line) != '\r')
  }

  predicate LinesOk(lines: seq<string>) {
    forall i | 0 <= i < |lines| :: LineOk(lines[i])
  }

  lemma {:induction false} NewlineAt(x: string, b: string)
    requires OneLine(x)
    ensures FindNewline(x + (['\n'] + b)) == |x|
    decreases |x|
  {
    var s := x + (['\n'] + b);
    if x == [] {
      assert s[0] == '\n';
    } else {
      assert s[0] == x[0] && s[1..] == x[1..] + (['\n'] + b);
      NewlineAt(x[1..], b);
    }
  }

  lemma CutLine(x: string, b: string)
    ensures var s := x + (['\n'] + b);
            s != [] && |x| < |s| && s[..|x|] == x && s[|x| + 1..] == b && (x != [] ==> s[|x| - 1] == Last(x) && s[..|x| - 1] == Front(x))
  {
  }

  /** A line ends at its newline, or at the carriage return in front of it. */
  lemma LineEnds(x: string, b: string)
    requires OneLine(x)
    ensures Lines(x + (['\n'] + b)) == [if x != [] && Last(x) == '\r' then Front(x) else x] + Lines(b)
  {
    hide FindNewline, OneLine;
    NewlineAt(x, b);
    CutLine(x, b);
  }

  /** The first line of a text. */
  lemma FirstLine(a: string, crlf: bool, b: string)
    requires LineOk(a)
    ensures Lines(a + Eol(crlf) + b) == [a] + Lines(b)
  {
    hide Lines;
    if crlf {
      var x := a + ['\r'];
      assert a + Eol(true) + b == x + (['\n'] + b);
      assert Front(x) == a && Last(x) == '\r';
      LineEnds(x, b);
    } else {
      assert a + Eol(false) + b == a + (['\n'] + b);
      LineEnds(a, b);
    }
  }

  lemma {:induction false} LinesOfJoin(lines: seq<string>, crlf: bool)
    requires LinesOk(lines)
    ensures Lines(Join(lines, crlf)) == lines
    decreases |lines|
  {
    hide Eol, LineOk;
    if lines == [] {
      assert Lines([]) == [];
    } else {
      hide Lines;
      FirstLine(lines[0], crlf, Join(lines[1..], crlf));
      LinesOfJoin(lines[1..], crlf);
    }
  }

  lemma LinesOkConcat(a: seq<string>, b: seq<string>)
    requires LinesOk(a) && LinesOk(b)
    ensures LinesOk(a + b)
  {
    hide LineOk;
  }

  lemma PadLineOk(n: nat, s: string)
    requires OneLine(s) && s != [] && Last(s) != '\r'
    ensures LineOk(Pad(n) + s)
  {
  }

  lemma ParenLineOk(name: string, inner: string)
    requires Name(name) && Bare(inner)
    ensures var s := name + (" " + ("(" + inner + ")")); OneLine(s) && s != [] && Last(s) == ')'
  {
    assert IsSpace('\n');
    hide IsSpace, IsParen;
  }

  lemma DepTextOk(d: Dep)
    requires DepOk(d)
    ensures OneLine(DepText(d)) && DepText(d) != [] && Last(DepText(d)) != '\r'
  {
    assert IsSpace('\n') && IsSpace('\r');
    hide IsSpace, Bare;
    match d.1
    case Some(c) => ParenLineOk(d.0, c);
    case None =>
  }

  lemma {:induction false} DepLinesOk(deps: seq<Dep>, pad: nat)
    requires forall i | 0 <= i < |deps| :: DepOk(deps[i])
    ensures LinesOk(DepLines(deps, pad))
  {
    hide DepOk, LineOk, DepText;
    if deps == [] {
    } else {
      DepLinesOk(Front(deps), pad);
      DepTextOk(Last(deps));
      PadLineOk(pad, DepText(Last(deps)));
    }
  }

  lemma {:induction false} TopLinesOk(deps: seq<Dep>, marked: set<string>)
    requires forall i | 0 <= i < |deps| :: DepOk(deps[i])
    ensures LinesOk(TopLines(deps, marked))
  {
    hide DepOk, LineOk, DepText;
    if deps == [] {
    } else {
      TopLinesOk(Front(deps), marked);
      DepTextOk(Last(deps));
      var text := TopDepText(Last(deps), marked);
      assert OneLine(text) && Last(text) == if Last(deps).0 in marked then '!' else Last(DepText(Last(deps)));
      PadLineOk(2, text);
    }
  }

  lemma {:induction false} AllSpecLinesOk(specs: seq<GemSpec>)
    requires forall i | 0 <= i < |specs| :: SpecOk(specs[i])
    ensures LinesOk(AllSpecLines(specs))
  {
    hide LineOk, DepLines, DepOk, Name, Bare;
    if specs == [] {
    } else {
      AllSpecLinesOk(Front(specs));
      var s := Last(specs);
      assert SpecOk(s);
      ParenLineOk(s.name, s.version);
      PadLineOk(4, s.name + (" " + ("(" + s.version + ")")));
      DepLinesOk(s.deps, 6);
      LinesOkConcat([Pad(4) + (s.name + (" " + ("(" + s.version + ")")))], DepLines(s.deps, 6));
      LinesOkConcat(AllSpecLines(Front(specs)), SpecLines(s));
    }
  }

  lemma KeyOk(k: string, v: Option<string>)
    requires OptOk(v) && k in ["remote:", "revision:", "branch:", "path:"]
    ensures LinesOk(Key(k, v))
  {
    assert IsSpace('\r');
    hide IsSpace;
    if v.Some? {
      var s := k + (" " + v.value);
      assert Last(s) == if v.value == [] then ' ' else Last(v.value);
      PadLineOk(2, s);
    }
  }

  lemma SourceLinesOk(s: GemSource, specs: seq<GemSpec>)
    requires SourceOk(s) && forall i | 0 <= i < |specs| :: SpecOk(specs[i])
    ensures LinesOk(SourceLines(s, specs))
  {
    hide Key, FieldOk, AllSpecLines, SpecOk, LinesOk;
    KeyOk("remote:", Some(s.remote));
    KeyOk("revision:", s.revision);
    KeyOk("branch:", s.branch);
    KeyOk("path:", s.path);
    LinesOkConcat(Key("remote:", Some(s.remote)), Key("revision:", s.revision));
    LinesOkConcat(Key("remote:", Some(s.remote)) + Key("revision:", s.revision), Key("branch:", s.branch));
    LinesOkConcat(Key("remote:", Some(s.remote)) + Key("revision:", s.revision) + Key("branch:", s.branch), Key("path:", s.path));
    FixedLinesOk(s.kind);
    AllSpecLinesOk(specs);
    LinesOkConcat([HeaderOf(s.kind)], SourceKeys(s));
    LinesOkConcat([HeaderOf(s.kind)] + SourceKeys(s), [Pad(2) + "specs:"]);
    LinesOkConcat([HeaderOf(s.kind)] + SourceKeys(s) + [Pad(2) + "specs:"], AllSpecLines(specs));
    LinesOkConcat([HeaderOf(s.kind)] + SourceKeys(s) + [Pad(2) + "specs:"] + AllSpecLines(specs), [""]);
  }

  lemma FixedLinesOk(kind: SourceType)
    ensures LinesOk([HeaderOf(kind)]) && LinesOk([Pad(2) + "specs:"]) && LinesOk([""])
    ensures LinesOk(["PLATFORMS"]) && LinesOk(["DEPENDENCIES"]) && LinesOk(["CHECKSUMS"])
    ensures LineOk("RUBY VERSION") && LineOk("BUNDLED WITH") && LineOk("")
  {
    PadLineOk(2, "specs:");
  }

  lemma {:induction false} SourcesLinesOk(sources: seq<GemSource>, specs: seq<GemSpec>, index: nat)
    requires SourcesOk(sources) && forall i | 0 <= i < |specs| :: SpecOk(specs[i])
    ensures LinesOk(SourcesLines(sources, specs, index))
    decreases |sources|
  {
    hide SourceLines, SourceOk, SpecOk, LinesOk;
    if sources == [] {
      assert LinesOk([]) by { NoLines(); }
    } else {
      var n := Run(specs, index);
      SourceLinesOk(sources[0], specs[..n]);
      SourcesLinesOk(sources[1..], specs[n..], index + 1);
      LinesOkConcat(SourceLines(sources[0], specs[..n]), SourcesLines(sources[1..], specs[n..], index + 1));
    }
  }

  lemma NoLines()
    ensures LinesOk([])
  {
  }

  lemma EntryLineOk(n: nat, s: string)
    requires EntryOk(s)
    ensures LineOk(Pad(n) + s)
  {
    assert IsSpace('\r');
    hide IsSpace;
    PadLineOk(n, s);
  }

  lemma {:induction false} EntryLinesOk(entries: seq<string>)
    requires forall i | 0 <= i < |entries| :: EntryOk(entries[i])
    ensures LinesOk(EntryLines(entries))
  {
    hide EntryOk, LineOk;
    if entries == [] {
    } else {
      EntryLinesOk(Front(entries));
      EntryLineOk(2, Last(entries));
    }
  }

  lemma SumLineOk(c: (string, string, string))
    requires SumOk(c)
    ensures LineOk(Pad(2) + SumText(c))
  {
    assert IsSpace('\n') && IsSpace('\r');
    var s := SumText(c);
    assert Last(s) == if c.2 == [] then '=' else Last(c.2);
    hide IsSpace, IsParen;
    assert '\n' !in Sha();
    hide Sha;
    PadLineOk(2, s);
  }

  lemma {:induction false} SumLinesOk(sums: seq<(string, string, string)>)
    requires forall i | 0 <= i < |sums| :: SumOk(sums[i])
    ensures LinesOk(SumLines(sums))
  {
    hide SumOk, LineOk, SumText;
    if sums == [] {
    } else {
      SumLinesOk(Front(sums));
      SumLineOk(Last(sums));
    }
  }

  lemma OptLinesOk(header: string, v: Option<string>)
    requires LineOk(header) && (v.Some? ==> EntryOk(v.value))
    ensures LinesOk(OptLines(header, v))
  {
    hide EntryOk;
    if v.Some? {
      EntryLineOk(3, v.value);
    }
  }

  lemma BlockOk(header: string, body: seq<string>)
    requires LinesOk([header]) && LinesOk(body) && LinesOk([""])
    ensures LinesOk([header] + body + [""])
  {
    hide LinesOk;
    LinesOkConcat([header], body);
    LinesOkConcat([header] + body, [""]);
  }

  lemma PrintedLinesOk(l: Lockfile)
    requires WellFormed(l)
    ensures LinesOk(PrintLines(l))
  {
    hide LinesOk, LineOk, SourcesLines, EntryLines, TopLines, Elsewhere, SumLines, OptLines, EntryOk, DepOk, SumOk, SourceOk, SpecOk;
    FitsFromZero(l);
    FixedLinesOk(Gem);
    SourcesLinesOk(l.sources, l.specs, 0);
    EntryLinesOk(l.platforms);
    forall i | 0 <= i < |l.dependencies| ensures DepOk(l.dependencies[i]) {
      assert TopDepOk(l.dependencies[i]);
    }
    TopLinesOk(l.dependencies, Elsewhere(l));
    SumLinesOk(l.checksums);
    OptLinesOk("RUBY VERSION", l.rubyVersion);
    OptLinesOk("BUNDLED WITH", l.bundledWith);
    var a := SourcesLines(l.sources, l.specs, 0);
    var b := ["PLATFORMS"] + EntryLines(l.platforms) + [""];
    var c := ["DEPENDENCIES"] + TopLines(l.dependencies, Elsewhere(l)) + [""];
    var d := ["CHECKSUMS"] + SumLines(l.checksums) + [""];
    BlockOk("PLATFORMS", EntryLines(l.platforms));
    BlockOk("DEPENDENCIES", TopLines(l.dependencies, Elsewhere(l)));
    BlockOk("CHECKSUMS", SumLines(l.checksums));
    LinesOkConcat(a, b);
    LinesOkConcat(a + b, c);
    LinesOkConcat(a + b + c, d);
    LinesOkConcat(a + b + c + d, OptLines("RUBY VERSION", l.rubyVersion));
    LinesOkConcat(a + b + c + d + OptLines("RUBY VERSION", l.rubyVersion), OptLines("BUNDLED WITH", l.bundledWith));
  }

  /** Printing a well-formed lockfile, with either kind of line end, and parsing the text gives it back. */
  lemma PrintThenParse(l: Lockfile, crlf: bool)
    requires WellFormed(l)
    ensures Parse(Print(l, crlf)) == l
  {
    hide PrintLines, ParseLines, WellFormed, Lines, Join;
    PrintedLinesOk(l);
    LinesOfJoin(PrintLines(l), crlf);
    PrintedLinesParse(l);
  }

  // ---- the exception to independent sections ----

  /** A dependency line of the GIT source, which lists no spec, ends up at a spec of the GEM source. */
  lemma OrphanJoinsOtherSource(lines: seq<string>)
    requires lines == ["GEM"] + [Pad(2) + "specs:"] + [Pad(4) + ("a" + (" " + ("(" + "1" + ")")))]
                      + ["GIT"] + [Pad(2) + "specs:"] + [Pad(6) + DepText(("b", None))]
    ensures ParseLines(lines).specs == [GemSpec("a", "1", [("b", None)], 0)]
  {
    hide Step, Steps, SectionOf, DepText;
    var gem, mark, spec, dep := ["GEM"], [Pad(2) + "specs:"], [Pad(4) + ("a" + (" " + ("(" + "1" + ")")))], [Pad(6) + DepText(("b", None))];
    var start := State(EMPTY, Fresh(NoSection));
    StepsThen(start, gem + mark + spec + ["GIT"] + mark, dep[0]);
    StepsThen(start, gem + mark + spec + ["GIT"], mark[0]);
    StepsThen(start, gem + mark + spec, "GIT");
    StepsThen(start, gem + mark, spec[0]);
    StepsThen(start, gem, mark[0]);
    StepOne(start, "GEM");
    SourceHeader(Gem);
    SourceHeader(Git);
    HeaderStep(start, "GEM");
    var st1 := State(EMPTY, Fresh(SourceSection(Gem)));
    SpecsMark(st1);
    var st2 := State(EMPTY, st1.cur.(inSpecs := true));
    var a := GemSpec("a", "1", [], 0);
    SpecStep(st2, a);
    var st3 := State(EMPTY.(specs := [a]), st2.cur);
    HeaderStep(st3, "GIT");
    var st4 := State(Close(st3), Fresh(SourceSection(Git)));
    SpecsMark(st4);
    DepStep(State(st4.lock, st4.cur.(inSpecs := true)), ("b", None));
    assert Front([a]) == [] && a.deps + [("b", None)] == [("b", None)];
    assert WithDep([a], ("b", None)) == [GemSpec("a", "1", [("b", None)], 0)];
    assert Close(st3).specs == [a] && EMPTY.specs + [a] == [a];
  }
}

/** The Gemfile.lock parser: a state machine over lines, indentation deciding what a line is. */
module RubundLockfile {
  import opened Common

  datatype SourceType = Gem | Git | Path

  datatype GemSource = GemSource(
    kind: SourceType,
    remote: string,
    revision: Option<string>,
    branch: Option<string>,
    path: Option<string>)

  /** A name with an optional constraint. */
  type Dep = (string, Option<string>)

  datatype GemSpec = GemSpec(name: string, version: string, deps: seq<Dep>, sourceIndex: nat)

  datatype Lockfile = Lockfile(
    sources: seq<GemSource>,
    specs: seq<GemSpec>,
    platforms: seq<string>,
    dependencies: seq<Dep>,
    checksums: seq<(string, string, string)>,
    rubyVersion: Option<string>,
    bundledWith: Option<string>)

  datatype Section =
    | NoSection
    | SourceSection(kind: SourceType)
    | Platforms
    | Dependencies
    | Checksums
    | RubyVersion
    | BundledWith

  /** The section being read, and what it has said about its source so far. */
  datatype Cur = Cur(
    section: Section,
    remote: string,
    revision: Option<string>,
    branch: Option<string>,
    path: Option<string>,
    inSpecs: bool)

  datatype State = State(lock: Lockfile, cur: Cur)

  // ---- strings ----

  predicate IsParen(c: char) {
    c == '(' || c == ')' || c == ' '
  }

  predicate IsBang(c: char) {
    c == '!'
  }

  function TrimLeft(s: string, p: char -> bool): (r: string)
    ensures |r| <= |s| && r == s[|s| - |r|..] && (r != [] ==> !p(r[0]))
  {
    if s != [] && p(s[0]) then TrimLeft(s[1..], p) else s
  }

  function TrimRight(s: string, p: char -> bool): (r: string)
    ensures |r| <= |s| && r == s[..|r|]
  {
    if s != [] && p(Last(s)) then TrimRight(Front(s), p) else s
  }

  function Trim(s: string): string {
    TrimRight(TrimLeft(s, IsSpace), IsSpace)
  }

  function TrimParens(s: string): string {
    TrimRight(TrimLeft(s, IsParen), IsParen)
  }

  function FindSpace(s: string): (n: nat)
    ensures n <= |s| && ' ' !in s[..n] && (n < |s| ==> s[n] == ' ')
  {
    if s == [] || s[0] == ' ' then 0
    else
      var n := 1 + FindSpace(s[1..]);
      assert s[..n] == [s[0]] + s[1..][..n - 1];
      n
  }

  /** `split_once(' ')`. */
  function SplitOnce(s: string): Option<(string, string)> {
    var n := FindSpace(s);
    if n == |s| then None else Some((s[..n], s[n + 1..]))
  }

  function ShaMark(): string { "sha256=" }

  /** `trim_start_matches("sha256=")`: as often as it stands there. */
  function StripSha(s: string): string
    decreases |s|
  {
    if ShaMark() <= s then StripSha(s[|ShaMark()|..]) else s
  }

  // ---- one line ----

  function Content(line: string): string {
    TrimLeft(line, IsSpace)
  }

  function Indent(line: string): nat {
    |line| - |Content(line)|
  }

  predicate IsBlank(line: string) {
    Content(line) == []
  }

  predicate IsHeader(line: string) {
    !IsBlank(line) && Indent(line) == 0
  }

  function SectionOf(header: string): Section {
    if header == "GEM" then SourceSection(Gem)
    else if header == "GIT" then SourceSection(Git)
    else if header == "PATH" then SourceSection(Path)
    else if header == "PLATFORMS" then Platforms
    else if header == "DEPENDENCIES" then Dependencies
    else if header == "CHECKSUMS" then Checksums
    else if header == "RUBY VERSION" then RubyVersion
    else if header == "BUNDLED WITH" then BundledWith
    else NoSection
  }

  function Fresh(section: Section): Cur {
    Cur(section, "", None, None, None, false)
  }

  function SourceFrom(cur: Cur): GemSource
    requires cur.section.SourceSection?
  {
    GemSource(cur.section.kind, cur.remote, cur.revision, cur.branch, cur.path)
  }

  /** What a line inside a section does to the source being read. */
  function StepCur(cur: Cur, line: string): Cur {
    var text := Content(line);
    if !cur.section.SourceSection? || Indent(line) != 2 then cur
    else if "remote:" <= text then cur.(remote := Trim(text[7..]))
    else if "revision:" <= text then cur.(revision := Some(Trim(text[9..])))
    else if "branch:" <= text then cur.(branch := Some(Trim(text[7..])))
    else if "path:" <= text then cur.(path := Some(Trim(text[5..])))
    else if text == "specs:" then cur.(inSpecs := true)
    else cur
  }

  function DepOf(text: string): Dep {
    match SplitOnce(text)
    case Some((name, rest)) => (Trim(name), Some(TrimParens(rest)))
    case None => (Trim(text), None)
  }

  function SpecOf(text: string, index: nat): Option<GemSpec> {
    match SplitOnce(text)
    case Some((name, rest)) => Some(GemSpec(Trim(name), TrimParens(rest), [], index))
    case None => None
  }

  function WithDep(specs: seq<GemSpec>, dep: Dep): seq<GemSpec> {
    if specs == [] then specs else Front(specs) + [Last(specs).(deps := Last(specs).deps + [dep])]
  }

  /** What a line inside a section does to the list of specs; `index` is the number of sources finished. */
  function StepSpecs(cur: Cur, specs: seq<GemSpec>, index: nat, line: string): seq<GemSpec> {
    if !cur.section.SourceSection? || !cur.inSpecs then specs
    else if Indent(line) == 4 then
      (match SpecOf(Content(line), index)
       case Some(spec) => specs + [spec]
       case None => specs)
    else if Indent(line) == 6 then WithDep(specs, DepOf(Content(line)))
    else specs
  }

  function ChecksumOf(text: string): Option<(string, string, string)> {
    match SplitOnce(text)
    case None => None
    case Some((name, rest)) =>
      match SplitOnce(Trim(rest))
      case None => None
      case Some((version, sha)) => Some((Trim(name), TrimParens(version), Trim(StripSha(sha))))
  }

  /** What a line inside one of the other sections adds. */
  function StepOther(section: Section, lock: Lockfile, line: string): Lockfile {
    var text := Content(line);
    match section
    case Platforms => if Indent(line) == 2 then lock.(platforms := lock.platforms + [Trim(text)]) else lock
    case Dependencies =>
      if Indent(line) == 2 then lock.(dependencies := lock.dependencies + [DepOf(TrimRight(text, IsBang))]) else lock
    case Checksums =>
      if Indent(line) != 2 then lock
      else
        (match ChecksumOf(text)
         case Some(sum) => lock.(checksums := lock.checksums + [sum])
         case None => lock)
    case RubyVersion => lock.(rubyVersion := Some(Trim(text)))
    case BundledWith => lock.(bundledWith := Some(Trim(text)))
    case SourceSection(_) => lock
    case NoSection => lock
  }

  /** Leaving a section: a source section becomes a source. */
  function Close(st: State): Lockfile {
    if st.cur.section.SourceSection? then st.lock.(sources := st.lock.sources + [SourceFrom(st.cur)]) else st.lock
  }

  function Enter(st: State, header: string): State {
    State(Close(st), if st.cur.section.SourceSection? then Fresh(SectionOf(header)) else st.cur.(section := SectionOf(header)))
  }

  function Step(st: State, line: string): State {
    if IsBlank(line) then st
    else if IsHeader(line) then Enter(st, Content(line))
    else
      State(StepOther(st.cur.section, st.lock.(specs := StepSpecs(st.cur, st.lock.specs, |st.lock.sources|, line)), line),
            StepCur(st.cur, line))
  }

  function Steps(st: State, lines: seq<string>): State
    decreases |lines|
  {
    if lines == [] then st else Steps(Step(st, lines[0]), lines[1..])
  }

  const EMPTY := Lockfile([], [], [], [], [], None, None)

  function ParseLines(lines: seq<string>): Lockfile {
    Close(Steps(State(EMPTY, Fresh(NoSection)), lines))
  }

  // ---- lines of a text ----

  function FindNewline(s: string): (n: nat)
    ensures n <= |s| && '\n' !in s[..n] && (n < |s| ==> s[n] == '\n')
  {
    if s == [] || s[0] == '\n' then 0
    else
      var n := 1 + FindNewline(s[1..]);
      assert s[..n] == [s[0]] + s[1..][..n - 1];
      n
  }

  /** `str::lines`: a carriage return goes with the newline it precedes. */
  function Lines(s: string): seq<string>
    decreases |s|
  {
    if s == [] then []
    else
      var n := FindNewline(s);
      if n == |s| then [s]
      else [if n > 0 && s[n - 1] == '\r' then s[..n - 1] else s[..n]] + Lines(s[n + 1..])
  }

  function Parse(content: string): Lockfile {
    ParseLines(Lines(content))
  }

  // ---- the loop ----

  lemma StepsSnoc(st: State, lines: seq<string>, i: nat)
    requires i < |lines|
    ensures Steps(st, lines[..i + 1]) == Step(Steps(st, lines[..i]), lines[i])
  {
    StepsConcat(st, lines[..i], [lines[i]]);
    assert lines[..i + 1] == lines[..i] + [lines[i]];
    assert [lines[i]][1..] == [];
  }

  lemma {:induction false} StepsConcat(st: State, a: seq<string>, b: seq<string>)
    ensures Steps(st, a + b) == Steps(Steps(st, a), b)
    decreases |a|
  {
    hide Step;
    if a == [] {
      assert a + b == b;
    } else {
      assert (a + b)[0] == a[0] && (a + b)[1..] == a[1..] + b;
      StepsConcat(Step(st, a[0]), a[1..], b);
    }
  }

  /** `parse_lockfile`: one loop over the lines, its variables the state of the machine. */
  method ParseLockfile(content: string) returns (lock: Lockfile)
    ensures lock == Parse(content)
  {
    hide Trim, TrimLeft, TrimRight, DepOf, SpecOf, ChecksumOf, SectionOf, StepCur, StepOther, StepSpecs;
    var lines := Lines(content);
    lock := EMPTY;
    var section := NoSection;
    var remote, revision, branch, path := "", None, None, None;
    var parsingSpecs := false;
    for i := 0 to |lines|
      invariant State(lock, Cur(section, remote, revision, branch, path, parsingSpecs))
             == Steps(State(EMPTY, Fresh(NoSection)), lines[..i])
    {
      StepsSnoc(State(EMPTY, Fresh(NoSection)), lines, i);
      var line := lines[i];
      var trimmed := Content(line);
      if trimmed == [] {
        continue;
      }
      var indent := |line| - |trimmed|;
      if indent == 0 {
        if section.SourceSection? {
          lock := lock.(sources := lock.sources + [GemSource(section.kind, remote, revision, branch, path)]);
          revision, branch, path := None, None, None;
          remote := "";
          parsingSpecs := false;
        }
        section := SectionOf(trimmed);
        continue;
      }
      if section.SourceSection? {
        remote, revision, branch, path, parsingSpecs, lock := SourceLine(section, remote, revision, branch, path, parsingSpecs, lock, line);
      } else {
        NotInSource(Cur(section, remote, revision, branch, path, parsingSpecs), lock.specs, |lock.sources|, line);
        lock := OtherLine(section, lock, line);
      }
    }
    assert lines[..|lines|] == lines;
    if section.SourceSection? {
      lock := lock.(sources := lock.sources + [GemSource(section.kind, remote, revision, branch, path)]);
    }
  }

  lemma NotInSource(cur: Cur, specs: seq<GemSpec>, index: nat, line: string)
    requires !cur.section.SourceSection?
    ensures StepCur(cur, line) == cur && StepSpecs(cur, specs, index, line) == specs
  {
  }

  /** An indented line of a GEM, GIT or PATH section. */
  method SourceLine(section: Section, remote: string, revision: Option<string>, branch: Option<string>, path: Option<string>,
                    parsingSpecs: bool, lock: Lockfile, line: string)
    returns (remote1: string, revision1: Option<string>, branch1: Option<string>, path1: Option<string>, parsingSpecs1: bool, lock1: Lockfile)
    requires section.SourceSection?
    ensures var cur := Cur(section, remote, revision, branch, path, parsingSpecs);
            && Cur(section, remote1, revision1, branch1, path1, parsingSpecs1) == StepCur(cur, line)
            && lock1 == StepOther(section, lock.(specs := StepSpecs(cur, lock.specs, |lock.sources|, line)), line)
  {
    hide Trim, TrimLeft, TrimRight, TrimParens, FindSpace;
    remote1, revision1, branch1, path1, parsingSpecs1, lock1 := remote, revision, branch, path, parsingSpecs, lock;
    var trimmed := Content(line);
    var indent := Indent(line);
    if indent == 2 {
      if "remote:" <= trimmed {
        remote1 := Trim(trimmed[7..]);
      } else if "revision:" <= trimmed {
        revision1 := Some(Trim(trimmed[9..]));
      } else if "branch:" <= trimmed {
        branch1 := Some(Trim(trimmed[7..]));
      } else if "path:" <= trimmed {
        path1 := Some(Trim(trimmed[5..]));
      } else if trimmed == "specs:" {
        parsingSpecs1 := true;
      }
    } else if parsingSpecs {
      if indent == 4 {
        var parts := SplitOnce(trimmed);
        if parts.Some? {
          lock1 := lock.(specs := lock.specs + [GemSpec(Trim(parts.value.0), TrimParens(parts.value.1), [], |lock.sources|)]);
        }
      } else if indent == 6 && lock.specs != [] {
        var parts := SplitOnce(trimmed);
        var dep := if parts.Some? then (Trim(parts.value.0), Some(TrimParens(parts.value.1))) else (Trim(trimmed), None);
        var last := Last(lock.specs);
        lock1 := lock.(specs := Front(lock.specs) + [last.(deps := last.deps + [dep])]);
      }
    }
  }

  /** An indented line of any other section. */
  method OtherLine(section: Section, lock: Lockfile, line: string) returns (lock1: Lockfile)
    requires !section.SourceSection?
    ensures lock1 == StepOther(section, lock, line)
  {
    hide Trim, TrimLeft, TrimRight, TrimParens, FindSpace, StripSha;
    lock1 := lock;
    var trimmed := Content(line);
    var indent := Indent(line);
    match section
    case Platforms =>
      if indent == 2 {
        lock1 := lock.(platforms := lock.platforms + [Trim(trimmed)]);
      }
    case Dependencies =>
      if indent == 2 {
        var cleaned := TrimRight(trimmed, IsBang);
        lock1 := lock.(dependencies := lock.dependencies + [DepOf(cleaned)]);
      }
    case Checksums =>
      if indent == 2 {
        var parts := SplitOnce(trimmed);
        if parts.Some? {
          var inner := SplitOnce(Trim(parts.value.1));
          if inner.Some? {
            lock1 := lock.(checksums := lock.checksums
                           + [(Trim(parts.value.0), TrimParens(inner.value.0), Trim(StripSha(inner.value.1)))]);
          }
        }
      }
    case RubyVersion => lock1 := lock.(rubyVersion := Some(Trim(trimmed)));
    case BundledWith => lock1 := lock.(bundledWith := Some(Trim(trimmed)));
    case SourceSection(_) =>
    case NoSection =>
  }
}

/** What the parser passes over: unknown sections, blank lines, and lines whose indentation or shape means nothing where they stand. */
module RubundIgnored {
  import opened Common
  import opened RubundLockfile
  import opened RubundSections
  import opened RubundRoundTrip

  predicate Text(s: string) {
    s != [] && !IsSpace(s[0])
  }

  predicate ListSection(section: Section) {
    section.Platforms? || section.Dependencies? || section.Checksums?
  }

  /** Entries of the list sections are indented by two; other lines there mean nothing. */
  lemma OtherIndentIgnored(st: State, n: nat, text: string)
    requires n > 0 && Text(text) && ListSection(st.cur.section) && n != 2
    ensures Step(st, Pad(n) + text) == st
  {
    PadLine(n, text);
    hide Content, Indent, IsHeader, IsBlank;
  }

  /** Outside known sections no indented line means anything. */
  lemma OutsideIgnored(st: State, n: nat, text: string)
    requires n > 0 && Text(text) && st.cur.section.NoSection?
    ensures Step(st, Pad(n) + text) == st
  {
    PadLine(n, text);
    hide Content, Indent, IsHeader, IsBlank;
  }

  /** Keys of a source are indented by two; an unknown key means nothing. */
  lemma UnknownKeyIgnored(st: State, text: string)
    requires Text(text) && InSource(st)
    requires !("remote:" <= text) && !("revision:" <= text) && !("branch:" <= text) && !("path:" <= text) && text != "specs:"
    ensures Step(st, Pad(2) + text) == st
  {
    PadLine(2, text);
    hide Content, Indent, IsHeader, IsBlank;
  }

  /** Before `specs:` nothing but keys counts; behind it specs are indented by four and their dependencies by six. */
  lemma SourceIndentIgnored(st: State, n: nat, text: string)
    requires n > 0 && n != 2 && Text(text) && InSource(st)
    requires !st.cur.inSpecs || (n != 4 && n != 6)
    ensures Step(st, Pad(n) + text) == st
  {
    PadLine(n, text);
    hide Content, Indent, IsHeader, IsBlank;
  }

  /** A spec without a version, and a dependency before any spec, are passed over. */
  lemma HalfSpecIgnored(st: State, text: string)
    requires Text(text) && InSource(st) && st.cur.inSpecs
    ensures ' ' !in text ==> Step(st, Pad(4) + text) == st
    ensures st.lock.specs == [] ==> Step(st, Pad(6) + text) == st
  {
    PadLine(4, text);
    PadLine(6, text);
    hide Content, Indent, IsHeader, IsBlank;
  }

  /** A checksum line has three words at least. */
  lemma HalfChecksumIgnored(st: State, text: string)
    requires Name(text) && st.cur.section.Checksums?
    ensures Step(st, Pad(2) + text) == st
  {
    PadLine(2, text);
    NoSpaceIn(text);
    hide Content, Indent, IsHeader, IsBlank, SplitOnce;
  }

  /** In the two version sections every indented line counts, and the last one stays. */
  lemma AnyIndentCounts(st: State, n: nat, text: string)
    requires n > 0 && Text(text) && !IsSpace(Last(text))
    ensures st.cur.section.RubyVersion? ==> Step(st, Pad(n) + text) == st.(lock := st.lock.(rubyVersion := Some(text)))
    ensures st.cur.section.BundledWith? ==> Step(st, Pad(n) + text) == st.(lock := st.lock.(bundledWith := Some(text)))
  {
    hide Step, RubundLockfile.Trim, IsSpace;
    if !InSource(st) {
      OtherStep(st, n, text);
    }
    TrimsAway(text);
  }

  // ---- spelling ----

  lemma {:induction false} PeelRight(s: string, b: string, p: char -> bool)
    requires All(b, p) && (s == [] || !p(Last(s)))
    ensures TrimRight(s + b, p) == s
    decreases |b|
  {
    if b == [] {
      assert s + b == s;
    } else {
      assert Last(s + b) == Last(b) && Front(s + b) == s + Front(b);
      PeelRight(s, Front(b), p);
    }
  }

  predicate Round(c: char) {
    c == '(' || c == ')' || c == ' '
  }

  /** Parentheses and spaces around a version come off, however many. */
  lemma ParensPeel(a: string, s: string, b: string)
    requires All(a, Round) && All(b, Round) && s != [] && !Round(s[0]) && !Round(Last(s))
    ensures TrimParens(a + s + b) == s
  {
    assert All(a, IsParen) && All(b, IsParen);
    assert (s + b)[0] == s[0];
    Regroup(a, s, b);
    PeelLeft(a, s + b, IsParen);
    PeelRight(s, b, IsParen);
  }

  /** So do source marks behind a dependency. */
  lemma BangsPeel(s: string, b: string)
    requires (forall i | 0 <= i < |b| :: b[i] == '!') && (s == [] || Last(s) != '!')
    ensures TrimRight(s + b, IsBang) == s
  {
    PeelRight(s, b, IsBang);
  }

  /** Spaces and tabs around a value, and prefixes of a checksum, as often as they stand there. */
  lemma ValuesPeel(a: string, s: string, b: string)
    requires (forall i | 0 <= i < |a| :: a[i] == ' ' || a[i] == '\t') && (forall i | 0 <= i < |b| :: b[i] == ' ' || b[i] == '\t')
    requires s != [] && !IsSpace(s[0]) && !IsSpace(Last(s))
    ensures RubundLockfile.Trim(a + s + b) == s
    ensures StripSha("sha256=" + s) == StripSha(s)
  {
    assert (s + b)[0] == s[0] && ("sha256=" + s)[7..] == s;
    Regroup(a, s, b);
    PeelLeft(a, s + b, IsSpace);
    PeelRight(s, b, IsSpace);
  }

  // ---- blank lines ----

  function WithoutBlanks(lines: seq<string>): seq<string> {
    if lines == [] then []
    else (if IsBlank(lines[0]) then [] else [lines[0]]) + WithoutBlanks(lines[1..])
  }

  lemma {:induction false} BlankSteps(st: State, lines: seq<string>)
    ensures Steps(st, WithoutBlanks(lines)) == Steps(st, lines)
    decreases |lines|
  {
    hide IsHeader, Enter, StepOther, StepSpecs, StepCur, IsBlank;
    if lines == [] {
    } else {
      BlankSteps(Step(st, lines[0]), lines[1..]);
      if IsBlank(lines[0]) {
        assert [] + WithoutBlanks(lines[1..]) == WithoutBlanks(lines[1..]);
      } else {
        var all := [lines[0]] + WithoutBlanks(lines[1..]);
        assert all[0] == lines[0] && all[1..] == WithoutBlanks(lines[1..]);
      }
    }
  }

  /** Blank lines make no difference anywhere. */
  lemma BlanksIgnored(lines: seq<string>)
    ensures ParseLines(WithoutBlanks(lines)) == ParseLines(lines)
  {
    hide Steps, WithoutBlanks;
    BlankSteps(State(EMPTY, RubundLockfile.Fresh(NoSection)), lines);
  }

  // ---- unknown sections ----

  predicate Known(header: string) {
    header == "GEM" || header == "GIT" || header == "PATH" || header == "PLATFORMS" || header == "DEPENDENCIES"
    || header == "CHECKSUMS" || header == "RUBY VERSION" || header == "BUNDLED WITH"
  }

  lemma {:induction false} NothingSaid(st: State, body: seq<string>)
    requires st.cur.section.NoSection? && HeaderFree(body)
    ensures Steps(st, body) == st
    decreases |body|
  {
    hide IsHeader, IsBlank;
    if body == [] {
    } else {
      NothingSaid(st, body[1..]);
    }
  }

  lemma {:induction false} StaysClean(st: State, lines: seq<string>)
    requires Clean(st)
    ensures Clean(Steps(st, lines))
    decreases |lines|
  {
    hide IsHeader, IsBlank, Indent, Content;
    if lines == [] {
    } else {
      StaysClean(Step(st, lines[0]), lines[1..]);
    }
  }

  /** A section whose header is not known can be taken out, wherever it stands. */
  lemma UnknownSectionIgnored(before: seq<string>, header: string, body: seq<string>, after: seq<string>)
    requires Text(header) && !Known(header) && HeaderFree(body)
    requires after == [] || IsHeader(after[0])
    ensures ParseLines(before + [header] + body + after) == ParseLines(before + after)
  {
    var start := State(EMPTY, RubundLockfile.Fresh(NoSection));
    var st := Steps(start, before);
    StaysClean(start, before);
    assert Content(header) == header;
    var there := Step(st, header);
    assert there == State(Close(st), RubundLockfile.Fresh(NoSection));
    assert [header][1..] == [];
    StepsConcat(start, before, [header]);
    NothingSaid(there, body);
    StepsConcat(start, before + [header], body);
    StepsConcat(start, before + [header] + body, after);
    StepsConcat(start, before, after);
  }
}

/**
 Where character classes begin and end for the octal pass, said by a grammar of patterns: a
 pattern written out from its parts is rewritten part by part, octal members of classes and
 nothing else.
 */
module CarmineClasses {
  import opened Common
  import opened CarmineOctal

  /** A class member: a character, an escaped one, or an octal code of one to three digits. */
  datatype Member = One(c: char) | Escaped(c: char) | OctalCode(digits: string)

  /** Text outside classes, or a class: negated or not, with a closing bracket as its first member or not. */
  datatype Part = Outside(c: char) | OutsideEscaped(c: char) | Class(negated: bool, bracket: bool, members: seq<Member>)

  function MemberText(m: Member): string {
    match m
    case One(c) => [c]
    case Escaped(c) => "\\" + [c]
    case OctalCode(digits) => "\\" + digits
  }

  function MembersText(ms: seq<Member>): string {
    if ms == [] then [] else MemberText(ms[0]) + MembersText(ms[1..])
  }

  function PartText(p: Part): string {
    match p
    case Outside(c) => [c]
    case OutsideEscaped(c) => "\\" + [c]
    case Class(negated, bracket, ms) => "[" + (if negated then "^" else "") + (if bracket then "]" else "") + MembersText(ms) + "]"
  }

  function PatternText(parts: seq<Part>): string {
    if parts == [] then [] else PartText(parts[0]) + PatternText(parts[1..])
  }

  // ---- what the pass should make of it ----

  function Power8(w: nat): nat {
    if w == 0 then 1 else 8 * Power8(w - 1)
  }

  /** A number in `w` octal digits. */
  function OctalText(w: nat, v: nat): string
    requires v < Power8(w)
  {
    if w == 0 then [] else OctalText(w - 1, v / 8) + ['0' + (v % 8) as char]
  }

  /** The digits of a number are octal digits, and the pass reads the number in them. */
  lemma {:induction false} OctalReads(w: nat, v: nat)
    requires v < Power8(w)
    ensures var s := OctalText(w, v); |s| == w && AllOctal(s) && (forall i | 0 <= i < w :: IsOctal(s[i])) && OctalNumber(s) == v
  {
    if w > 0 {
      OctalReads(w - 1, v / 8);
      var s, d := OctalText(w - 1, v / 8), '0' + (v % 8) as char;
      assert Front(s + [d]) == s && Last(s + [d]) == d && '0' <= d <= '7';
    }
  }

  predicate OctalChar(c: char) {
    '0' <= c <= '7'
  }

  predicate AllOctal(s: string) {
    forall i | 0 <= i < |s| :: OctalChar(s[i])
  }

  function MemberOut(m: Member): string
    requires MemberOk(m)
  {
    if m.OctalCode? then "\\x{" + Hex(OctalNumber(m.digits)) + "}" else MemberText(m)
  }

  function MembersOut(ms: seq<Member>): string
    requires MembersOk(ms)
  {
    if ms == [] then [] else MemberOut(ms[0]) + MembersOut(ms[1..])
  }

  function PartOut(p: Part): string
    requires PartOk(p)
  {
    match p
    case Class(negated, bracket, ms) => "[" + (if negated then "^" else "") + (if bracket then "]" else "") + MembersOut(ms) + "]"
    case _ => PartText(p)
  }

  function PatternOut(parts: seq<Part>): string
    requires PatternOk(parts)
  {
    if parts == [] then [] else PartOut(parts[0]) + PatternOut(parts[1..])
  }

  // ---- parts that can be told apart again ----

  predicate MemberOk(m: Member) {
    match m
    case One(c) => c != ']' && c != '\\'
    case Escaped(c) => !OctalChar(c)
    case OctalCode(digits) => 1 <= |digits| <= 3 && AllOctal(digits)
  }

  /** A short octal code is not followed by a further octal digit. */
  predicate MembersOk(ms: seq<Member>) {
    ms == [] ||
    (&& MemberOk(ms[0]) && MembersOk(ms[1..])
     && (ms[0].OctalCode? && |ms[0].digits| < 3 && |ms| > 1 && ms[1].One? ==> !OctalChar(ms[1].c)))
  }

  predicate AllCarets(ms: seq<Member>) {
    forall i | 0 <= i < |ms| :: ms[i] == One('^')
  }

  predicate PartOk(p: Part) {
    match p
    case Outside(c) => c != '[' && c != '\\'
    case OutsideEscaped(_) => true
    case Class(negated, bracket, ms) =>
      && MembersOk(ms)
      && (!bracket ==> if negated then !AllCarets(ms) else ms != [] && ms[0] != One('^'))
  }

  predicate PatternOk(parts: seq<Part>) {
    parts == [] || (PartOk(parts[0]) && PatternOk(parts[1..]))
  }

  // ---- the pass, part by part ----

  const START := At(true, true)

  lemma {:induction false} OctalRunIs(digits: string, rest: string, most: nat)
    requires AllOctal(digits) && |digits| <= most && (|digits| == most || rest == [] || !OctalChar(rest[0]))
    ensures OctalRun(digits + rest, most) == |digits|
    decreases |digits|
  {
    var s := digits + rest;
    if digits == [] {
      assert s == rest;
    } else {
      assert s[0] == digits[0] && s[1..] == digits[1..] + rest;
      OctalRunIs(digits[1..], rest, most - 1);
    }
  }

  lemma PlainPasses(c: char, rest: string, start: bool)
    requires c != ']' && c != '\\' && (start ==> c != '^')
    ensures Rewrite([c] + rest, At(true, start)) == [c] + Rewrite(rest, INSIDE)
  {
    assert ([c] + rest)[0] == c && ([c] + rest)[1..] == rest;
  }

  lemma EscapedPasses(c: char, rest: string, start: bool)
    requires !OctalChar(c)
    ensures Rewrite("\\" + [c] + rest, At(true, start)) == "\\" + [c] + Rewrite(rest, INSIDE)
  {
    var s := "\\" + [c] + rest;
    assert s[0] == '\\' && s[1] == c && s[2..] == rest && s[..2] == "\\" + [c];
  }

  lemma CodePasses(digits: string, rest: string, start: bool)
    requires MemberOk(OctalCode(digits)) && (|digits| < 3 ==> rest == [] || !OctalChar(rest[0]))
    ensures Rewrite("\\" + digits + rest, At(true, start)) == MemberOut(OctalCode(digits)) + Rewrite(rest, INSIDE)
  {
    hide Hex, OctalNumber, OctalRun;
    var s := "\\" + digits + rest;
    assert s[0] == '\\' && s[1..] == digits + rest && s[1] == digits[0];
    OctalRunIs(digits, rest, 3);
    assert s[1..|digits| + 1] == digits && s[|digits| + 1..] == rest;
  }

  /** One member, then a text that does not continue an octal code. */
  lemma MemberPasses(m: Member, rest: string, start: bool)
    requires MemberOk(m) && (m.OctalCode? && |m.digits| < 3 ==> rest == [] || !OctalChar(rest[0]))
    requires start ==> m != One('^')
    ensures Rewrite(MemberText(m) + rest, At(true, start)) == MemberOut(m) + Rewrite(rest, INSIDE)
  {
    hide Rewrite;
    match m
    case One(c) => PlainPasses(c, rest, start);
    case Escaped(c) => EscapedPasses(c, rest, start);
    case OctalCode(digits) => CodePasses(digits, rest, start);
  }

  /** What follows a member begins the next one, or closes the class. */
  lemma NextChar(ms: seq<Member>, rest: string)
    requires MembersOk(ms) && ms != [] && ms[0].OctalCode? && |ms[0].digits| < 3
    ensures var s := MembersText(ms[1..]) + ("]" + rest); s != [] && !OctalChar(s[0])
  {
    var s := MembersText(ms[1..]) + ("]" + rest);
    if |ms| > 1 {
      var m := ms[1];
      assert ms[1..][0] == m && MemberOk(m);
      assert s[0] == MemberText(m)[0];
    } else {
      assert MembersText(ms[1..]) == [] && s[0] == ']';
    }
  }

  lemma {:induction false} MembersPass(ms: seq<Member>, rest: string, start: bool)
    requires MembersOk(ms) && (start ==> ms != [] && ms[0] != One('^'))
    ensures Rewrite(MembersText(ms) + ("]" + rest), At(true, start)) == MembersOut(ms) + ("]" + Rewrite(rest, OUTSIDE))
    decreases |ms|
  {
    if ms == [] {
      var s := "]" + rest;
      assert [] + s == s && s[0] == ']' && s[1..] == rest;
      assert [] + ("]" + Rewrite(rest, OUTSIDE)) == "]" + Rewrite(rest, OUTSIDE);
    } else {
      hide Rewrite;
      var more := MembersText(ms[1..]) + ("]" + rest);
      if ms[0].OctalCode? && |ms[0].digits| < 3 {
        NextChar(ms, rest);
      }
      MemberPasses(ms[0], more, start);
      MembersPass(ms[1..], rest, false);
      Regroup(MemberText(ms[0]), MembersText(ms[1..]), "]" + rest);
      Regroup(MemberOut(ms[0]), MembersOut(ms[1..]), "]" + Rewrite(rest, OUTSIDE));
    }
  }

  /** Carets at the start of a negated class leave the scan at its start. */
  lemma {:induction false} CaretsPass(ms: seq<Member>, rest: string)
    requires MembersOk(ms) && !AllCarets(ms)
    ensures Rewrite(MembersText(ms) + ("]" + rest), START) == MembersOut(ms) + ("]" + Rewrite(rest, OUTSIDE))
    decreases |ms|
  {
    if ms[0] != One('^') {
      MembersPass(ms, rest, true);
    } else {
      var more := MembersText(ms[1..]) + ("]" + rest);
      assert !AllCarets(ms[1..]) by {
        var i :| 0 <= i < |ms| && ms[i] != One('^');
        assert ms[1..][i - 1] == ms[i];
      }
      CaretStays(more);
      hide Rewrite;
      CaretsPass(ms[1..], rest);
      assert MemberText(ms[0]) == "^" && MemberOut(ms[0]) == "^";
      Regroup("^", MembersText(ms[1..]), "]" + rest);
      Regroup("^", MembersOut(ms[1..]), "]" + Rewrite(rest, OUTSIDE));
    }
  }

  lemma CaretStays(rest: string)
    ensures Rewrite("^" + rest, START) == "^" + Rewrite(rest, START)
  {
    assert ("^" + rest)[0] == '^' && ("^" + rest)[1..] == rest;
  }

  lemma ClassOpens(rest: string)
    ensures Rewrite("[" + rest, OUTSIDE) == "[" + Rewrite(rest, START)
  {
    assert ("[" + rest)[0] == '[' && ("[" + rest)[1..] == rest;
  }

  /** A bracket at the start of a class is a member. */
  lemma BracketIsMember(rest: string)
    ensures Rewrite("]" + rest, START) == "]" + Rewrite(rest, INSIDE)
  {
    assert ("]" + rest)[0] == ']' && ("]" + rest)[1..] == rest;
  }

  lemma Nested(a: string, b: string, c: string, d: string, e: string, rest: string)
    ensures a + b + c + d + e + rest == a + (b + (c + (d + (e + rest))))
  {
  }

  /** The members, behind a bracket or directly at the start. */
  lemma ClassBody(negated: bool, bracket: bool, ms: seq<Member>, rest: string)
    requires PartOk(Class(negated, bracket, ms))
    ensures var first := if bracket then "]" else "";
            Rewrite(first + (MembersText(ms) + ("]" + rest)), START) == first + (MembersOut(ms) + ("]" + Rewrite(rest, OUTSIDE)))
  {
    hide Rewrite;
    var body, tail := MembersText(ms) + ("]" + rest), MembersOut(ms) + ("]" + Rewrite(rest, OUTSIDE));
    if bracket {
      BracketIsMember(body);
      MembersPass(ms, rest, false);
    } else {
      assert "" + body == body && "" + tail == tail;
      if negated {
        CaretsPass(ms, rest);
      } else {
        MembersPass(ms, rest, true);
      }
    }
  }

  /** A whole class: its octal members are respelled, and what follows it is outside again. */
  lemma ClassPasses(negated: bool, bracket: bool, ms: seq<Member>, rest: string)
    requires PartOk(Class(negated, bracket, ms))
    ensures Rewrite(PartText(Class(negated, bracket, ms)) + rest, OUTSIDE)
         == PartOut(Class(negated, bracket, ms)) + Rewrite(rest, OUTSIDE)
  {
    hide Rewrite, MembersText, MembersOut;
    var caret, first := if negated then "^" else "", if bracket then "]" else "";
    var text, out, after := MembersText(ms), MembersOut(ms), Rewrite(rest, OUTSIDE);
    var body, tail := first + (text + ("]" + rest)), first + (out + ("]" + after));
    Nested("[", caret, first, text, "]", rest);
    Nested("[", caret, first, out, "]", after);
    ClassOpens(caret + body);
    ClassBody(negated, bracket, ms, rest);
    if negated {
      CaretStays(body);
    } else {
      assert "" + body == body && "" + tail == tail;
    }
  }

  lemma OutsidePasses(p: Part, rest: string)
    requires PartOk(p) && !p.Class?
    ensures Rewrite(PartText(p) + rest, OUTSIDE) == PartText(p) + Rewrite(rest, OUTSIDE)
  {
    var s := PartText(p) + rest;
    match p
    case Outside(c) => assert s[0] == c && s[1..] == rest;
    case OutsideEscaped(c) => assert s[0] == '\\' && s[1] == c && s[2..] == rest && s[..2] == PartText(p);
  }

  /** A pattern is rewritten part by part: octal codes in classes get their hexadecimal spelling, everything else stays. */
  lemma {:induction false} PatternPasses(parts: seq<Part>)
    requires PatternOk(parts)
    ensures Rewrite(PatternText(parts), OUTSIDE) == PatternOut(parts)
    decreases |parts|
  {
    if parts == [] {
    } else {
      hide Rewrite, PartText, PartOut, PartOk;
      var rest := PatternText(parts[1..]);
      PatternPasses(parts[1..]);
      match parts[0]
      case Class(negated, bracket, ms) => ClassPasses(negated, bracket, ms, rest);
      case _ =>
        OutsidePasses(parts[0], rest);
        OutsideStays(parts[0]);
    }
  }

  lemma OutsideStays(p: Part)
    requires PartOk(p) && !p.Class?
    ensures PartOut(p) == PartText(p)
  {
  }

  function Carets(k: nat): string {
    if k == 0 then [] else "^" + Carets(k - 1)
  }

  lemma {:induction false} CaretsStay(k: nat, rest: string)
    ensures Rewrite(Carets(k) + rest, START) == Carets(k) + Rewrite(rest, START)
    decreases k
  {
    if k == 0 {
      assert [] + rest == rest && [] + Rewrite(rest, START) == Rewrite(rest, START);
    } else {
      hide Rewrite;
      Regroup("^", Carets(k - 1), rest);
      CaretStays(Carets(k - 1) + rest);
      CaretsStay(k - 1, rest);
      Regroup("^", Carets(k - 1), Rewrite(rest, START));
    }
  }

  /**
   Why classes of carets only are excluded: in `[^^]` the second caret still counts as the
   start, so the bracket behind it does not close the class, and a back-reference that follows
   is taken for an octal member.
   */
  lemma CaretClassRunsOn(k: nat)
    requires k >= 2
    ensures Rewrite("[" + (Carets(k) + ("]" + "\\1")), OUTSIDE) == "[" + (Carets(k) + ("]" + "\\x{1}"))
  {
    ClassOpens(Carets(k) + ("]" + "\\1"));
    CaretsStay(k, "]" + "\\1");
    BracketIsMember("\\1");
    BackReference();
  }

  lemma BackReference()
    ensures Rewrite("\\1", INSIDE) == "\\x{1}"
  {
    var s := "\\1";
    assert AllOctal("1") && "1" + "" == "1";
    OctalRunIs("1", "", 3);
    assert s[1..] == "1" && s[1..2] == "1" && s[2..] == [];
    assert OctalNumber("1") == 1 by { assert Front("1") == [] && Last("1") == '1'; }
    assert Hex(1) == "1";
  }
}

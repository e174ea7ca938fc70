/** The pass that spells octal escapes inside character classes as `\x{..}`. */
module CarmineOctal {
  import opened Common

  predicate IsOctal(c: char) {
    '0' <= c <= '7'
  }

  predicate IsHex(c: char) {
    '0' <= c <= '9' || 'a' <= c <= 'f' || 'A' <= c <= 'F'
  }

  function HexDigit(v: nat): (c: char)
    requires v < 16
    ensures IsHex(c) && HexVal(c) == v
  {
    if v < 10 then '0' + v as char else 'a' + (v - 10) as char
  }

  function HexVal(c: char): nat
    requires IsHex(c)
  {
    if c <= '9' then (c - '0') as nat else if c <= 'F' then (c - 'A') as nat + 10 else (c - 'a') as nat + 10
  }

  /** `{:x}`. */
  function Hex(v: nat): (s: string)
    ensures s != [] && AllHex(s) && HexNumber(s) == v
  {
    if v < 16 then [HexDigit(v)]
    else
      var s := Hex(v / 16) + [HexDigit(v % 16)];
      assert Front(s) == Hex(v / 16);
      s
  }

  predicate AllHex(s: string) {
    forall i | 0 <= i < |s| :: IsHex(s[i])
  }

  function HexNumber(s: string): nat
    requires AllHex(s)
  {
    if s == [] then 0 else HexNumber(Front(s)) * 16 + HexVal(Last(s))
  }

  /** How many octal digits, at most `most`, stand at the front. */
  function OctalRun(s: string, most: nat): (n: nat)
    ensures n <= |s| && n <= most && forall i | 0 <= i < n :: IsOctal(s[i])
  {
    if most == 0 || s == [] || !IsOctal(s[0]) then 0 else 1 + OctalRun(s[1..], most - 1)
  }

  function OctalNumber(s: string): nat
    requires forall i | 0 <= i < |s| :: IsOctal(s[i])
  {
    if s == [] then 0
    else
      assert IsOctal(s[|s| - 1]);
      OctalNumber(Front(s)) * 8 + (Last(s) - '0') as nat
  }

  // ---- the pass ----

  /** Where the scan is: inside a class, and directly at its start. */
  datatype At = At(inClass: bool, start: bool)

  const OUTSIDE := At(false, false)
  const INSIDE := At(true, false)

  /** What an unescaped character does to the scan. */
  function After(at: At, c: char): At {
    if !at.inClass then (if c == '[' then At(true, true) else at)
    else if c == '^' && at.start then at
    else if c == ']' && !at.start then OUTSIDE
    else INSIDE
  }

  predicate IsEscape(s: string) {
    |s| > 1 && s[0] == '\\'
  }

  predicate IsOctalEscape(s: string, at: At) {
    IsEscape(s) && at.inClass && IsOctal(s[1])
  }

  /** The length and the number of the octal escape at the front. */
  function OctalEscape(s: string): (r: (nat, nat))
    requires IsEscape(s) && IsOctal(s[1])
    ensures 2 <= r.0 <= |s|
  {
    var n := OctalRun(s[1..], 3);
    (n + 1, OctalNumber(s[1..n + 1]))
  }

  function Spelled(v: nat): string {
    "\\x{" + Hex(v) + "}"
  }

  function Rewrite(s: string, at: At): string
    decreases |s|
  {
    if s == [] then []
    else if IsOctalEscape(s, at) then
      var (n, v) := OctalEscape(s);
      Spelled(v) + Rewrite(s[n..], INSIDE)
    else if IsEscape(s) then s[..2] + Rewrite(s[2..], At(at.inClass, false))
    else [s[0]] + Rewrite(s[1..], After(at, s[0]))
  }

  // ---- what a pattern says ----

  datatype Item =
    | Plain(c: char)
    | Pair(c: char)
    | Code(v: nat)

  /** An item and whether it stands inside a class. */
  type Mark = (Item, bool)

  function HexRun(s: string): (n: nat)
    ensures n <= |s| && AllHex(s[..n]) && (n < |s| ==> !IsHex(s[n]))
  {
    if s == [] || !IsHex(s[0]) then 0
    else
      var n := 1 + HexRun(s[1..]);
      assert s[..n] == [s[0]] + s[1..][..n - 1];
      n
  }

  /** The number in `{hex}` at the front, and the length of that text. */
  function Braced(s: string): (r: Option<(nat, nat)>)
    ensures r.Some? ==> 2 <= r.value.0 <= |s|
  {
    if s == [] || s[0] != '{' then None
    else
      var n := HexRun(s[1..]);
      if n == 0 || n + 1 >= |s| || s[n + 1] != '}' then None
      else Some((n + 2, HexNumber(s[1..][..n])))
  }

  predicate IsHexEscape(s: string, at: At) {
    IsEscape(s) && at.inClass && s[1] == 'x' && Braced(s[2..]).Some?
  }

  /** The items of a pattern, octal and hexadecimal class members both as their number. */
  function Decode(s: string, at: At): seq<Mark>
    decreases |s|
  {
    if s == [] then []
    else if IsOctalEscape(s, at) then
      var (n, v) := OctalEscape(s);
      [(Code(v), true)] + Decode(s[n..], INSIDE)
    else if IsHexEscape(s, at) then
      var (n, v) := Braced(s[2..]).value;
      [(Code(v), true)] + Decode(s[n + 2..], INSIDE)
    else if IsEscape(s) then [(Pair(s[1]), at.inClass)] + Decode(s[2..], At(at.inClass, false))
    else [(Plain(s[0]), at.inClass)] + Decode(s[1..], After(at, s[0]))
  }

  // ---- lemmas on prefixes ----

  /** Characters that pass through a class unread. */
  predicate Inert(s: string) {
    forall i | 0 <= i < |s| :: IsHex(s[i]) || s[i] == '{' || s[i] == '}'
  }

  lemma InertStep(s: string)
    requires s != [] && Inert([s[0]])
    ensures Rewrite(s, INSIDE) == [s[0]] + Rewrite(s[1..], INSIDE)
  {
    assert [s[0]][0] == s[0];
  }

  lemma {:induction false} InertPasses(w: string, rest: string)
    requires Inert(w)
    ensures Rewrite(w + rest, INSIDE) == w + Rewrite(rest, INSIDE)
    decreases |w|
  {
    if w == [] {
      assert w + rest == rest;
    } else {
      hide Rewrite;
      var s := w + rest;
      assert s[0] == w[0] && s[1..] == w[1..] + rest;
      InertStep(s);
      InertPasses(w[1..], rest);
      Regroup([w[0]], w[1..], Rewrite(rest, INSIDE));
      assert [w[0]] + w[1..] == w;
    }
  }

  lemma HeadKept(s: string, at: At)
    ensures Rewrite(s, at) == [] <==> s == []
    ensures s != [] ==> Rewrite(s, at)[0] == s[0]
    ensures s == [] || |s| == 1 || s[0] != '\\' ==> (IsEscape(Rewrite(s, at)) <==> IsEscape(s))
  {
    hide Hex, OctalEscape;
    if s != [] && !IsEscape(s) && s[0] == '\\' {
      assert |s| == 1 && s[1..] == [];
    }
  }

  lemma HexRunThen(w: string, rest: string)
    requires AllHex(w) && (rest == [] || !IsHex(rest[0]))
    ensures HexRun(w + rest) == |w| && (w + rest)[..|w|] == w
  {
    hide HexRun, HexVal, IsHex;
    var s, n := w + rest, HexRun(w + rest);
    assert s[..|w|] == w;
    assert forall k | 0 <= k < |w| :: s[k] == w[k] && IsHex(s[k]);
    assert rest != [] ==> forall k | |w| < k <= |s| :: s[..k][|w|] == rest[0];
  }

  lemma BracedSpelled(digits: string, rest: string)
    requires digits != [] && AllHex(digits)
    ensures Braced("{" + (digits + ("}" + rest))) == Some((|digits| + 2, HexNumber(digits)))
    ensures ("{" + (digits + ("}" + rest)))[|digits| + 2..] == rest
  {
    hide HexRun, HexNumber;
    var s := "{" + (digits + ("}" + rest));
    assert s[0] == '{' && s[1..] == digits + ("}" + rest) && s[|digits| + 1] == '}';
    HexRunThen(digits, "}" + rest);
  }

  /** The pass neither makes nor breaks a `{hex}` that follows an escape. */
  lemma BracedKept(s: string)
    ensures Braced(Rewrite(s, INSIDE)) == Braced(s)
    ensures Braced(s).Some? ==> Rewrite(s, INSIDE)[Braced(s).value.0..] == Rewrite(s[Braced(s).value.0..], INSIDE)
  {
    hide Rewrite, HexRun, HexNumber;
    if s != [] && s[0] == '{' {
      var n := HexRun(s[1..]);
      BraceKept(s, s[1..][..n], s[1..][n..]);
    } else {
      HeadKept(s, INSIDE);
    }
  }

  /** `s` is an opening brace, a longest run of hex digits and `rest`. */
  lemma BraceKept(s: string, digits: string, rest: string)
    requires AllHex(digits) && (rest == [] || !IsHex(rest[0])) && s == "{" + digits + rest
    requires HexRun(s[1..]) == |digits|
    ensures Braced(Rewrite(s, INSIDE)) == Braced(s)
    ensures Braced(s).Some? ==> Rewrite(s, INSIDE)[Braced(s).value.0..] == Rewrite(s[Braced(s).value.0..], INSIDE)
  {
    hide Rewrite, HexRun, HexNumber;
    var w, n, t := "{" + digits, |digits|, Rewrite(rest, INSIDE);
    assert Inert(w);
    InertPasses(w, rest);
    HeadKept(rest, INSIDE);
    var r := Rewrite(s, INSIDE);
    assert r == w + t && r[1..] == digits + t && s[1..] == digits + rest;
    assert r[n + 1..] == t && s[n + 1..] == rest;
    HexRunThen(digits, t);
    HexRunThen(digits, rest);
    if rest != [] && rest[0] == '}' {
      assert rest == "}" + rest[1..] && Inert("}");
      InertPasses("}", rest[1..]);
      assert t[1..] == Rewrite(rest[1..], INSIDE) && r[n + 2..] == t[1..] && s[n + 2..] == rest[1..];
    }
  }

  // ---- the theorems ----

  lemma DecodeSpelled(v: nat, rest: string)
    ensures Decode(Spelled(v) + rest, INSIDE) == [(Code(v), true)] + Decode(rest, INSIDE)
  {
    hide Hex, Decode, HexRun;
    var s := Spelled(v) + rest;
    var tail := "{" + (Hex(v) + ("}" + rest));
    assert s[0] == '\\' && s[1] == 'x' && s[2..] == tail;
    BracedSpelled(Hex(v), rest);
    var n := Braced(tail).value.0;
    assert s[n + 2..] == rest;
    DecodeHex(s);
  }

  lemma DecodeHex(s: string)
    requires IsHexEscape(s, INSIDE)
    ensures var (n, v) := Braced(s[2..]).value; Decode(s, INSIDE) == [(Code(v), true)] + Decode(s[n + 2..], INSIDE)
  {
  }

  /** Decoded item by item, with class membership, a pattern says the same before and after the pass. */
  lemma {:induction false} RewriteKeepsMeaning(s: string, at: At)
    ensures Decode(Rewrite(s, at), at) == Decode(s, at)
    decreases |s|
  {
    hide Braced, HexNumber, Hex, OctalNumber, OctalRun, Spelled;
    if s == [] {
    } else if IsOctalEscape(s, at) {
      OctalKeeps(s, at);
    } else if IsEscape(s) {
      PairKeeps(s, at);
    } else {
      var rest := Rewrite(s[1..], After(at, s[0]));
      RewriteKeepsMeaning(s[1..], After(at, s[0]));
      var t := Rewrite(s, at);
      assert t == [s[0]] + rest && t[1..] == rest;
      HeadKept(s, at);
      assert !IsEscape(t);
    }
  }

  lemma {:induction false} OctalKeeps(s: string, at: At)
    requires IsOctalEscape(s, at)
    ensures Decode(Rewrite(s, at), at) == Decode(s, at)
    decreases |s|, 0
  {
    hide Braced, OctalEscape;
    var (n, v) := OctalEscape(s);
    RewriteKeepsMeaning(s[n..], INSIDE);
    DecodeSpelled(v, Rewrite(s[n..], INSIDE));
    StartForgotten(Spelled(v) + Rewrite(s[n..], INSIDE), at);
  }

  /** An escape pair leaves the class start behind, so the scan does not depend on it. */
  lemma StartForgotten(s: string, at: At)
    requires IsEscape(s) && at.inClass
    ensures Decode(s, at) == Decode(s, INSIDE)
  {
    hide Braced, OctalEscape;
  }

  lemma {:induction false} PairKeeps(s: string, at: At)
    requires IsEscape(s) && !IsOctalEscape(s, at)
    ensures Decode(Rewrite(s, at), at) == Decode(s, at)
    decreases |s|, 1
  {
    if IsHexEscape(s, at) {
      HexKeeps(s, at);
    } else {
      PlainPairKeeps(s, at);
    }
  }

  lemma PairRewritten(s: string, at: At)
    requires IsEscape(s) && !IsOctalEscape(s, at)
    ensures var (t, rest) := (Rewrite(s, at), Rewrite(s[2..], At(at.inClass, false)));
            |t| >= 2 && t[0] == s[0] && t[1] == s[1] && t[2..] == rest
  {
    hide Braced, OctalEscape;
  }

  lemma {:induction false} HexKeeps(s: string, at: At)
    requires IsHexEscape(s, at) && !IsOctalEscape(s, at)
    ensures Decode(Rewrite(s, at), at) == Decode(s, at)
    decreases |s|, 0
  {
    hide Braced, OctalEscape, Rewrite;
    PairRewritten(s, at);
    BracedKept(s[2..]);
    var t, rest, n := Rewrite(s, at), Rewrite(s[2..], INSIDE), Braced(s[2..]).value.0;
    assert t[n + 2..] == rest[n..] && s[n + 2..] == s[2..][n..];
    RewriteKeepsMeaning(s[n + 2..], INSIDE);
  }

  lemma {:induction false} PlainPairKeeps(s: string, at: At)
    requires IsEscape(s) && !IsOctalEscape(s, at) && !IsHexEscape(s, at)
    ensures Decode(Rewrite(s, at), at) == Decode(s, at)
    decreases |s|, 0
  {
    hide Braced, OctalEscape, Rewrite;
    PairRewritten(s, at);
    if at.inClass {
      BracedKept(s[2..]);
    }
    RewriteKeepsMeaning(s[2..], At(at.inClass, false));
  }

  /** An octal escape left inside a class. */
  predicate HasOctal(s: string, at: At)
    decreases |s|
  {
    if s == [] then false
    else if IsOctalEscape(s, at) then true
    else if IsEscape(s) then HasOctal(s[2..], At(at.inClass, false))
    else HasOctal(s[1..], After(at, s[0]))
  }

  lemma {:induction false} InertHasNone(w: string, rest: string)
    requires Inert(w)
    ensures HasOctal(w + rest, INSIDE) == HasOctal(rest, INSIDE)
    decreases |w|
  {
    if w == [] {
      assert w + rest == rest;
    } else {
      assert (w + rest)[0] == w[0] && (w + rest)[1..] == w[1..] + rest;
      InertHasNone(w[1..], rest);
    }
  }

  lemma SpelledHasNone(v: nat, rest: string, at: At)
    requires at.inClass
    ensures HasOctal(Spelled(v) + rest, at) == HasOctal(rest, INSIDE)
  {
    hide Hex;
    var s, w := Spelled(v) + rest, "{" + Hex(v) + "}";
    assert s[0] == '\\' && s[1] == 'x' && s[2..] == w + rest;
    InertHasNone(w, rest);
  }

  lemma {:induction false} NoOctalLeft(s: string, at: At)
    ensures !HasOctal(Rewrite(s, at), at)
    decreases |s|
  {
    hide OctalEscape, Spelled;
    if s == [] {
    } else if IsOctalEscape(s, at) {
      var (n, v) := OctalEscape(s);
      NoOctalLeft(s[n..], INSIDE);
      SpelledHasNone(v, Rewrite(s[n..], INSIDE), at);
    } else if IsEscape(s) {
      var rest := Rewrite(s[2..], At(at.inClass, false));
      NoOctalLeft(s[2..], At(at.inClass, false));
      var t := s[..2] + rest;
      assert t[0] == s[0] && t[1] == s[1] && t[2..] == rest;
    } else {
      var rest := Rewrite(s[1..], After(at, s[0]));
      NoOctalLeft(s[1..], After(at, s[0]));
      HeadKept(s, at);
      assert ([s[0]] + rest)[1..] == rest;
    }
  }

  lemma {:induction false} UnchangedWithout(s: string, at: At)
    requires !HasOctal(s, at)
    ensures Rewrite(s, at) == s
    decreases |s|
  {
    if s == [] {
    } else if IsEscape(s) {
      UnchangedWithout(s[2..], At(at.inClass, false));
    } else {
      UnchangedWithout(s[1..], After(at, s[0]));
    }
  }

  /** The pass leaves a pattern alone exactly when no octal escape stands inside a class. */
  lemma ChangesOnlyOctals(s: string, at: At)
    ensures Rewrite(s, at) == s <==> !HasOctal(s, at)
  {
    hide Rewrite, HasOctal;
    NoOctalLeft(s, at);
    if !HasOctal(s, at) {
      UnchangedWithout(s, at);
    }
  }

  lemma Idempotent(s: string, at: At)
    ensures Rewrite(Rewrite(s, at), at) == Rewrite(s, at)
  {
    hide Rewrite, HasOctal;
    NoOctalLeft(s, at);
    UnchangedWithout(Rewrite(s, at), at);
  }

  lemma {:induction false} NoClassNoOctal(s: string)
    requires '[' !in s
    ensures !HasOctal(s, OUTSIDE)
    decreases |s|
  {
    if s == [] {
    } else if IsEscape(s) {
      NoClassNoOctal(s[2..]);
    } else {
      NoClassNoOctal(s[1..]);
    }
  }

  // ---- the loop ----

  /** One turn of the loop, in each of its three branches. */
  lemma TakeOctal(out: string, s: string, at: At)
    requires IsOctalEscape(s, at)
    ensures var (n, v) := OctalEscape(s); out + Rewrite(s, at) == out + Spelled(v) + Rewrite(s[n..], INSIDE)
  {
    hide OctalEscape, Spelled;
  }

  lemma TakePair(out: string, s: string, at: At)
    requires IsEscape(s) && !IsOctalEscape(s, at)
    ensures out + Rewrite(s, at) == out + [s[0], s[1]] + Rewrite(s[2..], At(at.inClass, false))
  {
    assert s[..2] == [s[0], s[1]];
  }

  lemma TakePlain(out: string, s: string, at: At)
    requires s != [] && !IsEscape(s)
    ensures out + Rewrite(s, at) == out + [s[0]] + Rewrite(s[1..], After(at, s[0]))
  {
    hide After;
  }

  method RewriteCharclassOctalEscapes(pat: string) returns (r: string)
    ensures r == Rewrite(pat, OUTSIDE)
  {
    hide HasOctal, Rewrite, Spelled, OctalEscape, OctalNumber, OctalRun;
    if '[' !in pat {
      NoClassNoOctal(pat);
      UnchangedWithout(pat, OUTSIDE);
      return pat;
    }
    assert pat[0..] == pat && pat[|pat|..] == [] && Rewrite([], OUTSIDE) == [] by { HeadKept([], OUTSIDE); }
    var out := "";
    var inClass, atStart, changed := false, false, false;
    var i := 0;
    while i < |pat|
      invariant i <= |pat|
      invariant out + Rewrite(pat[i..], At(inClass, atStart)) == Rewrite(pat, OUTSIDE)
      invariant !changed ==> out == pat[..i]
    {
      ghost var s, at := pat[i..], At(inClass, atStart);
      var c := pat[i];
      if c == '\\' && i + 1 < |pat| {
        var n := pat[i + 1];
        if inClass && IsOctal(n) {
          var j, v := OctalDigits(pat, i + 1);
          TakeOctal(out, s, at);
          assert pat[j..] == s[j - i..];
          out := out + Spelled(v);
          i, changed, atStart := j, true, false;
          continue;
        }
        TakePair(out, s, at);
        assert s[2..] == pat[i + 2..] && pat[..i + 2] == pat[..i] + [c, n];
        out := out + [c, n];
        i := i + 2;
        atStart := false;
        continue;
      }
      if !inClass {
        if c == '[' {
          inClass, atStart := true, true;
        }
      } else if c == '^' && atStart {
      } else if c == ']' && !atStart {
        inClass, atStart := false, false;
      } else {
        atStart := false;
      }
      TakePlain(out, s, at);
      assert At(inClass, atStart) == After(at, c) && s[1..] == pat[i + 1..];
      out := out + [c];
      i := i + 1;
    }
    assert pat[i..] == [] && pat[..i] == pat;
    HeadKept([], At(inClass, atStart));
    r := if changed then out else pat;
  }

  lemma OneDigit(digits: string, k: nat)
    requires k < |digits| && forall i | 0 <= i <= k :: IsOctal(digits[i])
    ensures OctalNumber(digits[..k + 1]) == OctalNumber(digits[..k]) * 8 + (digits[k] - '0') as nat
  {
    assert Front(digits[..k + 1]) == digits[..k];
  }

  lemma EscapeIs(s: string, n: nat)
    requires IsEscape(s) && IsOctal(s[1]) && n == OctalRun(s[1..], 3)
    ensures OctalEscape(s) == (n + 1, OctalNumber(s[1..][..n]))
  {
    hide OctalNumber, OctalRun;
    assert s[1..n + 1] == s[1..][..n];
  }

  /** The digits after the backslash, three at most. */
  method OctalDigits(pat: string, from: nat) returns (j: nat, v: nat)
    requires 0 < from < |pat| && pat[from - 1] == '\\' && IsOctal(pat[from])
    ensures from < j <= |pat| && OctalEscape(pat[from - 1..]) == (j - from + 1, v)
  {
    hide OctalNumber, OctalEscape;
    ghost var digits := pat[from..];
    j, v := from, 0;
    var cnt := 0;
    assert OctalNumber(digits[..0]) == 0 by { NoDigits(digits); }
    while j < |pat| && cnt < 3 && IsOctal(pat[j])
      invariant from <= j <= |pat| && cnt == j - from <= 3
      invariant forall k | 0 <= k < cnt :: IsOctal(digits[k])
      invariant v == OctalNumber(digits[..cnt])
      invariant OctalRun(digits, 3) == cnt + OctalRun(digits[cnt..], 3 - cnt)
    {
      assert digits[cnt] == pat[j] && digits[cnt..][1..] == digits[cnt + 1..];
      OneDigit(digits, cnt);
      v := v * 8 + (pat[j] - '0') as nat;
      j, cnt := j + 1, cnt + 1;
    }
    assert OctalRun(digits[cnt..], 3 - cnt) == 0;
    assert pat[from - 1..][1..] == digits;
    EscapeIs(pat[from - 1..], cnt);
  }

  lemma NoDigits(digits: string)
    ensures OctalNumber(digits[..0]) == 0
  {
  }
}

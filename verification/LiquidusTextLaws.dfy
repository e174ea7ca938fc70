/** What the string primitives mean, by positions and characters, and how they act on texts put together from parts. */
module LiquidusTextLaws {
  import opened Common
  import opened LiquidusText

  // ---- searching ----

  predicate OccursAt(s: string, sub: string, i: nat) {
    i + |sub| <= |s| && s[i..i + |sub|] == sub
  }

  lemma OccursLater(s: string, sub: string, i: nat)
    requires s != [] && i > 0
    ensures OccursAt(s, sub, i) <==> OccursAt(s[1..], sub, i - 1)
  {
    if i + |sub| <= |s| {
      assert s[i..i + |sub|] == s[1..][i - 1..i - 1 + |sub|];
    }
  }

  lemma OccursFirst(s: string, sub: string)
    ensures OccursAt(s, sub, 0) <==> sub <= s
    ensures s == [] && !(sub <= s) ==> forall i: nat :: !OccursAt(s, sub, i)
  {
  }

  /** The offset found is the first at which the text occurs; none is found only when it occurs nowhere. */
  lemma {:induction false} FindIsFirst(s: string, sub: string)
    ensures match Find(s, sub)
            case None => forall i: nat :: !OccursAt(s, sub, i)
            case Some(at) => OccursAt(s, sub, at) && forall i: nat | i < at :: !OccursAt(s, sub, i)
  {
    OccursFirst(s, sub);
    hide OccursAt;
    if sub <= s {
    } else if s == [] {
    } else {
      FindIsFirst(s[1..], sub);
      forall i: nat | i > 0 ensures OccursAt(s, sub, i) <==> OccursAt(s[1..], sub, i - 1) {
        OccursLater(s, sub, i);
      }
    }
  }

  /** A text that occurs neither here nor before is found later if at all. */
  lemma FindLater(s: string, sub: string, at: nat)
    requires forall i: nat | i <= at :: !OccursAt(s, sub, i)
    ensures Find(s, sub).Some? ==> Find(s, sub).value > at
  {
    hide OccursAt, Find;
    FindIsFirst(s, sub);
  }

  lemma Sections<T>(a: seq<T>, b: seq<T>, c: seq<T>)
    ensures (a + b + c)[..|a|] == a && (a + b + c)[|a| + |b|..] == c
  {
  }

  /** The first occurrence of a text, wherever it is known to be. */
  lemma FindAt(s: string, sub: string, at: nat)
    requires OccursAt(s, sub, at) && forall i: nat | i < at :: !OccursAt(s, sub, i)
    ensures Find(s, sub) == Some(at)
  {
    FindIsFirst(s, sub);
  }

  lemma FindNowhere(s: string, sub: string)
    requires forall i: nat :: !OccursAt(s, sub, i)
    ensures Find(s, sub) == None
  {
    FindIsFirst(s, sub);
  }

  lemma NotAt(s: string, sub: string, i: nat, k: nat)
    requires i + |sub| <= |s| && k < |sub| && s[i + k] != sub[k]
    ensures !OccursAt(s, sub, i)
  {
    assert s[i..i + |sub|][k] == s[i + k];
  }

  lemma FindAbsent(s: string, sub: string)
    requires sub != [] && exists c | c in sub :: c !in s
    ensures Find(s, sub) == None
  {
    var c :| c in sub && c !in s;
    var k :| 0 <= k < |sub| && sub[k] == c;
    forall i: nat ensures !OccursAt(s, sub, i) {
      if i + |sub| <= |s| {
        NotAt(s, sub, i, k);
      }
    }
    FindNowhere(s, sub);
  }

  /** A text some character of which does not come earlier is found where it was put. */
  lemma FindByChar(before: string, sub: string, after: string, k: nat)
    requires k < |sub| && sub[k] !in before && forall j | 0 <= j < k :: sub[j] != sub[k]
    ensures Find(before + sub + after, sub) == Some(|before|)
  {
    var s := before + sub + after;
    forall i: nat | i < |before| ensures !OccursAt(s, sub, i) {
      if i + |sub| <= |s| {
        assert s[i + k] == if i + k < |before| then before[i + k] else sub[i + k - |before|];
        NotAt(s, sub, i, k);
      }
    }
    assert s[|before|..|before| + |sub|] == sub;
    FindAt(s, sub, |before|);
  }

  lemma FindFirst(before: string, sub: string, after: string)
    requires sub != [] && sub[0] !in before
    ensures Find(before + sub + after, sub) == Some(|before|)
  {
    FindByChar(before, sub, after, 0);
  }

  // ---- trimming ----

  predicate AllSpace(s: string) {
    forall i | 0 <= i < |s| :: IsSpace(s[i])
  }

  /** No space at either end. */
  predicate Tight(s: string) {
    s != [] ==> !IsSpace(s[0]) && !IsSpace(Last(s))
  }

  /** Trimming cuts spaces off both ends, and nothing else. */
  lemma TrimIs(s: string) returns (a: string, b: string)
    ensures s == a + Trim(s) + b && AllSpace(a) && AllSpace(b) && Tight(Trim(s))
  {
    a := TrimStartIs(s);
    b := TrimEndIs(TrimStart(s));
    assert s == a + (Trim(s) + b);
    if Trim(s) != [] {
      assert Trim(s)[0] == TrimStart(s)[0];
    }
  }

  lemma {:induction false} TrimStartIs(s: string) returns (a: string)
    ensures s == a + TrimStart(s) && AllSpace(a)
    ensures TrimStart(s) != [] ==> !IsSpace(TrimStart(s)[0])
  {
    if s != [] && IsSpace(s[0]) {
      var a1 := TrimStartIs(s[1..]);
      a := [s[0]] + a1;
    } else {
      a := [];
    }
  }

  lemma {:induction false} TrimEndIs(s: string) returns (b: string)
    ensures s == TrimEnd(s) + b && AllSpace(b)
    ensures TrimEnd(s) != [] ==> !IsSpace(Last(TrimEnd(s)))
  {
    if s != [] && IsSpace(Last(s)) {
      var b1 := TrimEndIs(Front(s));
      b := b1 + [Last(s)];
      assert s == Front(s) + [Last(s)];
    } else {
      b := [];
    }
  }

  /** A text without outer spaces trims to itself. */
  lemma TrimStays(s: string)
    requires Tight(s)
    ensures Trim(s) == s
  {
  }

  lemma {:induction false} TrimStartPadded(a: string, s: string)
    requires AllSpace(a)
    ensures TrimStart(a + s) == TrimStart(s)
  {
    if a == [] {
      assert a + s == s;
    } else {
      assert (a + s)[0] == a[0] && (a + s)[1..] == a[1..] + s;
      TrimStartPadded(a[1..], s);
    }
  }

  lemma {:induction false} TrimEndPadded(s: string, b: string)
    requires AllSpace(b)
    ensures TrimEnd(s + b) == TrimEnd(s)
  {
    if b == [] {
      assert s + b == s;
    } else {
      assert Last(s + b) == Last(b) && Front(s + b) == s + Front(b);
      TrimEndPadded(s, Front(b));
    }
  }

  /** Spaces around a text without outer spaces are trimmed. */
  lemma TrimPadded(a: string, s: string, b: string)
    requires AllSpace(a) && AllSpace(b) && Tight(s)
    ensures Trim(a + s + b) == s
  {
    Regroup(a, s, b);
    TrimStartPadded(a, s + b);
    if s == [] {
      assert s + b == b && b + [] == b;
      TrimStartPadded(b, []);
    } else {
      assert (s + b)[0] == s[0];
      TrimEndPadded(s, b);
    }
  }

  // ---- words ----

  lemma {:induction false} LeadingWordOf(w: string, rest: string)
    requires forall i | 0 <= i < |w| :: !IsSpace(w[i])
    requires rest != [] ==> IsSpace(rest[0])
    ensures LeadingWord(w + rest) == w
  {
    if w == [] {
      assert w + rest == rest;
    } else {
      assert (w + rest)[0] == w[0] && (w + rest)[1..] == w[1..] + rest;
      LeadingWordOf(w[1..], rest);
    }
  }

  // ---- splitting ----

  /** Joined again the parts are the text, and no part holds the separator. */
  lemma {:induction false} SplitJoin(s: string, sep: char)
    ensures Join(Split(s, sep), [sep]) == s
    ensures forall i | 0 <= i < |Split(s, sep)| :: sep !in Split(s, sep)[i]
  {
    if s == [] {
    } else {
      var tail := Split(s[1..], sep);
      SplitJoin(s[1..], sep);
      if s[0] == sep {
        assert ([[]] + tail)[1..] == tail;
        assert [] + [sep] + s[1..] == s;
      } else {
        var parts := [[s[0]] + tail[0]] + tail[1..];
        assert parts[1..] == tail[1..];
        if |tail| > 1 {
          assert [s[0]] + tail[0] + [sep] + Join(tail[1..], [sep]) == [s[0]] + (tail[0] + [sep] + Join(tail[1..], [sep]));
        }
        assert [s[0]] + s[1..] == s;
      }
    }
  }

  lemma {:induction false} SplitWhole(s: string, sep: char)
    requires sep !in s
    ensures Split(s, sep) == [s]
  {
    if s == [] {
    } else {
      SplitWhole(s[1..], sep);
      assert [s[0]] + s[1..] == s;
    }
  }

  /** A part in front of a separator comes off as it is. */
  lemma {:induction false} SplitFirst(a: string, sep: char, rest: string)
    requires sep !in a
    ensures Split(a + [sep] + rest, sep) == [a] + Split(rest, sep)
  {
    var s := a + [sep] + rest;
    if a == [] {
      assert s[0] == sep && s[1..] == rest;
    } else {
      assert s[0] == a[0] && s[1..] == a[1..] + [sep] + rest;
      SplitFirst(a[1..], sep, rest);
      var tail := Split(s[1..], sep);
      assert tail[0] == a[1..] && tail[1..] == Split(rest, sep);
      assert [a[0]] + a[1..] == a;
    }
  }

  lemma SplitAt(a: string, sep: char, b: string)
    requires sep !in a && sep !in b
    ensures Split(a + [sep] + b, sep) == [a, b]
  {
    SplitFirst(a, sep, b);
    SplitWhole(b, sep);
  }

  /** Parts without the separator come back from the text they are joined to. */
  lemma {:induction false} SplitOfJoin(parts: seq<string>, sep: char)
    requires parts != [] && forall i | 0 <= i < |parts| :: sep !in parts[i]
    ensures Split(Join(parts, [sep]), sep) == parts
  {
    if |parts| == 1 {
      SplitWhole(parts[0], sep);
    } else {
      SplitOfJoin(parts[1..], sep);
      SplitFirst(parts[0], sep, Join(parts[1..], [sep]));
      assert parts == [parts[0]] + parts[1..];
    }
  }

  // ---- splitting outside quotes ----

  /** Scanned from outside quotes, the text ends outside quotes and shows no separator there. */
  ghost predicate Shut(s: string, sep: char) {
    forall rest: string, cur: string ::
      SplitUnquotedFrom(s + rest, sep, false, false, cur) == SplitUnquotedFrom(rest, sep, false, false, cur + s)
  }

  lemma {:induction false} PlainScan(s: string, sep: char, rest: string, cur: string)
    requires sep !in s && '"' !in s && '\'' !in s
    ensures SplitUnquotedFrom(s + rest, sep, false, false, cur) == SplitUnquotedFrom(rest, sep, false, false, cur + s)
  {
    if s == [] {
      assert s + rest == rest && cur + s == cur;
    } else {
      assert (s + rest)[0] == s[0] && (s + rest)[1..] == s[1..] + rest;
      PlainScan(s[1..], sep, rest, cur + [s[0]]);
      assert cur + [s[0]] + s[1..] == cur + s;
    }
  }

  /** Inside quotes of one kind the other kind and the separator are ordinary characters. */
  lemma {:induction false} QuotedScan(q: char, s: string, sep: char, rest: string, cur: string)
    requires (q == '"' || q == '\'') && q !in s && sep != q
    ensures SplitUnquotedFrom(s + rest, sep, q == '"', q == '\'', cur) == SplitUnquotedFrom(rest, sep, q == '"', q == '\'', cur + s)
  {
    if s == [] {
      assert s + rest == rest && cur + s == cur;
    } else {
      assert (s + rest)[0] == s[0] && (s + rest)[1..] == s[1..] + rest;
      QuotedScan(q, s[1..], sep, rest, cur + [s[0]]);
      assert cur + [s[0]] + s[1..] == cur + s;
    }
  }

  lemma ShutPlain(s: string, sep: char)
    requires sep !in s && '"' !in s && '\'' !in s
    ensures Shut(s, sep)
  {
    forall rest: string, cur: string
      ensures SplitUnquotedFrom(s + rest, sep, false, false, cur) == SplitUnquotedFrom(rest, sep, false, false, cur + s)
    {
      PlainScan(s, sep, rest, cur);
    }
  }

  lemma ShutQuoted(q: char, t: string, sep: char)
    requires (q == '"' || q == '\'') && q !in t && sep != '"' && sep != '\''
    ensures Shut([q] + t + [q], sep)
  {
    var s := [q] + t + [q];
    forall rest: string, cur: string
      ensures SplitUnquotedFrom(s + rest, sep, false, false, cur) == SplitUnquotedFrom(rest, sep, false, false, cur + s)
    {
      var tail := [q] + rest;
      assert (s + rest)[0] == q && (s + rest)[1..] == t + tail;
      QuotedScan(q, t, sep, tail, cur + [q]);
      assert tail[0] == q && tail[1..] == rest;
      assert cur + [q] + t + [q] == cur + s;
    }
  }

  lemma ShutConcat(a: string, b: string, sep: char)
    requires Shut(a, sep) && Shut(b, sep)
    ensures Shut(a + b, sep)
  {
    hide SplitUnquotedFrom;
    forall rest: string, cur: string
      ensures SplitUnquotedFrom(a + b + rest, sep, false, false, cur) == SplitUnquotedFrom(rest, sep, false, false, cur + (a + b))
    {
      Regroup(a, b, rest);
      Regroup(cur, a, b);
      assert SplitUnquotedFrom(a + (b + rest), sep, false, false, cur) == SplitUnquotedFrom(b + rest, sep, false, false, cur + a);
    }
  }

  lemma SplitShut(a: string, sep: char, rest: string)
    requires Shut(a, sep) && sep != '"' && sep != '\''
    ensures SplitUnquoted(a, sep) == [a]
    ensures SplitUnquoted(a + [sep] + rest, sep) == [a] + SplitUnquoted(rest, sep)
  {
    var none: string := [];
    assert a + none == a && none + a == a;
    assert SplitUnquotedFrom(a + none, sep, false, false, none) == SplitUnquotedFrom(none, sep, false, false, none + a);
    var tail := [sep] + rest;
    Regroup(a, [sep], rest);
    assert tail[0] == sep && tail[1..] == rest;
    assert SplitUnquotedFrom(a + tail, sep, false, false, none) == SplitUnquotedFrom(tail, sep, false, false, none + a);
  }

  // ---- numbers ----

  lemma {:induction false} DigitsOfNat(n: nat)
    ensures var s := NatToString(n);
            s != [] && AllDigits(s) && DigitsValue(s) == n && (|s| > 1 ==> s[0] != '0')
  {
    if n >= 10 {
      DigitsOfNat(n / 10);
      var s := NatToString(n / 10);
      var d := ('0' as int + n % 10) as char;
      assert Front(s + [d]) == s && Last(s + [d]) == d;
    }
  }

  /** A number written and read back, in any range that holds it: decimal digits, a minus sign in front of a negative one. */
  lemma IntegerReadBack(n: int, lo: int, hi: int)
    requires lo <= n <= hi
    ensures ParseInteger(IntToString(n), lo, hi) == Some(n)
    ensures var s := IntToString(n); s != [] && (n >= 0 ==> AllDigits(s)) && (n < 0 ==> |s| > 1 && s[0] == '-' && AllDigits(s[1..]))
    ensures var s := IntToString(n); (|s| > 1 ==> s[0] != '0') && (|s| > 2 && n < 0 ==> s[1] != '0')
  {
    DigitsOfNat(if n < 0 then -n else n);
    if n < 0 {
      assert IntToString(n)[1..] == NatToString(-n);
    } else {
      assert IsDigit(IntToString(n)[0]);
    }
  }

  lemma {:induction false} ZeroAhead(ds: string)
    requires AllDigits(ds)
    ensures AllDigits("0" + ds) && DigitsValue("0" + ds) == DigitsValue(ds)
    decreases |ds|
  {
    var s := "0" + ds;
    if ds == [] {
      assert Front(s) == [] && Last(s) == '0';
    } else {
      assert Front(s) == "0" + Front(ds) && Last(s) == Last(ds);
      ZeroAhead(Front(ds));
    }
  }

  /** Other spellings of a number: a plus sign and leading zeros; a minus sign is for signed types. */
  lemma OtherSpellings(ds: string, lo: int, hi: int)
    requires ds != [] && AllDigits(ds)
    ensures ParseInteger("+" + ds, lo, hi) == ParseInteger(ds, lo, hi) == ParseInteger("0" + ds, lo, hi)
    ensures lo >= 0 ==> ParseInteger("-" + ds, lo, hi) == None
    ensures ParseInteger([], lo, hi) == None
  {
    hide DigitsValue;
    assert ("+" + ds)[1..] == ds && ("-" + ds)[0] == '-' && !IsDigit('-') && IsDigit(ds[0]);
    ZeroAhead(ds);
    assert ("0" + ds)[0] == '0';
  }

  // ---- white space ----

  /** The twenty-five code points with the Unicode property White_Space. */
  lemma SpacesAre(c: char)
    ensures IsSpace(c) <==>
            c as int in {9, 10, 11, 12, 13, 32, 133, 160, 5760, 8192, 8193, 8194, 8195, 8196, 8197, 8198, 8199, 8200, 8201, 8202,
                         8232, 8233, 8239, 8287, 12288}
  {
    assert c == c as int as char;
  }

  // ---- order ----

  /** Texts are ordered by their first different character; a text comes before its continuations. */
  lemma {:induction false} OrderIsByFirstDifference(common: string, a: string, b: string)
    requires a == [] || b == [] || a[0] != b[0]
    ensures StrLe(common + a, common + b) <==> a == [] || (b != [] && a[0] < b[0])
    decreases |common|
  {
    if common == [] {
      assert common + a == a && common + b == b;
    } else {
      assert (common + a)[0] == (common + b)[0] == common[0];
      assert (common + a)[1..] == common[1..] + a && (common + b)[1..] == common[1..] + b;
      OrderIsByFirstDifference(common[1..], a, b);
    }
  }
}

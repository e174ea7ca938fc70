/** The string primitives the liquidus parser is built from, over characters. */
module LiquidusText {
  import opened Common

  predicate IsDigit(c: char) {
    '0' <= c <= '9'
  }

  function TrimStart(s: string): string {
    if s != [] && IsSpace(s[0]) then TrimStart(s[1..]) else s
  }

  function TrimEnd(s: string): string {
    if s != [] && IsSpace(Last(s)) then TrimEnd(Front(s)) else s
  }

  function Trim(s: string): string {
    TrimEnd(TrimStart(s))
  }

  /** Offset of the first occurrence of `sub`. */
  function Find(s: string, sub: string): (r: Option<nat>)
    ensures r.Some? ==> r.value + |sub| <= |s|
  {
    if sub <= s then Some(0)
    else if s == [] then None
    else match Find(s[1..], sub)
      case None => None
      case Some(i) => Some(i + 1)
  }

  predicate Contains(s: string, sub: string) {
    Find(s, sub).Some?
  }

  /** The leading run of non-space characters. */
  function LeadingWord(s: string): string {
    if s == [] || IsSpace(s[0]) then [] else [s[0]] + LeadingWord(s[1..])
  }

  /** First word of the text, or the empty string. */
  function FirstWord(s: string): string {
    LeadingWord(TrimStart(s))
  }

  /** Split at every `sep`; always at least one part. */
  function Split(s: string, sep: char): (parts: seq<string>)
    ensures parts != []
  {
    if s == [] then [[]]
    else
      var tail := Split(s[1..], sep);
      if s[0] == sep then [[]] + tail
      else [[s[0]] + tail[0]] + tail[1..]
  }

  function Join(parts: seq<string>, sep: string): string {
    if parts == [] then []
    else if |parts| == 1 then parts[0]
    else parts[0] + sep + Join(parts[1..], sep)
  }

  /** Split at `sep` outside single and double quotes; `cur` is the part being read. */
  function SplitUnquotedFrom(s: string, sep: char, inDq: bool, inSq: bool, cur: string): (parts: seq<string>)
    ensures parts != []
    decreases |s|
  {
    if s == [] then [cur]
    else if s[0] == '"' && !inSq then SplitUnquotedFrom(s[1..], sep, !inDq, inSq, cur + [s[0]])
    else if s[0] == '\'' && !inDq then SplitUnquotedFrom(s[1..], sep, inDq, !inSq, cur + [s[0]])
    else if s[0] == sep && !inDq && !inSq then [cur] + SplitUnquotedFrom(s[1..], sep, inDq, inSq, [])
    else SplitUnquotedFrom(s[1..], sep, inDq, inSq, cur + [s[0]])
  }

  function SplitUnquoted(s: string, sep: char): (parts: seq<string>)
    ensures parts != []
  {
    SplitUnquotedFrom(s, sep, false, false, [])
  }

  /** The splitter as the parser runs it: one pass with two quote flags. */
  method SplitOutsideQuotes(s: string, sep: char) returns (parts: seq<string>)
    requires sep != '"' && sep != '\''
    ensures parts == SplitUnquoted(s, sep)
  {
    parts := [];
    var start, inDq, inSq := 0, false, false;
    for i := 0 to |s|
      invariant start <= i
      invariant parts + SplitUnquotedFrom(s[i..], sep, inDq, inSq, s[start..i]) == SplitUnquoted(s, sep)
    {
      assert s[i..][0] == s[i] && s[i..][1..] == s[i + 1..];
      assert s[start..i] + [s[i..][0]] == s[start..i + 1];
      if s[i] == '"' && !inSq {
        inDq := !inDq;
      } else if s[i] == '\'' && !inDq {
        inSq := !inSq;
      } else if s[i] == sep && !inDq && !inSq {
        assert parts + ([s[start..i]] + SplitUnquotedFrom(s[i + 1..], sep, inDq, inSq, []))
            == (parts + [s[start..i]]) + SplitUnquotedFrom(s[i + 1..], sep, inDq, inSq, []);
        parts := parts + [s[start..i]];
        start := i + 1;
        assert s[start..i + 1] == [];
      }
    }
    parts := parts + [s[start..]];
    assert s[|s|..] == [];
    assert s[start..|s|] == s[start..];
  }

  predicate AllDigits(s: string) {
    forall i | 0 <= i < |s| :: IsDigit(s[i])
  }

  function DigitsValue(s: string): nat
    requires AllDigits(s)
  {
    if s == [] then 0
    else 10 * DigitsValue(Front(s)) + (Last(s) as int - '0' as int)
  }

  /** `str::parse` for a signed (`lo < 0`) or unsigned integer type with range `lo..hi`. */
  function ParseInteger(s: string, lo: int, hi: int): (r: Option<int>)
    ensures r.Some? ==> lo <= r.value <= hi
  {
    var negative := s != [] && s[0] == '-' && lo < 0;
    var digits := if negative || (s != [] && s[0] == '+') then s[1..] else s;
    if digits == [] || !AllDigits(digits) then None
    else
      var magnitude: int := DigitsValue(digits);
      var n := if negative then -magnitude else magnitude;
      if lo <= n <= hi then Some(n) else None
  }

  const I64_MIN: int := -0x8000_0000_0000_0000
  const I64_MAX: int := 0x7FFF_FFFF_FFFF_FFFF
  const USIZE_MAX: int := 0xFFFF_FFFF_FFFF_FFFF

  function NatToString(n: nat): string {
    if n < 10 then [('0' as int + n) as char] else NatToString(n / 10) + [('0' as int + n % 10) as char]
  }

  function IntToString(n: int): string {
    if n < 0 then "-" + NatToString(-n) else NatToString(n)
  }

  /** Code-point order, the order of `str::cmp` on UTF-8. */
  predicate StrLe(a: string, b: string) {
    if a == [] then true
    else if b == [] then false
    else a[0] < b[0] || (a[0] == b[0] && StrLe(a[1..], b[1..]))
  }

  lemma {:induction false} StrLeTotal(a: string, b: string)
    ensures StrLe(a, b) || StrLe(b, a)
    ensures StrLe(a, b) && StrLe(b, a) ==> a == b
  {
    if a != [] && b != [] {
      StrLeTotal(a[1..], b[1..]);
      assert a == [a[0]] + a[1..] && b == [b[0]] + b[1..];
    }
  }

  lemma {:induction false} StrLeTransitive(a: string, b: string, c: string)
    requires StrLe(a, b) && StrLe(b, c)
    ensures StrLe(a, c)
  {
    if a != [] && b != [] && c != [] && a[0] == b[0] == c[0] {
      StrLeTransitive(a[1..], b[1..], c[1..]);
    }
  }
}

/** The few Python string operations the system relies on, over `seq<char>`. */
module Text {

  /** Python's `str.isspace()`: the ASCII tab through carriage return, the four
      information separators, the space, and the Unicode spaces and line and
      paragraph separators. */
  predicate IsSpace(c: char) {
    || '\t' <= c <= '\r'
    || '\U{1C}' <= c <= ' '
    || c == '\U{85}' || c == '\U{A0}' || c == '\U{1680}'
    || '\U{2000}' <= c <= '\U{200A}'
    || c == '\U{2028}' || c == '\U{2029}' || c == '\U{202F}' || c == '\U{205F}' || c == '\U{3000}'
  }

  /** The characters `strip()` removes. */
  const Whitespace: set<char> := set c: char | '\t' <= c <= '\U{3000}' && IsSpace(c)

  /** The brackets that open and close a JSON list are not whitespace. */
  lemma BracketsNotSpace()
    ensures '[' !in Whitespace && ']' !in Whitespace
  {
    assert !IsSpace('[') && !IsSpace(']');
  }

  predicate AllIn(s: string, cs: set<char>) {
    forall i :: 0 <= i < |s| ==> s[i] in cs
  }

  /** `w` occurs in `s` as a contiguous piece. */
  ghost predicate Contains(s: string, w: string) {
    exists k :: OccursAt(s, w, k)
  }

  /** `w` occurs in `s` starting at index `k`. */
  predicate OccursAt(s: string, w: string, k: int) {
    0 <= k <= |s| - |w| && s[k..k + |w|] == w
  }

  /** A string occurs at the front of any text it starts. */
  lemma OccursFront(a: string, b: string)
    ensures OccursAt(a + b, a, 0)
  {
    assert (a + b)[..|a|] == a;
  }

  /** An occurrence in `b` is an occurrence in `a + b`, shifted by `|a|`. */
  lemma OccursBehind(a: string, b: string, w: string, k: int)
    requires OccursAt(b, w, k)
    ensures OccursAt(a + b, w, |a| + k)
  {
    assert (a + b)[|a| + k..|a| + k + |w|] == b[k..k + |w|];
  }

  /** The number of leading characters of `s` that are in `cs`. */
  function Leading(s: string, cs: set<char>): (n: nat)
    ensures n <= |s|
    ensures forall i :: 0 <= i < n ==> s[i] in cs
    ensures n < |s| ==> s[n] !in cs
  {
    if s != [] && s[0] in cs then
      var n := 1 + Leading(s[1..], cs);
      assert forall i :: 1 <= i < n ==> s[i] == s[1..][i - 1];
      n
    else 0
  }

  /** The length of `s` without its trailing characters that are in `cs`. */
  function Kept(s: string, cs: set<char>): (n: nat)
    ensures n <= |s|
    ensures forall i :: n <= i < |s| ==> s[i] in cs
    ensures n > 0 ==> s[n - 1] !in cs
  {
    if s != [] && s[|s| - 1] in cs then Kept(s[..|s| - 1], cs) else |s|
  }

  /** `s.lstrip(cs)`: drops the longest prefix made of characters of `cs`. */
  function StripStart(s: string, cs: set<char>): (r: string)
    ensures |r| <= |s| && r == s[|s| - |r|..]
    ensures AllIn(s[..|s| - |r|], cs)
    ensures r != [] ==> r[0] !in cs
  {
    s[Leading(s, cs)..]
  }

  /** `s.rstrip(cs)`: drops the longest suffix made of characters of `cs`. */
  function StripEnd(s: string, cs: set<char>): (r: string)
    ensures |r| <= |s| && r == s[..|r|]
    ensures AllIn(s[|r|..], cs)
    ensures r != [] ==> r[|r| - 1] !in cs
  {
    s[..Kept(s, cs)]
  }

  /** `s.strip(cs)`. */
  function StripChars(s: string, cs: set<char>): (r: string)
    ensures |r| <= |s|
    ensures r != [] ==> r[0] !in cs && r[|r| - 1] !in cs
  {
    var t := StripStart(s, cs);
    var r := StripEnd(t, cs);
    assert r != [] ==> r[0] == t[0];
    r
  }

  /** `s.strip()`: whitespace removed from both ends. */
  function Strip(s: string): (r: string)
    ensures |r| <= |s|
    ensures r != [] ==> r[0] !in Whitespace && r[|r| - 1] !in Whitespace
  {
    StripChars(s, Whitespace)
  }

  /** What `strip` keeps is one contiguous piece of its input, starting at the
      number of characters `lstrip` removed; everything outside it is a stripped
      character, and the piece neither starts nor ends with one. */
  lemma StripCharsSlice(s: string, cs: set<char>)
    ensures var r := StripChars(s, cs);
            var i := |s| - |StripStart(s, cs)|;
            && i + |r| <= |s|
            && r == s[i..i + |r|]
            && AllIn(s[..i], cs)
            && AllIn(s[i + |r|..], cs)
            && (r != [] ==> r[0] !in cs && r[|r| - 1] !in cs)
  {
    SliceParts(s, cs, StripStart(s, cs), StripChars(s, cs));
  }

  /** A prefix `r` of a suffix `t` of `s` is a slice of `s`, and what lies
      around it in `s` is what lies around `t` in `s` and around `r` in `t`. */
  lemma SliceParts(s: string, cs: set<char>, t: string, r: string)
    requires |t| <= |s| && t == s[|s| - |t|..] && AllIn(s[..|s| - |t|], cs) && (t != [] ==> t[0] !in cs)
    requires |r| <= |t| && r == t[..|r|] && AllIn(t[|r|..], cs) && (r != [] ==> r[|r| - 1] !in cs)
    ensures var i := |s| - |t|;
            && i + |r| <= |s|
            && r == s[i..i + |r|]
            && AllIn(s[..i], cs)
            && AllIn(s[i + |r|..], cs)
            && (r != [] ==> r[0] !in cs && r[|r| - 1] !in cs)
  {
    var i := |s| - |t|;
    assert s[i + |r|..] == t[|r|..];
    if r != [] {
      assert r[0] == t[0];
    }
  }

  /** Stripping twice is stripping once. */
  lemma StripCharsIdempotent(s: string, cs: set<char>)
    ensures StripChars(StripChars(s, cs), cs) == StripChars(s, cs)
  {
    StripCharsSlice(s, cs);
  }

  /** A piece of `s` that neither starts nor ends with a stripped character
      survives `strip`. */
  lemma StripCharsKeeps(s: string, cs: set<char>, p: nat, w: string)
    requires p + |w| <= |s| && s[p..p + |w|] == w
    requires w != [] && w[0] !in cs && w[|w| - 1] !in cs
    ensures Contains(StripChars(s, cs), w)
  {
    StripCharsSlice(s, cs);
    var r := StripChars(s, cs);
    var i := |s| - |StripStart(s, cs)|;
    InnerPieceSurvives(s, cs, i, i + |r|, p, w);
    assert OccursAt(r, w, p - i);
  }

  /** If everything before `i` and from `j` on is in `cs`, a piece whose ends
      are not in `cs` lies inside `s[i..j]`. */
  lemma InnerPieceSurvives(s: string, cs: set<char>, i: nat, j: nat, p: nat, w: string)
    requires i <= j <= |s| && AllIn(s[..i], cs) && AllIn(s[j..], cs)
    requires p + |w| <= |s| && s[p..p + |w|] == w
    requires w != [] && w[0] !in cs && w[|w| - 1] !in cs
    ensures OccursAt(s[i..j], w, p - i)
  {
    assert s[p] == w[0];
    var q := p + |w| - 1;
    assert s[q] == w[|w| - 1];
    assert i <= p && p + |w| <= j;
    var t := s[i..j];
    var a, b := t[p - i..p - i + |w|], s[p..p + |w|];
    assert |a| == |b|;
    forall k | 0 <= k < |w| ensures a[k] == b[k] {
      assert a[k] == t[p - i + k] == s[p + k];
    }
    assert t[p - i..p - i + |w|] == s[p..p + |w|];
  }

  /** `s.replace(pat, '')`: every occurrence of `pat`, scanned left to right
      without overlap, removed. */
  function RemoveAll(s: string, pat: string): (r: string)
    requires pat != []
    ensures |r| <= |s|
    ensures |pat| == 1 ==> pat[0] !in r
    decreases |s|
  {
    if |s| < |pat| then s
    else if s[..|pat|] == pat then RemoveAll(s[|pat|..], pat)
    else [s[0]] + RemoveAll(s[1..], pat)
  }

  /** A pattern holding a character the text lacks removes nothing. */
  lemma {:induction false} RemoveAllAbsent(s: string, pat: string, c: char)
    requires c in pat && c !in s
    ensures RemoveAll(s, pat) == s
    decreases |s|
  {
    if |s| >= |pat| {
      assert s[..|pat|] != pat by {
        var k :| 0 <= k < |pat| && pat[k] == c;
        assert s[..|pat|][k] == s[k];
      }
      RemoveAllAbsent(s[1..], pat, c);
      assert [s[0]] + s[1..] == s;
    }
  }

  /** Removing one character distributes over concatenation. */
  lemma {:induction false} RemoveCharConcat(a: string, b: string, c: char)
    ensures RemoveAll(a + b, [c]) == RemoveAll(a, [c]) + RemoveAll(b, [c])
    decreases |a|
  {
    if a != [] {
      assert (a + b)[1..] == a[1..] + b;
      assert (a + b)[..1] == a[..1];
      RemoveCharConcat(a[1..], b, c);
    } else {
      assert a + b == b;
    }
  }

  function DigitChar(d: nat): char
    requires d < 10
  {
    "0123456789"[d]
  }

  /** `str(n)` for a natural number. */
  function NatDecimal(n: nat): (r: string)
    ensures r != [] && forall i :: 0 <= i < |r| ==> '0' <= r[i] <= '9'
  {
    if n < 10 then [DigitChar(n)] else NatDecimal(n / 10) + [DigitChar(n % 10)]
  }

  /** `int(s)` for a string of decimal digits. */
  function ReadDecimal(s: string): int {
    if s == [] then 0 else 10 * ReadDecimal(s[..|s| - 1]) + (s[|s| - 1] as int - '0' as int)
  }

  lemma DigitCharValue(d: nat)
    requires d < 10
    ensures DigitChar(d) as int - '0' as int == d
  {
  }

  /** Reading back the decimal text of a number gives the number. */
  lemma {:induction false} ReadNatDecimal(n: nat)
    ensures ReadDecimal(NatDecimal(n)) == n
  {
    if n < 10 {
      DigitCharValue(n);
    } else {
      var s := NatDecimal(n);
      assert s[..|s| - 1] == NatDecimal(n / 10);
      ReadNatDecimal(n / 10);
      DigitCharValue(n % 10);
    }
  }

  /** Different numbers have different decimal texts. */
  lemma NatDecimalInjective(a: nat, b: nat)
    ensures NatDecimal(a) == NatDecimal(b) <==> a == b
  {
    ReadNatDecimal(a);
    ReadNatDecimal(b);
  }

  /** Text that is equal once a common prefix and common trailing pieces are removed. */
  lemma Cancel(p: string, x: string, y: string, m: string, q: string)
    requires p + x + m + q == p + y + m + q
    ensures x == y
  {
    assert |x| == |y|;
    assert (p + x + m + q)[|p|..|p| + |x|] == x;
    assert (p + y + m + q)[|p|..|p| + |y|] == y;
  }
}

/** Hexadecimal digits, as `'%x'` writes them and `int(s, 16)` reads them. */
module Hex {
  import opened Wrappers

  function Pow16(k: nat): (r: nat)
    ensures r >= 1
  {
    if k == 0 then 1 else 16 * Pow16(k - 1)
  }

  /** The lower-case digit for `d`. */
  function Digit(d: nat): char
    requires d < 16
  {
    "0123456789abcdef"[d]
  }

  /** The value of one hexadecimal digit, in either case. */
  function DigitValue(c: char): (r: Option<nat>)
    ensures r.Some? <==> '0' <= c <= '9' || 'a' <= c <= 'f' || 'A' <= c <= 'F'
    ensures r.Some? ==> r.value < 16
  {
    if '0' <= c <= '9' then Some(c as nat - '0' as nat)
    else if 'a' <= c <= 'f' then Some(c as nat - 'a' as nat + 10)
    else if 'A' <= c <= 'F' then Some(c as nat - 'A' as nat + 10)
    else None
  }

  /** The `k` lowest hexadecimal digits of `n`, most significant first, zero-padded. */
  function Encode(n: nat, k: nat): (r: string)
    ensures |r| == k
    ensures forall i :: 0 <= i < |r| ==> '0' <= r[i] <= '9' || 'a' <= r[i] <= 'f'
  {
    if k == 0 then "" else Encode(n / 16, k - 1) + [Digit(n % 16)]
  }

  /** The number a string of hexadecimal digits denotes; `None` when any
      character is not a digit. */
  function Decode(s: string): (r: Option<nat>)
    ensures r.Some? <==> forall i :: 0 <= i < |s| ==> DigitValue(s[i]).Some?
    ensures r.Some? ==> r.value < Pow16(|s|)
  {
    if s == [] then Some(0)
    else
      match (Decode(s[..|s| - 1]), DigitValue(s[|s| - 1]))
      case (Some(v), Some(d)) => Some(v * 16 + d)
      case _ => None
  }

  /** Reading back what `Encode` wrote gives the number, when it fits in `k` digits. */
  lemma {:induction false} DecodeEncode(n: nat, k: nat)
    requires n < Pow16(k)
    ensures Decode(Encode(n, k)) == Some(n)
  {
    if k > 0 {
      var s := Encode(n, k);
      assert s[..|s| - 1] == Encode(n / 16, k - 1);
      assert n / 16 < Pow16(k - 1);
      DecodeEncode(n / 16, k - 1);
      DigitRoundTrip(n % 16);
    }
  }

  /** Reading a digit back gives its value. */
  lemma DigitRoundTrip(d: nat)
    requires d < 16
    ensures DigitValue(Digit(d)) == Some(d)
  {
    if d < 10 {
      assert Digit(d) as nat == '0' as nat + d;
    } else {
      assert Digit(d) as nat == 'a' as nat + d - 10;
    }
  }
}

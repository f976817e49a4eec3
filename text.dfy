/** The few Python string operations the programs use: `str.strip()`,
    `str.join`, `x or default` on strings, and `str(n)` for a natural number.
    `Split` and `IndexOf` are not used by the programs; they read the schema
    text back line by line, to state what the rendered text contains. */
module Text {

  /** Python's `str.isspace()` for one character: the characters whose
      bidirectional class is WS, B or S, or whose category is Zs. */
  predicate IsSpace(c: char) {
    var n := c as int;
    (9 <= n <= 13) || (0x1c <= n <= 0x20) || n == 0x85 || n == 0xa0 || n == 0x1680
    || (0x2000 <= n <= 0x200a) || n == 0x2028 || n == 0x2029 || n == 0x202f
    || n == 0x205f || n == 0x3000
  }

  predicate AllSpace(s: string) {
    forall k :: 0 <= k < |s| ==> IsSpace(s[k])
  }

  /** How many whitespace characters `s` starts with. */
  function LeadingSpaces(s: string): (n: nat)
    ensures n <= |s|
    decreases |s|
  {
    if |s| > 0 && IsSpace(s[0]) then 1 + LeadingSpaces(s[1..]) else 0
  }

  /** How many whitespace characters `s` ends with. */
  function TrailingSpaces(s: string): (n: nat)
    ensures n <= |s|
    decreases |s|
  {
    if |s| > 0 && IsSpace(s[|s| - 1]) then 1 + TrailingSpaces(s[..|s| - 1]) else 0
  }

  /** The leading run is all whitespace and is followed by a character that
      is not whitespace, unless it is the whole of `s`. */
  lemma {:induction false} LeadingSpacesRun(s: string)
    ensures AllSpace(s[..LeadingSpaces(s)])
    ensures LeadingSpaces(s) < |s| ==> !IsSpace(s[LeadingSpaces(s)])
    decreases |s|
  {
    if |s| > 0 && IsSpace(s[0]) {
      LeadingSpacesRun(s[1..]);
      var n := LeadingSpaces(s[1..]);
      var run := s[..n + 1];
      forall k | 0 <= k < n + 1 ensures IsSpace(run[k]) {
        if k > 0 {
          assert run[k] == s[1..][..n][k - 1];
        }
      }
      if n + 1 < |s| {
        assert s[n + 1] == s[1..][n];
      }
    }
  }

  /** The trailing run is all whitespace and is preceded by a character that
      is not whitespace, unless it is the whole of `s`. */
  lemma {:induction false} TrailingSpacesRun(s: string)
    ensures AllSpace(s[|s| - TrailingSpaces(s)..])
    ensures TrailingSpaces(s) < |s| ==> !IsSpace(s[|s| - TrailingSpaces(s) - 1])
    decreases |s|
  {
    if |s| > 0 && IsSpace(s[|s| - 1]) {
      var init := s[..|s| - 1];
      TrailingSpacesRun(init);
      var n := TrailingSpaces(init);
      forall k | |s| - n - 1 <= k < |s| ensures IsSpace(s[k]) {
        if k < |s| - 1 {
          assert s[k] == init[k];
          assert init[k] == init[|init| - n..][k - (|init| - n)];
        }
      }
      if n + 1 < |s| {
        assert s[|s| - n - 2] == init[|init| - n - 1];
      }
    }
  }

  /** `s.lstrip()`. */
  function TrimStart(s: string): string {
    s[LeadingSpaces(s)..]
  }

  /** `s.rstrip()`. */
  function TrimEnd(s: string): string {
    s[..|s| - TrailingSpaces(s)]
  }

  /** `s.strip()`. */
  function Strip(s: string): (r: string)
    ensures |r| <= |s|
  {
    TrimEnd(TrimStart(s))
  }

  /** What `Strip` keeps: the slice of `s` that starts after its leading
      whitespace. */
  lemma StripSlice(s: string)
    ensures var lead := LeadingSpaces(s);
      && lead + |Strip(s)| <= |s|
      && Strip(s) == s[lead..lead + |Strip(s)|]
  {
    var lead := LeadingSpaces(s);
    var t := s[lead..];
    var trail := TrailingSpaces(t);
    assert Strip(s) == t[..|t| - trail];
    assert s[lead..lead + (|t| - trail)] == t[..|t| - trail];
  }

  /** What `Strip` drops: whitespace before and after the kept slice. */
  lemma StripDrops(s: string)
    ensures var lead := LeadingSpaces(s);
      && lead + |Strip(s)| <= |s|
      && AllSpace(s[..lead])
      && AllSpace(s[lead + |Strip(s)|..])
  {
    var lead := LeadingSpaces(s);
    var t := s[lead..];
    var trail := TrailingSpaces(t);
    var rest := s[lead + (|t| - trail)..];
    LeadingSpacesRun(s);
    TrailingSpacesRun(t);
    assert rest == t[|t| - trail..];
  }

  /** The result of `Strip` neither starts nor ends with whitespace. */
  lemma StripEnds(s: string)
    ensures Strip(s) == [] || (!IsSpace(Strip(s)[0]) && !IsSpace(Strip(s)[|Strip(s)| - 1]))
  {
    var lead := LeadingSpaces(s);
    var t := s[lead..];
    var trail := TrailingSpaces(t);
    var r := t[..|t| - trail];
    if r != [] {
      LeadingSpacesRun(s);
      TrailingSpacesRun(t);
      assert r[0] == s[lead];
      assert r[|r| - 1] == t[|t| - trail - 1];
    }
  }

  /** `Strip` leaves nothing exactly when `s` is all whitespace. */
  lemma StripEmpty(s: string)
    ensures Strip(s) == [] <==> AllSpace(s)
  {
    StripSlice(s);
    StripDrops(s);
    StripEnds(s);
    var lead := LeadingSpaces(s);
    if Strip(s) == [] {
      forall k | 0 <= k < |s| ensures IsSpace(s[k]) {
        if k < lead {
          assert s[k] == s[..lead][k];
        } else {
          assert s[k] == s[lead..][k - lead];
        }
      }
    } else {
      assert Strip(s)[0] == s[lead];
    }
  }

  /** A text that neither starts nor ends with whitespace is left as it is. */
  lemma StripKeeps(s: string)
    requires s != [] && !IsSpace(s[0]) && !IsSpace(s[|s| - 1])
    ensures Strip(s) == s
  {
    assert LeadingSpaces(s) == 0;
    assert s[0..] == s;
    assert TrailingSpaces(s) == 0;
    assert s[..|s|] == s;
  }

  /** Stripping twice is stripping once. */
  lemma StripIdempotent(s: string)
    ensures Strip(Strip(s)) == Strip(s)
  {
    StripEnds(s);
    if Strip(s) != [] {
      StripKeeps(Strip(s));
    }
  }

  /** `raw.strip() or default`: the stripped text unless nothing is left. */
  function OrDefault(raw: string, default: string): (r: string)
    ensures AllSpace(raw) ==> r == default
    ensures !AllSpace(raw) ==> r == Strip(raw) && r != []
  {
    StripEmpty(raw);
    var t := Strip(raw);
    if t == [] then default else t
  }

  /** Whatever the input, the result is the default or a text without
      surrounding whitespace; so with a non-empty, already stripped default
      the result is never empty and applying the rule again changes nothing. */
  lemma OrDefaultStable(raw: string, default: string)
    requires default != [] && Strip(default) == default
    ensures OrDefault(raw, default) != []
    ensures Strip(OrDefault(raw, default)) == OrDefault(raw, default)
    ensures OrDefault(OrDefault(raw, default), default) == OrDefault(raw, default)
  {
    StripEmpty(raw);
    StripIdempotent(raw);
  }

  /** `sep.join(parts)`. */
  function Join(sep: string, parts: seq<string>): (r: string)
    decreases |parts|
  {
    if |parts| == 0 then ""
    else if |parts| == 1 then parts[0]
    else parts[0] + sep + Join(sep, parts[1..])
  }

  /** A character that is in neither the separator nor any part is not in the
      joined text. */
  lemma {:induction false} JoinAvoids(c: char, sep: string, parts: seq<string>)
    requires c !in sep
    requires forall i :: 0 <= i < |parts| ==> c !in parts[i]
    ensures c !in Join(sep, parts)
    decreases |parts|
  {
    if |parts| >= 2 {
      JoinAvoids(c, sep, parts[1..]);
    }
  }

  /** The joined text begins with the first part. */
  lemma JoinStartsWith(sep: string, parts: seq<string>)
    requires |parts| >= 1
    ensures |Join(sep, parts)| >= |parts[0]| && Join(sep, parts)[..|parts[0]|] == parts[0]
  {
  }

  /** The position of the first `c` in `s`, for a character known to occur. */
  function IndexOf(c: char, s: string): (i: nat)
    requires c in s
    ensures i < |s| && s[i] == c && c !in s[..i]
  {
    if s[0] == c then 0
    else
      assert c in s[1..] by { var k :| 0 <= k < |s| && s[k] == c; assert s[1..][k - 1] == c; }
      var j := IndexOf(c, s[1..]);
      assert s[..j + 1] == [s[0]] + s[1..][..j];
      j + 1
  }

  /** Cutting `s` at every `c`, as Python's `s.split(c)` would: always at
      least one piece, none of which contains `c`. */
  function Split(c: char, s: string): (r: seq<string>)
    ensures |r| >= 1
    ensures forall i :: 0 <= i < |r| ==> c !in r[i]
    decreases |s|
  {
    if c !in s then [s]
    else
      var i := IndexOf(c, s);
      [s[..i]] + Split(c, s[i + 1..])
  }

  lemma IndexOfAfter(c: char, a: string, b: string)
    requires c !in a
    ensures c in a + [c] + b && IndexOf(c, a + [c] + b) == |a|
  {
    var s := a + [c] + b;
    assert s[|a|] == c;
  }

  /** Splitting the joined text on the separator character gives back the
      parts, provided no part contains that character. (`"".split(c)` is
      `[""]`, so the empty list of parts is excluded: it joins to `""` too.) */
  lemma {:induction false} SplitJoin(c: char, parts: seq<string>)
    requires |parts| >= 1
    requires forall i :: 0 <= i < |parts| ==> c !in parts[i]
    ensures Split(c, Join([c], parts)) == parts
    decreases |parts|
  {
    if |parts| == 1 {
      assert Join([c], parts) == parts[0];
    } else {
      var a, b := parts[0], Join([c], parts[1..]);
      assert Join([c], parts) == a + [c] + b;
      IndexOfAfter(c, a, b);
      var s := a + [c] + b;
      assert s[..|a|] == a;
      assert s[|a| + 1..] == b;
      SplitJoin(c, parts[1..]);
      assert Split(c, s) == [a] + parts[1..];
    }
  }

  function DigitChar(d: nat): (c: char)
    requires d < 10
    ensures '0' <= c <= '9' && c as int - '0' as int == d
  {
    ('0' as int + d) as char
  }

  /** `str(n)` for a natural number: decimal digits, no leading zero. */
  function NatToString(n: nat): (r: string)
    ensures |r| >= 1
    ensures forall k :: 0 <= k < |r| ==> '0' <= r[k] <= '9'
    ensures |r| > 1 ==> r[0] != '0'
    decreases n
  {
    if n < 10 then [DigitChar(n)]
    else NatToString(n / 10) + [DigitChar(n % 10)]
  }

  /** The value of a string of decimal digits, as `int(s)` reads it. */
  function DigitsValue(s: string): nat
    requires forall k :: 0 <= k < |s| ==> '0' <= s[k] <= '9'
  {
    if s == [] then 0
    else 10 * DigitsValue(s[..|s| - 1]) + (s[|s| - 1] as int - '0' as int)
  }

  /** `int(str(n)) == n`: the decimal rendering denotes the number. */
  lemma {:induction false} NatToStringValue(n: nat)
    ensures DigitsValue(NatToString(n)) == n
    decreases n
  {
    var r := NatToString(n);
    if n >= 10 {
      NatToStringValue(n / 10);
      assert r[..|r| - 1] == NatToString(n / 10);
    }
  }

  /** Different numbers are rendered differently. */
  lemma NatToStringInjective(m: nat, n: nat)
    requires NatToString(m) == NatToString(n)
    ensures m == n
  {
    NatToStringValue(m);
    NatToStringValue(n);
  }
}

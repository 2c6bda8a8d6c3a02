/** The string operations the source applies to correlation file names and to the
    output of the measurement routine: `str.split` on one character, the `in`
    substring test, `str.replace(pat, '')` and `int()` of a decimal string. */
module Text {
  import opened Values

  /** `s.split(sep)`: the pieces between the occurrences of `sep`. */
  function Split(s: string, sep: char): (r: seq<string>)
    ensures |r| >= 1
    ensures forall k :: 0 <= k < |r| ==> sep !in r[k]
    ensures Join(r, sep) == s
  {
    if s == [] then [""]
    else
      var rest := Split(s[1..], sep);
      if s[0] == sep then [""] + rest
      else [[s[0]] + rest[0]] + rest[1..]
  }

  /** `sep.join(parts)`. */
  function Join(parts: seq<string>, sep: char): string
    requires |parts| >= 1
  {
    if |parts| == 1 then parts[0] else parts[0] + [sep] + Join(parts[1..], sep)
  }

  /** The last piece of a join is what follows its last separator (or the whole string). */
  lemma {:induction false} JoinLast(parts: seq<string>, sep: char)
    requires |parts| >= 1
    ensures var s, last := Join(parts, sep), parts[|parts| - 1];
      && |last| <= |s| && s[|s| - |last|..] == last
      && (|parts| > 1 ==> |last| < |s| && s[|s| - |last| - 1] == sep)
  {
    if |parts| > 1 {
      var s, last := Join(parts, sep), parts[|parts| - 1];
      var rest := Join(parts[1..], sep);
      JoinLast(parts[1..], sep);
      assert parts[1..][|parts[1..]| - 1] == last;
      assert s == parts[0] + [sep] + rest;
      assert s[|s| - |last|..] == rest[|rest| - |last|..];
      if |parts| > 2 {
        assert s[|s| - |last| - 1] == rest[|rest| - |last| - 1];
      }
    }
  }

  /** Splitting a piece that does not contain `sep`, followed by `sep`, peels that piece off. */
  lemma {:induction false} SplitCons(p: string, q: string, sep: char)
    requires sep !in p
    ensures Split(p + [sep] + q, sep) == [p] + Split(q, sep)
  {
    if p == [] {
      assert p + [sep] + q == [sep] + q;
      assert ([sep] + q)[1..] == q;
    } else {
      assert (p + [sep] + q)[1..] == p[1..] + [sep] + q;
      SplitCons(p[1..], q, sep);
      assert [p[0]] + p[1..] == p;
    }
  }

  /** `Split` inverts `Join` when no piece contains the separator. */
  lemma {:induction false} SplitJoin(parts: seq<string>, sep: char)
    requires |parts| >= 1
    requires forall k :: 0 <= k < |parts| ==> sep !in parts[k]
    ensures Split(Join(parts, sep), sep) == parts
  {
    if |parts| == 1 {
      NoSepSplit(parts[0], sep);
    } else {
      SplitJoin(parts[1..], sep);
      SplitCons(parts[0], Join(parts[1..], sep), sep);
      assert [parts[0]] + parts[1..] == parts;
    }
  }

  /** A string without the separator splits into itself. */
  lemma {:induction false} NoSepSplit(s: string, sep: char)
    requires sep !in s
    ensures Split(s, sep) == [s]
  {
    if s != [] {
      NoSepSplit(s[1..], sep);
      assert [s[0]] + s[1..] == s;
    }
  }

  /** Python's `sub in s`. */
  predicate Contains(s: string, sub: string)
  {
    (|sub| <= |s| && s[..|sub|] == sub) || (s != [] && Contains(s[1..], sub))
  }

  /** A string containing `p + q` contains `q`. */
  lemma {:induction false} ContainsSuffix(s: string, p: string, q: string)
    requires Contains(s, p + q)
    ensures Contains(s, q)
  {
    if |p + q| <= |s| && s[..|p + q|] == p + q {
      ContainsAt(s, |p|, q);
    } else {
      ContainsSuffix(s[1..], p, q);
    }
  }

  /** A string containing `sub` still contains it behind any prefix. */
  lemma {:induction false} ContainsAfter(p: string, q: string, sub: string)
    requires Contains(q, sub)
    ensures Contains(p + q, sub)
  {
    if p == [] {
      assert p + q == q;
    } else {
      ContainsAfter(p[1..], q, sub);
      assert (p + q)[1..] == p[1..] + q;
    }
  }

  /** An occurrence of `q` at offset `i` of `s` is an occurrence. */
  lemma {:induction false} ContainsAt(s: string, i: nat, q: string)
    requires i + |q| <= |s| && s[i..i + |q|] == q
    ensures Contains(s, q)
    decreases i
  {
    if i > 0 {
      assert s[1..][i - 1..i - 1 + |q|] == q;
      ContainsAt(s[1..], i - 1, q);
    }
  }

  /** A string containing a pattern contains each character of the pattern. */
  lemma {:induction false} ContainsChar(s: string, pat: string, j: nat)
    requires Contains(s, pat) && j < |pat|
    ensures pat[j] in s
  {
    if |pat| <= |s| && s[..|pat|] == pat {
      assert s[j] == pat[j];
    } else {
      ContainsChar(s[1..], pat, j);
    }
  }

  /** `s.replace(pat, '')`: occurrences are removed left to right without overlap. */
  function RemoveAll(s: string, pat: string): (r: string)
    requires pat != []
    ensures |r| <= |s|
    ensures !Contains(s, pat) ==> r == s
  {
    if |s| < |pat| then s
    else if s[..|pat|] == pat then RemoveAll(s[|pat|..], pat)
    else [s[0]] + RemoveAll(s[1..], pat)
  }

  /** Removing `pat` from `x + pat` gives back `x` when `x` cannot start an occurrence. */
  lemma {:induction false} RemoveTrailing(x: string, pat: string)
    requires pat != [] && pat[0] !in x
    ensures RemoveAll(x + pat, pat) == x
  {
    if x == [] {
      assert (x + pat)[..|pat|] == pat;
      assert (x + pat)[|pat|..] == [];
    } else {
      assert (x + pat)[0] == x[0] != pat[0];
      assert (x + pat)[1..] == x[1..] + pat;
      RemoveTrailing(x[1..], pat);
      assert [x[0]] + x[1..] == x;
    }
  }

  /** A prefix in which `pat` cannot start is kept as it is. */
  lemma {:induction false} RemoveLeading(x: string, y: string, pat: string)
    requires pat != [] && pat[0] !in x
    ensures RemoveAll(x + y, pat) == x + RemoveAll(y, pat)
  {
    if x == [] {
      assert x + y == y;
    } else if |x + y| >= |pat| {
      assert (x + y)[..|pat|][0] == x[0] != pat[0];
      assert (x + y)[1..] == x[1..] + y;
      RemoveLeading(x[1..], y, pat);
      assert [x[0]] + x[1..] == x;
      assert x + RemoveAll(y, pat) == [x[0]] + (x[1..] + RemoveAll(y, pat));
    }
  }

  /** An occurrence at the front is removed. */
  lemma RemoveFront(pat: string, y: string)
    requires pat != []
    ensures RemoveAll(pat + y, pat) == RemoveAll(y, pat)
  {
    assert (pat + y)[..|pat|] == pat && (pat + y)[|pat|..] == y;
  }

  /** A string without the first character of `pat` has nothing to remove. */
  lemma NothingToRemove(s: string, pat: string)
    requires pat != [] && pat[0] !in s
    ensures RemoveAll(s, pat) == s
  {
    RemoveLeading(s, [], pat);
    assert s + [] == s;
  }

  /** A string without the first character of `sub` does not contain it. */
  lemma NotContains(s: string, sub: string)
    requires sub != [] && sub[0] !in s
    ensures !Contains(s, sub)
  {
    if Contains(s, sub) {
      ContainsChar(s, sub, 0);
    }
  }

  /** The characters `str.isspace()` accepts, on which `str.split()` splits and which
      `int()` strips: the ASCII controls tab to carriage return and file to unit separator,
      the space, and the Unicode separators. */
  predicate IsSpace(c: char)
  {
    || c == ' ' || '\t' <= c <= '\r' || '\U{001C}' <= c <= '\U{001F}'
    || c == '\U{0085}' || c == '\U{00A0}' || c == '\U{1680}' || '\U{2000}' <= c <= '\U{200A}'
    || c == '\U{2028}' || c == '\U{2029}' || c == '\U{202F}' || c == '\U{205F}' || c == '\U{3000}'
  }

  /** A word of `str.split()`: non-empty, without whitespace. */
  predicate Token(w: string)
  {
    w != [] && forall j :: 0 <= j < |w| ==> !IsSpace(w[j])
  }

  /** Length of the run of non-whitespace characters at the front of `s`. */
  function TokenLength(s: string): (n: nat)
    ensures n <= |s|
    ensures forall j :: 0 <= j < n ==> !IsSpace(s[j])
    ensures n < |s| ==> IsSpace(s[n])
  {
    if s == [] || IsSpace(s[0]) then 0 else 1 + TokenLength(s[1..])
  }

  /** `s.split()`: the maximal runs of non-whitespace characters, in order. */
  function Words(s: string): (r: seq<string>)
    ensures forall k :: 0 <= k < |r| ==> Token(r[k])
    decreases |s|
  {
    if s == [] then []
    else if IsSpace(s[0]) then Words(s[1..])
    else
      var n := TokenLength(s);
      [s[..n]] + Words(s[n..])
  }

  lemma {:induction false} TokenLengthOf(w: string, rest: string)
    requires Token(w) && (rest == [] || IsSpace(rest[0]))
    ensures TokenLength(w + rest) == |w|
  {
    if |w| > 1 {
      TokenLengthOf(w[1..], rest);
      assert (w + rest)[1..] == w[1..] + rest;
    } else {
      assert (w + rest)[1..] == rest;
    }
  }

  /** Splitting words joined by single spaces gives them back. */
  lemma {:induction false} WordsJoin(ws: seq<string>)
    requires |ws| >= 1 && forall k :: 0 <= k < |ws| ==> Token(ws[k])
    ensures Words(Join(ws, ' ')) == ws
  {
    var w := ws[0];
    if |ws| == 1 {
      TokenLengthOf(w, []);
      assert w + [] == w;
      assert w[..|w|] == w && w[|w|..] == [];
    } else {
      var rest := Join(ws[1..], ' ');
      var s := w + [' '] + rest;
      TokenLengthOf(w, [' '] + rest);
      assert s == w + ([' '] + rest);
      assert s[..|w|] == w;
      assert s[|w|..] == [' '] + rest;
      assert ([' '] + rest)[1..] == rest;
      WordsJoin(ws[1..]);
      assert [w] + ws[1..] == ws;
    }
  }

  predicate IsDigit(c: char) { '0' <= c <= '9' }

  function DigitValue(c: char): nat
    requires IsDigit(c)
  {
    (c as int - '0' as int) as nat
  }

  function DigitChar(d: nat): char
    requires d < 10
  {
    ('0' as int + d) as char
  }

  /** The value of a non-empty string of decimal digits. */
  function DecimalValue(s: string): nat
    requires forall k :: 0 <= k < |s| ==> IsDigit(s[k])
  {
    if s == [] then 0 else DecimalValue(s[..|s| - 1]) * 10 + DigitValue(s[|s| - 1])
  }

  /** The decimal spelling of `n`, as `str(n)` writes it. */
  function Decimal(n: nat): (r: string)
    ensures |r| >= 1
    ensures forall k :: 0 <= k < |r| ==> IsDigit(r[k])
  {
    if n < 10 then [DigitChar(n)] else Decimal(n / 10) + [DigitChar(n % 10)]
  }

  /** The end of the run of whitespace starting at `i`. */
  function SpacesFrom(s: string, i: nat): (e: nat)
    requires i <= |s|
    ensures i <= e <= |s| && forall k :: i <= k < e ==> IsSpace(s[k])
    ensures e < |s| ==> !IsSpace(s[e])
    decreases |s| - i
  {
    if i == |s| || !IsSpace(s[i]) then i else SpacesFrom(s, i + 1)
  }

  /** The start of the run of whitespace ending at `j`, not going below `lo`. */
  function SpacesTo(s: string, lo: nat, j: nat): (e: nat)
    requires lo <= j <= |s|
    ensures lo <= e <= j && forall k :: e <= k < j ==> IsSpace(s[k])
    ensures e > lo ==> !IsSpace(s[e - 1])
  {
    if j == lo || !IsSpace(s[j - 1]) then j else SpacesTo(s, lo, j - 1)
  }

  /** `s` without its leading and trailing whitespace, as `str.strip()` gives it: a part of
      `s` that neither starts nor ends with whitespace, and `s` itself when `s` has none. */
  function StripSpaces(s: string): (r: string)
    ensures |r| <= |s| && forall c :: c in r ==> c in s
    ensures r != [] ==> !IsSpace(r[0]) && !IsSpace(r[|r| - 1])
    ensures (forall k :: 0 <= k < |s| ==> !IsSpace(s[k])) ==> r == s
  {
    var i := SpacesFrom(s, 0);
    var j := SpacesTo(s, i, |s|);
    assert forall c :: c in s[i..j] ==> c in s by {
      forall c | c in s[i..j] ensures c in s {
        var k :| 0 <= k < j - i && s[i..j][k] == c;
        assert s[i + k] == c;
      }
    }
    s[i..j]
  }

  /** Python's `int(s)`: surrounding whitespace is stripped, then an optional sign followed by
      decimal digits is read; None stands for the ValueError raised on anything else. */
  function ParseInt(s: string): (r: Option<int>)
    ensures r.Some? ==> exists k :: 0 <= k < |s| && IsDigit(s[k])
    ensures (forall k :: 0 <= k < |s| ==> !IsSpace(s[k])) ==> r == ParseSigned(s)
  {
    var t := StripSpaces(s);
    var r := ParseSigned(t);
    assert r.Some? ==> t[|t| - 1] in t;
    r
  }

  /** The whitespace scan from the front of `pre + t + post` stops where `t` starts. */
  lemma {:induction false} SpacesFromPadded(pre: string, t: string, post: string, i: nat)
    requires i <= |pre| && t != [] && !IsSpace(t[0])
    requires forall k :: 0 <= k < |pre| ==> IsSpace(pre[k])
    ensures SpacesFrom(pre + t + post, i) == |pre|
    decreases |pre| - i
  {
    var s := pre + t + post;
    if i < |pre| {
      assert s[i] == pre[i];
      SpacesFromPadded(pre, t, post, i + 1);
    } else {
      assert s[i] == t[0];
    }
  }

  /** The whitespace scan from the back of `pre + t + post` stops where `t` ends. */
  lemma {:induction false} SpacesToPadded(pre: string, t: string, post: string, j: nat)
    requires |pre| + |t| <= j <= |pre| + |t| + |post| && t != [] && !IsSpace(t[|t| - 1])
    requires forall k :: 0 <= k < |post| ==> IsSpace(post[k])
    ensures SpacesTo(pre + t + post, |pre|, j) == |pre| + |t|
  {
    var s := pre + t + post;
    if j > |pre| + |t| {
      assert s[j - 1] == post[j - 1 - |pre| - |t|];
      SpacesToPadded(pre, t, post, j - 1);
    } else {
      assert s[j - 1] == t[|t| - 1];
    }
  }

  /** Stripping `pre + t + post` leaves `t` when the padding is whitespace and `t` neither
      starts nor ends with it. */
  lemma StripPadded(pre: string, t: string, post: string)
    requires forall k :: 0 <= k < |pre| ==> IsSpace(pre[k])
    requires forall k :: 0 <= k < |post| ==> IsSpace(post[k])
    requires t != [] && !IsSpace(t[0]) && !IsSpace(t[|t| - 1])
    ensures StripSpaces(pre + t + post) == t
  {
    var s := pre + t + post;
    SpacesFromPadded(pre, t, post, 0);
    SpacesToPadded(pre, t, post, |s|);
    assert s[|pre|..|pre| + |t|] == t;
  }

  /** `int()` ignores whitespace around the number: padding a string that neither starts nor
      ends with whitespace on either side reads the same value, and that string is read as it
      stands. */
  lemma ParseIntPadded(pre: string, t: string, post: string)
    requires forall k :: 0 <= k < |pre| ==> IsSpace(pre[k])
    requires forall k :: 0 <= k < |post| ==> IsSpace(post[k])
    requires t != [] && !IsSpace(t[0]) && !IsSpace(t[|t| - 1])
    ensures ParseInt(pre + t + post) == ParseInt(t) == ParseSigned(t)
  {
    StripPadded(pre, t, post);
    assert [] + t + [] == t;
    StripPadded([], t, []);
  }

  /** An optional sign followed by decimal digits, read as `int()` reads it. */
  function ParseSigned(s: string): (r: Option<int>)
    ensures r.Some? ==> |s| >= 1 && IsDigit(s[|s| - 1])
  {
    if |s| >= 1 && (s[0] == '-' || s[0] == '+') then
      var digits := s[1..];
      if |digits| >= 1 && forall k :: 0 <= k < |digits| ==> IsDigit(digits[k]) then
        var magnitude: int := DecimalValue(digits);
        Some(if s[0] == '-' then -magnitude else magnitude)
      else None
    else if |s| >= 1 && forall k :: 0 <= k < |s| ==> IsDigit(s[k]) then Some(DecimalValue(s))
    else None
  }

  /** Reading back a decimal spelling gives the number. */
  lemma {:induction false} DecimalRoundTrip(n: nat)
    ensures DecimalValue(Decimal(n)) == n
  {
    if n >= 10 {
      DecimalRoundTrip(n / 10);
      var d := Decimal(n / 10) + [DigitChar(n % 10)];
      assert d[..|d| - 1] == Decimal(n / 10);
    }
  }

  lemma ParseDecimal(n: nat)
    ensures ParseInt(Decimal(n)) == Some(n)
  {
    var s := Decimal(n);
    assert forall k :: 0 <= k < |s| ==> !IsSpace(s[k]) by {
      forall k | 0 <= k < |s| ensures !IsSpace(s[k]) {
        assert IsDigit(s[k]);
      }
    }
    assert ParseInt(s) == ParseSigned(s);
    DecimalRoundTrip(n);
  }
}

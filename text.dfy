/** Small string utilities shared by the model: optional values, the characters that
    JavaScript's `String.prototype.trim` removes, prefixes, suffixes, substrings and joins.
    Strings are sequences of Unicode scalar values. */
module Text {

  datatype Option<+T> = None | Some(value: T)

  /** A JavaScript line terminator: LF, CR, LINE SEPARATOR or PARAGRAPH SEPARATOR.
      These are also the characters that `.` in a regular expression does not match. */
  predicate IsLineTerminator(c: char) {
    c == '\n' || c == '\r' || c == '\U{2028}' || c == '\U{2029}'
  }

  /** A character that `trim` removes: a WhiteSpace or a LineTerminator of ECMAScript. */
  predicate IsJsSpace(c: char) {
    || IsLineTerminator(c)
    || c == '\t' || c == '\U{000B}' || c == '\U{000C}' || c == ' '
    || c == '\U{00A0}' || c == '\U{FEFF}' || c == '\U{1680}'
    || ('\U{2000}' <= c <= '\U{200A}')
    || c == '\U{202F}' || c == '\U{205F}' || c == '\U{3000}'
  }

  /** `s` with its leading spaces removed. */
  function TrimStart(s: string): string {
    if s != [] && IsJsSpace(s[0]) then TrimStart(s[1..]) else s
  }

  /** What `TrimStart` removes is spaces, and what it keeps does not start with one. */
  lemma {:induction false} TrimStartSpec(s: string)
    ensures |TrimStart(s)| <= |s| && TrimStart(s) == s[|s| - |TrimStart(s)|..]
    ensures forall i :: 0 <= i < |s| - |TrimStart(s)| ==> IsJsSpace(s[i])
    ensures TrimStart(s) != [] ==> !IsJsSpace(TrimStart(s)[0])
  {
    if s != [] && IsJsSpace(s[0]) {
      TrimStartSpec(s[1..]);
      forall i | 1 <= i < |s| - |TrimStart(s)| ensures IsJsSpace(s[i]) {
        assert s[i] == s[1..][i - 1];
      }
    }
  }

  /** `s` with its trailing spaces removed. */
  function TrimEnd(s: string): string {
    if s != [] && IsJsSpace(s[|s| - 1]) then TrimEnd(s[..|s| - 1]) else s
  }

  /** What `TrimEnd` removes is spaces, and what it keeps does not end with one. */
  lemma {:induction false} TrimEndSpec(s: string)
    ensures |TrimEnd(s)| <= |s| && TrimEnd(s) == s[..|TrimEnd(s)|]
    ensures forall i :: |TrimEnd(s)| <= i < |s| ==> IsJsSpace(s[i])
    ensures TrimEnd(s) != [] ==> !IsJsSpace(TrimEnd(s)[|TrimEnd(s)| - 1])
  {
    if s != [] && IsJsSpace(s[|s| - 1]) {
      TrimEndSpec(s[..|s| - 1]);
      forall i | |TrimEnd(s)| <= i < |s| - 1 ensures IsJsSpace(s[i]) {
        assert s[i] == s[..|s| - 1][i];
      }
    }
  }

  /** JavaScript's `s.trim()`. */
  function Trim(s: string): string {
    TrimStart(TrimEnd(s))
  }

  /** A string is blank (trims to "") exactly when every character of it is a space. */
  lemma {:induction false} TrimEmptyIff(s: string)
    ensures Trim(s) == "" <==> forall i :: 0 <= i < |s| ==> IsJsSpace(s[i])
  {
    var e := TrimEnd(s);
    TrimEndSpec(s);
    TrimStartSpec(e);
    if Trim(s) == "" {
      assert |e| == 0;
    } else {
      var r := Trim(s);
      var k := |e| - |r|;
      assert r[0] == e[k] == s[k];
    }
  }

  /** A string with a character other than a space is not blank. */
  lemma TrimKeepsNonSpace(s: string, i: nat)
    requires i < |s| && !IsJsSpace(s[i])
    ensures Trim(s) != ""
  {
    TrimEmptyIff(s);
  }

  /** Appending one more space never changes what `trim` yields. */
  lemma TrimIgnoresTrailingSpace(s: string, c: char)
    requires IsJsSpace(c)
    ensures TrimEnd(s + [c]) == TrimEnd(s)
    ensures Trim(s + [c]) == Trim(s)
  {
    assert (s + [c])[..|s|] == s;
  }

  /** The same for the part of `s` from index `k` on. */
  lemma TrimSuffixIgnoresTrailingSpace(s: string, c: char, k: nat)
    requires IsJsSpace(c) && k <= |s|
    ensures Trim((s + [c])[k..]) == Trim(s[k..])
  {
    SliceAppend(s, c, k);
    TrimIgnoresTrailingSpace(s[k..], c);
  }

  /** JavaScript's `s || null` on an optional string: the empty string counts as absent. */
  function NullIfEmpty(s: Option<string>): (r: Option<string>)
    ensures r.Some? <==> s.Some? && s.value != ""
    ensures r.Some? ==> r == s
  {
    if s.Some? && s.value != "" then s else None
  }

  /** JavaScript truthiness of a string that may be null: present and not empty. */
  predicate Truthy(s: Option<string>) {
    s.Some? && s.value != ""
  }

  predicate StartsWith(s: string, prefix: string) {
    |prefix| <= |s| && s[..|prefix|] == prefix
  }

  /** A prefix no longer than `s` is a prefix of `s + t` exactly when it is one of `s`. */
  lemma StartsWithAppend(s: string, t: string, prefix: string)
    requires |prefix| <= |s|
    ensures StartsWith(s + t, prefix) <==> StartsWith(s, prefix)
  {
    assert (s + t)[..|prefix|] == s[..|prefix|];
  }

  predicate EndsWith(s: string, suffix: string) {
    |suffix| <= |s| && s[|s| - |suffix|..] == suffix
  }

  /** JavaScript's `s.includes(sub)`. */
  predicate Contains(s: string, sub: string)
    decreases |s|
  {
    StartsWith(s, sub) || (s != [] && Contains(s[1..], sub))
  }

  /** `Contains` means that `sub` occurs at some position of `s`. */
  lemma {:induction false} ContainsIff(s: string, sub: string)
    ensures Contains(s, sub) <==> exists i :: 0 <= i <= |s| - |sub| && StartsWith(s[i..], sub)
  {
    assert s[0..] == s;
    if s != [] {
      ContainsIff(s[1..], sub);
      if Contains(s[1..], sub) {
        var i :| 0 <= i <= |s[1..]| - |sub| && StartsWith(s[1..][i..], sub);
        assert s[1..][i..] == s[i + 1..];
      }
      forall i | 1 <= i <= |s| - |sub| && StartsWith(s[i..], sub)
        ensures Contains(s[1..], sub)
      {
        assert s[1..][i - 1..] == s[i..];
      }
    }
  }

  /** The first index of `c` in `s`, or -1 (JavaScript's `indexOf` of a one-character string). */
  function IndexOf(s: string, c: char): (i: int)
    ensures -1 <= i < |s|
    ensures i >= 0 ==> s[i] == c
  {
    if s == [] then -1
    else if s[0] == c then 0
    else var j := IndexOf(s[1..], c); if j == -1 then -1 else j + 1
  }

  /** `IndexOf` finds the first occurrence, and -1 means that there is none. */
  lemma {:induction false} IndexOfSpec(s: string, c: char)
    ensures IndexOf(s, c) == -1 <==> c !in s
    ensures IndexOf(s, c) >= 0 ==> c !in s[..IndexOf(s, c)]
  {
    if s != [] && s[0] != c {
      IndexOfSpec(s[1..], c);
      assert s == [s[0]] + s[1..];
      if IndexOf(s, c) >= 0 {
        assert s[..IndexOf(s, c)] == [s[0]] + s[1..][..IndexOf(s, c) - 1];
      }
    }
  }

  /** Text appended after an occurrence does not move the first occurrence. */
  lemma {:induction false} IndexOfAppend(x: string, y: string, c: char)
    requires IndexOf(x, c) != -1
    ensures IndexOf(x + y, c) == IndexOf(x, c)
  {
    if x[0] != c {
      assert (x + y)[1..] == x[1..] + y;
      IndexOfAppend(x[1..], y, c);
    }
  }

  /** A prefix of a text without `c` is without `c`. */
  lemma {:induction false} IndexOfPrefixNone(s: string, k: nat, c: char)
    requires IndexOf(s, c) == -1 && k <= |s|
    ensures IndexOf(s[..k], c) == -1
  {
    if k > 0 {
      assert s[..k][1..] == s[1..][..k - 1];
      IndexOfPrefixNone(s[1..], k - 1, c);
    }
  }

  /** The text before the first occurrence of `c` holds no `c`. */
  lemma {:induction false} IndexOfBefore(s: string, c: char)
    requires IndexOf(s, c) >= 0
    ensures IndexOf(s[..IndexOf(s, c)], c) == -1
  {
    if s[0] != c {
      assert s[..IndexOf(s, c)][1..] == s[1..][..IndexOf(s[1..], c)];
      IndexOfBefore(s[1..], c);
    }
  }

  /** In `x + [c] + y` where `x` has no `c`, the first `c` is the one after `x`. */
  lemma {:induction false} IndexOfAfter(x: string, c: char, y: string)
    requires IndexOf(x, c) == -1
    ensures IndexOf(x + [c] + y, c) == |x|
  {
    if x != [] {
      assert (x + [c] + y)[1..] == x[1..] + [c] + y;
      IndexOfAfter(x[1..], c, y);
    }
  }

  /** The part of `s` before the first `c` (JavaScript's `s.split(c)[0]`). */
  function BeforeFirst(s: string, c: char): (r: string)
    ensures StartsWith(s, r)
    ensures |r| < |s| ==> s[|r|] == c
  {
    var i := IndexOf(s, c);
    if i == -1 then s else s[..i]
  }

  /** `s.split(c)[0]`: the part before the first `c` holds no `c`, and it is all of `s` when
      `s` holds none. */
  lemma BeforeFirstSpec(s: string, c: char)
    ensures c !in BeforeFirst(s, c)
    ensures c !in s <==> BeforeFirst(s, c) == s
  {
    IndexOfSpec(s, c);
  }

  /** JavaScript's `xs.join(sep)`. */
  function Join(xs: seq<string>, sep: string): string {
    if xs == [] then ""
    else if |xs| == 1 then xs[0]
    else xs[0] + sep + Join(xs[1..], sep)
  }

  /** A join of strings free of line terminators, with a separator free of them, is free of them. */
  lemma {:induction false} JoinHasNoLineTerminator(xs: seq<string>, sep: string)
    requires forall i, j :: 0 <= i < |xs| && 0 <= j < |xs[i]| ==> !IsLineTerminator(xs[i][j])
    requires forall j :: 0 <= j < |sep| ==> !IsLineTerminator(sep[j])
    ensures forall j :: 0 <= j < |Join(xs, sep)| ==> !IsLineTerminator(Join(xs, sep)[j])
  {
    if |xs| > 1 {
      JoinHasNoLineTerminator(xs[1..], sep);
      var rest := Join(xs[1..], sep);
      assert Join(xs, sep) == xs[0] + sep + rest;
      forall j | 0 <= j < |Join(xs, sep)| ensures !IsLineTerminator(Join(xs, sep)[j]) {
        if j < |xs[0]| {
          assert Join(xs, sep)[j] == xs[0][j];
        } else if j < |xs[0]| + |sep| {
          assert Join(xs, sep)[j] == sep[j - |xs[0]|];
        } else {
          assert Join(xs, sep)[j] == rest[j - |xs[0]| - |sep|];
        }
      }
    } else if |xs| == 1 {
      assert Join(xs, sep) == xs[0];
    }
  }

  /** Decimal digits of a natural number, as `String(n)` prints it. */
  function NatToString(n: nat): (r: string)
    ensures r != ""
    ensures forall i :: 0 <= i < |r| ==> '0' <= r[i] <= '9'
    ensures n < 10 ==> |r| == 1
  {
    if n < 10 then [(48 + n) as char] else NatToString(n / 10) + [(48 + n % 10) as char]
  }

  // ---------------------------------------------------------------------------------------
  // Sequence facts kept out of the larger proofs, where they are costly to rediscover.

  lemma AppendAssoc<T>(x: seq<T>, y: seq<T>, z: seq<T>)
    ensures (x + y) + z == x + (y + z)
  {
  }

  lemma SliceAppend<T>(s: seq<T>, c: T, k: nat)
    requires k <= |s|
    ensures (s + [c])[k..] == s[k..] + [c]
  {
  }

  lemma AppendHead<T>(xs: seq<T>, ys: seq<T>)
    requires xs != []
    ensures xs + ys != [] && (xs + ys)[0] == xs[0]
  {
  }

  lemma HeadTail<T>(s: seq<T>)
    requires s != []
    ensures s == [] + [s[0]] + s[1..]
  {
  }

  /** Two ways of cutting one sequence, where the first cut falls at or before `d`. */
  lemma CutBefore<T>(xs: seq<T>, ys: seq<T>, before: seq<T>, d: T, after: seq<T>)
    requires xs + ys == before + [d] + after
    requires |xs| <= |before|
    ensures xs == before[..|xs|]
    ensures ys == before[|xs|..] + [d] + after
    ensures before == before[..|xs|] + before[|xs|..]
  {
    var k := |xs|;
    assert (xs + ys)[..k] == xs;
    assert (xs + ys)[k..] == ys;
    assert (before + [d] + after)[k..] == before[k..] + [d] + after;
  }

  /** Two ways of cutting one sequence, where the first cut falls after `d`. */
  lemma CutAfter<T>(xs: seq<T>, ys: seq<T>, before: seq<T>, d: T, after: seq<T>)
    requires xs + ys == before + [d] + after
    requires |xs| > |before|
    ensures xs == before + [d] + xs[|before| + 1..]
    ensures after == xs[|before| + 1..] + ys
  {
    assert xs[..|before|] == (xs + ys)[..|before|];
    assert xs[|before|] == (xs + ys)[|before|];
    assert xs == xs[..|before|] + [xs[|before|]] + xs[|before| + 1..];
    assert (xs + ys)[|before| + 1..] == xs[|before| + 1..] + ys;
  }

  /** A sequence that starts with `x` and is also `before + [d] + after`. */
  lemma ConsSplit<T>(x: T, xs: seq<T>, before: seq<T>, d: T, after: seq<T>)
    requires [x] + xs == before + [d] + after
    ensures before == [] ==> x == d && xs == after
    ensures before != [] ==> x == before[0] && xs == before[1..] + [d] + after
  {
    var w := before + [d] + after;
    assert x == ([x] + xs)[0] == w[0];
    assert xs == ([x] + xs)[1..] == w[1..];
    if before == [] {
      assert w == [d] + after;
    } else {
      assert w[0] == before[0];
      assert w[1..] == before[1..] + [d] + after;
    }
  }
}

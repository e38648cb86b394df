/** The string operations the engine relies on, with Rust's `str` semantics.
    Strings are sequences of Unicode scalar values; every operation used by the
    engine (searching for ASCII markers, splitting on ASCII separators, trimming
    whitespace) gives the same result on scalar values as Rust's byte-level code. */
module Text {
  import opened Wrappers

  // ---------------------------------------------------------------------------
  // Whitespace and trimming (`str::trim`, `str::trim_matches`)
  // ---------------------------------------------------------------------------

  /** `char::is_whitespace`: the Unicode White_Space property. */
  predicate IsWhitespace(c: char)
  {
    var n := c as int;
    n == 0x20 || (0x09 <= n <= 0x0D) || n == 0x85 || n == 0xA0 || n == 0x1680
    || (0x2000 <= n <= 0x200A) || n == 0x2028 || n == 0x2029 || n == 0x202F
    || n == 0x205F || n == 0x3000
  }

  /** Every character is whitespace (so `s.trim().is_empty()`). */
  predicate IsBlank(s: string)
  {
    forall i :: 0 <= i < |s| ==> IsWhitespace(s[i])
  }

  function TrimStart(s: string): (r: string)
    ensures |r| <= |s| && r == s[|s| - |r|..]
    ensures r == [] || !IsWhitespace(r[0])
  {
    if |s| > 0 && IsWhitespace(s[0]) then TrimStart(s[1..]) else s
  }

  /** What `TrimStart` drops is whitespace. */
  lemma {:induction false} TrimStartDropsBlank(s: string)
    ensures forall i :: 0 <= i < |s| - |TrimStart(s)| ==> IsWhitespace(s[i])
  {
    if |s| > 0 && IsWhitespace(s[0]) {
      TrimStartDropsBlank(s[1..]);
      forall i | 1 <= i < |s| - |TrimStart(s)| ensures IsWhitespace(s[i]) {
        assert s[i] == s[1..][i - 1];
      }
    }
  }

  function TrimEnd(s: string): (r: string)
    ensures |r| <= |s| && r == s[..|r|]
    ensures r == [] || !IsWhitespace(r[|r| - 1])
  {
    if |s| > 0 && IsWhitespace(s[|s| - 1]) then TrimEnd(s[..|s| - 1]) else s
  }

  /** What `TrimEnd` drops is whitespace. */
  lemma {:induction false} TrimEndDropsBlank(s: string)
    ensures forall i :: |TrimEnd(s)| <= i < |s| ==> IsWhitespace(s[i])
  {
    if |s| > 0 && IsWhitespace(s[|s| - 1]) {
      TrimEndDropsBlank(s[..|s| - 1]);
      forall i | |TrimEnd(s)| <= i < |s| - 1 ensures IsWhitespace(s[i]) {
        assert s[i] == s[..|s| - 1][i];
      }
    }
  }

  /** `str::trim`: drops leading and trailing whitespace. */
  function Trim(s: string): (r: string)
  {
    TrimEnd(TrimStart(s))
  }

  /** The trimmed string neither starts nor ends with whitespace, and it is
      empty exactly when the input is blank. */
  lemma TrimSpec(s: string)
    ensures Trim(s) == [] || (!IsWhitespace(Trim(s)[0]) && !IsWhitespace(Trim(s)[|Trim(s)| - 1]))
    ensures Trim(s) == [] <==> IsBlank(s)
  {
    var a := TrimStart(s);
    var r := TrimEnd(a);
    var i := |s| - |a|;
    TrimStartDropsBlank(s);
    TrimEndDropsBlank(a);
    if r != [] {
      assert r[0] == a[0];
      assert !IsWhitespace(s[i]);
    }
  }

  /** A string that neither starts nor ends with whitespace is its own trim. */
  lemma TrimIdentity(s: string)
    requires s == [] || (!IsWhitespace(s[0]) && !IsWhitespace(s[|s| - 1]))
    ensures Trim(s) == s
  {
  }

  function TrimStartChar(s: string, c: char): (r: string)
    ensures |r| <= |s| && r == s[|s| - |r|..]
    ensures r == [] || r[0] != c
  {
    if |s| > 0 && s[0] == c then TrimStartChar(s[1..], c) else s
  }

  function TrimEndChar(s: string, c: char): (r: string)
    ensures |r| <= |s| && r == s[..|r|]
    ensures r == [] || r[|r| - 1] != c
  {
    if |s| > 0 && s[|s| - 1] == c then TrimEndChar(s[..|s| - 1], c) else s
  }

  /** `str::trim_matches(c)`. */
  function TrimMatches(s: string, c: char): (r: string)
    ensures r == [] || (r[0] != c && r[|r| - 1] != c)
    ensures forall x :: x in r ==> x in s
  {
    var a := TrimStartChar(s, c);
    var r := TrimEndChar(a, c);
    assert forall x :: x in r ==> x in a;
    assert forall x :: x in a ==> x in s;
    r
  }

  // ---------------------------------------------------------------------------
  // Prefixes and searching (`starts_with`, `strip_prefix`, `find`)
  // ---------------------------------------------------------------------------

  predicate StartsWith(s: string, p: string)
  {
    |p| <= |s| && s[..|p|] == p
  }

  predicate EndsWith(s: string, p: string)
  {
    |p| <= |s| && s[|s| - |p|..] == p
  }

  /** `pat` occurs in `s` at index `j`. */
  predicate OccursAt(s: string, pat: string, j: int)
  {
    0 <= j && j + |pat| <= |s| && s[j..j + |pat|] == pat
  }

  predicate Contains(s: string, pat: string)
  {
    exists j | 0 <= j <= |s| :: OccursAt(s, pat, j)
  }

  function FindFrom(s: string, pat: string, i: nat): (r: Option<nat>)
    requires i <= |s|
    decreases |s| - i
    ensures r.Some? ==> i <= r.value && OccursAt(s, pat, r.value)
    ensures r.Some? ==> forall j :: i <= j < r.value ==> !OccursAt(s, pat, j)
    ensures r.None? ==> forall j :: i <= j ==> !OccursAt(s, pat, j)
  {
    if i + |pat| > |s| then None
    else if s[i..i + |pat|] == pat then Some(i)
    else FindFrom(s, pat, i + 1)
  }

  /** `str::find`: the first index at which `pat` occurs. */
  function Find(s: string, pat: string): (r: Option<nat>)
    ensures r.Some? ==> OccursAt(s, pat, r.value) && forall j :: 0 <= j < r.value ==> !OccursAt(s, pat, j)
    ensures r.None? <==> !Contains(s, pat)
  {
    FindFrom(s, pat, 0)
  }

  /** `find` reports the first occurrence. */
  lemma FindAt(s: string, pat: string, k: nat)
    requires OccursAt(s, pat, k)
    requires forall j :: 0 <= j < k ==> !OccursAt(s, pat, j)
    ensures Find(s, pat) == Some(k)
  {
    assert Contains(s, pat);
  }

  /** With no occurrence up to `k`, `find` reports none or a later one. */
  lemma FindNotBefore(s: string, pat: string, k: nat)
    requires forall j :: 0 <= j <= k ==> !OccursAt(s, pat, j)
    ensures Find(s, pat).None? || Find(s, pat).value > k
  {
  }

  // ---------------------------------------------------------------------------
  // Splitting and joining on one separator character (`str::split`)
  // ---------------------------------------------------------------------------

  /** `str::split(sep)`: always at least one piece, no piece holds `sep`. */
  function Split(s: string, sep: char): (parts: seq<string>)
    ensures |parts| >= 1
    ensures forall i :: 0 <= i < |parts| ==> sep !in parts[i]
  {
    if |s| == 0 then [""]
    else
      var rest := Split(s[1..], sep);
      if s[0] == sep then [""] + rest
      else [[s[0]] + rest[0]] + rest[1..]
  }

  function Join(parts: seq<string>, sep: char): string
    requires |parts| >= 1
  {
    if |parts| == 1 then parts[0] else parts[0] + [sep] + Join(parts[1..], sep)
  }

  /** Joining the pieces of a split gives back the string. */
  lemma {:induction false} JoinSplit(s: string, sep: char)
    ensures Join(Split(s, sep), sep) == s
  {
    if |s| > 0 {
      JoinSplit(s[1..], sep);
      var rest := Split(s[1..], sep);
      if s[0] == sep {
        assert ([""] + rest)[1..] == rest;
      } else if |rest| > 1 {
        var parts := [[s[0]] + rest[0]] + rest[1..];
        assert parts[1..] == rest[1..];
        assert Join(rest, sep) == rest[0] + [sep] + Join(rest[1..], sep);
        assert s == [s[0]] + s[1..];
      } else {
        assert s == [s[0]] + s[1..];
      }
    }
  }

  lemma {:induction false} SplitNoSeparator(a: string, sep: char)
    requires sep !in a
    ensures Split(a, sep) == [a]
  {
    if |a| > 0 {
      SplitNoSeparator(a[1..], sep);
      assert [a[0]] + a[1..] == a;
    }
  }

  lemma {:induction false} SplitAfterPiece(a: string, sep: char, b: string)
    requires sep !in a
    ensures Split(a + [sep] + b, sep) == [a] + Split(b, sep)
  {
    if |a| == 0 {
      assert a + [sep] + b == [sep] + b;
      assert ([sep] + b)[1..] == b;
    } else {
      SplitAfterPiece(a[1..], sep, b);
      assert (a + [sep] + b)[1..] == a[1..] + [sep] + b;
      assert [a[0]] + a[1..] == a;
    }
  }

  /** Splitting a join of separator-free pieces gives back the pieces. */
  lemma {:induction false} SplitJoin(parts: seq<string>, sep: char)
    requires |parts| >= 1
    requires forall i :: 0 <= i < |parts| ==> sep !in parts[i]
    ensures Split(Join(parts, sep), sep) == parts
  {
    if |parts| == 1 {
      SplitNoSeparator(parts[0], sep);
    } else {
      SplitJoin(parts[1..], sep);
      SplitAfterPiece(parts[0], sep, Join(parts[1..], sep));
      assert [parts[0]] + parts[1..] == parts;
    }
  }

  // ---------------------------------------------------------------------------
  // Replacement (`str::replace`: left to right, non-overlapping)
  // ---------------------------------------------------------------------------

  function ReplaceAll(s: string, pat: string, rep: string): (r: string)
    requires |pat| > 0
    ensures forall x :: x in r ==> x in s || x in rep
    ensures |pat| == 1 && pat[0] !in rep ==> pat[0] !in r
    ensures (forall j :: !OccursAt(s, pat, j)) ==> r == s
    decreases |s|
  {
    if |s| < |pat| then s
    else if s[..|pat|] == pat then
      assert OccursAt(s, pat, 0);
      rep + ReplaceAll(s[|pat|..], pat, rep)
    else
      var tail := ReplaceAll(s[1..], pat, rep);
      assert forall j :: OccursAt(s[1..], pat, j) ==> OccursAt(s, pat, j + 1) by {
        forall j | OccursAt(s[1..], pat, j) ensures OccursAt(s, pat, j + 1) {
          assert s[1..][j..j + |pat|] == s[j + 1..j + 1 + |pat|];
        }
      }
      assert |pat| == 1 ==> s[0] != pat[0] by {
        if |pat| == 1 { assert s[..1] == [s[0]]; }
      }
      assert s == [s[0]] + s[1..];
      [s[0]] + tail
  }

  /** A character that does not occur is never found. */
  lemma CharAbsent(s: string, c: char)
    requires c !in s
    ensures forall j :: !OccursAt(s, [c], j)
    ensures Find(s, [c]).None?
  {
    forall j
      ensures !OccursAt(s, [c], j)
    {
      if 0 <= j && j + 1 <= |s| {
        assert s[j..j + 1][0] == s[j];
      }
    }
    assert !Contains(s, [c]);
  }

  /** The first index at or after `i` holding `c`. */
  function IndexFrom(s: string, c: char, i: nat): (r: Option<nat>)
    requires i <= |s|
    ensures r.Some? ==> i <= r.value < |s| && s[r.value] == c
    decreases |s| - i
  {
    if i == |s| then None
    else if s[i] == c then Some(i)
    else IndexFrom(s, c, i + 1)
  }

  /** No index before the one found, nor any at all when none is found, holds `c`. */
  lemma {:induction false} IndexFromFirst(s: string, c: char, i: nat)
    requires i <= |s|
    ensures forall k :: i <= k < |s| && (IndexFrom(s, c, i).None? || k < IndexFrom(s, c, i).value) ==> s[k] != c
    decreases |s| - i
  {
    if i < |s| && s[i] != c {
      IndexFromFirst(s, c, i + 1);
    }
  }

  /** The first `c` at or after `i` is found. */
  lemma {:induction false} IndexFromAt(s: string, c: char, i: nat, k: nat)
    requires i <= k < |s| && s[k] == c
    requires forall m :: i <= m < k ==> s[m] != c
    ensures IndexFrom(s, c, i) == Some(k)
    decreases k - i
  {
    if i < k {
      IndexFromAt(s, c, i + 1, k);
    }
  }

  /** `s[i..].find(c)`, counted from the start of `s`. */
  lemma IndexFromFind(s: string, c: char, i: nat)
    requires i <= |s|
    ensures IndexFrom(s, c, i) == (match Find(s[i..], [c]) case Some(e) => Some(i + e) case None => None)
  {
    var t := s[i..];
    forall j
      ensures OccursAt(t, [c], j) <==> 0 <= j < |t| && s[i + j] == c
    {
      if 0 <= j < |t| {
        assert t[j..j + 1] == [s[i + j]];
      }
    }
    IndexFromFirst(s, c, i);
    match IndexFrom(s, c, i) {
      case None =>
        assert !Contains(t, [c]);
      case Some(k) =>
        assert OccursAt(t, [c], k - i);
        assert Contains(t, [c]);
    }
  }

  /** Replacing a character that does not occur changes nothing. */
  lemma ReplaceCharAbsent(s: string, c: char, rep: string)
    requires c !in s
    ensures ReplaceAll(s, [c], rep) == s
  {
    CharAbsent(s, c);
  }

  /** Replacing a single character works piece by piece. */
  lemma {:induction false} ReplaceCharConcat(s: string, t: string, c: char, rep: string)
    ensures ReplaceAll(s + t, [c], rep) == ReplaceAll(s, [c], rep) + ReplaceAll(t, [c], rep)
    decreases |s|
  {
    if |s| == 0 {
      assert s + t == t;
    } else {
      assert (s + t)[..1] == s[..1] && (s + t)[1..] == s[1..] + t;
      ReplaceCharConcat(s[1..], t, c, rep);
    }
  }

  // ---------------------------------------------------------------------------
  // Decimal numbers (`str::parse::<usize>`, `usize::to_string`)
  // ---------------------------------------------------------------------------

  predicate IsDigit(c: char)
  {
    '0' <= c <= '9'
  }

  predicate AllDigits(s: string)
  {
    forall i :: 0 <= i < |s| ==> IsDigit(s[i])
  }

  function DigitsValue(s: string): nat
    requires AllDigits(s)
  {
    if |s| == 0 then 0 else DigitsValue(s[..|s| - 1]) * 10 + (s[|s| - 1] as int - '0' as int)
  }

  /** `part.parse::<usize>()`: an optional `+` and one or more ASCII digits.
      Values too large for `usize` are out of range of every array anyway, so the
      bound is not modelled. */
  function ParseIndex(s: string): (r: Option<nat>)
    ensures r.Some? ==> |s| > 0
  {
    var digits := if |s| > 0 && s[0] == '+' then s[1..] else s;
    if |digits| > 0 && AllDigits(digits) then Some(DigitsValue(digits)) else None
  }

  function DigitChar(d: nat): char
    requires d < 10
  {
    ('0' as int + d) as char
  }

  /** Decimal text of a natural number, as `format!("{}", n)` writes it. */
  function NatToString(n: nat): (r: string)
    ensures |r| > 0 && AllDigits(r)
  {
    if n < 10 then [DigitChar(n)] else NatToString(n / 10) + [DigitChar(n % 10)]
  }

  lemma {:induction false} DigitsOfNat(n: nat)
    ensures DigitsValue(NatToString(n)) == n
  {
    if n >= 10 {
      DigitsOfNat(n / 10);
      var s := NatToString(n);
      assert s[..|s| - 1] == NatToString(n / 10);
    }
  }

  /** Index text round-trips: the decimal text of `n` parses back to `n`. */
  lemma ParseNatToString(n: nat)
    ensures ParseIndex(NatToString(n)) == Some(n)
  {
    DigitsOfNat(n);
  }

  // ---------------------------------------------------------------------------
  // ASCII case-insensitive comparison (`str::eq_ignore_ascii_case`)
  // ---------------------------------------------------------------------------

  function AsciiLower(c: char): char
  {
    if 'A' <= c <= 'Z' then (c as int + 32) as char else c
  }

  predicate EqIgnoreAsciiCase(a: string, b: string)
  {
    |a| == |b| && forall i :: 0 <= i < |a| ==> AsciiLower(a[i]) == AsciiLower(b[i])
  }

  // ---------------------------------------------------------------------------
  // String order and sorted sets (`BTreeSet<String>`)
  // ---------------------------------------------------------------------------

  /** `String`'s `Ord`: lexicographic by scalar value. */
  predicate Less(a: string, b: string)
  {
    if |a| == 0 then |b| > 0
    else if |b| == 0 then false
    else a[0] < b[0] || (a[0] == b[0] && Less(a[1..], b[1..]))
  }

  lemma {:induction false} LessIrreflexive(a: string)
    ensures !Less(a, a)
  {
    if |a| > 0 { LessIrreflexive(a[1..]); }
  }

  lemma {:induction false} LessTransitive(a: string, b: string, c: string)
    requires Less(a, b) && Less(b, c)
    ensures Less(a, c)
  {
    if |a| > 0 && |b| > 0 && |c| > 0 && a[0] == b[0] == c[0] {
      LessTransitive(a[1..], b[1..], c[1..]);
    }
  }

  lemma {:induction false} LessTotal(a: string, b: string)
    requires a != b
    ensures Less(a, b) || Less(b, a)
  {
    if |a| > 0 && |b| > 0 && a[0] == b[0] {
      assert a == [a[0]] + a[1..] && b == [b[0]] + b[1..];
      LessTotal(a[1..], b[1..]);
    }
  }

  predicate Sorted(xs: seq<string>)
  {
    forall i, j :: 0 <= i < j < |xs| ==> Less(xs[i], xs[j])
  }

  /** `BTreeSet::insert` on the set's ordered contents. */
  function InsertSorted(xs: seq<string>, x: string): (r: seq<string>)
    requires Sorted(xs)
    ensures Sorted(r)
    ensures forall y :: y in r <==> y in xs || y == x
  {
    if |xs| == 0 then [x]
    else if x == xs[0] then xs
    else if Less(x, xs[0]) then
      assert forall j :: 0 <= j < |xs| ==> Less(x, xs[j]) by {
        forall j | 0 <= j < |xs| ensures Less(x, xs[j]) {
          if j > 0 { LessTransitive(x, xs[0], xs[j]); }
        }
      }
      [x] + xs
    else
      LessTotal(x, xs[0]);
      var tail := InsertSorted(xs[1..], x);
      assert forall y :: y in tail ==> Less(xs[0], y) by {
        forall y | y in tail ensures Less(xs[0], y) {
          if y != x { assert y in xs[1..]; }
        }
      }
      [xs[0]] + tail
  }
}

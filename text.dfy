/**
  The string builtins of Python that the agent's heuristics rely on, on ASCII text:
  `str.lower`, the substring test `in`, `str.strip`, `str.split()`, `re.findall` with a
  character class, and `str(n)` for a natural number.
 */
module Text {

  /** The characters for which Python's `str.isspace()` holds, in the ASCII range.
      `str.split()`, `str.strip()` and the regular-expression class `\s` all use this set. */
  const Whitespace: set<char> :=
    {' ', '\t', '\n', '\r', '\U{B}', '\U{C}', '\U{1C}', '\U{1D}', '\U{1E}', '\U{1F}'}

  // ---------------------------------------------------------------------------------------
  // Case folding

  predicate IsUpper(c: char) {
    'A' <= c <= 'Z'
  }

  function LowerChar(c: char): (r: char)
    ensures !IsUpper(r)
    ensures IsUpper(c) ==> r as int == c as int + 32
    ensures !IsUpper(c) ==> r == c
  {
    if IsUpper(c) then (c as int + 32) as char else c
  }

  /** `s.lower()`: every ASCII capital replaced by its small letter, nothing else touched. */
  function Lower(s: string): (r: string)
    ensures |r| == |s|
    ensures forall i :: 0 <= i < |s| ==> r[i] == LowerChar(s[i])
  {
    seq(|s|, i requires 0 <= i < |s| => LowerChar(s[i]))
  }

  // ---------------------------------------------------------------------------------------
  // Substring search

  /** `sub` occurs in `s` starting at position `i`. */
  predicate OccursAt(s: string, sub: string, i: int) {
    0 <= i <= |s| - |sub| && s[i..i + |sub|] == sub
  }

  /** Python's `sub in s` on strings. */
  predicate Contains(s: string, sub: string) {
    exists i :: 0 <= i <= |s| - |sub| && OccursAt(s, sub, i)
  }

  /** `any(k in s for k in keys)`. */
  predicate ContainsAny(s: string, keys: seq<string>) {
    exists k :: 0 <= k < |keys| && Contains(s, keys[k])
  }

  // ---------------------------------------------------------------------------------------
  // Stripping

  /** `s.lstrip(chars)`: `s` without its leading characters of `cs`. */
  function StripLeft(s: string, cs: set<char>): (r: string)
    ensures |r| <= |s|
    decreases |s|
  {
    if s != [] && s[0] in cs then StripLeft(s[1..], cs) else s
  }

  /** `s.rstrip(chars)`: `s` without its trailing characters of `cs`. */
  function StripRight(s: string, cs: set<char>): (r: string)
    ensures |r| <= |s|
    decreases |s|
  {
    if s != [] && s[|s| - 1] in cs then StripRight(s[..|s| - 1], cs) else s
  }

  /** `StripLeft` gives the longest suffix of `s` that does not start with one of `cs`. */
  lemma {:induction false} StripLeftSpec(s: string, cs: set<char>)
    ensures var r := StripLeft(s, cs);
      && r == s[|s| - |r|..]
      && (forall k :: 0 <= k < |s| - |r| ==> s[k] in cs)
      && (r == [] || r[0] !in cs)
    decreases |s|
  {
    if s != [] && s[0] in cs {
      var t := s[1..];
      StripLeftSpec(t, cs);
      var r := StripLeft(s, cs);
      assert r == StripLeft(t, cs);
      assert t[|t| - |r|..] == s[|s| - |r|..];
      forall k | 0 < k < |s| - |r| ensures s[k] in cs {
        assert s[k] == t[k - 1];
      }
    }
  }

  /** `StripRight` gives the longest prefix of `s` that does not end with one of `cs`. */
  lemma {:induction false} StripRightSpec(s: string, cs: set<char>)
    ensures var r := StripRight(s, cs);
      && r == s[..|r|]
      && (forall k :: |r| <= k < |s| ==> s[k] in cs)
      && (r == [] || r[|r| - 1] !in cs)
    decreases |s|
  {
    if s != [] && s[|s| - 1] in cs {
      var t := s[..|s| - 1];
      StripRightSpec(t, cs);
      var r := StripRight(s, cs);
      assert r == StripRight(t, cs);
      assert t[..|r|] == s[..|r|];
      forall k | |r| <= k < |s| - 1 ensures s[k] in cs {
        assert s[k] == t[k];
      }
    }
  }

  /** `s.strip(chars)`. */
  function Strip(s: string, cs: set<char>): string {
    StripRight(StripLeft(s, cs), cs)
  }

  /** `r` is what remains of `s` once the first `i` characters and the characters after
      `r` are cut away, and every character cut away belongs to `cs`. */
  ghost predicate TrimmedAt(s: string, cs: set<char>, r: string, i: int) {
    && 0 <= i <= |s| - |r| && r == s[i..i + |r|]
    && (forall k :: 0 <= k < i ==> s[k] in cs)
    && (forall k :: i + |r| <= k < |s| ==> s[k] in cs)
  }

  /** `Strip(s, cs)` is the slice of `s` left once every character of `cs` is removed from
      both ends: only characters of `cs` were cut, and the result neither starts nor ends
      with one. */
  lemma StripIsTrimmedSlice(s: string, cs: set<char>)
    ensures exists i :: TrimmedAt(s, cs, Strip(s, cs), i)
    ensures var r := Strip(s, cs); r == [] || (r[0] !in cs && r[|r| - 1] !in cs)
  {
    var l := StripLeft(s, cs);
    var r := StripRight(l, cs);
    StripLeftSpec(s, cs);
    StripRightSpec(l, cs);
    var i := |s| - |l|;
    assert l == s[i..] && r == l[..|r|];
    SliceOfSuffix(s, i, |r|);
    forall k | i + |r| <= k < |s| ensures s[k] in cs {
      assert s[k] == l[k - i];
    }
    if r != [] {
      assert r[0] == l[0];
    }
    assert Strip(s, cs) == r && TrimmedAt(s, cs, r, i);
  }

  lemma AppendAssoc<T>(x: seq<T>, y: seq<T>, z: seq<T>)
    ensures (x + y) + z == x + (y + z)
  {
  }

  /** A prefix of a suffix is a slice. */
  lemma SliceOfSuffix<T>(s: seq<T>, i: int, m: int)
    requires 0 <= i <= |s| && 0 <= m <= |s| - i
    ensures s[i..][..m] == s[i..i + m]
  {
  }

  /** A character of the stripped string is a character of the original. */
  lemma StripChars(s: string, cs: set<char>, k: nat)
    requires k < |Strip(s, cs)|
    ensures exists j :: 0 <= j < |s| && Strip(s, cs)[k] == s[j]
  {
    StripIsTrimmedSlice(s, cs);
    var i :| TrimmedAt(s, cs, Strip(s, cs), i);
    assert Strip(s, cs)[k] == s[i + k];
  }

  // ---------------------------------------------------------------------------------------
  // Maximal runs of a character class: `str.split()` and `re.findall("[...]+", s)`

  /** A regular-expression character class `[...]` or its complement `[^...]`. */
  datatype CharClass = Among(chars: set<char>) | NotAmong(chars: set<char>) {
    predicate Has(c: char) {
      if Among? then c in chars else c !in chars
    }
  }

  /** The length of the longest prefix of `s` made of characters of `cls`. */
  function SpanLength(s: string, cls: CharClass): (n: nat)
    ensures n <= |s|
    ensures forall k :: 0 <= k < n ==> cls.Has(s[k])
    ensures n == |s| || !cls.Has(s[n])
    decreases |s|
  {
    if s != [] && cls.Has(s[0]) then 1 + SpanLength(s[1..], cls) else 0
  }

  /** The maximal runs of characters of `cls` in `s`, left to right. This is what
      `re.findall` returns for the pattern `[...]+`, and, for the complement of
      whitespace, what `s.split()` returns. */
  function Runs(s: string, cls: CharClass): (rs: seq<string>)
    ensures forall k :: 0 <= k < |rs| ==> |rs[k]| > 0
    ensures forall k, j :: 0 <= k < |rs| && 0 <= j < |rs[k]| ==> cls.Has(rs[k][j])
    decreases |s|
  {
    if s == [] then []
    else if !cls.Has(s[0]) then Runs(s[1..], cls)
    else
      var n := SpanLength(s, cls);
      [s[..n]] + Runs(s[n..], cls)
  }

  /** `Runs` on a string that starts outside the class. */
  lemma RunsSkip(s: string, cls: CharClass)
    requires s != [] && !cls.Has(s[0])
    ensures Runs(s, cls) == Runs(s[1..], cls)
  {
  }

  /** `Runs` on a string that starts inside the class. */
  lemma RunsTake(s: string, cls: CharClass)
    requires s != [] && cls.Has(s[0])
    ensures var n := SpanLength(s, cls);
      Runs(s, cls) == [s[..n]] + Runs(s[n..], cls)
  {
  }

  /** There are no runs exactly when no character of `s` belongs to the class. */
  lemma {:induction false} RunsEmptyIff(s: string, cls: CharClass)
    ensures Runs(s, cls) == [] <==> forall k :: 0 <= k < |s| ==> !cls.Has(s[k])
    decreases |s|
  {
    if s != [] && !cls.Has(s[0]) {
      RunsEmptyIff(s[1..], cls);
      if Runs(s, cls) == [] {
        forall k | 0 <= k < |s| ensures !cls.Has(s[k]) {
          if k > 0 {
            assert s[k] == s[1..][k - 1];
          }
        }
      } else {
        var r := Runs(s, cls)[0];
        assert cls.Has(r[0]);
        RunsAreMaximal(s, cls, 0);
      }
    }
  }

  /** `s.split()` with no separator. */
  function Words(s: string): seq<string> {
    Runs(s, NotAmong(Whitespace))
  }

  /** The characters of `s` that belong to `cls`, in order. */
  function Keep(s: string, cls: CharClass): string
    decreases |s|
  {
    if s == [] then [] else (if cls.Has(s[0]) then [s[0]] else []) + Keep(s[1..], cls)
  }

  function Concat(xs: seq<string>): string
    decreases |xs|
  {
    if xs == [] then [] else xs[0] + Concat(xs[1..])
  }

  lemma {:induction false} KeepAppend(a: string, b: string, cls: CharClass)
    ensures Keep(a + b, cls) == Keep(a, cls) + Keep(b, cls)
    decreases |a|
  {
    if a != [] {
      var h := if cls.Has(a[0]) then [a[0]] else [];
      assert (a + b)[0] == a[0] && (a + b)[1..] == a[1..] + b;
      assert Keep(a + b, cls) == h + Keep(a[1..] + b, cls);
      KeepAppend(a[1..], b, cls);
      AppendAssoc(h, Keep(a[1..], cls), Keep(b, cls));
    } else {
      assert a + b == b;
    }
  }

  lemma {:induction false} KeepWithin(s: string, cls: CharClass)
    requires forall k :: 0 <= k < |s| ==> cls.Has(s[k])
    ensures Keep(s, cls) == s
    decreases |s|
  {
    if s != [] {
      KeepWithin(s[1..], cls);
    }
  }

  /** Joined together, the runs are exactly the characters of the class, in order:
      nothing is lost, duplicated or reordered. */
  lemma {:induction false} RunsCoverClass(s: string, cls: CharClass)
    ensures Concat(Runs(s, cls)) == Keep(s, cls)
    decreases |s|
  {
    if s == [] {
    } else if !cls.Has(s[0]) {
      RunsCoverClass(s[1..], cls);
    } else {
      var n := SpanLength(s, cls);
      var rs := Runs(s, cls);
      assert rs == [s[..n]] + Runs(s[n..], cls);
      assert rs[1..] == Runs(s[n..], cls);
      RunsCoverClass(s[n..], cls);
      assert s == s[..n] + s[n..];
      KeepAppend(s[..n], s[n..], cls);
      KeepWithin(s[..n], cls);
    }
  }

  /** `s[i..j]` is a maximal run of `cls`: non-empty, inside the class, and not extendable
      to the left or to the right. */
  ghost predicate IsMaximalRun(s: string, cls: CharClass, i: int, j: int) {
    && 0 <= i < j <= |s|
    && (forall k :: i <= k < j ==> cls.Has(s[k]))
    && (i == 0 || !cls.Has(s[i - 1]))
    && (j == |s| || !cls.Has(s[j]))
  }

  lemma MaximalRunShift(s: string, cls: CharClass, d: nat, i: int, j: int)
    requires 0 < d <= |s|
    requires IsMaximalRun(s[d..], cls, i, j)
    requires i > 0 || !cls.Has(s[d - 1])
    ensures IsMaximalRun(s, cls, i + d, j + d) && s[d..][i..j] == s[i + d..j + d]
  {
    forall k | i + d <= k < j + d ensures cls.Has(s[k]) {
      assert s[k] == s[d..][k - d];
    }
    if i > 0 {
      assert s[i + d - 1] == s[d..][i - 1];
    }
    if j + d < |s| {
      assert s[j + d] == s[d..][j];
    }
  }

  /** Every run returned is a maximal run of `s`. */
  lemma {:induction false} RunsAreMaximal(s: string, cls: CharClass, k: nat)
    requires k < |Runs(s, cls)|
    ensures exists i, j :: IsMaximalRun(s, cls, i, j) && Runs(s, cls)[k] == s[i..j]
    decreases |s|
  {
    if !cls.Has(s[0]) {
      RunsAreMaximal(s[1..], cls, k);
      var i, j :| IsMaximalRun(s[1..], cls, i, j) && Runs(s[1..], cls)[k] == s[1..][i..j];
      MaximalRunShift(s, cls, 1, i, j);
    } else {
      var n := SpanLength(s, cls);
      if k == 0 {
        assert IsMaximalRun(s, cls, 0, n);
      } else {
        var rest := Runs(s[n..], cls);
        assert Runs(s, cls)[k] == rest[k - 1];
        RunsAreMaximal(s[n..], cls, k - 1);
        var i, j :| IsMaximalRun(s[n..], cls, i, j) && rest[k - 1] == s[n..][i..j];
        if i == 0 {
          assert false;
        }
        MaximalRunShift(s, cls, n, i, j);
      }
    }
  }

  /** Every maximal run of `s` is among the runs returned. */
  lemma MaximalRunsAreRuns(s: string, cls: CharClass, i: int, j: int)
    requires IsMaximalRun(s, cls, i, j)
    ensures s[i..j] in Runs(s, cls)
  {
    MaximalRunInSuffix(s, cls, 0, i, j);
    assert s[0..] == s;
  }

  /** A maximal run of `s` that starts at or after `d` is among the runs of `s[d..]`. */
  lemma {:induction false} MaximalRunInSuffix(s: string, cls: CharClass, d: int, i: int, j: int)
    requires IsMaximalRun(s, cls, i, j) && 0 <= d <= i
    ensures s[i..j] in Runs(s[d..], cls)
    decreases |s| - d, 1
  {
    if !cls.Has(s[d]) {
      var _ := RunsOfSuffix(s, cls, d);
      assert d < i by {
        assert cls.Has(s[i]);
      }
      MaximalRunInSuffix(s, cls, d + 1, i, j);
    } else if d == i {
      var n := RunsOfSuffix(s, cls, d);
      SpanOfMaximalRun(s, cls, i, j);
      assert s[d..d + n] == s[i..j];
    } else {
      MaximalRunAfterSpan(s, cls, d, i, j);
    }
  }

  /** The case of `MaximalRunInSuffix` where the run starts after the span at `d`. */
  lemma {:induction false} MaximalRunAfterSpan(s: string, cls: CharClass, d: int, i: int, j: int)
    requires IsMaximalRun(s, cls, i, j) && 0 <= d < i && cls.Has(s[d])
    ensures s[i..j] in Runs(s[d..], cls)
    decreases |s| - d, 0
  {
    var n := RunsOfSuffix(s, cls, d);
    assert d + n < i;
    MaximalRunInSuffix(s, cls, d + n, i, j);
    assert s[i..j] in Runs(s[d + n..], cls);
  }

  /** `Runs` on the suffix `s[d..]`, one step unfolded, with `n` the length of the span of
      the class at `d` (zero when `s[d]` is outside it). */
  lemma RunsOfSuffix(s: string, cls: CharClass, d: int) returns (n: nat)
    requires 0 <= d < |s|
    ensures n == SpanLength(s[d..], cls) && d + n <= |s|
    ensures !cls.Has(s[d]) ==> n == 0 && Runs(s[d..], cls) == Runs(s[d + 1..], cls)
    ensures cls.Has(s[d]) ==> n > 0 && Runs(s[d..], cls) == [s[d..d + n]] + Runs(s[d + n..], cls)
  {
    var t := s[d..];
    n := SpanLength(t, cls);
    assert t[0] == s[d];
    if cls.Has(s[d]) {
      RunsTake(t, cls);
      assert t[..n] == s[d..d + n];
      assert t[n..] == s[d + n..];
    } else {
      RunsSkip(t, cls);
      assert t[1..] == s[d + 1..];
    }
  }

  /** The span of the class that starts a maximal run is the whole run. */
  lemma SpanOfMaximalRun(s: string, cls: CharClass, i: int, j: int)
    requires IsMaximalRun(s, cls, i, j)
    ensures SpanLength(s[i..], cls) == j - i
  {
    var t := s[i..];
    var n := SpanLength(t, cls);
    assert n == j - i;
  }

  // ---------------------------------------------------------------------------------------
  // `max(xs, key=len)`

  /** The position of the value `max(xs, key=len)` returns: a longest element, and the first
      of them, since Python's `max` keeps the earlier of two equal keys. */
  function LongestIndex(xs: seq<string>): (k: nat)
    requires |xs| > 0
    ensures k < |xs|
    ensures forall j :: 0 <= j < |xs| ==> |xs[j]| <= |xs[k]|
    ensures forall j :: 0 <= j < k ==> |xs[j]| < |xs[k]|
    decreases |xs|
  {
    if |xs| == 1 then 0
    else
      var k := LongestIndex(xs[1..]);
      if |xs[k + 1]| > |xs[0]| then k + 1 else 0
  }

  // ---------------------------------------------------------------------------------------
  // Decimal notation: `str(n)` for a natural number

  predicate IsDigit(c: char) {
    '0' <= c <= '9'
  }

  function DigitChar(d: nat): (c: char)
    requires d < 10
    ensures IsDigit(c) && c as int - '0' as int == d
  {
    ('0' as int + d) as char
  }

  /** `str(n)`: the decimal digits of `n`, without leading zeros. */
  function NatToString(n: nat): (r: string)
    ensures |r| > 0
    ensures forall k :: 0 <= k < |r| ==> IsDigit(r[k])
    ensures |r| > 1 ==> r[0] != '0'
  {
    if n < 10 then [DigitChar(n)] else NatToString(n / 10) + [DigitChar(n % 10)]
  }

  /** The number a string of decimal digits denotes. */
  function ParseDecimal(s: string): nat
    requires forall k :: 0 <= k < |s| ==> IsDigit(s[k])
    decreases |s|
  {
    if s == [] then 0
    else ParseDecimal(s[..|s| - 1]) * 10 + DigitValue(s[|s| - 1])
  }

  function DigitValue(c: char): nat
    requires IsDigit(c)
  {
    c as int - '0' as int
  }

  /** Reading back the decimal notation gives the number. */
  lemma {:induction false} ParseNatToString(n: nat)
    ensures ParseDecimal(NatToString(n)) == n
  {
    var r := NatToString(n);
    if n >= 10 {
      assert r[..|r| - 1] == NatToString(n / 10);
      ParseNatToString(n / 10);
    }
  }

  /** Different numbers have different decimal notations. */
  lemma NatToStringInjective(a: nat, b: nat)
    requires NatToString(a) == NatToString(b)
    ensures a == b
  {
    ParseNatToString(a);
    ParseNatToString(b);
  }
}

/** Strings: splitting a path, stripping, lower case, decimal numerals, the order by characters, and names that are new to a finite set. */
module Text {

  function Split(s: string, sep: char): (parts: seq<string>)
    ensures parts != []
  {
    if s == "" then [""]
    else if s[0] == sep then [""] + Split(s[1..], sep)
    else
      var rest := Split(s[1..], sep);
      [[s[0]] + rest[0]] + rest[1..]
  }

  lemma {:induction false} SplitParts(s: string, sep: char)
    ensures forall i :: 0 <= i < |Split(s, sep)| ==> sep !in Split(s, sep)[i]
  {
    if s != "" { SplitParts(s[1..], sep); }
  }

  lemma {:induction false} SplitKeepsOut(s: string, sep: char, c: char)
    requires c !in s
    ensures forall i :: 0 <= i < |Split(s, sep)| ==> c !in Split(s, sep)[i]
  {
    if s != "" { SplitKeepsOut(s[1..], sep, c); }
  }

  lemma {:induction false} SplitPlain(s: string, sep: char)
    requires sep !in s
    ensures Split(s, sep) == [s]
  {
    if s != "" {
      SplitPlain(s[1..], sep);
      assert [s[0]] + s[1..] == s;
    }
  }

  lemma {:induction false} SplitPrefix(a: string, rest: string, sep: char)
    requires sep !in a
    ensures Split(a + [sep] + rest, sep) == [a] + Split(rest, sep)
  {
    var s := a + [sep] + rest;
    if a == "" {
      assert s[1..] == rest;
    } else {
      assert s[1..] == a[1..] + [sep] + rest;
      SplitPrefix(a[1..], rest, sep);
      assert [a[0]] + a[1..] == a;
    }
  }

  lemma {:induction false} SplitSuffix(s: string, last: string, sep: char)
    requires sep !in last
    ensures Split(s + [sep] + last, sep) == Split(s, sep) + [last]
  {
    var whole := s + [sep] + last;
    if s == "" {
      assert whole[1..] == last;
      SplitPlain(last, sep);
    } else {
      assert whole[1..] == s[1..] + [sep] + last;
      SplitSuffix(s[1..], last, sep);
    }
  }

  /** What stands between separators, from `p` to `q`. */
  predicate PartAt(s: string, sep: char, p: int, q: int) {
    && 0 <= p <= q <= |s| && (p == 0 || s[p - 1] == sep) && (q == |s| || s[q] == sep)
    && forall i :: p <= i < q ==> s[i] != sep
  }

  /** The first part, and how the rest lies behind it. */
  lemma {:induction false} FirstPart(s: string, sep: char) returns (q: nat)
    ensures PartAt(s, sep, 0, q)
    ensures Split(s, sep) == if q == |s| then [s] else [s[..q]] + Split(s[q + 1..], sep)
  {
    q := 0;
    while q < |s| && s[q] != sep
      invariant q <= |s|
      invariant forall i :: 0 <= i < q ==> s[i] != sep
    {
      q := q + 1;
    }
    if q == |s| {
      SplitPlain(s, sep);
    } else {
      SplitPrefix(s[..q], s[q + 1..], sep);
      assert s == s[..q] + [sep] + s[q + 1..];
    }
  }

  lemma NoSeparatorInside(s: string, sep: char, p: int, q: int, i: int)
    requires PartAt(s, sep, p, q) && p <= i < q
    ensures q <= |s| && s[i] != sep
  {
  }

  /** Of the parts that begin at the front there is one, and every other lies behind it. */
  lemma OneFirstPart(s: string, sep: char, q0: nat, p: nat, q: nat)
    requires PartAt(s, sep, 0, q0) && PartAt(s, sep, p, q)
    ensures (p == 0 && q == q0) || p > q0
  {
    PartBounds(s, sep, 0, q0);
    PartBounds(s, sep, p, q);
    hide PartAt;
    if 0 < p <= q0 {
      NoSeparatorInside(s, sep, 0, q0, p - 1);
    } else if p == 0 && q < q0 {
      NoSeparatorInside(s, sep, 0, q0, q);
    } else if p == 0 && q0 < q {
      NoSeparatorInside(s, sep, 0, q, q0);
    }
  }

  lemma PartBounds(s: string, sep: char, p: nat, q: nat)
    requires PartAt(s, sep, p, q)
    ensures p <= q <= |s| && (p == 0 || s[p - 1] == sep) && (q == |s| || s[q] == sep)
  {
  }

  lemma PartBehind(s: string, sep: char, q0: nat, p: nat, q: nat)
    requires q0 < p <= q && q0 < |s| && s[q0] == sep
    ensures PartAt(s, sep, p, q) <==> PartAt(s[q0 + 1..], sep, p - q0 - 1, q - q0 - 1)
    ensures PartAt(s, sep, p, q) ==> s[q0 + 1..][p - q0 - 1..q - q0 - 1] == s[p..q]
  {
    if q <= |s| {
      assert forall i :: p <= i < q ==> s[i] == s[q0 + 1..][i - q0 - 1];
    }
  }

  ghost predicate HasPart(s: string, sep: char, part: string) {
    exists p: nat, q: nat :: PartAt(s, sep, p, q) && s[p..q] == part
  }

  lemma PartBehindFirst(s: string, sep: char, q0: nat, part: string)
    requires PartAt(s, sep, 0, q0)
    ensures HasPart(s, sep, part) <==> s[..q0] == part || (q0 < |s| && HasPart(s[q0 + 1..], sep, part))
  {
    assert s[0..q0] == s[..q0];
    if s[..q0] == part {
      assert HasPart(s, sep, part);
    } else if q0 < |s| && HasPart(s[q0 + 1..], sep, part) {
      var p: nat, q: nat :| PartAt(s[q0 + 1..], sep, p, q) && s[q0 + 1..][p..q] == part;
      PartBehind(s, sep, q0, p + q0 + 1, q + q0 + 1);
    } else if HasPart(s, sep, part) {
      var p: nat, q: nat :| PartAt(s, sep, p, q) && s[p..q] == part;
      OneFirstPart(s, sep, q0, p, q);
      if p > q0 { PartBehind(s, sep, q0, p, q); }
    }
  }

  /** The parts of a string are what stands between its separators. */
  lemma {:induction false} PartsExactly(s: string, sep: char, part: string)
    ensures part in Split(s, sep) <==> HasPart(s, sep, part)
    decreases |s|
  {
    var q0 := FirstPart(s, sep);
    PartBehindFirst(s, sep, q0, part);
    hide Split;
    hide HasPart;
    if q0 == |s| {
      assert s[..q0] == s;
    } else {
      PartsExactly(s[q0 + 1..], sep, part);
    }
  }

  ghost predicate FirstPartIs(s: string, sep: char, part: string) { exists q: nat :: PartAt(s, sep, 0, q) && s[..q] == part }

  ghost predicate LastPartIs(s: string, sep: char, part: string) { exists p: nat :: PartAt(s, sep, p, |s|) && s[p..] == part }

  lemma LastBehindFirst(s: string, sep: char, q0: nat, part: string)
    requires PartAt(s, sep, 0, q0)
    ensures LastPartIs(s, sep, part) <==> if q0 == |s| then s == part else LastPartIs(s[q0 + 1..], sep, part)
  {
    if q0 == |s| {
      if LastPartIs(s, sep, part) {
        var p: nat :| PartAt(s, sep, p, |s|) && s[p..] == part;
        OneFirstPart(s, sep, q0, p, |s|);
      }
      assert s[0..] == s;
    } else {
      var rest := s[q0 + 1..];
      if LastPartIs(rest, sep, part) {
        var p: nat :| PartAt(rest, sep, p, |rest|) && rest[p..] == part;
        PartBehind(s, sep, q0, p + q0 + 1, |s|);
        assert s[p + q0 + 1..] == rest[p..];
      }
      if LastPartIs(s, sep, part) {
        var p: nat :| PartAt(s, sep, p, |s|) && s[p..] == part;
        OneFirstPart(s, sep, q0, p, |s|);
        PartBehind(s, sep, q0, p, |s|);
        assert s[p..] == rest[p - q0 - 1..];
      }
    }
  }

  /** The first of the parts, and the last. */
  lemma {:induction false} EndParts(s: string, sep: char, part: string)
    ensures Split(s, sep)[0] == part <==> FirstPartIs(s, sep, part)
    ensures Split(s, sep)[|Split(s, sep)| - 1] == part <==> LastPartIs(s, sep, part)
    decreases |s|
  {
    var q0 := FirstPart(s, sep);
    hide Split;
    LastBehindFirst(s, sep, q0, part);
    assert FirstPartIs(s, sep, part) <==> s[..q0] == part by {
      if FirstPartIs(s, sep, part) {
        var q: nat :| PartAt(s, sep, 0, q) && s[..q] == part;
        OneFirstPart(s, sep, q0, 0, q);
      }
    }
    hide PartAt;
    hide FirstPartIs;
    hide LastPartIs;
    if q0 == |s| {
      assert s[..q0] == s;
    } else {
      EndParts(s[q0 + 1..], sep, part);
    }
  }

  /** Where the last component of a path begins. */
  function BaseStart(name: string): (i: nat)
    ensures i <= |name|
  {
    if name == "" then 0 else if name[|name| - 1] == '/' then |name| else BaseStart(name[..|name| - 1])
  }

  function StripLeft(s: string, space: char -> bool): string {
    if s != "" && space(s[0]) then StripLeft(s[1..], space) else s
  }

  function StripRight(s: string, space: char -> bool): string {
    if s != "" && space(s[|s| - 1]) then StripRight(s[..|s| - 1], space) else s
  }

  /** Without white space at either end. */
  function Strip(s: string, space: char -> bool): string { StripRight(StripLeft(s, space), space) }

  lemma {:induction false} StripLeftKeepsOut(s: string, c: char, space: char -> bool)
    requires c !in s
    ensures c !in StripLeft(s, space)
  {
    if s != "" { StripLeftKeepsOut(s[1..], c, space); }
  }

  lemma {:induction false} StripRightKeepsOut(s: string, c: char, space: char -> bool)
    requires c !in s
    ensures c !in StripRight(s, space)
  {
    if s != "" { StripRightKeepsOut(s[..|s| - 1], c, space); }
  }

  lemma StripKeepsOut(s: string, c: char, space: char -> bool)
    requires c !in s
    ensures c !in Strip(s, space)
  {
    StripLeftKeepsOut(s, c, space);
    StripRightKeepsOut(StripLeft(s, space), c, space);
  }

  /** What is left of a string without white space at its ends. */
  predicate CoreAt(text: string, i: int, j: int, space: char -> bool) {
    && 0 <= i <= j <= |text|
    && (forall k :: 0 <= k < i ==> space(text[k])) && (forall k :: j <= k < |text| ==> space(text[k]))
    && (i < j ==> !space(text[i]) && !space(text[j - 1]))
  }

  ghost predicate IsCore(text: string, core: string, space: char -> bool) {
    exists i: int, j: int :: CoreAt(text, i, j, space) && core == text[i..j]
  }

  lemma {:induction false} LeftEnd(s: string, space: char -> bool) returns (i: nat)
    ensures i <= |s| && StripLeft(s, space) == s[i..]
    ensures (forall k :: 0 <= k < i ==> space(s[k])) && (i < |s| ==> !space(s[i]))
  {
    if s != "" && space(s[0]) {
      var i' := LeftEnd(s[1..], space);
      i := i' + 1;
      assert forall k :: 0 < k < i ==> s[k] == s[1..][k - 1];
    } else {
      i := 0;
    }
  }

  lemma {:induction false} RightEnd(s: string, space: char -> bool) returns (j: nat)
    ensures j <= |s| && StripRight(s, space) == s[..j]
    ensures (forall k :: j <= k < |s| ==> space(s[k])) && (j > 0 ==> !space(s[j - 1]))
  {
    if s != "" && space(s[|s| - 1]) {
      var n := |s| - 1;
      j := RightEnd(s[..n], space);
      assert forall k :: 0 <= k < n ==> s[k] == s[..n][k];
      assert s[..n][..j] == s[..j];
    } else {
      j := |s|;
      assert s[..j] == s;
    }
  }

  lemma OneCore(text: string, i: int, j: int, i': int, j': int, space: char -> bool)
    requires CoreAt(text, i, j, space) && CoreAt(text, i', j', space)
    ensures text[i..j] == text[i'..j']
  {
    if i < j {
      assert !space(text[i]) && !space(text[j - 1]);
    }
    if i' < j' {
      assert !space(text[i']) && !space(text[j' - 1]);
    }
  }

  lemma StripIsCore(text: string, core: string, space: char -> bool)
    ensures Strip(text, space) == core <==> IsCore(text, core, space)
  {
    var i := LeftEnd(text, space);
    var s := text[i..];
    var j0 := RightEnd(s, space);
    var j := i + j0;
    assert Strip(text, space) == text[i..j];
    assert forall k :: 0 <= k < |s| ==> s[k] == text[i + k];
    assert forall k :: j <= k < |text| ==> text[k] == s[k - i];
    if j0 == 0 {
      assert CoreAt(text, i, i, space);
    } else {
      assert text[j - 1] == s[j0 - 1] && text[i] == s[0];
    }
    assert CoreAt(text, i, j, space);
    hide Strip;
    if IsCore(text, core, space) {
      var i', j' :| CoreAt(text, i', j', space) && core == text[i'..j'];
      OneCore(text, i, j, i', j', space);
    }
  }

  function Replace(s: string, what: char, with: char): (r: string)
    ensures |r| == |s|
  {
    seq(|s|, i requires 0 <= i < |s| => if s[i] == what then with else s[i])
  }

  function Digit(d: nat): char
    requires d < 10
  {
    "0123456789"[d]
  }

  function Decimal(n: nat): string {
    if n < 10 then [Digit(n)] else Decimal(n / 10) + [Digit(n % 10)]
  }

  lemma {:induction false} DecimalInjective(a: nat, b: nat)
    requires Decimal(a) == Decimal(b)
    ensures a == b
  {
    var x, y := Decimal(a), Decimal(b);
    assert x[|x| - 1] == y[|y| - 1] && x[..|x| - 1] == y[..|y| - 1];
    assert x[|x| - 1] == Digit(a % 10) && y[|y| - 1] == Digit(b % 10);
    if a >= 10 && b >= 10 {
      DecimalInjective(a / 10, b / 10);
    }
  }

  /** Lower case, character by character. */
  function Lower(s: string, lower: char -> string): string {
    if s == "" then "" else Lower(s[..|s| - 1], lower) + lower(s[|s| - 1])
  }

  lemma {:induction false} LowerAppend(a: string, b: string, lower: char -> string)
    ensures Lower(a + b, lower) == Lower(a, lower) + Lower(b, lower)
  {
    if b == "" {
      assert a + b == a;
    } else {
      assert (a + b)[..|a + b| - 1] == a + b[..|b| - 1];
      LowerAppend(a, b[..|b| - 1], lower);
    }
  }

  // ----- order by characters -----

  predicate Less(a: string, b: string) {
    b != "" && (a == "" || a[0] < b[0] || (a[0] == b[0] && Less(a[1..], b[1..])))
  }

  lemma {:induction false} LessIsTotal(a: string, b: string)
    ensures Less(a, b) || Less(b, a) || a == b
    ensures !(Less(a, b) && Less(b, a)) && !Less(a, a)
  {
    if a != "" && b != "" {
      LessIsTotal(a[1..], b[1..]);
      assert a == [a[0]] + a[1..] && b == [b[0]] + b[1..];
    }
    if a != "" {
      LessIsTotal(a[1..], a[1..]);
    }
  }

  lemma {:induction false} LessIsTransitive(a: string, b: string, c: string)
    requires Less(a, b) && Less(b, c)
    ensures Less(a, c)
  {
    if a != "" && a[0] == b[0] && b[0] == c[0] {
      LessIsTransitive(a[1..], b[1..], c[1..]);
    }
  }

  // ----- a new name by counting up -----

  ghost predicate Injective(candidate: nat -> string) {
    forall i, j :: candidate(i) == candidate(j) ==> i == j
  }

  function FirstNames(candidate: nat -> string, n: nat): set<string> {
    set i: nat | i < n :: candidate(i)
  }

  lemma {:induction false} FirstNamesCount(candidate: nat -> string, n: nat)
    requires Injective(candidate)
    ensures |FirstNames(candidate, n)| == n
  {
    if n > 0 {
      FirstNamesCount(candidate, n - 1);
      assert FirstNames(candidate, n) == FirstNames(candidate, n - 1) + {candidate(n - 1)};
      assert candidate(n - 1) !in FirstNames(candidate, n - 1);
    }
  }

  lemma SubsetSize(a: set<string>, b: set<string>)
    requires a <= b
    ensures |a| <= |b|
  {
    assert b == a + (b - a);
  }

  /** Pigeonhole: when the first `n` candidates are all taken, `n` is at most the number taken. */
  lemma AllTakenBound(candidate: nat -> string, n: nat, taken: set<string>)
    requires Injective(candidate)
    requires forall i: nat :: i < n ==> candidate(i) in taken
    ensures n <= |taken|
  {
    FirstNamesCount(candidate, n);
    SubsetSize(FirstNames(candidate, n), taken);
  }

  /** The first candidate from number `n` on that is not taken. */
  ghost function FirstFree(candidate: nat -> string, n: nat, taken: set<string>): (m: nat)
    requires Injective(candidate)
    requires forall i: nat :: i < n ==> candidate(i) in taken
    ensures candidate(m) !in taken
    ensures forall i: nat :: i < m ==> candidate(i) in taken
    decreases |taken| - n
  {
    AllTakenBound(candidate, n, taken);
    if candidate(n) !in taken then n
    else
      AllTakenBound(candidate, n + 1, taken);
      FirstFree(candidate, n + 1, taken)
  }

  /** The search loop ends, at most one step past the number of names taken. */
  method FindFree(candidate: nat -> string, taken: set<string>) returns (m: nat)
    requires Injective(candidate)
    ensures candidate(m) !in taken && m <= |taken|
    ensures forall i: nat :: i < m ==> candidate(i) in taken
  {
    m := 0;
    while candidate(m) in taken
      invariant m <= |taken|
      invariant forall i: nat :: i < m ==> candidate(i) in taken
      decreases |taken| - m
    {
      AllTakenBound(candidate, m + 1, taken);
      m := m + 1;
    }
  }
}

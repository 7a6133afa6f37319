/** String helpers shared by the services and the client: whitespace trimming,
    ASCII upper-casing, comma splitting and joining, decimal rendering of ids,
    and the code-point ordering (UTF-16 code-unit order inside the Basic
    Multilingual Plane) that models JavaScript's default `Array.prototype.sort`. */
module Text {

  // ---------------------------------------------------------------------------
  // Whitespace and case
  // ---------------------------------------------------------------------------

  /** The ASCII whitespace both `str.strip()` and `String.prototype.trim()` remove. */
  predicate IsSpace(c: char) {
    c == ' ' || c == '\t' || c == '\n' || c == '\r' || c == '\U{000B}' || c == '\U{000C}'
  }

  predicate IsLowerAscii(c: char) {
    'a' <= c <= 'z'
  }

  /** Number of leading whitespace characters. */
  function LeadingSpaces(s: string): (k: nat)
    ensures k <= |s|
    ensures forall i :: 0 <= i < k ==> IsSpace(s[i])
    ensures k == |s| || !IsSpace(s[k])
  {
    if s == [] || !IsSpace(s[0]) then 0 else 1 + LeadingSpaces(s[1..])
  }

  /** Index at which the trailing run of whitespace starts. */
  function TrailingStart(s: string): (k: nat)
    ensures k <= |s|
    ensures forall i :: k <= i < |s| ==> IsSpace(s[i])
    ensures k == 0 || !IsSpace(s[k - 1])
  {
    if s == [] || !IsSpace(s[|s| - 1]) then |s| else TrailingStart(s[..|s| - 1])
  }

  /** `s.strip()` / `s.trim()`: the maximal slice of `s` without whitespace at
      either end; it starts right after the leading whitespace. */
  function Trim(s: string): (r: string)
    ensures LeadingSpaces(s) + |r| <= |s|
    ensures r == s[LeadingSpaces(s)..LeadingSpaces(s) + |r|]
    ensures forall k :: LeadingSpaces(s) + |r| <= k < |s| ==> IsSpace(s[k])
    ensures r == [] || (!IsSpace(r[0]) && !IsSpace(r[|r| - 1]))
  {
    var a := LeadingSpaces(s);
    var t := s[a..];
    var b := TrailingStart(t);
    assert t[..b] == s[a..a + b];
    t[..b]
  }

  /** Trimming yields the empty string exactly when the input is all whitespace. */
  lemma TrimEmptyIff(s: string)
    ensures Trim(s) == [] <==> forall k :: 0 <= k < |s| ==> IsSpace(s[k])
  {
    var r := Trim(s);
    if r != [] {
      assert s[LeadingSpaces(s)] == r[0];
    }
  }

  function UpperChar(c: char): (u: char)
    ensures !IsLowerAscii(u)
    ensures IsSpace(u) <==> IsSpace(c)
  {
    if IsLowerAscii(c) then (c as int - 32) as char else c
  }

  /** `s.upper()` / `s.toUpperCase()` on the ASCII letters. */
  function Upper(s: string): (r: string)
    ensures |r| == |s|
    ensures forall i :: 0 <= i < |s| ==> r[i] == UpperChar(s[i])
  {
    seq(|s|, i requires 0 <= i < |s| => UpperChar(s[i]))
  }

  /** The ticker normalisation used on both sides: trim, then upper-case. */
  function Normalize(s: string): (r: string)
    ensures forall i :: 0 <= i < |r| ==> !IsLowerAscii(r[i])
    ensures r == [] || (!IsSpace(r[0]) && !IsSpace(r[|r| - 1]))
    ensures r == [] <==> forall k :: 0 <= k < |s| ==> IsSpace(s[k])
  {
    TrimEmptyIff(s);
    Upper(Trim(s))
  }

  /** A normalised symbol is a fixed point of normalisation. */
  lemma NormalizeIdempotent(s: string)
    ensures Normalize(Normalize(s)) == Normalize(s)
  {
    var n := Normalize(s);
    if n != [] {
      assert !IsSpace(n[0]) && !IsSpace(n[|n| - 1]);
      assert LeadingSpaces(n) == 0;
      var t := Trim(n);
      assert t == n;
    }
  }

  // ---------------------------------------------------------------------------
  // Splitting and joining
  // ---------------------------------------------------------------------------

  /** Python's `s.split(sep)` for a one-character separator: always at least
      one piece, and empty pieces are kept. */
  function Split(s: string, sep: char): (r: seq<string>)
    ensures |r| >= 1
    ensures forall i :: 0 <= i < |r| ==> sep !in r[i]
    decreases |s|
  {
    if s == [] then [[]]
    else
      var rest := Split(s[1..], sep);
      if s[0] == sep then [[]] + rest else [[s[0]] + rest[0]] + rest[1..]
  }

  /** `parts.join(sep)` / `sep.join(parts)`. */
  function Join(parts: seq<string>, sep: char): string
  {
    if |parts| == 0 then []
    else if |parts| == 1 then parts[0]
    else parts[0] + [sep] + Join(parts[1..], sep)
  }

  /** Joining the pieces of a split gives back the original string. */
  lemma {:induction false} JoinSplit(s: string, sep: char)
    ensures Join(Split(s, sep), sep) == s
    decreases |s|
  {
    if s != [] {
      var rest := Split(s[1..], sep);
      JoinSplit(s[1..], sep);
      if s[0] == sep {
        assert Join([[]] + rest, sep) == [] + [sep] + Join(rest, sep);
      } else if |rest| == 1 {
        assert Split(s, sep) == [[s[0]] + rest[0]];
      } else {
        var parts := [[s[0]] + rest[0]] + rest[1..];
        assert parts[1..] == rest[1..];
        assert Join(rest, sep) == rest[0] + [sep] + Join(rest[1..], sep);
      }
    }
  }

  lemma {:induction false} SplitPrefix(a: string, t: string, sep: char)
    requires sep !in a
    ensures Split(a + t, sep) == [a + Split(t, sep)[0]] + Split(t, sep)[1..]
    decreases |a|
  {
    if a != [] {
      assert (a + t)[1..] == a[1..] + t;
      SplitPrefix(a[1..], t, sep);
      assert [a[0]] + (a[1..] + Split(t, sep)[0]) == a + Split(t, sep)[0];
    } else {
      var st := Split(t, sep);
      assert a + t == t;
      assert st == [st[0]] + st[1..];
      assert a + st[0] == st[0];
    }
  }

  /** Splitting a join gives back the parts, provided no part contains the separator. */
  lemma {:induction false} SplitJoin(parts: seq<string>, sep: char)
    requires |parts| >= 1
    requires forall i :: 0 <= i < |parts| ==> sep !in parts[i]
    ensures Split(Join(parts, sep), sep) == parts
  {
    if |parts| == 1 {
      SplitPrefix(parts[0], [], sep);
      assert parts[0] + [] == parts[0];
    } else {
      SplitJoin(parts[1..], sep);
      var tail := [sep] + Join(parts[1..], sep);
      assert Join(parts, sep) == parts[0] + tail;
      SplitPrefix(parts[0], tail, sep);
      assert tail[1..] == Join(parts[1..], sep);
      assert Split(tail, sep) == [[]] + Split(Join(parts[1..], sep), sep);
      assert parts[0] + [] == parts[0];
      assert parts == [parts[0]] + parts[1..];
    }
  }

  // ---------------------------------------------------------------------------
  // Decimal rendering (template literals such as `user_${uid}`)
  // ---------------------------------------------------------------------------

  function DigitChar(d: nat): char
    requires d < 10
  {
    ('0' as int + d) as char
  }

  function NatToString(n: nat): (r: string)
    ensures |r| >= 1
    ensures |r| == 1 <==> n < 10
  {
    if n < 10 then [DigitChar(n)] else NatToString(n / 10) + [DigitChar(n % 10)]
  }

  /** Distinct numbers render to distinct strings. */
  lemma {:induction false} NatToStringInjective(a: nat, b: nat)
    requires NatToString(a) == NatToString(b)
    ensures a == b
  {
    if a >= 10 && b >= 10 {
      var sa := NatToString(a);
      assert sa[|sa| - 1] == DigitChar(a % 10);
      assert NatToString(b)[|sa| - 1] == DigitChar(b % 10);
      assert sa[..|sa| - 1] == NatToString(a / 10);
      assert NatToString(b)[..|sa| - 1] == NatToString(b / 10);
      NatToStringInjective(a / 10, b / 10);
    } else if a < 10 && b < 10 {
      assert NatToString(a)[0] == DigitChar(a);
    }
  }

  // ---------------------------------------------------------------------------
  // Code-point ordering and sorting (`[...xs].sort()`)
  // ---------------------------------------------------------------------------

  /** Lexicographic order on code points, which is JavaScript's default string
      sort (UTF-16 code-unit order) inside the Basic Multilingual Plane. */
  predicate LexLe(a: string, b: string)
  {
    if a == [] then true
    else if b == [] then false
    else if a[0] < b[0] then true
    else if a[0] > b[0] then false
    else LexLe(a[1..], b[1..])
  }

  lemma {:induction false} LexLeReflexive(a: string)
    ensures LexLe(a, a)
  {
    if a != [] { LexLeReflexive(a[1..]); }
  }

  lemma {:induction false} LexLeTotal(a: string, b: string)
    ensures LexLe(a, b) || LexLe(b, a)
  {
    if a != [] && b != [] && a[0] == b[0] { LexLeTotal(a[1..], b[1..]); }
  }

  lemma {:induction false} LexLeAntisymmetric(a: string, b: string)
    requires LexLe(a, b) && LexLe(b, a)
    ensures a == b
  {
    if a != [] && b != [] {
      LexLeAntisymmetric(a[1..], b[1..]);
      assert a == [a[0]] + a[1..];
      assert b == [b[0]] + b[1..];
    }
  }

  lemma {:induction false} LexLeTransitive(a: string, b: string, c: string)
    requires LexLe(a, b) && LexLe(b, c)
    ensures LexLe(a, c)
  {
    if a != [] && b != [] && c != [] && a[0] == b[0] && b[0] == c[0] {
      LexLeTransitive(a[1..], b[1..], c[1..]);
    }
  }

  predicate SortedLex(s: seq<string>)
  {
    forall i, j :: 0 <= i < j < |s| ==> LexLe(s[i], s[j])
  }

  lemma LexLeBelowHead(x: string, s: seq<string>)
    requires SortedLex(s) && s != [] && LexLe(x, s[0])
    ensures forall j :: 0 <= j < |s| ==> LexLe(x, s[j])
  {
    forall j | 0 <= j < |s|
      ensures LexLe(x, s[j])
    {
      if j > 0 {
        assert LexLe(s[0], s[j]);
        LexLeTransitive(x, s[0], s[j]);
      }
    }
  }

  /** A lower bound of `rest` and of `x` bounds every element of a permutation of both. */
  lemma LexLeBoundsPermutation(h: string, x: string, rest: seq<string>, t: seq<string>)
    requires forall j :: 0 <= j < |rest| ==> LexLe(h, rest[j])
    requires LexLe(h, x)
    requires multiset(t) == multiset(rest) + multiset{x}
    ensures forall j :: 0 <= j < |t| ==> LexLe(h, t[j])
  {
    forall j | 0 <= j < |t|
      ensures LexLe(h, t[j])
    {
      assert t[j] in multiset(t);
      if t[j] != x {
        assert t[j] in multiset(rest);
        var k :| 0 <= k < |rest| && rest[k] == t[j];
      }
    }
  }

  lemma SortedLexCons(h: string, t: seq<string>)
    requires SortedLex(t)
    requires forall j :: 0 <= j < |t| ==> LexLe(h, t[j])
    ensures SortedLex([h] + t)
  {
    var r := [h] + t;
    forall i, j | 0 <= i < j < |r|
      ensures LexLe(r[i], r[j])
    {
      if i > 0 { assert r[i] == t[i - 1] && r[j] == t[j - 1]; }
      else { assert r[j] == t[j - 1]; }
    }
  }

  /** Inserts `x` before the first element it does not exceed. */
  function InsertLex(x: string, s: seq<string>): (r: seq<string>)
    requires SortedLex(s)
    ensures SortedLex(r)
    ensures multiset(r) == multiset(s) + multiset{x}
  {
    if s == [] then [x]
    else if LexLe(x, s[0]) then
      LexLeBelowHead(x, s);
      SortedLexCons(x, s);
      [x] + s
    else
      LexLeTotal(x, s[0]);
      var t := InsertLex(x, s[1..]);
      assert s == [s[0]] + s[1..];
      assert forall j :: 0 <= j < |s[1..]| ==> LexLe(s[0], s[1..][j]);
      LexLeBoundsPermutation(s[0], x, s[1..], t);
      SortedLexCons(s[0], t);
      [s[0]] + t
  }

  /** A sorted copy of `s` (insertion sort; the input is not touched). */
  function SortLex(s: seq<string>): (r: seq<string>)
    ensures SortedLex(r)
    ensures multiset(r) == multiset(s)
  {
    if s == [] then []
    else
      assert s == [s[0]] + s[1..];
      InsertLex(s[0], SortLex(s[1..]))
  }

  lemma SortedLexTail(a: seq<string>)
    requires SortedLex(a) && a != []
    ensures SortedLex(a[1..])
  {
    var t := a[1..];
    forall i, j | 0 <= i < j < |t|
      ensures LexLe(t[i], t[j])
    {
      assert t[i] == a[i + 1] && t[j] == a[j + 1];
    }
  }

  lemma TailMultiset(a: seq<string>)
    requires a != []
    ensures multiset(a[1..]) == multiset(a) - multiset{a[0]}
  {
    assert a == [a[0]] + a[1..];
  }

  /** Two sorted sequences with the same elements start with the same element. */
  lemma SortedHeadsAgree(a: seq<string>, b: seq<string>)
    requires SortedLex(a) && SortedLex(b)
    requires multiset(a) == multiset(b) && a != [] && b != []
    ensures a[0] == b[0]
  {
    assert b[0] in multiset(a);
    var i :| 0 <= i < |a| && a[i] == b[0];
    assert a[0] in multiset(b);
    var j :| 0 <= j < |b| && b[j] == a[0];
    if i > 0 { assert LexLe(a[0], a[i]); } else { LexLeReflexive(a[0]); }
    if j > 0 { assert LexLe(b[0], b[j]); } else { LexLeReflexive(b[0]); }
    LexLeAntisymmetric(a[0], b[0]);
  }

  /** Two sorted sequences with the same elements are equal. */
  lemma {:induction false} SortedLexUnique(a: seq<string>, b: seq<string>)
    requires SortedLex(a) && SortedLex(b)
    requires multiset(a) == multiset(b)
    ensures a == b
    decreases |a|
  {
    assert |a| == |multiset(a)| == |b|;
    if a != [] {
      SortedHeadsAgree(a, b);
      TailMultiset(a);
      TailMultiset(b);
      SortedLexTail(a);
      SortedLexTail(b);
      SortedLexUnique(a[1..], b[1..]);
      assert a == [a[0]] + a[1..];
      assert b == [b[0]] + b[1..];
    }
  }
}

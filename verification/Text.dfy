/** String facts the other modules share: Go's byte-wise string order and separator joins. */
module Text {

  /** Go's `<` on strings of equal encoding width: compare at the first difference, a prefix is smaller. */
  predicate LexLess(a: string, b: string) {
    if b == [] then false
    else if a == [] then true
    else if a[0] != b[0] then a[0] < b[0]
    else LexLess(a[1..], b[1..])
  }

  lemma {:induction false} LexIrreflexive(a: string)
    ensures !LexLess(a, a)
  {
    if a == [] {
    } else {
      LexIrreflexive(a[1..]);
    }
  }

  lemma {:induction false} LexTransitive(a: string, b: string, c: string)
    requires LexLess(a, b) && LexLess(b, c)
    ensures LexLess(a, c)
  {
    if a != [] && a[0] == b[0] && b[0] == c[0] {
      LexTransitive(a[1..], b[1..], c[1..]);
    }
  }

  lemma {:induction false} LexTotal(a: string, b: string)
    ensures LexLess(a, b) || a == b || LexLess(b, a)
  {
    if a != [] && b != [] && a[0] == b[0] {
      LexTotal(a[1..], b[1..]);
      assert a == [a[0]] + a[1..] && b == [b[0]] + b[1..];
    }
  }

  /** A difference inside equally long prefixes decides, whatever follows. */
  lemma {:induction false} LexExtend(a: string, b: string, x: string, y: string)
    requires |a| == |b| && LexLess(a, b)
    ensures LexLess(a + x, b + y)
  {
    assert (a + x)[0] == a[0] && (b + y)[0] == b[0];
    if a[0] == b[0] {
      LexExtend(a[1..], b[1..], x, y);
      assert (a + x)[1..] == a[1..] + x && (b + y)[1..] == b[1..] + y;
    }
  }

  lemma {:induction false} LexSamePrefix(p: string, x: string, y: string)
    requires LexLess(x, y)
    ensures LexLess(p + x, p + y)
  {
    if p == [] {
      assert p + x == x && p + y == y;
    } else {
      LexSamePrefix(p[1..], x, y);
      assert (p + x)[1..] == p[1..] + x && (p + y)[1..] == p[1..] + y;
    }
  }

  /** Cutting at the first separator recovers both parts, when the separator is not in the first. */
  lemma {:induction false} CutInjective(c: char, a: string, x: string, b: string, y: string)
    requires c !in a && c !in b
    requires a + [c] + x == b + [c] + y
    ensures a == b && x == y
  {
    if a == [] || b == [] {
      assert (a + [c] + x)[0] == (b + [c] + y)[0];
      assert x == (a + [c] + x)[1..] && y == (b + [c] + y)[1..];
    } else {
      assert (a + [c] + x)[0] == a[0] && (b + [c] + y)[0] == b[0];
      assert (a + [c] + x)[1..] == a[1..] + [c] + x && (b + [c] + y)[1..] == b[1..] + [c] + y;
      CutInjective(c, a[1..], x, b[1..], y);
      assert a == [a[0]] + a[1..] && b == [b[0]] + b[1..];
    }
  }

  // ----- searching and trimming, as package strings does ------------------------

  predicate OccursAt(s: string, sub: string, i: nat) { i + |sub| <= |s| && s[i..i + |sub|] == sub }

  predicate Contains(s: string, sub: string) { exists i :: 0 <= i <= |s| && OccursAt(s, sub, i) }

  /** The first occurrence at or after i, or -1. */
  function IndexFrom(s: string, sub: string, i: nat): (r: int)
    requires i <= |s|
    ensures r == -1 || (i <= r && OccursAt(s, sub, r))
    decreases |s| - i
  {
    if OccursAt(s, sub, i) then i else if i == |s| then -1 else IndexFrom(s, sub, i + 1)
  }

  lemma {:induction false} FirstOccurrence(s: string, sub: string, i: nat, j: nat)
    requires i <= j <= |s| && OccursAt(s, sub, j)
    ensures i <= IndexFrom(s, sub, i) <= j
    decreases |s| - i
  {
    if !OccursAt(s, sub, i) {
      FirstOccurrence(s, sub, i + 1, j);
    }
  }

  /** The first position, from i on, of any of the characters, or -1. */
  function IndexAnyFrom(s: string, chars: string, i: nat): (r: int)
    requires i <= |s|
    ensures r == -1 || (i <= r < |s| && s[r] in chars)
    decreases |s| - i
  {
    if i == |s| then -1 else if s[i] in chars then i else IndexAnyFrom(s, chars, i + 1)
  }

  lemma {:induction false} FirstOfAny(s: string, chars: string, i: nat, j: nat)
    requires i <= j < |s| && s[j] in chars
    ensures i <= IndexAnyFrom(s, chars, i) <= j
    decreases |s| - i
  {
    if s[i] !in chars {
      FirstOfAny(s, chars, i + 1, j);
    }
  }

  /** The last position, below n, of the character, or -1. */
  function LastIndexBelow(s: string, c: char, n: nat): (r: int)
    requires n <= |s|
    ensures r == -1 || (0 <= r < n && s[r] == c)
  {
    if n == 0 then -1 else if s[n - 1] == c then n - 1 else LastIndexBelow(s, c, n - 1)
  }

  lemma {:induction false} LastOccurrence(s: string, c: char, n: nat, j: nat)
    requires j < n <= |s| && s[j] == c
    ensures j <= LastIndexBelow(s, c, n)
  {
    if s[n - 1] != c {
      LastOccurrence(s, c, n - 1, j);
    }
  }

  /** unicode.IsSpace. */
  predicate IsSpace(c: char) {
    || '\t' <= c <= '\r'
    || c == ' ' || c == '\U{85}' || c == '\U{a0}' || c == '\U{1680}'
    || '\U{2000}' <= c <= '\U{200a}'
    || c == '\U{2028}' || c == '\U{2029}' || c == '\U{202f}' || c == '\U{205f}' || c == '\U{3000}'
  }

  predicate HasEdgeSpace(s: string) { s != "" && (IsSpace(s[0]) || IsSpace(s[|s| - 1])) }

  /** Where the text after the leading spaces starts. */
  function SkipSpaces(s: string, i: nat): (r: nat)
    requires i <= |s|
    ensures i <= r <= |s|
    decreases |s| - i
  {
    if i < |s| && IsSpace(s[i]) then SkipSpaces(s, i + 1) else i
  }

  /** Where the text before the trailing spaces ends. */
  function DropSpaces(s: string, from: nat, n: nat): (r: nat)
    requires from <= n <= |s|
    ensures from <= r <= n
  {
    if n > from && IsSpace(s[n - 1]) then DropSpaces(s, from, n - 1) else n
  }

  function TrimSpace(s: string): string {
    var from := SkipSpaces(s, 0);
    s[from..DropSpaces(s, from, |s|)]
  }

  lemma TrimmedWhole(s: string)
    ensures |TrimSpace(s)| <= |s| && (|TrimSpace(s)| == |s| ==> TrimSpace(s) == s)
    ensures TrimSpace(s) == s <==> !HasEdgeSpace(s)
  {
    if |TrimSpace(s)| == |s| {
      assert SkipSpaces(s, 0) == 0;
      assert DropSpaces(s, 0, |s|) == |s|;
    }
  }

  predicate AllSpace(s: string) { forall i :: 0 <= i < |s| ==> IsSpace(s[i]) }

  lemma {:induction false} SkipsTo(s: string, i: nat, j: nat)
    requires i <= j <= |s| && (forall k :: i <= k < j ==> IsSpace(s[k])) && (j < |s| ==> !IsSpace(s[j]))
    ensures SkipSpaces(s, i) == j
    decreases j - i
  {
    if i < j {
      SkipsTo(s, i + 1, j);
    }
  }

  lemma {:induction false} DropsTo(s: string, from: nat, j: nat, n: nat)
    requires from <= j <= n <= |s| && (forall k :: j <= k < n ==> IsSpace(s[k])) && (from < j ==> !IsSpace(s[j - 1]))
    ensures DropSpaces(s, from, n) == j
  {
    if j < n {
      DropsTo(s, from, j, n - 1);
    }
  }

  /** Trimming takes off all spaces at both ends and nothing else. */
  lemma TrimSpaceExact(a: string, s: string, b: string)
    requires AllSpace(a) && AllSpace(b) && !HasEdgeSpace(s)
    ensures TrimSpace(a + s + b) == s
  {
    var t := a + s + b;
    if s == "" {
      assert forall k :: 0 <= k < |t| ==> IsSpace(t[k]);
      SkipsTo(t, 0, |t|);
      DropsTo(t, |t|, |t|, |t|);
    } else {
      assert t[|a|] == s[0] && t[|a| + |s| - 1] == s[|s| - 1];
      SkipsTo(t, 0, |a|);
      DropsTo(t, |a|, |a| + |s|, |t|);
      assert t[|a|..|a| + |s|] == s;
    }
  }
}

/** Evidence sanitiser of the AI client (internal/aiclient/evidence.go): a bounded, secret-free copy. */
module Sanitizer {
  import opened Basics
  import opened Findings
  import opened Text

  const MAX_KEYS := 24
  const MAX_STRING := 400
  const MAX_LIST := 12
  const MAX_DEPTH := 3

  const SECRET_KEY_MARKERS := [
    "password", "passwd", "passphrase", "secret", "token", "apikey",
    "api_key", "api-key", "private", "credential", "cookie", "session",
    "authorization", "bearer", "license_key", "licence_key", "signature"]

  const TOO_DEEP := "[omitted: nested too deep]"
  const NOT_SERIALISABLE := "[omitted: not serialisable]"

  /**
   * A Go value of type any. StrList is []string, which the source treats apart from []any; Other is
   * any further type, with what encoding/json turns it into, if it can.
   */
  datatype Value =
    | Null
    | Bool(b: bool)
    | Number(text: string)
    | Str(s: string)
    | NilMap
    | Map(m: map<string, Value>)
    | List(items: seq<Value>)
    | StrList(strs: seq<string>)
    | Other(json: Option<Value>)

  /** unicode.ToLower and the marker list; the general facts hold whatever they are. */
  datatype Policy = Policy(lower: char -> char, markers: seq<string>)

  /** The source's own list, with any case mapping. */
  function SourcePolicy(lower: char -> char): Policy { Policy(lower, SECRET_KEY_MARKERS) }

  function Lower(p: Policy, s: string): string { seq(|s|, i requires 0 <= i < |s| => p.lower(s[i])) }

  predicate IsSecretKey(p: Policy, k: string) {
    exists m :: m in p.markers && Contains(Lower(p, k), m)
  }

  function TruncateRunes(s: string, n: nat): string { if |s| <= n then s else s[..n] + "…" }

  // ----- which keys survive -----------------------------------------------------

  function Below(keys: set<string>, k: string): set<string> { set j | j in keys && LexLess(j, k) }

  /** The n smallest keys. */
  function FirstKeys(keys: set<string>, n: nat): set<string> { set k | k in keys && |Below(keys, k)| < n }

  function PublicKeys(p: Policy, m: map<string, Value>): set<string> { set k | k in m && !IsSecretKey(p, k) }

  function KeptKeys(p: Policy, m: map<string, Value>): set<string> { FirstKeys(PublicKeys(p, m), MAX_KEYS) }

  function Cut(n: nat): nat { if n > MAX_LIST then MAX_LIST else n }

  /** What sanitizeValue returns; a map at depth d is what sanitizeMap returns for depth d + 1. */
  function Sanitized(p: Policy, v: Value, depth: nat): Value
    decreases v
  {
    match v
    case Null => v
    case Bool(_) => v
    case Number(_) => v
    case Str(s) => Str(TruncateRunes(s, MAX_STRING))
    case NilMap => if depth >= MAX_DEPTH then Str(TOO_DEEP) else NilMap
    case Map(m) =>
      if depth >= MAX_DEPTH then Str(TOO_DEEP)
      else if KeptKeys(p, m) == {} then NilMap
      else Map(map k | k in KeptKeys(p, m) :: Sanitized(p, m[k], depth + 1))
    case List(items) =>
      if depth >= MAX_DEPTH then Str(TOO_DEEP)
      else List(seq(Cut(|items|), i requires 0 <= i < Cut(|items|) => Sanitized(p, items[i], depth + 1)))
    case StrList(strs) => List(seq(Cut(|strs|),
      i requires 0 <= i < Cut(|strs|) => Str(TruncateRunes(strs[i], MAX_STRING))))
    case Other(None) => Str(NOT_SERIALISABLE)
    case Other(Some(j)) => Sanitized(p, j, depth)
  }

  /** SanitizeEvidence starts sanitizeMap at depth 1. */
  function SanitizeEvidence(p: Policy, evidence: Value): Value
    requires evidence.Map? || evidence.NilMap?
  {
    Sanitized(p, evidence, 0)
  }

  // ----- keys in order ------------------------------------------------------------

  ghost predicate Sorted(s: seq<string>) { forall i, j :: 0 <= i < j < |s| ==> LexLess(s[i], s[j]) }

  lemma {:induction false} HasGreatest(keys: set<string>) returns (g: string)
    requires keys != {}
    ensures g in keys && forall k :: k in keys ==> k == g || LexLess(k, g)
  {
    var x :| x in keys;
    g := x;
    if keys != {x} {
      var h := HasGreatest(keys - {x});
      LexTotal(x, h);
      if LexLess(x, h) {
        g := h;
      } else {
        forall k | k in keys && k != x
          ensures LexLess(k, x)
        {
          if k != h {
            LexTransitive(k, h, x);
          }
        }
      }
    }
  }

  lemma FirstKeysSize(keys: set<string>, n: nat)
    ensures |FirstKeys(keys, n)| <= n
  {
    var f := FirstKeys(keys, n);
    if f != {} {
      var g := HasGreatest(f);
      assert f - {g} <= Below(keys, g);
      SubsetSize(f - {g}, Below(keys, g));
    }
  }

  lemma SmallSetKept(keys: set<string>, n: nat)
    requires |keys| <= n
    ensures FirstKeys(keys, n) == keys
  {
    forall k | k in keys
      ensures |Below(keys, k)| < n
    {
      LexIrreflexive(k);
      SubsetSize(Below(keys, k), keys - {k});
    }
  }

  ghost predicate IsPrefix(f: seq<string>, s: seq<string>, n: nat) {
    |f| == (if n <= |s| then n else |s|) && f <= s
  }

  /** The first n of the sorted keys are the n smallest. */
  lemma SortedPrefix(s: seq<string>, keys: set<string>, f: seq<string>, n: nat)
    requires Sorted(s) && keys == (set k | k in s) && IsPrefix(f, s, n)
    ensures FirstKeys(keys, n) == set k | k in f
  {
    forall i | 0 <= i < |s|
      ensures s[i] in FirstKeys(keys, n) <==> i < n
    {
      RankIsIndex(s, keys, i);
    }
    forall k | k in FirstKeys(keys, n)
      ensures k in f
    {
      var i :| 0 <= i < |s| && s[i] == k;
      assert f[i] == k;
    }
    forall k | k in f
      ensures k in FirstKeys(keys, n)
    {
      var i :| 0 <= i < |f| && f[i] == k;
      assert s[i] == k;
    }
  }

  lemma RankIsIndex(s: seq<string>, keys: set<string>, i: nat)
    requires Sorted(s) && keys == (set k | k in s) && i < |s|
    ensures |Below(keys, s[i])| == i
  {
    forall j | 0 <= j < |s|
      ensures LexLess(s[j], s[i]) <==> j < i
    {
      LexIrreflexive(s[i]);
      if j > i && LexLess(s[j], s[i]) {
        LexTransitive(s[i], s[j], s[i]);
      }
    }
    assert Below(keys, s[i]) == set k | k in s[..i] by {
      assert forall j :: 0 <= j < i ==> s[..i][j] == s[j];
    }
    PrefixSize(s[..i]);
  }

  lemma {:induction false} PrefixSize(s: seq<string>)
    requires Sorted(s)
    ensures |set k | k in s| == |s|
  {
    if s == [] {
    } else {
      var n := |s| - 1;
      PrefixSize(s[..n]);
      forall j | 0 <= j < n
        ensures s[j] != s[n]
      {
        LexIrreflexive(s[n]);
      }
      assert s == s[..n] + [s[n]];
      assert (set k | k in s) == (set k | k in s[..n]) + {s[n]};
    }
  }

  // ----- the algorithm --------------------------------------------------------------

  method HasMarker(p: Policy, k: string) returns (secret: bool)
    ensures secret == IsSecretKey(p, k)
  {
    var lk := Lower(p, k);
    for i := 0 to |p.markers|
      invariant forall j :: 0 <= j < i ==> !Contains(lk, p.markers[j])
    {
      if Contains(lk, p.markers[i]) {
        return true;
      }
    }
    return false;
  }

  /** sort.Strings on distinct keys. */
  method SortStrings(keys: seq<string>) returns (s: seq<string>)
    requires forall i, j :: 0 <= i < j < |keys| ==> keys[i] != keys[j]
    ensures Sorted(s) && forall k :: k in s <==> k in keys
  {
    s := [];
    for i := 0 to |keys|
      invariant Sorted(s) && forall k :: k in s <==> k in keys[..i]
    {
      assert keys[i] !in keys[..i];
      s := Insert(s, keys[i]);
      assert keys[..i + 1] == keys[..i] + [keys[i]];
    }
    assert keys[..|keys|] == keys;
  }

  method Insert(s: seq<string>, k: string) returns (r: seq<string>)
    requires Sorted(s) && k !in s
    ensures Sorted(r) && forall x :: x in r <==> x in s || x == k
  {
    var i := 0;
    while i < |s| && LexLess(s[i], k)
      invariant 0 <= i <= |s| && forall j :: 0 <= j < i ==> LexLess(s[j], k)
    {
      i := i + 1;
    }
    r := s[..i] + [k] + s[i..];
    InsertedSorted(s, k, i);
    assert s == s[..i] + s[i..];
  }

  lemma InsertedSorted(s: seq<string>, k: string, i: nat)
    requires Sorted(s) && i <= |s| && k !in s
    requires (forall j :: 0 <= j < i ==> LexLess(s[j], k)) && (i < |s| ==> !LexLess(s[i], k))
    ensures Sorted(s[..i] + [k] + s[i..])
  {
    var r := s[..i] + [k] + s[i..];
    forall j | i <= j < |s|
      ensures LexLess(k, s[j])
    {
      LexTotal(s[i], k);
      if j > i {
        LexTransitive(k, s[i], s[j]);
      }
    }
    forall a, b | 0 <= a < b < |r|
      ensures LexLess(r[a], r[b])
    {
      assert r[a] == if a < i then s[a] else if a == i then k else s[a - 1];
      assert r[b] == if b < i then s[b] else if b == i then k else s[b - 1];
    }
  }

  /** sanitizeMap: the key order of the input map is arbitrary, the result is not. */
  method SanitizeMap(p: Policy, v: Value, depth: nat) returns (r: Value)
    requires (v.Map? || v.NilMap?) && 1 <= depth <= MAX_DEPTH
    ensures r == Sanitized(p, v, depth - 1)
    decreases v, 1
  {
    if v.NilMap? || |v.m| == 0 {
      assert v.Map? ==> KeptKeys(p, v.m) == {};
      return NilMap;
    }
    var keys := CollectKeys(p, v.m);
    keys := SortStrings(keys);
    ghost var all := keys;
    if |keys| > MAX_KEYS {
      keys := keys[..MAX_KEYS];
    }
    assert KeptKeys(p, v.m) == set k | k in keys by {
      SortedPrefix(all, PublicKeys(p, v.m), keys, MAX_KEYS);
    }
    if |keys| == 0 {
      assert KeptKeys(p, v.m) == {};
      return NilMap;
    }
    assert keys[0] in KeptKeys(p, v.m);
    forall k | k in keys
      ensures k in v.m
    {
      assert k in KeptKeys(p, v.m);
    }
    var out := SanitizeEntries(p, v, keys, depth);
    r := Map(out);
    assert out == Sanitized(p, v, depth - 1).m;
  }

  method SanitizeEntries(p: Policy, v: Value, keys: seq<string>, depth: nat) returns (out: map<string, Value>)
    requires v.Map? && depth <= MAX_DEPTH && forall k :: k in keys ==> k in v.m
    ensures out == map k | k in keys :: Sanitized(p, v.m[k], depth)
    decreases v, 0
  {
    out := map[];
    for i := 0 to |keys|
      invariant forall k :: k in out <==> k in keys[..i]
      invariant forall k :: k in out ==> k in v.m && out[k] == Sanitized(p, v.m[k], depth)
    {
      var w := SanitizeValue(p, v.m[keys[i]], depth);
      out := out[keys[i] := w];
      assert keys[..i + 1] == keys[..i] + [keys[i]];
    }
    assert keys[..|keys|] == keys;
  }

  method CollectKeys(p: Policy, m: map<string, Value>) returns (keys: seq<string>)
    ensures forall i, j :: 0 <= i < j < |keys| ==> keys[i] != keys[j]
    ensures PublicKeys(p, m) == set k | k in keys
  {
    keys := [];
    var todo := m.Keys;
    while todo != {}
      invariant todo <= m.Keys
      invariant forall i, j :: 0 <= i < j < |keys| ==> keys[i] != keys[j]
      invariant forall k :: k in keys <==> k in m && k !in todo && !IsSecretKey(p, k)
      decreases todo
    {
      var k :| k in todo;
      todo := todo - {k};
      var secret := HasMarker(p, k);
      if secret {
        continue;
      }
      keys := keys + [k];
    }
  }

  method SanitizeValue(p: Policy, v: Value, depth: nat) returns (r: Value)
    requires depth <= MAX_DEPTH
    ensures r == Sanitized(p, v, depth)
    decreases v, 2
  {
    match v
    case Null => r := v;
    case Bool(_) => r := v;
    case Number(_) => r := v;
    case Str(s) => r := Str(TruncateRunes(s, MAX_STRING));
    case NilMap =>
      if depth >= MAX_DEPTH { return Str(TOO_DEEP); }
      r := SanitizeMap(p, v, depth + 1);
    case Map(_) =>
      if depth >= MAX_DEPTH { return Str(TOO_DEEP); }
      r := SanitizeMap(p, v, depth + 1);
    case List(items) =>
      if depth >= MAX_DEPTH { return Str(TOO_DEEP); }
      var n := Cut(|items|);
      var out: seq<Value> := [];
      for i := 0 to n
        invariant |out| == i && forall j :: 0 <= j < i ==> out[j] == Sanitized(p, items[j], depth + 1)
      {
        var w := SanitizeValue(p, items[i], depth + 1);
        out := out + [w];
      }
      r := List(out);
    case StrList(strs) =>
      var n := Cut(|strs|);
      var out: seq<Value> := [];
      for i := 0 to n
        invariant |out| == i && forall j :: 0 <= j < i ==> out[j] == Str(TruncateRunes(strs[j], MAX_STRING))
      {
        out := out + [Str(TruncateRunes(strs[i], MAX_STRING))];
      }
      r := List(out);
    case Other(None) => r := Str(NOT_SERIALISABLE);
    case Other(Some(j)) => r := SanitizeValue(p, j, depth);
  }

  // ----- what comes out ---------------------------------------------------------------

  /** Safe to forward at this depth: no secret key anywhere, and every map, list and string is small. */
  ghost predicate Bounded(p: Policy, v: Value, depth: nat)
    decreases v
  {
    match v
    case Null => true
    case Bool(_) => true
    case Number(_) => true
    case Str(s) => |s| <= MAX_STRING + 1
    case NilMap => depth < MAX_DEPTH
    case Map(m) =>
      depth < MAX_DEPTH && 0 < |m| <= MAX_KEYS &&
      forall k :: k in m ==> !IsSecretKey(p, k) && Bounded(p, m[k], depth + 1)
    case List(items) =>
      |items| <= MAX_LIST && (depth >= MAX_DEPTH ==> forall x :: x in items ==> x.Str?) &&
      forall i :: 0 <= i < |items| ==> Bounded(p, items[i], depth + 1)
    case StrList(_) => false
    case Other(_) => false
  }

  lemma {:induction false} OutputBounded(p: Policy, v: Value, depth: nat)
    ensures Bounded(p, Sanitized(p, v, depth), depth)
    decreases v
  {
    match v
    case Map(m) =>
      FirstKeysSize(PublicKeys(p, m), MAX_KEYS);
      if depth < MAX_DEPTH && KeptKeys(p, m) != {} {
        forall k | k in KeptKeys(p, m)
          ensures Bounded(p, Sanitized(p, m[k], depth + 1), depth + 1)
        {
          OutputBounded(p, m[k], depth + 1);
        }
        MapOf(p, m, depth);
      }
    case List(items) =>
      forall i | 0 <= i < Cut(|items|)
        ensures Bounded(p, Sanitized(p, items[i], depth + 1), depth + 1)
      {
        OutputBounded(p, items[i], depth + 1);
      }
    case Other(Some(j)) => OutputBounded(p, j, depth);
    case _ =>
  }

  lemma MapOf(p: Policy, m: map<string, Value>, depth: nat)
    requires depth < MAX_DEPTH && KeptKeys(p, m) != {}
    ensures
      var out := Sanitized(p, Map(m), depth);
      out.Map? && out.m.Keys == KeptKeys(p, m) && |out.m| == |KeptKeys(p, m)| > 0
  {
    var out := Sanitized(p, Map(m), depth);
    assert out.m.Keys == KeptKeys(p, m);
    assert |out.m| == |out.m.Keys|;
  }

  /** A value within every limit, with no string list or product type left in it. */
  ghost predicate WithinLimits(p: Policy, v: Value, depth: nat)
    decreases v
  {
    match v
    case Null => true
    case Bool(_) => true
    case Number(_) => true
    case Str(s) => |s| <= MAX_STRING || (|s| == MAX_STRING + 1 && s[MAX_STRING] == '…')
    case NilMap => depth < MAX_DEPTH
    case Map(m) =>
      depth < MAX_DEPTH && 0 < |m| <= MAX_KEYS &&
      forall k :: k in m ==> !IsSecretKey(p, k) && WithinLimits(p, m[k], depth + 1)
    case List(items) =>
      depth < MAX_DEPTH && |items| <= MAX_LIST &&
      forall i :: 0 <= i < |items| ==> WithinLimits(p, items[i], depth + 1)
    case StrList(_) => false
    case Other(_) => false
  }

  /** Nothing is lost from a value that respects the limits, and only such a value is left alone. */
  lemma {:induction false} UnchangedExactly(p: Policy, v: Value, depth: nat)
    ensures Sanitized(p, v, depth) == v <==> WithinLimits(p, v, depth)
    decreases v
  {
    match v
    case Map(m) =>
      forall k | k in m
        ensures Sanitized(p, m[k], depth + 1) == m[k] <==> WithinLimits(p, m[k], depth + 1)
      {
        UnchangedExactly(p, m[k], depth + 1);
      }
      MapWithin(p, m, depth);
    case List(items) =>
      forall i | 0 <= i < |items|
        ensures Sanitized(p, items[i], depth + 1) == items[i] <==> WithinLimits(p, items[i], depth + 1)
      {
        UnchangedExactly(p, items[i], depth + 1);
      }
      ListWithin(p, items, depth);
    case Other(Some(j)) => ResultIsPlain(p, j, depth);
    case _ =>
  }

  lemma MapWithin(p: Policy, m: map<string, Value>, depth: nat)
    requires forall k :: k in m ==> (Sanitized(p, m[k], depth + 1) == m[k] <==> WithinLimits(p, m[k], depth + 1))
    ensures Sanitized(p, Map(m), depth) == Map(m) <==> WithinLimits(p, Map(m), depth)
  {
    UnchangedMap(p, m, depth);
  }

  lemma ListWithin(p: Policy, items: seq<Value>, depth: nat)
    requires forall i :: 0 <= i < |items| ==>
      (Sanitized(p, items[i], depth + 1) == items[i] <==> WithinLimits(p, items[i], depth + 1))
    ensures Sanitized(p, List(items), depth) == List(items) <==> WithinLimits(p, List(items), depth)
  {
    UnchangedList(p, items, depth);
  }

  lemma {:induction false} ResultIsPlain(p: Policy, v: Value, depth: nat)
    ensures !Sanitized(p, v, depth).Other? && !Sanitized(p, v, depth).StrList?
    decreases v
  {
    if v.Other? && v.json.Some? {
      ResultIsPlain(p, v.json.value, depth);
    }
  }

  lemma UnchangedMap(p: Policy, m: map<string, Value>, depth: nat)
    ensures
      Sanitized(p, Map(m), depth) == Map(m) <==>
      depth < MAX_DEPTH && 0 < |m| <= MAX_KEYS &&
      forall k :: k in m ==> !IsSecretKey(p, k) && Sanitized(p, m[k], depth + 1) == m[k]
  {
    if depth < MAX_DEPTH && KeptKeys(p, m) != {} {
      MapOf(p, m, depth);
      FirstKeysSize(PublicKeys(p, m), MAX_KEYS);
      var out := Sanitized(p, Map(m), depth).m;
      if out == m {
        assert m.Keys == KeptKeys(p, m) && |m| == |m.Keys|;
      }
      if |m| <= MAX_KEYS && forall k :: k in m ==> !IsSecretKey(p, k) && Sanitized(p, m[k], depth + 1) == m[k] {
        assert PublicKeys(p, m) == m.Keys && |m.Keys| == |m|;
        SmallSetKept(m.Keys, MAX_KEYS);
        assert out == m;
      }
    } else if 0 < |m| <= MAX_KEYS && forall k :: k in m ==> !IsSecretKey(p, k) {
      assert PublicKeys(p, m) == m.Keys && |m.Keys| == |m|;
      SmallSetKept(m.Keys, MAX_KEYS);
    }
  }

  lemma UnchangedList(p: Policy, items: seq<Value>, depth: nat)
    ensures
      Sanitized(p, List(items), depth) == List(items) <==>
      depth < MAX_DEPTH && |items| <= MAX_LIST &&
      forall i :: 0 <= i < |items| ==> Sanitized(p, items[i], depth + 1) == items[i]
  {
    if depth < MAX_DEPTH {
      var out := Sanitized(p, List(items), depth).items;
      assert |out| == Cut(|items|);
      forall i | 0 <= i < |out|
        ensures out[i] == Sanitized(p, items[i], depth + 1)
      {
      }
    }
  }

  /** Some string list the walk reaches sits at the depth where nested values are cut off. */
  ghost predicate DeepStrings(p: Policy, v: Value, depth: nat)
    decreases v
  {
    match v
    case Map(m) => depth < MAX_DEPTH && exists k :: k in KeptKeys(p, m) && DeepStrings(p, m[k], depth + 1)
    case List(items) =>
      depth < MAX_DEPTH && exists i :: 0 <= i < Cut(|items|) && DeepStrings(p, items[i], depth + 1)
    case StrList(_) => depth >= MAX_DEPTH
    case Other(Some(j)) => DeepStrings(p, j, depth)
    case _ => false
  }

  lemma TruncateTwice(s: string)
    ensures TruncateRunes(TruncateRunes(s, MAX_STRING), MAX_STRING) == TruncateRunes(s, MAX_STRING)
  {
    if |s| > MAX_STRING {
      assert TruncateRunes(s, MAX_STRING)[..MAX_STRING] == s[..MAX_STRING];
    }
  }

  /** Sanitising again changes nothing exactly when no string list was kept at the cut-off depth. */
  lemma {:induction false} Idempotent(p: Policy, v: Value, depth: nat)
    ensures Sanitized(p, Sanitized(p, v, depth), depth) == Sanitized(p, v, depth) <==> !DeepStrings(p, v, depth)
    decreases v
  {
    match v
    case Str(s) => TruncateTwice(s);
    case Map(m) => IdempotentMap(p, m, depth);
    case List(items) =>
      if depth < MAX_DEPTH {
        forall i | 0 <= i < Cut(|items|)
          ensures Sanitized(p, Sanitized(p, items[i], depth + 1), depth + 1) == Sanitized(p, items[i], depth + 1)
                  <==> !DeepStrings(p, items[i], depth + 1)
        {
          Idempotent(p, items[i], depth + 1);
        }
        ListTwice(p, items, depth);
      }
    case StrList(strs) =>
      forall i | 0 <= i < Cut(|strs|)
        ensures TruncateRunes(TruncateRunes(strs[i], MAX_STRING), MAX_STRING) == TruncateRunes(strs[i], MAX_STRING)
      {
        TruncateTwice(strs[i]);
      }
    case Other(Some(j)) => Idempotent(p, j, depth);
    case _ =>
  }

  lemma ListTwice(p: Policy, items: seq<Value>, depth: nat)
    requires depth < MAX_DEPTH
    ensures
      var once := Sanitized(p, List(items), depth);
      Sanitized(p, once, depth) == once <==>
      forall i :: 0 <= i < Cut(|items|) ==>
        Sanitized(p, Sanitized(p, items[i], depth + 1), depth + 1) == Sanitized(p, items[i], depth + 1)
  {
    var once := Sanitized(p, List(items), depth);
    var twice := Sanitized(p, once, depth);
    assert |once.items| == |twice.items| == Cut(|items|);
    forall i | 0 <= i < Cut(|items|)
      ensures twice.items[i] == Sanitized(p, Sanitized(p, items[i], depth + 1), depth + 1)
    {
      assert once.items[i] == Sanitized(p, items[i], depth + 1);
    }
    if forall i :: 0 <= i < Cut(|items|) ==> twice.items[i] == once.items[i] {
      assert twice.items == once.items;
    }
  }

  lemma MapTwice(p: Policy, m: map<string, Value>, depth: nat)
    requires depth < MAX_DEPTH && KeptKeys(p, m) != {}
    ensures
      var once := Sanitized(p, Map(m), depth);
      Sanitized(p, once, depth) == once <==>
      forall k :: k in KeptKeys(p, m) ==>
        Sanitized(p, Sanitized(p, m[k], depth + 1), depth + 1) == Sanitized(p, m[k], depth + 1)
  {
    MapOf(p, m, depth);
    var once := Sanitized(p, Map(m), depth);
    assert PublicKeys(p, once.m) == KeptKeys(p, m);
    FirstKeysSize(PublicKeys(p, m), MAX_KEYS);
    SmallSetKept(KeptKeys(p, m), MAX_KEYS);
    MapOf(p, once.m, depth);
    var twice := Sanitized(p, once, depth);
    assert twice.m.Keys == once.m.Keys;
    if forall k :: k in KeptKeys(p, m) ==> twice.m[k] == once.m[k] {
      assert twice.m == once.m;
    }
  }

  lemma {:induction false} IdempotentMap(p: Policy, m: map<string, Value>, depth: nat)
    ensures
      Sanitized(p, Sanitized(p, Map(m), depth), depth) == Sanitized(p, Map(m), depth)
      <==> !DeepStrings(p, Map(m), depth)
    decreases Map(m), 0
  {
    forall k | k in KeptKeys(p, m)
      ensures Sanitized(p, Sanitized(p, m[k], depth + 1), depth + 1) == Sanitized(p, m[k], depth + 1)
              <==> !DeepStrings(p, m[k], depth + 1)
    {
      Idempotent(p, m[k], depth + 1);
    }
    MapStable(p, m, depth);
  }

  lemma MapStable(p: Policy, m: map<string, Value>, depth: nat)
    requires
      forall k :: k in KeptKeys(p, m) ==>
        (Sanitized(p, Sanitized(p, m[k], depth + 1), depth + 1) == Sanitized(p, m[k], depth + 1)
         <==> !DeepStrings(p, m[k], depth + 1))
    ensures
      Sanitized(p, Sanitized(p, Map(m), depth), depth) == Sanitized(p, Map(m), depth)
      <==> !DeepStrings(p, Map(m), depth)
  {
    if depth < MAX_DEPTH && KeptKeys(p, m) != {} {
      MapTwice(p, m, depth);
    }
  }

  // ----- how much comes out -----------------------------------------------------------

  /** Scalars in a value, an empty map counting as one. */
  ghost function Leaves(v: Value): nat
    decreases v
  {
    match v
    case Map(m) => MapLeaves(v, m.Keys)
    case List(items) => ListLeaves(v, |items|)
    case StrList(strs) => |strs|
    case Other(Some(j)) => Leaves(j)
    case _ => 1
  }

  ghost function MapLeaves(v: Value, keys: set<string>): nat
    requires v.Map? && keys <= v.m.Keys
    decreases v, |keys|
  {
    if keys == {} then 0
    else var k :| k in keys; Leaves(v.m[k]) + MapLeaves(v, keys - {k})
  }

  ghost function ListLeaves(v: Value, n: nat): nat
    requires v.List? && n <= |v.items|
    decreases v, n
  {
    if n == 0 then 0 else ListLeaves(v, n - 1) + Leaves(v.items[n - 1])
  }

  /** 24 for every map level still open, times the size allowed at the cut-off depth. */
  function Room(depth: nat, unit: nat): (r: nat)
    ensures r >= unit && (depth < MAX_DEPTH ==> r >= MAX_KEYS * unit)
    decreases MAX_DEPTH - depth
  {
    if depth >= MAX_DEPTH then unit else MAX_KEYS * Room(depth + 1, unit)
  }

  lemma Distribute(n: nat, each: nat)
    ensures (n + 1) * each == n * each + each
  {
  }

  lemma {:induction false} MapLeavesBound(v: Value, keys: set<string>, each: nat)
    requires v.Map? && keys <= v.m.Keys && forall k :: k in keys ==> Leaves(v.m[k]) <= each
    ensures MapLeaves(v, keys) <= |keys| * each
    decreases |keys|
  {
    if keys == {} {
    } else {
      var k :| k in keys && MapLeaves(v, keys) == Leaves(v.m[k]) + MapLeaves(v, keys - {k});
      var rest := keys - {k};
      assert |keys| == |rest| + 1;
      MapLeavesBound(v, rest, each);
      Distribute(|rest|, each);
    }
  }

  lemma {:induction false} ListLeavesBound(v: Value, n: nat, each: nat)
    requires v.List? && n <= |v.items| && forall i :: 0 <= i < n ==> Leaves(v.items[i]) <= each
    ensures ListLeaves(v, n) <= n * each
  {
    if n == 0 {
    } else {
      ListLeavesBound(v, n - 1, each);
      Distribute(n - 1, each);
    }
  }

  lemma AtMost(n: nat, cap: nat, each: nat)
    requires n <= cap
    ensures n * each <= cap * each
  {
    assert cap * each == n * each + (cap - n) * each;
  }

  /** At most 24^3 scalars at the top, times 12 when a string list was kept at the cut-off depth. */
  lemma {:induction false} SizeBound(p: Policy, v: Value, depth: nat, unit: nat)
    requires unit >= 1 && (unit >= MAX_LIST || !DeepStrings(p, v, depth))
    ensures Leaves(Sanitized(p, v, depth)) <= Room(depth, unit)
    decreases v
  {
    match v
    case Map(m) =>
      if depth < MAX_DEPTH && KeptKeys(p, m) != {} {
        forall k | k in KeptKeys(p, m)
          ensures Leaves(Sanitized(p, m[k], depth + 1)) <= Room(depth + 1, unit)
        {
          SizeBound(p, m[k], depth + 1, unit);
        }
        MapFits(p, m, depth, Room(depth + 1, unit));
      }
    case List(items) =>
      if depth < MAX_DEPTH {
        forall i | 0 <= i < Cut(|items|)
          ensures Leaves(Sanitized(p, items[i], depth + 1)) <= Room(depth + 1, unit)
        {
          SizeBound(p, items[i], depth + 1, unit);
        }
        ListFits(p, items, depth, Room(depth + 1, unit));
      }
    case StrList(_) =>
      var out := Sanitized(p, v, depth);
      ListLeavesBound(out, |out.items|, 1);
    case Other(Some(j)) => SizeBound(p, j, depth, unit);
    case _ =>
  }

  lemma MapFits(p: Policy, m: map<string, Value>, depth: nat, each: nat)
    requires depth < MAX_DEPTH && KeptKeys(p, m) != {}
    requires forall k :: k in KeptKeys(p, m) ==> Leaves(Sanitized(p, m[k], depth + 1)) <= each
    ensures Leaves(Sanitized(p, Map(m), depth)) <= MAX_KEYS * each
  {
    var out := Sanitized(p, Map(m), depth);
    MapOf(p, m, depth);
    FirstKeysSize(PublicKeys(p, m), MAX_KEYS);
    MapLeavesBound(out, out.m.Keys, each);
    AtMost(|out.m.Keys|, MAX_KEYS, each);
  }

  lemma ListFits(p: Policy, items: seq<Value>, depth: nat, each: nat)
    requires depth < MAX_DEPTH
    requires forall i :: 0 <= i < Cut(|items|) ==> Leaves(Sanitized(p, items[i], depth + 1)) <= each
    ensures Leaves(Sanitized(p, List(items), depth)) <= MAX_KEYS * each
  {
    var out := Sanitized(p, List(items), depth);
    ListLeavesBound(out, |out.items|, each);
    AtMost(|out.items|, MAX_KEYS, each);
  }

  lemma RoomAtTop(unit: nat)
    ensures Room(0, unit) == 24 * 24 * 24 * unit
  {
    assert Room(2, unit) == MAX_KEYS * Room(3, unit) && Room(1, unit) == MAX_KEYS * Room(2, unit);
  }

  /** SanitizeEvidence on any evidence: 24^3 * 12 scalars, or 24^3 when no string list sits at the cut-off depth. */
  lemma EvidenceSize(p: Policy, evidence: Value)
    requires evidence.Map? || evidence.NilMap?
    ensures Leaves(SanitizeEvidence(p, evidence)) <= 24 * 24 * 24 * 12
    ensures !DeepStrings(p, evidence, 0) ==> Leaves(SanitizeEvidence(p, evidence)) <= 24 * 24 * 24
  {
    RoomAtTop(1);
    RoomAtTop(MAX_LIST);
    SizeBound(p, evidence, 0, MAX_LIST);
    if !DeepStrings(p, evidence, 0) {
      SizeBound(p, evidence, 0, 1);
    }
  }

  /** A map with one entry. */
  function Entry(k: string, v: Value): Value { Map(map[k := v]) }

  /** A short key is no secret: every marker of the source has at least five characters. */
  lemma ShortKeyIsPublic(lower: char -> char, k: string)
    requires |k| < 5
    ensures !IsSecretKey(SourcePolicy(lower), k)
  {
    assert forall m :: m in SECRET_KEY_MARKERS ==> |m| >= 5;
  }

  lemma OneEntryKept(p: Policy, k: string, v: Value)
    requires !IsSecretKey(p, k)
    ensures KeptKeys(p, Entry(k, v).m) == {k}
  {
    assert PublicKeys(p, Entry(k, v).m) == {k};
    SmallSetKept({k}, MAX_KEYS);
  }

  /** Three nested maps over a string list: sanitising the sanitised evidence drops the list. */
  lemma TwicePassesDiffer(lower: char -> char, strs: seq<string>)
    ensures
      var p := SourcePolicy(lower);
      var once := SanitizeEvidence(p, Entry("a", Entry("b", Entry("c", StrList(strs)))));
      once.Map? && SanitizeEvidence(p, once) != once
  {
    var p := SourcePolicy(lower);
    var inner := Entry("c", StrList(strs));
    var middle := Entry("b", inner);
    var evidence := Entry("a", middle);
    ShortKeyIsPublic(lower, "a");
    ShortKeyIsPublic(lower, "b");
    ShortKeyIsPublic(lower, "c");
    OneEntryKept(p, "a", middle);
    OneEntryKept(p, "b", inner);
    OneEntryKept(p, "c", StrList(strs));
    assert DeepStrings(p, StrList(strs), 3) && DeepStrings(p, inner, 2) && DeepStrings(p, middle, 1);
    assert DeepStrings(p, evidence, 0);
    Idempotent(p, evidence, 0);
  }

  // ----- secrets --------------------------------------------------------------------------

  /** The value with every secret key, at every depth, removed together with what is under it. */
  function Redacted(p: Policy, v: Value): Value
    decreases v
  {
    match v
    case Map(m) => Map(map k | k in m && !IsSecretKey(p, k) :: Redacted(p, m[k]))
    case List(items) => List(seq(|items|, i requires 0 <= i < |items| => Redacted(p, items[i])))
    case Other(Some(j)) => Other(Some(Redacted(p, j)))
    case _ => v
  }

  /** What is sent says nothing about secret entries: it is the same with them and without them. */
  lemma {:induction false} SecretsLeaveNoTrace(p: Policy, v: Value, depth: nat)
    ensures Sanitized(p, v, depth) == Sanitized(p, Redacted(p, v), depth)
    decreases v
  {
    match v
    case Map(m) =>
      forall k | k in PublicKeys(p, m)
        ensures Sanitized(p, m[k], depth + 1) == Sanitized(p, Redacted(p, m[k]), depth + 1)
      {
        SecretsLeaveNoTrace(p, m[k], depth + 1);
      }
      NoTraceInMap(p, m, depth);
    case List(items) =>
      forall i | 0 <= i < Cut(|items|)
        ensures Sanitized(p, items[i], depth + 1) == Sanitized(p, Redacted(p, items[i]), depth + 1)
      {
        SecretsLeaveNoTrace(p, items[i], depth + 1);
      }
    case Other(Some(j)) => SecretsLeaveNoTrace(p, j, depth);
    case _ =>
  }

  lemma NoTraceInMap(p: Policy, m: map<string, Value>, depth: nat)
    requires
      forall k :: k in PublicKeys(p, m) ==>
        Sanitized(p, m[k], depth + 1) == Sanitized(p, Redacted(p, m[k]), depth + 1)
    ensures Sanitized(p, Map(m), depth) == Sanitized(p, Redacted(p, Map(m)), depth)
  {
    var r := Redacted(p, Map(m)).m;
    assert PublicKeys(p, r) == PublicKeys(p, m);
    if depth < MAX_DEPTH && KeptKeys(p, m) != {} {
      assert Sanitized(p, Map(m), depth).m == Sanitized(p, Map(r), depth).m;
    }
  }

  ghost predicate SpelledAt(p: Policy, k: string, marker: string, i: nat) {
    i + |marker| <= |k| && forall j :: 0 <= j < |marker| ==> p.lower(k[i + j]) == marker[j]
  }

  /** The key spells a marker somewhere, in any case. */
  ghost predicate Spells(p: Policy, k: string) {
    exists m, i: nat :: m in p.markers && SpelledAt(p, k, m, i)
  }

  lemma SecretIsSpelled(p: Policy, k: string)
    ensures IsSecretKey(p, k) <==> Spells(p, k)
  {
    var lk := Lower(p, k);
    if IsSecretKey(p, k) {
      var m :| m in p.markers && Contains(lk, m);
      var i :| 0 <= i <= |lk| && OccursAt(lk, m, i);
      forall j | 0 <= j < |m|
        ensures p.lower(k[i + j]) == m[j]
      {
        assert lk[i + j] == lk[i..i + |m|][j];
      }
      assert SpelledAt(p, k, m, i);
    }
    if Spells(p, k) {
      var m, i: nat :| m in p.markers && SpelledAt(p, k, m, i);
      assert lk[i..i + |m|] == m;
      assert OccursAt(lk, m, i);
      assert Contains(lk, m);
    }
  }

  /** No key at any level of the value spells a marker. */
  ghost predicate NoneSpelled(p: Policy, v: Value)
    decreases v
  {
    match v
    case Map(m) => forall k :: k in m ==> !Spells(p, k) && NoneSpelled(p, m[k])
    case List(items) => forall i :: 0 <= i < |items| ==> NoneSpelled(p, items[i])
    case Other(Some(j)) => NoneSpelled(p, j)
    case _ => true
  }

  lemma {:induction false} BoundedSpellsNone(p: Policy, v: Value, depth: nat)
    requires Bounded(p, v, depth)
    ensures NoneSpelled(p, v)
    decreases v
  {
    match v
    case Map(m) =>
      forall k | k in m
        ensures !Spells(p, k) && NoneSpelled(p, m[k])
      {
        SecretIsSpelled(p, k);
        BoundedSpellsNone(p, m[k], depth + 1);
      }
    case List(items) =>
      forall i | 0 <= i < |items|
        ensures NoneSpelled(p, items[i])
      {
        BoundedSpellsNone(p, items[i], depth + 1);
      }
    case _ =>
  }

  /** No key at any level of what is sent holds a marker, in any case, anywhere in it. */
  lemma NoMarkerIsSent(p: Policy, evidence: Value)
    requires evidence.Map? || evidence.NilMap?
    ensures NoneSpelled(p, SanitizeEvidence(p, evidence))
  {
    OutputBounded(p, evidence, 0);
    BoundedSpellsNone(p, SanitizeEvidence(p, evidence), 0);
  }

  /** The keys of a map that spell no marker. */
  ghost function Unspelled(p: Policy, m: map<string, Value>): set<string> { set k | k in m && !Spells(p, k) }

  ghost function UnspelledBelow(p: Policy, m: map<string, Value>, k: string): set<string> {
    set j | j in Unspelled(p, m) && LexLess(j, k)
  }

  /** A map keeps exactly the keys that spell no marker and have fewer than 24 smaller ones among those. */
  lemma KeptExactly(p: Policy, m: map<string, Value>, depth: nat, k: string)
    requires depth < MAX_DEPTH
    ensures
      var out := Sanitized(p, Map(m), depth);
      (out.Map? && k in out.m) == (k in Unspelled(p, m) && |UnspelledBelow(p, m, k)| < 24) &&
      (out.Map? && k in out.m ==> out.m[k] == Sanitized(p, m[k], depth + 1))
  {
    UnspelledIsPublic(p, m);
    assert Below(PublicKeys(p, m), k) == UnspelledBelow(p, m, k);
    assert k in KeptKeys(p, m) <==> k in Unspelled(p, m) && |UnspelledBelow(p, m, k)| < 24;
    if KeptKeys(p, m) != {} {
      MapOf(p, m, depth);
    }
  }

  lemma UnspelledIsPublic(p: Policy, m: map<string, Value>)
    ensures Unspelled(p, m) == PublicKeys(p, m)
  {
    forall k | k in m
      ensures Spells(p, k) <==> IsSecretKey(p, k)
    {
      SecretIsSpelled(p, k);
    }
  }

  /** So with at most 24 such keys all of them survive. */
  lemma FewKeysSurvive(p: Policy, m: map<string, Value>, depth: nat, k: string)
    requires depth < MAX_DEPTH && k in m && !Spells(p, k) && |Unspelled(p, m)| <= 24
    ensures
      var out := Sanitized(p, Map(m), depth);
      out.Map? && k in out.m && out.m[k] == Sanitized(p, m[k], depth + 1)
  {
    KeptExactly(p, m, depth, k);
    LexIrreflexive(k);
    SubsetSize(UnspelledBelow(p, m, k), Unspelled(p, m) - {k});
  }

  /** For instance, "DB_Password" goes and "host" stays, with the source's markers. */
  lemma PasswordIsDropped(lower: char -> char, secret: string, hidden: Value, shown: Value)
    requires secret == "DB_Password" && lower('P') == 'p'
    requires forall c: char :: c in "assword" || c in "host" ==> lower(c) == c
    ensures
      var p := SourcePolicy(lower);
      var out := SanitizeEvidence(p, Map(map[secret := hidden, "host" := shown]));
      out.Map? && out.m == map["host" := Sanitized(p, shown, 1)]
  {
    var p, m := SourcePolicy(lower), map[secret := hidden, "host" := shown];
    PasswordIsSpelled(p, secret, SECRET_KEY_MARKERS[0]);
    SecretIsSpelled(p, secret);
    ShortKeyIsPublic(lower, "host");
    assert PublicKeys(p, m) == {"host"};
    SmallSetKept({"host"}, MAX_KEYS);
    MapOf(p, m, 0);
  }

  lemma PasswordIsSpelled(p: Policy, secret: string, marker: string)
    requires secret == "DB_Password" && marker == "password" && marker in p.markers
    requires p.lower('P') == 'p' && forall c: char :: c in "assword" ==> p.lower(c) == c
    ensures Spells(p, secret)
  {
    assert SpelledAt(p, secret, marker, 3) by {
      assert "assword" == secret[4..] && secret[4..] == marker[1..];
      assert forall j :: 1 <= j < 8 ==> secret[3 + j] == secret[4..][j - 1] && marker[j] == marker[1..][j - 1];
    }
  }

  // ----- lists, strings and product types --------------------------------------------------

  /** A list keeps its first 12 items, each sanitised one level deeper, in order. */
  lemma FirstItemsMatter(p: Policy, items: seq<Value>, depth: nat)
    requires depth < MAX_DEPTH
    ensures
      var out := Sanitized(p, List(items), depth);
      out.List? && |out.items| == (if |items| > 12 then 12 else |items|) &&
      forall i :: 0 <= i < |out.items| ==> out.items[i] == Sanitized(p, items[i], depth + 1)
  {
  }

  /** A string list comes out as the same list of strings would, except that it is never cut off for depth. */
  lemma StringListAsList(p: Policy, strs: seq<string>, depth: nat)
    ensures
      var plain := List(seq(|strs|, i requires 0 <= i < |strs| => Str(strs[i])));
      Sanitized(p, StrList(strs), depth) == Sanitized(p, plain, if depth < MAX_DEPTH then depth else 0)
  {
  }

  /** A string within the limit is kept; a longer one keeps its first 400 characters and gains the mark. */
  lemma StringsAreCut(p: Policy, s: string, depth: nat)
    ensures
      var out := Sanitized(p, Str(s), depth);
      out.Str? && (|s| <= 400 ==> out.s == s) &&
      (|s| > 400 ==> |out.s| == 401 && out.s[..400] == s[..400] && out.s[400] == '…')
  {
  }

  /** A product type is sanitised as its JSON. */
  lemma ProductAsJson(p: Policy, j: Value, depth: nat)
    ensures Sanitized(p, Other(Some(j)), depth) == Sanitized(p, j, depth)
    ensures Sanitized(p, Other(None), depth) == Str("[omitted: not serialisable]")
  {
  }

  /** Maps and lists at the cut-off depth become the mark. */
  lemma CutOff(p: Policy, v: Value, depth: nat)
    requires depth >= 3 && (v.Map? || v.NilMap? || v.List?)
    ensures Sanitized(p, v, depth) == Str("[omitted: nested too deep]")
  {
  }
}

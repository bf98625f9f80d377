/** The normalised finding and module metadata (core/finding.go, core/collector.go). */
module Findings {
  import opened Text

  datatype Option<+T> = None | Some(value: T)

  /** Source severities are strings; any string outside the five known ones is Unknown. */
  datatype Severity = Critical | High | Medium | Low | Info | Unknown(text: string) {
    function Rank(): int {
      match this
      case Critical => 4
      case High => 3
      case Medium => 2
      case Low => 1
      case Info => 0
      case Unknown(_) => -1
    }

    predicate Valid() { Rank() >= 0 }
  }

  /** The five severities in order, above anything else. */
  lemma SeverityOrder(text: string)
    ensures Critical.Rank() > High.Rank() > Medium.Rank() > Low.Rank() > Info.Rank() > Unknown(text).Rank()
  {
  }

  datatype Status = Open | Resolved | Acknowledged | Suppressed

  /** What is announced about a finding. */
  datatype EventKind = KindOpened | KindResolved

  const MAX_EVIDENCE_BYTES := 64 * 1024

  /** Evidence is opaque apart from how it serialises: to some JSON bytes, or not at all. */
  datatype Evidence =
    | NoEvidence
    | Json(bytes: seq<bv8>)
    | Unserialisable
    | ErrorMarker
    | TruncatedMarker(originalBytes: nat)

  datatype Finding = Finding(
    fingerprint: string,
    target: string,
    check: string,
    title: string,
    severity: Severity,
    remediation: string,
    evidence: Evidence,
    id: string,
    moduleId: string,
    status: Status,
    groupId: Option<string>,
    firstSeen: int,
    lastSeen: int,
    resolvedAt: Option<int>)

  datatype IngestField = FingerprintField | TargetField | CheckField | TitleField | RemediationField | SeverityField

  /** The fields in the order the source checks them. */
  function CheckOrder(field: IngestField): nat {
    match field
    case FingerprintField => 0
    case TargetField => 1
    case CheckField => 2
    case TitleField => 3
    case RemediationField => 4
    case SeverityField => 5
  }

  predicate Malformed(f: Finding, field: IngestField) {
    match field
    case FingerprintField => f.fingerprint == ""
    case TargetField => f.target == ""
    case CheckField => f.check == ""
    case TitleField => f.title == ""
    case RemediationField => f.remediation == ""
    case SeverityField => f.severity.Unknown?
  }

  /** The first malformed field; None when the finding is well-formed. */
  function ValidateForIngest(f: Finding): (r: Option<IngestField>)
    ensures r.Some? ==> Malformed(f, r.value)
    ensures forall field :: Malformed(f, field) ==> r.Some? && CheckOrder(r.value) <= CheckOrder(field)
  {
    if f.fingerprint == "" then Some(FingerprintField)
    else if f.target == "" then Some(TargetField)
    else if f.check == "" then Some(CheckField)
    else if f.title == "" then Some(TitleField)
    else if f.remediation == "" then Some(RemediationField)
    else if !f.severity.Valid() then Some(SeverityField)
    else None
  }

  /** Evidence that may be stored as it is. */
  predicate Storable(e: Evidence) { !e.Unserialisable? && (e.Json? ==> |e.bytes| <= MAX_EVIDENCE_BYTES) }

  /** capEvidence: what does not serialise, or serialises too large, becomes a marker. */
  function CapEvidence(f: Finding): (r: Finding)
    ensures r.(evidence := f.evidence) == f && Storable(r.evidence)
    ensures r == f <==> Storable(f.evidence)
    ensures !Storable(f.evidence) ==>
      r.evidence == if f.evidence.Json? then TruncatedMarker(|f.evidence.bytes|) else ErrorMarker
  {
    match f.evidence
    case Unserialisable => f.(evidence := ErrorMarker)
    case Json(bytes) => if |bytes| > MAX_EVIDENCE_BYTES then f.(evidence := TruncatedMarker(|bytes|)) else f
    case _ => f
  }

  datatype ModuleInfo = ModuleInfo(id: string, resolveAfter: int)

  function ResolveAfterOrDefault(m: ModuleInfo): (k: int)
    ensures k >= 1 && k >= m.resolveAfter && (k == 1 || k == m.resolveAfter)
  {
    if m.resolveAfter < 1 then 1 else m.resolveAfter
  }

  // ----- fingerprints -------------------------------------------------------

  function Preimage(moduleId: string, target: string, check: string, discriminator: string): string {
    moduleId + "|" + target + "|" + check + "|" + discriminator
  }

  /** The truncated SHA-256 of the preimage; `digest` stands for hash and hex encoding. */
  function Fingerprint(digest: string -> string, moduleId: string, target: string, check: string,
    discriminator: string): string {
    digest(Preimage(moduleId, target, check, discriminator))
  }

  ghost predicate CollisionFree(digest: string -> string) {
    forall x, y :: digest(x) == digest(y) ==> x == y
  }

  predicate BarFree(s: string) { '|' !in s }

  /** When no part but the last contains the separator, a fingerprint determines every part. */
  lemma FingerprintIdentifies(digest: string -> string, m: string, t: string, c: string, d: string, m': string,
    t': string, c': string, d': string)
    requires CollisionFree(digest)
    requires BarFree(m) && BarFree(t) && BarFree(c) && BarFree(m') && BarFree(t') && BarFree(c')
    requires Fingerprint(digest, m, t, c, d) == Fingerprint(digest, m', t', c', d')
    ensures m == m' && t == t' && c == c' && d == d'
  {
    assert Preimage(m, t, c, d) == m + ['|'] + (t + ['|'] + (c + ['|'] + d));
    assert Preimage(m', t', c', d') == m' + ['|'] + (t' + ['|'] + (c' + ['|'] + d'));
    CutInjective('|', m, t + ['|'] + (c + ['|'] + d), m', t' + ['|'] + (c' + ['|'] + d'));
    CutInjective('|', t, c + ['|'] + d, t', c' + ['|'] + d');
    CutInjective('|', c, d, c', d');
  }

  function Bars(s: string): nat {
    if s == "" then 0 else Bars(s[1..]) + if s[0] == '|' then 1 else 0
  }

  lemma {:induction false} BarsConcat(a: string, b: string)
    ensures Bars(a + b) == Bars(a) + Bars(b)
  {
    if a == "" {
      assert a + b == b;
    } else {
      assert (a + b)[1..] == a[1..] + b;
      BarsConcat(a[1..], b);
    }
  }

  lemma {:induction false} NoBars(s: string)
    ensures Bars(s) == 0 <==> BarFree(s)
  {
    if s == "" {
    } else {
      NoBars(s[1..]);
      assert s == [s[0]] + s[1..];
    }
  }

  lemma PreimageBars(m: string, t: string, c: string, d: string)
    ensures Bars(Preimage(m, t, c, d)) == Bars(m) + Bars(t) + Bars(c) + Bars(d) + 3
  {
    BarsConcat(m + "|" + t + "|" + c + "|", d);
    BarsConcat(m + "|" + t + "|" + c, "|");
    BarsConcat(m + "|" + t + "|", c);
    BarsConcat(m + "|" + t, "|");
    BarsConcat(m + "|", t);
    BarsConcat(m, "|");
    assert Bars("|") == Bars("") + 1;
  }

  /** No other four parts have this fingerprint. */
  ghost predicate Unmistakable(digest: string -> string, m: string, t: string, c: string, d: string) {
    forall m', t', c', d' :: Fingerprint(digest, m', t', c', d') == Fingerprint(digest, m, t, c, d) ==>
      m' == m && t' == t && c' == c && d' == d
  }

  /** A fingerprint says which four parts it was built from exactly when none of them holds the separator. */
  lemma FingerprintIsUnmistakable(digest: string -> string, m: string, t: string, c: string, d: string)
    requires CollisionFree(digest)
    ensures Unmistakable(digest, m, t, c, d) <==> BarFree(m) && BarFree(t) && BarFree(c) && BarFree(d)
  {
    if BarFree(m) && BarFree(t) && BarFree(c) && BarFree(d) {
      forall m', t', c', d' | Fingerprint(digest, m', t', c', d') == Fingerprint(digest, m, t, c, d)
        ensures m' == m && t' == t && c' == c && d' == d
      {
        OnlyDecomposition(digest, m, t, c, d, m', t', c', d');
      }
    } else {
      OtherDecomposition(digest, m, t, c, d);
    }
  }

  lemma OnlyDecomposition(
      digest: string -> string, m: string, t: string, c: string, d: string,
      m': string, t': string, c': string, d': string)
    requires CollisionFree(digest) && BarFree(m) && BarFree(t) && BarFree(c) && BarFree(d)
    requires Fingerprint(digest, m', t', c', d') == Fingerprint(digest, m, t, c, d)
    ensures m' == m && t' == t && c' == c && d' == d
  {
    PreimageBars(m, t, c, d);
    PreimageBars(m', t', c', d');
    NoBars(m);
    NoBars(t);
    NoBars(c);
    NoBars(d);
    NoBars(m');
    NoBars(t');
    NoBars(c');
    FingerprintIdentifies(digest, m', t', c', d', m, t, c, d);
  }

  lemma SplitAtBar(s: string) returns (a: string, b: string)
    requires !BarFree(s)
    ensures s == a + "|" + b && |a| < |s|
  {
    var i :| 0 <= i < |s| && s[i] == '|';
    a, b := s[..i], s[i + 1..];
    assert s == a + "|" + b;
  }

  lemma OtherDecomposition(digest: string -> string, m: string, t: string, c: string, d: string)
    requires !BarFree(m) || !BarFree(t) || !BarFree(c) || !BarFree(d)
    ensures !Unmistakable(digest, m, t, c, d)
  {
    if !BarFree(m) {
      var a, b := SplitAtBar(m);
      assert Preimage(a, b, t, c + "|" + d) == Preimage(m, t, c, d);
      assert Fingerprint(digest, a, b, t, c + "|" + d) == Fingerprint(digest, m, t, c, d);
    } else if !BarFree(t) {
      var a, b := SplitAtBar(t);
      assert Preimage(m, a, b, c + "|" + d) == Preimage(m, t, c, d);
      assert Fingerprint(digest, m, a, b, c + "|" + d) == Fingerprint(digest, m, t, c, d);
    } else if !BarFree(c) {
      var a, b := SplitAtBar(c);
      assert Preimage(m, t, a, b + "|" + d) == Preimage(m, t, c, d);
      assert Fingerprint(digest, m, t, a, b + "|" + d) == Fingerprint(digest, m, t, c, d);
    } else {
      var a, b := SplitAtBar(d);
      assert Preimage(m + "|" + t, c, a, b) == Preimage(m, t, c, d);
      assert Fingerprint(digest, m + "|" + t, c, a, b) == Fingerprint(digest, m, t, c, d);
      assert |m + "|" + t| > |m|;
    }
  }

  /** For instance, a target that passes for a domain can move part of itself into the check. */
  lemma BarBreaksFingerprints(digest: string -> string)
    ensures Fingerprint(digest, "asm", "a.b|c", "d", "e") == Fingerprint(digest, "asm", "a.b", "c", "d|e")
  {
    assert Preimage("asm", "a.b|c", "d", "e") == "asm|a.b|c|d|e" == Preimage("asm", "a.b", "c", "d|e");
  }
}

/**
 * The ownership gate: domain names (asm/collector.go, verify/verify.go), challenges and their proofs
 * (verify/verify.go, verify/memstore.go), and what Collect is allowed to touch (asm/collector.go).
 */
module Ownership {
  import opened Findings
  import opened Text

  const MODULE_ID := "asm"

  // ----- names ------------------------------------------------------------------

  /** unicode.ToLower, which strings.ToLower applies to every character. */
  type CaseMap = char -> char

  /** Lower case stays as it is. */
  ghost predicate Settles(lower: CaseMap) { forall c :: lower(lower(c)) == lower(c) }

  ghost predicate AsciiAsUsual(lower: CaseMap) {
    forall c: char :: c as int < 128 ==> lower(c) == if 'A' <= c <= 'Z' then c + 32 as char else c
  }

  predicate Lowered(lower: CaseMap, s: string) { forall i :: 0 <= i < |s| ==> lower(s[i]) == s[i] }

  predicate Pathless(s: string) { forall i :: 0 <= i < |s| ==> s[i] != '/' && s[i] != '?' && s[i] != '#' }

  function ToLower(lower: CaseMap, s: string): string { seq(|s|, i requires 0 <= i < |s| => lower(s[i])) }

  function AfterScheme(s: string): string {
    var i := IndexFrom(s, "://", 0);
    if i >= 0 then s[i + 3..] else s
  }

  function BeforePath(s: string): string {
    var i := IndexAnyFrom(s, "/?#", 0);
    if i >= 0 then s[..i] else s
  }

  function BeforePort(s: string): string {
    var i := LastIndexBelow(s, ':', |s|);
    if i >= 0 && ']' !in s then s[..i] else s
  }

  function TrimDot(s: string): string { if s != "" && s[|s| - 1] == '.' then s[..|s| - 1] else s }

  function Normalize(lower: CaseMap, raw: string): string {
    TrimDot(BeforePort(BeforePath(AfterScheme(TrimSpace(ToLower(lower, raw))))))
  }

  method NormalizeDomain(lower: CaseMap, raw: string) returns (s: string)
    ensures s == Normalize(lower, raw)
  {
    s := TrimSpace(ToLower(lower, raw));
    ghost var trimmed := s;
    var i := IndexFrom(s, "://", 0);
    if i >= 0 {
      s := s[i + 3..];
    }
    assert s == AfterScheme(trimmed);
    ghost var host := s;
    i := IndexAnyFrom(s, "/?#", 0);
    if i >= 0 {
      s := s[..i];
    }
    assert s == BeforePath(host);
    ghost var path := s;
    i := LastIndexBelow(s, ':', |s|);
    if i >= 0 && ']' !in s {
      s := s[..i];
    }
    assert s == BeforePort(path);
    s := TrimDot(s);
  }

  predicate Canonical(lower: CaseMap, z: string) { Lowered(lower, z) && Pathless(z) && Settled(z) }

  /** What a second normalisation could still change in a normalised name. */
  predicate Settled(z: string) {
    !HasEdgeSpace(z) && (':' in z ==> ']' in z) && (z != "" ==> z[|z| - 1] != '.')
  }

  lemma LowerFacts(lower: CaseMap, s: string)
    ensures |ToLower(lower, s)| == |s| && (Settles(lower) ==> Lowered(lower, ToLower(lower, s)))
    ensures ToLower(lower, s) == s <==> Lowered(lower, s)
  {
    assert forall i :: 0 <= i < |s| ==> ToLower(lower, s)[i] == lower(s[i]);
  }

  lemma SchemeFacts(lower: CaseMap, s: string)
    ensures |AfterScheme(s)| <= |s| && (|AfterScheme(s)| == |s| ==> AfterScheme(s) == s)
    ensures Lowered(lower, s) ==> Lowered(lower, AfterScheme(s))
    ensures Pathless(s) ==> AfterScheme(s) == s
  {
    var i := IndexFrom(s, "://", 0);
    assert i >= 0 ==> s[i..i + 3][1] == s[i + 1];
  }

  lemma PathFacts(lower: CaseMap, s: string)
    ensures |BeforePath(s)| <= |s| && (|BeforePath(s)| == |s| ==> BeforePath(s) == s)
    ensures Lowered(lower, s) ==> Lowered(lower, BeforePath(s))
    ensures Pathless(BeforePath(s)) && (Pathless(s) ==> BeforePath(s) == s)
  {
    var r := BeforePath(s);
    forall j | 0 <= j < |r|
      ensures r[j] != '/' && r[j] != '?' && r[j] != '#'
    {
      if s[j] in "/?#" {
        FirstOfAny(s, "/?#", 0, j);
      }
    }
  }

  lemma PortFacts(lower: CaseMap, s: string)
    ensures |BeforePort(s)| <= |s| && (|BeforePort(s)| == |s| ==> BeforePort(s) == s)
    ensures Lowered(lower, s) ==> Lowered(lower, BeforePort(s))
    ensures Pathless(s) ==> Pathless(BeforePort(s))
    ensures BeforePort(s) == s <==> (':' in s ==> ']' in s)
  {
    if ':' in s {
      var j :| 0 <= j < |s| && s[j] == ':';
      LastOccurrence(s, ':', |s|, j);
    }
  }

  lemma DotFacts(lower: CaseMap, s: string)
    ensures |TrimDot(s)| <= |s| && (|TrimDot(s)| == |s| ==> TrimDot(s) == s)
    ensures Lowered(lower, s) ==> Lowered(lower, TrimDot(s))
    ensures Pathless(s) ==> Pathless(TrimDot(s))
    ensures TrimDot(s) == s <==> (s != "" ==> s[|s| - 1] != '.')
  {
  }

  lemma OnlyDotLeft(lower: CaseMap, s: string)
    requires Lowered(lower, s) && Pathless(s) && !HasEdgeSpace(s) && (':' in s ==> ']' in s)
    ensures Normalize(lower, s) == TrimDot(s)
  {
    LowerFacts(lower, s);
    TrimmedWhole(s);
    SchemeFacts(lower, s);
    PathFacts(lower, s);
    PortFacts(lower, s);
  }

  /** The names normalisation leaves alone, exactly. */
  lemma FixedPoints(lower: CaseMap, z: string)
    ensures Normalize(lower, z) == z <==> Canonical(lower, z)
  {
    if Canonical(lower, z) {
      OnlyDotLeft(lower, z);
    }
    if Normalize(lower, z) == z {
      FixedIsCanonical(lower, z);
    }
  }

  lemma FixedIsCanonical(lower: CaseMap, z: string)
    requires Normalize(lower, z) == z
    ensures Canonical(lower, z)
  {
    var low := ToLower(lower, z);
    var trimmed := TrimSpace(low);
    var host := AfterScheme(trimmed);
    var path := BeforePath(host);
    var name := BeforePort(path);
    LowerFacts(lower, z);
    TrimmedWhole(low);
    SchemeFacts(lower, trimmed);
    PathFacts(lower, host);
    PortFacts(lower, path);
    DotFacts(lower, name);
    assert |low| == |trimmed| == |host| == |path| == |name| == |z|;
  }

  /** Normalised names are lower case and hold no path, query or fragment. */
  lemma NormalizedChars(lower: CaseMap, raw: string)
    requires Settles(lower)
    ensures Lowered(lower, Normalize(lower, raw)) && Pathless(Normalize(lower, raw))
  {
    var trimmed := TrimSpace(ToLower(lower, raw));
    var path := BeforePath(AfterScheme(trimmed));
    LowerFacts(lower, raw);
    assert Lowered(lower, trimmed);
    SchemeFacts(lower, trimmed);
    PathFacts(lower, AfterScheme(trimmed));
    PortFacts(lower, path);
    DotFacts(lower, BeforePort(path));
  }

  /** So on outputs only edge spaces, a port-like colon or one more dot can break idempotence. */
  lemma NormalizeTwice(lower: CaseMap, raw: string)
    requires Settles(lower)
    ensures Normalize(lower, Normalize(lower, raw)) == Normalize(lower, raw) <==> Settled(Normalize(lower, raw))
  {
    NormalizedChars(lower, raw);
    FixedPoints(lower, Normalize(lower, raw));
  }

  lemma CutScheme(scheme: string, rest: string)
    requires ':' !in scheme
    ensures AfterScheme(scheme + "://" + rest) == rest
  {
    var url := scheme + "://" + rest;
    var n := |scheme|;
    assert OccursAt(url, "://", n);
    FirstOccurrence(url, "://", 0, n);
    var i := IndexFrom(url, "://", 0);
    assert url[i] == url[i..i + 3][0];
    assert scheme == url[..n];
    assert url[n + 3..] == rest;
  }

  lemma CutPath(authority: string, tail: string)
    requires Pathless(authority) && tail != "" && tail[0] in "/?#"
    ensures BeforePath(authority + tail) == authority
  {
    var s := authority + tail;
    assert s[|authority|] == tail[0];
    FirstOfAny(s, "/?#", 0, |authority|);
    assert authority == s[..|authority|];
  }

  lemma CutPort(host: string, port: string)
    requires ':' !in port && ']' !in host && ']' !in port
    ensures BeforePort(host + ":" + port) == host
  {
    var s := host + ":" + port;
    assert s[|host|] == ':';
    LastOccurrence(s, ':', |s|, |host|);
    assert port == s[|host| + 1..];
    assert forall c :: c in s ==> c in host || c == ':' || c in port;
  }

  function Url(scheme: string, host: string, port: string, tail: string): string {
    scheme + "://" + (host + ":" + port + tail)
  }

  /** A full URL, in any case and with any spaces around it, normalises to its host. */
  lemma UrlNormalizesToHost(lower: CaseMap, raw: string, scheme: string, host: string, port: string, tail: string)
    requires TrimSpace(ToLower(lower, raw)) == Url(scheme, host, port, tail)
    requires ':' !in scheme
    requires Canonical(lower, host) && ':' !in host && ']' !in host
    requires Pathless(port) && ':' !in port && ']' !in port
    requires tail != "" && tail[0] in "/?#"
    ensures Normalize(lower, raw) == host
  {
    assert BeforePath(AfterScheme(Url(scheme, host, port, tail))) == host + ":" + port by {
      CutScheme(scheme, host + ":" + port + tail);
      JoinPathless(host, port);
      CutPath(host + ":" + port, tail);
    }
    CutPort(host, port);
  }

  lemma ExampleLowered(lower: CaseMap, raw: string, low: string)
    requires AsciiAsUsual(lower)
    requires raw == "HTTPS://Example.com:443/x" && low == "https://example.com:443/x"
    ensures TrimSpace(ToLower(lower, raw)) == low
  {
    assert ToLower(lower, raw) == low by {
      assert forall i :: 0 <= i < |raw| ==> lower(raw[i]) == low[i];
    }
    TrimmedWhole(low);
  }

  lemma ExampleHost(lower: CaseMap, host: string)
    requires AsciiAsUsual(lower) && host == "example.com"
    ensures Canonical(lower, host) && ':' !in host && ']' !in host
  {
  }

  lemma ExampleUrl(scheme: string, host: string, port: string, tail: string)
    requires scheme == "https" && host == "example.com" && port == "443" && tail == "/x"
    ensures Url(scheme, host, port, tail) == "https://example.com:443/x"
    ensures ':' !in scheme && Pathless(port) && ':' !in port && ']' !in port && tail[0] in "/?#"
  {
  }

  /** The example of the source's own comment. */
  lemma SourceExample(lower: CaseMap, raw: string, host: string)
    requires AsciiAsUsual(lower)
    requires raw == "HTTPS://Example.com:443/x" && host == "example.com"
    ensures Normalize(lower, raw) == host
  {
    var scheme, port, tail := "https", "443", "/x";
    ExampleLowered(lower, raw, "https://example.com:443/x");
    ExampleHost(lower, host);
    ExampleUrl(scheme, host, port, tail);
    UrlNormalizesToHost(lower, raw, scheme, host, port, tail);
  }

  lemma JoinPathless(host: string, port: string)
    requires Pathless(host) && Pathless(port)
    ensures Pathless(host + ":" + port)
  {
  }

  // ----- challenges ---------------------------------------------------------------

  datatype State = Pending | Verified

  datatype Challenge = Challenge(
    domain: string,
    token: string,
    state: State,
    createdAt: int,
    verifiedAt: Option<int>)
  {
    function DnsNames(): seq<string> { ["_hexward-verify." + domain, "_sentinel-verify." + domain] }

    function HttpUrls(): seq<string> {
      ["http://" + domain + "/.well-known/hexward-verify.txt", "http://" + domain + "/.well-known/sentinel-verify.txt"]
    }

    /** What a TXT record or a file must hold: the token after the current or the former prefix. */
    predicate Proof(text: string) {
      TrimSpace(text) == "hexward-verify=" + token || TrimSpace(text) == "sentinel-verify=" + token
    }
  }

  datatype Method = Dns | Http

  /** The two lookups, either of which may be absent; a lookup that fails yields None. */
  datatype Verifier = Verifier(
    lookupTXT: Option<string -> Option<seq<string>>>,
    fetchHTTP: Option<string -> Option<string>>)
  {
    predicate RecordsProve(c: Challenge, records: Option<seq<string>>) {
      records.Some? && exists r :: r in records.value && c.Proof(r)
    }

    predicate ByDns(c: Challenge) {
      lookupTXT.Some? && exists name :: name in c.DnsNames() && RecordsProve(c, lookupTXT.value(name))
    }

    predicate BodyProves(c: Challenge, body: Option<string>) { body.Some? && c.Proof(body.value) }

    predicate ByHttp(c: Challenge) {
      fetchHTTP.Some? && exists url :: url in c.HttpUrls() && BodyProves(c, fetchHTTP.value(url))
    }

    predicate Proves(c: Challenge) { ByDns(c) || ByHttp(c) }

    method Satisfied(c: Challenge) returns (ok: bool, how: Option<Method>)
      ensures ok <==> Proves(c)
      ensures how == if ByDns(c) then Some(Dns) else if ByHttp(c) then Some(Http) else None
    {
      if lookupTXT.Some? {
        var names := c.DnsNames();
        for i := 0 to |names|
          invariant forall j :: 0 <= j < i ==> !RecordsProve(c, lookupTXT.value(names[j]))
        {
          var records := lookupTXT.value(names[i]);
          if records.None? {
            continue;
          }
          for k := 0 to |records.value|
            invariant forall j :: 0 <= j < k ==> !c.Proof(records.value[j])
          {
            if c.Proof(records.value[k]) {
              return true, Some(Dns);
            }
          }
        }
      }
      if fetchHTTP.Some? {
        var urls := c.HttpUrls();
        for i := 0 to |urls|
          invariant forall j :: 0 <= j < i ==> !BodyProves(c, fetchHTTP.value(urls[j]))
        {
          var body := fetchHTTP.value(urls[i]);
          if body.None? {
            continue;
          }
          if c.Proof(body.value) {
            return true, Some(Http);
          }
        }
      }
      return false, None;
    }
  }

  predicate EndsInSpace(s: string) { s != "" && IsSpace(s[|s| - 1]) }

  /** The value the user is told to publish, or its form before the rename, proves it, with any spaces around it. */
  lemma PublishedValueProves(c: Challenge, prefix: string, a: string, b: string)
    requires prefix == "hexward-verify=" || prefix == "sentinel-verify="
    requires AllSpace(a) && AllSpace(b) && !EndsInSpace(c.token)
    ensures c.Proof(a + (prefix + c.token) + b)
  {
    var v := prefix + c.token;
    assert v[0] == prefix[0] && v[|v| - 1] == if c.token == "" then prefix[|prefix| - 1] else c.token[|c.token| - 1];
    TrimSpaceExact(a, v, b);
  }

  /** One text proves challenges of one token only. */
  lemma ProofBindsToken(c: Challenge, d: Challenge, text: string)
    requires c.Proof(text) && d.Proof(text)
    ensures c.token == d.token
  {
    SamePrefixes("hexward-verify=", "sentinel-verify=", c.token, d.token, TrimSpace(text));
  }

  lemma SamePrefixes(p: string, q: string, x: string, y: string, text: string)
    requires p != "" && q != "" && p[0] != q[0]
    requires text == p + x || text == q + x
    requires text == p + y || text == q + y
    ensures x == y
  {
    assert text[0] == p[0] ==> text == p + x && text == p + y;
    assert text[0] == q[0] ==> text == q + x && text == q + y;
    var n := if text[0] == p[0] then |p| else |q|;
    assert text[n..] == x && text[n..] == y;
  }

  /** A DNS name that is looked up belongs to one domain only. */
  lemma NamesBindDomain(c: Challenge, d: Challenge, name: string)
    requires name in c.DnsNames() && name in d.DnsNames()
    ensures c.domain == d.domain
  {
    var p, q := "_hexward-verify.", "_sentinel-verify.";
    assert name[1] == p[1] || name[1] == q[1];
    var n := if name[1] == p[1] then |p| else |q|;
    assert name[n..] == c.domain && name[n..] == d.domain;
  }

  /** So does a URL that is fetched. */
  lemma UrlsBindDomain(c: Challenge, d: Challenge, url: string)
    requires url in c.HttpUrls() && url in d.HttpUrls()
    ensures c.domain == d.domain
  {
    SameMiddle("http://", "/.well-known/hexward-verify.txt", "/.well-known/sentinel-verify.txt", 12, c.domain,
      d.domain, url);
  }

  lemma SameMiddle(head: string, p: string, q: string, n: nat, x: string, y: string, url: string)
    requires n <= |p| && n <= |q| && 0 < n && p[|p| - n] != q[|q| - n]
    requires url == head + x + p || url == head + x + q
    requires url == head + y + p || url == head + y + q
    ensures x == y
  {
    var at := |url| - n;
    assert url == head + x + p ==> url[at] == p[|p| - n];
    assert url == head + x + q ==> url[at] == q[|q| - n];
    assert url == head + y + p ==> url[at] == p[|p| - n];
    assert url == head + y + q ==> url[at] == q[|q| - n];
    var end := |url| - if url[at] == p[|p| - n] then |p| else |q|;
    assert url[|head|..end] == x && url[|head|..end] == y;
  }

  /** Publishing either value, in a record of either name or in either file, is enough. */
  lemma PublishingSuffices(v: Verifier, c: Challenge, value: string, prefix: string, a: string, b: string)
    requires prefix == "hexward-verify=" || prefix == "sentinel-verify="
    requires AllSpace(a) && AllSpace(b) && !EndsInSpace(c.token) && value == a + (prefix + c.token) + b
    ensures v.lookupTXT.Some? ==>
      forall name :: name in {"_hexward-verify.", "_sentinel-verify."} ==>
        (var records := v.lookupTXT.value(name + c.domain);
         records.Some? && value in records.value ==> v.Proves(c))
    ensures v.fetchHTTP.Some? ==>
      forall file :: file in {"/.well-known/hexward-verify.txt", "/.well-known/sentinel-verify.txt"} ==>
        (v.fetchHTTP.value("http://" + c.domain + file) == Some(value) ==> v.Proves(c))
  {
    PublishedValueProves(c, prefix, a, b);
    assert c.DnsNames()[0] == "_hexward-verify." + c.domain && c.DnsNames()[1] == "_sentinel-verify." + c.domain;
    assert c.HttpUrls()[0] == "http://" + c.domain + "/.well-known/hexward-verify.txt";
    assert c.HttpUrls()[1] == "http://" + c.domain + "/.well-known/sentinel-verify.txt";
  }

  /** The store's key joins module and domain. */
  type Key = (string, string)

  function At(domain: string): Key { (MODULE_ID, domain) }

  type Challenges = map<Key, Challenge>

  /** Put replaces whatever was stored for the challenge's own domain. */
  class ChallengeStore {
    var m: Challenges

    constructor ()
      ensures m == map[]
    {
      m := map[];
    }

    method Put(moduleId: string, c: Challenge)
      modifies this
      ensures m == old(m)[(moduleId, c.domain) := c]
    {
      m := m[(moduleId, c.domain) := c];
    }

    method Get(moduleId: string, domain: string) returns (c: Option<Challenge>)
      ensures c == if (moduleId, domain) in m then Some(m[(moduleId, domain)]) else None
    {
      c := if (moduleId, domain) in m then Some(m[(moduleId, domain)]) else None;
    }

    method Delete(moduleId: string, domain: string)
      modifies this
      ensures m == old(m) - {(moduleId, domain)}
    {
      m := m - {(moduleId, domain)};
    }
  }

  // ----- the collector ----------------------------------------------------------------

  datatype Refusal = NotADomain | IsAddress | NotFull | EmptyDomain

  datatype Target = Target(raw: string, canonical: string)

  datatype Validation = Accepted(target: Target) | Refused(why: Refusal)

  /** net.ParseIP accepts the text. */
  type AddressTest = string -> bool

  predicate LooksLikeDomain(isIP: AddressTest, z: string) { z != "" && !isIP(z) && '.' in z }

  /** ValidateTarget succeeds: a challenge is on record, or one can be issued. */
  predicate Accepts(lower: CaseMap, isIP: AddressTest, m: Challenges, raw: string) {
    var z := Normalize(lower, raw);
    LooksLikeDomain(isIP, z) && (At(z) in m || Normalize(lower, z) != "")
  }

  /** The store after ValidateTarget: the new challenge goes under the name normalised once more. */
  function Issued(lower: CaseMap, isIP: AddressTest, m: Challenges, raw: string, token: string, now: int): Challenges {
    IssuedAs(isIP, m, Normalize(lower, raw), Normalize(lower, Normalize(lower, raw)), token, now)
  }

  function IssuedAs(isIP: AddressTest, m: Challenges, z: string, d: string, token: string, now: int): Challenges {
    if !LooksLikeDomain(isIP, z) || At(z) in m || d == "" then m
    else m[At(d) := Challenge(d, token, Pending, now, None)]
  }

  datatype Outcome = NoChallenge | StillPending | Discovering

  /** Collect goes on to discovery and probing. */
  predicate Discovers(m: Challenges, domain: string, v: Verifier) {
    At(domain) in m && (m[At(domain)].state.Verified? || v.Proves(m[At(domain)]))
  }

  function Collected(m: Challenges, domain: string, v: Verifier, now: int): Challenges {
    if At(domain) in m && m[At(domain)].state.Pending? && v.Proves(m[At(domain)]) then
      var c := m[At(domain)].(state := Verified, verifiedAt := Some(now));
      m[At(c.domain) := c]
    else m
  }

  method NewChallenge(lower: CaseMap, domain: string, token: string, now: int) returns (c: Option<Challenge>)
    ensures
      var d := Normalize(lower, domain);
      c == if d == "" then None else Some(Challenge(d, token, Pending, now, None))
  {
    var d := NormalizeDomain(lower, domain);
    if d == "" {
      return None;
    }
    c := Some(Challenge(d, token, Pending, now, None));
  }

  class Collector {
    const store: ChallengeStore
    const lower: CaseMap
    const isIP: AddressTest

    constructor (store: ChallengeStore, lower: CaseMap, isIP: AddressTest)
      ensures this.store == store && this.lower == lower && this.isIP == isIP
    {
      this.store, this.lower, this.isIP := store, lower, isIP;
    }

    method ValidateTarget(raw: string, token: string, now: int) returns (r: Validation)
      modifies store
      ensures store.m == Issued(lower, isIP, old(store.m), raw, token, now)
      ensures
        var z := Normalize(lower, raw);
        r == if Accepts(lower, isIP, old(store.m), raw) then Accepted(Target(raw, z))
             else if z == "" then Refused(NotADomain)
             else if isIP(z) then Refused(IsAddress)
             else if '.' !in z then Refused(NotFull)
             else Refused(EmptyDomain)
    {
      var d := NormalizeDomain(lower, raw);
      if d == "" {
        return Refused(NotADomain);
      }
      if isIP(d) {
        return Refused(IsAddress);
      }
      if '.' !in d {
        return Refused(NotFull);
      }
      var have := store.Get(MODULE_ID, d);
      if have.None? {
        var ch := NewChallenge(lower, d, token, now);
        if ch.None? {
          return Refused(EmptyDomain);
        }
        store.Put(MODULE_ID, ch.value);
      }
      r := Accepted(Target(raw, d));
    }

    /** Collect up to the point where it may start discovery. */
    method Collect(domain: string, v: Verifier, now: int) returns (r: Outcome)
      modifies store
      ensures store.m == Collected(old(store.m), domain, v, now)
      ensures r == Discovering <==> Discovers(old(store.m), domain, v)
      ensures r == NoChallenge <==> At(domain) !in old(store.m)
    {
      var have := store.Get(MODULE_ID, domain);
      if have.None? {
        return NoChallenge;
      }
      var ch := have.value;
      if ch.state != Verified {
        var satisfied, _ := v.Satisfied(ch);
        if !satisfied {
          return StillPending;
        }
        ch := ch.(state := Verified, verifiedAt := Some(now));
        store.Put(MODULE_ID, ch);
      }
      r := Discovering;
    }
  }
}

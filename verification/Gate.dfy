/** The ownership gate over whole runs of ValidateTarget and Collect (asm/collector.go, verify/verify.go). */
module Gate {
  import opened Findings
  import opened Ownership
  import Text

  datatype Op =
    | Validate(raw: string, token: string, now: int)
    | Collect(domain: string, verifier: Verifier, at: int)

  /** The address test and the name function; the facts about runs hold whatever these two are. */
  datatype Env = Env(isIP: AddressTest, norm: string -> string)

  /** The collector's own: its names go through normalizeDomain. */
  function Asm(lower: CaseMap, isIP: AddressTest): Env { Env(isIP, raw => Normalize(lower, raw)) }

  function Applied(e: Env, m: Challenges, op: Op): Challenges {
    match op
    case Validate(raw, token, now) => IssuedAs(e.isIP, m, e.norm(raw), e.norm(e.norm(raw)), token, now)
    case Collect(domain, v, now) => Collected(m, domain, v, now)
  }

  function After(e: Env, ops: seq<Op>): Challenges {
    if ops == [] then map[] else Applied(e, After(e, ops[..|ops| - 1]), ops[|ops| - 1])
  }

  lemma AsmIssues(lower: CaseMap, isIP: AddressTest, m: Challenges, raw: string, token: string, now: int)
    ensures Applied(Asm(lower, isIP), m, Validate(raw, token, now)) == Issued(lower, isIP, m, raw, token, now)
  {
  }

  // ----- one ValidateTarget ---------------------------------------------------------

  /** An accepted name's challenge is on record where Collect will look exactly if it was or the name is canonical. */
  lemma IssuedWhereCollectReads(lower: CaseMap, isIP: AddressTest, m: Challenges, raw: string, token: string, now: int)
    ensures Accepts(lower, isIP, m, raw) ==>
      (At(Normalize(lower, raw)) in Issued(lower, isIP, m, raw, token, now) <==>
       At(Normalize(lower, raw)) in m || Canonical(lower, Normalize(lower, raw)))
  {
    FixedPoints(lower, Normalize(lower, raw));
  }

  ghost predicate Keeps(before: Challenges, after: Challenges) {
    forall k :: k in before ==> k in after && after[k] == before[k]
  }

  ghost predicate NeverRevokes(isIP: AddressTest, z: string, d: string) {
    forall m: Challenges, token, now :: Keeps(m, IssuedAs(isIP, m, z, d, token, now))
  }

  /** Adding a name can replace an existing challenge exactly when it is accepted but not canonical. */
  lemma RevokesExactlyWhenUnsettled(lower: CaseMap, isIP: AddressTest, raw: string)
    ensures
      var z := Normalize(lower, raw);
      var d := Normalize(lower, z);
      NeverRevokes(isIP, z, d) <==> !LooksLikeDomain(isIP, z) || d == "" || Canonical(lower, z)
  {
    FixedPoints(lower, Normalize(lower, raw));
    RevokesUnlessSame(isIP, Normalize(lower, raw), Normalize(lower, Normalize(lower, raw)));
  }

  lemma RevokesUnlessSame(isIP: AddressTest, z: string, d: string)
    ensures NeverRevokes(isIP, z, d) <==> !LooksLikeDomain(isIP, z) || d == "" || d == z
  {
    if LooksLikeDomain(isIP, z) && d != "" && d != z {
      var m: Challenges := map[At(d) := Challenge(d, "old", Verified, 0, Some(0))];
      var after := IssuedAs(isIP, m, z, d, "new", 1);
      assert At(z) !in m && At(d) in m && after[At(d)] != m[At(d)];
      assert !Keeps(m, after);
    }
  }

  /** For instance, adding a verified domain with two dots behind it turns it back to pending. */
  lemma TwoDotsRevoke(lower: CaseMap, isIP: AddressTest, m: Challenges, host: string, token: string, now: int)
    requires lower('.') == '.' && Canonical(lower, host) && host != "" && !isIP(host + ".") && At(host + ".") !in m
    ensures Issued(lower, isIP, m, host + "..", token, now) == m[At(host) := Challenge(host, token, Pending, now, None)]
  {
    var z := host + ".";
    TwoDotsNames(lower, host, z);
    DottedRevokes(isIP, m, z, host, token, now);
  }

  lemma TwoDotsNames(lower: CaseMap, host: string, z: string)
    requires lower('.') == '.' && Canonical(lower, host) && z == host + "."
    ensures Normalize(lower, host + "..") == z && Normalize(lower, z) == host
  {
    assert z + "." == host + "..";
    OneDotDropped(lower, z);
    OneDotDropped(lower, host);
  }

  lemma DottedRevokes(isIP: AddressTest, m: Challenges, z: string, host: string, token: string, now: int)
    requires z == host + "." && host != "" && !isIP(z) && At(z) !in m
    ensures IssuedAs(isIP, m, z, host, token, now) == m[At(host) := Challenge(host, token, Pending, now, None)]
  {
    assert z[|host|] == '.';
  }

  lemma OneDotDropped(lower: CaseMap, s: string)
    requires lower('.') == '.' && Lowered(lower, s) && Pathless(s) && !Text.HasEdgeSpace(s) && (':' in s ==> ']' in s)
    ensures Normalize(lower, s + ".") == s
  {
    var dotted := s + ".";
    assert forall c :: c in dotted <==> c in s || c == '.';
    OnlyDotLeft(lower, dotted);
  }

  // ----- whole runs -------------------------------------------------------------------

  /** c was pending under its own domain when a Collect of that domain found it satisfied. */
  ghost predicate ProvedAt(e: Env, ops: seq<Op>, j: nat, c: Challenge)
    requires j < |ops|
  {
    ops[j].Collect? && ops[j].domain == c.domain &&
    At(c.domain) in After(e, ops[..j]) &&
    var p := After(e, ops[..j])[At(c.domain)];
    p == c.(state := Pending, verifiedAt := None) && ops[j].verifier.Proves(p) && c.verifiedAt == Some(ops[j].at)
  }

  ghost predicate Proved(e: Env, ops: seq<Op>, c: Challenge) {
    exists j :: 0 <= j < |ops| && ProvedAt(e, ops, j, c)
  }

  ghost predicate Sound(e: Env, ops: seq<Op>, k: Key, c: Challenge) {
    k == At(c.domain) && (c.state.Pending? ==> c.verifiedAt == None) && (c.state.Verified? ==> Proved(e, ops, c))
  }

  /** Every stored challenge sits under its own domain, and a verified one was once proved. */
  lemma {:induction false} VerifiedWasProved(e: Env, ops: seq<Op>, k: Key)
    requires k in After(e, ops)
    ensures Sound(e, ops, k, After(e, ops)[k])
  {
    if ops == [] {
    } else {
      var n := |ops| - 1;
      var m := After(e, ops[..n]);
      var c := After(e, ops)[k];
      if ops[n].Collect? && At(ops[n].domain) in m {
        VerifiedWasProved(e, ops[..n], At(ops[n].domain));
      }
      if k in m && c == m[k] {
        VerifiedWasProved(e, ops[..n], k);
        if c.state.Verified? {
          StillProved(e, ops, c);
        }
      } else if c.state.Verified? {
        assert ProvedAt(e, ops, n, c);
      }
    }
  }

  lemma StillProved(e: Env, ops: seq<Op>, c: Challenge)
    requires ops != [] && Proved(e, ops[..|ops| - 1], c)
    ensures Proved(e, ops, c)
  {
    var before := ops[..|ops| - 1];
    var j :| 0 <= j < |before| && ProvedAt(e, before, j, c);
    assert before[..j] == ops[..j];
    assert ProvedAt(e, ops, j, c);
  }

  /** The stored challenge of the domain Collect works on, at step j, was satisfied in that very call. */
  ghost predicate SatisfiedIn(e: Env, ops: seq<Op>, j: nat, domain: string, token: string)
    requires j < |ops|
  {
    ops[j].Collect? && ops[j].domain == domain && At(domain) in After(e, ops[..j]) &&
    var p := After(e, ops[..j])[At(domain)];
    p.domain == domain && p.token == token && p.state.Pending? && ops[j].verifier.Proves(p)
  }

  /** No discovery without proof: the challenge on record was satisfied in this Collect or an earlier one. */
  lemma DiscoveryNeedsProof(e: Env, ops: seq<Op>, i: nat)
    requires i < |ops| && ops[i].Collect?
    requires Discovers(After(e, ops[..i]), ops[i].domain, ops[i].verifier)
    ensures
      var c := After(e, ops[..i])[At(ops[i].domain)];
      exists j :: 0 <= j <= i && SatisfiedIn(e, ops, j, ops[i].domain, c.token)
  {
    var before := ops[..i];
    var d := ops[i].domain;
    var c := After(e, before)[At(d)];
    VerifiedWasProved(e, before, At(d));
    if c.state.Verified? {
      var j :| 0 <= j < |before| && ProvedAt(e, before, j, c);
      assert before[..j] == ops[..j];
      assert SatisfiedIn(e, ops, j, d, c.token);
    } else {
      assert SatisfiedIn(e, ops, i, d, c.token);
    }
  }

  /** The Validate replaces the challenge of d: its name is accepted, not on record, and normalises to d only now. */
  predicate Replaces(e: Env, m: Challenges, op: Op, d: string) {
    op.Validate? && At(d) in m && d != "" && e.norm(e.norm(op.raw)) == d &&
    LooksLikeDomain(e.isIP, e.norm(op.raw)) && At(e.norm(op.raw)) !in m
  }

  /** Canonical names replace no challenge. */
  lemma CanonicalReplacesNone(lower: CaseMap, isIP: AddressTest, m: Challenges, op: Op, d: string)
    requires op.Validate? && Canonical(lower, Normalize(lower, op.raw))
    ensures !Replaces(Asm(lower, isIP), m, op, d)
  {
    FixedPoints(lower, Normalize(lower, op.raw));
  }

  /** Same challenge, except that a pending one may have become verified. */
  predicate SameChallenge(was: Challenge, now: Challenge) {
    was.domain == now.domain && was.token == now.token && was.createdAt == now.createdAt &&
    (was.state.Verified? ==> now == was)
  }

  /** No step from i on replaces the challenge of d. */
  ghost predicate Spares(e: Env, ops: seq<Op>, i: nat, d: string)
    requires i <= |ops|
    decreases |ops|
  {
    i == |ops| ||
    (var n := |ops| - 1;
     Spares(e, ops[..n], i, d) && !Replaces(e, After(e, ops[..n]), ops[n], d))
  }

  /** Every token issued from i on is another one; NewChallenge draws 128 random bits. */
  predicate OtherTokens(ops: seq<Op>, i: nat, token: string) {
    forall j :: i <= j < |ops| && ops[j].Validate? ==> ops[j].token != token
  }

  /**
   * Once issued, the challenge of d is never gone. While no step replaces it, its token stays and
   * verified stays verified; and since new tokens are other tokens, it is the same exactly that long.
   */
  lemma {:induction false} TokenIsStable(e: Env, ops: seq<Op>, i: nat, d: string)
    requires i <= |ops| && At(d) in After(e, ops[..i])
    ensures At(d) in After(e, ops)
    ensures Spares(e, ops, i, d) ==> SameChallenge(After(e, ops[..i])[At(d)], After(e, ops)[At(d)])
    ensures
      var was, now := After(e, ops[..i])[At(d)], After(e, ops)[At(d)];
      OtherTokens(ops, i, was.token) ==> (now.token == was.token <==> Spares(e, ops, i, d))
    decreases |ops|
  {
    if i == |ops| {
      assert ops[..i] == ops;
    } else {
      var n := |ops| - 1;
      assert ops[..n][..i] == ops[..i];
      TokenIsStable(e, ops[..n], i, d);
      StepChallenge(e, ops[..n], ops[n], d);
    }
  }

  /** What one step does to the challenge of d, exactly. */
  lemma StepChallenge(e: Env, before: seq<Op>, op: Op, d: string)
    requires At(d) in After(e, before)
    ensures
      var m := After(e, before);
      At(d) in Applied(e, m, op) &&
      if Replaces(e, m, op, d) then Applied(e, m, op)[At(d)] == Challenge(d, op.token, Pending, op.now, None)
      else SameChallenge(m[At(d)], Applied(e, m, op)[At(d)])
  {
    VerifiedWasProved(e, before, At(d));
    if op.Collect? && At(op.domain) in After(e, before) {
      VerifiedWasProved(e, before, At(op.domain));
    }
    if op.Validate? {
      NoEmptyDomain(e, before);
    }
  }

  lemma {:induction false} NoEmptyDomain(e: Env, ops: seq<Op>)
    ensures At("") !in After(e, ops)
  {
    if ops == [] {
    } else {
      var op := ops[|ops| - 1];
      NoEmptyDomain(e, ops[..|ops| - 1]);
      if op.Collect? && At(op.domain) in After(e, ops[..|ops| - 1]) {
        VerifiedWasProved(e, ops[..|ops| - 1], At(op.domain));
      }
    }
  }

  // ----- when a challenge is verified -----------------------------------------------------

  /** What a Collect does: it verifies its own pending challenge if that is proved, keeping token and issue time. */
  lemma ProofIsStored(m: Challenges, d: string, v: Verifier, now: int)
    requires At(d) in m && m[At(d)].domain == d
    ensures
      var was, after := m[At(d)], Collected(m, d, v, now);
      after.Keys == m.Keys && (forall k :: k in m && k != At(d) ==> after[k] == m[k]) &&
      after[At(d)].domain == d && after[At(d)].token == was.token && after[At(d)].createdAt == was.createdAt &&
      (after[At(d)].state.Verified? <==> was.state.Verified? || v.Proves(was)) &&
      (was.state.Pending? && v.Proves(was) ==> after[At(d)].verifiedAt == Some(now))
  {
  }

  /** Step i is a Collect of d that went on to discovery, and no later step replaced the challenge. */
  ghost predicate WonAt(e: Env, ops: seq<Op>, d: string, i: nat) {
    i < |ops| && ops[i].Collect? && ops[i].domain == d && Discovers(After(e, ops[..i]), d, ops[i].verifier) &&
    Spares(e, ops, i + 1, d)
  }

  ghost predicate Won(e: Env, ops: seq<Op>, d: string) { exists i :: WonAt(e, ops, d, i) }

  lemma WonEarlier(e: Env, ops: seq<Op>, d: string, i: nat)
    requires i < |ops| - 1
    ensures
      var n := |ops| - 1;
      WonAt(e, ops, d, i) <==> WonAt(e, ops[..n], d, i) && !Replaces(e, After(e, ops[..n]), ops[n], d)
  {
    assert ops[..|ops| - 1][..i] == ops[..i];
  }

  lemma WonSnoc(e: Env, ops: seq<Op>, d: string)
    requires ops != []
    ensures
      var before, op := ops[..|ops| - 1], ops[|ops| - 1];
      Won(e, ops, d) <==>
        (op.Collect? && op.domain == d && Discovers(After(e, before), d, op.verifier)) ||
        (Won(e, before, d) && !Replaces(e, After(e, before), op, d))
  {
    var n := |ops| - 1;
    var before, op := ops[..n], ops[n];
    if op.Collect? && op.domain == d && Discovers(After(e, before), d, op.verifier) {
      assert WonAt(e, ops, d, n);
    }
    if Won(e, before, d) && !Replaces(e, After(e, before), op, d) {
      var i: nat :| WonAt(e, before, d, i);
      WonEarlier(e, ops, d, i);
    }
    if Won(e, ops, d) {
      var i: nat :| WonAt(e, ops, d, i);
      if i < n {
        WonEarlier(e, ops, d, i);
      }
    }
  }

  predicate IsVerified(m: Challenges, d: string) { At(d) in m && m[At(d)].state.Verified? }

  lemma VerifiedStep(e: Env, before: seq<Op>, op: Op, d: string)
    ensures
      var m := After(e, before);
      IsVerified(Applied(e, m, op), d) <==>
        (op.Collect? && op.domain == d && Discovers(m, d, op.verifier)) || (IsVerified(m, d) && !Replaces(e, m, op, d))
  {
    var m := After(e, before);
    if op.Collect? && At(op.domain) in m {
      VerifiedWasProved(e, before, At(op.domain));
    }
    if op.Validate? {
      NoEmptyDomain(e, before);
    }
  }

  /** After every run a challenge is verified exactly if some Collect found it proved and none replaced it since. */
  lemma {:induction false} VerifiedExactly(e: Env, ops: seq<Op>, d: string)
    ensures IsVerified(After(e, ops), d) <==> Won(e, ops, d)
  {
    if ops == [] {
    } else {
      var n := |ops| - 1;
      VerifiedExactly(e, ops[..n], d);
      VerifiedStep(e, ops[..n], ops[n], d);
      WonSnoc(e, ops, d);
    }
  }

  /** So a domain once proved is discovered by every later Collect, whatever the verifier says by then. */
  lemma ProvedForGood(e: Env, ops: seq<Op>, d: string, v: Verifier)
    requires Won(e, ops, d)
    ensures Discovers(After(e, ops), d, v)
  {
    VerifiedExactly(e, ops, d);
  }
}

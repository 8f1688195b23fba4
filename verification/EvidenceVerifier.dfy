/**
 The evidence verifier: it accepts or rejects claims by comparison alone, on
 whether every cited reference was admitted and whether two nodes assert
 opposite polarity on one statement.
 */
module EvidenceVerifier {
  import opened Prelude

  datatype Claim = Claim(
    nodeId: string, claimId: string, statement: string, confidence: string, evidenceRefs: seq<string>)

  datatype Reason = UnsupportedEvidence | ContradictsPeerClaim

  datatype Rejection = Rejection(claimId: string, statement: string, reason: Reason)

  datatype Severity = Critical | Advisory

  datatype Contradiction = Contradiction(leftClaimId: string, rightClaimId: string, severity: Severity)

  datatype Verdict = Failed | AcceptedWithRejections | AllAccepted

  datatype Verification = Verification(
    verdict: Verdict, acceptedClaims: seq<Claim>, rejectedClaims: seq<Rejection>,
    contradictions: seq<Contradiction>, missingEvidence: seq<string>)

  const NEGATION_PREFIX := "NOT: "

  // ---------------------------------------------------------------------
  // Polarity and keys
  // ---------------------------------------------------------------------

  datatype Polarity = Polarity(base: string, negated: bool)

  function PolarityOf(statement: string): Polarity {
    if NEGATION_PREFIX <= statement then Polarity(statement[|NEGATION_PREFIX|..], true)
    else Polarity(statement, false)
  }

  predicate Contradicts(a: Claim, b: Claim) {
    && a.nodeId != b.nodeId
    && PolarityOf(a.statement).base == PolarityOf(b.statement).base
    && PolarityOf(a.statement).negated != PolarityOf(b.statement).negated
  }

  /**
   Two claims contradict exactly when different nodes made them and one is the
   other with one negation added to a statement that has none.
   */
  lemma ContradictionIsOneNegation(a: Claim, b: Claim)
    ensures Contradicts(a, b) <==>
      a.nodeId != b.nodeId
      && ((a.statement == "NOT: " + b.statement && !("NOT: " <= b.statement))
          || (b.statement == "NOT: " + a.statement && !("NOT: " <= a.statement)))
  {
    var p := "NOT: ";
    assert (p + a.statement)[|p|..] == a.statement && (p + b.statement)[|p|..] == b.statement;
    if p <= a.statement {
      assert a.statement == p + a.statement[|p|..];
    }
    if p <= b.statement {
      assert b.statement == p + b.statement[|p|..];
    }
  }

  /** The text a claim is remembered by. */
  function ClaimKey(c: Claim): string {
    c.nodeId + "::" + c.claimId
  }

  /** What every key of a node starts with. */
  function KeyPrefix(nodeId: string): string {
    nodeId + "::"
  }

  /** Neither node's key prefix starts with the other's. */
  predicate Separable(n: string, m: string) {
    !(KeyPrefix(n) <= KeyPrefix(m)) && !(KeyPrefix(m) <= KeyPrefix(n))
  }

  lemma KeyStartsWithPrefix(nodeId: string, claimId: string)
    ensures KeyPrefix(nodeId) + claimId == nodeId + "::" + claimId
    ensures KeyPrefix(nodeId) <= KeyPrefix(nodeId) + claimId
  {
  }

  /** A claim id that gives one node's key the text of another node's key. */
  lemma PrefixCollides(n: string, m: string, j: string) returns (i: string)
    requires KeyPrefix(n) <= KeyPrefix(m)
    ensures n + "::" + i == m + "::" + j
  {
    i := KeyPrefix(m)[|KeyPrefix(n)|..] + j;
    assert KeyPrefix(m) == KeyPrefix(n) + KeyPrefix(m)[|KeyPrefix(n)|..];
  }

  lemma PrefixesOfOne(a: string, b: string, whole: string)
    requires a <= whole && b <= whole
    ensures a <= b || b <= a
  {
  }

  /** Keys of two nodes can never meet exactly when the nodes are separable. */
  lemma KeysNeverMeet(n: string, m: string)
    requires n != m
    ensures (forall i, j :: n + "::" + i != m + "::" + j) <==> Separable(n, m)
  {
    if KeyPrefix(n) <= KeyPrefix(m) {
      var i := PrefixCollides(n, m, "");
      assert n + "::" + i == m + "::" + "";
    } else if KeyPrefix(m) <= KeyPrefix(n) {
      var j := PrefixCollides(m, n, "");
      assert n + "::" + "" == m + "::" + j;
    } else {
      forall i, j ensures n + "::" + i != m + "::" + j {
        KeyStartsWithPrefix(n, i);
        KeyStartsWithPrefix(m, j);
        var k, l := KeyPrefix(n) + i, KeyPrefix(m) + j;
        if k == l {
          PrefixesOfOne(KeyPrefix(n), KeyPrefix(m), k);
        }
      }
    }
  }

  /** Within one node the key tells claim ids apart. */
  lemma OwnKeysDiffer(nodeId: string, i: string, j: string)
    ensures nodeId + "::" + i == nodeId + "::" + j <==> i == j
  {
    KeyStartsWithPrefix(nodeId, i);
    KeyStartsWithPrefix(nodeId, j);
    var k, l := KeyPrefix(nodeId) + i, KeyPrefix(nodeId) + j;
    assert k[|KeyPrefix(nodeId)|..] == i && l[|KeyPrefix(nodeId)|..] == j;
  }

  function MissingRefs(refs: seq<string>, admitted: set<string>): (missing: seq<string>)
    ensures forall r :: r in missing <==> r in refs && r !in admitted
  {
    if refs == [] then []
    else if refs[0] in admitted then MissingRefs(refs[1..], admitted)
    else [refs[0]] + MissingRefs(refs[1..], admitted)
  }

  predicate Unsupported(c: Claim, admitted: set<string>) {
    exists r | r in c.evidenceRefs :: r !in admitted
  }

  // ---------------------------------------------------------------------
  // What is accepted
  // ---------------------------------------------------------------------

  /** Some claim kept under this key cites a reference that was not admitted. */
  predicate KeyUnsupported(key: string, claims: seq<Claim>, admitted: set<string>) {
    exists c | c in claims :: ClaimKey(c) == key && Unsupported(c, admitted)
  }

  predicate Opposed(c: Claim, claims: seq<Claim>) {
    exists d | d in claims :: Contradicts(c, d)
  }

  /** Some claim kept under this key is opposed by another node. */
  predicate KeyContradicted(key: string, claims: seq<Claim>) {
    exists c | c in claims :: ClaimKey(c) == key && Opposed(c, claims)
  }

  function ReasonFor(c: Claim, claims: seq<Claim>, admitted: set<string>): Option<Reason> {
    if KeyUnsupported(ClaimKey(c), claims, admitted) then Some(UnsupportedEvidence)
    else if KeyContradicted(ClaimKey(c), claims) then Some(ContradictsPeerClaim)
    else None
  }

  /** Those of `some` that are accepted among `claims`. */
  function AcceptedOf(some: seq<Claim>, claims: seq<Claim>, admitted: set<string>): seq<Claim> {
    if some == [] then []
    else
      var rest, last := AcceptedOf(some[..|some| - 1], claims, admitted), some[|some| - 1];
      if ReasonFor(last, claims, admitted).None? then rest + [last] else rest
  }

  function RejectedOf(some: seq<Claim>, claims: seq<Claim>, admitted: set<string>): seq<Claim> {
    if some == [] then []
    else
      var rest, last := RejectedOf(some[..|some| - 1], claims, admitted), some[|some| - 1];
      if ReasonFor(last, claims, admitted).None? then rest else rest + [last]
  }

  predicate ReportsRejections(
    report: seq<Rejection>, rejected: seq<Claim>, claims: seq<Claim>, admitted: set<string>)
  {
    && |report| == |rejected|
    && forall k | 0 <= k < |report| ::
      && report[k].claimId == rejected[k].claimId && report[k].statement == rejected[k].statement
      && ReasonFor(rejected[k], claims, admitted) == Some(report[k].reason)
  }

  /** Every claim is accepted or rejected, once. */
  lemma {:induction false} EveryClaimOnce(some: seq<Claim>, claims: seq<Claim>, admitted: set<string>)
    ensures multiset(AcceptedOf(some, claims, admitted)) + multiset(RejectedOf(some, claims, admitted))
            == multiset(some)
    ensures forall c :: c in AcceptedOf(some, claims, admitted) <==>
              c in some && ReasonFor(c, claims, admitted).None?
  {
    if some != [] {
      EveryClaimOnce(some[..|some| - 1], claims, admitted);
      assert some == some[..|some| - 1] + [some[|some| - 1]];
    }
  }

  /** Accepted claims cite admitted references only, and no two of them contradict. */
  lemma AcceptedAreSound(claims: seq<Claim>, admitted: set<string>, a: Claim, b: Claim)
    requires a in AcceptedOf(claims, claims, admitted) && b in AcceptedOf(claims, claims, admitted)
    ensures forall r | r in a.evidenceRefs :: r in admitted
    ensures !Contradicts(a, b)
  {
    EveryClaimOnce(claims, claims, admitted);
    assert Contradicts(a, b) ==> Opposed(a, claims) && KeyContradicted(ClaimKey(a), claims);
  }

  /** Where keys are unique, a claim is judged on its own references and its own opponents. */
  lemma JudgedOnItsOwn(claims: seq<Claim>, admitted: set<string>, c: Claim)
    requires c in claims
    requires forall a, b | a in claims && b in claims && ClaimKey(a) == ClaimKey(b) :: a == b
    ensures ReasonFor(c, claims, admitted) == Some(UnsupportedEvidence) <==> Unsupported(c, admitted)
    ensures ReasonFor(c, claims, admitted) == Some(ContradictsPeerClaim) <==>
      !Unsupported(c, admitted) && Opposed(c, claims)
  {
  }

  /** The claim's own node made, under its claim id, a claim that deserves rejection. */
  predicate OwnNodeDeserved(c: Claim, claims: seq<Claim>, admitted: set<string>) {
    exists d | d in claims ::
      d.nodeId == c.nodeId && d.claimId == c.claimId && (Unsupported(d, admitted) || Opposed(d, claims))
  }

  ghost predicate FromNodes(claims: seq<Claim>, ids: set<string>) {
    forall c | c in claims :: c.nodeId in ids
  }

  /** Whatever claims these nodes send, a claim is rejected exactly when its own node deserved it. */
  ghost predicate NodesJudgedApart(ids: set<string>) {
    forall claims, admitted, c | FromNodes(claims, ids) && c in claims ::
      ReasonFor(c, claims, admitted).Some? <==> OwnNodeDeserved(c, claims, admitted)
  }

  ghost predicate PairwiseSeparable(ids: set<string>) {
    forall n, m | n in ids && m in ids && n != m :: Separable(n, m)
  }

  lemma SameKeySameNode(c: Claim, d: Claim)
    requires ClaimKey(c) == ClaimKey(d) && (c.nodeId == d.nodeId || Separable(c.nodeId, d.nodeId))
    ensures c.nodeId == d.nodeId && c.claimId == d.claimId
  {
    if c.nodeId == d.nodeId {
      OwnKeysDiffer(c.nodeId, c.claimId, d.claimId);
    } else {
      KeysNeverMeet(c.nodeId, d.nodeId);
    }
  }

  lemma SeparableJudgesApart(ids: set<string>, claims: seq<Claim>, admitted: set<string>, c: Claim)
    requires PairwiseSeparable(ids) && FromNodes(claims, ids) && c in claims
    ensures ReasonFor(c, claims, admitted).Some? <==> OwnNodeDeserved(c, claims, admitted)
  {
    if ReasonFor(c, claims, admitted).None? {
      return;
    }
    var d :| d in claims && ClaimKey(d) == ClaimKey(c) && (Unsupported(d, admitted) || Opposed(d, claims));
    SameKeySameNode(c, d);
  }

  /** Two claims that can clash: the first cites nothing, the second what is not admitted. */
  function Clash(n: string, i: string, m: string, j: string): (Claim, Claim) {
    (Claim(n, i, "s", "low", []), Claim(m, j, "s", "low", ["r"]))
  }

  lemma ClashRejects(n: string, i: string, m: string, j: string)
    requires n != m && n + "::" + i == m + "::" + j
    ensures var (good, bad) := Clash(n, i, m, j);
      && ReasonFor(good, [good, bad], {}) == Some(UnsupportedEvidence)
      && !OwnNodeDeserved(good, [good, bad], {})
  {
    var (good, bad) := Clash(n, i, m, j);
    assert "r" in bad.evidenceRefs && "r" !in {};
    assert bad in [good, bad] && Unsupported(bad, {});
    assert !Unsupported(good, {}) && !Opposed(good, [good, bad]);
  }

  lemma UnseparableClash(ids: set<string>, n: string, m: string)
    requires n in ids && m in ids && n != m && KeyPrefix(n) <= KeyPrefix(m)
    ensures !NodesJudgedApart(ids)
  {
    var i := PrefixCollides(n, m, "");
    ClashRejects(n, i, m, "");
    var (good, bad) := Clash(n, i, m, "");
    assert FromNodes([good, bad], ids) && good in [good, bad];
  }

  /**
   A claim is rejected exactly for a claim its own node made under its id, for
   all claim lists from these nodes, exactly when no node's key prefix starts
   with another's.
   */
  lemma JudgedApartExactlyWhenSeparable(ids: set<string>)
    ensures NodesJudgedApart(ids) <==> PairwiseSeparable(ids)
  {
    if PairwiseSeparable(ids) {
      forall claims, admitted, c | FromNodes(claims, ids) && c in claims
        ensures ReasonFor(c, claims, admitted).Some? <==> OwnNodeDeserved(c, claims, admitted)
      {
        SeparableJudgesApart(ids, claims, admitted, c);
      }
    } else {
      var n, m :| n in ids && m in ids && n != m && KeyPrefix(n) <= KeyPrefix(m);
      UnseparableClash(ids, n, m);
    }
  }

  /** In particular, node ids without a colon are separable. */
  lemma ColonFreeIsSeparable(n: string, m: string)
    requires n != m && ':' !in n && ':' !in m
    ensures Separable(n, m)
  {
    var k, l := KeyPrefix(n), KeyPrefix(m);
    assert k[|n|] == ':' && l[|m|] == ':';
    assert k[..|n|] == n && l[..|m|] == m;
    if |n| < |m| {
      assert l[|n|] == m[|n|] && m[|n|] in m;
    } else if |m| < |n| {
      assert k[|m|] == n[|m|] && n[|m|] in n;
    }
  }

  /** The nodes whose claims the mission service sends are judged apart. */
  lemma ServiceNodesJudgedApart()
    ensures NodesJudgedApart({"N2", "N3"})
  {
    assert KeyPrefix("N2")[1] == '2' && KeyPrefix("N3")[1] == '3';
    JudgedApartExactlyWhenSeparable({"N2", "N3"});
  }

  // ---------------------------------------------------------------------
  // Verdict
  // ---------------------------------------------------------------------

  predicate High(a: Claim, b: Claim) {
    a.confidence == "high" || b.confidence == "high"
  }

  predicate CriticalPair(a: Claim, b: Claim) {
    Contradicts(a, b) && High(a, b)
  }

  predicate SomeCriticalPair(claims: seq<Claim>) {
    exists a | a in claims :: exists b | b in claims :: CriticalPair(a, b)
  }

  function VerdictFor(claims: seq<Claim>, admitted: set<string>): Verdict {
    if SomeCriticalPair(claims) then Failed
    else if exists c | c in claims :: ReasonFor(c, claims, admitted).Some? then AcceptedWithRejections
    else AllAccepted
  }

  lemma SameClaimsSameReason(claims: seq<Claim>, others: seq<Claim>, admitted: set<string>, c: Claim)
    requires forall d :: d in claims <==> d in others
    ensures ReasonFor(c, claims, admitted) == ReasonFor(c, others, admitted)
  {
  }

  lemma {:induction false} AcceptedCount(
    some: seq<Claim>, claims: seq<Claim>, admitted: set<string>, c: Claim)
    ensures multiset(AcceptedOf(some, claims, admitted))[c]
            == if ReasonFor(c, claims, admitted).None? then multiset(some)[c] else 0
  {
    if some != [] {
      AcceptedCount(some[..|some| - 1], claims, admitted, c);
      assert some == some[..|some| - 1] + [some[|some| - 1]];
    }
  }

  /** What is accepted, and the verdict, do not depend on the order the claims arrive in. */
  lemma OrderDoesNotMatter(claims: seq<Claim>, others: seq<Claim>, admitted: set<string>)
    requires multiset(claims) == multiset(others)
    ensures multiset(AcceptedOf(claims, claims, admitted)) == multiset(AcceptedOf(others, others, admitted))
    ensures VerdictFor(claims, admitted) == VerdictFor(others, admitted)
  {
    forall d ensures d in claims <==> d in others {
      assert d in multiset(claims) <==> d in multiset(others);
    }
    forall c ensures ReasonFor(c, claims, admitted) == ReasonFor(c, others, admitted) {
      SameClaimsSameReason(claims, others, admitted, c);
    }
    var mine, theirs := multiset(AcceptedOf(claims, claims, admitted)), multiset(AcceptedOf(others, others, admitted));
    forall c ensures mine[c] == theirs[c] {
      AcceptedCount(claims, claims, admitted, c);
      AcceptedCount(others, others, admitted, c);
    }
    assert mine == theirs by {
      assert mine <= theirs && theirs <= mine;
    }
  }

  // ---------------------------------------------------------------------
  // Missing evidence
  // ---------------------------------------------------------------------

  /** `k` is the last unsupported claim kept under its key. */
  predicate LastUnsupported(claims: seq<Claim>, admitted: set<string>, k: nat)
    requires k < |claims|
  {
    && Unsupported(claims[k], admitted)
    && forall l | k < l < |claims| :: ClaimKey(claims[l]) == ClaimKey(claims[k]) ==> !Unsupported(claims[l], admitted)
  }

  /** For each unsupported key, what its last unsupported claim misses. */
  function UnsupportedMap(claims: seq<Claim>, admitted: set<string>): map<string, seq<string>> {
    if claims == [] then map[]
    else
      var before, c := UnsupportedMap(claims[..|claims| - 1], admitted), claims[|claims| - 1];
      var missing := MissingRefs(c.evidenceRefs, admitted);
      if |missing| > 0 then before[ClaimKey(c) := missing] else before
  }

  lemma MissingMeansUnsupported(c: Claim, admitted: set<string>)
    ensures |MissingRefs(c.evidenceRefs, admitted)| > 0 <==> Unsupported(c, admitted)
  {
    var missing := MissingRefs(c.evidenceRefs, admitted);
    if |missing| > 0 {
      assert missing[0] in missing;
    }
  }

  lemma {:induction false} MapHoldsUnsupportedKeys(claims: seq<Claim>, admitted: set<string>, key: string)
    ensures key in UnsupportedMap(claims, admitted) <==> KeyUnsupported(key, claims, admitted)
  {
    if claims != [] {
      var front, c := claims[..|claims| - 1], claims[|claims| - 1];
      MapHoldsUnsupportedKeys(front, admitted, key);
      MissingMeansUnsupported(c, admitted);
      assert claims == front + [c];
    }
  }

  lemma LastStays(claims: seq<Claim>, admitted: set<string>, k: nat)
    requires k < |claims| - 1 && LastUnsupported(claims[..|claims| - 1], admitted, k)
    requires !Unsupported(claims[|claims| - 1], admitted) || ClaimKey(claims[|claims| - 1]) != ClaimKey(claims[k])
    ensures LastUnsupported(claims, admitted, k)
  {
  }

  lemma {:induction false} MapHoldsLast(claims: seq<Claim>, admitted: set<string>, key: string) returns (k: nat)
    requires key in UnsupportedMap(claims, admitted)
    ensures k < |claims| && LastUnsupported(claims, admitted, k) && ClaimKey(claims[k]) == key
    ensures UnsupportedMap(claims, admitted)[key] == MissingRefs(claims[k].evidenceRefs, admitted)
  {
    var front, c := claims[..|claims| - 1], claims[|claims| - 1];
    MissingMeansUnsupported(c, admitted);
    if Unsupported(c, admitted) && ClaimKey(c) == key {
      k := |front|;
    } else {
      k := MapHoldsLast(front, admitted, key);
      LastStays(claims, admitted, k);
    }
  }

  /** The references reported missing: those that the last unsupported claim under some key misses. */
  ghost predicate ReportedMissing(claims: seq<Claim>, admitted: set<string>, r: string) {
    exists k | 0 <= k < |claims| ::
      LastUnsupported(claims, admitted, k) && r in claims[k].evidenceRefs && r !in admitted
  }

  lemma MapReports(claims: seq<Claim>, admitted: set<string>, r: string)
    ensures var unsupported := UnsupportedMap(claims, admitted);
      (exists key | key in unsupported :: r in unsupported[key]) <==> ReportedMissing(claims, admitted, r)
  {
    var unsupported := UnsupportedMap(claims, admitted);
    if exists key | key in unsupported :: r in unsupported[key] {
      var key :| key in unsupported && r in unsupported[key];
      var k := MapHoldsLast(claims, admitted, key);
    }
    if ReportedMissing(claims, admitted, r) {
      var k :| 0 <= k < |claims| && LastUnsupported(claims, admitted, k)
               && r in claims[k].evidenceRefs && r !in admitted;
      var key := ClaimKey(claims[k]);
      assert claims[k] in claims && KeyUnsupported(key, claims, admitted);
      MapHoldsUnsupportedKeys(claims, admitted, key);
      var l := MapHoldsLast(claims, admitted, key);
      assert l == k;
    }
  }

  /** Every unadmitted reference anyone cites is reported when keys are unique. */
  lemma MissingIsReported(claims: seq<Claim>, admitted: set<string>, r: string)
    requires forall i, j | 0 <= i < j < |claims| :: ClaimKey(claims[i]) != ClaimKey(claims[j])
    ensures ReportedMissing(claims, admitted, r) <==>
      r !in admitted && exists c | c in claims :: r in c.evidenceRefs
  {
  }

  ghost predicate AllMissingReported(claims: seq<Claim>, admitted: set<string>) {
    forall c, r | c in claims && r in c.evidenceRefs && r !in admitted :: ReportedMissing(claims, admitted, r)
  }

  /** The claims come from these nodes under these claim ids, in this order. */
  predicate CarryKeys(claims: seq<Claim>, keys: seq<(string, string)>) {
    && |claims| == |keys|
    && forall k | 0 <= k < |keys| :: claims[k].nodeId == keys[k].0 && claims[k].claimId == keys[k].1
  }

  predicate DistinctTexts(keys: seq<(string, string)>) {
    forall i, j | 0 <= i < j < |keys| :: keys[i].0 + "::" + keys[i].1 != keys[j].0 + "::" + keys[j].1
  }

  lemma DistinctTextsReportAll(keys: seq<(string, string)>, claims: seq<Claim>, admitted: set<string>)
    requires DistinctTexts(keys) && CarryKeys(claims, keys)
    ensures AllMissingReported(claims, admitted)
  {
    forall i, j | 0 <= i < j < |claims| ensures ClaimKey(claims[i]) != ClaimKey(claims[j]) {
      assert keys[i].0 + "::" + keys[i].1 != keys[j].0 + "::" + keys[j].1;
    }
    forall c, r | c in claims && r in c.evidenceRefs && r !in admitted ensures ReportedMissing(claims, admitted, r) {
      MissingIsReported(claims, admitted, r);
    }
  }

  /** Claims under these keys of which only the i-th cites "r" and only the j-th cites "q". */
  function Hiding(keys: seq<(string, string)>, i: nat, j: nat): (claims: seq<Claim>)
    ensures CarryKeys(claims, keys)
  {
    seq(|keys|, k requires 0 <= k < |keys| =>
      Claim(keys[k].0, keys[k].1, "s", "low", if k == i then ["r"] else if k == j then ["q"] else []))
  }

  /** Wherever two keys have one text, the later claim can hide what the earlier one misses. */
  lemma RepeatedKeyHidesMissing(keys: seq<(string, string)>, i: nat, j: nat)
    requires i < j < |keys| && keys[i].0 + "::" + keys[i].1 == keys[j].0 + "::" + keys[j].1
    ensures var claims := Hiding(keys, i, j);
      "r" in claims[i].evidenceRefs && !ReportedMissing(claims, {}, "r")
  {
    var claims := Hiding(keys, i, j);
    assert "r" in claims[i].evidenceRefs && "q" in claims[j].evidenceRefs && "q" !in {};
    assert Unsupported(claims[j], {}) && ClaimKey(claims[j]) == ClaimKey(claims[i]);
    assert !LastUnsupported(claims, {}, i);
    forall k | 0 <= k < |claims| && "r" in claims[k].evidenceRefs ensures k == i {
      assert ["q"][0] != "r";
    }
  }

  /**
   Whatever claims come under these keys, every unadmitted reference they cite
   is reported, exactly when the key texts are pairwise distinct.
   */
  lemma AllMissingReportedExactlyWhen(keys: seq<(string, string)>)
    ensures (forall claims, admitted | CarryKeys(claims, keys) :: AllMissingReported(claims, admitted))
            <==> DistinctTexts(keys)
  {
    if DistinctTexts(keys) {
      forall claims, admitted | CarryKeys(claims, keys) ensures AllMissingReported(claims, admitted) {
        DistinctTextsReportAll(keys, claims, admitted);
      }
    } else {
      var i, j :| 0 <= i < j < |keys| && keys[i].0 + "::" + keys[i].1 == keys[j].0 + "::" + keys[j].1;
      RepeatedKeyHidesMissing(keys, i, j);
      var claims := Hiding(keys, i, j);
      assert claims[i] in claims && !AllMissingReported(claims, {});
    }
  }

  method CollectUnsupported(incoming: seq<Claim>, admitted: set<string>)
    returns (unsupported: map<string, seq<string>>)
    ensures unsupported == UnsupportedMap(incoming, admitted)
  {
    unsupported := map[];
    for i := 0 to |incoming|
      invariant unsupported == UnsupportedMap(incoming[..i], admitted)
    {
      assert incoming[..i + 1][..i] == incoming[..i];
      var missing := MissingRefs(incoming[i].evidenceRefs, admitted);
      if |missing| > 0 {
        unsupported := unsupported[ClaimKey(incoming[i]) := missing];
      }
    }
    assert incoming[..|incoming|] == incoming;
  }

  // ---------------------------------------------------------------------
  // The pairwise scan
  // ---------------------------------------------------------------------

  type Pair = (nat, nat)

  predicate ScannedBefore(p: Pair, i: nat, j: nat) {
    p.0 < i || (p.0 == i && p.1 < j)
  }

  predicate ContradictingPair(incoming: seq<Claim>, p: Pair) {
    p.0 < p.1 < |incoming| && Contradicts(incoming[p.0], incoming[p.1])
  }

  function EntryFor(incoming: seq<Claim>, p: Pair): Contradiction
    requires p.0 < |incoming| && p.1 < |incoming|
  {
    var a, b := incoming[p.0], incoming[p.1];
    Contradiction(a.claimId, b.claimId, if High(a, b) then Critical else Advisory)
  }

  /** `pairs` names the contradicting pairs before (i, j), each once, in scan order. */
  ghost predicate PairsBefore(pairs: seq<Pair>, incoming: seq<Claim>, i: nat, j: nat) {
    && (forall k | 0 <= k < |pairs| ::
          ContradictingPair(incoming, pairs[k]) && ScannedBefore(pairs[k], i, j))
    && (forall k, l | 0 <= k < l < |pairs| :: ScannedBefore(pairs[k], pairs[l].0, pairs[l].1))
    && (forall p | ContradictingPair(incoming, p) && ScannedBefore(p, i, j) :: p in pairs)
  }

  ghost predicate EntriesFor(entries: seq<Contradiction>, pairs: seq<Pair>, incoming: seq<Claim>) {
    && |entries| == |pairs|
    && forall k | 0 <= k < |pairs| ::
         ContradictingPair(incoming, pairs[k]) && entries[k] == EntryFor(incoming, pairs[k])
  }

  /** The keys of both sides of the pairs. */
  ghost predicate KeysFor(keys: set<string>, pairs: seq<Pair>, incoming: seq<Claim>) {
    && (forall k | 0 <= k < |pairs| :: ContradictingPair(incoming, pairs[k])
          && ClaimKey(incoming[pairs[k].0]) in keys && ClaimKey(incoming[pairs[k].1]) in keys)
    && (forall key | key in keys :: KeyContradicted(key, incoming))
  }

  lemma PairFound(pairs: seq<Pair>, incoming: seq<Claim>, i: nat, j: nat)
    requires PairsBefore(pairs, incoming, i, j) && i < j && ContradictingPair(incoming, (i, j))
    ensures PairsBefore(pairs + [(i, j)], incoming, i, j + 1)
  {
  }

  lemma PairSkipped(pairs: seq<Pair>, incoming: seq<Claim>, i: nat, j: nat)
    requires PairsBefore(pairs, incoming, i, j) && !ContradictingPair(incoming, (i, j))
    ensures PairsBefore(pairs, incoming, i, j + 1)
  {
  }

  lemma PairContradictsKeys(incoming: seq<Claim>, i: nat, j: nat)
    requires ContradictingPair(incoming, (i, j))
    ensures KeyContradicted(ClaimKey(incoming[i]), incoming) && KeyContradicted(ClaimKey(incoming[j]), incoming)
  {
    assert incoming[i] in incoming && incoming[j] in incoming;
    assert Opposed(incoming[i], incoming) && Opposed(incoming[j], incoming);
  }

  method ComparePair(
    incoming: seq<Claim>, i: nat, j: nat, found: seq<Contradiction>, keys: set<string>, ghost before: seq<Pair>)
    returns (entries: seq<Contradiction>, contradicting: set<string>, ghost pairs: seq<Pair>)
    requires i < j < |incoming| && PairsBefore(before, incoming, i, j)
    requires EntriesFor(found, before, incoming) && KeysFor(keys, before, incoming)
    ensures PairsBefore(pairs, incoming, i, j + 1)
    ensures EntriesFor(entries, pairs, incoming) && KeysFor(contradicting, pairs, incoming)
  {
    entries, contradicting, pairs := found, keys, before;
    var a, b := incoming[i], incoming[j];
    if a.nodeId == b.nodeId {
      PairSkipped(pairs, incoming, i, j);
      return;
    }
    var first, second := PolarityOf(a.statement), PolarityOf(b.statement);
    if first.base != second.base || first.negated == second.negated {
      PairSkipped(pairs, incoming, i, j);
      return;
    }
    PairFound(pairs, incoming, i, j);
    PairContradictsKeys(incoming, i, j);
    entries := entries + [Contradiction(a.claimId, b.claimId,
      if a.confidence == "high" || b.confidence == "high" then Critical else Advisory)];
    contradicting := contradicting + {ClaimKey(a), ClaimKey(b)};
    pairs := pairs + [(i, j)];
  }

  /** Compares one claim with every later one. */
  method ScanFrom(incoming: seq<Claim>, i: nat, found: seq<Contradiction>, keys: set<string>, ghost before: seq<Pair>)
    returns (entries: seq<Contradiction>, contradicting: set<string>, ghost pairs: seq<Pair>)
    requires i < |incoming| && PairsBefore(before, incoming, i, 0)
    requires EntriesFor(found, before, incoming) && KeysFor(keys, before, incoming)
    ensures PairsBefore(pairs, incoming, i + 1, 0)
    ensures EntriesFor(entries, pairs, incoming) && KeysFor(contradicting, pairs, incoming)
  {
    entries, contradicting, pairs := found, keys, before;
    RowBoundary(pairs, incoming, i);
    for j := i + 1 to |incoming|
      invariant PairsBefore(pairs, incoming, i, j)
      invariant EntriesFor(entries, pairs, incoming) && KeysFor(contradicting, pairs, incoming)
    {
      entries, contradicting, pairs := ComparePair(incoming, i, j, entries, contradicting, pairs);
    }
    RowEnd(pairs, incoming, i);
  }

  lemma RowBoundary(pairs: seq<Pair>, incoming: seq<Claim>, i: nat)
    requires PairsBefore(pairs, incoming, i, 0)
    ensures PairsBefore(pairs, incoming, i, i + 1)
  {
  }

  lemma RowEnd(pairs: seq<Pair>, incoming: seq<Claim>, i: nat)
    requires PairsBefore(pairs, incoming, i, |incoming|)
    ensures PairsBefore(pairs, incoming, i + 1, 0)
  {
  }

  method ScanPairs(incoming: seq<Claim>)
    returns (entries: seq<Contradiction>, contradicting: set<string>, ghost pairs: seq<Pair>)
    ensures PairsBefore(pairs, incoming, |incoming|, 0) && EntriesFor(entries, pairs, incoming)
    ensures forall key :: key in contradicting <==> KeyContradicted(key, incoming)
  {
    entries, contradicting, pairs := [], {}, [];
    for i := 0 to |incoming|
      invariant PairsBefore(pairs, incoming, i, 0)
      invariant EntriesFor(entries, pairs, incoming) && KeysFor(contradicting, pairs, incoming)
    {
      entries, contradicting, pairs := ScanFrom(incoming, i, entries, contradicting, pairs);
    }
    forall key | KeyContradicted(key, incoming) ensures key in contradicting {
      KeyIsCollected(incoming, contradicting, pairs, key);
    }
  }

  /** Two contradicting claims stand in some listed pair, one way round or the other. */
  lemma PairOf(incoming: seq<Claim>, pairs: seq<Pair>, a: Claim, b: Claim) returns (p: Pair)
    requires PairsBefore(pairs, incoming, |incoming|, 0)
    requires a in incoming && b in incoming && Contradicts(a, b)
    ensures p in pairs && ContradictingPair(incoming, p)
    ensures (incoming[p.0], incoming[p.1]) == (a, b) || (incoming[p.0], incoming[p.1]) == (b, a)
  {
    var i :| 0 <= i < |incoming| && incoming[i] == a;
    var j :| 0 <= j < |incoming| && incoming[j] == b;
    p := if i < j then (i, j) else (j, i);
    assert ContradictingPair(incoming, p) && ScannedBefore(p, |incoming|, 0);
  }

  lemma KeyIsCollected(incoming: seq<Claim>, keys: set<string>, pairs: seq<Pair>, key: string)
    requires PairsBefore(pairs, incoming, |incoming|, 0) && KeysFor(keys, pairs, incoming)
    requires KeyContradicted(key, incoming)
    ensures key in keys
  {
    var c :| c in incoming && ClaimKey(c) == key && Opposed(c, incoming);
    var d :| d in incoming && Contradicts(c, d);
    var p := PairOf(incoming, pairs, c, d);
    var k :| 0 <= k < |pairs| && pairs[k] == p;
  }

  lemma CriticalShows(entries: seq<Contradiction>, pairs: seq<Pair>, incoming: seq<Claim>, k: nat)
    requires EntriesFor(entries, pairs, incoming) && k < |entries| && entries[k].severity == Critical
    ensures SomeCriticalPair(incoming)
  {
    var a, b := incoming[pairs[k].0], incoming[pairs[k].1];
    assert a in incoming && b in incoming && CriticalPair(a, b);
  }

  lemma CriticalIsListed(entries: seq<Contradiction>, pairs: seq<Pair>, incoming: seq<Claim>)
    requires PairsBefore(pairs, incoming, |incoming|, 0) && EntriesFor(entries, pairs, incoming)
    requires SomeCriticalPair(incoming)
    ensures exists e | e in entries :: e.severity == Critical
  {
    var a :| a in incoming && exists b | b in incoming :: CriticalPair(a, b);
    var b :| b in incoming && CriticalPair(a, b);
    var p := PairOf(incoming, pairs, a, b);
    var k :| 0 <= k < |pairs| && pairs[k] == p;
    assert entries[k] == EntryFor(incoming, p) && entries[k] in entries;
  }

  lemma CriticalEntry(entries: seq<Contradiction>, pairs: seq<Pair>, incoming: seq<Claim>)
    requires PairsBefore(pairs, incoming, |incoming|, 0) && EntriesFor(entries, pairs, incoming)
    ensures (exists e | e in entries :: e.severity == Critical) <==> SomeCriticalPair(incoming)
  {
    if exists e | e in entries :: e.severity == Critical {
      var k :| 0 <= k < |entries| && entries[k].severity == Critical;
      CriticalShows(entries, pairs, incoming, k);
    } else if SomeCriticalPair(incoming) {
      CriticalIsListed(entries, pairs, incoming);
    }
  }

  /** An entry names both sides, left before right, and is critical exactly when one of them is sure. */
  lemma EntryTells(incoming: seq<Claim>, p: Pair)
    requires p.0 < |incoming| && p.1 < |incoming|
    ensures var e, a, b := EntryFor(incoming, p), incoming[p.0], incoming[p.1];
      && e.leftClaimId == a.claimId && e.rightClaimId == b.claimId
      && (e.severity == Critical <==> a.confidence == "high" || b.confidence == "high")
  {
  }

  /** What each verdict means, of the claims alone. */
  lemma VerdictTells(claims: seq<Claim>, admitted: set<string>)
    ensures VerdictFor(claims, admitted) == Failed <==>
      exists a, b | a in claims && b in claims ::
        Contradicts(a, b) && (a.confidence == "high" || b.confidence == "high")
    ensures VerdictFor(claims, admitted) == AllAccepted ==> AcceptedOf(claims, claims, admitted) == claims
    ensures VerdictFor(claims, admitted) == AcceptedWithRejections ==> RejectedOf(claims, claims, admitted) != []
  {
    if VerdictFor(claims, admitted) == AllAccepted {
      AllAcceptedInOrder(claims, claims, admitted);
    }
    RejectionsShow(claims, admitted);
    if a, b :| a in claims && b in claims && Contradicts(a, b) && (a.confidence == "high" || b.confidence == "high") {
      assert CriticalPair(a, b);
    }
    if SomeCriticalPair(claims) {
      var a :| a in claims && exists b | b in claims :: CriticalPair(a, b);
      var b :| b in claims && CriticalPair(a, b);
    }
  }

  lemma {:induction false} AllAcceptedInOrder(some: seq<Claim>, claims: seq<Claim>, admitted: set<string>)
    requires forall c | c in some :: ReasonFor(c, claims, admitted).None?
    ensures AcceptedOf(some, claims, admitted) == some
  {
    if some != [] {
      var front, last := some[..|some| - 1], some[|some| - 1];
      assert last in some;
      AllAcceptedInOrder(front, claims, admitted);
      assert some == front + [last];
    }
  }

  /** Accepted claims keep the order they came in. */
  lemma {:induction false} AcceptedKeepOrder(
    some: seq<Claim>, more: seq<Claim>, claims: seq<Claim>, admitted: set<string>)
    ensures AcceptedOf(some + more, claims, admitted)
         == AcceptedOf(some, claims, admitted) + AcceptedOf(more, claims, admitted)
  {
    if more == [] {
      assert some + more == some;
    } else {
      var front, last, all := more[..|more| - 1], more[|more| - 1], some + more;
      AcceptedKeepOrder(some, front, claims, admitted);
      assert all[..|all| - 1] == some + front && all[|all| - 1] == last;
    }
  }

  /** So do rejected ones. */
  lemma {:induction false} RejectedKeepOrder(
    some: seq<Claim>, more: seq<Claim>, claims: seq<Claim>, admitted: set<string>)
    ensures RejectedOf(some + more, claims, admitted)
         == RejectedOf(some, claims, admitted) + RejectedOf(more, claims, admitted)
  {
    if more == [] {
      assert some + more == some;
    } else {
      var front, last, all := more[..|more| - 1], more[|more| - 1], some + more;
      RejectedKeepOrder(some, front, claims, admitted);
      assert all[..|all| - 1] == some + front && all[|all| - 1] == last;
    }
  }

  // ---------------------------------------------------------------------
  // The worker
  // ---------------------------------------------------------------------

  method Partition(incoming: seq<Claim>, admitted: set<string>,
                   unsupported: map<string, seq<string>>, contradicting: set<string>)
    returns (accepted: seq<Claim>, rejected: seq<Rejection>)
    requires forall key :: key in unsupported <==> KeyUnsupported(key, incoming, admitted)
    requires forall key :: key in contradicting <==> KeyContradicted(key, incoming)
    ensures accepted == AcceptedOf(incoming, incoming, admitted)
    ensures ReportsRejections(rejected, RejectedOf(incoming, incoming, admitted), incoming, admitted)
  {
    accepted, rejected := [], [];
    for i := 0 to |incoming|
      invariant accepted == AcceptedOf(incoming[..i], incoming, admitted)
      invariant ReportsRejections(rejected, RejectedOf(incoming[..i], incoming, admitted), incoming, admitted)
    {
      var claim := incoming[i];
      assert incoming[..i + 1][..i] == incoming[..i];
      if ClaimKey(claim) in unsupported {
        rejected := rejected + [Rejection(claim.claimId, claim.statement, UnsupportedEvidence)];
      } else if ClaimKey(claim) in contradicting {
        rejected := rejected + [Rejection(claim.claimId, claim.statement, ContradictsPeerClaim)];
      } else {
        accepted := accepted + [claim];
      }
    }
    assert incoming[..|incoming|] == incoming;
  }

  method SortedMissing(unsupported: map<string, seq<string>>) returns (missing: seq<string>)
    ensures Ascending(missing)
    ensures forall r :: r in missing <==> exists key | key in unsupported :: r in unsupported[key]
  {
    var refs := set key, r | key in unsupported && r in unsupported[key] :: r;
    missing := SortedIds(refs);
    forall r ensures r in missing <==> exists key | key in unsupported :: r in unsupported[key] {
      assert r in missing <==> r in Elements(missing);
    }
  }

  /**
   Partitions the claims, lists every contradicting pair once in scan order,
   and fails exactly when one of them has a high-confidence side.
   */
  method Verify(incoming: seq<Claim>, admitted: set<string>) returns (r: Verification, ghost pairs: seq<Pair>)
    ensures r.acceptedClaims == AcceptedOf(incoming, incoming, admitted)
    ensures ReportsRejections(r.rejectedClaims, RejectedOf(incoming, incoming, admitted), incoming, admitted)
    ensures PairsBefore(pairs, incoming, |incoming|, 0) && EntriesFor(r.contradictions, pairs, incoming)
    ensures r.verdict == VerdictFor(incoming, admitted)
    ensures Ascending(r.missingEvidence)
    ensures forall ref :: ref in r.missingEvidence <==> ReportedMissing(incoming, admitted, ref)
  {
    var unsupported := CollectUnsupported(incoming, admitted);
    var contradictions, contradicting;
    contradictions, contradicting, pairs := ScanPairs(incoming);
    forall key ensures key in unsupported <==> KeyUnsupported(key, incoming, admitted) {
      MapHoldsUnsupportedKeys(incoming, admitted, key);
    }
    var accepted, rejected := Partition(incoming, admitted, unsupported, contradicting);
    var missing := SortedMissing(unsupported);
    forall ref ensures ref in missing <==> ReportedMissing(incoming, admitted, ref) {
      MapReports(incoming, admitted, ref);
    }
    CriticalEntry(contradictions, pairs, incoming);
    RejectionsShow(incoming, admitted);
    var verdict :=
      if exists e | e in contradictions :: e.severity == Critical then Failed
      else if |rejected| > 0 then AcceptedWithRejections
      else AllAccepted;
    r := Verification(verdict, accepted, rejected, contradictions, missing);
  }

  lemma RejectionsShow(incoming: seq<Claim>, admitted: set<string>)
    ensures |RejectedOf(incoming, incoming, admitted)| > 0 <==>
      exists c | c in incoming :: ReasonFor(c, incoming, admitted).Some?
  {
    var accepted, rejected := AcceptedOf(incoming, incoming, admitted), RejectedOf(incoming, incoming, admitted);
    EveryClaimOnce(incoming, incoming, admitted);
    if |rejected| > 0 {
      RejectedHaveReasons(incoming, incoming, admitted);
      assert rejected[0] in rejected;
    }
    if exists c | c in incoming :: ReasonFor(c, incoming, admitted).Some? {
      var c :| c in incoming && ReasonFor(c, incoming, admitted).Some?;
      assert c in multiset(incoming) && c !in accepted;
      assert c in multiset(rejected);
    }
  }

  lemma {:induction false} RejectedHaveReasons(some: seq<Claim>, claims: seq<Claim>, admitted: set<string>)
    ensures forall c | c in RejectedOf(some, claims, admitted) :: c in some && ReasonFor(c, claims, admitted).Some?
  {
    if some != [] {
      RejectedHaveReasons(some[..|some| - 1], claims, admitted);
    }
  }
}

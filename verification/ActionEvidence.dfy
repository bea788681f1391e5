/** The action-evidence protocol (server/services/action-evidence.js): traces of what an agent did,
    and the evaluation of what it claims. */
module ActionEvidence {
  import opened Prelude

  const MAX_TRACE_AGE_MS := 3600000

  datatype Verb =
    | WROTE_CODE | COMMITTED | DEPLOYED | VERIFIED | SEARCHED | FETCHED | ANALYZED | READ_FILE
    | WROTE_FILE | SHELL_EXEC | SENT_MESSAGE | CLAIMED | FAILED | PRIVILEGE_BOUNDARY

  /** The evidence fields each verb must have. */
  function Required(v: Verb): set<string> {
    match v
    case WROTE_CODE => {"filePath", "contentHash"}
    case COMMITTED => {"gitSha", "repository"}
    case DEPLOYED => {"target", "pid", "port", "timestamp"}
    case VERIFIED => {"testOutput", "passFail", "deployEvidence"}
    case SEARCHED => {"query", "resultCount", "resultsHash"}
    case FETCHED => {"url", "responseStatus", "contentHash"}
    case ANALYZED => {"sourceRef", "reasoning"}
    case READ_FILE => {"filePath", "fileSize", "contentHash"}
    case WROTE_FILE => {"filePath", "contentHash"}
    case SHELL_EXEC => {"command", "exitCode", "stdoutHash"}
    case SENT_MESSAGE => {"messageId", "channel"}
    case CLAIMED => {}
    case FAILED => {"attemptedAction", "errorMessage"}
    case PRIVILEGE_BOUNDARY => {"resource", "authorizedScope", "action"}
  }

  /** The vocabulary by field: which verbs need it. Files and hashes. */
  lemma FileFieldsExactly(v: Verb)
    ensures "filePath" in Required(v) <==> v in {WROTE_CODE, READ_FILE, WROTE_FILE}
    ensures "contentHash" in Required(v) <==> v in {WROTE_CODE, FETCHED, READ_FILE, WROTE_FILE}
    ensures "fileSize" in Required(v) <==> v == READ_FILE
    ensures "gitSha" in Required(v) && "repository" in Required(v) <==> v == COMMITTED
  {
  }

  /** Deployments and their verification, commands. */
  lemma DeployFieldsExactly(v: Verb)
    ensures {"target", "pid", "port", "timestamp"} <= Required(v) <==> v == DEPLOYED
    ensures {"testOutput", "passFail", "deployEvidence"} <= Required(v) <==> v == VERIFIED
    ensures {"command", "exitCode", "stdoutHash"} <= Required(v) <==> v == SHELL_EXEC
  {
  }

  /** Research. */
  lemma ResearchFieldsExactly(v: Verb)
    ensures {"query", "resultCount", "resultsHash"} <= Required(v) <==> v == SEARCHED
    ensures {"url", "responseStatus"} <= Required(v) <==> v == FETCHED
    ensures {"sourceRef", "reasoning"} <= Required(v) <==> v == ANALYZED
  {
  }

  /** Messages, failures, boundaries; and only a mere claim needs nothing. */
  lemma OtherFieldsExactly(v: Verb)
    ensures {"messageId", "channel"} <= Required(v) <==> v == SENT_MESSAGE
    ensures {"attemptedAction", "errorMessage"} <= Required(v) <==> v == FAILED
    ensures {"resource", "authorizedScope", "action"} <= Required(v) <==> v == PRIVILEGE_BOUNDARY
    ensures Required(v) == {} <==> v == CLAIMED
  {
    if v != CLAIMED {
      SomethingNeeded(v);
    }
  }

  lemma SomethingNeeded(v: Verb)
    requires v != CLAIMED
    ensures exists field :: field in Required(v)
  {
    match v
    case WROTE_CODE => assert "filePath" in Required(v);
    case COMMITTED => assert "gitSha" in Required(v);
    case DEPLOYED => assert "pid" in Required(v);
    case VERIFIED => assert "testOutput" in Required(v);
    case SEARCHED => assert "query" in Required(v);
    case FETCHED => assert "url" in Required(v);
    case ANALYZED => assert "reasoning" in Required(v);
    case READ_FILE => assert "filePath" in Required(v);
    case WROTE_FILE => assert "filePath" in Required(v);
    case SHELL_EXEC => assert "command" in Required(v);
    case SENT_MESSAGE => assert "messageId" in Required(v);
    case FAILED => assert "attemptedAction" in Required(v);
    case PRIVILEGE_BOUNDARY => assert "resource" in Required(v);
  }

  /** One entry of a trail. `complete` is evidence._complete; `attempted` is the verb that a FAILED
      entry's attemptedAction names. */
  datatype Entry = Entry(
    verb: Verb, evidence: map<string, string>, complete: bool, attempted: Option<Verb>, timestamp: int)

  datatype Claim = Claim(text: string, verb: Verb, position: nat)

  datatype ClaimStatus = Verified | Partial | Unverified | Contradicted

  datatype Level = LevelContradicted | LevelClaimed | LevelPartial | LevelVerified

  // ---- Evaluation ----

  predicate HasVerb(trail: seq<Entry>, v: Verb) {
    exists i :: 0 <= i < |trail| && trail[i].verb == v
  }

  predicate AllComplete(trail: seq<Entry>, v: Verb) {
    forall i :: 0 <= i < |trail| && trail[i].verb == v ==> trail[i].complete
  }

  /** A FAILED entry names the verb. */
  predicate FailedAt(trail: seq<Entry>, v: Verb) {
    exists i :: 0 <= i < |trail| && trail[i].verb == FAILED && trail[i].attempted == Some(v)
  }

  /** The claim's verb has evidence, and all of it is complete. */
  predicate Backed(trail: seq<Entry>, v: Verb) {
    HasVerb(trail, v) && AllComplete(trail, v)
  }

  const HIERARCHY: seq<Verb> := [VERIFIED, DEPLOYED, COMMITTED, WROTE_CODE, WROTE_FILE]

  /** Higher in the hierarchy means a smaller rank. */
  function Rank(v: Verb): Option<nat> {
    match v
    case VERIFIED => Some(0)
    case DEPLOYED => Some(1)
    case COMMITTED => Some(2)
    case WROTE_CODE => Some(3)
    case WROTE_FILE => Some(4)
    case _ => None
  }

  lemma HierarchyIsRanked()
    ensures forall i :: 0 <= i < |HIERARCHY| ==> Rank(HIERARCHY[i]) == Some(i)
    ensures forall v :: Rank(v).Some? ==> Rank(v).value < |HIERARCHY| && HIERARCHY[Rank(v).value] == v
  {
    assert HIERARCHY[0] == VERIFIED && HIERARCHY[1] == DEPLOYED && HIERARCHY[2] == COMMITTED;
    assert HIERARCHY[3] == WROTE_CODE && HIERARCHY[4] == WROTE_FILE;
  }

  /** `d` is the highest verb of the trail strictly below `claimed` in the hierarchy; None when there is
      none, or the claim is outside the hierarchy. */
  ghost predicate IsDowngrade(claimed: Verb, trail: seq<Entry>, d: Option<Verb>) {
    var below := (v: Verb) =>
      Rank(claimed).Some? && Rank(v).Some? && Rank(v).value > Rank(claimed).value && HasVerb(trail, v);
    match d
    case Some(v) => below(v) && forall w: Verb :: below(w) ==> Rank(v).value <= Rank(w).value
    case None => forall w: Verb :: !below(w)
  }

  /** `_findDowngrade`. */
  method FindDowngrade(claimed: Verb, trail: seq<Entry>) returns (d: Option<Verb>)
    ensures IsDowngrade(claimed, trail, d)
  {
    HierarchyIsRanked();
    var claimedIdx := Rank(claimed);
    if claimedIdx.None? {
      return None;
    }
    for i := claimedIdx.value + 1 to |HIERARCHY|
      invariant forall j :: claimedIdx.value < j < i ==> !HasVerb(trail, HIERARCHY[j])
    {
      if HasVerb(trail, HIERARCHY[i]) {
        return Some(HIERARCHY[i]);
      }
    }
    return None;
  }

  /** The status of one claim against the trail. */
  function StatusOf(trail: seq<Entry>, v: Verb): ClaimStatus {
    if !HasVerb(trail, v) then Unverified
    else if !AllComplete(trail, v) then Partial
    else if FailedAt(trail, v) then Contradicted
    else Verified
  }

  /** The trust level, by what the claims have in the trail. */
  ghost function LevelOf(trail: seq<Entry>, claims: seq<Claim>): Level {
    if exists i :: 0 <= i < |claims| && StatusOf(trail, claims[i].verb) == Contradicted then LevelContradicted
    else if forall i :: 0 <= i < |claims| ==> StatusOf(trail, claims[i].verb) == Verified then LevelVerified
    else if forall i :: 0 <= i < |claims| ==> StatusOf(trail, claims[i].verb) == Unverified then LevelClaimed
    else LevelPartial
  }

  datatype Evaluated = Evaluated(claim: Claim, status: ClaimStatus)

  /** A claim without evidence, and what the trail supports instead when there is a trail. */
  datatype Gap = Gap(claim: Claim, suggested: Option<Verb>)

  /** One line of the trail summary. */
  datatype Summary = Summary(verb: Verb, timestamp: int, complete: bool)

  datatype Evaluation = Evaluation(level: Level, claims: seq<Evaluated>, gaps: seq<Gap>, trailSummary: seq<Summary>)

  /** The claims without any evidence, in order. */
  function Unsupported(trail: seq<Entry>, claims: seq<Claim>): seq<Claim> {
    if claims == [] then []
    else
      Unsupported(trail, claims[..|claims| - 1]) +
      if HasVerb(trail, claims[|claims| - 1].verb) then [] else [claims[|claims| - 1]]
  }

  lemma {:induction false} UnsupportedCounts(trail: seq<Entry>, claims: seq<Claim>)
    ensures |Unsupported(trail, claims)| <= |claims|
    ensures |Unsupported(trail, claims)| == |claims| <==>
            forall i :: 0 <= i < |claims| ==> !HasVerb(trail, claims[i].verb)
    ensures Unsupported(trail, claims) == [] <==> forall i :: 0 <= i < |claims| ==> HasVerb(trail, claims[i].verb)
  {
    hide HasVerb;
    if claims != [] {
      UnsupportedCounts(trail, claims[..|claims| - 1]);
    }
  }

  /** A claim's status before failures are looked at. */
  function FirstStatus(trail: seq<Entry>, v: Verb): ClaimStatus {
    if !HasVerb(trail, v) then Unverified else if AllComplete(trail, v) then Verified else Partial
  }

  /** The gap names the claim and suggests what the trail supports instead: the highest verb strictly
      below it, or CLAIMED. */
  ghost predicate RightGap(trail: seq<Entry>, gap: Gap, claim: Claim) {
    && gap.claim == claim
    && exists d :: IsDowngrade(claim.verb, trail, d) && gap.suggested == Some(if d.Some? then d.value else CLAIMED)
  }

  ghost predicate RightGaps(trail: seq<Entry>, gaps: seq<Gap>, claims: seq<Claim>) {
    |gaps| == |claims| && forall i :: 0 <= i < |gaps| ==> RightGap(trail, gaps[i], claims[i])
  }

  /** The claims loop of `evaluateMessage`, before contradictions: each claim's first status and the gaps. */
  method JudgeClaims(trail: seq<Entry>, detected: seq<Claim>) returns (claims: seq<Evaluated>, gaps: seq<Gap>)
    ensures |claims| == |detected|
    ensures forall i :: 0 <= i < |claims| ==> claims[i] == Evaluated(detected[i], FirstStatus(trail, detected[i].verb))
    ensures RightGaps(trail, gaps, Unsupported(trail, detected))
  {
    claims, gaps := [], [];
    assert detected[..0] == [];
    for k := 0 to |detected|
      invariant |claims| == k
      invariant forall i :: 0 <= i < k ==> claims[i] == Evaluated(detected[i], FirstStatus(trail, detected[i].verb))
      invariant RightGaps(trail, gaps, Unsupported(trail, detected[..k]))
    {
      var claim := detected[k];
      assert detected[..k + 1][..k] == detected[..k];
      if HasVerb(trail, claim.verb) {
        claims := claims + [Evaluated(claim, if AllComplete(trail, claim.verb) then Verified else Partial)];
      } else {
        var downgrade := FindDowngrade(claim.verb, trail);
        claims := claims + [Evaluated(claim, Unverified)];
        var gap := Gap(claim, Some(if downgrade.Some? then downgrade.value else CLAIMED));
        assert RightGap(trail, gap, claim);
        gaps := gaps + [gap];
      }
    }
    assert detected[..|detected|] == detected;
  }

  /** The level, each claim with its status, the gaps of the unsupported claims, and the trail in short. */
  ghost predicate RightEvaluation(trail: seq<Entry>, detected: seq<Claim>, e: Evaluation) {
    && e.level == LevelOf(trail, detected)
    && |e.claims| == |detected|
    && (forall i :: 0 <= i < |detected| ==> e.claims[i] == Evaluated(detected[i], StatusOf(trail, detected[i].verb)))
    && RightGaps(trail, e.gaps, Unsupported(trail, detected))
    && |e.trailSummary| == |trail|
    && forall i :: 0 <= i < |trail| ==>
         e.trailSummary[i] == Summary(trail[i].verb, trail[i].timestamp, trail[i].complete)
  }

  /** `evaluateMessage` on a live trace. */
  method Evaluate(trail: seq<Entry>, detected: seq<Claim>) returns (e: Evaluation)
    ensures RightEvaluation(trail, detected, e)
  {
    hide HasVerb, AllComplete, FailedAt, RightGap;
    var claims, gaps := JudgeClaims(trail, detected);
    var hasContradiction := false;
    for k := 0 to |claims|
      invariant |claims| == |detected|
      invariant forall i :: 0 <= i < k ==> claims[i] == Evaluated(detected[i], StatusOf(trail, detected[i].verb))
      invariant forall i :: k <= i < |claims| ==>
                  claims[i] == Evaluated(detected[i], FirstStatus(trail, detected[i].verb))
      invariant hasContradiction <==> exists i :: 0 <= i < k && StatusOf(trail, detected[i].verb) == Contradicted
    {
      if claims[k].status == Verified && FailedAt(trail, claims[k].claim.verb) {
        claims := claims[k := claims[k].(status := Contradicted)];
        hasContradiction := true;
      }
    }
    UnsupportedCounts(trail, detected);
    var level;
    if hasContradiction {
      level := LevelContradicted;
    } else if |detected| == 0 {
      level := LevelVerified;
    } else if |gaps| == 0 && forall i :: 0 <= i < |claims| ==> claims[i].status == Verified {
      assert forall i :: 0 <= i < |detected| ==> StatusOf(trail, detected[i].verb) == Verified;
      level := LevelVerified;
    } else if |gaps| == |detected| {
      level := LevelClaimed;
    } else {
      level := LevelPartial;
    }
    assert level == LevelOf(trail, detected) by {
      assert forall i :: 0 <= i < |detected| ==> claims[i].status == StatusOf(trail, detected[i].verb);
      assert |gaps| == |detected| <==>
             forall i :: 0 <= i < |detected| ==> StatusOf(trail, detected[i].verb) == Unverified;
    }
    var trailSummary :=
      seq(|trail|, i requires 0 <= i < |trail| => Summary(trail[i].verb, trail[i].timestamp, trail[i].complete));
    return Evaluation(level, claims, gaps, trailSummary);
  }

  /** "verified" means exactly: every claim has evidence, all of it complete, and no failure of it on record. */
  lemma VerifiedExactlyWhenBacked(trail: seq<Entry>, claims: seq<Claim>)
    ensures LevelOf(trail, claims) == LevelVerified <==>
            forall i :: 0 <= i < |claims| ==> Backed(trail, claims[i].verb) && !FailedAt(trail, claims[i].verb)
  {
    forall i | 0 <= i < |claims|
      ensures StatusOf(trail, claims[i].verb) == Verified <==>
              Backed(trail, claims[i].verb) && !FailedAt(trail, claims[i].verb)
    {
    }
  }

  /** The other levels by the trail: contradicted when a claim is backed although its failure is on record; merely
      claimed when there are claims and no evidence for any; partial in the cases between. */
  lemma LevelsExactly(trail: seq<Entry>, claims: seq<Claim>)
    ensures LevelOf(trail, claims) == LevelContradicted <==>
            exists i :: 0 <= i < |claims| && Backed(trail, claims[i].verb) && FailedAt(trail, claims[i].verb)
    ensures LevelOf(trail, claims) == LevelClaimed <==>
            claims != [] && forall i :: 0 <= i < |claims| ==> !HasVerb(trail, claims[i].verb)
    ensures LevelOf(trail, claims) == LevelPartial <==>
            && (forall i :: 0 <= i < |claims| ==> !(Backed(trail, claims[i].verb) && FailedAt(trail, claims[i].verb)))
            && (exists i :: 0 <= i < |claims| && !Backed(trail, claims[i].verb))
            && (exists i :: 0 <= i < |claims| && HasVerb(trail, claims[i].verb))
  {
    hide HasVerb, AllComplete, FailedAt;
    forall i | 0 <= i < |claims|
      ensures var v := claims[i].verb;
              && (StatusOf(trail, v) == Contradicted <==> Backed(trail, v) && FailedAt(trail, v))
              && (StatusOf(trail, v) == Verified <==> Backed(trail, v) && !FailedAt(trail, v))
              && (StatusOf(trail, v) == Unverified <==> !HasVerb(trail, v))
    {
    }
    if claims != [] {
      var first := StatusOf(trail, claims[0].verb);
      assert first != Verified || first != Unverified;
    }
  }

  /** A claim's status: unverified without an entry, partial when some entry is incomplete. */
  lemma StatusesExactly(trail: seq<Entry>, v: Verb)
    ensures StatusOf(trail, v) == Unverified <==> forall i :: 0 <= i < |trail| ==> trail[i].verb != v
    ensures StatusOf(trail, v) == Partial <==> exists i :: 0 <= i < |trail| && trail[i].verb == v && !trail[i].complete
    ensures StatusOf(trail, v) == Contradicted <==>
            && Backed(trail, v)
            && exists i :: 0 <= i < |trail| && trail[i].verb == FAILED && trail[i].attempted == Some(v)
  {
  }

  function Worth(l: Level): nat {
    match l
    case LevelContradicted => 0
    case LevelClaimed => 1
    case LevelPartial => 2
    case LevelVerified => 3
  }

  lemma TrailSnoc(trail: seq<Entry>, e: Entry, v: Verb)
    ensures HasVerb(trail + [e], v) <==> HasVerb(trail, v) || e.verb == v
    ensures AllComplete(trail + [e], v) <==> AllComplete(trail, v) && (e.verb == v ==> e.complete)
  {
    var t := trail + [e];
    assert t[|trail|] == e;
    if HasVerb(trail, v) {
      var i :| 0 <= i < |trail| && trail[i].verb == v;
      assert t[i].verb == v;
    }
    if AllComplete(t, v) {
      forall i | 0 <= i < |trail| && trail[i].verb == v ensures trail[i].complete {
        assert t[i] == trail[i];
      }
    }
  }

  /** What a complete entry does to one claim's status. */
  lemma StatusAfter(trail: seq<Entry>, e: Entry, v: Verb)
    requires e.complete
    ensures var a, b := StatusOf(trail, v), StatusOf(trail + [e], v);
            && (a == Contradicted ==> b == Contradicted) && (a == Partial ==> b == Partial)
            && (a == Verified ==> b == Verified || b == Contradicted)
            && (a == Unverified ==> b != Partial)
            && (b == Contradicted <==> Backed(trail + [e], v) && FailedAt(trail + [e], v))
  {
    TrailSnoc(trail, e, v);
    FailedSnoc(trail, e, v);
  }

  lemma FailedSnoc(trail: seq<Entry>, e: Entry, v: Verb)
    ensures FailedAt(trail + [e], v) <==> FailedAt(trail, v) || (e.verb == FAILED && e.attempted == Some(v))
  {
    var t := trail + [e];
    assert t[|trail|] == e;
    if FailedAt(trail, v) {
      var i :| 0 <= i < |trail| && trail[i].verb == FAILED && trail[i].attempted == Some(v);
      assert t[i] == trail[i];
    }
  }

  /** Some claim is backed although a failure of it is on record. */
  predicate Contradicts(trail: seq<Entry>, claims: seq<Claim>) {
    exists i :: 0 <= i < |claims| && Backed(trail, claims[i].verb) && FailedAt(trail, claims[i].verb)
  }

  lemma ContradictsMeansLevel(trail: seq<Entry>, claims: seq<Claim>)
    ensures Contradicts(trail, claims) <==> LevelOf(trail, claims) == LevelContradicted
  {
    if Contradicts(trail, claims) {
      var i :| 0 <= i < |claims| && Backed(trail, claims[i].verb) && FailedAt(trail, claims[i].verb);
      assert StatusOf(trail, claims[i].verb) == Contradicted;
    }
  }

  /** A further complete entry lowers the level exactly by completing a contradiction: no claim was contradicted
      before, and some claim is backed and failed after. */
  lemma OnlyContradictionLowers(trail: seq<Entry>, e: Entry, claims: seq<Claim>)
    requires e.complete
    ensures Worth(LevelOf(trail + [e], claims)) < Worth(LevelOf(trail, claims)) <==>
            !Contradicts(trail, claims) && Contradicts(trail + [e], claims)
  {
    hide StatusOf, Backed, FailedAt, Contradicts;
    ContradictsMeansLevel(trail, claims);
    ContradictsMeansLevel(trail + [e], claims);
    forall i | 0 <= i < |claims| ensures
      var a, b := StatusOf(trail, claims[i].verb), StatusOf(trail + [e], claims[i].verb);
      && (a == Contradicted ==> b == Contradicted) && (a == Partial ==> b == Partial)
      && (a == Verified ==> b == Verified || b == Contradicted) && (a == Unverified ==> b != Partial)
    {
      StatusAfter(trail, e, claims[i].verb);
    }
  }

  /** On a trail without failures, a further complete entry lowers the level if and only if it is the failure of an
      action that some claim names and that is then backed. Any other complete entry never does. */
  lemma MoreEvidenceHurtsExactly(trail: seq<Entry>, e: Entry, claims: seq<Claim>)
    requires e.complete && !HasVerb(trail, FAILED)
    ensures Worth(LevelOf(trail + [e], claims)) < Worth(LevelOf(trail, claims)) <==>
            e.verb == FAILED &&
            exists i :: 0 <= i < |claims| && e.attempted == Some(claims[i].verb) && Backed(trail + [e], claims[i].verb)
  {
    hide Worth, LevelOf, Backed;
    OnlyContradictionLowers(trail, e, claims);
    assert forall v :: !FailedAt(trail, v);
    forall i | 0 <= i < |claims|
      ensures FailedAt(trail + [e], claims[i].verb) <==> e.verb == FAILED && e.attempted == Some(claims[i].verb)
    {
      FailedSnoc(trail, e, claims[i].verb);
    }
  }

  /** Whatever the trail, a recorded failure of a claimed and backed action contradicts the message. */
  lemma FailureContradicts(trail: seq<Entry>, e: Entry, claims: seq<Claim>, k: nat)
    requires k < |claims| && Backed(trail + [e], claims[k].verb)
    requires e.verb == FAILED && e.attempted == Some(claims[k].verb)
    ensures LevelOf(trail + [e], claims) == LevelContradicted
  {
    hide LevelOf, Backed;
    FailedSnoc(trail, e, claims[k].verb);
    ContradictsMeansLevel(trail + [e], claims);
  }

  // ---- Detecting claims ----

  /** One regex match: the pattern's verb, the matched text, its index in the message. */
  datatype Match = Match(verb: Verb, text: string, index: nat)

  /** Matches of one verb within the same 50 characters count as one claim. */
  function Key(v: Verb, index: nat): (Verb, nat) {
    (v, index / 50)
  }

  function ClaimKey(c: Claim): (Verb, nat) {
    Key(c.verb, c.position)
  }

  ghost predicate SortedByPosition(claims: seq<Claim>) {
    forall i, j :: 0 <= i < j < |claims| ==> claims[i].position <= claims[j].position
  }

  ghost predicate DistinctKeys(claims: seq<Claim>) {
    forall i, j :: 0 <= i < j < |claims| ==> ClaimKey(claims[i]) != ClaimKey(claims[j])
  }

  /** JavaScript's stable sort by position: the new claim goes behind all that are not later. */
  function InsertSorted(claims: seq<Claim>, c: Claim): seq<Claim> {
    if claims == [] || claims[|claims| - 1].position <= c.position then claims + [c]
    else InsertSorted(claims[..|claims| - 1], c) + [claims[|claims| - 1]]
  }

  function Sorted(claims: seq<Claim>): seq<Claim> {
    if claims == [] then [] else InsertSorted(Sorted(claims[..|claims| - 1]), claims[|claims| - 1])
  }

  lemma {:induction false} InsertSortedKeeps(claims: seq<Claim>, c: Claim)
    requires SortedByPosition(claims)
    ensures SortedByPosition(InsertSorted(claims, c))
    ensures multiset(InsertSorted(claims, c)) == multiset(claims) + multiset{c}
  {
    if claims != [] && claims[|claims| - 1].position > c.position {
      var init, last := claims[..|claims| - 1], claims[|claims| - 1];
      InsertSortedKeeps(init, c);
      assert claims == init + [last];
      BoundedBag(InsertSorted(init, c), init, c, last.position);
      SortedSnoc(InsertSorted(init, c), last);
    }
  }

  lemma SortedSnoc(claims: seq<Claim>, last: Claim)
    requires SortedByPosition(claims) && forall i :: 0 <= i < |claims| ==> claims[i].position <= last.position
    ensures SortedByPosition(claims + [last])
  {
  }

  lemma BoundedBag(r: seq<Claim>, claims: seq<Claim>, c: Claim, bound: int)
    requires multiset(r) == multiset(claims) + multiset{c}
    requires c.position <= bound && forall i :: 0 <= i < |claims| ==> claims[i].position <= bound
    ensures forall i :: 0 <= i < |r| ==> r[i].position <= bound
  {
    forall i | 0 <= i < |r| ensures r[i].position <= bound {
      assert r[i] in multiset(r);
      if r[i] != c {
        assert r[i] in multiset(claims);
      }
    }
  }

  /** The claims at one position, in order. */
  function AtPosition(claims: seq<Claim>, p: nat): seq<Claim> {
    if claims == [] then []
    else
      AtPosition(claims[..|claims| - 1], p) +
      if claims[|claims| - 1].position == p then [claims[|claims| - 1]] else []
  }

  lemma AtPositionSnoc(claims: seq<Claim>, c: Claim, p: nat)
    ensures AtPosition(claims + [c], p) == AtPosition(claims, p) + if c.position == p then [c] else []
  {
    assert (claims + [c])[..|claims|] == claims;
  }

  lemma {:induction false} InsertIsStable(claims: seq<Claim>, c: Claim, p: nat)
    ensures AtPosition(InsertSorted(claims, c), p) == AtPosition(claims, p) + if c.position == p then [c] else []
  {
    hide AtPosition;
    if claims == [] || claims[|claims| - 1].position <= c.position {
      AtPositionSnoc(claims, c, p);
    } else {
      var init, last := claims[..|claims| - 1], claims[|claims| - 1];
      InsertIsStable(init, c, p);
      AtPositionSnoc(InsertSorted(init, c), last, p);
      AtPositionSnoc(init, last, p);
      assert init + [last] == claims;
    }
  }

  /** The sort is stable: claims at one position keep their order. */
  lemma {:induction false} SortIsStable(claims: seq<Claim>, p: nat)
    ensures AtPosition(Sorted(claims), p) == AtPosition(claims, p)
  {
    hide InsertSorted;
    if claims != [] {
      SortIsStable(claims[..|claims| - 1], p);
      InsertIsStable(Sorted(claims[..|claims| - 1]), claims[|claims| - 1], p);
    }
  }

  lemma {:induction false} SortedSorts(claims: seq<Claim>)
    ensures SortedByPosition(Sorted(claims))
    ensures multiset(Sorted(claims)) == multiset(claims)
  {
    if claims != [] {
      var init := claims[..|claims| - 1];
      SortedSorts(init);
      InsertSortedKeeps(Sorted(init), claims[|claims| - 1]);
      assert claims == init + [claims[|claims| - 1]];
    }
  }

  /** Some claim of the list has the key. */
  predicate HasKey(claims: seq<Claim>, key: (Verb, nat)) {
    exists i :: 0 <= i < |claims| && ClaimKey(claims[i]) == key
  }

  function ToClaim(m: Match): Claim {
    Claim(m.text, m.verb, m.index)
  }

  /** The first match of every key, in the order of the matches. */
  function FirstOfKeys(ms: seq<Match>): seq<Claim> {
    if ms == [] then []
    else
      var rest, m := FirstOfKeys(ms[..|ms| - 1]), ms[|ms| - 1];
      if HasKey(rest, Key(m.verb, m.index)) then rest else rest + [ToClaim(m)]
  }

  lemma HasKeySnoc(claims: seq<Claim>, c: Claim, key: (Verb, nat))
    ensures HasKey(claims + [c], key) <==> HasKey(claims, key) || ClaimKey(c) == key
  {
    if HasKey(claims, key) {
      var i :| 0 <= i < |claims| && ClaimKey(claims[i]) == key;
      assert ClaimKey((claims + [c])[i]) == key;
    }
    if ClaimKey(c) == key {
      assert ClaimKey((claims + [c])[|claims|]) == key;
    }
  }

  /** `_detectClaims` over the matches of all patterns in turn. */
  method DetectClaims(ms: seq<Match>) returns (claims: seq<Claim>)
    ensures claims == Sorted(FirstOfKeys(ms))
  {
    hide HasKey, Key;
    claims := [];
    var seen: set<(Verb, nat)> := {};
    assert ms[..0] == [];
    NoKeys();
    for i := 0 to |ms|
      invariant claims == FirstOfKeys(ms[..i])
      invariant forall key :: key in seen <==> HasKey(claims, key)
    {
      assert ms[..i + 1][..i] == ms[..i];
      var key := Key(ms[i].verb, ms[i].index);
      if key !in seen {
        seen := seen + {key};
        forall k { HasKeySnoc(claims, ToClaim(ms[i]), k); }
        claims := claims + [ToClaim(ms[i])];
      }
    }
    assert ms[..|ms|] == ms;
    claims := Sorted(claims);
  }

  lemma NoKeys()
    ensures forall key :: !HasKey([], key)
  {
  }

  /** The claim is a match, and no match before it is of its verb and in its 50 characters. */
  ghost predicate FirstOfItsKey(ms: seq<Match>, c: Claim) {
    exists i :: IsFirstAt(ms, c, i)
  }

  predicate IsFirstAt(ms: seq<Match>, c: Claim, i: int) {
    && 0 <= i < |ms| && c == Claim(ms[i].text, ms[i].verb, ms[i].index)
    && forall j :: 0 <= j < i ==> !(ms[j].verb == c.verb && ms[j].index / 50 == c.position / 50)
  }

  lemma FirstStaysFirst(init: seq<Match>, m: Match, c: Claim)
    requires FirstOfItsKey(init, c)
    ensures FirstOfItsKey(init + [m], c)
  {
    var i :| IsFirstAt(init, c, i);
    assert IsFirstAt(init + [m], c, i);
  }

  lemma NewKeyIsFirst(init: seq<Match>, m: Match, rest: seq<Claim>)
    requires forall i :: 0 <= i < |init| ==> HasKey(rest, Key(init[i].verb, init[i].index))
    requires !HasKey(rest, Key(m.verb, m.index))
    ensures FirstOfItsKey(init + [m], ToClaim(m))
  {
    hide HasKey;
    forall j | 0 <= j < |init| ensures !(init[j].verb == m.verb && init[j].index / 50 == m.index / 50) {
      assert HasKey(rest, Key(init[j].verb, init[j].index));
    }
    assert IsFirstAt(init + [m], ToClaim(m), |init|);
  }

  /** Every claim is the first match of its key, no two claims share a key, and every match's key is claimed. */
  lemma {:induction false} FirstOfKeysCovers(ms: seq<Match>)
    ensures DistinctKeys(FirstOfKeys(ms))
    ensures forall i :: 0 <= i < |ms| ==> HasKey(FirstOfKeys(ms), Key(ms[i].verb, ms[i].index))
    ensures forall c :: c in FirstOfKeys(ms) ==> exists i :: 0 <= i < |ms| && c == ToClaim(ms[i])
    ensures forall c :: c in FirstOfKeys(ms) ==> FirstOfItsKey(ms, c)
  {
    if ms != [] {
      var init, m := ms[..|ms| - 1], ms[|ms| - 1];
      FirstOfKeysCovers(init);
      var rest, all := FirstOfKeys(init), FirstOfKeys(ms);
      forall i | 0 <= i < |ms| ensures HasKey(all, Key(ms[i].verb, ms[i].index)) {
        HasKeySnoc(rest, ToClaim(m), Key(ms[i].verb, ms[i].index));
        if i < |init| {
          assert HasKey(rest, Key(init[i].verb, init[i].index));
        }
      }
      forall c | c in all ensures exists i :: 0 <= i < |ms| && c == ToClaim(ms[i]) {
        if c in rest {
          var i :| 0 <= i < |init| && c == ToClaim(init[i]);
          assert c == ToClaim(ms[i]);
        } else {
          assert c == ToClaim(ms[|ms| - 1]);
        }
      }
      forall c | c in all ensures FirstOfItsKey(ms, c) {
        assert ms == init + [m];
        if c in rest {
          FirstStaysFirst(init, m, c);
        } else {
          NewKeyIsFirst(init, m, rest);
        }
      }
      if !HasKey(rest, ClaimKey(ToClaim(m))) {
        forall i | 0 <= i < |rest| ensures ClaimKey(rest[i]) != ClaimKey(ToClaim(m)) {
        }
      }
    }
  }

  /** The match is claimed, or lies within the same 50 characters as a claim of its verb. */
  predicate ClaimedNearby(claims: seq<Claim>, m: Match) {
    exists c :: c in claims && c.verb == m.verb && c.position / 50 == m.index / 50
  }

  lemma KeyIsNearby(claims: seq<Claim>, m: Match)
    requires HasKey(claims, Key(m.verb, m.index))
    ensures ClaimedNearby(claims, m)
  {
    var k :| 0 <= k < |claims| && ClaimKey(claims[k]) == Key(m.verb, m.index);
    assert claims[k] in claims;
  }

  lemma SameMembers(a: seq<Claim>, b: seq<Claim>)
    requires multiset(a) == multiset(b)
    ensures forall c :: c in a <==> c in b
  {
    forall c ensures c in a <==> c in b {
      assert c in a <==> c in multiset(a);
    }
  }

  /** What is detected: a reordering of the first matches by position in the message. Every claim is a
      match, and every match is claimed itself or close to a claim of its verb. */
  lemma DetectionIsSoundAndComplete(ms: seq<Match>)
    ensures var claims := Sorted(FirstOfKeys(ms));
            && SortedByPosition(claims) && multiset(claims) == multiset(FirstOfKeys(ms))
            && (forall c :: c in claims ==> exists i :: 0 <= i < |ms| && c == ToClaim(ms[i]))
            && (forall i :: 0 <= i < |ms| ==> ClaimedNearby(claims, ms[i]))
  {
    hide Sorted, FirstOfKeys, HasKey, Key, ToClaim;
    var first := FirstOfKeys(ms);
    SortedSorts(first);
    FirstOfKeysCovers(ms);
    SameMembers(Sorted(first), first);
    forall i | 0 <= i < |ms| ensures ClaimedNearby(Sorted(first), ms[i]) {
      KeyIsNearby(first, ms[i]);
    }
  }
}

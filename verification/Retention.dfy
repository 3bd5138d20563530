/** Retention rules: which policy governs a document and when it may be archived or deleted. */
module Retention {
  import opened Prelude
  import opened Text

  type Time = int

  function Days(n: int): Time {
    n * 86_400_000_000
  }

  /** A stored timestamp as `_parse_iso` sees it. */
  datatype Stamp = Absent | Unparsable | At(time: Time)

  datatype Subject = Subject(documentType: string, category: string, sourceContext: string)

  datatype Policy = Policy(
    key: string, documentType: string, category: string, sourceContext: string,
    archiveAfterDays: Option<int>, deleteAfterArchiveDays: Option<int>)

  const ANY := "*"

  predicate ValueMatches(policyValue: string, value: string) {
    policyValue == ANY || Upper(Trim(value)) == Upper(Trim(policyValue))
  }

  predicate Matches(p: Policy, s: Subject) {
    && ValueMatches(p.documentType, s.documentType) && ValueMatches(p.category, s.category)
    && ValueMatches(p.sourceContext, s.sourceContext)
  }

  function One(field: string): nat {
    if field != ANY then 1 else 0
  }

  function Specificity(p: Policy): nat {
    One(p.documentType) + One(p.category) + One(p.sourceContext)
  }

  // ---- select_policy: filter, sort by specificity descending, take the head -----------

  function Matching(policies: seq<Policy>, s: Subject): seq<Policy> {
    if policies == [] then []
    else Matching(policies[..|policies| - 1], s) + if Matches(policies[|policies| - 1], s)
      then [policies[|policies| - 1]] else []
  }

  /** Stable and descending: after the policies that are at least as specific. */
  function InsertDescending(sorted: seq<Policy>, p: Policy): (r: seq<Policy>)
    ensures |r| == |sorted| + 1
  {
    if sorted != [] && Specificity(sorted[|sorted| - 1]) < Specificity(p) then
      InsertDescending(sorted[..|sorted| - 1], p) + [sorted[|sorted| - 1]]
    else sorted + [p]
  }

  function SortDescending(policies: seq<Policy>): (r: seq<Policy>)
    ensures |r| == |policies|
  {
    if policies == [] then []
    else InsertDescending(SortDescending(policies[..|policies| - 1]), policies[|policies| - 1])
  }

  function SelectPolicy(s: Subject, policies: seq<Policy>): Option<Policy> {
    var matches := SortDescending(Matching(policies, s));
    if matches == [] then None else Some(matches[0])
  }

  predicate Descending(s: seq<Policy>) {
    forall i, j :: 0 <= i < j < |s| ==> Specificity(s[i]) >= Specificity(s[j])
  }

  lemma {:induction false} InsertMembers(sorted: seq<Policy>, p: Policy, x: Policy)
    ensures x in InsertDescending(sorted, p) ==> x == p || x in sorted
  {
    if sorted != [] && Specificity(sorted[|sorted| - 1]) < Specificity(p) {
      InsertMembers(sorted[..|sorted| - 1], p, x);
    }
  }

  lemma {:induction false} InsertKeepsDescending(sorted: seq<Policy>, p: Policy)
    requires Descending(sorted)
    ensures Descending(InsertDescending(sorted, p))
    ensures InsertDescending(sorted, p)[0] ==
      if sorted == [] || Specificity(sorted[0]) < Specificity(p) then p else sorted[0]
  {
    if sorted != [] && Specificity(sorted[|sorted| - 1]) < Specificity(p) {
      var init, last := sorted[..|sorted| - 1], sorted[|sorted| - 1];
      var r := InsertDescending(init, p);
      InsertKeepsDescending(init, p);
      forall i | 0 <= i < |r| ensures Specificity(r[i]) >= Specificity(last) {
        InsertMembers(init, p, r[i]);
        if r[i] != p { var j :| 0 <= j < |init| && init[j] == r[i]; assert sorted[j] == r[i]; }
      }
    }
  }

  lemma {:induction false} SortIsDescending(policies: seq<Policy>)
    ensures Descending(SortDescending(policies))
  {
    if policies != [] {
      SortIsDescending(policies[..|policies| - 1]);
      InsertKeepsDescending(SortDescending(policies[..|policies| - 1]), policies[|policies| - 1]);
    }
  }

  /** One more policy at the end of the list changes the choice only if it is strictly more specific. */
  lemma SelectOneMore(s: Subject, before: seq<Policy>, last: Policy)
    ensures SelectPolicy(s, before + [last]) ==
      var chosen := SelectPolicy(s, before);
      if Matches(last, s) && (chosen.None? || Specificity(chosen.value) < Specificity(last)) then Some(last) else chosen
  {
    var m := Matching(before, s);
    assert (before + [last])[..|before|] == before;
    if Matches(last, s) {
      assert Matching(before + [last], s) == m + [last];
      assert (m + [last])[..|m|] == m;
      SortIsDescending(m);
      InsertKeepsDescending(SortDescending(m), last);
    } else {
      assert Matching(before + [last], s) == m;
    }
  }

  /** One pass over `n` candidates: move only to a strictly heavier hit. */
  ghost function Best(hit: int -> bool, weight: int -> int, n: nat): (r: Option<nat>)
    ensures r.Some? ==> r.value < n
  {
    if n == 0 then None
    else
      var best := Best(hit, weight, n - 1);
      if hit(n - 1) && (best.None? || weight(best.value) < weight(n - 1)) then Some(n - 1) else best
  }

  /** Candidate `i` is the first of the heaviest hits. */
  ghost predicate FirstHeaviest(hit: int -> bool, weight: int -> int, n: nat, i: nat) {
    && i < n && hit(i)
    && (forall j :: 0 <= j < n && hit(j) ==> weight(j) <= weight(i))
    && (forall j :: 0 <= j < i && hit(j) ==> weight(j) < weight(i))
  }

  lemma {:induction false} BestIsFirstHeaviest(hit: int -> bool, weight: int -> int, n: nat)
    ensures Best(hit, weight, n).None? ==> forall j :: 0 <= j < n ==> !hit(j)
    ensures Best(hit, weight, n).Some? ==> FirstHeaviest(hit, weight, n, Best(hit, weight, n).value)
  {
    if n > 0 { BestIsFirstHeaviest(hit, weight, n - 1); }
  }

  function Hits(s: Subject, policies: seq<Policy>): int -> bool {
    (i: int) => 0 <= i < |policies| && Matches(policies[i], s)
  }

  function Weights(policies: seq<Policy>): int -> int {
    (i: int) => if 0 <= i < |policies| then Specificity(policies[i]) else 0
  }

  lemma {:induction false} SelectIsBest(s: Subject, policies: seq<Policy>, n: nat)
    requires n <= |policies|
    ensures SelectPolicy(s, policies[..n]) ==
      match Best(Hits(s, policies), Weights(policies), n) case None => None case Some(i) => Some(policies[i])
  {
    if n > 0 {
      assert policies[..n] == policies[..n - 1] + [policies[n - 1]];
      SelectIsBest(s, policies, n - 1);
      var chosen := SelectPolicy(s, policies[..n - 1]);
      assert Hits(s, policies)(n - 1) == Matches(policies[n - 1], s);
      assert Weights(policies)(n - 1) == Specificity(policies[n - 1]);
      assert SelectPolicy(s, policies[..n]) ==
        (if Matches(policies[n - 1], s)
          && (chosen.None? || Specificity(chosen.value) < Specificity(policies[n - 1]))
            then Some(policies[n - 1]) else chosen)
      by { SelectOneMore(s, policies[..n - 1], policies[n - 1]); }
    }
  }

  /** A policy speaks of a subject: each of its three values is "*" or the same text, blanks around it and case
      apart. */
  ghost predicate SpeaksOf(p: Policy, s: Subject) {
    && (p.documentType == "*" || Upper(Trim(p.documentType)) == Upper(Trim(s.documentType)))
    && (p.category == "*" || Upper(Trim(p.category)) == Upper(Trim(s.category)))
    && (p.sourceContext == "*" || Upper(Trim(p.sourceContext)) == Upper(Trim(s.sourceContext)))
  }

  ghost function Stars(p: Policy): nat {
    multiset{p.documentType, p.category, p.sourceContext}["*"]
  }

  /** Policy `i` governs the subject: of those that speak of it, none has fewer stars and none before it as few. */
  ghost predicate Governs(policies: seq<Policy>, i: nat, s: Subject) {
    && i < |policies| && SpeaksOf(policies[i], s)
    && forall j :: 0 <= j < |policies| && SpeaksOf(policies[j], s) ==>
         Stars(policies[i]) <= Stars(policies[j]) && (j < i ==> Stars(policies[i]) < Stars(policies[j]))
  }

  lemma StarsAndSpecificity(p: Policy)
    ensures Specificity(p) == 3 - Stars(p)
  {
  }

  /** The sort-based choice is the policy that governs; there is none exactly when no policy speaks of the
      subject. */
  lemma SelectGoverns(s: Subject, policies: seq<Policy>)
    ensures SelectPolicy(s, policies).None? <==> forall j :: 0 <= j < |policies| ==> !SpeaksOf(policies[j], s)
    ensures SelectPolicy(s, policies).Some? ==>
      exists i: nat :: Governs(policies, i, s) && SelectPolicy(s, policies).value == policies[i]
  {
    hide SelectPolicy, Specificity, Stars, Upper, Trim;
    SelectIsFirstMostSpecific(s, policies);
    assert forall p :: Matches(p, s) <==> SpeaksOf(p, s);
    if SelectPolicy(s, policies).Some? {
      var i: nat :| FirstHeaviest(Hits(s, policies), Weights(policies), |policies|, i)
        && SelectPolicy(s, policies).value == policies[i];
      StarsAndSpecificity(policies[i]);
      forall j | 0 <= j < |policies| && SpeaksOf(policies[j], s)
        ensures Stars(policies[i]) <= Stars(policies[j]) && (j < i ==> Stars(policies[i]) < Stars(policies[j]))
      {
        StarsAndSpecificity(policies[j]);
        assert Hits(s, policies)(j) && Weights(policies)(j) == Specificity(policies[j]);
        assert Weights(policies)(i) == Specificity(policies[i]);
      }
    }
  }

  /** In terms of the definitions above. */
  lemma SelectIsFirstMostSpecific(s: Subject, policies: seq<Policy>)
    ensures SelectPolicy(s, policies).None? <==> forall j :: 0 <= j < |policies| ==> !Matches(policies[j], s)
    ensures SelectPolicy(s, policies).Some? ==>
      exists i: nat ::
        FirstHeaviest(Hits(s, policies), Weights(policies), |policies|, i)
          && SelectPolicy(s, policies).value == policies[i]
  {
    var hit, weight := Hits(s, policies), Weights(policies);
    assert policies[..|policies|] == policies;
    SelectIsBest(s, policies, |policies|);
    BestIsFirstHeaviest(hit, weight, |policies|);
    assert forall j :: 0 <= j < |policies| ==> hit(j) == Matches(policies[j], s);
  }

  // ---- Eligibility --------------------------------------------------------------------

  predicate EligibleForArchive(legalHold: bool, archivedAt: Stamp, uploadedAt: Stamp, p: Policy, now: Time) {
    && !legalHold && archivedAt.Absent? && p.archiveAfterDays.Some?
    && uploadedAt.At? && uploadedAt.time <= now - Days(p.archiveAfterDays.value)
  }

  predicate EligibleForDelete(legalHold: bool, archivedAt: Stamp, p: Policy, now: Time) {
    && !legalHold && p.deleteAfterArchiveDays.Some?
    && archivedAt.At? && archivedAt.time <= now - Days(p.deleteAfterArchiveDays.value)
  }
}

/** Signature requests: signers act one after another, in order; each request ends once. */
module Signature {
  import opened Prelude
  import opened Text

  type Time = int

  datatype Signer = Signer(
    employeeId: string, role: string, signedAt: Option<Time>, signatureFilename: Option<string>,
    declinedAt: Option<Time>, declineReason: Option<string>)
  {
    predicate IsDone() {
      signedAt.Some? || declinedAt.Some?
    }

    predicate Untouched() {
      signedAt.None? && declinedAt.None?
    }
  }

  datatype Status = PENDING | COMPLETED | DECLINED | CANCELLED

  datatype Request = Request(
    requestId: string, documentId: string, filename: string, status: Status, issuerUserId: string,
    deadlineAt: Option<string>, signers: seq<Signer>, completedAt: Option<Time>)

  // ---- validate_signers ----------------------------------------------------------

  datatype RawSigner = NotAnObject | Raw(employeeId: string, role: string)

  datatype SignerError = NoSigners | SignerNotAnObject | MissingEmployeeId | DuplicateSigner(employeeId: string)

  function SignerOf(raw: RawSigner): Signer
    requires raw.Raw?
  {
    Signer(Trim(raw.employeeId), if Trim(raw.role) == "" then "signer" else Trim(raw.role), None, None, None, None)
  }

  /** What is wrong with entry `i`, given that the entries before it are right. */
  function Problem(raws: seq<RawSigner>, i: nat): Option<SignerError>
    requires i < |raws|
  {
    if raws[i].NotAnObject? then Some(SignerNotAnObject)
    else if Trim(raws[i].employeeId) == "" then Some(MissingEmployeeId)
    else if exists j :: 0 <= j < i && raws[j].Raw? && Trim(raws[j].employeeId) == Trim(raws[i].employeeId)
      then Some(DuplicateSigner(Trim(raws[i].employeeId)))
    else None
  }

  method ValidateSigners(raws: seq<RawSigner>) returns (r: Result<seq<Signer>, SignerError>)
    ensures r.Ok? <==> raws != [] && forall i :: 0 <= i < |raws| ==> Problem(raws, i) == None
    ensures r.Ok? ==> |r.value| == |raws| && forall i :: 0 <= i < |raws| ==>
      raws[i].Raw? && r.value[i] == SignerOf(raws[i])
    ensures r.Ok? ==> forall i :: 0 <= i < |raws| ==>
      && r.value[i].employeeId == Trim(raws[i].employeeId) && r.value[i].employeeId != ""
      && r.value[i].role == (if Trim(raws[i].role) != "" then Trim(raws[i].role) else "signer")
      && r.value[i].Untouched() && r.value[i].signatureFilename == None && r.value[i].declineReason == None
    ensures r.Ok? ==> forall i, j :: 0 <= i < j < |raws| ==> r.value[i].employeeId != r.value[j].employeeId
    ensures raws == [] ==> r == Err(NoSigners)
    ensures raws != [] && r.Err? ==>
      exists i :: 0 <= i < |raws| && Problem(raws, i) == Some(r.error)
        && forall j :: 0 <= j < i ==> Problem(raws, j) == None
  {
    hide Trim, SignerOf;
    if raws == [] {
      return Err(NoSigners);
    }
    var seen: set<string> := {};
    var out: seq<Signer> := [];
    var i := 0;
    while i < |raws|
      invariant 0 <= i <= |raws| && |out| == i
      invariant forall j :: 0 <= j < i ==> Problem(raws, j) == None && raws[j].Raw? && out[j] == SignerOf(raws[j])
      invariant forall id :: id in seen <==> exists j :: 0 <= j < i && raws[j].Raw? && Trim(raws[j].employeeId) == id
    {
      match raws[i] {
        case NotAnObject =>
          assert Problem(raws, i) == Some(SignerNotAnObject);
          return Err(SignerNotAnObject);
        case Raw(rawId, rawRole) =>
          var id := Trim(rawId);
          if id == "" {
            assert Problem(raws, i) == Some(MissingEmployeeId);
            return Err(MissingEmployeeId);
          }
          if id in seen {
            assert Problem(raws, i) == Some(DuplicateSigner(id));
            return Err(DuplicateSigner(id));
          }
          assert Problem(raws, i) == None;
          ghost var before := seen;
          seen := seen + {id};
          out := out + [SignerOf(raws[i])];
          forall k ensures k in seen <==> exists j :: 0 <= j < i + 1 && raws[j].Raw? && Trim(raws[j].employeeId) == k {
            if k in before { var j :| 0 <= j < i && raws[j].Raw? && Trim(raws[j].employeeId) == k; }
          }
      }
      i := i + 1;
    }
    SignersMean(raws, out);
    return Ok(out);
  }

  lemma SignersMean(raws: seq<RawSigner>, signers: seq<Signer>)
    requires |signers| == |raws|
    requires forall i :: 0 <= i < |raws| ==> Problem(raws, i) == None && raws[i].Raw? && signers[i] == SignerOf(raws[i])
    ensures forall i :: 0 <= i < |raws| ==>
      && signers[i].employeeId == Trim(raws[i].employeeId) && signers[i].employeeId != ""
      && signers[i].role == (if Trim(raws[i].role) != "" then Trim(raws[i].role) else "signer")
      && signers[i].Untouched() && signers[i].signatureFilename == None && signers[i].declineReason == None
    ensures forall i, j :: 0 <= i < j < |raws| ==> signers[i].employeeId != signers[j].employeeId
  {
    hide Trim;
    forall i, j | 0 <= i < j < |raws| ensures signers[i].employeeId != signers[j].employeeId {
      assert Problem(raws, j) == None;
    }
  }

  // ---- Acting on a request ----------------------------------------------------------

  /** `current_signer_index`: the first signer who is not done. */
  function CurrentIndex(signers: seq<Signer>): (r: Option<nat>)
    ensures r.None? ==> forall i :: 0 <= i < |signers| ==> signers[i].IsDone()
    ensures r.Some? ==> r.value < |signers| && !signers[r.value].IsDone() && forall i :: 0 <= i < r.value ==>
      signers[i].IsDone()
  {
    if signers == [] then None
    else if !signers[0].IsDone() then Some(0)
    else match CurrentIndex(signers[1..]) case None => None case Some(i) => Some(i + 1)
  }

  datatype ActError = Closed(status: Status) | NoOutstandingSigner | NotYourTurn | NotAllowed

  function AssertCanSign(r: Request, employeeId: string): Result<nat, ActError> {
    if r.status != PENDING then Err(Closed(r.status))
    else match CurrentIndex(r.signers)
      case None => Err(NoOutstandingSigner)
      case Some(i) => if r.signers[i].employeeId != employeeId then Err(NotYourTurn) else Ok(i)
  }

  datatype Act =
    | Sign(employeeId: string, now: Time, file: Option<string>)
    | Decline(employeeId: string, now: Time, reason: string)
    | Cancel(allowed: bool, now: Time)

  function Attempt(r: Request, a: Act): Result<Request, ActError> {
    match a
    case Sign(employeeId, now, file) =>
      (match AssertCanSign(r, employeeId)
       case Err(e) => Err(e)
       case Ok(i) =>
         var signers := r.signers[i := r.signers[i].(signedAt := Some(now), signatureFilename := file)];
         if CurrentIndex(signers).None? then Ok(r.(signers := signers, status := COMPLETED, completedAt := Some(now)))
         else Ok(r.(signers := signers)))
    case Decline(employeeId, now, reason) =>
      (match AssertCanSign(r, employeeId)
       case Err(e) => Err(e)
       case Ok(i) =>
         var note := if Trim(reason) == "" then None else Some(Trim(reason));
         Ok(r.(signers := r.signers[i := r.signers[i].(declinedAt := Some(now), declineReason := note)],
               status := DECLINED, completedAt := Some(now))))
    case Cancel(allowed, now) =>
      if r.status != PENDING then Err(Closed(r.status))
      else if !allowed then Err(NotAllowed)
      else Ok(r.(status := CANCELLED, completedAt := Some(now)))
  }

  // ---- Whose turn it is ---------------------------------------------------------------

  ghost predicate Done(s: Signer) {
    s.signedAt != None || s.declinedAt != None
  }

  /** Signer `i` is the first who has neither signed nor declined. */
  ghost predicate IsNext(signers: seq<Signer>, i: nat) {
    i < |signers| && !Done(signers[i]) && forall j :: 0 <= j < i ==> Done(signers[j])
  }

  /** A pending request waits for this employee. */
  ghost predicate AwaitsSigner(r: Request, employeeId: string) {
    r.status == PENDING && exists i: nat :: IsNext(r.signers, i) && r.signers[i].employeeId == employeeId
  }

  /** The signature of the next signer is noted; when nobody is left to act the request is COMPLETED. */
  ghost predicate Signed(before: Request, after: Request, employeeId: string, now: Time, file: Option<string>) {
    && before.status == PENDING
    && after == before.(signers := after.signers, status := after.status, completedAt := after.completedAt)
    && (exists i: nat ::
          && IsNext(before.signers, i) && before.signers[i].employeeId == employeeId
          && after.signers == before.signers[i :=
               before.signers[i].(signedAt := Some(now), signatureFilename := file)])
    && (if forall s :: s in after.signers ==> Done(s)
          then after.status == COMPLETED && after.completedAt == Some(now)
          else after.status == PENDING && after.completedAt == before.completedAt)
  }

  ghost predicate Declined(before: Request, after: Request, employeeId: string, now: Time, reason: string) {
    && before.status == PENDING
    && after == before.(signers := after.signers, status := DECLINED, completedAt := Some(now))
    && exists i: nat ::
         && IsNext(before.signers, i) && before.signers[i].employeeId == employeeId
         && after.signers == before.signers[i := before.signers[i].(declinedAt := Some(now),
              declineReason := if Trim(reason) == "" then None else Some(Trim(reason)))]
  }

  lemma CurrentIsTurn(signers: seq<Signer>)
    ensures CurrentIndex(signers).Some? ==> IsNext(signers, CurrentIndex(signers).value)
    ensures CurrentIndex(signers).None? <==> forall s :: s in signers ==> Done(s)
    ensures forall i: nat :: IsNext(signers, i) ==> CurrentIndex(signers) == Some(i)
  {
  }

  /** Signing goes through exactly for the employee the request waits for. */
  lemma SignWrites(r: Request, employeeId: string, now: Time, file: Option<string>)
    ensures Attempt(r, Sign(employeeId, now, file)).Ok? <==> AwaitsSigner(r, employeeId)
    ensures AwaitsSigner(r, employeeId) ==>
      Signed(r, Attempt(r, Sign(employeeId, now, file)).value, employeeId, now, file)
  {
    hide CurrentIndex, IsNext, Done;
    CurrentIsTurn(r.signers);
    if AwaitsSigner(r, employeeId) {
      var i := CurrentIndex(r.signers).value;
      CurrentIsTurn(r.signers[i := r.signers[i].(signedAt := Some(now), signatureFilename := file)]);
    }
  }

  lemma DeclineWrites(r: Request, employeeId: string, now: Time, reason: string)
    ensures Attempt(r, Decline(employeeId, now, reason)).Ok? <==> AwaitsSigner(r, employeeId)
    ensures AwaitsSigner(r, employeeId) ==>
      Declined(r, Attempt(r, Decline(employeeId, now, reason)).value, employeeId, now, reason)
  {
    hide CurrentIndex, IsNext, Done;
    CurrentIsTurn(r.signers);
  }

  // ---- The shape of every reachable request --------------------------------------------

  ghost predicate SignersDistinct(signers: seq<Signer>) {
    forall i, j :: 0 <= i < j < |signers| ==> signers[i].employeeId != signers[j].employeeId
  }

  /** The first `k` signers have signed, and the status says what became of the next one. */
  ghost predicate ShapedAt(r: Request, k: nat) {
    && k <= |r.signers| && r.signers != [] && SignersDistinct(r.signers)
    && (forall i :: 0 <= i < k ==> r.signers[i].signedAt.Some? && r.signers[i].declinedAt.None?)
    && (forall i :: k < i < |r.signers| ==> r.signers[i].Untouched())
    && (k < |r.signers| ==> r.signers[k].signedAt.None?)
    && (r.status == COMPLETED <==> k == |r.signers|)
    && (k < |r.signers| ==> (r.signers[k].declinedAt.Some? <==> r.status == DECLINED))
  }

  ghost predicate Shaped(r: Request) {
    exists k: nat :: ShapedAt(r, k)
  }

  function NewRequest(requestId: string, documentId: string, filename: string, issuer: string,
      deadline: Option<string>, signers: seq<Signer>): Request {
    Request(requestId, documentId, filename, PENDING, issuer, deadline, signers, None)
  }

  /** A request made from validated signers starts in shape. */
  lemma NewRequestShaped(raws: seq<RawSigner>, signers: seq<Signer>, requestId: string, documentId: string,
      filename: string, issuer: string, deadline: Option<string>)
    requires raws != [] && |signers| == |raws|
    requires forall i :: 0 <= i < |raws| ==> Problem(raws, i) == None && raws[i].Raw? && signers[i] == SignerOf(raws[i])
    ensures ShapedAt(NewRequest(requestId, documentId, filename, issuer, deadline, signers), 0)
  {
    forall i, j | 0 <= i < j < |signers| ensures signers[i].employeeId != signers[j].employeeId {
      assert Problem(raws, j) == None;
    }
  }

  lemma CurrentIsNext(r: Request, k: nat)
    requires ShapedAt(r, k)
    ensures r.status in {PENDING, CANCELLED} ==> CurrentIndex(r.signers) == Some(k)
    ensures r.status == COMPLETED ==> CurrentIndex(r.signers) == None
  {
  }

  /** A successful act: signing adds the next signer to the prefix, declining stops at the next signer,
      and only the next signer may do either. */
  lemma AttemptKeepsShape(r: Request, k: nat, a: Act)
    requires ShapedAt(r, k) && Attempt(r, a).Ok?
    ensures r.status == PENDING
    ensures ShapedAt(Attempt(r, a).value, if a.Sign? then k + 1 else k)
    ensures a.Sign? || a.Decline? ==> k < |r.signers| && a.employeeId == r.signers[k].employeeId
    ensures a.Decline? ==> Attempt(r, a).value.status == DECLINED
    ensures a.Cancel? ==> Attempt(r, a).value.status == CANCELLED
    ensures a.Sign? ==> (Attempt(r, a).value.status == COMPLETED <==> k + 1 == |r.signers|)
  {
    CurrentIsNext(r, k);
    if a.Sign? {
      var signers := r.signers[k := r.signers[k].(signedAt := Some(a.now), signatureFilename := a.file)];
      assert forall i :: 0 <= i <= k ==> signers[i].IsDone();
      assert k + 1 < |signers| ==> !signers[k + 1].IsDone();
    }
  }

  /** COMPLETED, DECLINED and CANCELLED absorb. */
  lemma TerminalAbsorbs(r: Request, a: Act)
    requires r.status != PENDING
    ensures Attempt(r, a) == Err(Closed(r.status))
  {
  }

  /** A pending request answers exactly one employee. */
  lemma OneEmployeeMayAct(r: Request, k: nat, employeeId: string)
    requires ShapedAt(r, k) && r.status == PENDING
    ensures k < |r.signers|
    ensures AssertCanSign(r, employeeId).Ok? <==> employeeId == r.signers[k].employeeId
  {
    CurrentIsNext(r, k);
  }

  // ---- At most n acts succeed --------------------------------------------------------------

  function AfterAct(r: Request, a: Act): Request {
    match Attempt(r, a) case Ok(next) => next case Err(_) => r
  }

  function AfterActs(r: Request, acts: seq<Act>): Request {
    if acts == [] then r else AfterAct(AfterActs(r, acts[..|acts| - 1]), acts[|acts| - 1])
  }

  function Successes(r: Request, acts: seq<Act>): nat {
    if acts == [] then 0
    else Successes(r, acts[..|acts| - 1]) + if Attempt(AfterActs(r, acts[..|acts| - 1]), acts[|acts| - 1]).Ok?
      then 1 else 0
  }

  lemma {:induction false} ActsKeepShape(r: Request, acts: seq<Act>) returns (k: nat)
    requires ShapedAt(r, 0) && r.status == PENDING
    ensures ShapedAt(AfterActs(r, acts), k) && |AfterActs(r, acts).signers| == |r.signers|
    ensures Successes(r, acts) == k + if AfterActs(r, acts).status in {DECLINED, CANCELLED} then 1 else 0
    ensures AfterActs(r, acts).status == DECLINED || AfterActs(r, acts).status == CANCELLED ==> k < |r.signers|
  {
    if acts == [] {
      k := 0;
    } else {
      var before, a := acts[..|acts| - 1], acts[|acts| - 1];
      k := ActsKeepShape(r, before);
      var now := AfterActs(r, before);
      if Attempt(now, a).Ok? {
        AttemptKeepsShape(now, k, a);
        CurrentIsNext(now, k);
        if a.Sign? { k := k + 1; }
      }
    }
  }

  /** However many acts are tried, at most as many succeed as there are signers. */
  lemma AtMostOneSuccessPerSigner(r: Request, acts: seq<Act>)
    requires ShapedAt(r, 0) && r.status == PENDING
    ensures Successes(r, acts) <= |r.signers|
    ensures Shaped(AfterActs(r, acts))
  {
    var k := ActsKeepShape(r, acts);
  }

  // ---- list_pending_for_signer ----------------------------------------------------------------

  const PENDING_LIMIT: nat := 500

  predicate Mentions(r: Request, employeeId: string) {
    r.status == PENDING && exists i :: 0 <= i < |r.signers| && r.signers[i].employeeId == employeeId
  }

  predicate IsTurnOf(r: Request, employeeId: string) {
    var i := CurrentIndex(r.signers);
    i.Some? && r.signers[i.value].employeeId == employeeId
  }

  /** Pending requests that mention the employee, cut at the limit, then those whose turn it is. */
  method ListPendingForSigner(requests: map<string, Request>, employeeId: string) returns (out: set<string>)
    ensures forall id :: id in out ==>
      id in requests && requests[id].status == PENDING && IsTurnOf(requests[id], employeeId)
    ensures |set id | id in requests && Mentions(requests[id], employeeId)| <= 500 ==>
      forall id :: id in requests && requests[id].status == PENDING && IsTurnOf(requests[id], employeeId) ==> id in out
  {
    var wanted := set id | id in requests && Mentions(requests[id], employeeId);
    out := {};
    var left := wanted;
    var rows := 0;
    while left != {} && rows < PENDING_LIMIT
      invariant left <= wanted && rows <= PENDING_LIMIT && rows + |left| == |wanted|
      invariant forall id :: id in out ==> id in wanted && IsTurnOf(requests[id], employeeId)
      invariant forall id :: id in wanted && id !in left && IsTurnOf(requests[id], employeeId) ==> id in out
      decreases left
    {
      var id :| id in left;
      left := left - {id};
      rows := rows + 1;
      if IsTurnOf(requests[id], employeeId) {
        out := out + {id};
      }
    }
  }

  /** In shape, a pending request is the turn of one employee and of no other. */
  lemma PendingIsOneTurn(r: Request, k: nat, employeeId: string)
    requires ShapedAt(r, k) && r.status == PENDING
    ensures k < |r.signers|
    ensures IsTurnOf(r, employeeId) <==> employeeId == r.signers[k].employeeId
    ensures IsTurnOf(r, employeeId) ==> Mentions(r, employeeId)
  {
    CurrentIsNext(r, k);
  }
}

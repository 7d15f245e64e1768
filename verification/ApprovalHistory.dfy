/** Exactly when a call on an export approval succeeds, in terms of the calls that succeeded before it. */
module ApprovalHistory {
  import opened Basics
  import opened ExportApprovals

  ghost predicate RequestedAt(lib: Lib, calls: seq<Call>, errs: seq<Option<Error>>, n: int, id: string) {
    Succeeded(lib, calls, errs, n, id) && calls[n].Request?
  }

  ghost predicate ApprovedAt(lib: Lib, calls: seq<Call>, errs: seq<Option<Error>>, n: int, id: string) {
    Succeeded(lib, calls, errs, n, id) && calls[n].Approve?
  }

  ghost predicate ConsumedAt(lib: Lib, calls: seq<Call>, errs: seq<Option<Error>>, n: int, id: string) {
    Succeeded(lib, calls, errs, n, id) && calls[n].Consume?
  }

  /** Before call m a request of this id succeeded. */
  ghost predicate SomeRequest(lib: Lib, calls: seq<Call>, errs: seq<Option<Error>>, m: nat, id: string) {
    exists n: nat :: n < m && RequestedAt(lib, calls, errs, n, id)
  }

  ghost predicate SomeApproval(lib: Lib, calls: seq<Call>, errs: seq<Option<Error>>, m: nat, id: string) {
    exists n: nat :: n < m && ApprovedAt(lib, calls, errs, n, id)
  }

  ghost predicate SomeConsumption(lib: Lib, calls: seq<Call>, errs: seq<Option<Error>>, m: nat, id: string) {
    exists n: nat :: n < m && ConsumedAt(lib, calls, errs, n, id)
  }

  lemma OneMoreCall(lib: Lib, calls: seq<Call>, errs: seq<Option<Error>>, m: nat, id: string)
    ensures SomeRequest(lib, calls, errs, m + 1, id)
            <==> SomeRequest(lib, calls, errs, m, id) || RequestedAt(lib, calls, errs, m, id)
    ensures SomeApproval(lib, calls, errs, m + 1, id)
            <==> SomeApproval(lib, calls, errs, m, id) || ApprovedAt(lib, calls, errs, m, id)
    ensures SomeConsumption(lib, calls, errs, m + 1, id)
            <==> SomeConsumption(lib, calls, errs, m, id) || ConsumedAt(lib, calls, errs, m, id)
  {
    hide RequestedAt, ApprovedAt, ConsumedAt;
  }

  predicate Consumed(x: Option<Approval>) {
    x.Some? && x.value.consumedAt.Some?
  }

  // ---- The document tells what was called ------------------------------------------------------------

  lemma StepTells(lib: Lib, call: Call, err: Option<Error>, id: string, x: Option<Approval>, y: Option<Approval>)
    requires Moves(lib, call, err, id, x, y)
    ensures var hit := err.None? && lib.trim(call.id) == id;
            && (y.Some? <==> x.Some? || (hit && call.Request?))
            && (HasApprover(y) <==> HasApprover(x) || (hit && call.Approve?))
            && (Consumed(y) <==> Consumed(x) || (hit && call.Consume?))
  {
  }

  lemma CallTells(lib: Lib, calls: seq<Call>, errs: seq<Option<Error>>, docs: seq<Document>, m: nat, id: string)
    requires IsRun(lib, calls, errs, docs) && m < |calls|
    ensures Get(docs[m + 1], id).Some? <==> Get(docs[m], id).Some? || RequestedAt(lib, calls, errs, m, id)
    ensures HasApprover(Get(docs[m + 1], id)) <==> HasApprover(Get(docs[m], id)) || ApprovedAt(lib, calls, errs, m, id)
    ensures Consumed(Get(docs[m + 1], id)) <==> Consumed(Get(docs[m], id)) || ConsumedAt(lib, calls, errs, m, id)
  {
    hide Executes, Get, Moves, Consumed, HasApprover;
    RunMoves(lib, calls, errs, docs, m, id);
    StepTells(lib, calls[m], errs[m], id, Get(docs[m], id), Get(docs[m + 1], id));
  }

  lemma NothingYet(lib: Lib, calls: seq<Call>, errs: seq<Option<Error>>, id: string)
    ensures !SomeRequest(lib, calls, errs, 0, id) && !SomeApproval(lib, calls, errs, 0, id)
    ensures !SomeConsumption(lib, calls, errs, 0, id)
  {
  }

  /** An approval is stored if and only if its request succeeded, has an approver if and only if an approval of it
      did, and counts as consumed if and only if a consumption of it did. */
  lemma {:induction false} DocumentTells(lib: Lib, calls: seq<Call>, errs: seq<Option<Error>>, docs: seq<Document>, m: nat,
                                         id: string)
    requires IsRun(lib, calls, errs, docs) && m <= |calls|
    ensures Get(docs[m], id).Some? <==> SomeRequest(lib, calls, errs, m, id)
    ensures HasApprover(Get(docs[m], id)) <==> SomeApproval(lib, calls, errs, m, id)
    ensures Consumed(Get(docs[m], id)) <==> SomeConsumption(lib, calls, errs, m, id)
  {
    hide Executes, Get, SomeRequest, SomeApproval, SomeConsumption, RequestedAt, ApprovedAt, ConsumedAt;
    RunStartsEmpty(lib, calls, errs, docs, id);
    NothingYet(lib, calls, errs, id);
    if m > 0 {
      hide Consumed, HasApprover;
      DocumentTells(lib, calls, errs, docs, m - 1, id);
      CallTells(lib, calls, errs, docs, m - 1, id);
      OneMoreCall(lib, calls, errs, m - 1, id);
    }
  }

  // ---- Success -----------------------------------------------------------------------------------------

  /** Until when a request may be approved and consumed: the time it asked for, ten minutes if it asked for none. */
  function Deadline(request: Call): int
    requires request.Request?
  {
    request.now + (if request.ttl > 0 then request.ttl else 600_000_000_000)
  }

  /** A request succeeds exactly when it says who asks for which certificates under which id, no request of that id
      has succeeded, and the write does not fail. */
  lemma RequestSucceedsWhen(lib: Lib, calls: seq<Call>, errs: seq<Option<Error>>, docs: seq<Document>, m: nat)
    requires IsRun(lib, calls, errs, docs) && m < |calls| && calls[m].Request?
    ensures errs[m].None? <==>
              && calls[m].saves
              && lib.trim(calls[m].id) != "" && lib.trim(calls[m].actor) != ""
              && (exists c <- calls[m].certificates :: lib.lower(lib.trim(c)) != "")
              && !SomeRequest(lib, calls, errs, m, lib.trim(calls[m].id))
  {
    DocumentTells(lib, calls, errs, docs, m, lib.trim(calls[m].id));
    CallRuns(lib, calls, errs, docs, m);
    SomeCertificate(lib, calls[m].certificates);
  }

  lemma SomeCertificate(lib: Lib, ids: seq<string>)
    ensures CertificateSet(lib, ids) != {} <==> exists c <- ids :: lib.lower(lib.trim(c)) != ""
  {
    if c :| c in ids && lib.lower(lib.trim(c)) != "" { assert lib.lower(lib.trim(c)) in CertificateSet(lib, ids); }
    if x :| x in CertificateSet(lib, ids) { assert exists c <- ids :: lib.lower(lib.trim(c)) == x; }
  }

  lemma CallRuns(lib: Lib, calls: seq<Call>, errs: seq<Option<Error>>, docs: seq<Document>, m: nat)
    requires IsRun(lib, calls, errs, docs) && m < |calls|
    ensures Executes(lib, docs[m], calls[m], errs[m], docs[m + 1])
  {
  }

  /** What an approval in the document carries over from its request. */
  lemma CarriedOver(lib: Lib, calls: seq<Call>, errs: seq<Option<Error>>, docs: seq<Document>, m: nat, r: nat, id: string)
    requires IsRun(lib, calls, errs, docs) && m <= |calls| && r < m && RequestedAt(lib, calls, errs, r, id)
    ensures Get(docs[m], id).Some?
    ensures var a := Get(docs[m], id).value;
            && a.requester == lib.trim(calls[r].actor) && a.expiresAt == Deadline(calls[r])
            && Lists(lib, calls[r].certificates, a.certificates)
  {
    hide Executes, Get, Lists;
    DocumentTells(lib, calls, errs, docs, m, id);
    var r' := Requested(lib, calls, errs, docs, m, id);
    RequestedOnce(lib, calls, errs, docs, r, r', id);
  }

  lemma ApproverIsAnother(lib: Lib, calls: seq<Call>, errs: seq<Option<Error>>, docs: seq<Document>, m: nat, id: string)
    requires IsRun(lib, calls, errs, docs) && m <= |calls| && HasApprover(Get(docs[m], id))
    ensures Get(docs[m], id).value.approvedBy != Get(docs[m], id).value.requester
  {
    hide Executes, Get;
    var p := ApprovedEarlier(lib, calls, errs, docs, m, id);
  }

  lemma ApproveAnswers(lib: Lib, before: Document, call: Call, err: Option<Error>, after: Document)
    requires call.Approve? && Executes(lib, before, call, err, after)
    ensures var x := Get(before, lib.trim(call.id));
            err.None? <==>
              && call.saves && x.Some?
              && lib.trim(call.actor) !in ["", x.value.requester] && x.value.approvedBy == "" && call.now < x.value.expiresAt
  {
  }

  /** An approval succeeds exactly when its request has succeeded and is still in time, no approval of it has
      succeeded, the approver is someone and not the one who asked, and the write does not fail. */
  lemma ApproveSucceedsWhen(lib: Lib, calls: seq<Call>, errs: seq<Option<Error>>, docs: seq<Document>, m: nat)
    requires IsRun(lib, calls, errs, docs) && m < |calls| && calls[m].Approve?
    ensures errs[m].None? <==>
              && calls[m].saves
              && (exists r: nat :: r < m && RequestedAt(lib, calls, errs, r, lib.trim(calls[m].id))
                    && lib.trim(calls[m].actor) !in ["", lib.trim(calls[r].actor)] && calls[m].now < Deadline(calls[r]))
              && !SomeApproval(lib, calls, errs, m, lib.trim(calls[m].id))
  {
    hide Executes, Get, ApprovedAt, Lists;
    var id := lib.trim(calls[m].id);
    DocumentTells(lib, calls, errs, docs, m, id);
    CallRuns(lib, calls, errs, docs, m);
    ApproveAnswers(lib, docs[m], calls[m], errs[m], docs[m + 1]);
    forall r: nat | r < m && RequestedAt(lib, calls, errs, r, id)
      ensures Get(docs[m], id).value.requester == lib.trim(calls[r].actor)
      ensures Get(docs[m], id).value.expiresAt == Deadline(calls[r])
    {
      CarriedOver(lib, calls, errs, docs, m, r, id);
    }
    hide IsRun, RequestedAt, ConsumedAt, Deadline;
  }

  /** A consumption succeeds exactly when the one who asked comes back in time for exactly the certificates asked for,
      an approval has succeeded, no consumption has, and the write does not fail. */
  lemma ConsumeSucceedsWhen(lib: Lib, calls: seq<Call>, errs: seq<Option<Error>>, docs: seq<Document>, m: nat)
    requires IsRun(lib, calls, errs, docs) && m < |calls| && calls[m].Consume?
    ensures errs[m].None? <==>
              && calls[m].saves
              && (exists r: nat :: r < m && RequestedAt(lib, calls, errs, r, lib.trim(calls[m].id))
                    && lib.trim(calls[m].actor) == lib.trim(calls[r].actor) && calls[m].now < Deadline(calls[r])
                    && CertificateSet(lib, calls[m].certificates) == CertificateSet(lib, calls[r].certificates))
              && SomeApproval(lib, calls, errs, m, lib.trim(calls[m].id))
              && !SomeConsumption(lib, calls, errs, m, lib.trim(calls[m].id))
  {
    var id := lib.trim(calls[m].id);
    DocumentTells(lib, calls, errs, docs, m, id);
    CallRuns(lib, calls, errs, docs, m);
    if HasApprover(Get(docs[m], id)) { ApproverIsAnother(lib, calls, errs, docs, m, id); }
    forall r: nat | r < m && RequestedAt(lib, calls, errs, r, id)
      ensures Get(docs[m], id).value.requester == lib.trim(calls[r].actor)
      ensures Get(docs[m], id).value.expiresAt == Deadline(calls[r])
      ensures Lists(lib, calls[r].certificates, Get(docs[m], id).value.certificates)
    {
      CarriedOver(lib, calls, errs, docs, m, r, id);
    }
    hide IsRun, RequestedAt, ApprovedAt, ConsumedAt, Deadline, Lists;
    if Get(docs[m], id).Some? {
      var listed :| Lists(lib, calls[m].certificates, listed)
                    && errs[m] == Settled(ConsumeError(lib, Get(docs[m], id).value, calls[m].actor, listed, calls[m].now), calls[m].saves);
      forall r: nat | r < m && RequestedAt(lib, calls, errs, r, id)
        ensures Get(docs[m], id).value.certificates == listed
                <==> CertificateSet(lib, calls[m].certificates) == CertificateSet(lib, calls[r].certificates)
      {
        ListingsCompare(lib, calls[m].certificates, listed, calls[r].certificates, Get(docs[m], id).value.certificates);
      }
    }
  }

  lemma ListingsCompare(lib: Lib, a: seq<string>, listed: seq<string>, b: seq<string>, stored: seq<string>)
    requires Lists(lib, a, listed) && Lists(lib, b, stored)
    ensures stored == listed <==> CertificateSet(lib, a) == CertificateSet(lib, b)
  {
    hide CertificateSet;
    if stored == listed { SameListing(lib, a, b, listed); }
    if CertificateSet(lib, a) == CertificateSet(lib, b) { AscendingIsUnique(stored, listed); }
  }
}

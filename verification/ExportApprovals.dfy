/** Dual-control approvals for exporting certificates: requested by one actor, approved by another,
    consumed once, in time, for exactly the certificates requested. */
module ExportApprovals {
  import opened Basics
  import opened Text
  import opened Ordering

  /** `approvedBy` is empty until someone approves. Times count nanoseconds. */
  datatype Approval = Approval(
    id: string,
    requester: string,
    certificates: seq<string>,
    approvedBy: string,
    createdAt: int,
    expiresAt: int,
    approvedAt: Option<int>,
    consumedAt: Option<int>)

  datatype Error = FieldsRequired | AlreadyExists | NotFound | SelfApproval | AlreadyApproved
                 | Expired | ApproverRequired | Unauthorised | Mismatch | AlreadyConsumed
                 | SaveFailed

  const TEN_MINUTES := 600_000_000_000

  /** strings.TrimSpace and strings.ToLower; no law about them is needed. */
  datatype Lib = Lib(trim: string -> string, lower: string -> string)

  // ---- Certificate sets ---------------------------------------------------------------

  function CertificateSet(lib: Lib, ids: seq<string>): set<string> {
    (set id | id in ids :: lib.lower(lib.trim(id))) - {""}
  }

  ghost predicate Ascending(s: seq<string>) {
    forall i, j :: 0 <= i < j < |s| ==> Less(s[i], s[j])
  }

  lemma LessOrders()
    ensures StrictWeakOrder(Less)
  {
    forall x: string, y: string, z: string
      ensures !Less(x, x)
      ensures Less(x, y) && Less(y, z) ==> Less(x, z)
      ensures !Less(x, y) && !Less(y, z) ==> !Less(x, z)
    {
      LessIsTotal(x, x);
      LessIsTotal(x, y);
      LessIsTotal(y, z);
      LessIsTotal(x, z);
      if Less(x, y) && Less(y, z) { LessIsTransitive(x, y, z); }
      if Less(z, y) && Less(y, x) { LessIsTransitive(z, y, x); }
    }
  }

  lemma SortAscends(s: seq<string>)
    requires NoRepeats(s)
    ensures Ascending(SortBy(s, Less))
  {
    var r := SortBy(s, Less);
    LessOrders();
    SortBySorted(s, Less);
    NoRepeatsPermute(s, r);
    forall i, j | 0 <= i < j < |r| ensures Less(r[i], r[j]) { LessIsTotal(r[i], r[j]); }
  }

  /** A set has one ascending listing, so comparing listings compares sets. */
  lemma {:induction false} AscendingIsUnique(a: seq<string>, b: seq<string>)
    requires Ascending(a) && Ascending(b) && forall x :: x in a <==> x in b
    ensures a == b
  {
    forall s: seq<string> | Ascending(s) ensures NoRepeats(s) {
      forall i, j | 0 <= i < j < |s| ensures s[i] != s[j] { LessIsTotal(s[i], s[j]); }
    }
    SameMembersPermute(a, b);
    assert Sorted(a, Less) && Sorted(b, Less) by {
      forall s: seq<string> | Ascending(s) ensures Sorted(s, Less) {
        forall i, j | 0 <= i < j < |s| ensures !Less(s[j], s[i]) { LessIsTotal(s[i], s[j]); }
      }
    }
    forall x, y | x in a && y in a && x != y ensures Less(x, y) || Less(y, x) { LessIsTotal(x, y); }
    SortedIsUnique(a, b, Less);
  }

  method CollectIDs(lib: Lib, ids: seq<string>) returns (seen: set<string>)
    ensures seen == CertificateSet(lib, ids)
  {
    seen := {};
    for i := 0 to |ids|
      invariant seen == CertificateSet(lib, ids[..i])
    {
      var id := lib.lower(lib.trim(ids[i]));
      assert ids[..i + 1] == ids[..i] + [ids[i]];
      if id != "" {
        seen := seen + {id};
      }
    }
    assert ids[..|ids|] == ids;
  }

  method ListIDs(seen: set<string>) returns (out: seq<string>)
    ensures NoRepeats(out) && forall c :: c in out <==> c in seen
  {
    out := [];
    var left := seen;
    while left != {}
      invariant left <= seen && NoRepeats(out)
      invariant forall c :: c in out <==> c in seen && c !in left
      decreases |left|
    {
      var c :| c in left;
      TakeOff(seen, left, c);
      out := out + [c];
      left := left - {c};
    }
  }

  /** normalizeIDs: collect into a set, list it, sort it. */
  method NormalizeIDs(lib: Lib, ids: seq<string>) returns (out: seq<string>)
    ensures Lists(lib, ids, out)
  {
    var seen := CollectIDs(lib, ids);
    var listed := ListIDs(seen);
    SortAscends(listed);
    PermutationMembers(listed, SortBy(listed, Less));
    out := SortBy(listed, Less);
  }

  /** The ascending listing of the certificates the ids name. */
  ghost predicate Lists(lib: Lib, ids: seq<string>, out: seq<string>) {
    Ascending(out) && forall c :: c in out <==> c in CertificateSet(lib, ids)
  }

  // ---- The document ------------------------------------------------------------------------

  type Document = seq<Approval>

  predicate ByID(a: Approval, b: Approval) {
    Less(a.id, b.id)
  }

  ghost predicate UniqueIDs(doc: Document) {
    forall i, j :: 0 <= i < j < |doc| ==> doc[i].id != doc[j].id
  }

  /** Position of the approval with this id, |doc| if there is none. */
  function Find(doc: Document, id: string): (i: nat)
    ensures i <= |doc|
    ensures i < |doc| ==> doc[i].id == id
    ensures i == |doc| ==> forall a <- doc :: a.id != id
  {
    if doc == [] || doc[0].id == id then 0 else 1 + Find(doc[1..], id)
  }

  /** encode sorts by id; decoding gives the sorted document back. */
  function Stored(doc: Document): Document {
    SortBy(doc, ByID)
  }

  lemma StoredMembers(doc: Document)
    ensures forall a :: a in Stored(doc) <==> a in doc
    ensures UniqueIDs(doc) ==> UniqueIDs(Stored(doc))
  {
    var out := Stored(doc);
    PermutationMembers(doc, out);
    if UniqueIDs(doc) {
      assert NoRepeats(doc);
      NoRepeatsPermute(doc, out);
      forall i, j | 0 <= i < j < |out| ensures out[i].id != out[j].id {
        assert out[i] in doc && out[j] in doc && out[i] != out[j];
        var m :| 0 <= m < |doc| && doc[m] == out[i];
        var n :| 0 <= n < |doc| && doc[n] == out[j];
        assert m < n || n < m;
      }
    }
  }

  /** The approval stored under an id. */
  function Get(doc: Document, id: string): Option<Approval> {
    var i := Find(doc, id);
    if i < |doc| then Some(doc[i]) else None
  }

  lemma GetMember(doc: Document, id: string, a: Approval)
    requires UniqueIDs(doc)
    ensures Get(doc, id) == Some(a) <==> a in doc && a.id == id
  {
  }

  lemma GetStored(doc: Document, id: string)
    requires UniqueIDs(doc)
    ensures Get(Stored(doc), id) == Get(doc, id)
  {
    StoredMembers(doc);
    if a :| Get(doc, id) == Some(a) { GetMember(doc, id, a); GetMember(Stored(doc), id, a); }
    if a :| Get(Stored(doc), id) == Some(a) { GetMember(doc, id, a); GetMember(Stored(doc), id, a); }
  }

  // ---- The three calls -------------------------------------------------------------------------

  /** `saves` says whether the backend accepts the write, should the call come to one. */
  datatype Call =
    | Request(id: string, actor: string, certificates: seq<string>, ttl: int, now: int, saves: bool)
    | Approve(id: string, actor: string, now: int, saves: bool)
    | Consume(id: string, actor: string, certificates: seq<string>, now: int, saves: bool)

  function Lifetime(ttl: int): int {
    if ttl <= 0 then TEN_MINUTES else ttl
  }

  /** What Request stores. */
  ghost predicate RequestedBy(lib: Lib, call: Call, a: Approval)
    requires call.Request?
  {
    && Lists(lib, call.certificates, a.certificates)
    && a == Approval(lib.trim(call.id), lib.trim(call.actor), a.certificates, "", call.now,
                     call.now + Lifetime(call.ttl), None, None)
  }

  /** Why Approve refuses an approval it found. */
  function ApproveError(lib: Lib, a: Approval, actor: string, now: int): Option<Error> {
    if a.requester == lib.trim(actor) then Some(SelfApproval)
    else if a.approvedBy != "" then Some(AlreadyApproved)
    else if now >= a.expiresAt then Some(Expired)
    else if lib.trim(actor) == "" then Some(ApproverRequired)
    else None
  }

  function Approved(lib: Lib, a: Approval, actor: string, now: int): Approval {
    a.(approvedBy := lib.trim(actor), approvedAt := Some(now))
  }

  /** Why Consume refuses an approval it found, asked for the certificates listed. */
  function ConsumeError(lib: Lib, a: Approval, actor: string, listed: seq<string>, now: int): Option<Error> {
    if a.requester != lib.trim(actor) then Some(Unauthorised)
    else if a.certificates != listed then Some(Mismatch)
    else if now >= a.expiresAt then Some(Expired)
    else if a.consumedAt.Some? then Some(AlreadyConsumed)
    else if a.approvedBy == "" || a.approvedBy == a.requester then Some(SelfApproval)
    else None
  }

  /** A call that is not refused still fails when its write does. */
  function Settled(refusal: Option<Error>, saves: bool): Option<Error> {
    if refusal.Some? then refusal else if saves then None else Some(SaveFailed)
  }

  /** One call of a run: what it answered and the document it left. */
  ghost predicate Executes(lib: Lib, before: Document, call: Call, err: Option<Error>, after: Document) {
    var id := lib.trim(call.id);
    var i := Find(before, id);
    match call
    case Request(_, actor, certificates, ttl, now, saves) =>
      if id == "" || lib.trim(actor) == "" || CertificateSet(lib, certificates) == {} then
        err == Some(FieldsRequired) && after == before
      else if i < |before| then err == Some(AlreadyExists) && after == before
      else
        && err == Settled(None, saves)
        && if err.Some? then after == before
           else exists a :: RequestedBy(lib, call, a) && after == Stored(before + [a])
    case Approve(_, actor, now, saves) =>
      if i == |before| then err == Some(NotFound) && after == before
      else
        && err == Settled(ApproveError(lib, before[i], actor, now), saves)
        && after == if err.Some? then before else Stored(before[i := Approved(lib, before[i], actor, now)])
    case Consume(_, actor, certificates, now, saves) =>
      if i == |before| then err == Some(NotFound) && after == before
      else
        && (exists listed :: Lists(lib, certificates, listed)
              && err == Settled(ConsumeError(lib, before[i], actor, listed, now), saves))
        && after == if err.Some? then before else Stored(before[i := before[i].(consumedAt := Some(now))])
  }

  class Store {
    var doc: Document

    constructor ()
      ensures doc == []
    {
      doc := [];
    }

    method Request(lib: Lib, id: string, requester: string, certificates: seq<string>, ttl: int, now: int, saves: bool)
      returns (err: Option<Error>)
      modifies this
      ensures Executes(lib, old(doc), Call.Request(id, requester, certificates, ttl, now, saves), err, doc)
      ensures err.Some? ==> doc == old(doc)
    {
      var listed := NormalizeIDs(lib, certificates);
      var a := Approval(lib.trim(id), lib.trim(requester), listed, "", now, now + Lifetime(ttl), None, None);
      assert listed == [] <==> CertificateSet(lib, certificates) == {} by {
        if c :| c in CertificateSet(lib, certificates) { assert c in listed; }
        if listed != [] { assert listed[0] in listed; }
      }
      if a.id == "" || a.requester == "" || |listed| == 0 {
        return Some(FieldsRequired);
      }
      if Find(doc, a.id) < |doc| {
        return Some(AlreadyExists);
      }
      assert RequestedBy(lib, Call.Request(id, requester, certificates, ttl, now, saves), a);
      var current := doc + [a];
      err := Save(current, saves);
    }

    /** The end of update: encode what the call made of its decoded copy and hand it to the backend. */
    method Save(current: Document, saves: bool) returns (err: Option<Error>)
      modifies this
      ensures err == Settled(None, saves)
      ensures doc == if saves then Stored(current) else old(doc)
    {
      if !saves {
        return Some(SaveFailed);
      }
      doc := Stored(current);
      return None;
    }

    /** Works on a decoded copy: the write that precedes the approver check is lost with the copy. */
    method Approve(lib: Lib, id: string, actor: string, now: int, saves: bool) returns (err: Option<Error>)
      modifies this
      ensures Executes(lib, old(doc), Call.Approve(id, actor, now, saves), err, doc)
      ensures err.Some? ==> doc == old(doc)
    {
      var current := doc;
      var i := Find(current, lib.trim(id));
      if i == |current| { return Some(NotFound); }
      if current[i].requester == lib.trim(actor) { return Some(SelfApproval); }
      if current[i].approvedBy != "" { return Some(AlreadyApproved); }
      if now >= current[i].expiresAt { return Some(Expired); }
      current := current[i := current[i].(approvedBy := lib.trim(actor), approvedAt := Some(now))];
      if current[i].approvedBy == "" { return Some(ApproverRequired); }
      err := Save(current, saves);
    }

    method Consume(lib: Lib, id: string, requester: string, certificates: seq<string>, now: int, saves: bool)
      returns (err: Option<Error>)
      modifies this
      ensures Executes(lib, old(doc), Call.Consume(id, requester, certificates, now, saves), err, doc)
      ensures err.Some? ==> doc == old(doc)
    {
      var current := doc;
      var i := Find(current, lib.trim(id));
      if i == |current| { return Some(NotFound); }
      var listed := NormalizeIDs(lib, certificates);
      if current[i].requester != lib.trim(requester) { return Some(Unauthorised); }
      if current[i].certificates != listed { return Some(Mismatch); }
      if now >= current[i].expiresAt { return Some(Expired); }
      if current[i].consumedAt.Some? { return Some(AlreadyConsumed); }
      if current[i].approvedBy == "" || current[i].approvedBy == current[i].requester { return Some(SelfApproval); }
      current := current[i := current[i].(consumedAt := Some(now))];
      err := Save(current, saves);
    }
  }

  /** A call that returns an error leaves the document as it was. */
  lemma ErrorsChangeNothing(lib: Lib, before: Document, call: Call, err: Option<Error>, after: Document)
    requires Executes(lib, before, call, err, after) && err.Some?
    ensures after == before
  {
  }

  /** How a call moves the approval stored under one id. */
  ghost predicate Moves(lib: Lib, call: Call, err: Option<Error>, id: string, x: Option<Approval>, y: Option<Approval>) {
    if err.Some? || lib.trim(call.id) != id then y == x
    else match call
      case Request(_, _, _, _, _, _) => x == None && y.Some? && RequestedBy(lib, call, y.value)
      case Approve(_, actor, now, _) =>
        && x.Some? && ApproveError(lib, x.value, actor, now) == None
        && y == Some(Approved(lib, x.value, actor, now))
      case Consume(_, actor, certificates, now, _) =>
        && x.Some?
        && (exists listed :: Lists(lib, certificates, listed) && ConsumeError(lib, x.value, actor, listed, now) == None)
        && y == Some(x.value.(consumedAt := Some(now)))
  }

  lemma UpdateKeepsUnique(doc: Document, i: nat, a: Approval)
    requires UniqueIDs(doc) && i < |doc| && a.id == doc[i].id
    ensures UniqueIDs(doc[i := a])
  {
  }

  lemma GetUpdated(doc: Document, i: nat, a: Approval, id: string)
    requires UniqueIDs(doc) && i < |doc| && a.id == doc[i].id
    ensures Get(doc[i := a], id) == if id == a.id then Some(a) else Get(doc, id)
  {
    var out := doc[i := a];
    UpdateKeepsUnique(doc, i, a);
    if id == a.id {
      assert out[i] in out;
      GetMember(out, id, a);
    } else {
      var j, k := Find(doc, id), Find(out, id);
      if j < |doc| { assert out[j] == doc[j]; }
      if k < |out| { assert out[k] == doc[k]; }
    }
  }

  lemma GetAppended(doc: Document, a: Approval, id: string)
    requires UniqueIDs(doc) && Find(doc, a.id) == |doc|
    ensures UniqueIDs(doc + [a])
    ensures Get(doc + [a], id) == if id == a.id then Some(a) else Get(doc, id)
  {
    var out := doc + [a];
    forall i, j | 0 <= i < j < |out| ensures out[i].id != out[j].id {
      if j == |doc| { assert doc[i] in doc; }
    }
    if id == a.id {
      assert out[|doc|] in out;
      GetMember(out, id, a);
    } else {
      var j, k := Find(doc, id), Find(out, id);
      if j < |doc| { assert out[j] == doc[j]; }
      if k < |out| { assert k < |doc| && out[k] == doc[k]; }
    }
  }

  /** Ids stay unique, and the call moves each approval as Moves says. */
  lemma CallMoves(lib: Lib, before: Document, call: Call, err: Option<Error>, after: Document, id: string)
    requires UniqueIDs(before) && Executes(lib, before, call, err, after)
    ensures UniqueIDs(after)
    ensures Moves(lib, call, err, id, Get(before, id), Get(after, id))
  {
    var i := Find(before, lib.trim(call.id));
    if err.Some? {
      ErrorsChangeNothing(lib, before, call, err, after);
    } else {
      match call {
        case Request(_, _, _, _, _, _) =>
          var a :| RequestedBy(lib, call, a) && after == Stored(before + [a]);
          GetAppended(before, a, id);
          StoredMembers(before + [a]);
          GetStored(before + [a], id);
        case Approve(_, actor, now, _) =>
          var a := Approved(lib, before[i], actor, now);
          UpdateKeepsUnique(before, i, a);
          GetUpdated(before, i, a, id);
          StoredMembers(before[i := a]);
          GetStored(before[i := a], id);
        case Consume(_, _, _, now, _) =>
          var a := before[i].(consumedAt := Some(now));
          UpdateKeepsUnique(before, i, a);
          GetUpdated(before, i, a, id);
          StoredMembers(before[i := a]);
          GetStored(before[i := a], id);
      }
    }
  }

  // ---- Runs ----------------------------------------------------------------------------------

  /** docs[m] is the document before call m; errs[m] what call m answered. No clock order is assumed. */
  ghost predicate IsRun(lib: Lib, calls: seq<Call>, errs: seq<Option<Error>>, docs: seq<Document>) {
    && |errs| == |calls| && |docs| == |calls| + 1
    && docs[0] == []
    && forall m :: 0 <= m < |calls| ==> Executes(lib, docs[m], calls[m], errs[m], docs[m + 1])
  }

  lemma {:induction false} IDsStayUnique(lib: Lib, calls: seq<Call>, errs: seq<Option<Error>>, docs: seq<Document>, m: nat)
    requires IsRun(lib, calls, errs, docs) && m <= |calls|
    ensures UniqueIDs(docs[m])
  {
    if m > 0 {
      IDsStayUnique(lib, calls, errs, docs, m - 1);
      CallMoves(lib, docs[m - 1], calls[m - 1], errs[m - 1], docs[m], "");
    }
  }

  lemma RunMoves(lib: Lib, calls: seq<Call>, errs: seq<Option<Error>>, docs: seq<Document>, m: nat, id: string)
    requires IsRun(lib, calls, errs, docs) && m < |calls|
    ensures Moves(lib, calls[m], errs[m], id, Get(docs[m], id), Get(docs[m + 1], id))
  {
    IDsStayUnique(lib, calls, errs, docs, m);
    CallMoves(lib, docs[m], calls[m], errs[m], docs[m + 1], id);
  }

  /** Call m succeeded on this id. */
  ghost predicate Succeeded(lib: Lib, calls: seq<Call>, errs: seq<Option<Error>>, m: int, id: string) {
    0 <= m < |calls| && m < |errs| && errs[m].None? && lib.trim(calls[m].id) == id
  }

  /** A call either keeps what was asked for or is the Request that asks for it. */
  lemma ApprovalAppears(lib: Lib, call: Call, err: Option<Error>, id: string, x: Option<Approval>, y: Option<Approval>)
    requires Moves(lib, call, err, id, x, y) && y.Some?
    ensures x.Some? ==>
              && y.value.id == x.value.id && y.value.requester == x.value.requester
              && y.value.certificates == x.value.certificates && y.value.expiresAt == x.value.expiresAt
    ensures x.None? ==> err.None? && lib.trim(call.id) == id && call.Request? && RequestedBy(lib, call, y.value)
  {
  }

  lemma RunStartsEmpty(lib: Lib, calls: seq<Call>, errs: seq<Option<Error>>, docs: seq<Document>, id: string)
    requires IsRun(lib, calls, errs, docs)
    ensures Get(docs[0], id) == None
  {
  }

  /** A stored approval goes back to the request that created it, unchanged in id, requester,
      certificates and deadline. */
  lemma {:induction false} Requested(lib: Lib, calls: seq<Call>, errs: seq<Option<Error>>, docs: seq<Document>, m: nat, id: string)
    returns (r: nat)
    requires IsRun(lib, calls, errs, docs) && m <= |calls| && Get(docs[m], id).Some?
    ensures r < m && Succeeded(lib, calls, errs, r, id) && calls[r].Request?
    ensures var a := Get(docs[m], id).value;
            && a.id == id && a.requester == lib.trim(calls[r].actor)
            && Lists(lib, calls[r].certificates, a.certificates)
            && a.expiresAt == calls[r].now + Lifetime(calls[r].ttl)
  {
    RunStartsEmpty(lib, calls, errs, docs, id);
    hide Get, Executes, Moves;
    RunMoves(lib, calls, errs, docs, m - 1, id);
    ApprovalAppears(lib, calls[m - 1], errs[m - 1], id, Get(docs[m - 1], id), Get(docs[m], id));
    if Get(docs[m - 1], id).Some? {
      r := Requested(lib, calls, errs, docs, m - 1, id);
    } else {
      r := m - 1;
    }
  }

  ghost predicate HasApprover(x: Option<Approval>) {
    x.Some? && x.value.approvedBy != ""
  }

  /** A call either keeps the approver or is the Approve that sets it. */
  lemma ApproverAppears(lib: Lib, call: Call, err: Option<Error>, id: string, x: Option<Approval>, y: Option<Approval>)
    requires Moves(lib, call, err, id, x, y) && HasApprover(y)
    ensures HasApprover(x) ==>
              && y.value.approvedBy == x.value.approvedBy
              && y.value.requester == x.value.requester
              && y.value.expiresAt == x.value.expiresAt
    ensures !HasApprover(x) ==>
              && err.None? && lib.trim(call.id) == id && call.Approve? && x.Some?
              && y.value.approvedBy == lib.trim(call.actor) != y.value.requester
              && call.now < y.value.expiresAt
  {
  }

  /** An approver on record comes from a successful Approve after the request, by someone else. */
  lemma {:induction false} ApprovedEarlier(lib: Lib, calls: seq<Call>, errs: seq<Option<Error>>, docs: seq<Document>, m: nat, id: string)
    returns (p: nat)
    requires IsRun(lib, calls, errs, docs) && m <= |calls| && HasApprover(Get(docs[m], id))
    ensures p < m && Succeeded(lib, calls, errs, p, id) && calls[p].Approve? && Get(docs[p], id).Some?
    ensures var a := Get(docs[m], id).value;
            a.approvedBy == lib.trim(calls[p].actor) != a.requester && calls[p].now < a.expiresAt
  {
    RunStartsEmpty(lib, calls, errs, docs, id);
    hide Executes, Get, Moves;
    var n := m - 1;
    RunMoves(lib, calls, errs, docs, n, id);
    var x, y := Get(docs[n], id), Get(docs[m], id);
    ApproverAppears(lib, calls[n], errs[n], id, x, y);
    if HasApprover(x) {
      p := ApprovedEarlier(lib, calls, errs, docs, n, id);
    } else {
      p := n;
    }
  }

  /** Requested, then approved by a different non-empty actor, then consumed by the requester for the
      same certificates before the deadline. */
  ghost predicate DualControl(lib: Lib, calls: seq<Call>, errs: seq<Option<Error>>, r: nat, p: nat, c: nat, id: string) {
    && r < p < c < |calls| == |errs|
    && Succeeded(lib, calls, errs, r, id) && calls[r].Request?
    && Succeeded(lib, calls, errs, p, id) && calls[p].Approve?
    && Succeeded(lib, calls, errs, c, id) && calls[c].Consume?
    && lib.trim(calls[c].actor) == lib.trim(calls[r].actor)
    && lib.trim(calls[p].actor) != lib.trim(calls[r].actor) && lib.trim(calls[p].actor) != ""
    && CertificateSet(lib, calls[c].certificates) == CertificateSet(lib, calls[r].certificates)
    && calls[p].now < calls[r].now + Lifetime(calls[r].ttl)
    && calls[c].now < calls[r].now + Lifetime(calls[r].ttl)
  }

  lemma SameListing(lib: Lib, a: seq<string>, b: seq<string>, listed: seq<string>)
    requires Lists(lib, a, listed) && Lists(lib, b, listed)
    ensures CertificateSet(lib, a) == CertificateSet(lib, b)
  {
    forall c ensures c in CertificateSet(lib, a) <==> c in CertificateSet(lib, b) {}
  }

  /** Every export in every run went through dual control. */
  lemma ConsumeNeedsDualControl(lib: Lib, calls: seq<Call>, errs: seq<Option<Error>>, docs: seq<Document>, c: nat)
    returns (r: nat, p: nat)
    requires IsRun(lib, calls, errs, docs) && c < |calls| && calls[c].Consume? && errs[c].None?
    ensures DualControl(lib, calls, errs, r, p, c, lib.trim(calls[c].id))
  {
    hide Executes, Get;
    var id := lib.trim(calls[c].id);
    RunMoves(lib, calls, errs, docs, c, id);
    p := ApprovedEarlier(lib, calls, errs, docs, c, id);
    r := Requested(lib, calls, errs, docs, c, id);
    var r' := Requested(lib, calls, errs, docs, p, id);
    RequestedOnce(lib, calls, errs, docs, r', r, id);
    var listed :| Lists(lib, calls[c].certificates, listed) && listed == Get(docs[c], id).value.certificates;
    SameListing(lib, calls[c].certificates, calls[r].certificates, listed);
  }

  /** Once stored, an approval stays stored, and a consumed one stays consumed. */
  lemma {:induction false} StaysStored(lib: Lib, calls: seq<Call>, errs: seq<Option<Error>>, docs: seq<Document>, m: nat, n: nat, id: string)
    requires IsRun(lib, calls, errs, docs) && m <= n <= |calls| && Get(docs[m], id).Some?
    ensures Get(docs[n], id).Some?
    ensures Get(docs[m], id).value.consumedAt.Some? ==> Get(docs[n], id).value.consumedAt.Some?
    decreases n - m
  {
    hide Executes, Get;
    if m < n {
      StaysStored(lib, calls, errs, docs, m, n - 1, id);
      StoredNext(lib, calls, errs, docs, n - 1, id);
    }
  }

  lemma StoredNext(lib: Lib, calls: seq<Call>, errs: seq<Option<Error>>, docs: seq<Document>, m: nat, id: string)
    requires IsRun(lib, calls, errs, docs) && m < |calls| && Get(docs[m], id).Some?
    ensures Get(docs[m + 1], id).Some?
    ensures Get(docs[m], id).value.consumedAt.Some? ==> Get(docs[m + 1], id).value.consumedAt.Some?
  {
    hide Executes, Get, Moves;
    RunMoves(lib, calls, errs, docs, m, id);
    StoredStep(lib, calls[m], errs[m], id, Get(docs[m], id), Get(docs[m + 1], id));
  }

  lemma StoredStep(lib: Lib, call: Call, err: Option<Error>, id: string, x: Option<Approval>, y: Option<Approval>)
    requires Moves(lib, call, err, id, x, y) && x.Some?
    ensures y.Some? && (x.value.consumedAt.Some? ==> y.value.consumedAt.Some?)
  {
  }

  lemma RequestStores(lib: Lib, calls: seq<Call>, errs: seq<Option<Error>>, docs: seq<Document>, m: nat, id: string)
    requires IsRun(lib, calls, errs, docs) && Succeeded(lib, calls, errs, m, id) && calls[m].Request?
    ensures Get(docs[m], id).None? && Get(docs[m + 1], id).Some?
  {
    hide Executes, Get;
    RunMoves(lib, calls, errs, docs, m, id);
  }

  lemma ConsumeMarks(lib: Lib, calls: seq<Call>, errs: seq<Option<Error>>, docs: seq<Document>, m: nat, id: string)
    requires IsRun(lib, calls, errs, docs) && Succeeded(lib, calls, errs, m, id) && calls[m].Consume?
    ensures Get(docs[m], id).Some? && Get(docs[m], id).value.consumedAt.None?
    ensures Get(docs[m + 1], id).Some? && Get(docs[m + 1], id).value.consumedAt.Some?
  {
    hide Executes, Get;
    RunMoves(lib, calls, errs, docs, m, id);
  }

  lemma NotRequestedAgain(lib: Lib, calls: seq<Call>, errs: seq<Option<Error>>, docs: seq<Document>, m: nat, n: nat, id: string)
    requires IsRun(lib, calls, errs, docs) && m < n < |calls|
    requires Succeeded(lib, calls, errs, m, id) && calls[m].Request?
    ensures !(Succeeded(lib, calls, errs, n, id) && calls[n].Request?)
  {
    hide Executes, Get;
    RequestStores(lib, calls, errs, docs, m, id);
    StaysStored(lib, calls, errs, docs, m + 1, n, id);
    if Succeeded(lib, calls, errs, n, id) && calls[n].Request? { RequestStores(lib, calls, errs, docs, n, id); }
  }

  lemma NotConsumedAgain(lib: Lib, calls: seq<Call>, errs: seq<Option<Error>>, docs: seq<Document>, m: nat, n: nat, id: string)
    requires IsRun(lib, calls, errs, docs) && m < n < |calls|
    requires Succeeded(lib, calls, errs, m, id) && calls[m].Consume?
    ensures !(Succeeded(lib, calls, errs, n, id) && calls[n].Consume?)
  {
    hide Executes, Get;
    ConsumeMarks(lib, calls, errs, docs, m, id);
    StaysStored(lib, calls, errs, docs, m + 1, n, id);
    if Succeeded(lib, calls, errs, n, id) && calls[n].Consume? { ConsumeMarks(lib, calls, errs, docs, n, id); }
  }

  /** An id is requested successfully at most once. */
  lemma RequestedOnce(lib: Lib, calls: seq<Call>, errs: seq<Option<Error>>, docs: seq<Document>, m: nat, n: nat, id: string)
    requires IsRun(lib, calls, errs, docs)
    requires Succeeded(lib, calls, errs, m, id) && calls[m].Request?
    requires Succeeded(lib, calls, errs, n, id) && calls[n].Request?
    ensures m == n
  {
    if m < n { NotRequestedAgain(lib, calls, errs, docs, m, n, id); }
    if n < m { NotRequestedAgain(lib, calls, errs, docs, n, m, id); }
  }

  /** An approval is consumed at most once. */
  lemma ConsumedOnce(lib: Lib, calls: seq<Call>, errs: seq<Option<Error>>, docs: seq<Document>, m: nat, n: nat, id: string)
    requires IsRun(lib, calls, errs, docs)
    requires Succeeded(lib, calls, errs, m, id) && calls[m].Consume?
    requires Succeeded(lib, calls, errs, n, id) && calls[n].Consume?
    ensures m == n
  {
    if m < n { NotConsumedAgain(lib, calls, errs, docs, m, n, id); }
    if n < m { NotConsumedAgain(lib, calls, errs, docs, n, m, id); }
  }
}

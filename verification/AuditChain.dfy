/** The audit log's hash chain: newest event first, each carrying the hash of the one after it. */
module AuditChain {
  import opened Basics
  import opened Text

  /** `details` is the canonical JSON text of the details map. */
  datatype Event = Event(
    id: string,
    actorUserID: string,
    actorIP: string,
    action: string,
    resourceType: string,
    resourceID: string,
    siteID: string,
    relatedRevisionID: string,
    relatedJobID: string,
    status: string,
    occurredAt: string,
    summary: string,
    details: string,
    prevHash: string,
    hash: string)

  const SUCCEEDED := "succeeded"
  const FAILED := "failed"

  /** Everything but the hash itself goes into the hash. */
  function Payload(e: Event): Event {
    e.(hash := "")
  }

  /** The library functions the chain is built with: hex SHA-256 over the JSON payload, and
      strings.TrimSpace. Chain proofs need no more of them than Lawful says. */
  datatype Lib = Lib(digest: Event -> string, trim: string -> string)

  /** The digest is injective and its values carry no blanks; trimming twice is trimming once. */
  ghost predicate Lawful(lib: Lib) {
    && (forall a, b :: lib.digest(a) == lib.digest(b) ==> a == b)
    && (forall e :: lib.trim(lib.digest(e)) == lib.digest(e))
    && (forall s :: lib.trim(lib.trim(s)) == lib.trim(s))
  }

  /** The code's own trimming is as lawful as the proofs assume: only the digest is taken on trust. */
  lemma StandardIsLawful(lib: Lib)
    requires forall s :: lib.trim(s) == Trim(s)
    requires forall a, b :: lib.digest(a) == lib.digest(b) ==> a == b
    requires forall e :: Trimmed(lib.digest(e))
    ensures Lawful(lib)
  {
    forall s ensures lib.trim(lib.trim(s)) == lib.trim(s) {
      TrimIsTrimmed(s);
      TrimFixes(Trim(s));
    }
    forall e ensures lib.trim(lib.digest(e)) == lib.digest(e) { TrimFixes(lib.digest(e)); }
  }

  function ComputeHash(lib: Lib, e: Event): string {
    lib.digest(Payload(e))
  }

  function Normalize(lib: Lib, e: Event): Event {
    Event(lib.trim(e.id), lib.trim(e.actorUserID), lib.trim(e.actorIP), lib.trim(e.action), lib.trim(e.resourceType),
          lib.trim(e.resourceID), lib.trim(e.siteID), lib.trim(e.relatedRevisionID), lib.trim(e.relatedJobID),
          e.status, e.occurredAt, lib.trim(e.summary), e.details, lib.trim(e.prevHash), lib.trim(e.hash))
  }

  datatype Error = IDRequired | ActionRequired | ResourceTypeRequired | ResourceIDRequired
                 | StatusInvalid | OccurredAtRequired | SummaryRequired | SaveFailed

  function Validate(e: Event): Option<Error> {
    if e.id == "" then Some(IDRequired)
    else if e.action == "" then Some(ActionRequired)
    else if e.resourceType == "" then Some(ResourceTypeRequired)
    else if e.resourceID == "" then Some(ResourceIDRequired)
    else if e.status != SUCCEEDED && e.status != FAILED then Some(StatusInvalid)
    else if e.occurredAt == "" then Some(OccurredAtRequired)
    else if e.summary == "" then Some(SummaryRequired)
    else None
  }

  /** The event as it is stored on top of `chain`; on an empty chain the caller's PrevHash stays. */
  function Linked(lib: Lib, chain: seq<Event>, e: Event): Event {
    var l := if chain == [] then e else e.(prevHash := lib.trim(chain[0].hash));
    l.(hash := ComputeHash(lib, l))
  }

  ghost predicate Sealed(lib: Lib, e: Event) {
    ComputeHash(lib, e) == lib.trim(e.hash)
  }

  ghost predicate LinksTo(lib: Lib, newer: Event, older: Event) {
    lib.trim(newer.prevHash) == lib.trim(older.hash)
  }

  /** What SummarizeChain accepts. */
  ghost predicate ValidChain(lib: Lib, chain: seq<Event>) {
    && (forall i :: 0 <= i < |chain| ==> Sealed(lib, chain[i]))
    && (forall i :: 0 <= i < |chain| - 1 ==> LinksTo(lib, chain[i], chain[i + 1]))
  }

  datatype Summary = Summary(count: nat, headHash: string, tailHash: string, valid: bool)

  method SummarizeChain(lib: Lib, items: seq<Event>) returns (summary: Summary)
    ensures summary.valid <==> ValidChain(lib, items)
    ensures summary.count == |items|
    ensures items != [] ==> summary.headHash == lib.trim(items[0].hash)
    ensures items != [] ==> summary.tailHash == lib.trim(items[|items| - 1].hash)
  {
    summary := Summary(|items|, "", "", true);
    if items == [] {
      return;
    }
    summary := summary.(headHash := lib.trim(items[0].hash), tailHash := lib.trim(items[|items| - 1].hash));
    for i := 0 to |items|
      invariant forall j :: 0 <= j < i ==> Sealed(lib, items[j])
      invariant forall j :: 0 <= j < i && j + 1 < |items| ==> LinksTo(lib, items[j], items[j + 1])
    {
      if ComputeHash(lib, items[i]) != lib.trim(items[i].hash) {
        assert !Sealed(lib, items[i]);
        summary := summary.(valid := false);
        return;
      }
      if i + 1 < |items| && lib.trim(items[i].prevHash) != lib.trim(items[i + 1].hash) {
        assert !LinksTo(lib, items[i], items[i + 1]);
        summary := summary.(valid := false);
        return;
      }
    }
  }

  class Store {
    var events: seq<Event>

    constructor ()
      ensures events == []
    {
      events := [];
    }

    /** Append; `saves` says whether the backend accepts the write. */
    method Append(lib: Lib, event: Event, saves: bool) returns (err: Option<Error>)
      modifies this
      ensures Appends(lib, old(events), event, saves, err, events)
    {
      var e := Normalize(lib, event);
      ValidateMeans(lib, event);
      LinkedRecords(lib, events, event);
      err := Validate(e);
      if err.Some? {
        return;
      }
      if |events| > 0 {
        e := e.(prevHash := lib.trim(events[0].hash));
      }
      e := e.(hash := ComputeHash(lib, e));
      if !saves {
        return Some(SaveFailed);
      }
      events := [e] + events;
      return None;
    }
  }

  /** Why an event is refused: the first of these that applies. */
  ghost predicate Refused(lib: Lib, event: Event, error: Error) {
    match error
    case IDRequired => lib.trim(event.id) == ""
    case ActionRequired => lib.trim(event.id) != "" && lib.trim(event.action) == ""
    case ResourceTypeRequired => Named(lib, event) && lib.trim(event.resourceType) == ""
    case ResourceIDRequired => Named(lib, event) && lib.trim(event.resourceType) != "" && lib.trim(event.resourceID) == ""
    case StatusInvalid => Located(lib, event) && event.status !in ["succeeded", "failed"]
    case OccurredAtRequired => Located(lib, event) && event.status in ["succeeded", "failed"] && event.occurredAt == ""
    case SummaryRequired =>
      Located(lib, event) && event.status in ["succeeded", "failed"] && event.occurredAt != "" && lib.trim(event.summary) == ""
    case SaveFailed => false
  }

  predicate Named(lib: Lib, event: Event) {
    lib.trim(event.id) != "" && lib.trim(event.action) != ""
  }

  predicate Located(lib: Lib, event: Event) {
    Named(lib, event) && lib.trim(event.resourceType) != "" && lib.trim(event.resourceID) != ""
  }

  /** Everything that is required is there. */
  ghost predicate Complete(lib: Lib, event: Event) {
    && Located(lib, event) && event.status in ["succeeded", "failed"]
    && event.occurredAt != "" && lib.trim(event.summary) != ""
  }

  /** What is stored says what the caller said, blanks around it aside, names the hash of the event below it, and
      carries the hash of all that. */
  ghost predicate Records(lib: Lib, before: seq<Event>, event: Event, e: Event) {
    && e.id == lib.trim(event.id) && e.actorUserID == lib.trim(event.actorUserID) && e.actorIP == lib.trim(event.actorIP)
    && e.action == lib.trim(event.action) && e.resourceType == lib.trim(event.resourceType)
    && e.resourceID == lib.trim(event.resourceID) && e.siteID == lib.trim(event.siteID)
    && e.relatedRevisionID == lib.trim(event.relatedRevisionID) && e.relatedJobID == lib.trim(event.relatedJobID)
    && e.status == event.status && e.occurredAt == event.occurredAt && e.summary == lib.trim(event.summary)
    && e.details == event.details
    && e.prevHash == (if before == [] then lib.trim(event.prevHash) else lib.trim(before[0].hash))
    && e.hash == lib.digest(e.(hash := ""))
  }

  /** One call of Append: an error changes nothing, success puts one linked event on top. */
  ghost predicate Appends(lib: Lib, before: seq<Event>, event: Event, saves: bool,
                          err: Option<Error>, after: seq<Event>) {
    && (err.None? <==> Complete(lib, event) && saves)
    && (err == Some(SaveFailed) <==> Complete(lib, event) && !saves)
    && (err.Some? && err.value != SaveFailed ==> Refused(lib, event, err.value))
    && (err.Some? ==> after == before)
    && (err.None? ==> exists e :: Records(lib, before, event, e) && after == [e] + before)
  }

  lemma LinkedRecords(lib: Lib, before: seq<Event>, event: Event)
    ensures Records(lib, before, event, Linked(lib, before, Normalize(lib, event)))
  {
    var l := if before == [] then Normalize(lib, event) else Normalize(lib, event).(prevHash := lib.trim(before[0].hash));
    assert Payload(l) == Linked(lib, before, Normalize(lib, event)).(hash := "");
  }

  lemma ValidateMeans(lib: Lib, event: Event)
    ensures Validate(Normalize(lib, event)).None? <==> Complete(lib, event)
    ensures var err := Validate(Normalize(lib, event)); err.Some? ==> err.value != SaveFailed && Refused(lib, event, err.value)
  {
  }

  /** Append takes every chain SummarizeChain accepts to one it accepts. */
  lemma AppendKeepsChain(lib: Lib, before: seq<Event>, event: Event, saves: bool,
                         err: Option<Error>, after: seq<Event>)
    requires Lawful(lib) && ValidChain(lib, before)
    requires Appends(lib, before, event, saves, err, after)
    ensures ValidChain(lib, after)
  {
    if err.None? {
      var top :| Records(lib, before, event, top) && after == [top] + before;
      assert Payload(top) == top.(hash := "");
      assert Sealed(lib, top);
      if before != [] { assert LinksTo(lib, top, before[0]); }
      forall i | 0 <= i < |after| ensures Sealed(lib, after[i]) {
        if i > 0 { assert Sealed(lib, before[i - 1]); }
      }
      forall i | 0 <= i < |after| - 1 ensures LinksTo(lib, after[i], after[i + 1]) {
        if i > 0 { assert LinksTo(lib, before[i - 1], before[i]); }
      }
    }
  }

  /** Equal head hashes pin the whole common history: of two accepted chains with the same head, one
      is a prefix of the other on every hashed field. */
  lemma {:induction false} HeadPinsHistory(lib: Lib, a: seq<Event>, b: seq<Event>)
    requires Lawful(lib) && ValidChain(lib, a) && ValidChain(lib, b)
    requires a != [] && b != [] && lib.trim(a[0].hash) == lib.trim(b[0].hash)
    ensures forall i :: 0 <= i < |a| && i < |b| ==> Payload(a[i]) == Payload(b[i])
  {
    forall i | 0 <= i < |a| && i < |b| ensures Payload(a[i]) == Payload(b[i]) {
      HeadPins(lib, a, b, i);
    }
  }

  lemma {:induction false} HeadPins(lib: Lib, a: seq<Event>, b: seq<Event>, i: nat)
    requires Lawful(lib) && ValidChain(lib, a) && ValidChain(lib, b)
    requires i < |a| && i < |b| && lib.trim(a[0].hash) == lib.trim(b[0].hash)
    ensures Payload(a[i]) == Payload(b[i]) && lib.trim(a[i].hash) == lib.trim(b[i].hash)
  {
    if i > 0 {
      HeadPins(lib, a, b, i - 1);
      assert Payload(a[i - 1]).prevHash == Payload(b[i - 1]).prevHash;
      assert LinksTo(lib, a[i - 1], a[i]) && LinksTo(lib, b[i - 1], b[i]);
    }
    assert Sealed(lib, a[i]) && Sealed(lib, b[i]);
  }

  /** The head does not pin the length: cutting the oldest events off an accepted chain leaves an
      accepted chain with the same head. */
  lemma TruncationIsAccepted(lib: Lib, chain: seq<Event>, n: nat)
    requires ValidChain(lib, chain) && 0 < n <= |chain|
    ensures ValidChain(lib, chain[..n]) && chain[..n][0] == chain[0]
  {
    forall i | 0 <= i < n - 1 ensures LinksTo(lib, chain[..n][i], chain[..n][i + 1]) {
      assert LinksTo(lib, chain[i], chain[i + 1]);
    }
  }

  /** One Append call of a run. */
  datatype Call = Call(event: Event, saves: bool, err: Option<Error>)

  /** Chains after each call, from an empty store. */
  ghost predicate IsRun(lib: Lib, calls: seq<Call>, chains: seq<seq<Event>>) {
    && |chains| == |calls| + 1
    && chains[0] == []
    && forall m :: 0 <= m < |calls| ==>
         Appends(lib, chains[m], calls[m].event, calls[m].saves, calls[m].err, chains[m + 1])
  }

  lemma RunStarts(lib: Lib, calls: seq<Call>, chains: seq<seq<Event>>)
    requires IsRun(lib, calls, chains)
    ensures |chains| == |calls| + 1 && chains[0] == []
  {
  }

  lemma RunStep(lib: Lib, calls: seq<Call>, chains: seq<seq<Event>>, m: nat)
    requires IsRun(lib, calls, chains) && m < |calls|
    ensures |chains| == |calls| + 1
    ensures Appends(lib, chains[m], calls[m].event, calls[m].saves, calls[m].err, chains[m + 1])
  {
  }

  /** The newer chain ends in the older one. */
  predicate Extends(older: seq<Event>, newer: seq<Event>) {
    |older| <= |newer| && newer[|newer| - |older|..] == older
  }

  lemma AppendExtends(lib: Lib, before: seq<Event>, event: Event, saves: bool, err: Option<Error>, after: seq<Event>)
    requires Appends(lib, before, event, saves, err, after)
    ensures Extends(before, after)
  {
  }

  lemma ExtendsOn(a: seq<Event>, b: seq<Event>, c: seq<Event>)
    requires Extends(a, b) && Extends(b, c)
    ensures Extends(a, c)
  {
  }

  lemma ExtendsItself(a: seq<Event>)
    ensures Extends(a, a)
  {
  }

  /** In every run every stored chain is accepted, and history is only ever extended. */
  lemma {:induction false} RunsStayValid(lib: Lib, calls: seq<Call>, chains: seq<seq<Event>>, m: nat, n: nat)
    requires Lawful(lib) && IsRun(lib, calls, chains) && m <= n <= |calls|
    ensures ValidChain(lib, chains[n])
    ensures Extends(chains[m], chains[n])
    decreases n
  {
    hide IsRun, Appends, Lawful, Extends;
    RunStarts(lib, calls, chains);
    ExtendsItself(chains[n]);
    if n > 0 {
      hide ValidChain;
      RunsStayValid(lib, calls, chains, Min(m, n - 1), n - 1);
      RunStep(lib, calls, chains, n - 1);
      AppendKeepsChain(lib, chains[n - 1], calls[n - 1].event, calls[n - 1].saves, calls[n - 1].err, chains[n]);
      AppendExtends(lib, chains[n - 1], calls[n - 1].event, calls[n - 1].saves, calls[n - 1].err, chains[n]);
      if m < n { ExtendsOn(chains[m], chains[n - 1], chains[n]); }
    }
  }
}

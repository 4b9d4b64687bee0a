/**
 * Create-then-upload of a state version with a compensating delete (go-terrapod/state_versions.go), against the
 * server's three handlers (services/terrapod/api/routers/tfe_v2.py and state_management.py).
 */
module StateUpload {
  import opened Network
  import opened Text
  import RC = RetryClient

  /** A row of the state-version table; `content` is the object in storage, and `size` the column the upload sets. */
  datatype Version = Version(workspace: nat, serial: int, lineage: string, md5: string, size: nat,
                             content: Option<Bytes>)

  type Records = map<nat, Version>

  datatype Request = Request(workspace: nat, serial: int, lineage: string, md5: string, force: bool)

  /** What the server and its library supply: MD5, and the cap on a state's size. */
  datatype Context = Context(md5: Bytes -> string, maxBytes: nat)

  // ── The handlers ────────────────────────────────────────────────────────────

  predicate Taken(s: Records, workspace: nat, serial: int) {
    exists id :: id in s && s[id].workspace == workspace && s[id].serial == serial
  }

  predicate Refused(s: Records, req: Request) {
    !req.force && Taken(s, req.workspace, req.serial)
  }

  function Placeholder(req: Request): Version {
    Version(req.workspace, req.serial, req.lineage, req.md5, 0, None)
  }

  /** POST: `id` is the identifier the server would draw for the row. */
  function Create(req: Request, id: nat): Handler<Records> {
    Handler((s: Records) => if Refused(s, req) then s else s[id := Placeholder(req)],
            (s: Records) => if Refused(s, req) then 409 else 201)
  }

  function UploadStatus(c: Context, id: nat, raw: Bytes, s: Records): int {
    if id !in s then 404
    else if |raw| > c.maxBytes then 413
    else if raw == [] then 422
    else if s[id].md5 != "" && s[id].md5 != c.md5(raw) then 422
    else 200
  }

  function WithContent(c: Context, v: Version, raw: Bytes): Version {
    v.(size := |raw|, md5 := c.md5(raw), content := Some(raw))
  }

  /** PUT of the content. */
  function Upload(c: Context, id: nat, raw: Bytes): Handler<Records> {
    Handler((s: Records) => if UploadStatus(c, id, raw, s) != 200 then s else s[id := WithContent(c, s[id], raw)],
            (s: Records) => UploadStatus(c, id, raw, s))
  }

  /** The current version of its workspace, with content: the server refuses to delete it. */
  predicate Protected(s: Records, id: nat) {
    && id in s && s[id].size > 0
    && forall i :: i in s && s[i].workspace == s[id].workspace ==> s[i].serial <= s[id].serial
  }

  /** DELETE. */
  function Remove(id: nat): Handler<Records> {
    Handler((s: Records) => if Protected(s, id) then s else s - {id},
            (s: Records) => if id !in s then 404 else if Protected(s, id) then 409 else 204)
  }

  lemma UploadIsIdempotent(c: Context, id: nat, raw: Bytes)
    ensures Idempotent(Upload(c, id, raw))
  {
    forall s: Records ensures Upload(c, id, raw).effect(Upload(c, id, raw).effect(s)) == Upload(c, id, raw).effect(s) {
      if UploadStatus(c, id, raw, s) == 200 {
        var once := s[id := WithContent(c, s[id], raw)];
        assert WithContent(c, once[id], raw) == once[id];
        assert once[id := once[id]] == once;
      }
    }
  }

  lemma RemoveIsIdempotent(id: nat)
    ensures Idempotent(Remove(id))
  {
    forall s: Records ensures Remove(id).effect(Remove(id).effect(s)) == Remove(id).effect(s) {
      assert s - {id} - {id} == s - {id};
    }
  }

  // ── The client ──────────────────────────────────────────────────────────────

  /** What the network does to each of the three calls, and when their contexts end a backoff. */
  datatype Schedule = Schedule(maxRetries: nat, parses: bool,
                               post: nat -> RC.Attempt, put: nat -> RC.Attempt, del: nat -> RC.Attempt,
                               cancelled: nat -> bool, expired: nat -> bool)

  /** Faults never answer with a success status. */
  ghost predicate Honest(n: Schedule) {
    RC.Honest(n.post, RC.Success) && RC.Honest(n.put, RC.Success) && RC.Honest(n.del, RC.Success)
  }

  datatype Result =
    | Uploaded(id: nat)
    | CreateFailed
    | UploadFailed(id: nat)
    | CleanupFailed(id: nat)
    | Died

  function Filled(c: Context, req: Request, raw: Bytes): Request {
    if req.md5 == "" then req.(md5 := c.md5(raw)) else req
  }

  function Posted(n: Schedule, req: Request, id: nat, s: Records): RC.Exchange<Records> {
    RC.Call(n.maxRetries, RC.IsIdempotent("POST"), n.post, n.cancelled, Create(req, id), s)
  }

  function Put(n: Schedule, c: Context, id: nat, raw: Bytes, s: Records): RC.Exchange<Records> {
    RC.Call(n.maxRetries, RC.IsIdempotent("PUT"), n.put, n.cancelled, Upload(c, id, raw), s)
  }

  function Deleted(n: Schedule, id: nat, s: Records): RC.Exchange<Records> {
    RC.Call(n.maxRetries, RC.IsIdempotent("DELETE"), n.del, n.expired, Remove(id), s)
  }

  /** The upload and, if it fails, the compensating delete. */
  function UploadOrUndo(n: Schedule, c: Context, raw: Bytes, id: nat, s: Records): (Records, Result) {
    var x := Put(n, c, id, raw, s);
    if x.outcome.Dead? then (x.server, Died)
    else if RC.ResultOf(x.outcome) == RC.Nil then (x.server, Uploaded(id))
    else
      var y := Deleted(n, id, x.server);
      if y.outcome.Dead? then (y.server, Died)
      else if RC.ResultOf(y.outcome) != RC.Nil then (y.server, CleanupFailed(id))
      else (y.server, UploadFailed(id))
  }

  /** The whole flow; `id` is the identifier the server draws if it creates the row. */
  function CreateAndUpload(n: Schedule, c: Context, req: Request, raw: Bytes, id: nat, s: Records): (Records, Result) {
    var x := Posted(n, Filled(c, req, raw), id, s);
    if x.outcome.Dead? then (x.server, Died)
    else if RC.ResultOf(x.outcome) != RC.Nil || !n.parses then (x.server, CreateFailed)
    else UploadOrUndo(n, c, raw, id, x.server)
  }

  class Server {
    var records: Records

    constructor (records: Records)
      ensures this.records == records
    {
      this.records := records;
    }

    method CreateAndUploadState(n: Schedule, c: Context, req: Request, raw: Bytes, id: nat) returns (r: Result)
      modifies this
      ensures (records, r) == CreateAndUpload(n, c, req, raw, id, old(records))
    {
      var req := if req.md5 == "" then req.(md5 := c.md5(raw)) else req;
      var x := RC.Do(n.maxRetries, "POST", n.post, n.cancelled, Create(req, id), records);
      records := x.server;
      if x.outcome.Dead? { return Died; }
      if RC.ResultOf(x.outcome) != RC.Nil || !n.parses { return CreateFailed; }
      r := UploadOrCleanUp(n, c, raw, id);
    }

    /** The second half of `CreateAndUploadState`. */
    method UploadOrCleanUp(n: Schedule, c: Context, raw: Bytes, id: nat) returns (r: Result)
      modifies this
      ensures (records, r) == UploadOrUndo(n, c, raw, id, old(records))
    {
      var x := RC.Do(n.maxRetries, "PUT", n.put, n.cancelled, Upload(c, id, raw), records);
      records := x.server;
      if x.outcome.Dead? { return Died; }
      if RC.ResultOf(x.outcome) == RC.Nil { return Uploaded(id); }

      x := RC.Do(n.maxRetries, "DELETE", n.del, n.expired, Remove(id), records);
      records := x.server;
      if x.outcome.Dead? { return Died; }
      if RC.ResultOf(x.outcome) != RC.Nil { return CleanupFailed(id); }
      return UploadFailed(id);
    }
  }

  lemma PostIsOneAttempt(n: Schedule, req: Request, id: nat, s: Records)
    ensures var x := Posted(n, req, id, s);
            && x.server == RC.After(n.post(0), Create(req, id), s)
            && x.outcome == RC.FinalOutcome(n.post(0), Create(req, id), s)
  {
    RC.MethodClasses("POST");
    assert RC.StateBefore(n.post, Create(req, id), s, 1) == RC.After(n.post(0), Create(req, id), s);
  }

  /** POST is never replayed: the row is created at most once, and a success status means it was. */
  lemma Creating(n: Schedule, req: Request, id: nat, s: Records)
    requires RC.Honest(n.post, RC.Success)
    ensures var x := Posted(n, req, id, s);
            && (x.server == s || x.server == Create(req, id).effect(s))
            && (RC.ResultOf(x.outcome) == RC.Nil ==> !Refused(s, req) && x.server == s[id := Placeholder(req)])
  {
    PostIsOneAttempt(n, req, id, s);
  }

  lemma Uploading(n: Schedule, c: Context, req: Request, id: nat, raw: Bytes, s: Records)
    requires RC.Honest(n.put, RC.Success) && id in s && s[id] == Placeholder(req)
    ensures var x := Put(n, c, id, raw, s);
            && (x.server == s
                || (x.server == s[id := WithContent(c, s[id], raw)] && UploadStatus(c, id, raw, s) == 200))
            && (RC.ResultOf(x.outcome) == RC.Nil ==>
                  x.server == s[id := WithContent(c, s[id], raw)] && UploadStatus(c, id, raw, s) == 200)
  {
    RC.MethodClasses("PUT");
    UploadIsIdempotent(c, id, raw);
    RC.DoneByHandler(n.maxRetries, n.put, n.cancelled, Upload(c, id, raw), s);
  }

  lemma Removing(n: Schedule, id: nat, s: Records)
    requires RC.Honest(n.del, RC.Success)
    ensures var x := Deleted(n, id, s);
            && (x.server == s || (x.server == s - {id} && !Protected(s, id)))
            && (RC.ResultOf(x.outcome) == RC.Nil ==> x.server == s - {id} && !Protected(s, id))
  {
    RC.MethodClasses("DELETE");
    RemoveIsIdempotent(id);
    RC.DoneByHandler(n.maxRetries, n.del, n.expired, Remove(id), s);
  }

  /** The row the upload would leave. */
  function Complete(c: Context, req: Request, raw: Bytes): Version {
    WithContent(c, Placeholder(Filled(c, req, raw)), raw)
  }

  lemma UploadOrUndoOutcome(n: Schedule, c: Context, req: Request, raw: Bytes, id: nat, s0: Records)
    requires Honest(n) && id !in s0
    ensures var s := s0[id := Placeholder(req)];
            var (s', r) := UploadOrUndo(n, c, raw, id, s);
            var done := s0[id := WithContent(c, Placeholder(req), raw)];
            && !r.CreateFailed?
            && (r.Uploaded? ==> s' == done && UploadStatus(c, id, raw, s) == 200)
            && (r.UploadFailed? ==> s' == s0)
            && (r.CleanupFailed? || r.Died? ==> s' == s0 || s' == s || s' == done)
            && (s' == s0 || s' == s || UploadStatus(c, id, raw, s) == 200)
  {
    var s := s0[id := Placeholder(req)];
    var x := Put(n, c, id, raw, s);
    Uploading(n, c, req, id, raw, s);
    assert s[id := WithContent(c, s[id], raw)] == s0[id := WithContent(c, Placeholder(req), raw)];
    assert x.server - {id} == s0;
    Removing(n, id, x.server);
  }

  /**
   * What each result means for the server, whatever the network did: success is a complete record, a plain upload error
   * is the table as before the call, and a record can be left behind only by an error that says so, by the create
   * step's own failure, or by the process dying.
   */
  lemma NoSilentOrphan(n: Schedule, c: Context, req: Request, raw: Bytes, id: nat, s: Records)
    requires Honest(n) && id !in s
    ensures var (s', r) := CreateAndUpload(n, c, req, raw, id, s);
            var placeholder := s[id := Placeholder(Filled(c, req, raw))];
            var complete := s[id := Complete(c, req, raw)];
            && complete[id] == Version(req.workspace, req.serial, req.lineage, c.md5(raw), |raw|, Some(raw))
            && (r.Uploaded? ==> s' == complete)
            && (r.UploadFailed? ==> s' == s)
            && (s' != s ==> s' == placeholder || s' == complete)
            && (s' == placeholder ==> r.CleanupFailed? || r.CreateFailed? || r.Died?)
  {
    var req' := Filled(c, req, raw);
    Creating(n, req', id, s);
    UploadOrUndoOutcome(n, c, req', raw, id, s);
    assert id !in s && id in s[id := Placeholder(req')];
    assert Placeholder(req') != WithContent(c, Placeholder(req'), raw);
    assert s[id := Placeholder(req')][id] != s[id := Complete(c, req, raw)][id];
  }

  /** Only bytes that match the declared digest and the server's size rules are ever uploaded. */
  lemma UploadedMeansAccepted(n: Schedule, c: Context, req: Request, raw: Bytes, id: nat, s: Records)
    requires Honest(n) && id !in s && CreateAndUpload(n, c, req, raw, id, s).1.Uploaded?
    ensures 0 < |raw| <= c.maxBytes && (req.md5 == "" || req.md5 == c.md5(raw)) && !Refused(s, req)
  {
    var req' := Filled(c, req, raw);
    Creating(n, req', id, s);
    UploadOrUndoOutcome(n, c, req', raw, id, s);
  }

  /** A serial that is taken is refused, unless forced, and nothing changes. */
  lemma TakenSerialIsRefused(n: Schedule, c: Context, req: Request, raw: Bytes, id: nat, s: Records)
    requires Honest(n) && Refused(s, req)
    ensures var (s', r) := CreateAndUpload(n, c, req, raw, id, s); s' == s && (r.CreateFailed? || r.Died?)
  {
    Creating(n, Filled(c, req, raw), id, s);
  }

  /** After a plain upload error a retry meets the serial just as the first call did; a left-behind record blocks it. */
  lemma RetryCollidesOnlyWithLeftovers(n: Schedule, c: Context, req: Request, raw: Bytes, id: nat, s: Records)
    requires Honest(n) && id !in s && !Refused(s, req) && !req.force
    ensures var (s', r) := CreateAndUpload(n, c, req, raw, id, s);
            && (Refused(s', req) <==> s' != s)
            && (r.UploadFailed? ==> !Refused(s', req))
  {
    NoSilentOrphan(n, c, req, raw, id, s);
    var s' := CreateAndUpload(n, c, req, raw, id, s).0;
    if s' != s { assert id in s' && s'[id].workspace == req.workspace && s'[id].serial == req.serial; }
  }

  /**
   * An upload that was applied although its answer was lost cannot be undone when its record is current: the delete is
   * refused, and the call reports a failed cleanup of a record that is complete.
   */
  lemma AppliedUploadIsKept(n: Schedule, c: Context, req: Request, raw: Bytes, id: nat, s: Records)
    requires Honest(n) && id in s && s[id] == Placeholder(req)
    requires Put(n, c, id, raw, s).server != s && RC.ResultOf(Put(n, c, id, raw, s).outcome) != RC.Nil
    requires forall i :: i in s && s[i].workspace == req.workspace ==> s[i].serial <= req.serial
    ensures var (s', r) := UploadOrUndo(n, c, raw, id, s);
            s' == s[id := WithContent(c, s[id], raw)] && (r == CleanupFailed(id) || r == Died)
  {
    Uploading(n, c, req, id, raw, s);
    var s1 := Put(n, c, id, raw, s).server;
    assert s1 == s[id := WithContent(c, s[id], raw)];
    assert Protected(s1, id);
    Removing(n, id, s1);
  }

  // ── A network without faults ────────────────────────────────────────────────

  /** Every first attempt arrives and is answered by its handler. */
  predicate Clear(n: Schedule) {
    && n.parses && n.post(0) == RC.Sent(Normal, RC.Arrives) && n.put(0) == RC.Sent(Normal, RC.Arrives)
    && n.del(0) == RC.Sent(Normal, RC.Arrives)
  }

  /** POST answers 201, or a Conflict for a serial that is taken and not forced. */
  lemma CreateAnswers(n: Schedule, req: Request, id: nat, s: Records)
    requires Clear(n)
    ensures var taken := exists i :: i in s && s[i].workspace == req.workspace && s[i].serial == req.serial;
            Posted(n, req, id, s).outcome == RC.Response(if taken && !req.force then 409 else 201)
  {
    PostIsOneAttempt(n, req, id, s);
  }

  /** PUT answers 200, 404 without a row, 413 over the cap, 422 for content that is empty or does not match. */
  lemma UploadAnswers(n: Schedule, c: Context, raw: Bytes, id: nat, s: Records)
    requires Clear(n)
    ensures Put(n, c, id, raw, s).outcome
            == RC.Response(if id !in s then 404
                           else if |raw| > c.maxBytes then 413
                           else if |raw| == 0 || (s[id].md5 != "" && s[id].md5 != c.md5(raw)) then 422
                           else 200)
  {
    FirstAnswer(n.maxRetries, "PUT", n.put, n.cancelled, Upload(c, id, raw), s);
  }

  /** DELETE answers 204, 404 without a row, 409 for the workspace's latest version with content. */
  lemma RemoveAnswers(n: Schedule, id: nat, s: Records)
    requires Clear(n)
    ensures Deleted(n, id, s).outcome
            == RC.Response(if id !in s then 404
                           else if s[id].size > 0 && (forall i :: i in s && s[i].workspace == s[id].workspace ==>
                                                        s[i].serial <= s[id].serial) then 409
                           else 204)
  {
    FirstAnswer(n.maxRetries, "DELETE", n.del, n.expired, Remove(id), s);
  }

  lemma FirstAnswer(maxRetries: nat, method_: string, net: nat -> RC.Attempt, cancelled: nat -> bool,
                    h: Handler<Records>, s: Records)
    requires net(0) == RC.Sent(Normal, RC.Arrives) && h.status(s) != 429 && h.status(s) < 500
    ensures var x := RC.Call(maxRetries, RC.IsIdempotent(method_), net, cancelled, h, s);
            x.outcome == RC.Response(h.status(s)) && x.server == h.effect(s)
  {
    var d := RC.DeliveredBy(net);
    assert StateBefore(d, h, s, 0) == s && d(0) == Some(Normal);
    assert StateBefore(d, h, s, 1) == h.effect(s);
    assert RC.StateBefore(net, h, s, 1) == h.effect(s);
  }

  predicate Acceptable(c: Context, req: Request, raw: Bytes) {
    0 < |raw| <= c.maxBytes && (req.md5 == "" || req.md5 == c.md5(raw))
  }

  lemma ClearUpload(n: Schedule, c: Context, req: Request, raw: Bytes, id: nat, s: Records)
    requires Clear(n) && id !in s
    ensures UploadOrUndo(n, c, raw, id, s[id := Version(req.workspace, req.serial, req.lineage, req.md5, 0, None)])
            == if Acceptable(c, req, raw) then
                 (s[id := Version(req.workspace, req.serial, req.lineage, c.md5(raw), |raw|, Some(raw))], Uploaded(id))
               else (s, UploadFailed(id))
  {
    var s1 := s[id := Version(req.workspace, req.serial, req.lineage, req.md5, 0, None)];
    FirstAnswer(n.maxRetries, "PUT", n.put, n.cancelled, Upload(c, id, raw), s1);
    if Acceptable(c, req, raw) {
      assert WithContent(c, s1[id], raw)
          == Version(req.workspace, req.serial, req.lineage, c.md5(raw), |raw|, Some(raw));
      assert s1[id := WithContent(c, s1[id], raw)] == s[id := WithContent(c, s1[id], raw)];
    } else {
      FirstAnswer(n.maxRetries, "DELETE", n.del, n.expired, Remove(id), s1);
      assert s1 - {id} == s;
    }
  }

  /**
   * Without faults the flow has three results: a taken serial is refused; content that the server accepts is stored,
   * in a record with its digest and size; any other is refused, and the record created for it is gone again.
   */
  lemma ClearNetworkExactly(n: Schedule, c: Context, req: Request, raw: Bytes, id: nat, s: Records)
    requires Clear(n) && id !in s
    ensures var taken := exists i :: i in s && s[i].workspace == req.workspace && s[i].serial == req.serial;
            CreateAndUpload(n, c, req, raw, id, s)
            == if taken && !req.force then (s, CreateFailed)
               else if Acceptable(c, req, raw) then
                 (s[id := Version(req.workspace, req.serial, req.lineage, c.md5(raw), |raw|, Some(raw))], Uploaded(id))
               else (s, UploadFailed(id))
  {
    var req' := Filled(c, req, raw);
    PostIsOneAttempt(n, req', id, s);
    ClearUpload(n, c, req', raw, id, s);
  }

  // ── What a failure leaves behind, exactly ───────────────────────────────────

  /**
   * "Create failed" leaves a row, of which the error says nothing, if and only if the one attempt was applied and the
   * serial was free: its answer was lost, unreadable or unparsable, or a fault answered after the commit.
   */
  lemma FailedCreateLeavesRowExactly(n: Schedule, c: Context, req: Request, raw: Bytes, id: nat, s: Records)
    requires id !in s
    ensures var (s', r) := CreateAndUpload(n, c, req, raw, id, s);
            r.CreateFailed? ==>
              && (s' != s <==> n.post(0).Sent? && Applies(n.post(0).handling) && !Refused(s, req))
              && (id in s' <==> s' != s)
  {
    PostIsOneAttempt(n, Filled(c, req, raw), id, s);
  }

  /** A DELETE that was applied at all removed the row, unless the row is protected; nothing else removes it. */
  lemma RemovedExactly(n: Schedule, id: nat, s: Records)
    requires id in s
    ensures var y := Deleted(n, id, s); id in y.server <==> Protected(s, id) || y.applied == 0
  {
    RC.MethodClasses("DELETE");
    RemoveIsIdempotent(id);
    RC.CallBudget(n.maxRetries, true, n.del, n.expired, Remove(id), s, 0);
    ReplayIsOnce(RC.DeliveredBy(n.del), Remove(id), s, Deleted(n, id, s).sends);
  }

  /**
   * "The cleanup failed too" is true of the row if and only if no attempt of the delete was applied or the upload made
   * the row the protected current version; otherwise the row is gone and the report is a false alarm.
   */
  lemma FailedCleanupIsTrueExactly(n: Schedule, c: Context, req: Request, raw: Bytes, id: nat, s: Records)
    requires Honest(n) && id !in s
    ensures var s1 := s[id := Placeholder(Filled(c, req, raw))];
            var x := Put(n, c, id, raw, s1);
            var y := Deleted(n, id, x.server);
            var (s', r) := CreateAndUpload(n, c, req, raw, id, s);
            r.CleanupFailed? ==> (id in s' <==> Protected(x.server, id) || y.applied == 0) && (id !in s' <==> s' == s)
  {
    var req' := Filled(c, req, raw);
    var s1 := s[id := Placeholder(req')];
    Creating(n, req', id, s);
    UploadOrUndoOutcome(n, c, req', raw, id, s);
    Uploading(n, c, req', id, raw, s1);
    RemovedExactly(n, id, Put(n, c, id, raw, s1).server);
  }

  /**
   * The false alarm, as an input of the whole call: the upload is refused by a proxy, the delete is applied and
   * answered 502, and its replay is answered 404.
   */
  lemma GoneYetReported(n: Schedule, c: Context, req: Request, raw: Bytes, id: nat, s: Records)
    requires id !in s && !Refused(s, req) && n.maxRetries >= 1 && !n.expired(1) && n.parses
    requires n.post(0) == RC.Sent(Normal, RC.Arrives) && n.put(0) == RC.Sent(Fault(403, false), RC.Arrives)
    requires n.del(0) == RC.Sent(Fault(502, true), RC.Arrives) && n.del(1) == RC.Sent(Normal, RC.Arrives)
    ensures CreateAndUpload(n, c, req, raw, id, s) == (s, CleanupFailed(id))
  {
    var req' := Filled(c, req, raw);
    var s1 := s[id := Placeholder(req')];
    PostIsOneAttempt(n, req', id, s);
    RC.MethodClasses("PUT");
    assert RC.StateBefore(n.put, Upload(c, id, raw), s1, 1) == RC.After(n.put(0), Upload(c, id, raw), s1);
    assert Put(n, c, id, raw, s1).server == s1;
    RemovedThenMissing(n, id, s1);
    assert s1 - {id} == s;
  }

  lemma RemovedThenMissing(n: Schedule, id: nat, s: Records)
    requires id in s && !Protected(s, id) && n.maxRetries >= 1 && !n.expired(1)
    requires n.del(0) == RC.Sent(Fault(502, true), RC.Arrives) && n.del(1) == RC.Sent(Normal, RC.Arrives)
    ensures var y := Deleted(n, id, s); y.server == s - {id} && y.outcome == RC.Response(404)
  {
    RC.MethodClasses("DELETE");
    var h := Remove(id);
    assert RC.StateBefore(n.del, h, s, 1) == RC.After(n.del(0), h, s) == s - {id};
    assert RC.StateBefore(n.del, h, s, 2) == RC.After(n.del(1), h, s - {id});
    assert s - {id} - {id} == s - {id};
    assert Deleted(n, id, s) == RC.ExchangeFrom(n.maxRetries, true, n.del, n.expired, h, s, 1);
  }

  /** The silent row, as an input of the whole call: the create step is applied and its answer lost. */
  lemma LostCreateIsSilent(n: Schedule, c: Context, req: Request, raw: Bytes, id: nat, s: Records, e: RC.TransportError)
    requires !Refused(s, req) && n.post(0) == RC.Sent(Normal, RC.Lost(e))
    ensures CreateAndUpload(n, c, req, raw, id, s) == (s[id := Placeholder(Filled(c, req, raw))], CreateFailed)
  {
    PostIsOneAttempt(n, Filled(c, req, raw), id, s);
  }
}

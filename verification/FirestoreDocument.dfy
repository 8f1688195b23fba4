/**
 The Firestore document connector, against a server that enforces its two
 preconditions: create only what is absent, delete only the version named.
 Other writers act at any moment, and any response may be lost.
 */
module FirestoreDocument {
  import opened Prelude
  import opened ExceptionContract

  // ---------------------------------------------------------------------
  // The server
  // ---------------------------------------------------------------------

  /** A document; `updateTime` is the position of the change that wrote it, so no two writes share one. */
  datatype Document = Document(updateTime: nat, fields: FieldMap)

  datatype Author =
    | OtherWriter
    | CreatedUnder(idempotencyKey: string)
    | DeletedNaming(revision: nat)

  datatype Change = Change(targetId: string, author: Author, before: Option<Document>, after: Option<Document>)

  datatype Server = Server(docs: map<string, Document>, log: seq<Change>)

  function DocumentAt(s: Server, targetId: string): Option<Document> {
    if targetId in s.docs then Some(s.docs[targetId]) else None
  }

  function Written(s: Server, targetId: string, author: Author, fields: FieldMap): Server {
    var document := Document(|s.log|, fields);
    Server(s.docs[targetId := document],
           s.log + [Change(targetId, author, DocumentAt(s, targetId), Some(document))])
  }

  function Removed(s: Server, targetId: string, author: Author): Server {
    if targetId !in s.docs then s
    else Server(s.docs - {targetId}, s.log + [Change(targetId, author, DocumentAt(s, targetId), None)])
  }

  datatype OtherMove = OtherWrite(targetId: string, fields: FieldMap) | OtherDelete(targetId: string)

  function Meddled(s: Server, move: OtherMove): Server {
    match move
    case OtherWrite(t, fields) => Written(s, t, OtherWriter, fields)
    case OtherDelete(t) => Removed(s, t, OtherWriter)
  }

  function MeddledAll(s: Server, moves: seq<OtherMove>): Server {
    if moves == [] then s
    else Meddled(MeddledAll(s, moves[..|moves| - 1]), moves[|moves| - 1])
  }

  const OK := 200
  const BAD_REQUEST := 400
  const FORBIDDEN := 403
  const NOT_FOUND := 404
  const CONFLICT := 409

  /** A status that says nothing about what the server did. */
  type Unclear = status: nat | status !in {OK, BAD_REQUEST, FORBIDDEN, NOT_FOUND, CONFLICT} witness 503

  /** What becomes of one request: answered, refused for authority, or lost before or after its effect. */
  datatype Delivery = Answered | Unauthorized | Lost(arrived: bool, status: Unclear)

  /** PATCH under currentDocument.exists=false. */
  function Create(s: Server, targetId: string, key: string, fields: FieldMap): (Server, nat) {
    if targetId in s.docs then (s, CONFLICT)
    else (Written(s, targetId, CreatedUnder(key), fields), OK)
  }

  /** DELETE under currentDocument.updateTime. */
  function Delete(s: Server, targetId: string, revision: Revision): (Server, nat) {
    if targetId !in s.docs then (s, NOT_FOUND)
    else if revision != At(s.docs[targetId].updateTime) then (s, BAD_REQUEST)
    else (Removed(s, targetId, DeletedNaming(s.docs[targetId].updateTime)), OK)
  }

  function Delivered(s: Server, performed: (Server, nat), d: Delivery): (Server, nat) {
    match d
    case Answered => performed
    case Unauthorized => (s, FORBIDDEN)
    case Lost(arrived, status) => (if arrived then performed.0 else s, status)
  }

  // ---------------------------------------------------------------------
  // Target identities
  // ---------------------------------------------------------------------

  datatype Target = Target(project: string, database: string, collection: string, documentId: string)

  function Segments(s: string): (parts: seq<string>)
    ensures |parts| > 0
  {
    if s == "" then [""]
    else
      var rest := Segments(s[1..]);
      if s[0] == '/' then [""] + rest else [[s[0]] + rest[0]] + rest[1..]
  }

  function Joined(parts: seq<string>): string
    requires |parts| > 0
  {
    if |parts| == 1 then parts[0] else parts[0] + "/" + Joined(parts[1..])
  }

  function PathOf(t: Target): seq<string> {
    ["projects", t.project, "databases", t.database, "documents", t.collection, t.documentId]
  }

  function TargetIdOf(t: Target): string {
    Joined(PathOf(t))
  }

  function ParseTarget(targetId: string): Option<Target> {
    var p := Segments(targetId);
    if |p| == 7 && p[0] == "projects" && p[2] == "databases" && p[4] == "documents"
       && p[1] != "" && p[3] != "" && p[5] != "" && p[6] != ""
    then Some(Target(p[1], p[3], p[5], p[6]))
    else None
  }

  lemma {:induction false} JoinedSegments(s: string)
    ensures Joined(Segments(s)) == s
  {
    if s != "" {
      JoinedSegments(s[1..]);
      var rest := Segments(s[1..]);
      assert s == [s[0]] + s[1..];
      if s[0] == '/' {
        assert ([""] + rest)[1..] == rest;
        assert Joined([""] + rest) == "" + "/" + Joined(rest);
      } else {
        var parts := [[s[0]] + rest[0]] + rest[1..];
        assert parts[1..] == rest[1..];
        if |rest| > 1 {
          assert Joined(parts) == [s[0]] + rest[0] + "/" + Joined(rest[1..]);
        }
      }
    }
  }

  lemma {:induction false} SegmentsJoinPlain(head: string, tail: string)
    requires '/' !in head
    ensures Segments(head + "/" + tail) == [head] + Segments(tail)
  {
    var s := head + "/" + tail;
    if head == "" {
      assert s == "/" + tail && s[1..] == tail;
    } else {
      SegmentsJoinPlain(head[1..], tail);
      assert s[1..] == head[1..] + "/" + tail;
      assert [head[0]] + head[1..] == head;
    }
  }

  lemma {:induction false} PlainIsOneSegment(s: string)
    requires '/' !in s
    ensures Segments(s) == [s]
  {
    if s != "" {
      PlainIsOneSegment(s[1..]);
      assert [s[0]] + s[1..] == s;
    }
  }

  lemma {:induction false} SegmentsOfJoined(parts: seq<string>)
    requires |parts| > 0 && forall p | p in parts :: '/' !in p
    ensures Segments(Joined(parts)) == parts
  {
    if |parts| == 1 {
      PlainIsOneSegment(parts[0]);
    } else {
      SegmentsOfJoined(parts[1..]);
      SegmentsJoinPlain(parts[0], Joined(parts[1..]));
      assert parts[0] + ("/" + Joined(parts[1..])) == parts[0] + "/" + Joined(parts[1..]);
      assert [parts[0]] + parts[1..] == parts;
    }
  }

  lemma {:induction false} SegmentsArePlain(s: string)
    ensures forall p | p in Segments(s) :: '/' !in p
  {
    if s != "" {
      SegmentsArePlain(s[1..]);
      var rest := Segments(s[1..]);
      assert rest[0] in rest;
      assert forall p | p in rest[1..] :: p in rest;
    }
  }

  predicate PlainSegment(s: string) {
    s != "" && '/' !in s
  }

  /** A parsed target prints back to the text it came from, and prints parse back exactly for plain segments. */
  lemma TargetRoundTrip(targetId: string, t: Target)
    ensures ParseTarget(targetId) == Some(t) ==> TargetIdOf(t) == targetId
    ensures ParseTarget(TargetIdOf(t)) == Some(t) <==>
      && PlainSegment(t.project) && PlainSegment(t.database)
      && PlainSegment(t.collection) && PlainSegment(t.documentId)
  {
    JoinedSegments(targetId);
    if ParseTarget(targetId) == Some(t) {
      assert Segments(targetId) == PathOf(t);
    }
    if ParseTarget(TargetIdOf(t)) == Some(t) {
      SegmentsArePlain(TargetIdOf(t));
      var p := Segments(TargetIdOf(t));
      assert p[1] in p && p[3] in p && p[5] in p && p[6] in p;
    }
    if PlainSegment(t.project) && PlainSegment(t.database)
       && PlainSegment(t.collection) && PlainSegment(t.documentId) {
      SegmentsOfJoined(PathOf(t));
    }
  }

  // ---------------------------------------------------------------------
  // Requests and answers
  // ---------------------------------------------------------------------

  const CREATE_CAPABILITY := "document.create"
  const DELETE_CAPABILITY := "document.delete"
  const WRITABLE_FIELDS: set<string> := {"missionId", "actionId", "createdAt", "probeId"}
  const KEY_FIELD := "chanterIdempotencyKey"
  const HASH_FIELD := "chanterWritePayloadHash"

  /** The state an action was approved against: absence of one target, or anything else. */
  datatype PreState = AbsentState(targetId: string) | OtherState(digest: string)

  /** A revision as given by a caller: only white space, or the time of a version, or no version's time. */
  datatype Revision = Blank | At(updateTime: nat) | NoVersion(text: string)

  datatype ConnectorError =
    | CapabilityUnknown | FieldNotWritable | PreStateMismatch | TargetConflict
    | TargetMalformed | TargetProjectForbidden | TargetDatabaseForbidden | TargetCollectionForbidden
    | AuthorityInsufficient | ReadUnavailable | WriteOutcomeUnknown | Interrupted
    | ReconciliationTargetRequired
    | CompensationRevisionRequired | CompensationPreconditionFailed | CompensationOutcomeUnknown

  datatype CreateRequest = CreateRequest(
    capability: string, targetId: string, expectedPreState: PreState,
    writePayload: seq<Field>, writePayloadHash: string, idempotencyKey: string)

  datatype CompensateRequest = CompensateRequest(capability: string, targetId: string, expectedRevision: Revision)

  datatype AppliedAction = AppliedAction(
    idempotencyKey: string, targetId: string, writePayloadHash: Option<string>,
    preState: PreState, postState: nat)

  datatype ApplyResult = ApplyResult(performedWrite: bool, action: AppliedAction)

  /** The one place the connector may reach. */
  datatype Pin = Pin(project: string, database: string, collection: string)

  /** What happens around the two requests of an apply. */
  datatype ApplyWeather = ApplyWeather(
    read: Delivery, between: seq<OtherMove>, create: Delivery, interrupted: bool)

  /** A field as text; None for a number, whose digits are not modelled. */
  function TextOf(fields: FieldMap, name: string): Option<string> {
    if name !in fields then Some("")
    else match fields[name]
      case Text(t) => Some(t)
      case Flag(b) => Some(if b then "true" else "false")
      case Null => Some("")
      case Number(_) => None
  }

  /** A missing or null field reads as the empty text, and a flag as its name. */
  lemma TextTells(fields: FieldMap, name: string)
    ensures TextOf(fields, name) == Some("") <==>
      name !in fields || fields[name] == Null || fields[name] == Text("")
    ensures forall t | name in fields && fields[name] == Text(t) :: TextOf(fields, name) == Some(t)
    ensures name in fields && fields[name] == Flag(true) ==> TextOf(fields, name) == Some("true")
    ensures name in fields && fields[name] == Flag(false) ==> TextOf(fields, name) == Some("false")
    ensures TextOf(fields, name) == None <==> name in fields && fields[name].Number?
  {
  }

  /** What a create stores: the payload and the connector's provenance. */
  function StoredFields(q: CreateRequest): FieldMap {
    AsMap(q.writePayload)[KEY_FIELD := Text(q.idempotencyKey)][HASH_FIELD := Text(q.writePayloadHash)]
  }

  function Reach(pin: Pin, targetId: string): Option<ConnectorError> {
    match ParseTarget(targetId)
    case None => Some(TargetMalformed)
    case Some(t) =>
      if t.project != pin.project then Some(TargetProjectForbidden)
      else if t.database != pin.database then Some(TargetDatabaseForbidden)
      else if t.collection != pin.collection then Some(TargetCollectionForbidden)
      else None
  }

  function ReadDocument(pin: Pin, s: Server, targetId: string, d: Delivery): Result<Option<Document>, ConnectorError> {
    var forbidden := Reach(pin, targetId);
    if forbidden.Some? then Err(forbidden.value)
    else match d
      case Unauthorized => Err(AuthorityInsufficient)
      case Lost(_, _) => Err(ReadUnavailable)
      case Answered => Ok(DocumentAt(s, targetId))
  }

  /** The refusals that come before any request. */
  function Refusal(q: CreateRequest): Option<ConnectorError> {
    if q.capability != CREATE_CAPABILITY then Some(CapabilityUnknown)
    else if exists f | f in q.writePayload :: f.name !in WRITABLE_FIELDS then Some(FieldNotWritable)
    else if q.expectedPreState != AbsentState(q.targetId) then Some(PreStateMismatch)
    else None
  }

  function ActionAt(q: CreateRequest, postState: nat): AppliedAction {
    AppliedAction(q.idempotencyKey, q.targetId, Some(q.writePayloadHash), AbsentState(q.targetId), postState)
  }

  function CreateAttempted(s: Server, q: CreateRequest, d: Delivery, interrupted: bool)
    : (Server, Result<ApplyResult, ConnectorError>)
  {
    var (after, status) := Delivered(s, Create(s, q.targetId, q.idempotencyKey, StoredFields(q)), d);
    (after,
     if status == CONFLICT || status == BAD_REQUEST then Err(PreStateMismatch)
     else if status == FORBIDDEN then Err(AuthorityInsufficient)
     else if status != OK then Err(WriteOutcomeUnknown)
     else if interrupted then Err(Interrupted)
     else Ok(ApplyResult(true, ActionAt(q, |s.log|))))
  }

  /** One apply: what the server becomes, and the answer. */
  function Applied(pin: Pin, s: Server, q: CreateRequest, w: ApplyWeather)
    : (Server, Result<ApplyResult, ConnectorError>)
  {
    var refusal := Refusal(q);
    if refusal.Some? then (s, Err(refusal.value))
    else
      match ReadDocument(pin, s, q.targetId, w.read)
      case Err(e) => (s, Err(e))
      case Ok(Some(existing)) =>
        (s, if TextOf(existing.fields, KEY_FIELD) != Some(q.idempotencyKey) then Err(TargetConflict)
            else Ok(ApplyResult(false, ActionAt(q, existing.updateTime))))
      case Ok(None) => CreateAttempted(MeddledAll(s, w.between), q, w.create, w.interrupted)
  }

  /** One compensation: what the server becomes, and whether it deleted. */
  function Compensated(pin: Pin, s: Server, q: CompensateRequest, d: Delivery)
    : (Server, Result<bool, ConnectorError>)
  {
    var forbidden := Reach(pin, q.targetId);
    if q.capability != DELETE_CAPABILITY then (s, Err(CapabilityUnknown))
    else if q.expectedRevision == Blank then (s, Err(CompensationRevisionRequired))
    else if forbidden.Some? then (s, Err(forbidden.value))
    else
      var (after, status) := Delivered(s, Delete(s, q.targetId, q.expectedRevision), d);
      (after,
       if status == NOT_FOUND then Ok(false)
       else if status == BAD_REQUEST || status == CONFLICT then Err(CompensationPreconditionFailed)
       else if status == FORBIDDEN then Err(AuthorityInsufficient)
       else if status != OK then Err(CompensationOutcomeUnknown)
       else Ok(true))
  }

  /** The text after the first '@' of a key that carries its own target. */
  function TargetInKey(key: string): string {
    if key == "" then "" else if key[0] == '@' then key[1..] else TargetInKey(key[1..])
  }

  /** Did this action land? */
  function ActionRead(pin: Pin, s: Server, key: string, requested: Option<string>, d: Delivery)
    : Result<Option<AppliedAction>, ConnectorError>
  {
    var targetId := if requested.Some? then requested.value else TargetInKey(key);
    if targetId == "" then Err(ReconciliationTargetRequired)
    else
      match ReadDocument(pin, s, targetId, d)
      case Err(e) => Err(e)
      case Ok(None) => Ok(None)
      case Ok(Some(record)) =>
        if TextOf(record.fields, KEY_FIELD) != Some(key) then Err(TargetConflict)
        else Ok(Some(AppliedAction(
          key, targetId, TextOf(record.fields, HASH_FIELD), AbsentState(targetId), record.updateTime)))
  }

  // ---------------------------------------------------------------------
  // What each call answers
  // ---------------------------------------------------------------------

  lemma JoinedOneMore(first: string, rest: seq<string>)
    requires |rest| > 0
    ensures Joined([first] + rest) == first + "/" + Joined(rest)
  {
    assert ([first] + rest)[1..] == rest;
  }

  /** The text of a target identity, segment by segment. */
  lemma TargetIdText(t: Target)
    ensures TargetIdOf(t)
         == "projects" + "/" + (t.project + "/" + ("databases" + "/" + (t.database + "/"
            + ("documents" + "/" + (t.collection + "/" + t.documentId)))))
  {
    var tail := [t.documentId];
    JoinedOneMore(t.collection, tail);
    JoinedOneMore("documents", [t.collection] + tail);
    JoinedOneMore(t.database, ["documents"] + ([t.collection] + tail));
    JoinedOneMore("databases", [t.database] + (["documents"] + ([t.collection] + tail)));
    JoinedOneMore(t.project, ["databases"] + ([t.database] + (["documents"] + ([t.collection] + tail))));
    var path := [t.project] + (["databases"] + ([t.database] + (["documents"] + ([t.collection] + tail))));
    JoinedOneMore("projects", path);
    assert ["projects"] + path == PathOf(t);
  }

  predicate PlainTarget(t: Target) {
    PlainSegment(t.project) && PlainSegment(t.database) && PlainSegment(t.collection) && PlainSegment(t.documentId)
  }

  /** A document can be reached exactly when its identity names the pinned project, database and collection. */
  lemma ReachAnswers(pin: Pin, targetId: string)
    ensures Reach(pin, targetId).None? <==>
      exists t :: PlainTarget(t) && TargetIdOf(t) == targetId && Pin(t.project, t.database, t.collection) == pin
    ensures Reach(pin, targetId) == Some(TargetMalformed) <==>
      !exists t :: PlainTarget(t) && TargetIdOf(t) == targetId
    ensures Reach(pin, targetId) == Some(TargetProjectForbidden) <==>
      exists t :: PlainTarget(t) && TargetIdOf(t) == targetId && t.project != pin.project
    ensures Reach(pin, targetId) == Some(TargetDatabaseForbidden) <==>
      exists t :: PlainTarget(t) && TargetIdOf(t) == targetId
                  && t.project == pin.project && t.database != pin.database
    ensures Reach(pin, targetId) == Some(TargetCollectionForbidden) <==>
      exists t :: PlainTarget(t) && TargetIdOf(t) == targetId && t.project == pin.project
                  && t.database == pin.database && t.collection != pin.collection
  {
    var parsed := ParseTarget(targetId);
    if parsed.Some? {
      TargetRoundTrip(targetId, parsed.value);
      assert PlainTarget(parsed.value) && TargetIdOf(parsed.value) == targetId;
    }
    forall t | PlainTarget(t) && TargetIdOf(t) == targetId ensures parsed == Some(t) {
      TargetRoundTrip(targetId, t);
    }
  }

  /** The refusals before any request, in order. */
  lemma RefusalAnswers(q: CreateRequest)
    ensures var writable := forall f | f in q.writePayload ::
        f.name == "missionId" || f.name == "actionId" || f.name == "createdAt" || f.name == "probeId";
      var absent := q.expectedPreState == AbsentState(q.targetId);
      && (Refusal(q) == Some(CapabilityUnknown) <==> q.capability != "document.create")
      && (Refusal(q) == Some(FieldNotWritable) <==> q.capability == "document.create" && !writable)
      && (Refusal(q) == Some(PreStateMismatch) <==> q.capability == "document.create" && writable && !absent)
      && (Refusal(q) == None <==> q.capability == "document.create" && writable && absent)
  {
  }

  /** A create stores its payload and its provenance, and nothing else. */
  lemma StoredTells(q: CreateRequest, name: string)
    requires UniqueNames(q.writePayload) && Refusal(q).None?
    ensures var stored := StoredFields(q);
      && "chanterIdempotencyKey" in stored && stored["chanterIdempotencyKey"] == Text(q.idempotencyKey)
      && "chanterWritePayloadHash" in stored && stored["chanterWritePayloadHash"] == Text(q.writePayloadHash)
      && (forall f | f in q.writePayload :: f.name in stored && stored[f.name] == f.value)
      && (name in stored <==>
            || name == "chanterIdempotencyKey" || name == "chanterWritePayloadHash"
            || exists f | f in q.writePayload :: f.name == name)
  {
    StoredProvenance(q);
    AsMapTells(q.writePayload, name);
    forall f | f in q.writePayload ensures f.name in StoredFields(q) && StoredFields(q)[f.name] == f.value {
      AsMapTells(q.writePayload, f.name);
      NotProvenance(f.name);
    }
  }

  lemma NotProvenance(name: string)
    requires name in WRITABLE_FIELDS
    ensures name != KEY_FIELD && name != HASH_FIELD
  {
    assert |KEY_FIELD| == 21 && |HASH_FIELD| == 23;
    assert |"missionId"| == 9 && |"actionId"| == 8 && |"createdAt"| == 9 && |"probeId"| == 7;
  }

  /** Everything an apply can answer, each from the one situation it stands for. */
  lemma ApplyAnswers(pin: Pin, s: Server, q: CreateRequest, w: ApplyWeather)
    ensures var r := Applied(pin, s, q, w).1;
      var late := MeddledAll(s, w.between);
      var admitted := Refusal(q).None? && Reach(pin, q.targetId).None?;
      var seen := admitted && w.read.Answered? && q.targetId in s.docs;
      var own := seen && TextOf(s.docs[q.targetId].fields, "chanterIdempotencyKey") == Some(q.idempotencyKey);
      var sent := admitted && w.read.Answered? && q.targetId !in s.docs;
      var taken := q.targetId in late.docs;
      && (Refusal(q).Some? ==> r == Err(Refusal(q).value))
      && (Refusal(q).None? && Reach(pin, q.targetId).Some? ==> r == Err(Reach(pin, q.targetId).value))
      && (admitted ==>
            && (r == Err(ReadUnavailable) <==> w.read.Lost?)
            && (r == Err(TargetConflict) <==> seen && !own)
            && (r.Ok? && !r.value.performedWrite <==> own)
            && (r == Err(AuthorityInsufficient) <==> w.read.Unauthorized? || (sent && w.create.Unauthorized?))
            && (r == Err(PreStateMismatch) <==> sent && w.create.Answered? && taken)
            && (r == Err(WriteOutcomeUnknown) <==> sent && w.create.Lost?)
            && (r == Err(Interrupted) <==> sent && w.create.Answered? && !taken && w.interrupted)
            && (r.Ok? && r.value.performedWrite <==> sent && w.create.Answered? && !taken && !w.interrupted))
  {
  }

  /** Everything a compensation can answer. */
  lemma CompensationAnswers(pin: Pin, s: Server, c: CompensateRequest, d: Delivery)
    ensures var r := Compensated(pin, s, c, d).1;
      var named := c.targetId in s.docs && c.expectedRevision == At(s.docs[c.targetId].updateTime);
      && (r == Err(CapabilityUnknown) <==> c.capability != "document.delete")
      && (c.capability == "document.delete" ==>
            && (r == Err(CompensationRevisionRequired) <==> c.expectedRevision.Blank?)
            && (!c.expectedRevision.Blank? && Reach(pin, c.targetId).Some? ==> r == Err(Reach(pin, c.targetId).value))
            && (!c.expectedRevision.Blank? && Reach(pin, c.targetId).None? ==>
                  && (r == Err(AuthorityInsufficient) <==> d.Unauthorized?)
                  && (r == Err(CompensationOutcomeUnknown) <==> d.Lost?)
                  && (r == Ok(false) <==> d.Answered? && c.targetId !in s.docs)
                  && (r == Ok(true) <==> d.Answered? && named)
                  && (r == Err(CompensationPreconditionFailed) <==> d.Answered? && c.targetId in s.docs && !named)))
  {
  }

  /** The first '@' of a key, if any, starts the target it carries. */
  lemma {:induction false} KeyCarriesTarget(head: string, tail: string)
    requires '@' !in head
    ensures TargetInKey(head + "@" + tail) == tail && TargetInKey(head) == ""
  {
    var key := head + "@" + tail;
    if head == "" {
      assert key == "@" + tail && key[1..] == tail;
    } else {
      KeyCarriesTarget(head[1..], tail);
      assert key[1..] == head[1..] + "@" + tail;
    }
  }

  /** Everything reading an action can answer. */
  lemma ActionReadAnswers(pin: Pin, s: Server, key: string, requested: Option<string>, d: Delivery)
    ensures var r := ActionRead(pin, s, key, requested, d);
      var targetId := if requested.Some? then requested.value else TargetInKey(key);
      var reached := targetId != "" && Reach(pin, targetId).None?;
      && (r == Err(ReconciliationTargetRequired) <==> targetId == "")
      && (targetId != "" && Reach(pin, targetId).Some? ==> r == Err(Reach(pin, targetId).value))
      && (reached ==>
            && (r == Err(AuthorityInsufficient) <==> d.Unauthorized?)
            && (r == Err(ReadUnavailable) <==> d.Lost?)
            && (r == Ok(None) <==> d.Answered? && targetId !in s.docs)
            && (r == Err(TargetConflict) <==>
                  d.Answered? && targetId in s.docs
                  && TextOf(s.docs[targetId].fields, "chanterIdempotencyKey") != Some(key))
            && (r.Ok? && r.value.Some? ==>
                  r.value.value == AppliedAction(
                    key, targetId, TextOf(s.docs[targetId].fields, "chanterWritePayloadHash"),
                    AbsentState(targetId), s.docs[targetId].updateTime)))
  {
  }

  // ---------------------------------------------------------------------
  // Runs
  // ---------------------------------------------------------------------

  datatype Event =
    | Meddle(move: OtherMove)
    | ApplyOnce(q: CreateRequest, weather: ApplyWeather)
    | CompensateOnce(c: CompensateRequest, delivery: Delivery)

  function Moved(pin: Pin, s: Server, e: Event): Server {
    match e
    case Meddle(move) => Meddled(s, move)
    case ApplyOnce(q, w) => Applied(pin, s, q, w).0
    case CompensateOnce(c, d) => Compensated(pin, s, c, d).0
  }

  function After(pin: Pin, start: Server, events: seq<Event>): Server {
    if events == [] then start
    else Moved(pin, After(pin, start, events[..|events| - 1]), events[|events| - 1])
  }

  /** What the changes so far leave at a target. */
  function LeftBy(log: seq<Change>, targetId: string): Option<Document> {
    if log == [] then None
    else
      var last := log[|log| - 1];
      if last.targetId == targetId then last.after else LeftBy(log[..|log| - 1], targetId)
  }

  /** A change continues the log before it; the connector's own changes honour their preconditions. */
  predicate SoundChange(before: seq<Change>, c: Change) {
    && c.before == LeftBy(before, c.targetId)
    && (c.after.Some? ==> c.after.value.updateTime == |before|)
    && (c.author.CreatedUnder? ==>
          c.before.None? && c.after.Some?
          && TextOf(c.after.value.fields, KEY_FIELD) == Some(c.author.idempotencyKey))
    && (c.author.DeletedNaming? ==>
          c.before.Some? && c.before.value.updateTime == c.author.revision && c.after.None?)
  }

  predicate SoundLog(log: seq<Change>) {
    forall k | 0 <= k < |log| :: SoundChange(log[..k], log[k])
  }

  ghost predicate Consistent(s: Server) {
    && SoundLog(s.log)
    && forall t :: DocumentAt(s, t) == LeftBy(s.log, t)
  }

  lemma SoundLogGrows(log: seq<Change>, c: Change)
    requires SoundLog(log) && SoundChange(log, c)
    ensures SoundLog(log + [c])
  {
    var longer := log + [c];
    forall k | 0 <= k < |longer| ensures SoundChange(longer[..k], longer[k]) {
      assert k < |log| ==> longer[..k] == log[..k];
      assert k == |log| ==> longer[..k] == log;
    }
  }

  lemma LeftByGrows(log: seq<Change>, c: Change, t: string)
    ensures LeftBy(log + [c], t) == if c.targetId == t then c.after else LeftBy(log, t)
  {
  }

  lemma WrittenIsConsistent(s: Server, targetId: string, author: Author, fields: FieldMap)
    requires Consistent(s) && !author.DeletedNaming?
    requires author.CreatedUnder? ==>
      targetId !in s.docs && TextOf(fields, KEY_FIELD) == Some(author.idempotencyKey)
    ensures Consistent(Written(s, targetId, author, fields))
  {
    var after := Written(s, targetId, author, fields);
    var c := after.log[|s.log|];
    assert DocumentAt(s, targetId) == LeftBy(s.log, targetId);
    SoundLogGrows(s.log, c);
    forall t ensures DocumentAt(after, t) == LeftBy(after.log, t) {
      LeftByGrows(s.log, c, t);
      assert DocumentAt(s, t) == LeftBy(s.log, t);
    }
  }

  lemma RemovedIsConsistent(s: Server, targetId: string, author: Author)
    requires Consistent(s) && targetId in s.docs && !author.CreatedUnder?
    requires author.DeletedNaming? ==> s.docs[targetId].updateTime == author.revision
    ensures Consistent(Removed(s, targetId, author))
  {
    var after := Removed(s, targetId, author);
    var c := after.log[|s.log|];
    assert DocumentAt(s, targetId) == LeftBy(s.log, targetId);
    SoundLogGrows(s.log, c);
    forall t ensures DocumentAt(after, t) == LeftBy(after.log, t) {
      LeftByGrows(s.log, c, t);
      assert DocumentAt(s, t) == LeftBy(s.log, t);
    }
  }

  lemma MeddledIsConsistent(s: Server, move: OtherMove)
    requires Consistent(s)
    ensures Consistent(Meddled(s, move)) && s.log <= Meddled(s, move).log
    ensures forall k | |s.log| <= k < |Meddled(s, move).log| :: Meddled(s, move).log[k].author == OtherWriter
  {
    match move
    case OtherWrite(t, fields) => WrittenIsConsistent(s, t, OtherWriter, fields);
    case OtherDelete(t) =>
      if t in s.docs {
        RemovedIsConsistent(s, t, OtherWriter);
      }
  }

  lemma {:induction false} MeddlingIsConsistent(s: Server, moves: seq<OtherMove>)
    requires Consistent(s)
    ensures Consistent(MeddledAll(s, moves)) && s.log <= MeddledAll(s, moves).log
    ensures forall k | |s.log| <= k < |MeddledAll(s, moves).log| :: MeddledAll(s, moves).log[k].author == OtherWriter
  {
    if moves != [] {
      var front := moves[..|moves| - 1];
      MeddlingIsConsistent(s, front);
      MeddledIsConsistent(MeddledAll(s, front), moves[|moves| - 1]);
    }
  }

  // ---------------------------------------------------------------------
  // What an apply does, whatever happens around it
  // ---------------------------------------------------------------------

  /** The change, if any, that this apply itself made; it is the last one. */
  predicate CreateTookEffect(s: Server, after: Server, q: CreateRequest) {
    && |after.log| > |s.log|
    && after.log[|after.log| - 1].author == CreatedUnder(q.idempotencyKey)
    && after.log[|after.log| - 1].targetId == q.targetId
    && after.log[|after.log| - 1].after == Some(Document(|after.log| - 1, StoredFields(q)))
  }

  predicate OnlyOthers(s: Server, after: Server) {
    forall k | |s.log| <= k < |after.log| :: after.log[k].author == OtherWriter
  }

  lemma StoredProvenance(q: CreateRequest)
    ensures TextOf(StoredFields(q), KEY_FIELD) == Some(q.idempotencyKey)
    ensures TextOf(StoredFields(q), HASH_FIELD) == Some(q.writePayloadHash)
  {
  }

  /** The create request alone, from wherever the server stands when it arrives. */
  lemma CreateAttemptEffect(s: Server, q: CreateRequest, d: Delivery, interrupted: bool)
    requires Consistent(s)
    ensures Consistent(CreateAttempted(s, q, d, interrupted).0)
    ensures var (after, r) := CreateAttempted(s, q, d, interrupted);
      && s.log <= after.log
      && (after == s || (|after.log| == |s.log| + 1 && CreateTookEffect(s, after, q)))
      && (r.Ok? ==> after != s && r.value == ApplyResult(true, ActionAt(q, |after.log| - 1)))
      && (r == Err(Interrupted) ==> after != s)
      && (r.Err? && r.error !in {Interrupted, WriteOutcomeUnknown} ==> after == s)
      && (r == Err(WriteOutcomeUnknown) && after != s ==> d.Lost? && d.arrived)
  {
    StoredProvenance(q);
    if q.targetId !in s.docs {
      WrittenIsConsistent(s, q.targetId, CreatedUnder(q.idempotencyKey), StoredFields(q));
    }
  }

  /** The document of this key stands at the target, and the action reported is its current version. */
  predicate Replayed(s: Server, q: CreateRequest, action: AppliedAction) {
    && q.targetId in s.docs
    && TextOf(s.docs[q.targetId].fields, KEY_FIELD) == Some(q.idempotencyKey)
    && action == ActionAt(q, s.docs[q.targetId].updateTime)
  }

  /**
   What an answer says about the server: a performed write is this call's own
   create, a replay wrote nothing, every refusal wrote nothing, and only the
   two unresolved answers leave a create that may have landed.
   */
  predicate Tells(
    r: Result<ApplyResult, ConnectorError>, s: Server, after: Server, q: CreateRequest, create: Delivery)
  {
    && (CreateTookEffect(s, after, q) || OnlyOthers(s, after))
    && match r
       case Ok(result) =>
         if result.performedWrite
         then CreateTookEffect(s, after, q) && result.action == ActionAt(q, |after.log| - 1)
         else after == s && Replayed(s, q, result.action)
       case Err(WriteOutcomeUnknown) =>
         CreateTookEffect(s, after, q) ==> create.Lost? && create.arrived
       case Err(Interrupted) => CreateTookEffect(s, after, q)
       case Err(_) => OnlyOthers(s, after)
  }

  lemma AttemptTells(s: Server, moves: seq<OtherMove>, q: CreateRequest, d: Delivery, interrupted: bool)
    requires Consistent(s)
    ensures var (after, r) := CreateAttempted(MeddledAll(s, moves), q, d, interrupted);
      Consistent(after) && s.log <= after.log && Tells(r, s, after, q, d)
  {
    MeddlingIsConsistent(s, moves);
    CreateAttemptEffect(MeddledAll(s, moves), q, d, interrupted);
  }

  lemma AnswerTellsEffect(pin: Pin, s: Server, q: CreateRequest, w: ApplyWeather)
    requires Consistent(s)
    ensures var (after, r) := Applied(pin, s, q, w);
      Consistent(after) && s.log <= after.log && Tells(r, s, after, q, w.create)
  {
    if Refusal(q).None? && ReadDocument(pin, s, q.targetId, w.read) == Ok(None) {
      AttemptTells(s, w.between, q, w.create, w.interrupted);
    }
  }

  /** An apply that took effect had been let through by every check before its request. */
  lemma EffectWasAdmitted(pin: Pin, s: Server, q: CreateRequest, w: ApplyWeather)
    requires CreateTookEffect(s, Applied(pin, s, q, w).0, q)
    ensures Refusal(q).None? && Reach(pin, q.targetId).None?
  {
  }

  lemma CompensationIsConsistent(pin: Pin, s: Server, c: CompensateRequest, d: Delivery)
    requires Consistent(s)
    ensures Consistent(Compensated(pin, s, c, d).0)
  {
    if c.targetId in s.docs {
      RemovedIsConsistent(s, c.targetId, DeletedNaming(s.docs[c.targetId].updateTime));
    }
  }

  /** Over any run, with any writers and any losses, the log stays sound. */
  lemma {:induction false} ConsistentAlways(pin: Pin, start: Server, events: seq<Event>)
    requires Consistent(start)
    ensures Consistent(After(pin, start, events))
  {
    if events != [] {
      var s := After(pin, start, events[..|events| - 1]);
      ConsistentAlways(pin, start, events[..|events| - 1]);
      match events[|events| - 1]
      case Meddle(move) => MeddledIsConsistent(s, move);
      case ApplyOnce(q, w) => AnswerTellsEffect(pin, s, q, w);
      case CompensateOnce(c, d) => CompensationIsConsistent(pin, s, c, d);
    }
  }

  // ---------------------------------------------------------------------
  // Safe create and undo
  // ---------------------------------------------------------------------

  /** From `n` on, the connector changes only documents inside its pin. */
  predicate PinnedFrom(pin: Pin, log: seq<Change>, n: nat) {
    forall k | n <= k < |log| && log[k].author != OtherWriter :: Reach(pin, log[k].targetId).None?
  }

  lemma UnpinnedAppliesNothing(pin: Pin, s: Server, q: CreateRequest, w: ApplyWeather)
    requires Reach(pin, q.targetId).Some?
    ensures Applied(pin, s, q, w).0 == s
  {
  }

  lemma AttemptStaysPinned(
    pin: Pin, s: Server, moves: seq<OtherMove>, q: CreateRequest, d: Delivery, interrupted: bool, n: nat)
    requires Consistent(s) && PinnedFrom(pin, s.log, n) && Reach(pin, q.targetId).None?
    ensures PinnedFrom(pin, CreateAttempted(MeddledAll(s, moves), q, d, interrupted).0.log, n)
  {
    MeddlingIsConsistent(s, moves);
    CreateAttemptEffect(MeddledAll(s, moves), q, d, interrupted);
  }

  lemma ApplyStaysPinned(pin: Pin, s: Server, q: CreateRequest, w: ApplyWeather, n: nat)
    requires Consistent(s) && PinnedFrom(pin, s.log, n)
    ensures PinnedFrom(pin, Applied(pin, s, q, w).0.log, n)
  {
    if Reach(pin, q.targetId).Some? {
      UnpinnedAppliesNothing(pin, s, q, w);
    } else {
      AttemptStaysPinned(pin, s, w.between, q, w.create, w.interrupted, n);
    }
  }

  lemma MoveStaysPinned(pin: Pin, s: Server, e: Event, n: nat)
    requires Consistent(s) && PinnedFrom(pin, s.log, n)
    ensures s.log <= Moved(pin, s, e).log && PinnedFrom(pin, Moved(pin, s, e).log, n)
  {
    match e
    case Meddle(move) => MeddledIsConsistent(s, move);
    case ApplyOnce(q, w) =>
      AnswerTellsEffect(pin, s, q, w);
      ApplyStaysPinned(pin, s, q, w, n);
    case CompensateOnce(c, d) =>
  }

  /** In every run, nothing outside the pinned collection is created or deleted by the connector. */
  lemma {:induction false} StaysInsidePin(pin: Pin, start: Server, events: seq<Event>)
    requires Consistent(start)
    ensures start.log <= After(pin, start, events).log
    ensures PinnedFrom(pin, After(pin, start, events).log, |start.log|)
  {
    if events != [] {
      var front := events[..|events| - 1];
      StaysInsidePin(pin, start, front);
      ConsistentAlways(pin, start, front);
      MoveStaysPinned(pin, After(pin, start, front), events[|events| - 1], |start.log|);
    }
  }

  lemma SoundPrefix(log: seq<Change>, n: nat)
    requires SoundLog(log) && n <= |log|
    ensures SoundLog(log[..n])
  {
    forall k | 0 <= k < n ensures SoundChange(log[..n][..k], log[..n][k]) {
      assert log[..n][..k] == log[..k];
    }
  }

  /** What lies at a target was put there by the change its update time names, the target's last. */
  lemma {:induction false} StampNamesChange(log: seq<Change>, t: string)
    requires SoundLog(log) && LeftBy(log, t).Some?
    ensures var time := LeftBy(log, t).value.updateTime;
      && time < |log| && log[time].targetId == t && log[time].after == LeftBy(log, t)
      && forall k | time < k < |log| :: log[k].targetId != t
  {
    var n := |log| - 1;
    assert SoundChange(log[..n], log[n]);
    if log[n].targetId != t {
      SoundPrefix(log, n);
      StampNamesChange(log[..n], t);
    }
  }

  /** What a change left stays until the target's next change. */
  lemma {:induction false} LeftUntilChanged(log: seq<Change>, i: nat)
    requires i < |log| && forall k | i < k < |log| :: log[k].targetId != log[i].targetId
    ensures LeftBy(log, log[i].targetId) == log[i].after
  {
    if i < |log| - 1 {
      LeftUntilChanged(log[..|log| - 1], i);
    }
  }

  /** A target that was left present and is now absent was removed in between. */
  lemma {:induction false} AbsenceNeedsRemoval(log: seq<Change>, i: nat, t: string) returns (k: nat)
    requires i < |log| && log[i].targetId == t && log[i].after.Some? && LeftBy(log, t).None?
    ensures i < k < |log| && log[k].targetId == t && log[k].after.None?
  {
    var n := |log| - 1;
    if log[n].targetId == t {
      k := n;
    } else {
      k := AbsenceNeedsRemoval(log[..n], i, t);
    }
  }

  /** Every create of the connector that took effect found nothing at its target. */
  lemma CreatesStartFromAbsence(pin: Pin, start: Server, events: seq<Event>, k: nat)
    requires Consistent(start)
    requires k < |After(pin, start, events).log| && After(pin, start, events).log[k].author.CreatedUnder?
    ensures LeftBy(After(pin, start, events).log[..k], After(pin, start, events).log[k].targetId).None?
  {
    ConsistentAlways(pin, start, events);
    assert SoundChange(After(pin, start, events).log[..k], After(pin, start, events).log[k]);
  }

  /** Between two creates of one target that took effect, under one key or two, the target was deleted. */
  lemma SecondCreateNeedsDelete(pin: Pin, start: Server, events: seq<Event>, i: nat, j: nat) returns (k: nat)
    requires Consistent(start)
    requires var log := After(pin, start, events).log;
      && i < j < |log| && log[i].targetId == log[j].targetId
      && log[i].author.CreatedUnder? && log[j].author.CreatedUnder?
    ensures var log := After(pin, start, events).log;
      i < k < j && log[k].targetId == log[i].targetId && log[k].after.None?
  {
    ConsistentAlways(pin, start, events);
    var log := After(pin, start, events).log;
    assert SoundChange(log[..i], log[i]) && SoundChange(log[..j], log[j]);
    k := AbsenceNeedsRemoval(log[..j], i, log[i].targetId);
  }

  lemma NamedVersionIsLast(log: seq<Change>, j: nat)
    requires SoundLog(log) && j < |log| && log[j].author.DeletedNaming?
    ensures var revision := log[j].author.revision;
      && revision < j && log[revision].targetId == log[j].targetId && log[revision].after == log[j].before
      && forall k | revision < k < j :: log[k].targetId != log[j].targetId
  {
    var earlier := log[..j];
    assert SoundChange(earlier, log[j]);
    SoundPrefix(log, j);
    StampNamesChange(earlier, log[j].targetId);
    assert forall k | 0 <= k < j :: earlier[k] == log[k];
  }

  /**
   An effective delete removes the version it names and nothing else: the
   deleted document is the one written at that time, untouched since.
   */
  lemma DeleteRemovesNamedVersion(pin: Pin, start: Server, events: seq<Event>, j: nat)
    requires Consistent(start)
    requires j < |After(pin, start, events).log| && After(pin, start, events).log[j].author.DeletedNaming?
    ensures var log := After(pin, start, events).log;
      var revision := log[j].author.revision;
      && revision < j && log[revision].targetId == log[j].targetId && log[revision].after == log[j].before
      && forall k | revision < k < j :: log[k].targetId != log[j].targetId
  {
    ConsistentAlways(pin, start, events);
    NamedVersionIsLast(After(pin, start, events).log, j);
  }

  /** A compensation that took effect was asked for exactly the version it removed. */
  lemma CompensationNamesVersion(pin: Pin, s: Server, c: CompensateRequest, d: Delivery)
    ensures var (after, r) := Compensated(pin, s, c, d);
      && (after != s ==>
            c.targetId in s.docs && c.expectedRevision == At(s.docs[c.targetId].updateTime)
            && after == Removed(s, c.targetId, DeletedNaming(s.docs[c.targetId].updateTime)))
      && (r == Ok(true) ==> after != s)
      && (r.Ok? ==> c.targetId !in after.docs)
      && (r.Err? && r.error != CompensationOutcomeUnknown ==> after == s)
  {
  }

  // ---------------------------------------------------------------------
  // Recovery
  // ---------------------------------------------------------------------

  lemma LandedDocument(s: Server, after: Server, q: CreateRequest)
    requires Consistent(after) && CreateTookEffect(s, after, q)
    ensures DocumentAt(after, q.targetId) == Some(Document(|after.log| - 1, StoredFields(q)))
  {
  }

  /**
   A create whose answer was lost is found by reading the exact document, as
   the very action the answer would have reported, while the document stands.
   */
  lemma LostCreateIsFound(pin: Pin, s: Server, q: CreateRequest, w: ApplyWeather, later: Server)
    requires Consistent(s) && CreateTookEffect(s, Applied(pin, s, q, w).0, q)
    requires DocumentAt(later, q.targetId) == DocumentAt(Applied(pin, s, q, w).0, q.targetId)
    ensures ActionRead(pin, later, q.idempotencyKey, Some(q.targetId), Answered)
            == Ok(Some(ActionAt(q, |Applied(pin, s, q, w).0.log| - 1)))
  {
    AnswerTellsEffect(pin, s, q, w);
    EffectWasAdmitted(pin, s, q, w);
    StoredProvenance(q);
    LandedDocument(s, Applied(pin, s, q, w).0, q);
  }

  /**
   Once a create has landed, applying the same request again reports that
   create exactly as long as nobody has changed the document since.
   */
  lemma ReplayReportsOriginalIffUntouched(pin: Pin, s: Server, q: CreateRequest, w: ApplyWeather, i: nat)
    requires Consistent(s) && i < |s.log|
    requires s.log[i].author == CreatedUnder(q.idempotencyKey) && s.log[i].targetId == q.targetId
    requires Refusal(q).None? && Reach(pin, q.targetId).None? && w.read == Answered
    ensures Applied(pin, s, q, w) == (s, Ok(ApplyResult(false, ActionAt(q, i)))) <==>
      forall k | i < k < |s.log| :: s.log[k].targetId != q.targetId
  {
    assert SoundChange(s.log[..i], s.log[i]);
    assert DocumentAt(s, q.targetId) == LeftBy(s.log, q.targetId);
    if forall k | i < k < |s.log| :: s.log[k].targetId != q.targetId {
      LeftUntilChanged(s.log, i);
    }
    if LeftBy(s.log, q.targetId).Some? {
      StampNamesChange(s.log, q.targetId);
    }
  }

  function SampleTarget(): Target {
    Target("p", "d", "c", "x")
  }

  /** A plain request to create the sample document. */
  function SampleCreate(): CreateRequest {
    var t := TargetIdOf(SampleTarget());
    CreateRequest(CREATE_CAPABILITY, t, AbsentState(t), [Field("probeId", Number(1.0))], "h", "k")
  }

  lemma SampleIsAdmitted()
    ensures Reach(Pin("p", "d", "c"), SampleCreate().targetId).None? && Refusal(SampleCreate()).None?
  {
    TargetRoundTrip(SampleCreate().targetId, SampleTarget());
  }

  /** The create has landed, and another writer has then changed the document, keeping its provenance. */
  function TouchedServer(q: CreateRequest): Server {
    var landed := Written(Server(map[], []), q.targetId, CreatedUnder(q.idempotencyKey), StoredFields(q));
    Written(landed, q.targetId, OtherWriter, StoredFields(q))
  }

  lemma TouchedIsConsistent(q: CreateRequest)
    ensures Consistent(TouchedServer(q))
    ensures DocumentAt(TouchedServer(q), q.targetId) == Some(Document(1, StoredFields(q)))
  {
    StoredProvenance(q);
    var empty := Server(map[], []);
    WrittenIsConsistent(empty, q.targetId, CreatedUnder(q.idempotencyKey), StoredFields(q));
    WrittenIsConsistent(Written(empty, q.targetId, CreatedUnder(q.idempotencyKey), StoredFields(q)),
                        q.targetId, OtherWriter, StoredFields(q));
  }

  /** The same request then reports that later version, 1, as its own outcome; its create left version 0. */
  lemma TouchedReplayReportsLater(between: seq<OtherMove>)
    ensures var q := SampleCreate();
      && Consistent(TouchedServer(q)) && TouchedServer(q).log[0].author == CreatedUnder(q.idempotencyKey)
      && Applied(Pin("p", "d", "c"), TouchedServer(q), q, ApplyWeather(Answered, between, Answered, false))
         == (TouchedServer(q), Ok(ApplyResult(false, ActionAt(q, 1))))
  {
    SampleIsAdmitted();
    TouchedIsConsistent(SampleCreate());
    StoredProvenance(SampleCreate());
  }

  // ---------------------------------------------------------------------
  // The connector
  // ---------------------------------------------------------------------

  /** The server as its clients see it; `Others` is everyone else. */
  class Remote {
    var server: Server

    constructor ()
      ensures server == Server(map[], [])
    {
      server := Server(map[], []);
    }

    method Get(targetId: string, d: Delivery) returns (status: nat, found: Option<Document>)
      ensures status == match d
        case Unauthorized => FORBIDDEN
        case Lost(_, s) => s
        case Answered => if targetId in server.docs then OK else NOT_FOUND
      ensures status == OK ==> found == DocumentAt(server, targetId) && found.Some?
    {
      match d
      case Unauthorized => return FORBIDDEN, None;
      case Lost(_, s) => return s, None;
      case Answered =>
        found := DocumentAt(server, targetId);
        status := if found.Some? then OK else NOT_FOUND;
    }

    method Patch(targetId: string, key: string, fields: FieldMap, d: Delivery) returns (status: nat)
      modifies this
      ensures (server, status) == Delivered(old(server), Create(old(server), targetId, key, fields), d)
    {
      var (after, answered) := Delivered(server, Create(server, targetId, key, fields), d);
      server := after;
      return answered;
    }

    method DeleteVersion(targetId: string, revision: Revision, d: Delivery) returns (status: nat)
      modifies this
      ensures (server, status) == Delivered(old(server), Delete(old(server), targetId, revision), d)
    {
      var (after, answered) := Delivered(server, Delete(server, targetId, revision), d);
      server := after;
      return answered;
    }

    method Others(moves: seq<OtherMove>)
      modifies this
      ensures server == MeddledAll(old(server), moves)
    {
      for i := 0 to |moves|
        invariant server == MeddledAll(old(server), moves[..i])
      {
        assert moves[..i + 1][..i] == moves[..i];
        server := Meddled(server, moves[i]);
      }
      assert moves[..|moves|] == moves;
    }
  }

  class FirestoreDocumentConnector {
    const pin: Pin
    const remote: Remote
    var writes: nat
    var compensations: nat
    var replays: nat

    constructor (pin: Pin, remote: Remote)
      ensures this.pin == pin && this.remote == remote
      ensures writes == compensations == replays == 0
    {
      this.pin, this.remote := pin, remote;
      writes, compensations, replays := 0, 0, 0;
    }

    method Read(targetId: string, d: Delivery) returns (r: Result<Option<Document>, ConnectorError>)
      ensures r == ReadDocument(pin, remote.server, targetId, d)
    {
      var forbidden := Reach(pin, targetId);
      if forbidden.Some? {
        return Err(forbidden.value);
      }
      var status, found := remote.Get(targetId, d);
      if status == NOT_FOUND {
        return Ok(None);
      }
      if status == FORBIDDEN {
        return Err(AuthorityInsufficient);
      }
      if status != OK {
        return Err(ReadUnavailable);
      }
      return Ok(found);
    }

    method ReadAction(key: string, requested: Option<string>, d: Delivery)
      returns (r: Result<Option<AppliedAction>, ConnectorError>)
      ensures r == ActionRead(pin, remote.server, key, requested, d)
    {
      var targetId := if requested.Some? then requested.value else TargetInKey(key);
      if targetId == "" {
        return Err(ReconciliationTargetRequired);
      }
      var read := Read(targetId, d);
      if read.Err? {
        return Err(read.error);
      }
      if read.value.None? {
        return Ok(None);
      }
      var record := read.value.value;
      if TextOf(record.fields, KEY_FIELD) != Some(key) {
        return Err(TargetConflict);
      }
      return Ok(Some(AppliedAction(
        key, targetId, TextOf(record.fields, HASH_FIELD), AbsentState(targetId), record.updateTime)));
    }

    method Apply(q: CreateRequest, w: ApplyWeather) returns (r: Result<ApplyResult, ConnectorError>)
      modifies this, remote
      ensures (remote.server, r) == Applied(pin, old(remote.server), q, w)
      ensures writes == old(writes) +
        (if (r.Ok? && r.value.performedWrite) || r == Err(Interrupted) then 1 else 0)
      ensures replays == old(replays) + (if r.Ok? && !r.value.performedWrite then 1 else 0)
      ensures compensations == old(compensations)
    {
      if q.capability != CREATE_CAPABILITY {
        return Err(CapabilityUnknown);
      }
      if exists f | f in q.writePayload :: f.name !in WRITABLE_FIELDS {
        return Err(FieldNotWritable);
      }
      if q.expectedPreState != AbsentState(q.targetId) {
        return Err(PreStateMismatch);
      }
      var read := Read(q.targetId, w.read);
      if read.Err? {
        return Err(read.error);
      }
      if read.value.Some? {
        var existing := read.value.value;
        if TextOf(existing.fields, KEY_FIELD) != Some(q.idempotencyKey) {
          return Err(TargetConflict);
        }
        replays := replays + 1;
        return Ok(ApplyResult(false, ActionAt(q, existing.updateTime)));
      }
      remote.Others(w.between);
      var revision := |remote.server.log|;
      var status := remote.Patch(q.targetId, q.idempotencyKey, StoredFields(q), w.create);
      if status == CONFLICT || status == BAD_REQUEST {
        return Err(PreStateMismatch);
      }
      if status == FORBIDDEN {
        return Err(AuthorityInsufficient);
      }
      if status != OK {
        return Err(WriteOutcomeUnknown);
      }
      writes := writes + 1;
      if w.interrupted {
        return Err(Interrupted);
      }
      return Ok(ApplyResult(true, ActionAt(q, revision)));
    }

    /** Deletes under the exact revision; true when it did, false when nothing was there. */
    method Compensate(c: CompensateRequest, d: Delivery) returns (r: Result<bool, ConnectorError>)
      modifies this, remote
      ensures (remote.server, r) == Compensated(pin, old(remote.server), c, d)
      ensures compensations == old(compensations) + (if r == Ok(true) then 1 else 0)
      ensures replays == old(replays) + (if r == Ok(false) then 1 else 0)
      ensures writes == old(writes)
    {
      if c.capability != DELETE_CAPABILITY {
        return Err(CapabilityUnknown);
      }
      if c.expectedRevision == Blank {
        return Err(CompensationRevisionRequired);
      }
      var forbidden := Reach(pin, c.targetId);
      if forbidden.Some? {
        return Err(forbidden.value);
      }
      var status := remote.DeleteVersion(c.targetId, c.expectedRevision, d);
      if status == NOT_FOUND {
        replays := replays + 1;
        return Ok(false);
      }
      if status == BAD_REQUEST || status == CONFLICT {
        return Err(CompensationPreconditionFailed);
      }
      if status == FORBIDDEN {
        return Err(AuthorityInsufficient);
      }
      if status != OK {
        return Err(CompensationOutcomeUnknown);
      }
      compensations := compensations + 1;
      return Ok(true);
    }
  }
}

/**
 Late App Server responses (src/appServerLateResponses.ts): how an untrusted response
 becomes a record, how the ledger is written to its metadata cell, and the validating
 readers that load it back.
 */
module LateResponses {
  import opened Utf16
  import opened Wrappers
  import opened Json
  import opened Arithmetic
  import opened Sorting
  import opened PropertyNames

  /** Number.MAX_SAFE_INTEGER, 2^53 - 1. */
  const MAX_SAFE_INTEGER: int := 0x1F_FFFF_FFFF_FFFF

  const MAX_RETAINED: int := 128

  datatype Outcome = Success | Error | Malformed

  datatype Reconciliation =
    | NotApplicable
    | IdentifierRecorded
    | AgentArchived
    | AgentRestored
    | AlreadyConsistent
    | ThreadUntracked
    | StateConflict
    | MalformedResponse

  /** A record without its reconciliation. */
  datatype Interpretation = Interpretation(
    requestId: int,
    protocolMethod: Text,
    outcome: Outcome,
    timedOutAt: int,
    receivedAt: int,
    latencyAfterTimeoutMs: int,
    workerId: Text,
    workerGeneration: int,
    errorCode: Option<int>,
    threadId: Option<Text>,
    turnId: Option<Text>)

  datatype Record = Record(response: Interpretation, reconciliation: Reconciliation)

  datatype Totals = Totals(
    observed: int,
    success: int,
    error: int,
    malformed: int,
    identified: int,
    stateReconciled: int,
    stateConflicts: int,
    untracked: int,
    evicted: int)

  datatype State = State(totals: Totals, records: seq<Record>)

  datatype JournalError = InvalidRetention | InvalidNumber | InvalidJson | UnsupportedFormat | InvalidRecord

  /** What the wire layer hands over; every part is untrusted JSON data. */
  datatype LateResponse = LateResponse(
    requestId: Value,
    protocolMethod: Value,
    timedOutAt: Value,
    receivedAt: Value,
    workerId: Value,
    workerGeneration: Value,
    contextThreadId: Option<Value>,
    response: seq<Member>)

  // ------------------------------------------------------------- validators

  function Property(v: Option<Value>, key: Text): Option<Value> {
    if v.Some? && v.value.Obj? then Lookup(v.value.members, key) else None
  }

  predicate IsSafeInteger(n: int) { -MAX_SAFE_INTEGER <= n <= MAX_SAFE_INTEGER }

  function SafeInteger(v: Option<Value>): Result<int, JournalError> {
    if v.Some? && v.value.Num? && IsSafeInteger(v.value.number) then Ok(v.value.number) else Err(InvalidNumber)
  }

  function SafeNonNegativeInteger(v: Option<Value>): Result<int, JournalError> {
    match SafeInteger(v)
    case Err(e) => Err(e)
    case Ok(n) => if n < 0 then Err(InvalidNumber) else Ok(n)
  }

  predicate IsControl(c: CodeUnit) { c <= 0x1F || c == 0x7F }

  predicate HasControl(t: Text) { exists i :: 0 <= i < |t| && IsControl(t[i]) }

  function SafeIdentifier(v: Option<Value>): Option<Text> {
    if v.None? || !v.value.Str? then None
    else
      var identifier := Trim(v.value.text);
      if identifier == [] || |identifier| > 200 || HasControl(identifier) then None else Some(identifier)
  }

  /** `/^[a-z][a-zA-Z0-9/]*$/` */
  predicate IsMethodName(t: Text) {
    && t != [] && 0x61 <= t[0] <= 0x7A
    && forall i :: 1 <= i < |t| ==>
      0x61 <= t[i] <= 0x7A || 0x41 <= t[i] <= 0x5A || IsDigit(t[i]) || t[i] == 0x2F
  }

  function Unknown(): Text { Ascii("unknown") }

  function ProtocolMethod(v: Option<Value>): Text {
    if v.None? || !v.value.Str? || |v.value.text| > 120 || !IsMethodName(v.value.text) then Unknown()
    else v.value.text
  }

  function OrElse<T>(a: Option<T>, b: Option<T>): Option<T> { if a.Some? then a else b }

  // ---------------------------------------------------------- interpretation

  datatype Classified = Classified(outcome: Outcome, threadId: Option<Text>, turnId: Option<Text>)

  /**
   What identifies a successful response: the thread comes from the result for start
   and fork, from either side without disagreement for resume and unarchive, and from
   the request otherwise; a turn needs both ids.
   */
  function Identify(name: Text, context: Option<Text>, thread: Option<Text>, turn: Option<Text>): Classified {
    if name == Ascii("thread/start") || name == Ascii("thread/fork") then
      Classified(if thread.Some? then Success else Malformed, thread, None)
    else if name == Ascii("thread/resume") || name == Ascii("thread/unarchive") then
      if thread.Some? && context.Some? && thread != context then Classified(Malformed, None, None)
      else Classified(if thread.Some? || context.Some? then Success else Malformed, OrElse(thread, context), None)
    else if name == Ascii("thread/archive") then
      Classified(if context.Some? then Success else Malformed, context, None)
    else if name == Ascii("turn/start") then
      Classified(if context.Some? && turn.Some? then Success else Malformed, context, turn)
    else Classified(Success, context, None)
  }

  /** Exactly one of an error object and a result is a response. */
  function EnvelopeOutcome(hasError: bool, hasResult: bool, name: Text): Outcome {
    if hasError == hasResult then Malformed
    else if hasError then Error
    else if name == Unknown() then Malformed
    else Success
  }

  function ErrorObject(r: LateResponse): Option<Value> {
    var error := Lookup(r.response, Ascii("error"));
    if error.Some? && error.value.Obj? then error else None
  }

  function Classify(r: LateResponse): Classified {
    var name := ProtocolMethod(Some(r.protocolMethod));
    var result := Lookup(r.response, Ascii("result"));
    var context := SafeIdentifier(r.contextThreadId);
    var outcome := EnvelopeOutcome(ErrorObject(r).Some?, result.Some?, name);
    if outcome != Success then Classified(outcome, context, None)
    else
      Identify(
        name, context,
        SafeIdentifier(Property(Property(result, Ascii("thread")), Ascii("id"))),
        OrElse(
          SafeIdentifier(Property(Property(result, Ascii("turn")), Ascii("id"))),
          SafeIdentifier(Property(result, Ascii("turnId")))))
  }

  function ErrorCode(r: LateResponse): Option<int> {
    match SafeInteger(Property(ErrorObject(r), Ascii("code")))
    case Ok(n) => Some(n)
    case Err(_) => None
  }

  predicate NumbersAreSafe(r: LateResponse) {
    && SafeNonNegativeInteger(Some(r.requestId)).Ok?
    && SafeNonNegativeInteger(Some(r.timedOutAt)).Ok?
    && SafeNonNegativeInteger(Some(r.receivedAt)).Ok?
    && SafeNonNegativeInteger(Some(r.workerGeneration)).Ok?
  }

  function Interpret(r: LateResponse): Result<Interpretation, JournalError> {
    if !NumbersAreSafe(r) then Err(InvalidNumber)
    else
      var c := Classify(r);
      var worker := SafeIdentifier(Some(r.workerId));
      Ok(Interpretation(
           r.requestId.number,
           ProtocolMethod(Some(r.protocolMethod)),
           c.outcome,
           r.timedOutAt.number,
           r.receivedAt.number,
           Max(0, r.receivedAt.number - r.timedOutAt.number),
           if worker.Some? then worker.value else Unknown(),
           r.workerGeneration.number,
           ErrorCode(r),
           c.threadId,
           c.turnId))
  }

  /** interpretLateResponse, with the locals it reassigns through its branches. */
  method InterpretLateResponse(r: LateResponse) returns (interpreted: Result<Interpretation, JournalError>)
    ensures interpreted == Interpret(r)
  {
    var responseError := ErrorObject(r);
    var hasError := responseError.Some?;
    var resultValue := Lookup(r.response, Ascii("result"));
    var name := ProtocolMethod(Some(r.protocolMethod));
    var outcome := Success;
    if hasError == resultValue.Some? {
      outcome := Malformed;
    } else if hasError {
      outcome := Error;
    } else if name == Unknown() {
      outcome := Malformed;
    }
    var contextThreadId := SafeIdentifier(r.contextThreadId);
    var resultThreadId := SafeIdentifier(Property(Property(resultValue, Ascii("thread")), Ascii("id")));
    var resultTurnId := SafeIdentifier(Property(Property(resultValue, Ascii("turn")), Ascii("id")));
    if resultTurnId.None? {
      resultTurnId := SafeIdentifier(Property(resultValue, Ascii("turnId")));
    }
    var threadId := contextThreadId;
    var turnId: Option<Text> := None;
    if outcome == Success {
      if name == Ascii("thread/start") || name == Ascii("thread/fork") {
        threadId := resultThreadId;
        if threadId.None? {
          outcome := Malformed;
        }
      } else if name == Ascii("thread/resume") || name == Ascii("thread/unarchive") {
        if resultThreadId.Some? && contextThreadId.Some? && resultThreadId != contextThreadId {
          threadId := None;
          outcome := Malformed;
        } else {
          threadId := OrElse(resultThreadId, contextThreadId);
          if threadId.None? {
            outcome := Malformed;
          }
        }
      } else if name == Ascii("thread/archive") {
        if threadId.None? {
          outcome := Malformed;
        }
      } else if name == Ascii("turn/start") {
        turnId := resultTurnId;
        if threadId.None? || turnId.None? {
          outcome := Malformed;
        }
      }
    }
    if !NumbersAreSafe(r) {
      return Err(InvalidNumber);
    }
    var worker := SafeIdentifier(Some(r.workerId));
    return Ok(Interpretation(
                r.requestId.number, name, outcome, r.timedOutAt.number, r.receivedAt.number,
                Max(0, r.receivedAt.number - r.timedOutAt.number),
                if worker.Some? then worker.value else Unknown(),
                r.workerGeneration.number, ErrorCode(r), threadId, turnId));
  }

  /** The thread requests of which a late success is kept with its thread id. */
  predicate IsThreadRequest(name: Text) {
    || name == Ascii("thread/start") || name == Ascii("thread/fork") || name == Ascii("thread/resume")
    || name == Ascii("thread/archive") || name == Ascii("thread/unarchive")
  }

  lemma TurnStartIsNoThreadRequest()
    ensures !IsThreadRequest(Ascii("turn/start"))
    ensures !IsThreadRequest(Unknown())
  {
    assert Ascii("turn/start")[1] == 0x75;
    assert Ascii("thread/fork")[1] == 0x68;
    assert |Ascii("turn/start")| == 10;
    assert Unknown()[0] == 0x75 && Ascii("thread/start")[0] == 0x74;
  }

  /** A late success names the thread, and for turn/start also the turn. */
  lemma SuccessIsIdentified(r: LateResponse)
    requires Interpret(r).Ok? && Interpret(r).value.outcome == Success
    ensures IsThreadRequest(Interpret(r).value.protocolMethod) ==> Interpret(r).value.threadId.Some?
    ensures Interpret(r).value.protocolMethod == Ascii("turn/start") ==>
              Interpret(r).value.threadId.Some? && Interpret(r).value.turnId.Some?
    ensures Interpret(r).value.protocolMethod != Unknown()
  {
    TurnStartIsNoThreadRequest();
  }

  function ContextThread(r: LateResponse): Option<Text> { SafeIdentifier(r.contextThreadId) }

  function ResultThread(r: LateResponse): Option<Text> {
    SafeIdentifier(Property(Property(Lookup(r.response, Ascii("result")), Ascii("thread")), Ascii("id")))
  }

  predicate CreatesThread(name: Text) { name == Ascii("thread/start") || name == Ascii("thread/fork") }

  predicate ReopensThread(name: Text) { name == Ascii("thread/resume") || name == Ascii("thread/unarchive") }

  lemma FamiliesDisjoint(name: Text)
    ensures CreatesThread(name) ==> !ReopensThread(name) && name != Ascii("thread/archive") && name != Ascii("turn/start")
    ensures ReopensThread(name) ==> name != Ascii("thread/archive") && name != Ascii("turn/start")
    ensures Ascii("thread/archive") != Ascii("turn/start")
  {
    assert |Ascii("thread/start")| == 12 && |Ascii("thread/fork")| == 11;
    assert |Ascii("thread/resume")| == 13 && |Ascii("thread/unarchive")| == 16;
    assert |Ascii("thread/archive")| == 14 && |Ascii("turn/start")| == 10;
  }

  /**
   Where the thread id of a success comes from: the result for a created thread; for a
   reopened one every side that names it, which must not disagree; the request for all
   other requests. A turn id is kept for turn/start alone.
   */
  lemma SuccessNamesItsSources(r: LateResponse)
    requires Interpret(r).Ok? && Interpret(r).value.outcome == Success
    ensures
      var i := Interpret(r).value;
      && (CreatesThread(i.protocolMethod) ==> i.threadId == ResultThread(r))
      && (ReopensThread(i.protocolMethod) ==>
            && (ContextThread(r).Some? ==> i.threadId == ContextThread(r))
            && (ResultThread(r).Some? ==> i.threadId == ResultThread(r)))
      && (!CreatesThread(i.protocolMethod) && !ReopensThread(i.protocolMethod) ==> i.threadId == ContextThread(r))
      && (i.turnId.Some? ==> i.protocolMethod == Ascii("turn/start"))
  {
    FamiliesDisjoint(Interpret(r).value.protocolMethod);
  }

  /** An error keeps the request's thread id, never a turn id, and comes with an error object and no result. */
  lemma ErrorKeepsContext(r: LateResponse)
    requires Interpret(r).Ok? && Interpret(r).value.outcome == Error
    ensures Interpret(r).value.threadId == ContextThread(r) && Interpret(r).value.turnId == None
    ensures ErrorObject(r).Some? && Lookup(r.response, Ascii("result")) == None
  {
  }

  function ResultTurn(r: LateResponse): Option<Text> {
    var result := Lookup(r.response, Ascii("result"));
    OrElse(
      SafeIdentifier(Property(Property(result, Ascii("turn")), Ascii("id"))),
      SafeIdentifier(Property(result, Ascii("turnId"))))
  }

  predicate HasErrorObject(r: LateResponse) {
    var error := Lookup(r.response, Ascii("error"));
    error.Some? && error.value.Obj?
  }

  predicate HasResult(r: LateResponse) { Lookup(r.response, Ascii("result")).Some? }

  /** A method name of the protocol that is not too long; every other method is unknown. */
  predicate KnownMethod(v: Value) {
    v.Str? && |v.text| <= 120 && IsMethodName(v.text) && v.text != Ascii("unknown")
  }

  /** The ids that a response to this method must come with. */
  predicate BringsIds(r: LateResponse, name: Text) {
    && (CreatesThread(name) ==> ResultThread(r).Some?)
    && (ReopensThread(name) ==>
          && (ResultThread(r).Some? || ContextThread(r).Some?)
          && (ResultThread(r).Some? && ContextThread(r).Some? ==> ResultThread(r) == ContextThread(r)))
    && (name == Ascii("thread/archive") ==> ContextThread(r).Some?)
    && (name == Ascii("turn/start") ==> ContextThread(r).Some? && ResultTurn(r).Some?)
  }

  /** Exactly when a late response is a success, an error or neither, told from the response itself. */
  lemma OutcomeIs(r: LateResponse)
    requires Interpret(r).Ok?
    ensures Interpret(r).value.outcome == Success <==>
      !HasErrorObject(r) && HasResult(r) && KnownMethod(r.protocolMethod) && BringsIds(r, r.protocolMethod.text)
    ensures Interpret(r).value.outcome == Error <==> HasErrorObject(r) && !HasResult(r)
  {
    var name := ProtocolMethod(Some(r.protocolMethod));
    FamiliesDisjoint(name);
    TurnStartIsNoThreadRequest();
    IdentifySucceeds(name, ContextThread(r), ResultThread(r), ResultTurn(r));
  }

  lemma IdentifySucceeds(name: Text, context: Option<Text>, thread: Option<Text>, turn: Option<Text>)
    ensures Identify(name, context, thread, turn).outcome == Success <==>
      && (CreatesThread(name) ==> thread.Some?)
      && (ReopensThread(name) ==> (thread.Some? || context.Some?) && (thread.Some? && context.Some? ==> thread == context))
      && (name == Ascii("thread/archive") ==> context.Some?)
      && (name == Ascii("turn/start") ==> context.Some? && turn.Some?)
    ensures Identify(name, context, thread, turn).outcome != Error
  {
    FamiliesDisjoint(name);
  }

  /** Which ids are recorded: of a success its own, and of a malformed one what is left of them. */
  lemma IdsAre(r: LateResponse)
    requires Interpret(r).Ok?
    ensures
      var i, name := Interpret(r).value, r.protocolMethod;
      var envelope := !HasErrorObject(r) && HasResult(r) && KnownMethod(name);
      && (envelope && CreatesThread(name.text) ==> i.threadId == ResultThread(r))
      && (envelope && ReopensThread(name.text) ==>
            i.threadId == if ResultThread(r).Some? && ContextThread(r).Some? && ResultThread(r) != ContextThread(r) then None
                          else if ResultThread(r).Some? then ResultThread(r) else ContextThread(r))
      && (!(envelope && (CreatesThread(name.text) || ReopensThread(name.text))) ==> i.threadId == ContextThread(r))
      && i.turnId == if envelope && name.text == Ascii("turn/start") then ResultTurn(r) else None
  {
    var name := ProtocolMethod(Some(r.protocolMethod));
    FamiliesDisjoint(name);
    TurnStartIsNoThreadRequest();
  }

  predicate IsSafeCount(v: Value) { v.Num? && 0 <= v.number <= 9007199254740991 }

  /** Every other field comes from the field of its name; unsafe numbers are refused. */
  lemma FieldsAre(r: LateResponse)
    ensures Interpret(r).Ok? <==>
      IsSafeCount(r.requestId) && IsSafeCount(r.timedOutAt) && IsSafeCount(r.receivedAt) && IsSafeCount(r.workerGeneration)
    ensures Interpret(r).Err? ==> Interpret(r).error == InvalidNumber
    ensures Interpret(r).Ok? ==>
      var i := Interpret(r).value;
      && Num(i.requestId) == r.requestId && Num(i.workerGeneration) == r.workerGeneration
      && Num(i.timedOutAt) == r.timedOutAt && Num(i.receivedAt) == r.receivedAt
      && i.latencyAfterTimeoutMs == (if i.receivedAt < i.timedOutAt then 0 else i.receivedAt - i.timedOutAt)
      && i.protocolMethod == (if KnownMethod(r.protocolMethod) then r.protocolMethod.text else Ascii("unknown"))
      && Some(i.workerId) == OrElse(SafeIdentifier(Some(r.workerId)), Some(Ascii("unknown")))
    ensures Interpret(r).Ok? ==> ErrorCodeIs(r, Interpret(r).value.errorCode)
  {
  }

  /** The code of the error object, when it is a safe integer. */
  predicate ErrorCodeIs(r: LateResponse, errorCode: Option<int>) {
    var code := Property(Lookup(r.response, Ascii("error")), Ascii("code"));
    errorCode == if code.Some? && code.value.Num? && -9007199254740991 <= code.value.number <= 9007199254740991
                 then Some(code.value.number) else None
  }

  predicate Between(c: CodeUnit, low: char, high: char) { low as int <= c <= high as int }

  /** A method name starts with a lower-case letter and goes on with letters, digits and slashes. */
  lemma MethodNameIs(t: Text)
    ensures IsMethodName(t) <==>
      && t != [] && Between(t[0], 'a', 'z')
      && forall i :: 1 <= i < |t| ==>
        Between(t[i], 'a', 'z') || Between(t[i], 'A', 'Z') || Between(t[i], '0', '9') || Between(t[i], '/', '/')
  {
    assert 'a' as int == 0x61 && 'z' as int == 0x7A && 'A' as int == 0x41 && 'Z' as int == 0x5A;
    assert '0' as int == ZERO && '9' as int == NINE && '/' as int == 0x2F;
  }

  /** Which texts are identifiers: trimmed of white space, not empty, at most 200 units, no control character. */
  lemma SafeIdentifierIs(v: Option<Value>)
    ensures SafeIdentifier(v).Some? <==>
      v.Some? && v.value.Str? && 0 < |Trim(v.value.text)| <= 200 &&
      forall i :: 0 <= i < |Trim(v.value.text)| ==> Trim(v.value.text)[i] > 0x1F && Trim(v.value.text)[i] != 0x7F
    ensures SafeIdentifier(v).Some? ==> SafeIdentifier(v).value == Trim(v.value.text)
  {
    if v.Some? && v.value.Str? && HasControl(Trim(v.value.text)) {
      var i :| 0 <= i < |Trim(v.value.text)| && IsControl(Trim(v.value.text)[i]);
    }
  }

  // ------------------------------------------------------------ writing JSON

  function OutcomeName(o: Outcome): Text {
    match o
    case Success => Ascii("success")
    case Error => Ascii("error")
    case Malformed => Ascii("malformed")
  }

  function ReconciliationName(r: Reconciliation): Text {
    match r
    case NotApplicable => Ascii("not-applicable")
    case IdentifierRecorded => Ascii("identifier-recorded")
    case AgentArchived => Ascii("agent-archived")
    case AgentRestored => Ascii("agent-restored")
    case AlreadyConsistent => Ascii("already-consistent")
    case ThreadUntracked => Ascii("thread-untracked")
    case StateConflict => Ascii("state-conflict")
    case MalformedResponse => Ascii("malformed")
  }

  /** A named property that may be absent. */
  datatype Slot = Slot(name: string, value: Option<Value>)

  /** The members that JSON.stringify prints: absent properties are omitted. */
  function Present(slots: seq<Slot>): seq<Member> {
    if slots == [] then []
    else (if slots[0].value.Some? then [Member(Ascii(slots[0].name), slots[0].value.value)] else []) + Present(slots[1..])
  }

  function OptionalNumber(n: Option<int>): Option<Value> {
    match n
    case None => None
    case Some(k) => Some(Num(k))
  }

  function OptionalText(t: Option<Text>): Option<Value> {
    match t
    case None => None
    case Some(s) => Some(Str(s))
  }

  function RecordSlots(r: Record): seq<Slot> {
    [ Slot("requestId", Some(Num(r.response.requestId))),
      Slot("method", Some(Str(r.response.protocolMethod))),
      Slot("outcome", Some(Str(OutcomeName(r.response.outcome)))),
      Slot("timedOutAt", Some(Num(r.response.timedOutAt))),
      Slot("receivedAt", Some(Num(r.response.receivedAt))),
      Slot("latencyAfterTimeoutMs", Some(Num(r.response.latencyAfterTimeoutMs))),
      Slot("workerId", Some(Str(r.response.workerId))),
      Slot("workerGeneration", Some(Num(r.response.workerGeneration))),
      Slot("errorCode", OptionalNumber(r.response.errorCode)),
      Slot("threadId", OptionalText(r.response.threadId)),
      Slot("turnId", OptionalText(r.response.turnId)),
      Slot("reconciliation", Some(Str(ReconciliationName(r.reconciliation)))) ]
  }

  function TotalsSlots(t: Totals): seq<Slot> {
    [ Slot("observed", Some(Num(t.observed))),
      Slot("success", Some(Num(t.success))),
      Slot("error", Some(Num(t.error))),
      Slot("malformed", Some(Num(t.malformed))),
      Slot("identified", Some(Num(t.identified))),
      Slot("stateReconciled", Some(Num(t.stateReconciled))),
      Slot("stateConflicts", Some(Num(t.stateConflicts))),
      Slot("untracked", Some(Num(t.untracked))),
      Slot("evicted", Some(Num(t.evicted))) ]
  }

  function StateSlots(s: State): seq<Slot> {
    [ Slot("version", Some(Num(1))),
      Slot("totals", Some(Obj(Present(TotalsSlots(s.totals))))),
      Slot("records", Some(Arr(EncodeRecords(s.records)))) ]
  }

  function EncodeRecord(r: Record): Value { Obj(Present(RecordSlots(r))) }

  function EncodeRecords(records: seq<Record>): (r: seq<Value>)
    ensures |r| == |records|
    ensures forall i :: 0 <= i < |records| ==> r[i] == EncodeRecord(records[i])
  {
    if records == [] then [] else [EncodeRecord(records[0])] + EncodeRecords(records[1..])
  }

  function EncodeState(s: State): Value { Obj(Present(StateSlots(s))) }

  /** saveState: the text stored under the metadata key. */
  function Save(s: State): Text { Stringify(EncodeState(s)) }

  // ------------------------------------------------------------ reading JSON

  /** assertJsonTextIntegrity: no string or key holds an unpaired surrogate. */
  predicate TextIntegrity(v: Value) {
    match v
    case Str(s) => WellFormed(s)
    case Arr(items) => forall item :: item in items ==> TextIntegrity(item)
    case Obj(members) => forall m :: m in members ==> WellFormed(m.key) && TextIntegrity(m.value)
    case _ => true
  }

  /** parseJsonTextStrict. */
  function ParseStrict(raw: Text): Option<Value> {
    if !WellFormed(raw) then None
    else
      match Parse(raw)
      case None => None
      case Some(v) => if TextIntegrity(v) then Some(v) else None
  }

  function RequiredIdentifier(v: Option<Value>): Result<Text, JournalError> {
    match SafeIdentifier(v)
    case None => Err(InvalidRecord)
    case Some(identifier) => Ok(identifier)
  }

  /** An identifier that may be absent, but not present and invalid. */
  function OptionalIdentifier(v: Option<Value>): Result<Option<Text>, JournalError> {
    if v.None? then Ok(None)
    else
      match RequiredIdentifier(v)
      case Err(e) => Err(e)
      case Ok(identifier) => Ok(Some(identifier))
  }

  function OptionalInteger(v: Option<Value>): Result<Option<int>, JournalError> {
    if v.None? then Ok(None)
    else
      match SafeInteger(v)
      case Err(e) => Err(e)
      case Ok(n) => Ok(Some(n))
  }

  function ReadOutcome(v: Option<Value>): Option<Outcome> {
    if v == Some(Str(OutcomeName(Success))) then Some(Success)
    else if v == Some(Str(OutcomeName(Error))) then Some(Error)
    else if v == Some(Str(OutcomeName(Malformed))) then Some(Malformed)
    else None
  }

  function ReadReconciliation(v: Option<Value>): Option<Reconciliation> {
    if v == Some(Str(ReconciliationName(NotApplicable))) then Some(NotApplicable)
    else if v == Some(Str(ReconciliationName(IdentifierRecorded))) then Some(IdentifierRecorded)
    else if v == Some(Str(ReconciliationName(AgentArchived))) then Some(AgentArchived)
    else if v == Some(Str(ReconciliationName(AgentRestored))) then Some(AgentRestored)
    else if v == Some(Str(ReconciliationName(AlreadyConsistent))) then Some(AlreadyConsistent)
    else if v == Some(Str(ReconciliationName(ThreadUntracked))) then Some(ThreadUntracked)
    else if v == Some(Str(ReconciliationName(StateConflict))) then Some(StateConflict)
    else if v == Some(Str(ReconciliationName(MalformedResponse))) then Some(MalformedResponse)
    else None
  }

  /** The properties of a stored record, each possibly undefined. */
  datatype StoredRecord = StoredRecord(
    requestId: Option<Value>,
    protocolMethod: Option<Value>,
    outcome: Option<Value>,
    timedOutAt: Option<Value>,
    receivedAt: Option<Value>,
    workerId: Option<Value>,
    workerGeneration: Option<Value>,
    errorCode: Option<Value>,
    threadId: Option<Value>,
    turnId: Option<Value>,
    reconciliation: Option<Value>)

  function StoredProperties(m: seq<Member>): StoredRecord {
    StoredRecord(
      Lookup(m, Ascii("requestId")), Lookup(m, Ascii("method")), Lookup(m, Ascii("outcome")),
      Lookup(m, Ascii("timedOutAt")), Lookup(m, Ascii("receivedAt")), Lookup(m, Ascii("workerId")),
      Lookup(m, Ascii("workerGeneration")), Lookup(m, Ascii("errorCode")), Lookup(m, Ascii("threadId")),
      Lookup(m, Ascii("turnId")), Lookup(m, Ascii("reconciliation")))
  }

  /** readRecord: every field is validated; the latency is recomputed. */
  function ReadRecord(v: Value): Result<Record, JournalError> {
    if v.Obj? then ReadStored(StoredProperties(v.members)) else Err(InvalidRecord)
  }

  function ReadStored(s: StoredRecord): Result<Record, JournalError> {
    var outcome := ReadOutcome(s.outcome);
    var reconciliation := ReadReconciliation(s.reconciliation);
    var timedOutAt := SafeNonNegativeInteger(s.timedOutAt);
    var receivedAt := SafeNonNegativeInteger(s.receivedAt);
    var errorCode := OptionalInteger(s.errorCode);
    var threadId := OptionalIdentifier(s.threadId);
    var turnId := OptionalIdentifier(s.turnId);
    var requestId := SafeNonNegativeInteger(s.requestId);
    var workerId := RequiredIdentifier(s.workerId);
    var workerGeneration := SafeNonNegativeInteger(s.workerGeneration);
    if outcome.None? || reconciliation.None? then Err(InvalidRecord)
    else if timedOutAt.Err? || receivedAt.Err? || errorCode.Err? then Err(InvalidNumber)
    else if threadId.Err? || turnId.Err? then Err(InvalidRecord)
    else if requestId.Err? then Err(InvalidNumber)
    else if workerId.Err? then Err(InvalidRecord)
    else if workerGeneration.Err? then Err(InvalidNumber)
    else
      Ok(Record(
           Interpretation(
             requestId.value, ProtocolMethod(s.protocolMethod), outcome.value,
             timedOutAt.value, receivedAt.value, Max(0, receivedAt.value - timedOutAt.value),
             workerId.value, workerGeneration.value, errorCode.value, threadId.value, turnId.value),
           reconciliation.value))
  }

  function ReadRecords(items: seq<Value>): Result<seq<Record>, JournalError> {
    if items == [] then Ok([])
    else
      match ReadRecord(items[0])
      case Err(e) => Err(e)
      case Ok(first) =>
        match ReadRecords(items[1..])
        case Err(e) => Err(e)
        case Ok(rest) => Ok([first] + rest)
  }

  predicate TotalsReadable(m: seq<Member>) {
    && SafeNonNegativeInteger(Lookup(m, Ascii("observed"))).Ok?
    && SafeNonNegativeInteger(Lookup(m, Ascii("success"))).Ok?
    && SafeNonNegativeInteger(Lookup(m, Ascii("error"))).Ok?
    && SafeNonNegativeInteger(Lookup(m, Ascii("malformed"))).Ok?
    && SafeNonNegativeInteger(Lookup(m, Ascii("identified"))).Ok?
    && SafeNonNegativeInteger(Lookup(m, Ascii("stateReconciled"))).Ok?
    && SafeNonNegativeInteger(Lookup(m, Ascii("stateConflicts"))).Ok?
    && SafeNonNegativeInteger(Lookup(m, Ascii("untracked"))).Ok?
    && SafeNonNegativeInteger(Lookup(m, Ascii("evicted"))).Ok?
  }

  function ReadTotals(m: seq<Member>): Result<Totals, JournalError> {
    if !TotalsReadable(m) then Err(InvalidNumber)
    else
      Ok(Totals(
           SafeNonNegativeInteger(Lookup(m, Ascii("observed"))).value,
           SafeNonNegativeInteger(Lookup(m, Ascii("success"))).value,
           SafeNonNegativeInteger(Lookup(m, Ascii("error"))).value,
           SafeNonNegativeInteger(Lookup(m, Ascii("malformed"))).value,
           SafeNonNegativeInteger(Lookup(m, Ascii("identified"))).value,
           SafeNonNegativeInteger(Lookup(m, Ascii("stateReconciled"))).value,
           SafeNonNegativeInteger(Lookup(m, Ascii("stateConflicts"))).value,
           SafeNonNegativeInteger(Lookup(m, Ascii("untracked"))).value,
           SafeNonNegativeInteger(Lookup(m, Ascii("evicted"))).value))
  }

  function DecodeState(v: Value): Result<State, JournalError> {
    if !v.Obj? then Err(UnsupportedFormat)
    else
      var version := Lookup(v.members, Ascii("version"));
      var totals := Lookup(v.members, Ascii("totals"));
      var records := Lookup(v.members, Ascii("records"));
      if version != Some(Num(1)) || totals.None? || !totals.value.Obj? || records.None? || !records.value.Arr? then
        Err(UnsupportedFormat)
      else
        match ReadTotals(totals.value.members)
        case Err(e) => Err(e)
        case Ok(t) =>
          match ReadRecords(records.value.items)
          case Err(e) => Err(e)
          case Ok(rs) => Ok(State(t, rs))
  }

  const EMPTY_STATE: State := State(Totals(0, 0, 0, 0, 0, 0, 0, 0, 0), [])

  /** loadState of the optional metadata cell. */
  function Load(cell: Option<Text>): Result<State, JournalError> {
    match cell
    case None => Ok(EMPTY_STATE)
    case Some(raw) =>
      match ParseStrict(raw)
      case None => Err(InvalidJson)
      case Some(v) => DecodeState(v)
  }

  // --------------------------------------------------- what the readers accept

  predicate IsIdentifier(t: Text) {
    Trimmed(t) && t != [] && |t| <= 200 && !HasControl(t)
  }

  predicate IsCounter(n: int) { 0 <= n <= MAX_SAFE_INTEGER }

  predicate ValidRecord(r: Record) {
    var i := r.response;
    && IsCounter(i.requestId) && IsCounter(i.timedOutAt) && IsCounter(i.receivedAt) && IsCounter(i.workerGeneration)
    && |i.protocolMethod| <= 120 && IsMethodName(i.protocolMethod)
    && i.latencyAfterTimeoutMs == Max(0, i.receivedAt - i.timedOutAt)
    && IsIdentifier(i.workerId)
    && (i.errorCode.Some? ==> IsSafeInteger(i.errorCode.value))
    && (i.threadId.Some? ==> IsIdentifier(i.threadId.value))
    && (i.turnId.Some? ==> IsIdentifier(i.turnId.value))
  }

  predicate ValidTotals(t: Totals) {
    && IsCounter(t.observed) && IsCounter(t.success) && IsCounter(t.error) && IsCounter(t.malformed)
    && IsCounter(t.identified) && IsCounter(t.stateReconciled) && IsCounter(t.stateConflicts)
    && IsCounter(t.untracked) && IsCounter(t.evicted)
  }

  predicate ValidState(s: State) {
    ValidTotals(s.totals) && forall r :: r in s.records ==> ValidRecord(r)
  }

  /** No identifier of the record holds an unpaired surrogate. */
  predicate TextsWellFormed(r: Record) {
    && WellFormed(r.response.workerId)
    && (r.response.threadId.Some? ==> WellFormed(r.response.threadId.value))
    && (r.response.turnId.Some? ==> WellFormed(r.response.turnId.value))
  }

  predicate AllTextsWellFormed(records: seq<Record>) {
    forall r :: r in records ==> TextsWellFormed(r)
  }

  /** A validated identifier is trimmed, and validating it again changes nothing. */
  lemma IdentifierProperties(v: Option<Value>)
    ensures SafeIdentifier(v).Some? ==> IsIdentifier(SafeIdentifier(v).value)
    ensures SafeIdentifier(v).Some? && WellFormed(v.value.text) ==> WellFormed(SafeIdentifier(v).value)
    ensures v.Some? && v.value.Str? && IsIdentifier(v.value.text) ==> SafeIdentifier(v) == Some(v.value.text)
  {
    if v.Some? && v.value.Str? {
      TrimProperties(v.value.text);
    }
  }

  lemma UnknownIsValid()
    ensures IsIdentifier(Unknown()) && WellFormed(Unknown())
    ensures IsMethodName(Unknown()) && |Unknown()| <= 120
  {
    var u := Unknown();
    assert u == [0x75, 0x6E, 0x6B, 0x6E, 0x6F, 0x77, 0x6E];
    NoSurrogatesWellFormed(u);
  }

  lemma IdentifyChooses(name: Text, context: Option<Text>, thread: Option<Text>, turn: Option<Text>)
    ensures Identify(name, context, thread, turn).threadId in {None, context, thread}
    ensures Identify(name, context, thread, turn).turnId in {None, turn}
  {
  }

  /** The identifiers a response keeps are validated ones. */
  lemma ClassifyIdentifiers(r: LateResponse)
    ensures Classify(r).threadId.Some? ==> IsIdentifier(Classify(r).threadId.value)
    ensures Classify(r).turnId.Some? ==> IsIdentifier(Classify(r).turnId.value)
  {
    var name := ProtocolMethod(Some(r.protocolMethod));
    var result := Lookup(r.response, Ascii("result"));
    var thread := Property(Property(result, Ascii("thread")), Ascii("id"));
    var turn := Property(Property(result, Ascii("turn")), Ascii("id"));
    IdentifyChooses(
      name, SafeIdentifier(r.contextThreadId), SafeIdentifier(thread),
      OrElse(SafeIdentifier(turn), SafeIdentifier(Property(result, Ascii("turnId")))));
    IdentifierProperties(r.contextThreadId);
    IdentifierProperties(thread);
    IdentifierProperties(turn);
    IdentifierProperties(Property(result, Ascii("turnId")));
  }

  lemma InterpretIsValid(r: LateResponse, reconciliation: Reconciliation)
    requires Interpret(r).Ok?
    ensures ValidRecord(Record(Interpret(r).value, reconciliation))
  {
    UnknownIsValid();
    IdentifierProperties(Some(r.workerId));
    ClassifyIdentifiers(r);
  }

  // ------------------------------------------------------- save, then load back

  function SlotNames(slots: seq<Slot>): (names: seq<string>)
    ensures |names| == |slots|
    ensures forall i :: 0 <= i < |slots| ==> names[i] == slots[i].name
  {
    if slots == [] then [] else [slots[0].name] + SlotNames(slots[1..])
  }

  ghost predicate DistinctSlots(slots: seq<Slot>) {
    DistinctNames(SlotNames(slots))
  }

  lemma SlotsDiffer(slots: seq<Slot>)
    requires DistinctSlots(slots)
    ensures forall i, j :: 0 <= i < j < |slots| ==> Ascii(slots[i].name) != Ascii(slots[j].name)
    ensures slots != [] ==> DistinctSlots(slots[1..])
  {
    var names := SlotNames(slots);
    forall i, j | 0 <= i < j < |slots| ensures Ascii(slots[i].name) != Ascii(slots[j].name) {
      assert names[i] == slots[i].name && names[j] == slots[j].name;
    }
  }

  lemma {:induction false} PresentMembers(slots: seq<Slot>)
    ensures forall m :: m in Present(slots) ==>
      exists i :: 0 <= i < |slots| && Ascii(slots[i].name) == m.key && slots[i].value == Some(m.value)
  {
    if slots != [] {
      PresentMembers(slots[1..]);
      forall m | m in Present(slots)
        ensures exists i :: 0 <= i < |slots| && Ascii(slots[i].name) == m.key && slots[i].value == Some(m.value)
      {
        if m in Present(slots[1..]) {
          var i :| 0 <= i < |slots[1..]| && Ascii(slots[1..][i].name) == m.key && slots[1..][i].value == Some(m.value);
          assert Ascii(slots[i + 1].name) == m.key;
        } else {
          assert Ascii(slots[0].name) == m.key;
        }
      }
    }
  }

  lemma {:induction false} LookupAbsent(members: seq<Member>, key: Text)
    requires forall m :: m in members ==> m.key != key
    ensures Lookup(members, key) == None
  {
    if members != [] {
      LookupAbsent(members[1..], key);
    }
  }

  /** Looking up a slot's name gives back its optional value. */
  lemma {:induction false} LookupPresent(slots: seq<Slot>, i: nat)
    requires DistinctSlots(slots) && i < |slots|
    ensures Lookup(Present(slots), Ascii(slots[i].name)) == slots[i].value
  {
    SlotsDiffer(slots);
    if i == 0 {
      PresentMembers(slots[1..]);
      forall m | m in Present(slots[1..]) ensures m.key != Ascii(slots[0].name) {
      }
      if slots[0].value.None? {
        assert Present(slots) == Present(slots[1..]);
        LookupAbsent(Present(slots[1..]), Ascii(slots[0].name));
      } else {
        assert Present(slots)[0] == Member(Ascii(slots[0].name), slots[0].value.value);
      }
    } else {
      LookupPresent(slots[1..], i - 1);
      assert slots[1..][i - 1] == slots[i] && Ascii(slots[0].name) != Ascii(slots[i].name);
      if slots[0].value.Some? {
        assert Present(slots)[1..] == Present(slots[1..]);
      } else {
        assert Present(slots) == Present(slots[1..]);
      }
    }
  }

  lemma {:induction false} PresentUnique(slots: seq<Slot>)
    requires DistinctSlots(slots)
    ensures UniqueKeys(Present(slots))
  {
    if slots != [] {
      SlotsDiffer(slots);
      PresentUnique(slots[1..]);
      PresentMembers(slots[1..]);
      forall m | m in Present(slots[1..]) ensures m.key != Ascii(slots[0].name) {
      }
      if slots[0].value.Some? {
        assert Present(slots)[1..] == Present(slots[1..]);
      }
    }
  }

  const RECORD_TAGS: seq<int> := [
    0x93964, 0x636e4, 0x737e5, 0xa3a74, 0xa3974, 0x153673,
    0x83be4, 0x103bee, 0x932e5, 0x83a64, 0x63a64, 0xe396e]

  lemma RecordNamesDistinct(r: Record)
    ensures DistinctSlots(RecordSlots(r))
  {
    var names, tags := SlotNames(RecordSlots(r)), RECORD_TAGS;
    assert Tag(Ascii(names[0])) == tags[0];
    assert Tag(Ascii(names[1])) == tags[1];
    assert Tag(Ascii(names[2])) == tags[2];
    assert Tag(Ascii(names[3])) == tags[3];
    assert Tag(Ascii(names[4])) == tags[4];
    assert Tag(Ascii(names[5])) == tags[5];
    assert Tag(Ascii(names[6])) == tags[6];
    assert Tag(Ascii(names[7])) == tags[7];
    assert Tag(Ascii(names[8])) == tags[8];
    assert Tag(Ascii(names[9])) == tags[9];
    assert Tag(Ascii(names[10])) == tags[10];
    assert Tag(Ascii(names[11])) == tags[11];
    DistinctByTags(names, tags);
  }

  const TOTALS_TAGS: seq<int> := [0x837e4, 0x739f3, 0x532f2, 0x936e4, 0xa34e4, 0xf39e4, 0xe39f3, 0x93ae4, 0x732e4]

  lemma TotalsNamesDistinct(t: Totals)
    ensures DistinctSlots(TotalsSlots(t))
  {
    var names, tags := SlotNames(TotalsSlots(t)), TOTALS_TAGS;
    assert Tag(Ascii(names[0])) == tags[0];
    assert Tag(Ascii(names[1])) == tags[1];
    assert Tag(Ascii(names[2])) == tags[2];
    assert Tag(Ascii(names[3])) == tags[3];
    assert Tag(Ascii(names[4])) == tags[4];
    assert Tag(Ascii(names[5])) == tags[5];
    assert Tag(Ascii(names[6])) == tags[6];
    assert Tag(Ascii(names[7])) == tags[7];
    assert Tag(Ascii(names[8])) == tags[8];
    DistinctByTags(names, tags);
  }

  const STATE_TAGS: seq<int> := [0x73b6e, 0x63a73, 0x73973]

  lemma StateNamesDistinct(s: State)
    ensures DistinctSlots(StateSlots(s))
  {
    var names, tags := SlotNames(StateSlots(s)), STATE_TAGS;
    assert Tag(Ascii(names[0])) == tags[0];
    assert Tag(Ascii(names[1])) == tags[1];
    assert Tag(Ascii(names[2])) == tags[2];
    DistinctByTags(names, tags);
  }

  lemma OutcomeReadsBack(o: Outcome)
    ensures ReadOutcome(Some(Str(OutcomeName(o)))) == Some(o)
  {
    assert |OutcomeName(Success)| == 7 && |OutcomeName(Error)| == 5 && |OutcomeName(Malformed)| == 9;
  }

  lemma ReconciliationReadsBack(r: Reconciliation)
    ensures ReadReconciliation(Some(Str(ReconciliationName(r)))) == Some(r)
  {
    assert ReconciliationName(NotApplicable)[0] == 0x6E && |ReconciliationName(NotApplicable)| == 14;
    assert |ReconciliationName(IdentifierRecorded)| == 19;
    assert ReconciliationName(AgentArchived)[6] == 0x61 && |ReconciliationName(AgentArchived)| == 14;
    assert ReconciliationName(AgentRestored)[6] == 0x72 && |ReconciliationName(AgentRestored)| == 14;
    assert ReconciliationName(AgentArchived)[0] == ReconciliationName(AgentRestored)[0] == 0x61;
    assert |ReconciliationName(AlreadyConsistent)| == 18;
    assert |ReconciliationName(ThreadUntracked)| == 16;
    assert ReconciliationName(StateConflict)[0] == 0x73 && |ReconciliationName(StateConflict)| == 14;
    assert |ReconciliationName(MalformedResponse)| == 9;
  }

  function Stored(r: Record): StoredRecord {
    StoredRecord(
      Some(Num(r.response.requestId)), Some(Str(r.response.protocolMethod)),
      Some(Str(OutcomeName(r.response.outcome))), Some(Num(r.response.timedOutAt)),
      Some(Num(r.response.receivedAt)), Some(Str(r.response.workerId)),
      Some(Num(r.response.workerGeneration)), OptionalNumber(r.response.errorCode),
      OptionalText(r.response.threadId), OptionalText(r.response.turnId),
      Some(Str(ReconciliationName(r.reconciliation))))
  }

  lemma RecordLookups(r: Record)
    ensures StoredProperties(Present(RecordSlots(r))) == Stored(r)
  {
    var s := RecordSlots(r);
    RecordNamesDistinct(r);
    LookupPresent(s, 0);
    LookupPresent(s, 1);
    LookupPresent(s, 2);
    LookupPresent(s, 3);
    LookupPresent(s, 4);
    LookupPresent(s, 6);
    LookupPresent(s, 7);
    LookupPresent(s, 8);
    LookupPresent(s, 9);
    LookupPresent(s, 10);
    LookupPresent(s, 11);
  }

  lemma StoredIdentifiersReadBack(i: Interpretation)
    requires IsIdentifier(i.workerId)
    requires i.threadId.Some? ==> IsIdentifier(i.threadId.value)
    requires i.turnId.Some? ==> IsIdentifier(i.turnId.value)
    ensures RequiredIdentifier(Some(Str(i.workerId))) == Ok(i.workerId)
    ensures OptionalIdentifier(OptionalText(i.threadId)) == Ok(i.threadId)
    ensures OptionalIdentifier(OptionalText(i.turnId)) == Ok(i.turnId)
  {
    IdentifierProperties(Some(Str(i.workerId)));
    IdentifierProperties(OptionalText(i.threadId));
    IdentifierProperties(OptionalText(i.turnId));
  }

  lemma StoredReadsBack(r: Record)
    requires ValidRecord(r)
    ensures ReadStored(Stored(r)) == Ok(r)
  {
    OutcomeReadsBack(r.response.outcome);
    ReconciliationReadsBack(r.reconciliation);
    StoredIdentifiersReadBack(r.response);
  }

  lemma RecordReadsBack(r: Record)
    requires ValidRecord(r)
    ensures ReadRecord(EncodeRecord(r)) == Ok(r)
  {
    RecordLookups(r);
    StoredReadsBack(r);
  }

  /** A record is saved with each value under its own name, absent ones left out. */
  lemma SavedRecordIs(r: Record)
    ensures
      var m, i := EncodeRecord(r).members, r.response;
      && Lookup(m, Ascii("requestId")) == Some(Num(i.requestId))
      && Lookup(m, Ascii("method")) == Some(Str(i.protocolMethod))
      && (i.outcome == Success ==> Lookup(m, Ascii("outcome")) == Some(Str(Ascii("success"))))
      && (i.outcome == Error ==> Lookup(m, Ascii("outcome")) == Some(Str(Ascii("error"))))
      && (i.outcome == Malformed ==> Lookup(m, Ascii("outcome")) == Some(Str(Ascii("malformed"))))
      && Lookup(m, Ascii("timedOutAt")) == Some(Num(i.timedOutAt))
      && Lookup(m, Ascii("receivedAt")) == Some(Num(i.receivedAt))
      && Lookup(m, Ascii("latencyAfterTimeoutMs")) == Some(Num(i.latencyAfterTimeoutMs))
      && Lookup(m, Ascii("workerId")) == Some(Str(i.workerId))
      && Lookup(m, Ascii("workerGeneration")) == Some(Num(i.workerGeneration))
      && Lookup(m, Ascii("errorCode")) == OptionalNumber(i.errorCode)
      && Lookup(m, Ascii("threadId")) == OptionalText(i.threadId)
      && Lookup(m, Ascii("turnId")) == OptionalText(i.turnId)
      && (r.reconciliation == NotApplicable ==> Lookup(m, Ascii("reconciliation")) == Some(Str(Ascii("not-applicable"))))
      && (r.reconciliation == IdentifierRecorded ==> Lookup(m, Ascii("reconciliation")) == Some(Str(Ascii("identifier-recorded"))))
      && (r.reconciliation == AgentArchived ==> Lookup(m, Ascii("reconciliation")) == Some(Str(Ascii("agent-archived"))))
      && (r.reconciliation == AgentRestored ==> Lookup(m, Ascii("reconciliation")) == Some(Str(Ascii("agent-restored"))))
      && (r.reconciliation == AlreadyConsistent ==> Lookup(m, Ascii("reconciliation")) == Some(Str(Ascii("already-consistent"))))
      && (r.reconciliation == ThreadUntracked ==> Lookup(m, Ascii("reconciliation")) == Some(Str(Ascii("thread-untracked"))))
      && (r.reconciliation == StateConflict ==> Lookup(m, Ascii("reconciliation")) == Some(Str(Ascii("state-conflict"))))
      && (r.reconciliation == MalformedResponse ==> Lookup(m, Ascii("reconciliation")) == Some(Str(Ascii("malformed"))))
  {
    SavedRecordIsFirst(r);
    SavedRecordIsSecond(r);
    SavedRecordIsThird(r);
  }

  lemma SavedRecordIsFirst(r: Record)
    ensures
      var m, i := EncodeRecord(r).members, r.response;
      && Lookup(m, Ascii("requestId")) == Some(Num(i.requestId))
      && Lookup(m, Ascii("method")) == Some(Str(i.protocolMethod))
      && (i.outcome == Success ==> Lookup(m, Ascii("outcome")) == Some(Str(Ascii("success"))))
      && (i.outcome == Error ==> Lookup(m, Ascii("outcome")) == Some(Str(Ascii("error"))))
      && (i.outcome == Malformed ==> Lookup(m, Ascii("outcome")) == Some(Str(Ascii("malformed"))))
      && Lookup(m, Ascii("timedOutAt")) == Some(Num(i.timedOutAt))
  {
    RecordNamesDistinct(r);
    LookupPresent(RecordSlots(r), 0);
    LookupPresent(RecordSlots(r), 1);
    LookupPresent(RecordSlots(r), 2);
    LookupPresent(RecordSlots(r), 3);
  }

  lemma SavedRecordIsSecond(r: Record)
    ensures
      var m, i := EncodeRecord(r).members, r.response;
      && Lookup(m, Ascii("receivedAt")) == Some(Num(i.receivedAt))
      && Lookup(m, Ascii("latencyAfterTimeoutMs")) == Some(Num(i.latencyAfterTimeoutMs))
      && Lookup(m, Ascii("workerId")) == Some(Str(i.workerId))
      && Lookup(m, Ascii("workerGeneration")) == Some(Num(i.workerGeneration))
  {
    RecordNamesDistinct(r);
    LookupPresent(RecordSlots(r), 4);
    LookupPresent(RecordSlots(r), 5);
    LookupPresent(RecordSlots(r), 6);
    LookupPresent(RecordSlots(r), 7);
  }

  lemma SavedRecordIsThird(r: Record)
    ensures
      var m, i := EncodeRecord(r).members, r.response;
      && Lookup(m, Ascii("errorCode")) == OptionalNumber(i.errorCode)
      && Lookup(m, Ascii("threadId")) == OptionalText(i.threadId)
      && Lookup(m, Ascii("turnId")) == OptionalText(i.turnId)
      && (r.reconciliation == NotApplicable ==> Lookup(m, Ascii("reconciliation")) == Some(Str(Ascii("not-applicable"))))
      && (r.reconciliation == IdentifierRecorded ==> Lookup(m, Ascii("reconciliation")) == Some(Str(Ascii("identifier-recorded"))))
      && (r.reconciliation == AgentArchived ==> Lookup(m, Ascii("reconciliation")) == Some(Str(Ascii("agent-archived"))))
      && (r.reconciliation == AgentRestored ==> Lookup(m, Ascii("reconciliation")) == Some(Str(Ascii("agent-restored"))))
      && (r.reconciliation == AlreadyConsistent ==> Lookup(m, Ascii("reconciliation")) == Some(Str(Ascii("already-consistent"))))
      && (r.reconciliation == ThreadUntracked ==> Lookup(m, Ascii("reconciliation")) == Some(Str(Ascii("thread-untracked"))))
      && (r.reconciliation == StateConflict ==> Lookup(m, Ascii("reconciliation")) == Some(Str(Ascii("state-conflict"))))
      && (r.reconciliation == MalformedResponse ==> Lookup(m, Ascii("reconciliation")) == Some(Str(Ascii("malformed"))))
  {
    RecordNamesDistinct(r);
    LookupPresent(RecordSlots(r), 8);
    LookupPresent(RecordSlots(r), 9);
    LookupPresent(RecordSlots(r), 10);
    LookupPresent(RecordSlots(r), 11);
  }

  lemma ReadRecordsStep(items: seq<Value>, first: Record, rest: seq<Record>)
    requires items != [] && ReadRecord(items[0]) == Ok(first) && ReadRecords(items[1..]) == Ok(rest)
    ensures ReadRecords(items) == Ok([first] + rest)
  {
  }

  lemma {:induction false} RecordsReadBack(records: seq<Record>)
    requires forall r :: r in records ==> ValidRecord(r)
    ensures ReadRecords(EncodeRecords(records)) == Ok(records)
  {
    if records != [] {
      RecordReadsBack(records[0]);
      RecordsReadBack(records[1..]);
      assert EncodeRecords(records)[1..] == EncodeRecords(records[1..]);
      ReadRecordsStep(EncodeRecords(records), records[0], records[1..]);
      assert records == [records[0]] + records[1..];
    }
  }

  lemma TotalsReadBack(t: Totals)
    requires ValidTotals(t)
    ensures ReadTotals(Present(TotalsSlots(t))) == Ok(t)
  {
    var s := TotalsSlots(t);
    TotalsNamesDistinct(t);
    forall i | 0 <= i < 9 ensures Lookup(Present(s), Ascii(s[i].name)) == s[i].value {
      LookupPresent(s, i);
    }
    assert s[0].value == Some(Num(t.observed)) && s[1].value == Some(Num(t.success)) && s[2].value == Some(Num(t.error));
    assert s[3].value == Some(Num(t.malformed)) && s[4].value == Some(Num(t.identified));
    assert s[5].value == Some(Num(t.stateReconciled)) && s[6].value == Some(Num(t.stateConflicts));
    assert s[7].value == Some(Num(t.untracked)) && s[8].value == Some(Num(t.evicted));
  }

  lemma DecodeEncode(s: State)
    requires ValidState(s)
    ensures DecodeState(EncodeState(s)) == Ok(s)
  {
    StateNamesDistinct(s);
    LookupPresent(StateSlots(s), 0);
    LookupPresent(StateSlots(s), 1);
    LookupPresent(StateSlots(s), 2);
    TotalsReadBack(s.totals);
    RecordsReadBack(s.records);
  }
}

/**
 The way from a request to the journal (src/jsonRpcProcess.ts, src/appServerUpstream.ts):
 a request is written only if its texts are intact, a response is accepted only if its
 texts are, and a late response carries the thread id that its request was made with.
 */
module WireLayer {
  import opened Utf16
  import opened Wrappers
  import opened Json
  import opened LateResponses
  import opened LateResponseJournal

  /** A request that has timed out, with the threadId entry of its late-response context. */
  datatype Request = Request(
    id: int, protocolMethod: Text, params: Option<Value>, contextThreadId: Option<Value>, timedOutAt: int)

  datatype Worker = Worker(index: nat, generation: int)

  /** A response to it that comes later. */
  datatype Exchange = Exchange(request: Request, worker: Worker, receivedAt: int, response: seq<Member>)

  function Envelope(q: Request): seq<Member> {
    [ Member(Ascii("jsonrpc"), Str(Ascii("2.0"))),
      Member(Ascii("id"), Num(q.id)),
      Member(Ascii("method"), Str(q.protocolMethod)) ]
  }

  function Params(q: Request): seq<Member> {
    if q.params.Some? then [Member(Ascii("params"), q.params.value)] else []
  }

  /** The message that `write` checks and sends. */
  function Message(q: Request): Value {
    Obj(Envelope(q) + Params(q))
  }

  /** boundedLateResponseContext, for one entry; None stands for the thrown error. */
  function BoundedEntry(entry: Value): Option<Value> {
    match entry
    case Str(_) =>
      (match SafeIdentifier(Some(entry))
       case None => None
       case Some(identifier) => Some(Str(identifier)))
    case Null => Some(entry)
    case Bool(_) => Some(entry)
    case Num(n) => if IsSafeInteger(n) then Some(entry) else None
    case _ => None
  }

  function WorkerId(w: Worker): Text { Ascii("app-") + Decimal(w.index) }

  /** What reaches the journal, if anything: the request was written and the response was accepted. */
  function Reported(x: Exchange): Option<LateResponse> {
    var context := if x.request.contextThreadId.None? then None else BoundedEntry(x.request.contextThreadId.value);
    if x.request.contextThreadId.Some? && context.None? then None
    else if !TextIntegrity(Message(x.request)) || !TextIntegrity(Obj(x.response)) then None
    else
      Some(LateResponse(
             Num(x.request.id), Str(x.request.protocolMethod), Num(x.request.timedOutAt), Num(x.receivedAt),
             Str(WorkerId(x.worker)), Num(x.worker.generation), context, x.response))
  }

  /** How every caller makes its context: a thread id in it is the one in the request's own parameters. */
  predicate NamesItsThread(q: Request) {
    q.contextThreadId.Some? ==> q.contextThreadId == Property(q.params, Ascii("threadId"))
  }

  lemma {:induction false} DecimalHasNoSurrogates(n: nat)
    ensures NoSurrogates(Decimal(n))
  {
    if n >= 10 {
      DecimalHasNoSurrogates(n / 10);
    }
  }

  lemma WorkerIdWellFormed(w: Worker)
    ensures WellFormed(WorkerId(w))
  {
    DecimalHasNoSurrogates(w.index);
    NoSurrogatesWellFormed(WorkerId(w));
  }

  lemma SentThreadIntact(q: Request)
    requires TextIntegrity(Message(q)) && NamesItsThread(q) && q.contextThreadId.Some?
    ensures TextIntegrity(q.contextThreadId.value)
  {
    MessageIntact(q);
    PropertyIntact(q.params, Ascii("threadId"));
  }

  /** What is reported has been checked on both sides, although the context itself is never looked at. */
  lemma ReportedIsChecked(x: Exchange)
    requires NamesItsThread(x.request) && Reported(x).Some?
    ensures InboundChecked(Reported(x).value) && RequestChecked(Reported(x).value)
  {
    WorkerIdWellFormed(x.worker);
    if x.request.contextThreadId.Some? {
      SentThreadIntact(x.request);
      IdentifierIntact(x.request.contextThreadId);
    }
  }

  /** The context entry that boundedLateResponseContext lets through: a trimmed identifier, or a value that is no text. */
  predicate LetThrough(entry: Value, bounded: Value) {
    if entry.Str? then
      var t := Trim(entry.text);
      && bounded == Str(t) && 0 < |t| <= 200
      && forall i :: 0 <= i < |t| ==> t[i] > 0x1F && t[i] != 0x7F
    else
      && bounded == entry
      && (entry.Null? || entry.Bool? || (entry.Num? && -9007199254740991 <= entry.number <= 9007199254740991))
  }

  lemma BoundedEntryIs(entry: Value)
    ensures BoundedEntry(entry).Some? <==> exists b :: LetThrough(entry, b)
    ensures BoundedEntry(entry).Some? ==> LetThrough(entry, BoundedEntry(entry).value)
  {
    SafeIdentifierIs(Some(entry));
    if b :| LetThrough(entry, b) {
      assert entry.Str? ==> SafeIdentifier(Some(entry)).Some?;
    }
    if BoundedEntry(entry).Some? {
      assert LetThrough(entry, BoundedEntry(entry).value);
    }
  }

  /** Exactly when a response reaches the journal, and what it then carries. */
  lemma ReportedExactly(x: Exchange)
    ensures
      var q := x.request;
      Reported(x).Some? <==>
        && (q.params.Some? ==> TextIntegrity(q.params.value)) && WellFormed(q.protocolMethod)
        && TextIntegrity(Obj(x.response))
        && (q.contextThreadId.Some? ==> exists b :: LetThrough(q.contextThreadId.value, b))
    ensures Reported(x).Some? ==>
      var q, r := x.request, Reported(x).value;
      && r.requestId == Num(q.id) && r.protocolMethod == Str(q.protocolMethod)
      && r.timedOutAt == Num(q.timedOutAt) && r.receivedAt == Num(x.receivedAt)
      && r.workerId == Str(Ascii("app-") + Decimal(x.worker.index)) && r.workerGeneration == Num(x.worker.generation)
      && r.response == x.response
      && (r.contextThreadId.Some? <==> q.contextThreadId.Some?)
      && (r.contextThreadId.Some? ==> LetThrough(q.contextThreadId.value, r.contextThreadId.value))
  {
    MessageIntact(x.request);
    if x.request.contextThreadId.Some? {
      BoundedEntryIs(x.request.contextThreadId.value);
    }
  }

  lemma NamedIntact(name: string, value: Value)
    ensures TextIntegrity(Obj([Member(Ascii(name), value)])) <==> TextIntegrity(value)
  {
    AsciiWellFormed(name);
    IntegrityOne(Member(Ascii(name), value));
  }

  lemma VersionIntact()
    ensures TextIntegrity(Str(Ascii("2.0")))
  {
    AsciiWellFormed("2.0");
  }

  lemma EnvelopeIntact(q: Request)
    ensures TextIntegrity(Obj(Envelope(q))) <==> WellFormed(q.protocolMethod)
  {
    var version, id := [Member(Ascii("jsonrpc"), Str(Ascii("2.0")))], [Member(Ascii("id"), Num(q.id))];
    var name := [Member(Ascii("method"), Str(q.protocolMethod))];
    VersionIntact();
    NamedIntact("jsonrpc", Str(Ascii("2.0")));
    NamedIntact("id", Num(q.id));
    NamedIntact("method", Str(q.protocolMethod));
    IntegrityConcat(version, id);
    IntegrityConcat(version + id, name);
    assert Envelope(q) == version + id + name;
  }

  /** A message is intact exactly when its method and its parameters are. */
  lemma MessageIntact(q: Request)
    ensures TextIntegrity(Message(q)) <==>
      (q.params.Some? ==> TextIntegrity(q.params.value)) && WellFormed(q.protocolMethod)
  {
    EnvelopeIntact(q);
    if q.params.Some? {
      NamedIntact("params", q.params.value);
    }
    IntegrityConcat(Envelope(q), Params(q));
  }

  // ------------------------------------------------------------ whole programs

  datatype WireOp =
    | OpenJournal(limit: int, refused: bool)
    | Respond(limit: int, agents: set<Text>, exchange: Exchange, refused: bool)
    | DeleteCell

  /** What the journal gets to see of an event. */
  function Seen(e: WireOp): seq<Op> {
    match e
    case OpenJournal(limit, refused) => [OpenOp(limit, refused)]
    case Respond(limit, agents, exchange, refused) =>
      (match Reported(exchange)
       case None => []
       case Some(response) => [ObserveOp(limit, agents, response, refused)])
    case DeleteCell => [EraseOp]
  }

  function AllSeen(events: seq<WireOp>): seq<Op> {
    if events == [] then [] else Seen(events[0]) + AllSeen(events[1..])
  }

  ghost predicate CallersNameThreads(events: seq<WireOp>) {
    forall i :: 0 <= i < |events| && events[i].Respond? ==> NamesItsThread(events[i].exchange.request)
  }

  lemma {:induction false} SeenIsChecked(events: seq<WireOp>)
    requires CallersNameThreads(events)
    ensures forall op :: op in AllSeen(events) && op.ObserveOp? ==> InboundChecked(op.response) && RequestChecked(op.response)
  {
    if events != [] {
      assert forall i :: 0 <= i < |events[1..]| ==> events[1..][i] == events[i + 1];
      SeenIsChecked(events[1..]);
      if events[0].Respond? && Reported(events[0].exchange).Some? {
        ReportedIsChecked(events[0].exchange);
      }
    }
  }

  /**
   In the program the journal never writes what it later rejects: after any sequence of
   openings, responses and deletions the cell reads back as its ledger, field for field.
   */
  lemma ProgramReadsBack(events: seq<WireOp>)
    requires CallersNameThreads(events)
    ensures
      var w, kept := Run(AllSeen(events)), RetainedByRun(AllSeen(events));
      && 0 <= kept <= |w.history|
      && Load(w.cell) == Ok(if w.history == [] then EMPTY_STATE else Ledger(w.history, kept))
  {
    SeenIsChecked(events);
    CheckedRunsReadBack(AllSeen(events));
  }

  /** In particular no exchange reports the response that observe cannot read back. */
  lemma SurrogateIsNeverReported(x: Exchange)
    requires NamesItsThread(x.request)
    ensures Reported(x) != Some(SurrogateResponse())
  {
    SurrogateIsStoredAndRejected();
    if Reported(x).Some? {
      ReportedIsChecked(x);
    }
  }
}

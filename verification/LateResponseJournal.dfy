/**
 AppServerLateResponseJournal (src/appServerLateResponses.ts): the durable, bounded
 ledger, its persistence through one metadata cell, and what every run of openings
 and observations keeps.
 */
module LateResponseJournal {
  import opened Utf16
  import opened Wrappers
  import opened Json
  import opened Arithmetic
  import opened LateResponses

  // -------------------------------------------------- what a saved text loads as

  lemma AsciiWellFormed(s: string)
    ensures WellFormed(Ascii(s))
  {
    NoSurrogatesWellFormed(Ascii(s));
  }

  ghost predicate SlotsIntact(slots: seq<Slot>) {
    forall i :: 0 <= i < |slots| && slots[i].value.Some? ==> TextIntegrity(slots[i].value.value)
  }

  lemma IntegrityConcat(a: seq<Member>, b: seq<Member>)
    ensures TextIntegrity(Obj(a + b)) <==> TextIntegrity(Obj(a)) && TextIntegrity(Obj(b))
  {
    assert forall m :: m in a + b <==> m in a || m in b;
  }

  lemma IntegrityOne(m: Member)
    ensures TextIntegrity(Obj([m])) <==> WellFormed(m.key) && TextIntegrity(m.value)
  {
    assert forall x :: x in [m] <==> x == m;
  }

  lemma SlotsIntactStep(slots: seq<Slot>)
    requires slots != []
    ensures SlotsIntact(slots) <==>
      (slots[0].value.Some? ==> TextIntegrity(slots[0].value.value)) && SlotsIntact(slots[1..])
  {
    var rest := slots[1..];
    assert forall i :: 0 <= i < |rest| ==> rest[i] == slots[i + 1];
  }

  lemma {:induction false} PresentIntegrity(slots: seq<Slot>)
    ensures TextIntegrity(Obj(Present(slots))) <==> SlotsIntact(slots)
  {
    if slots != [] {
      var first, rest := slots[0], slots[1..];
      PresentIntegrity(rest);
      SlotsIntactStep(slots);
      AsciiWellFormed(first.name);
      if first.value.None? {
        assert Present(slots) == Present(rest);
      } else {
        var m := Member(Ascii(first.name), first.value.value);
        IntegrityOne(m);
        IntegrityConcat([m], Present(rest));
      }
    }
  }

  lemma MethodNameWellFormed(t: Text)
    requires IsMethodName(t)
    ensures WellFormed(t)
  {
    assert forall i :: 1 <= i < |t| ==> !IsSurrogate(t[i]);
    NoSurrogatesWellFormed(t);
  }

  lemma NamesWellFormed(r: Record)
    ensures WellFormed(OutcomeName(r.response.outcome)) && WellFormed(ReconciliationName(r.reconciliation))
  {
    NoSurrogatesWellFormed(OutcomeName(r.response.outcome));
    NoSurrogatesWellFormed(ReconciliationName(r.reconciliation));
  }

  lemma RecordIntegrity(r: Record)
    requires ValidRecord(r)
    ensures TextIntegrity(EncodeRecord(r)) <==> TextsWellFormed(r)
  {
    PresentIntegrity(RecordSlots(r));
    RecordSlotsIntact(RecordSlots(r), r);
  }

  lemma RecordSlotsIntact(s: seq<Slot>, r: Record)
    requires ValidRecord(r) && s == RecordSlots(r)
    ensures SlotsIntact(s) <==> TextsWellFormed(r)
  {
    MethodNameWellFormed(r.response.protocolMethod);
    NamesWellFormed(r);
    assert s[6].value == Some(Str(r.response.workerId));
    assert s[9].value == OptionalText(r.response.threadId);
    assert s[10].value == OptionalText(r.response.turnId);
  }

  lemma StateIntegrity(s: State)
    requires ValidState(s)
    ensures TextIntegrity(EncodeState(s)) <==> AllTextsWellFormed(s.records)
  {
    PresentIntegrity(StateSlots(s));
    TotalsIntegrity(s.totals);
    RecordsIntegrity(s.records);
    StateSlotsIntact(StateSlots(s), s);
  }

  lemma TotalsIntegrity(t: Totals)
    ensures TextIntegrity(Obj(Present(TotalsSlots(t))))
  {
    PresentIntegrity(TotalsSlots(t));
  }

  lemma StateSlotsIntact(slots: seq<Slot>, s: State)
    requires slots == StateSlots(s)
    requires TextIntegrity(Obj(Present(TotalsSlots(s.totals))))
    ensures SlotsIntact(slots) <==> TextIntegrity(Arr(EncodeRecords(s.records)))
  {
    assert slots[1].value == Some(Obj(Present(TotalsSlots(s.totals))));
    assert slots[2].value == Some(Arr(EncodeRecords(s.records)));
  }

  lemma RecordsIntegrity(records: seq<Record>)
    requires forall r :: r in records ==> ValidRecord(r)
    ensures TextIntegrity(Arr(EncodeRecords(records))) <==> AllTextsWellFormed(records)
  {
    var items := EncodeRecords(records);
    forall i | 0 <= i < |records| ensures TextIntegrity(items[i]) <==> TextsWellFormed(records[i]) {
      RecordIntegrity(records[i]);
    }
    if TextIntegrity(Arr(items)) {
      forall i | 0 <= i < |records| ensures TextsWellFormed(records[i]) {
        assert items[i] in items;
      }
    }
  }

  lemma PresentWellKeyed(slots: seq<Slot>)
    requires DistinctSlots(slots)
    requires forall i :: 0 <= i < |slots| && slots[i].value.Some? ==> WellKeyed(slots[i].value.value)
    ensures WellKeyed(Obj(Present(slots)))
  {
    PresentUnique(slots);
    PresentMembers(slots);
  }

  lemma RecordsWellKeyed(records: seq<Record>)
    ensures WellKeyed(Arr(EncodeRecords(records)))
  {
    forall i | 0 <= i < |records| ensures WellKeyed(EncodeRecords(records)[i]) {
      RecordNamesDistinct(records[i]);
      PresentWellKeyed(RecordSlots(records[i]));
    }
  }

  lemma StateWellKeyed(s: State)
    ensures WellKeyed(EncodeState(s))
  {
    TotalsNamesDistinct(s.totals);
    PresentWellKeyed(TotalsSlots(s.totals));
    RecordsWellKeyed(s.records);
    StateNamesDistinct(s);
    PresentWellKeyed(StateSlots(s));
  }

  /**
   A valid state saves to a text that loads back field for field, unless an identifier
   in it holds an unpaired surrogate: then the strict reader rejects the text.
   */
  lemma LoadOfSave(s: State)
    requires ValidState(s)
    ensures Load(Some(Save(s))) == if AllTextsWellFormed(s.records) then Ok(s) else Err(InvalidJson)
  {
    StateWellKeyed(s);
    ParseStringify(EncodeState(s));
    StringifySafe(EncodeState(s));
    StateIntegrity(s);
    DecodeEncode(s);
  }

  // ------------------------------------------- whatever is accepted is saveable

  lemma {:induction false} LookupIntact(members: seq<Member>, key: Text)
    requires TextIntegrity(Obj(members))
    ensures Lookup(members, key).Some? ==> TextIntegrity(Lookup(members, key).value)
  {
    if members != [] && members[0].key != key {
      LookupIntact(members[1..], key);
    }
  }

  lemma ReadStoredIsValid(s: StoredRecord)
    requires ReadStored(s).Ok?
    ensures ValidRecord(ReadStored(s).value)
    ensures (forall v: Option<Value> :: v in {s.workerId, s.threadId, s.turnId} && v.Some? ==> TextIntegrity(v.value))
            ==> TextsWellFormed(ReadStored(s).value)
  {
    IdentifierProperties(s.workerId);
    IdentifierProperties(s.threadId);
    IdentifierProperties(s.turnId);
    UnknownIsValid();
    assert {s.workerId, s.threadId, s.turnId} >= {s.workerId} + {s.threadId} + {s.turnId};
  }

  lemma ReadRecordIsValid(v: Value)
    requires TextIntegrity(v) && ReadRecord(v).Ok?
    ensures ValidRecord(ReadRecord(v).value) && TextsWellFormed(ReadRecord(v).value)
  {
    ReadStoredIsValid(StoredProperties(v.members));
    LookupIntact(v.members, Ascii("workerId"));
    LookupIntact(v.members, Ascii("threadId"));
    LookupIntact(v.members, Ascii("turnId"));
  }

  lemma {:induction false} ReadRecordsIsValid(items: seq<Value>)
    requires (forall item :: item in items ==> TextIntegrity(item)) && ReadRecords(items).Ok?
    ensures forall r :: r in ReadRecords(items).value ==> ValidRecord(r) && TextsWellFormed(r)
  {
    if items != [] {
      ReadRecordIsValid(items[0]);
      ReadRecordsIsValid(items[1..]);
    }
  }

  lemma LoadIsValid(cell: Option<Text>)
    requires Load(cell).Ok?
    ensures ValidState(Load(cell).value) && AllTextsWellFormed(Load(cell).value.records)
  {
    if cell.Some? {
      var v := ParseStrict(cell.value).value;
      LookupIntact(v.members, Ascii("records"));
      ReadRecordsIsValid(Lookup(v.members, Ascii("records")).value.items);
    }
  }

  /** For every accepted stored text, whoever wrote it: load, save, load equals load. */
  lemma LoadSaveLoad(cell: Option<Text>)
    requires Load(cell).Ok?
    ensures Load(Some(Save(Load(cell).value))) == Load(cell)
  {
    LoadIsValid(cell);
    LoadOfSave(Load(cell).value);
  }

  // ------------------------------------------------------ one step of the ledger

  function Clip(n: int): int { if n < MAX_SAFE_INTEGER then n else MAX_SAFE_INTEGER }

  /** reconcile: agents holds the threads that belong to an Agent. */
  function Reconcile(i: Interpretation, agents: set<Text>): Reconciliation {
    if i.outcome == Malformed then MalformedResponse
    else if i.outcome != Success then NotApplicable
    else if i.protocolMethod != Ascii("thread/archive") && i.protocolMethod != Ascii("thread/unarchive") then
      if i.threadId.Some? || i.turnId.Some? then IdentifierRecorded else NotApplicable
    else if i.threadId.None? then MalformedResponse
    else if i.threadId.value in agents then StateConflict
    else ThreadUntracked
  }

  predicate IsIdentified(r: Record) { r.response.threadId.Some? || r.response.turnId.Some? }

  predicate IsReconciled(r: Record) { r.reconciliation == AgentArchived || r.reconciliation == AgentRestored }

  function Bump(n: int, applies: bool): int { if applies then Clip(n + 1) else n }

  /** The counters after one more record. */
  function Counted(t: Totals, r: Record): Totals {
    Totals(
      Bump(t.observed, true),
      Bump(t.success, r.response.outcome == Success),
      Bump(t.error, r.response.outcome == Error),
      Bump(t.malformed, r.response.outcome == Malformed),
      Bump(t.identified, IsIdentified(r)),
      Bump(t.stateReconciled, IsReconciled(r)),
      Bump(t.stateConflicts, r.reconciliation == StateConflict),
      Bump(t.untracked, r.reconciliation == ThreadUntracked),
      t.evicted)
  }

  /** One more, but never beyond 2^53 - 1. */
  function Up(n: int, applies: bool): int {
    if !applies then n else if n >= 9007199254740991 then 9007199254740991 else n + 1
  }

  /** Which counters a record moves. */
  lemma CountedIs(t: Totals, r: Record)
    ensures
      var c, i := Counted(t, r), r.response;
      && c.observed == Up(t.observed, true)
      && c.success == Up(t.success, i.outcome == Success)
      && c.error == Up(t.error, i.outcome == Error)
      && c.malformed == Up(t.malformed, i.outcome == Malformed)
      && c.identified == Up(t.identified, i.threadId != None || i.turnId != None)
      && c.stateReconciled == Up(t.stateReconciled, r.reconciliation in {AgentArchived, AgentRestored})
      && c.stateConflicts == Up(t.stateConflicts, r.reconciliation == StateConflict)
      && c.untracked == Up(t.untracked, r.reconciliation == ThreadUntracked)
      && c.evicted == t.evicted
  {
  }

  predicate ValidLimit(limit: int) { 0 < limit <= MAX_RETAINED }

  /** compact: the oldest records beyond the limit go and are counted. */
  function Compacted(s: State, limit: nat): State {
    if |s.records| <= limit then s
    else
      var excess := |s.records| - limit;
      State(s.totals.(evicted := Clip(s.totals.evicted + excess)), s.records[excess..])
  }

  function Appended(s: State, record: Record, limit: nat): State {
    Compacted(State(Counted(s.totals, record), s.records + [record]), limit)
  }

  /** The text stored for one more record, or why loading throws. */
  function AppendToCell(cell: Option<Text>, limit: nat, record: Record): Result<Text, JournalError> {
    match Load(cell)
    case Err(e) => Err(e)
    case Ok(s) => Ok(Save(Appended(s, record, limit)))
  }

  /** What observe returns and stores, or why it throws. */
  function ObserveCell(cell: Option<Text>, limit: nat, agents: set<Text>, response: LateResponse)
    : Result<(Record, Text), JournalError>
  {
    match Interpret(response)
    case Err(e) => Err(e)
    case Ok(interpreted) =>
      var record := Record(interpreted, Reconcile(interpreted, agents));
      match AppendToCell(cell, limit, record)
      case Err(e) => Err(e)
      case Ok(text) => Ok((record, text))
  }

  /** What opening a journal leaves in the cell, or why it throws. */
  function OpenCell(cell: Option<Text>, limit: int): Result<Option<Text>, JournalError> {
    if !ValidLimit(limit) then Err(InvalidRetention)
    else if cell.None? then Ok(None)
    else
      match Load(cell)
      case Err(e) => Err(e)
      case Ok(s) => Ok(Some(Save(Compacted(s, limit))))
  }

  /** The cell after a write that the store may refuse. */
  function Written(before: Option<Text>, after: Option<Text>, refused: bool): Option<Text> {
    if refused then before else after
  }

  // ---------------------------------------------------------------- the classes

  /**
   The metadata cell and the Agent of each thread; other tables are not part of this
   model. `refuses` tells which values mention a retired project.
   */
  class StateStore {
    var cell: Option<Text>
    var agents: map<Text, Text>
    var refuses: Text -> bool
    const persistent: bool

    constructor (persistent: bool)
      ensures cell == None && agents == map[] && this.persistent == persistent && forall t :: !refuses(t)
    {
      cell, agents, refuses := None, map[], _ => false;
      this.persistent := persistent;
    }

    /** setMeta: a refused value is dropped without an error. */
    method SetMeta(value: Text)
      modifies this`cell
      ensures cell == if refuses(value) then old(cell) else Some(value)
    {
      if refuses(value) {
        return;
      }
      cell := Some(value);
    }

    /** Project retirement deletes a cell that mentions the project. */
    method DeleteMeta()
      modifies this`cell
      ensures cell == None
    {
      cell := None;
    }
  }

  /** The state object between loadState and saveState, updated in place. */
  class WorkingState {
    var totals: Totals
    var records: seq<Record>

    constructor (s: State)
      ensures totals == s.totals && records == s.records
    {
      totals, records := s.totals, s.records;
    }

    function Value(): State
      reads this
    {
      State(totals, records)
    }

    /** The increments and the push of observe. */
    method Count(record: Record)
      modifies this
      ensures Value() == State(Counted(old(totals), record), old(records) + [record])
    {
      totals := totals.(observed := Clip(totals.observed + 1));
      match record.response.outcome {
        case Success => totals := totals.(success := Clip(totals.success + 1));
        case Error => totals := totals.(error := Clip(totals.error + 1));
        case Malformed => totals := totals.(malformed := Clip(totals.malformed + 1));
      }
      if record.response.threadId.Some? || record.response.turnId.Some? {
        totals := totals.(identified := Clip(totals.identified + 1));
      }
      if record.reconciliation == AgentArchived || record.reconciliation == AgentRestored {
        totals := totals.(stateReconciled := Clip(totals.stateReconciled + 1));
      } else if record.reconciliation == StateConflict {
        totals := totals.(stateConflicts := Clip(totals.stateConflicts + 1));
      } else if record.reconciliation == ThreadUntracked {
        totals := totals.(untracked := Clip(totals.untracked + 1));
      }
      records := records + [record];
    }

    method Compact(limit: nat)
      modifies this
      ensures Value() == Compacted(old(Value()), limit)
    {
      var excess := Max(0, |records| - limit);
      if excess == 0 {
        return;
      }
      records := records[excess..];
      totals := totals.(evicted := Clip(totals.evicted + excess));
    }
  }

  datatype Latest = Latest(protocolMethod: Text, outcome: Outcome, reconciliation: Reconciliation)

  datatype Status = Status(durable: bool, retentionLimit: int, retained: nat, totals: Totals, latest: Option<Latest>)

  class AppServerLateResponseJournal {
    const store: StateStore
    const retentionLimit: nat

    constructor (store: StateStore, limit: nat)
      ensures this.store == store && retentionLimit == limit
    {
      this.store := store;
      retentionLimit := limit;
    }

    /** `new AppServerLateResponseJournal(store, { retentionLimit })`; on an error nothing is written. */
    static method Open(store: StateStore, limit: Option<int>) returns (r: Result<AppServerLateResponseJournal, JournalError>)
      modifies store`cell
      ensures
        var effective := if limit.Some? then limit.value else MAX_RETAINED;
        match OpenCell(old(store.cell), effective)
        case Err(e) => r == Err(e) && store.cell == old(store.cell)
        case Ok(cell) => r.Ok? && fresh(r.value) && r.value.store == store && r.value.retentionLimit == effective
                         && store.cell == Written(old(store.cell), cell, cell.Some? && store.refuses(cell.value))
    {
      var retentionLimit := if limit.Some? then limit.value else MAX_RETAINED;
      if !ValidLimit(retentionLimit) {
        return Err(InvalidRetention);
      }
      var journal := new AppServerLateResponseJournal(store, retentionLimit);
      if store.cell.None? {
        return Ok(journal);
      }
      var loaded := Load(store.cell);
      if loaded.Err? {
        return Err(loaded.error);
      }
      var state := new WorkingState(loaded.value);
      state.Compact(retentionLimit);
      store.SetMeta(Save(state.Value()));
      return Ok(journal);
    }

    /** A thrown error rolls the transaction back; no Agent is in the frame at all. */
    method Observe(response: LateResponse) returns (r: Result<Record, JournalError>)
      modifies store`cell
      ensures
        match ObserveCell(old(store.cell), retentionLimit, store.agents.Keys, response)
        case Err(e) => r == Err(e) && store.cell == old(store.cell)
        case Ok((record, text)) => r == Ok(record) && store.cell == Written(old(store.cell), Some(text), store.refuses(text))
    {
      var interpreted := InterpretLateResponse(response);
      if interpreted.Err? {
        return Err(interpreted.error);
      }
      var reconciliation := Reconcile(interpreted.value, store.agents.Keys);
      var record := Record(interpreted.value, reconciliation);
      var appended := Append(record);
      if appended.Err? {
        return Err(appended.error);
      }
      return Ok(record);
    }

    /** loadState, count, push, compact and saveState. */
    method Append(record: Record) returns (r: Result<Text, JournalError>)
      modifies store`cell
      ensures r == AppendToCell(old(store.cell), retentionLimit, record)
      ensures store.cell == if r.Ok? then Written(old(store.cell), Some(r.value), store.refuses(r.value)) else old(store.cell)
    {
      var loaded := Load(store.cell);
      if loaded.Err? {
        return Err(loaded.error);
      }
      var state := new WorkingState(loaded.value);
      state.Count(record);
      state.Compact(retentionLimit);
      var text := Save(state.Value());
      store.SetMeta(text);
      return Ok(text);
    }

    method ReadStatus() returns (r: Result<Status, JournalError>)
      ensures match Load(store.cell)
              case Err(e) => r == Err(e)
              case Ok(s) =>
                && r.Ok?
                && r.value.durable == store.persistent && r.value.retentionLimit == retentionLimit
                && r.value.retained == |s.records| && r.value.totals == s.totals
                && (r.value.latest.None? <==> s.records == [])
                && (s.records != [] ==>
                      var last := s.records[|s.records| - 1];
                      r.value.latest == Some(Latest(last.response.protocolMethod, last.response.outcome, last.reconciliation)))
    {
      var loaded := Load(store.cell);
      if loaded.Err? {
        return Err(loaded.error);
      }
      var records := loaded.value.records;
      var latest: Option<Latest> := None;
      if |records| > 0 {
        var last := records[|records| - 1];
        latest := Some(Latest(last.response.protocolMethod, last.response.outcome, last.reconciliation));
      }
      return Ok(Status(store.persistent, retentionLimit, |records|, loaded.value.totals, latest));
    }
  }

  // ------------------------------------------------------------------ whole runs

  /**
   One use of the store: opening a journal, observing through one opened with the limit,
   or deleting the cell. The store may refuse any write of the first two.
   */
  datatype Op =
    | OpenOp(limit: int, refused: bool)
    | ObserveOp(limit: int, agents: set<Text>, response: LateResponse, refused: bool)
    | EraseOp

  /** The cell, and (never stored) every record whose observation was written since the cell was last deleted. */
  datatype World = World(cell: Option<Text>, history: seq<Record>)

  const EMPTY_WORLD := World(None, [])

  /** An operation that throws changes nothing, and so does a refused one. */
  function Step(w: World, op: Op): World {
    match op
    case OpenOp(limit, refused) =>
      (match OpenCell(w.cell, limit)
       case Err(_) => w
       case Ok(cell) => World(Written(w.cell, cell, refused), w.history))
    case ObserveOp(limit, agents, response, refused) =>
      if !ValidLimit(limit) then w
      else
        (match ObserveCell(w.cell, limit, agents, response)
         case Err(_) => w
         case Ok((record, text)) =>
           World(Written(w.cell, Some(text), refused), if refused then w.history else w.history + [record]))
    case EraseOp => EMPTY_WORLD
  }

  function Run(ops: seq<Op>): World {
    if ops == [] then EMPTY_WORLD else Step(Run(ops[..|ops| - 1]), ops[|ops| - 1])
  }

  function CountOf(p: Record -> bool, history: seq<Record>): nat {
    if history == [] then 0
    else CountOf(p, history[..|history| - 1]) + (if p(history[|history| - 1]) then 1 else 0)
  }

  predicate IsSuccess(r: Record) { r.response.outcome == Success }

  predicate IsError(r: Record) { r.response.outcome == Error }

  predicate IsMalformed(r: Record) { r.response.outcome == Malformed }

  predicate IsConflict(r: Record) { r.reconciliation == StateConflict }

  predicate IsUntracked(r: Record) { r.reconciliation == ThreadUntracked }

  /** The ledger after the history, when its last `retained` records are kept: exact counts, clipped. */
  function Ledger(history: seq<Record>, retained: nat): State
    requires retained <= |history|
  {
    State(
      Totals(
        Clip(|history|),
        Clip(CountOf(IsSuccess, history)),
        Clip(CountOf(IsError, history)),
        Clip(CountOf(IsMalformed, history)),
        Clip(CountOf(IsIdentified, history)),
        0,
        Clip(CountOf(IsConflict, history)),
        Clip(CountOf(IsUntracked, history)),
        Clip(|history| - retained)),
      history[|history| - retained..])
  }

  /** A record that observe can produce. */
  predicate Produced(r: Record) {
    && ValidRecord(r)
    && !IsReconciled(r)
    && (r.reconciliation == MalformedResponse <==> r.response.outcome == Malformed)
  }

  /** Reconciliation is malformed exactly when the outcome is, and never reports an Agent change. */
  lemma ObservedIsProduced(response: LateResponse, agents: set<Text>)
    requires Interpret(response).Ok?
    ensures Produced(Record(Interpret(response).value, Reconcile(Interpret(response).value, agents)))
  {
    var i := Interpret(response).value;
    InterpretIsValid(response, Reconcile(i, agents));
    if i.outcome == Success {
      SuccessIsIdentified(response);
    }
  }

  predicate ArchivesThread(name: Text) { name == Ascii("thread/archive") || name == Ascii("thread/unarchive") }

  lemma ReconcileIs(i: Interpretation, agents: set<Text>)
    requires i.outcome == Success && IsThreadRequest(i.protocolMethod) ==> i.threadId.Some?
    ensures
      var r := Reconcile(i, agents);
      && (r == MalformedResponse <==> i.outcome == Malformed)
      && (i.outcome == Error ==> r == NotApplicable)
      && (i.outcome == Success && ArchivesThread(i.protocolMethod) ==>
            && (r == StateConflict <==> i.threadId.value in agents)
            && (r == ThreadUntracked <==> i.threadId.value !in agents))
      && (i.outcome == Success && !ArchivesThread(i.protocolMethod) ==>
            && (r == IdentifierRecorded <==> i.threadId.Some? || i.turnId.Some?)
            && (r == NotApplicable <==> i.threadId.None? && i.turnId.None?))
  {
  }

  /** What observe records about its response and, for archive and unarchive, about the Agents it finds. */
  lemma ObservedRecordIs(cell: Option<Text>, limit: nat, agents: set<Text>, response: LateResponse)
    requires ObserveCell(cell, limit, agents, response).Ok?
    ensures
      var r := ObserveCell(cell, limit, agents, response).value.0;
      && Interpret(response) == Ok(r.response)
      && (r.reconciliation == MalformedResponse <==> r.response.outcome == Malformed)
      && (r.response.outcome == Error ==> r.reconciliation == NotApplicable)
      && (r.response.outcome == Success && ArchivesThread(r.response.protocolMethod) ==>
            && r.response.threadId.Some?
            && (r.reconciliation == StateConflict <==> r.response.threadId.value in agents)
            && (r.reconciliation == ThreadUntracked <==> r.response.threadId.value !in agents))
      && (r.response.outcome == Success && !ArchivesThread(r.response.protocolMethod) ==>
            && (r.reconciliation == IdentifierRecorded <==> r.response.threadId.Some? || r.response.turnId.Some?)
            && (r.reconciliation == NotApplicable <==> r.response.threadId.None? && r.response.turnId.None?))
  {
    if Interpret(response).value.outcome == Success {
      SuccessIsIdentified(response);
    }
    ReconcileIs(Interpret(response).value, agents);
  }

  /** An observation fails exactly when a number is unsafe or the stored ledger does not load, the first first. */
  lemma ObserveFails(cell: Option<Text>, limit: nat, agents: set<Text>, response: LateResponse)
    ensures ObserveCell(cell, limit, agents, response).Err? <==> Interpret(response).Err? || Load(cell).Err?
    ensures ObserveCell(cell, limit, agents, response).Err? ==>
      ObserveCell(cell, limit, agents, response).error == if Interpret(response).Err? then InvalidNumber else Load(cell).error
  {
    FieldsAre(response);
  }

  /** Opening fails exactly for a limit outside 1 to 128 and for a ledger that does not load. */
  lemma OpenFails(cell: Option<Text>, limit: int)
    ensures OpenCell(cell, limit).Err? <==> limit < 1 || limit > 128 || Load(cell).Err?
    ensures limit < 1 || limit > 128 ==> OpenCell(cell, limit) == Err(InvalidRetention)
    ensures 1 <= limit <= 128 && Load(cell).Err? ==> OpenCell(cell, limit) == Err(Load(cell).error)
  {
  }

  /** The invariant: the cell holds the saved ledger of a non-empty suffix of the history. */
  ghost predicate Keeps(w: World, retained: nat) {
    && retained <= |w.history| && retained <= MAX_RETAINED
    && (forall r :: r in w.history ==> Produced(r))
    && (w.cell.None? <==> w.history == [])
    && (w.history != [] ==> retained > 0 && w.cell == Some(Save(Ledger(w.history, retained))))
    && (forall i :: 0 <= i < |w.history| - 1 ==> TextsWellFormed(w.history[i]))
  }

  lemma TotalsValid(history: seq<Record>, retained: nat)
    requires retained <= |history|
    ensures ValidTotals(Ledger(history, retained).totals)
  {
  }

  lemma LedgerValid(w: World, retained: nat)
    requires Keeps(w, retained)
    ensures ValidState(Ledger(w.history, retained))
  {
    TotalsValid(w.history, retained);
    var kept := w.history[|w.history| - retained..];
    forall r | r in kept ensures ValidRecord(r) {
      assert r in w.history && Produced(r);
    }
  }

  /** Only the last record can hold an unpaired surrogate, and it is always retained. */
  lemma LedgerTexts(w: World, retained: nat)
    requires Keeps(w, retained) && w.history != []
    ensures AllTextsWellFormed(Ledger(w.history, retained).records) <==> AllTextsWellFormed(w.history)
  {
    var kept := w.history[|w.history| - retained..];
    assert kept[retained - 1] == w.history[|w.history| - 1];
    assert forall i :: 0 <= i < retained ==> kept[i] == w.history[|w.history| - retained + i];
  }

  /**
   The stored text loads exactly when no identifier observed so far holds an unpaired
   surrogate, and then it is the ledger of the history.
   */
  lemma LoadOfWorld(w: World, retained: nat)
    requires Keeps(w, retained)
    ensures Load(w.cell) ==
      if w.history == [] then Ok(EMPTY_STATE)
      else if AllTextsWellFormed(w.history) then Ok(Ledger(w.history, retained))
      else Err(InvalidJson)
  {
    if w.history != [] {
      LedgerValid(w, retained);
      LedgerTexts(w, retained);
      LoadOfSave(Ledger(w.history, retained));
    }
  }

  lemma EmptyLedger()
    ensures Ledger([], 0) == EMPTY_STATE
  {
  }

  /** Counting one more record and compacting gives the ledger of the longer history. */
  lemma LedgerGrows(history: seq<Record>, retained: nat, record: Record, limit: nat)
    requires retained <= |history| && !IsReconciled(record)
    ensures
      var s := Ledger(history, retained);
      var kept := if retained + 1 <= limit then retained + 1 else limit;
      && kept <= |history| + 1
      && Appended(s, record, limit) == Ledger(history + [record], kept)
  {
    CountersGrow(history, retained, record);
    RecordsGrow(history, retained, record);
    LedgerShrinks(history + [record], retained + 1, limit);
  }

  lemma CountersGrow(history: seq<Record>, retained: nat, record: Record)
    requires retained <= |history| && !IsReconciled(record)
    ensures Counted(Ledger(history, retained).totals, record) == Ledger(history + [record], retained + 1).totals
  {
    var longer := history + [record];
    assert longer[..|longer| - 1] == history && longer[|longer| - 1] == record;
  }

  lemma RecordsGrow(history: seq<Record>, retained: nat, record: Record)
    requires retained <= |history|
    ensures Ledger(history, retained).records + [record] == Ledger(history + [record], retained + 1).records
  {
    assert history[|history| - retained..] + [record] == (history + [record])[|history| - retained..];
  }

  lemma LedgerShrinks(history: seq<Record>, retained: nat, limit: nat)
    requires retained <= |history|
    ensures Compacted(Ledger(history, retained), limit) == Ledger(history, if retained <= limit then retained else limit)
  {
    if retained > limit {
      var excess := retained - limit;
      assert history[|history| - retained..][excess..] == history[|history| - limit..];
    }
  }

  lemma OpenKeeps(w: World, retained: nat, limit: int)
    requires Keeps(w, retained) && OpenCell(w.cell, limit).Ok?
    ensures Keeps(Step(w, OpenOp(limit, false)), Min(retained, limit))
  {
    LoadOfWorld(w, retained);
    if w.history != [] {
      LedgerShrinks(w.history, retained, limit);
    }
  }

  lemma AppendStores(w: World, retained: nat, limit: nat, record: Record)
    requires Keeps(w, retained) && ValidLimit(limit) && Produced(record)
    requires AppendToCell(w.cell, limit, record).Ok?
    ensures AllTextsWellFormed(w.history)
    ensures AppendToCell(w.cell, limit, record).value == Save(Ledger(w.history + [record], Min(retained + 1, limit)))
  {
    LoadOfWorld(w, retained);
    EmptyLedger();
    LedgerGrows(w.history, retained, record, limit);
  }

  lemma HistoryGrows(w: World, retained: nat, record: Record, text: Text, kept: nat)
    requires Keeps(w, retained) && AllTextsWellFormed(w.history) && Produced(record)
    requires 0 < kept <= MAX_RETAINED && kept <= retained + 1
    requires text == Save(Ledger(w.history + [record], kept))
    ensures Keeps(World(Some(text), w.history + [record]), kept)
  {
    TextsGrow(w.history, record);
    ProducedGrow(w.history, record);
  }

  lemma TextsGrow(history: seq<Record>, record: Record)
    requires AllTextsWellFormed(history)
    ensures forall i :: 0 <= i < |history + [record]| - 1 ==> TextsWellFormed((history + [record])[i])
  {
    forall i | 0 <= i < |history| ensures TextsWellFormed((history + [record])[i]) {
      assert history[i] in history;
    }
  }

  lemma ProducedGrow(history: seq<Record>, record: Record)
    requires (forall r :: r in history ==> Produced(r)) && Produced(record)
    ensures forall r :: r in history + [record] ==> Produced(r)
  {
  }

  /** A successful observation appends a record that observe can produce. */
  lemma ObserveAppends(w: World, limit: nat, agents: set<Text>, response: LateResponse) returns (record: Record)
    requires ValidLimit(limit) && ObserveCell(w.cell, limit, agents, response).Ok?
    ensures Produced(record) && AppendToCell(w.cell, limit, record).Ok?
    ensures Step(w, ObserveOp(limit, agents, response, false))
         == World(Some(AppendToCell(w.cell, limit, record).value), w.history + [record])
  {
    var i := Interpret(response).value;
    ObservedIsProduced(response, agents);
    record := Record(i, Reconcile(i, agents));
  }

  lemma ObserveKeeps(w: World, retained: nat, limit: nat, agents: set<Text>, response: LateResponse)
    requires Keeps(w, retained) && ValidLimit(limit) && ObserveCell(w.cell, limit, agents, response).Ok?
    ensures Keeps(Step(w, ObserveOp(limit, agents, response, false)), Min(retained + 1, limit))
  {
    var record := ObserveAppends(w, limit, agents, response);
    AppendStores(w, retained, limit, record);
    HistoryGrows(w, retained, record, AppendToCell(w.cell, limit, record).value, Min(retained + 1, limit));
  }

  /** Whether the operation completes without an error. */
  predicate Succeeds(w: World, op: Op) {
    match op
    case OpenOp(limit, _) => OpenCell(w.cell, limit).Ok?
    case ObserveOp(limit, agents, response, _) => ValidLimit(limit) && ObserveCell(w.cell, limit, agents, response).Ok?
    case EraseOp => true
  }

  /** Whether it also writes what it computed. */
  predicate Writes(w: World, op: Op) {
    Succeeds(w, op) && !op.EraseOp? && !op.refused
  }

  /** How many records an operation leaves. */
  function RetainedAfter(w: World, retained: nat, op: Op): int {
    if op.EraseOp? then 0
    else if !Writes(w, op) then retained
    else Min(if op.ObserveOp? then retained + 1 else retained, op.limit)
  }

  /** An operation that throws, or is refused, leaves the stored state unchanged. */
  lemma FailureKeeps(w: World, op: Op)
    requires !op.EraseOp? && !Writes(w, op)
    ensures Step(w, op) == w
  {
  }

  lemma StepKeeps(w: World, retained: nat, op: Op)
    requires Keeps(w, retained)
    ensures RetainedAfter(w, retained, op) >= 0
    ensures Keeps(Step(w, op), RetainedAfter(w, retained, op))
    ensures !op.EraseOp? && !Writes(w, op) ==> Step(w, op) == w
  {
    if op.EraseOp? {
      assert Keeps(EMPTY_WORLD, 0);
    } else if !Writes(w, op) {
      FailureKeeps(w, op);
    } else {
      match op {
        case OpenOp(limit, _) => OpenKeeps(w, retained, limit);
        case ObserveOp(limit, agents, response, _) => ObserveKeeps(w, retained, limit, agents, response);
      }
    }
  }

  /** Run together with the number of records it leaves in the cell. */
  function RetainedByRun(ops: seq<Op>): int {
    if ops == [] then 0
    else RetainedAfter(Run(ops[..|ops| - 1]), Max(0, RetainedByRun(ops[..|ops| - 1])), ops[|ops| - 1])
  }

  lemma {:induction false} RunKeeps(ops: seq<Op>)
    ensures RetainedByRun(ops) >= 0 && Keeps(Run(ops), RetainedByRun(ops))
  {
    if ops != [] {
      var before := ops[..|ops| - 1];
      RunKeeps(before);
      StepKeeps(Run(before), RetainedByRun(before), ops[|ops| - 1]);
    }
  }

  /**
   Ledger law. After any run from an empty store, whatever limits the journals were
   opened with, the cell holds the clipped exact totals of all observations written since
   the cell was last deleted, and the most recent RetainedByRun(ops) of them, at most the
   limit of the last write.
   */
  lemma LedgerLaw(ops: seq<Op>)
    ensures
      var w, kept := Run(ops), RetainedByRun(ops);
      && 0 <= kept <= |w.history| && kept <= MAX_RETAINED
      && (w.history == [] ==> w.cell == None)
      && (w.history != [] ==> w.cell == Some(Save(Ledger(w.history, kept))))
      && (ops != [] && Writes(Run(ops[..|ops| - 1]), ops[|ops| - 1]) ==> kept <= ops[|ops| - 1].limit)
  {
    RunKeeps(ops);
    if ops != [] && Writes(Run(ops[..|ops| - 1]), ops[|ops| - 1]) {
      RetainedWithinLimit(ops);
    }
  }

  lemma RetainedWithinLimit(ops: seq<Op>)
    requires ops != [] && Writes(Run(ops[..|ops| - 1]), ops[|ops| - 1])
    ensures RetainedByRun(ops) <= ops[|ops| - 1].limit
  {
  }

  /** The newest record of a run is the one that its last write observed, and no other record is touched. */
  lemma NewestIsObserved(w: World, op: Op)
    requires op.ObserveOp? && Writes(w, op)
    ensures
      var observed := ObserveCell(w.cell, op.limit, op.agents, op.response).value;
      Step(w, op) == World(Some(observed.1), w.history + [observed.0])
  {
  }

  /**
   What the journal reads back after any run: its ledger, exactly when no written
   identifier holds an unpaired surrogate; otherwise the error of the strict reader.
   */
  lemma ReadableExactly(ops: seq<Op>)
    ensures
      var w, kept := Run(ops), RetainedByRun(ops);
      && 0 <= kept <= |w.history|
      && Load(w.cell) ==
         if w.history == [] then Ok(EMPTY_STATE)
         else if AllTextsWellFormed(w.history) then Ok(Ledger(w.history, kept))
         else Err(InvalidJson)
  {
    RunKeeps(ops);
    LoadOfWorld(Run(ops), RetainedByRun(ops));
  }

  lemma {:induction false} OutcomesPartition(history: seq<Record>)
    ensures CountOf(IsSuccess, history) + CountOf(IsError, history) + CountOf(IsMalformed, history) == |history|
  {
    if history != [] {
      OutcomesPartition(history[..|history| - 1]);
    }
  }

  /** Conservation below the clip: every observation has one outcome, and is retained or evicted. */
  lemma TotalsBalance(ops: seq<Op>)
    requires Load(Run(ops).cell).Ok? && |Run(ops).history| <= MAX_SAFE_INTEGER
    ensures
      var s := Load(Run(ops).cell).value;
      && s.totals.observed == |Run(ops).history|
      && s.totals.observed == s.totals.success + s.totals.error + s.totals.malformed
      && s.totals.observed == |s.records| + s.totals.evicted
      && s.totals.stateReconciled == 0
  {
    ReadableExactly(ops);
    OutcomesPartition(Run(ops).history);
  }

  // ---------------------------------------- the inputs that make it unreadable

  /** No text of the response holds an unpaired surrogate: the check on an inbound message. */
  predicate InboundChecked(r: LateResponse) {
    TextIntegrity(Obj(r.response))
  }

  /** Neither does the thread id of the request, nor the worker id: what the check on the outbound request leaves. */
  predicate RequestChecked(r: LateResponse) {
    && TextIntegrity(r.workerId)
    && (r.contextThreadId.Some? ==> TextIntegrity(r.contextThreadId.value))
  }

  /**
   Whether the record keeps the thread id of the request: always, unless a valid success
   of a request that creates a thread, or one that reopens a thread which the result names.
   */
  predicate KeepsRequestThread(r: LateResponse) {
    var name := ProtocolMethod(Some(r.protocolMethod));
    var hasResult := Lookup(r.response, Ascii("result")).Some?;
    EnvelopeOutcome(ErrorObject(r).Some?, hasResult, name) == Success ==>
      !CreatesThread(name) && (ReopensThread(name) ==> ResultThread(r).None?)
  }

  predicate WellFormedIfAny(t: Option<Text>) { t.Some? ==> WellFormed(t.value) }

  /** What observe needs beside a checked response: that the texts it keeps from the request side are well formed. */
  predicate RequestSideIntact(r: LateResponse) {
    && WellFormedIfAny(SafeIdentifier(Some(r.workerId)))
    && (KeepsRequestThread(r) ==> WellFormedIfAny(ContextThread(r)))
  }

  lemma PropertyIntact(v: Option<Value>, key: Text)
    requires v.Some? ==> TextIntegrity(v.value)
    ensures Property(v, key).Some? ==> TextIntegrity(Property(v, key).value)
  {
    if v.Some? && v.value.Obj? {
      LookupIntact(v.value.members, key);
    }
  }

  lemma IdentifierIntact(v: Option<Value>)
    requires v.Some? ==> TextIntegrity(v.value)
    ensures WellFormedIfAny(SafeIdentifier(v))
  {
    IdentifierProperties(v);
  }

  /** The identifiers of a checked response are well formed. */
  lemma ResultIntact(r: LateResponse)
    requires InboundChecked(r)
    ensures WellFormedIfAny(ResultThread(r)) && WellFormedIfAny(ResultTurn(r))
  {
    var result := Lookup(r.response, Ascii("result"));
    LookupIntact(r.response, Ascii("result"));
    PropertyIntact(result, Ascii("thread"));
    PropertyIntact(result, Ascii("turn"));
    PropertyIntact(result, Ascii("turnId"));
    PropertyIntact(Property(result, Ascii("thread")), Ascii("id"));
    PropertyIntact(Property(result, Ascii("turn")), Ascii("id"));
    IdentifierIntact(Property(Property(result, Ascii("thread")), Ascii("id")));
    IdentifierIntact(Property(Property(result, Ascii("turn")), Ascii("id")));
    IdentifierIntact(Property(result, Ascii("turnId")));
  }

  /** Which ids a success keeps. */
  lemma IdentifyKeeps(name: Text, context: Option<Text>, thread: Option<Text>, turn: Option<Text>)
    requires WellFormedIfAny(thread) && WellFormedIfAny(turn)
    ensures
      var c := Identify(name, context, thread, turn);
      && WellFormedIfAny(c.turnId)
      && (WellFormedIfAny(c.threadId) <==>
            (!CreatesThread(name) && (ReopensThread(name) ==> thread.None?) ==> WellFormedIfAny(context)))
  {
    FamiliesDisjoint(name);
  }

  /** A checked response is recorded without unpaired surrogates exactly when its request side has none. */
  lemma CheckedResponse(r: LateResponse, reconciliation: Reconciliation)
    requires InboundChecked(r) && Interpret(r).Ok?
    ensures TextsWellFormed(Record(Interpret(r).value, reconciliation)) <==> RequestSideIntact(r)
  {
    ResultIntact(r);
    IdentifyKeeps(ProtocolMethod(Some(r.protocolMethod)), ContextThread(r), ResultThread(r), ResultTurn(r));
    UnknownIsValid();
  }

  /** An observation that a journal with a valid limit would write, were its ledger readable. */
  predicate Recordable(op: Op) {
    op.ObserveOp? && !op.refused && ValidLimit(op.limit) && Interpret(op.response).Ok?
  }

  /** What the observation would record has no unpaired surrogate. */
  predicate RecordsIntact(op: Op)
    requires Recordable(op)
  {
    var i := Interpret(op.response).value;
    TextsWellFormed(Record(i, Reconcile(i, op.agents)))
  }

  ghost predicate AllRecordsIntact(ops: seq<Op>) {
    forall i :: 0 <= i < |ops| && Recordable(ops[i]) ==> RecordsIntact(ops[i])
  }

  lemma AllRecordsIntactAppend(init: seq<Op>, op: Op)
    ensures AllRecordsIntact(init + [op]) <==> AllRecordsIntact(init) && (Recordable(op) ==> RecordsIntact(op))
  {
    var ops := init + [op];
    assert ops[|init|] == op && forall i :: 0 <= i < |init| ==> init[i] == ops[i];
  }

  /** The operations after the last deletion of the cell. */
  function SinceErasure(ops: seq<Op>): (since: seq<Op>)
    ensures forall op :: op in since ==> op in ops
  {
    if ops == [] || ops[|ops| - 1].EraseOp? then [] else SinceErasure(ops[..|ops| - 1]) + [ops[|ops| - 1]]
  }

  /** On a readable ledger an operation leaves it readable exactly when it does not record a surrogate. */
  lemma StepDecides(w: World, retained: nat, op: Op)
    requires Keeps(w, retained) && AllTextsWellFormed(w.history) && !op.EraseOp?
    ensures AllTextsWellFormed(Step(w, op).history) <==> (Recordable(op) ==> RecordsIntact(op))
  {
    LoadOfWorld(w, retained);
    if Recordable(op) {
      var i := Interpret(op.response).value;
      AppendedTexts(w.history, Record(i, Reconcile(i, op.agents)));
    }
  }

  lemma AppendedTexts(history: seq<Record>, record: Record)
    requires AllTextsWellFormed(history)
    ensures AllTextsWellFormed(history + [record]) <==> TextsWellFormed(record)
  {
    assert record in history + [record];
  }

  /** On an unreadable one it changes nothing. */
  lemma StepUnreadable(w: World, retained: nat, op: Op)
    requires Keeps(w, retained) && !AllTextsWellFormed(w.history) && !op.EraseOp?
    ensures Step(w, op) == w
  {
    LoadOfWorld(w, retained);
    NothingSucceedsUnread(w, op);
    FailureKeeps(w, op);
  }

  /**
   Told from the inputs alone, after any run: the ledger is readable exactly when no
   recordable input since the cell was last deleted yields a surrogate.
   */
  lemma {:induction false} InputsDecide(ops: seq<Op>)
    ensures AllTextsWellFormed(Run(ops).history) <==> AllRecordsIntact(SinceErasure(ops))
    ensures Load(Run(ops).cell).Ok? <==> AllRecordsIntact(SinceErasure(ops))
  {
    if ops != [] && !ops[|ops| - 1].EraseOp? {
      var before, op := ops[..|ops| - 1], ops[|ops| - 1];
      InputsDecide(before);
      RunKeeps(before);
      AllRecordsIntactAppend(SinceErasure(before), op);
      if AllTextsWellFormed(Run(before).history) {
        StepDecides(Run(before), RetainedByRun(before), op);
      } else {
        StepUnreadable(Run(before), RetainedByRun(before), op);
      }
    }
    ReadableExactly(ops);
  }

  /**
   When every response has passed the inbound check, the journal reads what it has written
   exactly when every recordable one since the last deletion also has an intact request side.
   */
  lemma CheckedRunsDecide(ops: seq<Op>)
    requires forall op :: op in SinceErasure(ops) && op.ObserveOp? ==> InboundChecked(op.response)
    ensures Load(Run(ops).cell).Ok? <==>
      forall op :: op in SinceErasure(ops) && Recordable(op) ==> RequestSideIntact(op.response)
  {
    var since := SinceErasure(ops);
    InputsDecide(ops);
    forall i | 0 <= i < |since| && Recordable(since[i])
      ensures RecordsIntact(since[i]) <==> RequestSideIntact(since[i].response)
    {
      var r := Interpret(since[i].response).value;
      assert since[i] in since;
      CheckedResponse(since[i].response, Reconcile(r, since[i].agents));
    }
    if AllRecordsIntact(since) {
      forall op | op in since && Recordable(op) ensures RequestSideIntact(op.response) {
        var i :| 0 <= i < |since| && since[i] == op;
      }
    }
    if forall op :: op in since && Recordable(op) ==> RequestSideIntact(op.response) {
      forall i | 0 <= i < |since| && Recordable(since[i]) ensures RecordsIntact(since[i]) {
        assert since[i] in since;
      }
    }
  }

  lemma RequestCheckedIsIntact(r: LateResponse)
    requires RequestChecked(r)
    ensures RequestSideIntact(r)
  {
    IdentifierIntact(Some(r.workerId));
    IdentifierIntact(r.contextThreadId);
  }

  /**
   The journal never writes what it later rejects, as long as the wire layer has checked
   both directions: after every run the cell reads back as its ledger, field for field.
   */
  lemma CheckedRunsReadBack(ops: seq<Op>)
    requires forall op :: op in SinceErasure(ops) && op.ObserveOp? ==> InboundChecked(op.response) && RequestChecked(op.response)
    ensures
      var w, kept := Run(ops), RetainedByRun(ops);
      && 0 <= kept <= |w.history|
      && Load(w.cell) == Ok(if w.history == [] then EMPTY_STATE else Ledger(w.history, kept))
  {
    forall op | op in SinceErasure(ops) && Recordable(op) ensures RequestSideIntact(op.response) {
      RequestCheckedIsIntact(op.response);
    }
    CheckedRunsDecide(ops);
    ReadableExactly(ops);
  }

  /**
   One unpaired surrogate ends the journal: the observation that stores it succeeds, and
   every later operation throws, opening included, until the cell is deleted.
   */
  lemma UnreadableStaysUnreadable(ops: seq<Op>, op: Op)
    requires !AllTextsWellFormed(Run(ops).history)
    ensures if op.EraseOp? then Run(ops + [op]) == EMPTY_WORLD else !Succeeds(Run(ops), op) && Run(ops + [op]) == Run(ops)
  {
    ReadableExactly(ops);
    assert (ops + [op])[..|ops|] == ops;
    if !op.EraseOp? {
      NothingSucceedsUnread(Run(ops), op);
      FailureKeeps(Run(ops), op);
    }
  }

  lemma NothingSucceedsUnread(w: World, op: Op)
    requires Load(w.cell).Err? && !op.EraseOp?
    ensures !Succeeds(w, op)
  {
  }

  const LONE_SURROGATE: Text := [0xD800]

  /** A response whose request named the thread by an unpaired surrogate; no such request is ever sent. */
  function SurrogateResponse(): LateResponse {
    LateResponse(
      Num(1), Str(Ascii("model/list")), Num(0), Num(5), Str(Ascii("app-0")), Num(1),
      Some(Str(LONE_SURROGATE)), [Member(Ascii("result"), Null)])
  }

  /** Called directly, observe does write something it later rejects: nothing in it checks the request side. */
  lemma SurrogateIsStoredAndRejected()
    ensures InboundChecked(SurrogateResponse()) && !RequestChecked(SurrogateResponse())
    ensures
      var w := Run([ObserveOp(MAX_RETAINED, {}, SurrogateResponse(), false)]);
      |w.history| == 1 && w.cell.Some? && Load(w.cell) == Err(InvalidJson)
  {
    SurrogateIsElsewhere();
    SurrogateIsKept();
    SurrogateIsIdentifier();
    FirstObservation(SurrogateResponse());
  }

  /** The first response on an empty store is stored; it reads back exactly when its texts are well formed. */
  lemma FirstObservation(response: LateResponse)
    requires Interpret(response).Ok?
    ensures
      var w := Run([ObserveOp(MAX_RETAINED, {}, response, false)]);
      var record := Record(Interpret(response).value, Reconcile(Interpret(response).value, {}));
      && w.history == [record] && w.cell.Some?
      && (Load(w.cell).Ok? <==> TextsWellFormed(record))
      && (Load(w.cell).Err? ==> Load(w.cell) == Err(InvalidJson))
  {
    var op := ObserveOp(MAX_RETAINED, {}, response, false);
    RunOne(op);
    var record := Record(Interpret(response).value, Reconcile(Interpret(response).value, {}));
    FirstStep(response);
    ReadableExactly([op]);
    AppendedTexts([], record);
    assert [] + [record] == [record];
  }

  lemma FirstStep(response: LateResponse)
    requires Interpret(response).Ok?
    ensures
      var w := Step(EMPTY_WORLD, ObserveOp(MAX_RETAINED, {}, response, false));
      && w.history == [Record(Interpret(response).value, Reconcile(Interpret(response).value, {}))]
      && w.cell.Some?
  {
  }

  lemma RunOne(op: Op)
    ensures Run([op]) == Step(EMPTY_WORLD, op)
  {
    assert [op][..0] == [];
  }

  /** Requests outside the thread and turn families keep the thread id of the request. */
  lemma OtherMethodKeepsContext(name: Text, context: Option<Text>, thread: Option<Text>, turn: Option<Text>)
    requires name == [] || name[0] != 0x74
    ensures Identify(name, context, thread, turn) == Classified(Success, context, None)
  {
    assert Ascii("thread/start")[0] == 0x74 && Ascii("thread/fork")[0] == 0x74;
    assert Ascii("thread/resume")[0] == 0x74 && Ascii("thread/unarchive")[0] == 0x74;
    assert Ascii("thread/archive")[0] == 0x74 && Ascii("turn/start")[0] == 0x74;
  }

  lemma ModelListIsMethod()
    ensures IsMethodName(Ascii("model/list")) && Ascii("model/list")[0] == 0x6D
    ensures Ascii("model/list") != Unknown()
  {
    var name := Ascii("model/list");
    assert name == [0x6D, 0x6F, 0x64, 0x65, 0x6C, 0x2F, 0x6C, 0x69, 0x73, 0x74];
    assert |name| == 10 && |Unknown()| == 7;
  }

  lemma SurrogateIsIdentifier()
    ensures SafeIdentifier(Some(Str(LONE_SURROGATE))) == Some(LONE_SURROGATE)
    ensures !WellFormed(LONE_SURROGATE)
  {
    assert IsIdentifier(LONE_SURROGATE);
    IdentifierProperties(Some(Str(LONE_SURROGATE)));
  }

  lemma ResultOnly(value: Value)
    ensures Lookup([Member(Ascii("result"), value)], Ascii("error")) == None
    ensures Lookup([Member(Ascii("result"), value)], Ascii("result")) == Some(value)
  {
    assert |Ascii("error")| == 5 && |Ascii("result")| == 6;
  }

  lemma SurrogateIsElsewhere()
    ensures InboundChecked(SurrogateResponse())
  {
    AsciiWellFormed("result");
    assert SurrogateResponse().response == [Member(Ascii("result"), Null)];
  }

  lemma SurrogateIsKept()
    ensures
      var i := Interpret(SurrogateResponse());
      i.Ok? && i.value.threadId == Some(LONE_SURROGATE)
  {
    var r := SurrogateResponse();
    SurrogateIsIdentifier();
    ModelListIsMethod();
    ResultOnly(Null);
    OtherMethodKeepsContext(
      Ascii("model/list"), Some(LONE_SURROGATE),
      SafeIdentifier(Property(Property(Some(Null), Ascii("thread")), Ascii("id"))),
      OrElse(
        SafeIdentifier(Property(Property(Some(Null), Ascii("turn")), Ascii("id"))),
        SafeIdentifier(Property(Some(Null), Ascii("turnId")))));
  }
}

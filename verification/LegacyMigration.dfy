/**
 Which schema-18 sessions, agent threads and Agents survive the migration, computed
 three times in the source: by acceptedLegacyContexts, by sessionContextDigest and
 agentStateDigest (scripts/card-state-restart-audit.ts), and by the SQL statements of
 migrateV18ToV19 (src/stateStore.ts) that the first two are meant to predict.

 Tables are finite maps by primary key. A payload is the text of a JSON object, given by
 its members in order.
 */
module LegacyMigration {
  import opened Utf16
  import opened Wrappers
  import opened Json

  /** The project columns that sessions and agent_threads share. */
  datatype ProjectColumns = ProjectColumns(
    projectId: Option<Text>,
    projectLabel: Option<Text>,
    projectUuid: Option<Text>,
    projectNameSnapshot: Option<Text>)

  /** The properties of a payload that are read here. */
  datatype Payload = Payload(
    projectId: Option<Value>,
    projectLabel: Option<Value>,
    backendKind: Option<Value>,
    sandbox: Option<Value>,
    sessionId: Option<Value>,
    forkedFromThreadId: Option<Value>,
    persistence: Option<Value>,
    visibleInCodexApp: Option<Value>,
    selection: Option<Value>,
    policyRevision: Option<Value>,
    createdAt: Option<Value>,
    updatedAt: Option<Value>)

  datatype LegacySession = LegacySession(
    scopeId: Text, cwd: Text, lastUsedAt: int, payload: seq<Member>, project: ProjectColumns)

  datatype LegacyThread = LegacyThread(
    agentId: Text, scopeId: Text, backendKind: Text, cwd: Text, sandbox: Text, contextMode: Text,
    isCurrent: bool, linkedAt: int, replacedAt: Option<int>, forkedFromThreadId: Option<Text>,
    sessionId: Option<Text>, project: ProjectColumns)

  datatype Lifecycle = Idle | Active | WaitingInput | Archived | Orphaned

  datatype Agent = Agent(
    scopeId: Text, agentName: Text, normalizedName: Text, lifecycle: Lifecycle,
    currentThreadId: Option<Text>, currentJobId: Option<Text>, version: int,
    createdAt: int, updatedAt: int, orphanedReason: Option<Text>)

  datatype Database = Database(
    projects: set<Text>,
    sessions: map<Text, LegacySession>,
    threads: map<Text, LegacyThread>,
    agents: map<Text, Agent>,
    connections: map<Text, Text>)

  /** A row of the current sessions table, as both versions of the digest present it. */
  datatype SessionContext = SessionContext(
    scopeId: Text, projectId: Option<Text>, backendKind: Text, cwd: Text, sandbox: Text,
    sessionId: Option<Text>, forkedFromThreadId: Option<Text>, persistence: Text,
    visibleInCodexApp: Option<bool>, selection: Option<Value>, policyRevision: Option<int>,
    createdAt: int, updatedAt: int, lastUsedAt: int)

  /** A row of the current agent_threads table. */
  datatype ThreadLink = ThreadLink(
    agentId: Text, contextMode: Text, isCurrent: bool, linkedAt: int, replacedAt: Option<int>)

  const PERSISTENT: Text := Ascii("persistent")
  const EPHEMERAL: Text := Ascii("ephemeral")
  const UNKNOWN: Text := Ascii("unknown")
  const APP_SERVER: Text := Ascii("app-server")
  const CODEX_SDK: Text := Ascii("codex-sdk")
  const MCP_SERVER: Text := Ascii("mcp-server")
  const READ_ONLY: Text := Ascii("read-only")
  const WORKSPACE_WRITE: Text := Ascii("workspace-write")
  const DANGER_FULL_ACCESS: Text := Ascii("danger-full-access")
  const PROJECT_REMOVED: Text := Ascii("legacy-project-context-removed")

  predicate IsPersistence(t: Text) { t == PERSISTENT || t == EPHEMERAL || t == UNKNOWN }

  predicate IsSandbox(t: Text) { t == READ_ONLY || t == WORKSPACE_WRITE || t == DANGER_FULL_ACCESS }

  function PayloadOf(members: seq<Member>): Payload {
    Payload(
      Lookup(members, Ascii("projectId")), Lookup(members, Ascii("projectLabel")),
      Lookup(members, Ascii("backendKind")), Lookup(members, Ascii("sandbox")),
      Lookup(members, Ascii("sessionId")), Lookup(members, Ascii("forkedFromThreadId")),
      Lookup(members, Ascii("persistence")), Lookup(members, Ascii("visibleInCodexApp")),
      Lookup(members, Ascii("selection")), Lookup(members, Ascii("policyRevision")),
      Lookup(members, Ascii("createdAt")), Lookup(members, Ascii("updatedAt")))
  }

  /** The payload as JSON.parse reads it: the last of repeated keys counts. */
  function Parsed(s: LegacySession): Payload { PayloadOf(BuildMembers(s.payload)) }

  /** The payload as json_extract reads it: the first of repeated keys counts. */
  function Extracted(s: LegacySession): Payload { PayloadOf(s.payload) }

  /** The CHECK constraint of thread_connections, and payloads without repeated keys, as JSON.stringify wrote them. */
  predicate ValidDatabase(db: Database) {
    && (forall t :: t in db.connections ==> IsPersistence(db.connections[t]))
    && (forall t :: t in db.sessions ==> WellKeyed(Obj(db.sessions[t].payload)))
  }

  // ------------------------------------------------- the audit: accepted contexts

  /** `value === null || value === undefined` for a column and for a payload property. */
  predicate NoColumn(c: Option<Text>) { c.None? }

  predicate NoProperty(v: Option<Value>) { v.None? || v.value.Null? }

  /** `row.project_uuid ?? row.project_id` */
  function RawProject(c: ProjectColumns): Option<Text> {
    if c.projectUuid.Some? then c.projectUuid else c.projectId
  }

  predicate InProjects(id: Option<Text>, projects: set<Text>) { id.Some? && id.value in projects }

  /** acceptedLegacyProjectContext; payload is given for sessions only. */
  predicate AcceptedProjectContext(c: ProjectColumns, projects: set<Text>, payload: Option<Payload>) {
    || InProjects(RawProject(c), projects)
    || (&& NoColumn(c.projectId) && NoColumn(c.projectLabel) && NoColumn(c.projectUuid)
        && NoColumn(c.projectNameSnapshot)
        && (payload.Some? ==> NoProperty(payload.value.projectId) && NoProperty(payload.value.projectLabel)))
  }

  predicate SessionAccepted(db: Database, t: Text)
    requires t in db.sessions
  {
    AcceptedProjectContext(db.sessions[t].project, db.projects, Some(Parsed(db.sessions[t])))
  }

  predicate ThreadAccepted(db: Database, t: Text)
    requires t in db.threads
  {
    AcceptedProjectContext(db.threads[t].project, db.projects, None)
  }

  /** What acceptedLegacyContexts returns. */
  function SessionThreadIds(db: Database): set<Text> {
    (set t | t in db.sessions && SessionAccepted(db, t))
    + (set t | t in db.threads && ThreadAccepted(db, t) && t !in db.sessions)
  }

  function AgentThreadIds(db: Database): set<Text> {
    set t | t in db.threads && ThreadAccepted(db, t) && t in SessionThreadIds(db)
  }

  /** acceptedLegacyContexts; the loops visit the rows of a table in any order. */
  method AcceptedLegacyContexts(db: Database) returns (sessionThreadIds: set<Text>, agentThreadIds: set<Text>)
    ensures sessionThreadIds == SessionThreadIds(db)
    ensures agentThreadIds == AgentThreadIds(db)
  {
    sessionThreadIds := set t | t in db.sessions && SessionAccepted(db, t);
    var acceptedAgentRows := set t | t in db.threads && ThreadAccepted(db, t);
    var todo := acceptedAgentRows;
    while todo != {}
      invariant todo <= acceptedAgentRows
      invariant sessionThreadIds == (set t | t in db.sessions && SessionAccepted(db, t))
                                    + (set t | t in acceptedAgentRows && t !in todo && t !in db.sessions)
      decreases todo
    {
      var threadId :| threadId in todo;
      if threadId !in db.sessions {
        sessionThreadIds := sessionThreadIds + {threadId};
      }
      todo := todo - {threadId};
    }
    agentThreadIds := set t | t in acceptedAgentRows && t in sessionThreadIds;
  }

  // --------------------------------------------- the audit: session contexts

  function NonEmptyText(v: Option<Value>): Option<Text> {
    if v.Some? && v.value.Str? && v.value.text != [] then Some(v.value.text) else None
  }

  function JsonBoolean(v: Option<Value>): Option<bool> {
    if v == Some(Bool(true)) || v == Some(Num(1)) then Some(true)
    else if v == Some(Bool(false)) || v == Some(Num(0)) then Some(false)
    else None
  }

  function NumberOr(v: Option<Value>, fallback: int): int {
    if v.Some? && v.value.Num? then v.value.number else fallback
  }

  function Connection(db: Database, t: Text): Option<Text> {
    if t in db.connections then Some(db.connections[t]) else None
  }

  function AuditPersistence(payload: Payload, connection: Option<Text>): Text {
    var own := NonEmptyText(payload.persistence);
    if own.Some? && IsPersistence(own.value) then own.value
    else if connection.Some? && IsPersistence(connection.value) then connection.value
    else
      match JsonBoolean(payload.visibleInCodexApp)
      case Some(true) => PERSISTENT
      case Some(false) => EPHEMERAL
      case None => UNKNOWN
  }

  /** hasUnmatchedProjectMetadata of sessionContextDigest. */
  predicate HasUnmatchedProjectMetadata(db: Database, s: LegacySession) {
    && !InProjects(RawProject(s.project), db.projects)
    && (|| s.project.projectId.Some? || s.project.projectLabel.Some? || s.project.projectUuid.Some?
        || s.project.projectNameSnapshot.Some?
        || !NoProperty(Parsed(s).projectId) || !NoProperty(Parsed(s).projectLabel))
  }

  function AuditSession(db: Database, t: Text): SessionContext
    requires t in db.sessions
  {
    var s := db.sessions[t];
    var p := Parsed(s);
    var raw := RawProject(s.project);
    SessionContext(
      s.scopeId,
      if InProjects(raw, db.projects) then raw else None,
      if p.backendKind == Some(Str(APP_SERVER)) then APP_SERVER
      else if p.backendKind == Some(Str(CODEX_SDK)) then CODEX_SDK else MCP_SERVER,
      s.cwd,
      if p.sandbox == Some(Str(READ_ONLY)) then READ_ONLY
      else if p.sandbox == Some(Str(DANGER_FULL_ACCESS)) then DANGER_FULL_ACCESS else WORKSPACE_WRITE,
      NonEmptyText(p.sessionId),
      NonEmptyText(p.forkedFromThreadId),
      AuditPersistence(p, Connection(db, t)),
      JsonBoolean(p.visibleInCodexApp),
      if p.selection.Some? && p.selection.value.Obj? then p.selection else None,
      if p.policyRevision.Some? && p.policyRevision.value.Num? && p.policyRevision.value.number >= 0
      then Some(p.policyRevision.value.number) else None,
      NumberOr(p.createdAt, s.lastUsedAt),
      NumberOr(p.updatedAt, s.lastUsedAt),
      s.lastUsedAt)
  }

  function IntOr(n: Option<int>, fallback: int): int {
    match n
    case Some(k) => k
    case None => fallback
  }

  function AuditThreadSession(db: Database, t: Text): SessionContext
    requires t in db.threads
  {
    var row := db.threads[t];
    var last := IntOr(row.replacedAt, row.linkedAt);
    SessionContext(
      row.scopeId, RawProject(row.project), row.backendKind, row.cwd, row.sandbox, row.sessionId,
      row.forkedFromThreadId, if t in db.connections then db.connections[t] else UNKNOWN,
      None, None, None, row.linkedAt, last, last)
  }

  function LegacySessionRows(db: Database): map<Text, SessionContext> {
    map t | t in db.sessions && !HasUnmatchedProjectMetadata(db, db.sessions[t]) :: AuditSession(db, t)
  }

  /** A row is made for an accepted agent thread that no session mirrors. */
  predicate NeedsSession(db: Database, t: Text)
    requires t in db.threads
  {
    t !in db.sessions && ThreadAccepted(db, t)
  }

  function ThreadRows(db: Database, visited: set<Text>): map<Text, SessionContext>
    requires visited <= db.threads.Keys
  {
    map t | t in visited && NeedsSession(db, t) :: AuditThreadSession(db, t)
  }

  /** The rows that sessionContextDigest hashes for schema 18, by thread id. */
  function AuditSessions(db: Database): map<Text, SessionContext> {
    LegacySessionRows(db) + ThreadRows(db, db.threads.Keys)
  }

  lemma AddRow(base: map<Text, SessionContext>, rows: map<Text, SessionContext>, t: Text, c: SessionContext)
    ensures base + rows[t := c] == (base + rows)[t := c]
  {
  }

  lemma VisitThread(db: Database, visited: set<Text>, t: Text)
    requires visited <= db.threads.Keys && t in db.threads
    ensures ThreadRows(db, visited + {t}) ==
      if NeedsSession(db, t) then ThreadRows(db, visited)[t := AuditThreadSession(db, t)] else ThreadRows(db, visited)
  {
  }

  /** The loop of sessionContextDigest over agent_threads, with its two skips. */
  method SessionContextRows(db: Database) returns (rows: map<Text, SessionContext>)
    ensures rows == AuditSessions(db)
  {
    rows := LegacySessionRows(db);
    var todo := db.threads.Keys;
    ghost var visited: set<Text> := {};
    while todo != {}
      invariant todo + visited == db.threads.Keys
      invariant rows == LegacySessionRows(db) + ThreadRows(db, visited)
      decreases todo
    {
      var t :| t in todo;
      VisitThread(db, visited, t);
      AddRow(LegacySessionRows(db), ThreadRows(db, visited), t, AuditThreadSession(db, t));
      todo := todo - {t};
      visited := visited + {t};
      if t in db.sessions || !ThreadAccepted(db, t) {
        continue;
      }
      rows := rows[t := AuditThreadSession(db, t)];
    }
    assert visited == db.threads.Keys;
  }

  // --------------------------------------------------------- the audit: Agents

  /** The thread that agentStateDigest keeps as current: a non-empty id of an accepted thread of the same Agent. */
  function AuditCurrent(db: Database, id: Text): Option<Text>
    requires id in db.agents
  {
    var row := db.agents[id];
    var previous := if row.currentThreadId.Some? && row.currentThreadId.value != [] then row.currentThreadId else None;
    if previous.Some? && previous.value in AgentThreadIds(db) && db.threads[previous.value].agentId == id then previous else None
  }

  /** The row mapping of agentStateDigest for schema 18. */
  function AuditAgent(db: Database, id: Text): Agent
    requires id in db.agents
  {
    var row := db.agents[id];
    var current := AuditCurrent(db, id);
    var lifecycle := if row.lifecycle == Archived then Idle else row.lifecycle;
    if (lifecycle == Active || lifecycle == WaitingInput) && current.None? then
      row.(lifecycle := Orphaned, currentThreadId := None, currentJobId := None, version := row.version + 1,
           orphanedReason := if row.orphanedReason.Some? then row.orphanedReason else Some(PROJECT_REMOVED))
    else row.(lifecycle := lifecycle, currentThreadId := current)
  }

  function AuditAgents(db: Database): map<Text, Agent> {
    map id | id in db.agents :: AuditAgent(db, id)
  }

  // -------------------------------------------------------- the audit: drop counts

  /** `LEFT JOIN projects p ON p.project_id = COALESCE(project_uuid, project_id)`: the joined key. */
  function JoinedProject(db: Database, c: ProjectColumns): Option<Text> {
    match RawProject(c)
    case Some(id) => if id in db.projects then Some(id) else None
    case None => None
  }

  datatype Sql = SqlNull | SqlInteger(number: int) | SqlText(text: Text)

  function SqlColumn(c: Option<Text>): Sql {
    match c
    case None => SqlNull
    case Some(t) => SqlText(t)
  }

  /** json_extract of one property: JSON null is NULL, booleans are 0 and 1, containers are their text. */
  function JsonExtract(v: Option<Value>): Sql {
    match v
    case None => SqlNull
    case Some(Null) => SqlNull
    case Some(Bool(flag)) => SqlInteger(if flag then 1 else 0)
    case Some(Num(n)) => SqlInteger(n)
    case Some(Str(s)) => SqlText(s)
    case Some(Arr(_)) => SqlText(Stringify(v.value))
    case Some(Obj(_)) => SqlText(Stringify(v.value))
  }

  function Coalesce(values: seq<Sql>): Sql {
    if values == [] then SqlNull
    else if values[0] != SqlNull then values[0]
    else Coalesce(values[1..])
  }

  predicate SqlSessionKept(db: Database, s: LegacySession) {
    || JoinedProject(db, s.project).Some?
    || Coalesce(
         [ SqlColumn(s.project.projectId), SqlColumn(s.project.projectLabel), SqlColumn(s.project.projectUuid),
           SqlColumn(s.project.projectNameSnapshot),
           JsonExtract(Extracted(s).projectId), JsonExtract(Extracted(s).projectLabel) ]) == SqlNull
  }

  predicate SqlThreadKept(db: Database, t: LegacyThread) {
    || JoinedProject(db, t.project).Some?
    || Coalesce(
         [ SqlColumn(t.project.projectId), SqlColumn(t.project.projectLabel), SqlColumn(t.project.projectUuid),
           SqlColumn(t.project.projectNameSnapshot) ]) == SqlNull
  }

  /** The three sets that approvedDropCounts counts. */
  function InvalidProjectSessions(db: Database): set<Text> {
    set t | t in db.sessions && !SqlSessionKept(db, db.sessions[t])
  }

  function InvalidProjectThreads(db: Database): set<Text> {
    set t | t in db.threads && !SqlThreadKept(db, db.threads[t])
  }

  function SessionRejectedThreads(db: Database): set<Text> {
    set t | t in db.threads && ThreadAccepted(db, t) && t !in AgentThreadIds(db)
  }

  // -------------------------------------------------------------- the migration

  const REPLACEMENT: Text := [0xFFFD]

  /**
   A text read back from a TEXT column: SQLite stores an unpaired surrogate as three bytes
   that are no UTF-8, each of which reads back as the replacement character.
   */
  function StoredText(t: Text): Text {
    if t == [] then []
    else if StartsWithPair(t) then t[..2] + StoredText(t[2..])
    else (if IsSurrogate(t[0]) then REPLACEMENT + REPLACEMENT + REPLACEMENT else [t[0]]) + StoredText(t[1..])
  }

  /** Storing a text is lossless exactly when it has no unpaired surrogate. */
  lemma {:induction false} StoredTextDecides(t: Text)
    ensures |StoredText(t)| >= |t|
    ensures StoredText(t) == t <==> WellFormed(t)
  {
    if StartsWithPair(t) {
      StoredTextDecides(t[2..]);
      assert t == t[..2] + t[2..];
      assert StoredText(t)[2..] == StoredText(t[2..]);
    } else if t != [] {
      StoredTextDecides(t[1..]);
      assert t == [t[0]] + t[1..];
      assert IsSurrogate(t[0]) ==> |StoredText(t)| > |t|;
      assert !IsSurrogate(t[0]) ==> StoredText(t)[1..] == StoredText(t[1..]);
    }
  }

  function TextOfSql(v: Sql): Option<Text> {
    match v
    case SqlNull => None
    case SqlInteger(n) => Some(Number(n))
    case SqlText(t) => Some(StoredText(t))
  }

  /** `NULLIF(value, '')` stored into a TEXT column. */
  function StoredNonEmpty(v: Sql): Option<Text> {
    if v == SqlText([]) then None else TextOfSql(v)
  }

  function SqlPersistence(payload: Payload, connection: Option<Text>): Text {
    var own := JsonExtract(payload.persistence);
    var visible := JsonExtract(payload.visibleInCodexApp);
    if own.SqlText? && IsPersistence(own.text) then own.text
    else if connection.Some? && IsPersistence(connection.value) then connection.value
    else if visible == SqlInteger(1) then PERSISTENT
    else if visible == SqlInteger(0) then EPHEMERAL
    else UNKNOWN
  }

  function IntegerOr(v: Sql, fallback: int): int {
    if v.SqlInteger? then v.number else fallback
  }

  /** The selection as stored text, read back by parseNullableJson. */
  function StoredSelection(v: Option<Value>): Option<Value> {
    if v.Some? && v.value.Obj? then Parse(Stringify(v.value)) else None
  }

  /** The first INSERT INTO sessions. */
  function MigratedSession(db: Database, t: Text): SessionContext
    requires t in db.sessions
  {
    var s := db.sessions[t];
    var p := Extracted(s);
    var backend := JsonExtract(p.backendKind);
    var sandbox := JsonExtract(p.sandbox);
    var visible := JsonExtract(p.visibleInCodexApp);
    var policy := JsonExtract(p.policyRevision);
    SessionContext(
      s.scopeId,
      JoinedProject(db, s.project),
      if backend == SqlText(APP_SERVER) then APP_SERVER
      else if backend == SqlText(CODEX_SDK) then CODEX_SDK else MCP_SERVER,
      s.cwd,
      if sandbox == SqlText(READ_ONLY) then READ_ONLY
      else if sandbox == SqlText(DANGER_FULL_ACCESS) then DANGER_FULL_ACCESS else WORKSPACE_WRITE,
      StoredNonEmpty(JsonExtract(p.sessionId)),
      StoredNonEmpty(JsonExtract(p.forkedFromThreadId)),
      SqlPersistence(p, Connection(db, t)),
      if visible == SqlInteger(1) then Some(true) else if visible == SqlInteger(0) then Some(false) else None,
      StoredSelection(p.selection),
      if policy.SqlInteger? && policy.number >= 0 then Some(policy.number) else None,
      IntegerOr(JsonExtract(p.createdAt), s.lastUsedAt),
      IntegerOr(JsonExtract(p.updatedAt), s.lastUsedAt),
      s.lastUsedAt)
  }

  /** The second INSERT, OR IGNORE: a row that fails the sandbox CHECK is skipped. */
  function MigratedThreadSession(db: Database, t: Text): SessionContext
    requires t in db.threads
  {
    var row := db.threads[t];
    var last := IntOr(row.replacedAt, row.linkedAt);
    SessionContext(
      row.scopeId, JoinedProject(db, row.project), row.backendKind, row.cwd, row.sandbox, row.sessionId,
      row.forkedFromThreadId,
      (match Connection(db, t) case Some(c) => c case None => UNKNOWN),
      None, None, None, row.linkedAt, last, last)
  }

  function KeptSessionRows(db: Database): map<Text, SessionContext> {
    map t | t in db.sessions && SqlSessionKept(db, db.sessions[t]) :: MigratedSession(db, t)
  }

  function InsertedThreadRows(db: Database): map<Text, SessionContext> {
    map t | && t in db.threads && SqlThreadKept(db, db.threads[t]) && t !in db.sessions
            && IsSandbox(db.threads[t].sandbox) :: MigratedThreadSession(db, t)
  }

  function MigratedSessions(db: Database): map<Text, SessionContext> {
    KeptSessionRows(db) + InsertedThreadRows(db)
  }

  /** INSERT INTO agent_threads … JOIN sessions. */
  function MigratedThreads(db: Database): map<Text, ThreadLink> {
    map t | t in db.threads && t in MigratedSessions(db) && SqlThreadKept(db, db.threads[t]) ::
      LinkOf(db.threads[t])
  }

  /** INSERT INTO agents and the two UPDATEs after it. */
  function InsertedAgent(row: Agent): Agent {
    row.(lifecycle := if row.lifecycle == Archived then Idle else row.lifecycle, currentThreadId := None)
  }

  function LinkedAgent(db: Database, id: Text, row: Agent): Agent
    requires id in db.agents
  {
    row.(currentThreadId := SqlCurrent(db, id))
  }

  /** The subquery of the first UPDATE. */
  function SqlCurrent(db: Database, id: Text): Option<Text>
    requires id in db.agents
  {
    var previous := db.agents[id].currentThreadId;
    if previous.Some? && previous.value in MigratedThreads(db) && MigratedThreads(db)[previous.value].agentId == id then previous
    else None
  }

  function OrphanedAgent(row: Agent): Agent {
    if (row.lifecycle == Active || row.lifecycle == WaitingInput) && row.currentThreadId.None? then
      row.(lifecycle := Orphaned, currentJobId := None, version := row.version + 1,
           orphanedReason := if row.orphanedReason.Some? then row.orphanedReason else Some(PROJECT_REMOVED))
    else row
  }

  function MigratedAgents(db: Database): map<Text, Agent> {
    map id | id in db.agents :: OrphanedAgent(LinkedAgent(db, id, InsertedAgent(db.agents[id])))
  }

  // ---------------------------------------------- one rule, written three times

  /** The two audit functions are one rule on every row, and so is the SQL condition on agent threads. */
  lemma AuditRulesAgree(db: Database)
    ensures forall t :: t in db.sessions ==>
      (SessionAccepted(db, t) <==> !HasUnmatchedProjectMetadata(db, db.sessions[t]))
    ensures forall t :: t in db.threads ==> (ThreadAccepted(db, t) <==> SqlThreadKept(db, db.threads[t]))
  {
    forall t | t in db.threads ensures ThreadAccepted(db, t) <==> SqlThreadKept(db, db.threads[t]) {
      var c := db.threads[t].project;
      FourNull(SqlColumn(c.projectId), SqlColumn(c.projectLabel), SqlColumn(c.projectUuid), SqlColumn(c.projectNameSnapshot));
    }
  }

  /** Without repeated keys both readers see one payload. */
  lemma PayloadReadAlike(db: Database, t: Text)
    requires ValidDatabase(db) && t in db.sessions
    ensures Parsed(db.sessions[t]) == Extracted(db.sessions[t])
    ensures
      var selection := Parsed(db.sessions[t]).selection;
      selection.Some? ==> WellKeyed(selection.value)
  {
    BuildMembersIdentity(db.sessions[t].payload);
    LookupWellKeyed(db.sessions[t].payload, Ascii("selection"));
  }

  /** With repeated keys they need not: SQLite keeps the first session id, the audit prints the last. */
  lemma RepeatedKeyIsReadTwoWays(db: Database, t: Text, x: Text, y: Text)
    requires t in db.sessions && x != [] && y != [] && WellFormed(x)
    requires db.sessions[t].payload == [Member(Ascii("sessionId"), Str(x)), Member(Ascii("sessionId"), Str(y))]
    ensures MigratedSession(db, t).sessionId == Some(x) && AuditSession(db, t).sessionId == Some(y)
  {
    var first, last := Member(Ascii("sessionId"), Str(x)), Member(Ascii("sessionId"), Str(y));
    assert [first, last][..1] == [first] && [first][..0] == [];
    assert BuildMembers([first]) == [first];
    assert BuildMembers([first, last]) == [last];
    StoredTextDecides(x);
  }

  /** Every formulation of the rule agrees on every row. */
  lemma RulesAgree(db: Database)
    requires ValidDatabase(db)
    ensures forall t :: t in db.sessions ==>
      (SessionAccepted(db, t) <==> !HasUnmatchedProjectMetadata(db, db.sessions[t]))
    ensures forall t :: t in db.sessions ==> (SessionAccepted(db, t) <==> SqlSessionKept(db, db.sessions[t]))
    ensures forall t :: t in db.threads ==> (ThreadAccepted(db, t) <==> SqlThreadKept(db, db.threads[t]))
  {
    AuditRulesAgree(db);
    forall t | t in db.sessions ensures SessionAccepted(db, t) <==> SqlSessionKept(db, db.sessions[t]) {
      PayloadReadAlike(db, t);
      SessionRule(db, t);
    }
  }

  lemma SessionRule(db: Database, t: Text)
    requires t in db.sessions && Parsed(db.sessions[t]) == Extracted(db.sessions[t])
    ensures SessionAccepted(db, t) <==> SqlSessionKept(db, db.sessions[t])
  {
    var s := db.sessions[t];
    SixNull(SqlColumn(s.project.projectId), SqlColumn(s.project.projectLabel), SqlColumn(s.project.projectUuid),
            SqlColumn(s.project.projectNameSnapshot),
            JsonExtract(Extracted(s).projectId), JsonExtract(Extracted(s).projectLabel));
  }

  lemma {:induction false} CoalesceNull(values: seq<Sql>)
    ensures Coalesce(values) == SqlNull <==> forall i :: 0 <= i < |values| ==> values[i] == SqlNull
  {
    if values != [] && values[0] == SqlNull {
      CoalesceNull(values[1..]);
      assert forall i :: 1 <= i < |values| ==> values[i] == values[1..][i - 1];
    }
  }

  lemma SixNull(a: Sql, b: Sql, c: Sql, d: Sql, e: Sql, f: Sql)
    ensures Coalesce([a, b, c, d, e, f]) == SqlNull
       <==> a == SqlNull && b == SqlNull && c == SqlNull && d == SqlNull && e == SqlNull && f == SqlNull
  {
    var values := [a, b, c, d, e, f];
    CoalesceNull(values);
    assert values[0] == a && values[1] == b && values[2] == c && values[3] == d && values[4] == e && values[5] == f;
  }

  lemma FourNull(a: Sql, b: Sql, c: Sql, d: Sql)
    ensures Coalesce([a, b, c, d]) == SqlNull <==> a == SqlNull && b == SqlNull && c == SqlNull && d == SqlNull
  {
    var values := [a, b, c, d];
    CoalesceNull(values);
    assert values[0] == a && values[1] == b && values[2] == c && values[3] == d;
  }

  /** sessionContextDigest and acceptedLegacyContexts compute one set of surviving threads. */
  lemma DigestThreadsAgree(db: Database)
    ensures AuditSessions(db).Keys == SessionThreadIds(db)
  {
    AuditRulesAgree(db);
  }

  /** Agent threads without a session of their own, which the sandbox CHECK would drop, do not occur. */
  predicate SandboxesValid(db: Database) {
    forall t :: t in db.threads && NeedsSession(db, t) ==> IsSandbox(db.threads[t].sandbox)
  }

  /** The thread has no session to survive with and fails the CHECK of the sessions table. */
  predicate SandboxDropped(db: Database, t: Text) {
    t in db.threads && NeedsSession(db, t) && !IsSandbox(db.threads[t].sandbox)
  }

  function DroppedThreads(db: Database): set<Text> {
    set t | t in db.threads && SandboxDropped(db, t)
  }

  /** What the CHECK drops, the audit has not approved. */
  lemma DroppedAreKept(db: Database)
    ensures DroppedThreads(db) <= AgentThreadIds(db) && DroppedThreads(db) <= SessionThreadIds(db)
    ensures DroppedThreads(db) == {} <==> SandboxesValid(db)
  {
    if DroppedThreads(db) == {} {
      forall t | t in db.threads && NeedsSession(db, t) ensures IsSandbox(db.threads[t].sandbox) {
        assert t !in DroppedThreads(db);
      }
    }
  }

  /** Which predicted sessions the migration writes. */
  lemma SessionWritten(db: Database, t: Text)
    requires ValidDatabase(db)
    ensures t in MigratedSessions(db) <==> t in SessionThreadIds(db) && t !in DroppedThreads(db)
  {
    AuditRulesAgree(db);
    if t in db.sessions {
      PayloadReadAlike(db, t);
      SessionRule(db, t);
    }
  }

  lemma WrittenSessions(db: Database)
    requires ValidDatabase(db)
    ensures MigratedSessions(db).Keys == SessionThreadIds(db) - DroppedThreads(db)
  {
    forall t ensures t in MigratedSessions(db).Keys <==> t in SessionThreadIds(db) && t !in DroppedThreads(db) {
      SessionWritten(db, t);
    }
  }

  /** Which predicted agent threads the migration writes. */
  lemma ThreadWritten(db: Database, t: Text)
    requires ValidDatabase(db)
    ensures t in MigratedThreads(db) <==> t in AgentThreadIds(db) && t !in DroppedThreads(db)
  {
    AuditRulesAgree(db);
    SessionWritten(db, t);
  }

  lemma WrittenThreads(db: Database)
    requires ValidDatabase(db)
    ensures MigratedThreads(db).Keys == AgentThreadIds(db) - DroppedThreads(db)
  {
    forall t ensures t in MigratedThreads(db).Keys <==> t in AgentThreadIds(db) && t !in DroppedThreads(db) {
      ThreadWritten(db, t);
    }
  }

  /** The migration keeps the predicted sessions exactly when no needed sandbox is invalid. */
  lemma SessionKeysAgree(db: Database)
    requires ValidDatabase(db)
    ensures MigratedSessions(db).Keys == SessionThreadIds(db) <==> SandboxesValid(db)
  {
    WrittenSessions(db);
    DroppedAreKept(db);
    SubtractNothing(SessionThreadIds(db), DroppedThreads(db));
  }

  /** … and then also the predicted agent threads. */
  lemma ThreadKeysAgree(db: Database)
    requires ValidDatabase(db)
    ensures MigratedThreads(db).Keys == AgentThreadIds(db) <==> SandboxesValid(db)
  {
    WrittenThreads(db);
    DroppedAreKept(db);
    SubtractNothing(AgentThreadIds(db), DroppedThreads(db));
  }

  lemma SubtractNothing(all: set<Text>, dropped: set<Text>)
    requires dropped <= all
    ensures all - dropped == all <==> dropped == {}
  {
    if t :| t in dropped {
      assert t in all;
    }
  }

  function LinkOf(row: LegacyThread): ThreadLink {
    ThreadLink(row.agentId, row.contextMode, row.isCurrent, row.linkedAt, row.replacedAt)
  }

  /** The rows of agentThreadRelationshipDigest for schema 18. */
  function AuditLinks(db: Database): map<Text, ThreadLink> {
    map t | t in AgentThreadIds(db) :: LinkOf(db.threads[t])
  }

  lemma LinksAgree(db: Database)
    requires ValidDatabase(db)
    ensures MigratedThreads(db) == AuditLinks(db) <==> SandboxesValid(db)
  {
    ThreadKeysAgree(db);
    assert AuditLinks(db).Keys == AgentThreadIds(db);
    if SandboxesValid(db) {
      assert forall t :: t in MigratedThreads(db) ==> MigratedThreads(db)[t] == AuditLinks(db)[t];
    }
  }

  // ------------------------------------------------- session contexts, column by column

  /** A property that both sides read as the same optional text: absent, or a text that UTF-8 can store. */
  predicate TextLike(v: Option<Value>) {
    v.None? || v.value.Null? || (v.value.Str? && WellFormed(v.value.text))
  }

  /** A boolean is an integer to SQLite and no number to JavaScript. */
  predicate NotBoolean(v: Option<Value>) { v.None? || !v.value.Bool? }

  /** … which shows in a timestamp unless the fallback happens to be that integer. */
  predicate TimestampLike(v: Option<Value>, fallback: int) {
    v.Some? && v.value.Bool? ==> fallback == if v.value.flag then 1 else 0
  }

  predicate PayloadAgrees(s: LegacySession) {
    var p := Parsed(s);
    && TextLike(p.sessionId) && TextLike(p.forkedFromThreadId)
    && NotBoolean(p.policyRevision)
    && TimestampLike(p.createdAt, s.lastUsedAt) && TimestampLike(p.updatedAt, s.lastUsedAt)
  }

  /** The text of an array or object is never one of the words the columns are compared with. */
  lemma ContainerText(v: Value, word: string)
    requires v.Arr? || v.Obj?
    requires word != [] && word[0] != '[' && word[0] != '{' && word[0] < '\U{0080}'
    ensures Stringify(v) != Ascii(word) && Stringify(v) != []
  {
    assert Stringify(v)[0] == if v.Arr? then LBRACKET else LBRACE;
    assert Ascii(word)[0] == word[0] as int;
  }

  lemma WordAgrees(v: Option<Value>, word: string)
    requires word != [] && word[0] != '[' && word[0] != '{' && word[0] < '\U{0080}'
    ensures JsonExtract(v) == SqlText(Ascii(word)) <==> v == Some(Str(Ascii(word)))
  {
    if v.Some? && (v.value.Arr? || v.value.Obj?) {
      ContainerText(v.value, word);
    }
  }

  lemma NonEmptyAgrees(v: Option<Value>)
    ensures StoredNonEmpty(JsonExtract(v)) == NonEmptyText(v) <==> TextLike(v)
  {
    if v.Some? && v.value.Str? {
      StoredTextDecides(v.value.text);
    }
    if v.Some? && (v.value.Arr? || v.value.Obj?) {
      ContainerText(v.value, "x");
    }
  }

  lemma PersistenceAgrees(p: Payload, connection: Option<Text>)
    ensures SqlPersistence(p, connection) == AuditPersistence(p, connection)
  {
    WordAgrees(p.persistence, "persistent");
    WordAgrees(p.persistence, "ephemeral");
    WordAgrees(p.persistence, "unknown");
    assert |PERSISTENT| == 10 && |EPHEMERAL| == 9 && |UNKNOWN| == 7;
  }

  lemma SelectionAgrees(v: Option<Value>)
    requires v.Some? ==> WellKeyed(v.value)
    ensures StoredSelection(v) == if v.Some? && v.value.Obj? then v else None
  {
    if v.Some? && v.value.Obj? {
      ParseStringify(v.value);
    }
  }

  lemma ConstrainedColumnsAgree(db: Database, t: Text)
    requires t in db.sessions && Parsed(db.sessions[t]) == Extracted(db.sessions[t])
    ensures MigratedSession(db, t).backendKind == AuditSession(db, t).backendKind
    ensures MigratedSession(db, t).sandbox == AuditSession(db, t).sandbox
  {
    var p := Parsed(db.sessions[t]);
    WordAgrees(p.backendKind, "app-server");
    WordAgrees(p.backendKind, "codex-sdk");
    WordAgrees(p.sandbox, "read-only");
    WordAgrees(p.sandbox, "danger-full-access");
  }

  lemma NumericColumnsAgree(db: Database, t: Text)
    requires t in db.sessions && Parsed(db.sessions[t]) == Extracted(db.sessions[t])
    ensures
      var m, a, s, p := MigratedSession(db, t), AuditSession(db, t), db.sessions[t], Parsed(db.sessions[t]);
      && (m.policyRevision == a.policyRevision <==> NotBoolean(p.policyRevision))
      && (m.createdAt == a.createdAt <==> TimestampLike(p.createdAt, s.lastUsedAt))
      && (m.updatedAt == a.updatedAt <==> TimestampLike(p.updatedAt, s.lastUsedAt))
  {
  }

  lemma CopiedColumnsAgree(db: Database, t: Text)
    requires t in db.sessions && Parsed(db.sessions[t]) == Extracted(db.sessions[t])
    ensures
      var m, a := MigratedSession(db, t), AuditSession(db, t);
      && m.visibleInCodexApp == a.visibleInCodexApp && m.projectId == a.projectId
      && m.scopeId == a.scopeId && m.cwd == a.cwd && m.lastUsedAt == a.lastUsedAt
  {
  }

  lemma TextColumnsAgree(db: Database, t: Text)
    requires ValidDatabase(db) && t in db.sessions
    ensures
      var m, a, s, p := MigratedSession(db, t), AuditSession(db, t), db.sessions[t], Parsed(db.sessions[t]);
      && (m.sessionId == a.sessionId <==> TextLike(p.sessionId))
      && (m.forkedFromThreadId == a.forkedFromThreadId <==> TextLike(p.forkedFromThreadId))
      && m.persistence == a.persistence && m.selection == a.selection
  {
    var p := Parsed(db.sessions[t]);
    NonEmptyAgrees(p.sessionId);
    NonEmptyAgrees(p.forkedFromThreadId);
    PersistenceAgrees(p, Connection(db, t));
    PayloadReadAlike(db, t);
    SelectionAgrees(p.selection);
  }

  /** A migrated session is the predicted row exactly when its payload is typed as both sides expect. */
  lemma SessionAgrees(db: Database, t: Text)
    requires ValidDatabase(db) && t in db.sessions
    ensures MigratedSession(db, t) == AuditSession(db, t) <==> PayloadAgrees(db.sessions[t])
  {
    PayloadReadAlike(db, t);
    ConstrainedColumnsAgree(db, t);
    NumericColumnsAgree(db, t);
    CopiedColumnsAgree(db, t);
    TextColumnsAgree(db, t);
  }

  lemma ThreadSessionAgrees(db: Database, t: Text)
    requires t in db.threads && ThreadAccepted(db, t)
    ensures MigratedThreadSession(db, t) == AuditThreadSession(db, t)
  {
  }

  predicate PayloadsAgree(db: Database) {
    forall t :: t in db.sessions && SessionAccepted(db, t) ==> PayloadAgrees(db.sessions[t])
  }

  /**
   The sessions that the SQL migration writes are, row by row and column by column,
   the ones sessionContextDigest predicts, exactly under the two stated conditions.
   */
  lemma SessionsAgree(db: Database)
    requires ValidDatabase(db)
    ensures MigratedSessions(db) == AuditSessions(db) <==> SandboxesValid(db) && PayloadsAgree(db)
  {
    DigestThreadsAgree(db);
    SessionKeysAgree(db);
    RowsAgree(db);
    var m, a := MigratedSessions(db), AuditSessions(db);
    if m.Keys == a.Keys && PayloadsAgree(db) {
      assert forall t :: t in m ==> m[t] == a[t];
    }
    if m == a {
      forall t | t in db.sessions && SessionAccepted(db, t) ensures PayloadAgrees(db.sessions[t]) {
        assert m[t] == a[t];
      }
    }
  }

  /** Row by row: a session's row agrees exactly when its payload does, a synthesised row always. */
  lemma RowsAgree(db: Database)
    requires ValidDatabase(db)
    ensures forall t :: t in db.sessions && SessionAccepted(db, t) ==>
      t in MigratedSessions(db) && t in AuditSessions(db)
      && (MigratedSessions(db)[t] == AuditSessions(db)[t] <==> PayloadAgrees(db.sessions[t]))
    ensures forall t :: t in MigratedSessions(db) ==> t in AuditSessions(db)
    ensures forall t :: t in MigratedSessions(db) && t in db.sessions ==> SessionAccepted(db, t)
    ensures forall t :: t in MigratedSessions(db) && t !in db.sessions ==> MigratedSessions(db)[t] == AuditSessions(db)[t]
  {
    forall t | t in db.sessions && SessionAccepted(db, t)
      ensures t in MigratedSessions(db) && t in AuditSessions(db)
      ensures MigratedSessions(db)[t] == AuditSessions(db)[t] <==> PayloadAgrees(db.sessions[t])
    {
      MigratedRow(db, t);
      SessionAgrees(db, t);
    }
    forall t | t in MigratedSessions(db)
      ensures t in AuditSessions(db)
      ensures t in db.sessions ==> SessionAccepted(db, t)
      ensures t !in db.sessions ==> MigratedSessions(db)[t] == AuditSessions(db)[t]
    {
      SynthesisedRow(db, t);
    }
  }

  lemma SynthesisedRow(db: Database, t: Text)
    requires ValidDatabase(db) && t in MigratedSessions(db)
    ensures t in AuditSessions(db)
    ensures t in db.sessions ==> SessionAccepted(db, t)
    ensures t !in db.sessions ==> MigratedSessions(db)[t] == AuditSessions(db)[t]
  {
    RulesAgree(db);
    if t !in db.sessions {
      ThreadSessionAgrees(db, t);
    }
  }

  /** A thread with a session of its own is no candidate for a synthesised row. */
  lemma MigratedRow(db: Database, t: Text)
    requires ValidDatabase(db) && t in db.sessions && SessionAccepted(db, t)
    ensures t in MigratedSessions(db) && MigratedSessions(db)[t] == MigratedSession(db, t)
    ensures t in AuditSessions(db) && AuditSessions(db)[t] == AuditSession(db, t)
  {
    PayloadReadAlike(db, t);
    SessionRule(db, t);
    KeptRow(db, t);
    PredictedRow(db, t);
  }

  lemma KeptRow(db: Database, t: Text)
    requires t in db.sessions && SqlSessionKept(db, db.sessions[t])
    ensures t in MigratedSessions(db) && MigratedSessions(db)[t] == MigratedSession(db, t)
  {
    assert t in KeptSessionRows(db) && t !in InsertedThreadRows(db);
  }

  lemma PredictedRow(db: Database, t: Text)
    requires t in db.sessions && SessionAccepted(db, t)
    ensures t in AuditSessions(db) && AuditSessions(db)[t] == AuditSession(db, t)
  {
    AuditRulesAgree(db);
    assert t in LegacySessionRows(db) && t !in ThreadRows(db, db.threads.Keys);
  }

  // ------------------------------------------------ which rows, told from the columns

  /** The project that a row names: the newer column if it is set, whatever the older one holds. */
  function NamedProject(c: ProjectColumns): Option<Text> {
    match (c.projectUuid, c.projectId)
    case (Some(p), _) => Some(p)
    case (None, Some(p)) => Some(p)
    case (None, None) => None
  }

  /** A row that names a project survives with it; one that names none must have no other trace of a project. */
  predicate ProjectSurvives(db: Database, c: ProjectColumns, payload: Option<Payload>) {
    if NamedProject(c).Some? then NamedProject(c).value in db.projects
    else
      && c.projectLabel == None && c.projectNameSnapshot == None
      && (payload.Some? ==> NullOrAbsent(payload.value.projectId) && NullOrAbsent(payload.value.projectLabel))
  }

  predicate NullOrAbsent(v: Option<Value>) { v == None || v == Some(Null) }

  lemma AcceptanceIs(c: ProjectColumns, projects: set<Text>, payload: Option<Payload>, db: Database)
    requires projects == db.projects
    ensures AcceptedProjectContext(c, projects, payload) <==> ProjectSurvives(db, c, payload)
  {
    if payload.Some? {
      assert NoProperty(payload.value.projectId) <==> NullOrAbsent(payload.value.projectId);
      assert NoProperty(payload.value.projectLabel) <==> NullOrAbsent(payload.value.projectLabel);
    }
  }

  lemma SqlConditionIs(db: Database, s: LegacySession)
    ensures SqlSessionKept(db, s) <==> ProjectSurvives(db, s.project, Some(Extracted(s)))
    ensures SqlSessionKept(db, s) ==> JoinedProject(db, s.project) == NamedProject(s.project)
  {
    var p := Extracted(s);
    SixNull(SqlColumn(s.project.projectId), SqlColumn(s.project.projectLabel), SqlColumn(s.project.projectUuid),
            SqlColumn(s.project.projectNameSnapshot), JsonExtract(p.projectId), JsonExtract(p.projectLabel));
    ExtractNull(p.projectId);
    ExtractNull(p.projectLabel);
  }

  lemma ExtractNull(v: Option<Value>)
    ensures JsonExtract(v) == SqlNull <==> NullOrAbsent(v)
  {
  }

  /** A session survives, in the prediction and in the migration, by its own columns, and keeps the project it names. */
  lemma SessionSurvives(db: Database, t: Text)
    requires t in db.sessions
    ensures
      var c := db.sessions[t].project;
      && (t in SessionThreadIds(db) <==> ProjectSurvives(db, c, Some(Parsed(db.sessions[t]))))
      && (t in AuditSessions(db) <==> t in SessionThreadIds(db))
      && (t in AuditSessions(db) ==> AuditSessions(db)[t].projectId == NamedProject(c))
      && (t in MigratedSessions(db) <==> ProjectSurvives(db, c, Some(Extracted(db.sessions[t]))))
      && (t in MigratedSessions(db) ==> MigratedSessions(db)[t].projectId == NamedProject(c))
  {
    PredictedSessionSurvives(db, t);
    MigratedSessionSurvives(db, t);
  }

  lemma PredictedSessionSurvives(db: Database, t: Text)
    requires t in db.sessions
    ensures
      var c := db.sessions[t].project;
      && (t in SessionThreadIds(db) <==> ProjectSurvives(db, c, Some(Parsed(db.sessions[t]))))
      && (t in AuditSessions(db) <==> t in SessionThreadIds(db))
      && (t in AuditSessions(db) ==> AuditSessions(db)[t].projectId == NamedProject(c))
  {
    AcceptanceIs(db.sessions[t].project, db.projects, Some(Parsed(db.sessions[t])), db);
    DigestThreadsAgree(db);
    assert t in AuditSessions(db) <==> t in AuditSessions(db).Keys;
    assert t in SessionThreadIds(db) <==> SessionAccepted(db, t);
    if SessionAccepted(db, t) {
      PredictedRow(db, t);
      PredictedProject(db, t);
    }
  }

  lemma PredictedProject(db: Database, t: Text)
    requires t in db.sessions && ProjectSurvives(db, db.sessions[t].project, Some(Parsed(db.sessions[t])))
    ensures AuditSession(db, t).projectId == NamedProject(db.sessions[t].project)
  {
  }

  lemma MigratedSessionSurvives(db: Database, t: Text)
    requires t in db.sessions
    ensures
      var c := db.sessions[t].project;
      && (t in MigratedSessions(db) <==> ProjectSurvives(db, c, Some(Extracted(db.sessions[t]))))
      && (t in MigratedSessions(db) ==> MigratedSessions(db)[t].projectId == NamedProject(c))
  {
    SqlConditionIs(db, db.sessions[t]);
    RemovedSessionsAre(db);
    assert t in MigratedSessions(db) <==> t !in RemovedSessions(db);
    assert t in InvalidProjectSessions(db) <==> !SqlSessionKept(db, db.sessions[t]);
    if SqlSessionKept(db, db.sessions[t]) {
      KeptRow(db, t);
      MigratedProject(db, t);
    }
  }

  lemma MigratedProject(db: Database, t: Text)
    requires t in db.sessions
    ensures MigratedSession(db, t).projectId == JoinedProject(db, db.sessions[t].project)
  {
  }

  /** `CHECK(sandbox IN (…))` of the sessions table. */
  predicate PassesCheck(sandbox: Text) {
    sandbox in {Ascii("read-only"), Ascii("workspace-write"), Ascii("danger-full-access")}
  }

  /** An agent thread survives by its own columns and with its session; without one it gets a session of its own. */
  lemma ThreadSurvives(db: Database, t: Text)
    requires t in db.threads
    ensures
      var row := db.threads[t];
      var own := ProjectSurvives(db, row.project, None);
      && (t in AgentThreadIds(db) <==> own && t in SessionThreadIds(db))
      && (t in MigratedThreads(db) <==> own && t in MigratedSessions(db))
      && (t !in db.sessions ==>
            && (t in SessionThreadIds(db) <==> own)
            && (t in MigratedSessions(db) <==> own && PassesCheck(row.sandbox))
            && (own ==> t in AuditSessions(db) && AuditSessions(db)[t].projectId == NamedProject(row.project))
            && (t in MigratedSessions(db) ==> MigratedSessions(db)[t].projectId == NamedProject(row.project)))
  {
    var c := db.threads[t].project;
    AuditRulesAgree(db);
    AcceptanceIs(c, db.projects, None, db);
    FourNull(SqlColumn(c.projectId), SqlColumn(c.projectLabel), SqlColumn(c.projectUuid), SqlColumn(c.projectNameSnapshot));
    if t !in db.sessions {
      InsertedRow(db, t);
    }
  }

  lemma InsertedRow(db: Database, t: Text)
    requires t in db.threads && t !in db.sessions
    ensures ThreadAccepted(db, t) ==> t in AuditSessions(db) && AuditSessions(db)[t] == AuditThreadSession(db, t)
    ensures t in MigratedSessions(db) <==> SqlThreadKept(db, db.threads[t]) && IsSandbox(db.threads[t].sandbox)
    ensures t in MigratedSessions(db) ==> MigratedSessions(db)[t] == MigratedThreadSession(db, t)
  {
    assert t !in LegacySessionRows(db) && t !in KeptSessionRows(db);
  }

  // ---------------------------------------------- what the rows hold, column by column

  /** Each payload property is the member of its own name, whichever reader has read it. */
  lemma PayloadIs(members: seq<Member>)
    ensures
      var p := PayloadOf(members);
      && p.projectId == Lookup(members, Ascii("projectId")) && p.projectLabel == Lookup(members, Ascii("projectLabel"))
      && p.backendKind == Lookup(members, Ascii("backendKind")) && p.sandbox == Lookup(members, Ascii("sandbox"))
      && p.sessionId == Lookup(members, Ascii("sessionId"))
      && p.forkedFromThreadId == Lookup(members, Ascii("forkedFromThreadId"))
      && p.persistence == Lookup(members, Ascii("persistence"))
      && p.visibleInCodexApp == Lookup(members, Ascii("visibleInCodexApp"))
      && p.selection == Lookup(members, Ascii("selection")) && p.policyRevision == Lookup(members, Ascii("policyRevision"))
      && p.createdAt == Lookup(members, Ascii("createdAt")) && p.updatedAt == Lookup(members, Ascii("updatedAt"))
  {
  }

  /** The payload's word if it is one of the words of the column, and the default otherwise. */
  predicate WordOr(v: Option<Value>, words: seq<string>, fallback: string, column: Text) {
    && (forall i :: 0 <= i < |words| && v == Some(Str(Ascii(words[i]))) ==> column == Ascii(words[i]))
    && ((forall i :: 0 <= i < |words| ==> v != Some(Str(Ascii(words[i])))) ==> column == Ascii(fallback))
  }

  /** A predicted session holds its own columns, and what its payload says where that is of the right kind. */
  lemma PredictedSessionIs(db: Database, t: Text)
    requires t in db.sessions
    ensures
      var a, s, p := AuditSession(db, t), db.sessions[t], Parsed(db.sessions[t]);
      && a.scopeId == s.scopeId && a.cwd == s.cwd && a.lastUsedAt == s.lastUsedAt
      && WordOr(p.backendKind, ["app-server", "codex-sdk"], "mcp-server", a.backendKind)
      && WordOr(p.sandbox, ["read-only", "danger-full-access"], "workspace-write", a.sandbox)
      && (forall x: Text :: a.sessionId == Some(x) <==> p.sessionId == Some(Str(x)) && x != [])
      && (forall x: Text :: a.forkedFromThreadId == Some(x) <==> p.forkedFromThreadId == Some(Str(x)) && x != [])
      && (a.visibleInCodexApp == Some(true) <==> p.visibleInCodexApp in {Some(Bool(true)), Some(Num(1))})
      && (a.visibleInCodexApp == Some(false) <==> p.visibleInCodexApp in {Some(Bool(false)), Some(Num(0))})
      && (forall x: Value :: a.selection == Some(x) <==> p.selection == Some(x) && x.Obj?)
      && (forall n: int :: a.policyRevision == Some(n) <==> p.policyRevision == Some(Num(n)) && n >= 0)
      && Some(Num(a.createdAt)) == (if p.createdAt.Some? && p.createdAt.value.Num? then p.createdAt else Some(Num(s.lastUsedAt)))
      && Some(Num(a.updatedAt)) == (if p.updatedAt.Some? && p.updatedAt.value.Num? then p.updatedAt else Some(Num(s.lastUsedAt)))
  {
    var p := Parsed(db.sessions[t]);
    TwoWords(p.backendKind, "app-server", "codex-sdk", "mcp-server", AuditSession(db, t).backendKind);
    TwoWords(p.sandbox, "read-only", "danger-full-access", "workspace-write", AuditSession(db, t).sandbox);
  }

  lemma TwoWords(v: Option<Value>, first: string, second: string, fallback: string, column: Text)
    requires Ascii(first) != Ascii(second)
    requires column == if v == Some(Str(Ascii(first))) then Ascii(first)
                       else if v == Some(Str(Ascii(second))) then Ascii(second) else Ascii(fallback)
    ensures WordOr(v, [first, second], fallback, column)
  {
    var words := [first, second];
    assert words[0] == first && words[1] == second;
  }

  /** Persistence comes from the payload, then from the connection, then from visibility. */
  lemma PredictedPersistenceIs(p: Payload, connection: Option<Text>)
    ensures
      var own, r := p.persistence, AuditPersistence(p, connection);
      var words := [Ascii("persistent"), Ascii("ephemeral"), Ascii("unknown")];
      if own.Some? && own.value.Str? && own.value.text in words then r == own.value.text
      else if connection.Some? && connection.value in words then r == connection.value
      else
        && (r == Ascii("persistent") <==> p.visibleInCodexApp in {Some(Bool(true)), Some(Num(1))})
        && (r == Ascii("ephemeral") <==> p.visibleInCodexApp in {Some(Bool(false)), Some(Num(0))})
        && r in words
  {
    var words := [Ascii("persistent"), Ascii("ephemeral"), Ascii("unknown")];
    assert words[0] == PERSISTENT && words[1] == EPHEMERAL && words[2] == UNKNOWN;
    assert |PERSISTENT| == 10 && |EPHEMERAL| == 9 && |UNKNOWN| == 7;
  }

  /** A session made for an agent thread, and its relationship row, hold the columns of the thread. */
  lemma PredictedThreadIs(db: Database, t: Text)
    requires t in db.threads
    ensures
      var a, row := AuditThreadSession(db, t), db.threads[t];
      && a.scopeId == row.scopeId && a.backendKind == row.backendKind && a.cwd == row.cwd && a.sandbox == row.sandbox
      && a.sessionId == row.sessionId && a.forkedFromThreadId == row.forkedFromThreadId
      && a.persistence == (if t in db.connections then db.connections[t] else Ascii("unknown"))
      && a.visibleInCodexApp == None && a.selection == None && a.policyRevision == None
      && a.createdAt == row.linkedAt && a.updatedAt == a.lastUsedAt
      && Some(a.lastUsedAt) == (if row.replacedAt.Some? then row.replacedAt else Some(row.linkedAt))
    ensures t in AgentThreadIds(db) ==>
      var l, row := AuditLinks(db)[t], db.threads[t];
      && l.agentId == row.agentId && l.contextMode == row.contextMode && l.isCurrent == row.isCurrent
      && l.linkedAt == row.linkedAt && l.replacedAt == row.replacedAt
  {
  }

  // -------------------------------------------------------------------- Agents

  /** The thread that the Agent row names is predicted to survive and belongs to it. */
  predicate OwnsCurrentThread(db: Database, id: Text)
    requires id in db.agents
  {
    var current := db.agents[id].currentThreadId;
    current.Some? && current.value in AgentThreadIds(db) && db.threads[current.value].agentId == id
  }

  /**
   The empty thread id is a value to SQL and no id to the audit; a thread that the CHECK
   drops is an id to the audit and gone for SQL. An Agent that has such a thread for its
   own is migrated as predicted only if both apply at once.
   */
  predicate CurrentThreadsAgree(db: Database) {
    forall id :: id in db.agents ==> CurrentThreadAgrees(db, id)
  }

  predicate CurrentThreadAgrees(db: Database, id: Text)
    requires id in db.agents
  {
    OwnsCurrentThread(db, id) ==>
      (db.agents[id].currentThreadId == Some([]) <==> SandboxDropped(db, db.agents[id].currentThreadId.value))
  }

  predicate NoEmptyCurrentThread(db: Database) {
    forall id :: id in db.agents && OwnsCurrentThread(db, id) ==> db.agents[id].currentThreadId != Some([])
  }

  /** The current thread that SQL keeps, and the one that the audit keeps. */
  lemma CurrentsAgree(db: Database, id: Text)
    requires ValidDatabase(db) && id in db.agents
    ensures SqlCurrent(db, id) == AuditCurrent(db, id) <==> CurrentThreadAgrees(db, id)
  {
    if db.agents[id].currentThreadId.Some? {
      ThreadWritten(db, db.agents[id].currentThreadId.value);
      CurrentsDecide(db, id);
    }
  }

  lemma CurrentsDecide(db: Database, id: Text)
    requires id in db.agents && db.agents[id].currentThreadId.Some?
    requires
      var t := db.agents[id].currentThreadId.value;
      t in MigratedThreads(db) <==> t in AgentThreadIds(db) && t !in DroppedThreads(db)
    ensures SqlCurrent(db, id) == AuditCurrent(db, id) <==> CurrentThreadAgrees(db, id)
  {
  }

  /** The rows differ only in it. */
  lemma AgentAgrees(db: Database, id: Text)
    requires id in db.agents
    ensures OrphanedAgent(LinkedAgent(db, id, InsertedAgent(db.agents[id]))) == AuditAgent(db, id)
       <==> SqlCurrent(db, id) == AuditCurrent(db, id)
  {
  }

  /** The migrated Agents are the predicted ones exactly when every Agent's own current thread is read alike. */
  lemma AgentsAgree(db: Database)
    requires ValidDatabase(db)
    ensures MigratedAgents(db) == AuditAgents(db) <==> CurrentThreadsAgree(db)
  {
    forall id | id in db.agents
      ensures MigratedAgents(db)[id] == AuditAgents(db)[id] <==> CurrentThreadAgrees(db, id)
    {
      AgentAgrees(db, id);
      CurrentsAgree(db, id);
    }
    AgentRowsDecide(db, MigratedAgents(db), AuditAgents(db));
  }

  lemma AgentRowsDecide(db: Database, a: map<Text, Agent>, b: map<Text, Agent>)
    requires a.Keys == b.Keys == db.agents.Keys
    requires forall id :: id in db.agents ==> (a[id] == b[id] <==> CurrentThreadAgrees(db, id))
    ensures a == b <==> CurrentThreadsAgree(db)
  {
    if CurrentThreadsAgree(db) {
      assert forall id :: id in a ==> a[id] == b[id];
    }
  }

  /** Once the sessions agree only the empty thread id is left. */
  lemma CurrentThreadsWithValidSandboxes(db: Database)
    requires SandboxesValid(db)
    ensures CurrentThreadsAgree(db) <==> NoEmptyCurrentThread(db)
  {
    forall t ensures !SandboxDropped(db, t) {
    }
  }

  /** The sandbox CHECK can lose a predicted row, so its condition is not idle. */
  lemma InvalidSandboxIsDropped(db: Database, t: Text)
    requires t in db.threads && NeedsSession(db, t) && !IsSandbox(db.threads[t].sandbox)
    ensures t in SessionThreadIds(db) && t in AgentThreadIds(db)
    ensures t !in MigratedSessions(db) && t !in MigratedThreads(db)
  {
  }

  // --------------------------------------------------------- nothing dangles

  /** An Agent row among the agent threads: its current thread is there and its own, and a working Agent has one. */
  predicate Resolves(threads: map<Text, ThreadLink>, id: Text, a: Agent) {
    && (a.currentThreadId.Some? ==>
          a.currentThreadId.value in threads && threads[a.currentThreadId.value].agentId == id)
    && a.lifecycle != Archived
    && (a.lifecycle == Active || a.lifecycle == WaitingInput ==> a.currentThreadId.Some?)
  }

  /** The migrated rows reference only migrated rows … */
  lemma NothingDangles(db: Database)
    ensures MigratedThreads(db).Keys <= MigratedSessions(db).Keys
    ensures MigratedAgents(db).Keys == db.agents.Keys
    ensures forall id :: id in MigratedAgents(db) ==> Resolves(MigratedThreads(db), id, MigratedAgents(db)[id])
  {
  }

  /** … and the predicted rows only predicted rows, whether or not the two agree. */
  lemma PredictionDoesNotDangle(db: Database)
    ensures AuditLinks(db).Keys <= AuditSessions(db).Keys
    ensures AuditAgents(db).Keys == db.agents.Keys
    ensures forall id :: id in AuditAgents(db) ==> Resolves(AuditLinks(db), id, AuditAgents(db)[id])
  {
    DigestThreadsAgree(db);
  }

  /** The version grows by one exactly when the rule orphans the Agent, and nothing else about identity changes. */
  predicate OrphanedOnce(before: Agent, after: Agent) {
    var orphaned := (before.lifecycle == Active || before.lifecycle == WaitingInput) && after.currentThreadId.None?;
    && after.version == before.version + (if orphaned then 1 else 0)
    && (orphaned <==> before.lifecycle != Orphaned && after.lifecycle == Orphaned)
    && (orphaned ==> after.currentJobId == None && after.orphanedReason.Some?)
    && (!orphaned ==> after.currentJobId == before.currentJobId && after.orphanedReason == before.orphanedReason)
    && (before.orphanedReason.Some? ==> after.orphanedReason == before.orphanedReason)
    && after.scopeId == before.scopeId && after.agentName == before.agentName
    && after.normalizedName == before.normalizedName
    && after.createdAt == before.createdAt && after.updatedAt == before.updatedAt
    && (after.currentThreadId.Some? ==> after.currentThreadId == before.currentThreadId)
  }

  /** Which thread a predicted Agent keeps, and what becomes of its lifecycle. */
  lemma PredictedAgentIs(db: Database, id: Text)
    requires id in db.agents
    ensures
      var before, after := db.agents[id], AuditAgents(db)[id];
      && (forall t: Text :: after.currentThreadId == Some(t) <==>
            before.currentThreadId == Some(t) && t != [] && t in AgentThreadIds(db) && db.threads[t].agentId == id)
      && after.lifecycle ==
         match before.lifecycle {
           case Idle => Idle
           case Archived => Idle
           case Orphaned => Orphaned
           case Active => if after.currentThreadId.Some? then Active else Orphaned
           case WaitingInput => if after.currentThreadId.Some? then WaitingInput else Orphaned
         }
      && after.orphanedReason ==
         (if before.orphanedReason.None? && after.lifecycle == Orphaned && before.lifecycle != Orphaned
          then Some(Ascii("legacy-project-context-removed")) else before.orphanedReason)
  {
  }

  lemma VersionsAccountForOrphans(db: Database, id: Text)
    requires id in db.agents
    ensures OrphanedOnce(db.agents[id], MigratedAgents(db)[id]) && OrphanedOnce(db.agents[id], AuditAgents(db)[id])
  {
    MigratedVersion(db, id);
    PredictedVersion(db, id);
  }

  lemma MigratedVersion(db: Database, id: Text)
    requires id in db.agents
    ensures OrphanedOnce(db.agents[id], MigratedAgents(db)[id])
  {
  }

  lemma PredictedVersion(db: Database, id: Text)
    requires id in db.agents
    ensures OrphanedOnce(db.agents[id], AuditAgents(db)[id])
  {
  }

  // -------------------------------------------------------- drops are a partition

  /** approvedDropCounts accounts for every agent thread once: kept, of no project, or rejected with its session. */
  lemma ThreadDropsPartition(db: Database)
    ensures db.threads.Keys == AgentThreadIds(db) + InvalidProjectThreads(db) + SessionRejectedThreads(db)
    ensures AgentThreadIds(db) * InvalidProjectThreads(db) == {}
    ensures (AgentThreadIds(db) + InvalidProjectThreads(db)) * SessionRejectedThreads(db) == {}
    ensures |db.threads.Keys| == |AgentThreadIds(db)| + |InvalidProjectThreads(db)| + |SessionRejectedThreads(db)|
  {
    AuditRulesAgree(db);
    PartitionSizes(db.threads.Keys, AgentThreadIds(db), InvalidProjectThreads(db), SessionRejectedThreads(db));
  }

  /** … and for every session once. */
  lemma SessionDropsPartition(db: Database)
    requires ValidDatabase(db)
    ensures db.sessions.Keys == SessionThreadIds(db) * db.sessions.Keys + InvalidProjectSessions(db)
    ensures SessionThreadIds(db) * InvalidProjectSessions(db) == {}
    ensures |db.sessions.Keys| == |SessionThreadIds(db) * db.sessions.Keys| + |InvalidProjectSessions(db)|
  {
    forall t | t in db.sessions ensures t in SessionThreadIds(db) <==> t !in InvalidProjectSessions(db) {
      SessionKeptOrDropped(db, t);
    }
    SplitSizes(db.sessions.Keys, SessionThreadIds(db), InvalidProjectSessions(db));
  }

  lemma SplitSizes(all: set<Text>, kept: set<Text>, dropped: set<Text>)
    requires dropped <= all && forall t :: t in all ==> (t in kept <==> t !in dropped)
    ensures all == kept * all + dropped && kept * dropped == {}
    ensures |all| == |kept * all| + |dropped|
  {
    assert all == kept * all + dropped;
    PartitionSizes(all, kept * all, dropped, {});
  }

  lemma SessionKeptOrDropped(db: Database, t: Text)
    requires ValidDatabase(db) && t in db.sessions
    ensures t in SessionThreadIds(db) <==> t !in InvalidProjectSessions(db)
  {
    RulesAgree(db);
  }

  /** A thread is rejected although its own project is fine exactly when its session is dropped. */
  lemma RejectedWithItsSession(db: Database, t: Text)
    requires ValidDatabase(db) && t in db.threads && ThreadAccepted(db, t)
    ensures t in SessionRejectedThreads(db) <==> t in InvalidProjectSessions(db)
  {
    RulesAgree(db);
  }

  lemma PartitionSizes(all: set<Text>, a: set<Text>, b: set<Text>, c: set<Text>)
    requires all == a + b + c && a * b == {} && (a + b) * c == {}
    ensures |all| == |a| + |b| + |c|
  {
    assert |a + b + c| == |a + b| + |c|;
    assert |a + b| == |a| + |b|;
  }

  function RemovedSessions(db: Database): set<Text> {
    set t | t in db.sessions && t !in MigratedSessions(db)
  }

  function RemovedThreads(db: Database): set<Text> {
    set t | t in db.threads && t !in MigratedThreads(db)
  }

  /** Removed agent threads are the approved ones and those that the sandbox CHECK drops. */
  lemma RemovedThreadsAre(db: Database)
    requires ValidDatabase(db)
    ensures RemovedThreads(db) == InvalidProjectThreads(db) + SessionRejectedThreads(db)
                                  + DroppedThreads(db)
  {
    ThreadDropsPartition(db);
    DroppedAreKept(db);
    WrittenThreads(db);
    Complement(
      db.threads.Keys, MigratedThreads(db).Keys, AgentThreadIds(db), InvalidProjectThreads(db),
      SessionRejectedThreads(db), DroppedThreads(db));
    assert RemovedThreads(db) == db.threads.Keys - MigratedThreads(db).Keys;
  }

  lemma Complement(all: set<Text>, written: set<Text>, kept: set<Text>, a: set<Text>, b: set<Text>, dropped: set<Text>)
    requires all == kept + a + b && kept * a == {} && (kept + a) * b == {}
    requires written == kept - dropped && dropped <= kept
    ensures all - written == a + b + dropped
  {
    forall t ensures t in all - written <==> t in a + b + dropped {
      assert t in kept && t in a ==> t in kept * a;
      assert t in kept && t in b ==> t in (kept + a) * b;
    }
  }

  /**
   The migration removes the sessions that the audit approved, always, and as many agent
   threads as approved exactly when no needed sandbox is invalid.
   */
  lemma RemovedCountsApproved(db: Database)
    requires ValidDatabase(db)
    ensures RemovedSessions(db) == InvalidProjectSessions(db)
    ensures |RemovedThreads(db)| == |InvalidProjectThreads(db)| + |SessionRejectedThreads(db)| <==> SandboxesValid(db)
  {
    RemovedThreadsAre(db);
    ThreadDropsPartition(db);
    DroppedAreKept(db);
    PartitionSizes(RemovedThreads(db), InvalidProjectThreads(db), SessionRejectedThreads(db), DroppedThreads(db));
    RemovedSessionsAre(db);
  }

  /** A session is removed by its own condition alone. */
  lemma RemovedSessionsAre(db: Database)
    ensures RemovedSessions(db) == InvalidProjectSessions(db)
  {
    forall t | t in db.sessions ensures t in MigratedSessions(db) <==> SqlSessionKept(db, db.sessions[t]) {
    }
  }

  // ------------------------------------------------------------- reapplication

  /** The database restricted to the surviving sessions and threads, together. */
  function Surviving(db: Database): Database {
    db.(sessions := map t | t in db.sessions && t in SessionThreadIds(db) :: db.sessions[t],
        threads := map t | t in db.threads && t in AgentThreadIds(db) :: db.threads[t])
  }

  /** Applying the rule again to what survived drops nothing. */
  lemma ReapplyingDropsNothing(db: Database)
    ensures AgentThreadIds(Surviving(db)) == AgentThreadIds(db) == Surviving(db).threads.Keys
    ensures SessionThreadIds(Surviving(db)) == SessionThreadIds(db)
    ensures InvalidProjectThreads(Surviving(db)) == {} && SessionRejectedThreads(Surviving(db)) == {}
    ensures ValidDatabase(db) ==> InvalidProjectSessions(Surviving(db)) == {}
  {
    var s := Surviving(db);
    SurvivorsSurvive(db);
    ThreadDropsPartition(s);
    if ValidDatabase(db) {
      forall t | t in s.sessions ensures t !in InvalidProjectSessions(s) {
        SessionKeptOrDropped(s, t);
      }
    }
  }

  lemma SurvivorsSurvive(db: Database)
    ensures AgentThreadIds(Surviving(db)) == AgentThreadIds(db) == Surviving(db).threads.Keys
    ensures SessionThreadIds(Surviving(db)) == SessionThreadIds(db)
  {
    var s := Surviving(db);
    forall t ensures t in SessionThreadIds(s) <==> t in SessionThreadIds(db) {
    }
    forall t | t in s.threads ensures t in AgentThreadIds(s) {
    }
  }

  /** The migration never keeps a session that the audit does not expect. */
  lemma MigratedAreExpected(db: Database)
    requires ValidDatabase(db)
    ensures MigratedSessions(db).Keys <= SessionThreadIds(db)
  {
    RulesAgree(db);
  }

  /** Stored selections read back unchanged, whatever else differs. */
  lemma SelectionsAgree(db: Database, t: Text)
    requires ValidDatabase(db) && t in MigratedSessions(db) && t in AuditSessions(db)
    ensures MigratedSessions(db)[t].selection == AuditSessions(db)[t].selection
    ensures AuditSessions(db)[t].selection.Some? ==> WellKeyed(AuditSessions(db)[t].selection.value)
  {
    if t in db.sessions {
      PayloadReadAlike(db, t);
      SelectionAgrees(Parsed(db.sessions[t]).selection);
    }
  }

  lemma AuditSelectionsWellKeyed(db: Database, t: Text)
    requires ValidDatabase(db) && t in AuditSessions(db)
    ensures AuditSessions(db)[t].selection.Some? ==> WellKeyed(AuditSessions(db)[t].selection.value)
  {
    if t in db.sessions {
      PayloadReadAlike(db, t);
    }
  }
}

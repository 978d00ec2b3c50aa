/**
 The verdict of the restart audit (scripts/card-state-restart-audit.ts): it compares
 snapshots taken of the schema-18 source with snapshots taken after the SQL migration
 of src/stateStore.ts. Composed of the printers, the row framing and the migration.
 */
module RestartAudit {
  import opened Utf16
  import opened Wrappers
  import opened Json
  import opened CanonicalJson
  import opened Sorting
  import opened PropertyNames
  import opened RowSnapshots
  import opened LegacyMigration

  // ------------------------------------------------------------ encoded sessions

  const SESSION_COLUMNS := [
    "threadId", "scopeId", "projectId", "backendKind", "cwd", "sandbox", "sessionId", "forkedFromThreadId",
    "persistence", "visibleInCodexApp", "selection", "policyRevision", "createdAt", "updatedAt", "lastUsedAt"]

  function SessionValues(t: Text, c: SessionContext): seq<Value> {
    [Str(t), Str(c.scopeId), NullableText(c.projectId), Str(c.backendKind)]
    + ([Str(c.cwd), Str(c.sandbox), NullableText(c.sessionId), NullableText(c.forkedFromThreadId)]
       + ([Str(c.persistence), NullableFlag(c.visibleInCodexApp), SelectionValue(c), NullableNumber(c.policyRevision)]
          + [Num(c.createdAt), Num(c.updatedAt), Num(c.lastUsedAt)]))
  }

  function SelectionValue(c: SessionContext): Value {
    if c.selection.Some? then c.selection.value else Null
  }

  /** The object that sessionContextDigest prints. */
  function SessionRow(t: Text, c: SessionContext): Value {
    RowOf(SESSION_COLUMNS, SessionValues(t, c))
  }

  const SESSION_TAGS: seq<int> := [
    0x83a64, 0x739e4, 0x93864, 0xb3164, 0x331e4, 0x739f8, 0x939e4, 0x123364,
    0xb3865, 0x113b70, 0x939ee, 0xe386e, 0x931f4, 0x93af4, 0xa3674]

  lemma SessionColumnsDistinct()
    ensures DistinctNames(SESSION_COLUMNS)
  {
    var n, tags := SESSION_COLUMNS, SESSION_TAGS;
    assert Tag(Ascii(n[0])) == tags[0];
    assert Tag(Ascii(n[1])) == tags[1];
    assert Tag(Ascii(n[2])) == tags[2];
    assert Tag(Ascii(n[3])) == tags[3];
    assert Tag(Ascii(n[4])) == tags[4];
    assert Tag(Ascii(n[5])) == tags[5];
    assert Tag(Ascii(n[6])) == tags[6];
    assert Tag(Ascii(n[7])) == tags[7];
    assert Tag(Ascii(n[8])) == tags[8];
    assert Tag(Ascii(n[9])) == tags[9];
    assert Tag(Ascii(n[10])) == tags[10];
    assert Tag(Ascii(n[11])) == tags[11];
    assert Tag(Ascii(n[12])) == tags[12];
    assert Tag(Ascii(n[13])) == tags[13];
    assert Tag(Ascii(n[14])) == tags[14];
    SessionTagsDistinct();
    DistinctByTags(n, tags);
  }

  lemma SessionTagsDistinct()
    ensures Distinct(SESSION_TAGS)
  {
  }

  function SelectionTree(c: SessionContext): Tree { Meaning(SelectionValue(c)) }

  /** Equal contexts, selections compared as finite trees. */
  predicate SameContext(c: SessionContext, c': SessionContext) {
    c.(selection := None) == c'.(selection := None) && SelectionTree(c) == SelectionTree(c')
  }

  lemma PlaceColumns(t: Text, c: SessionContext, t': Text, c': SessionContext)
    ensures Meanings([Str(t), Str(c.scopeId), NullableText(c.projectId), Str(c.backendKind)])
         == Meanings([Str(t'), Str(c'.scopeId), NullableText(c'.projectId), Str(c'.backendKind)])
       <==> t == t' && c.scopeId == c'.scopeId && c.projectId == c'.projectId && c.backendKind == c'.backendKind
  {
    FourColumns(
      [Str(t), Str(c.scopeId), NullableText(c.projectId), Str(c.backendKind)],
      [Str(t'), Str(c'.scopeId), NullableText(c'.projectId), Str(c'.backendKind)]);
  }

  lemma ContextColumns(c: SessionContext, c': SessionContext)
    ensures Meanings([Str(c.cwd), Str(c.sandbox), NullableText(c.sessionId), NullableText(c.forkedFromThreadId)])
         == Meanings([Str(c'.cwd), Str(c'.sandbox), NullableText(c'.sessionId), NullableText(c'.forkedFromThreadId)])
       <==> c.cwd == c'.cwd && c.sandbox == c'.sandbox && c.sessionId == c'.sessionId
            && c.forkedFromThreadId == c'.forkedFromThreadId
  {
    FourColumns(
      [Str(c.cwd), Str(c.sandbox), NullableText(c.sessionId), NullableText(c.forkedFromThreadId)],
      [Str(c'.cwd), Str(c'.sandbox), NullableText(c'.sessionId), NullableText(c'.forkedFromThreadId)]);
  }

  lemma PolicyColumns(c: SessionContext, c': SessionContext)
    ensures Meanings([Str(c.persistence), NullableFlag(c.visibleInCodexApp), SelectionValue(c), NullableNumber(c.policyRevision)])
         == Meanings([Str(c'.persistence), NullableFlag(c'.visibleInCodexApp), SelectionValue(c'), NullableNumber(c'.policyRevision)])
       <==> c.persistence == c'.persistence && c.visibleInCodexApp == c'.visibleInCodexApp
            && SelectionTree(c) == SelectionTree(c') && c.policyRevision == c'.policyRevision
  {
    FourColumns(
      [Str(c.persistence), NullableFlag(c.visibleInCodexApp), SelectionValue(c), NullableNumber(c.policyRevision)],
      [Str(c'.persistence), NullableFlag(c'.visibleInCodexApp), SelectionValue(c'), NullableNumber(c'.policyRevision)]);
  }

  lemma SessionValuesMeaning(t: Text, c: SessionContext, t': Text, c': SessionContext)
    ensures Meanings(SessionValues(t, c)) == Meanings(SessionValues(t', c')) <==> t == t' && SameContext(c, c')
  {
    var x1 := [Str(t), Str(c.scopeId), NullableText(c.projectId), Str(c.backendKind)];
    var y1 := [Str(t'), Str(c'.scopeId), NullableText(c'.projectId), Str(c'.backendKind)];
    var x2 := [Str(c.cwd), Str(c.sandbox), NullableText(c.sessionId), NullableText(c.forkedFromThreadId)];
    var y2 := [Str(c'.cwd), Str(c'.sandbox), NullableText(c'.sessionId), NullableText(c'.forkedFromThreadId)];
    var x3 := [Str(c.persistence), NullableFlag(c.visibleInCodexApp), SelectionValue(c), NullableNumber(c.policyRevision)];
    var y3 := [Str(c'.persistence), NullableFlag(c'.visibleInCodexApp), SelectionValue(c'), NullableNumber(c'.policyRevision)];
    var x4 := [Num(c.createdAt), Num(c.updatedAt), Num(c.lastUsedAt)];
    var y4 := [Num(c'.createdAt), Num(c'.updatedAt), Num(c'.lastUsedAt)];
    PlaceColumns(t, c, t', c');
    ContextColumns(c, c');
    PolicyColumns(c, c');
    ThreeColumns(x4, y4);
    ColumnsConcat(x1, y1, x2 + (x3 + x4), y2 + (y3 + y4));
    ColumnsConcat(x2, y2, x3 + x4, y3 + y4);
    ColumnsConcat(x3, y3, x4, y4);
  }

  lemma SessionRowMeaning(t: Text, c: SessionContext, t': Text, c': SessionContext)
    ensures Meaning(SessionRow(t, c)) == Meaning(SessionRow(t', c')) <==> t == t' && SameContext(c, c')
  {
    SessionColumnsDistinct();
    RowMeaning(SESSION_COLUMNS, SessionValues(t, c), SessionValues(t', c'));
    SessionValuesMeaning(t, c, t', c');
  }

  /** Each value stands under its own name. */
  lemma SessionRowIs(t: Text, c: SessionContext)
    ensures
      var row := SessionRow(t, c);
      && Has(row, "threadId", StrTree(t))
      && Has(row, "scopeId", StrTree(c.scopeId))
      && Has(row, "projectId", Meaning(NullableText(c.projectId)))
      && Has(row, "backendKind", StrTree(c.backendKind))
      && Has(row, "cwd", StrTree(c.cwd))
      && Has(row, "sandbox", StrTree(c.sandbox))
      && Has(row, "sessionId", Meaning(NullableText(c.sessionId)))
      && Has(row, "forkedFromThreadId", Meaning(NullableText(c.forkedFromThreadId)))
      && Has(row, "persistence", StrTree(c.persistence))
      && Has(row, "visibleInCodexApp", Meaning(NullableFlag(c.visibleInCodexApp)))
      && Has(row, "selection", SelectionTree(c))
      && Has(row, "policyRevision", Meaning(NullableNumber(c.policyRevision)))
      && Has(row, "createdAt", NumTree(c.createdAt))
      && Has(row, "updatedAt", NumTree(c.updatedAt))
      && Has(row, "lastUsedAt", NumTree(c.lastUsedAt))
  {
    SessionRowIsFirst(t, c);
    SessionRowIsSecond(t, c);
    SessionRowIsThird(t, c);
    SessionRowIsFourth(t, c);
  }

  lemma SessionRowIsFirst(t: Text, c: SessionContext)
    ensures
      var row := SessionRow(t, c);
      && Has(row, "threadId", StrTree(t))
      && Has(row, "scopeId", StrTree(c.scopeId))
      && Has(row, "projectId", Meaning(NullableText(c.projectId)))
      && Has(row, "backendKind", StrTree(c.backendKind))
  {
    SessionColumnsDistinct();
    ColumnOf(SESSION_COLUMNS, SessionValues(t, c), 0);
    ColumnOf(SESSION_COLUMNS, SessionValues(t, c), 1);
    ColumnOf(SESSION_COLUMNS, SessionValues(t, c), 2);
    ColumnOf(SESSION_COLUMNS, SessionValues(t, c), 3);
  }

  lemma SessionRowIsSecond(t: Text, c: SessionContext)
    ensures
      var row := SessionRow(t, c);
      && Has(row, "cwd", StrTree(c.cwd))
      && Has(row, "sandbox", StrTree(c.sandbox))
      && Has(row, "sessionId", Meaning(NullableText(c.sessionId)))
      && Has(row, "forkedFromThreadId", Meaning(NullableText(c.forkedFromThreadId)))
  {
    SessionColumnsDistinct();
    ColumnOf(SESSION_COLUMNS, SessionValues(t, c), 4);
    ColumnOf(SESSION_COLUMNS, SessionValues(t, c), 5);
    ColumnOf(SESSION_COLUMNS, SessionValues(t, c), 6);
    ColumnOf(SESSION_COLUMNS, SessionValues(t, c), 7);
  }

  lemma SessionRowIsThird(t: Text, c: SessionContext)
    ensures
      var row := SessionRow(t, c);
      && Has(row, "persistence", StrTree(c.persistence))
      && Has(row, "visibleInCodexApp", Meaning(NullableFlag(c.visibleInCodexApp)))
      && Has(row, "selection", SelectionTree(c))
      && Has(row, "policyRevision", Meaning(NullableNumber(c.policyRevision)))
  {
    SessionColumnsDistinct();
    ColumnOf(SESSION_COLUMNS, SessionValues(t, c), 8);
    ColumnOf(SESSION_COLUMNS, SessionValues(t, c), 9);
    ColumnOf(SESSION_COLUMNS, SessionValues(t, c), 10);
    ColumnOf(SESSION_COLUMNS, SessionValues(t, c), 11);
  }

  lemma SessionRowIsFourth(t: Text, c: SessionContext)
    ensures
      var row := SessionRow(t, c);
      && Has(row, "createdAt", NumTree(c.createdAt))
      && Has(row, "updatedAt", NumTree(c.updatedAt))
      && Has(row, "lastUsedAt", NumTree(c.lastUsedAt))
  {
    SessionColumnsDistinct();
    ColumnOf(SESSION_COLUMNS, SessionValues(t, c), 12);
    ColumnOf(SESSION_COLUMNS, SessionValues(t, c), 13);
    ColumnOf(SESSION_COLUMNS, SessionValues(t, c), 14);
  }

  function SessionRows(table: map<Text, SessionContext>, walk: seq<Text>): (rows: seq<Value>)
    requires forall t :: t in walk ==> t in table
    ensures |rows| == |walk|
    ensures forall i :: 0 <= i < |walk| ==> rows[i] == SessionRow(walk[i], table[walk[i]])
  {
    if walk == [] then [] else [SessionRow(walk[0], table[walk[0]])] + SessionRows(table, walk[1..])
  }

  ghost predicate SelectionsWellKeyed(table: map<Text, SessionContext>) {
    forall t :: t in table && table[t].selection.Some? ==> WellKeyed(table[t].selection.value)
  }

  lemma SessionRowWellKeyed(t: Text, c: SessionContext)
    requires c.selection.Some? ==> WellKeyed(c.selection.value)
    ensures WellKeyed(SessionRow(t, c))
  {
    SessionColumnsDistinct();
    RowWellKeyed(SESSION_COLUMNS, SessionValues(t, c));
  }

  lemma SessionRowsWellKeyed(table: map<Text, SessionContext>, walk: seq<Text>)
    requires Lists(walk, table) && SelectionsWellKeyed(table)
    ensures Rows(SessionRows(table, walk))
  {
    forall i | 0 <= i < |walk| ensures WellKeyed(SessionRows(table, walk)[i]) {
      assert walk[i] in walk;
      SessionRowWellKeyed(walk[i], table[walk[i]]);
    }
  }

  /** Whatever the comparison of keys: equal session snapshots mean the same contexts, and equal tables print alike. */
  lemma SessionSnapshots(
      leq: (Text, Text) -> bool, a: map<Text, SessionContext>, x: seq<Text>, b: map<Text, SessionContext>, y: seq<Text>)
    requires Lists(x, a) && Lists(y, b) && SelectionsWellKeyed(a) && SelectionsWellKeyed(b)
    ensures SnapshotRows(leq, SessionRows(a, x)) == SnapshotRows(leq, SessionRows(b, y)) ==> SameTables(SameContext, a, b)
    ensures a == b ==> SnapshotRows(leq, SessionRows(a, x)) == SnapshotRows(leq, SessionRows(b, y))
  {
    var s, t := SessionRows(a, x), SessionRows(b, y);
    if a == b {
      TableListedTwice(leq, a, s, x, t, y);
    }
    if SnapshotRows(leq, s) == SnapshotRows(leq, t) {
      SessionRowsPrint(a, x, b, y);
      TableSnapshotDetermines(leq, SameContext, s, x, a, t, y, b);
    }
  }

  lemma SessionRowsPrint(a: map<Text, SessionContext>, x: seq<Text>, b: map<Text, SessionContext>, y: seq<Text>)
    requires Lists(x, a) && Lists(y, b) && SelectionsWellKeyed(a) && SelectionsWellKeyed(b)
    ensures Prints(SameContext, SessionRows(a, x), x, a, SessionRows(b, y), y, b)
  {
    var s, t := SessionRows(a, x), SessionRows(b, y);
    SessionRowsWellKeyed(a, x);
    SessionRowsWellKeyed(b, y);
    forall i, j | 0 <= i < |x| && 0 <= j < |y|
      ensures Meaning(s[i]) == Meaning(t[j]) <==> x[i] == y[j] && SameContext(a[x[i]], b[y[j]])
    {
      SessionRowMeaning(x[i], a[x[i]], y[j], b[y[j]]);
    }
  }

  /** The migrated rows that the audit selects: those of the threads it expects. */
  function Selected(table: map<Text, SessionContext>, ids: set<Text>): map<Text, SessionContext> {
    map t | t in table && t in ids :: table[t]
  }

  lemma SameAsEqual(db: Database)
    requires ValidDatabase(db)
    ensures SameTables(SameContext, MigratedSessions(db), AuditSessions(db)) <==> MigratedSessions(db) == AuditSessions(db)
    ensures SelectionsWellKeyed(MigratedSessions(db)) && SelectionsWellKeyed(AuditSessions(db))
  {
    var m, a := MigratedSessions(db), AuditSessions(db);
    MigratedAreExpected(db);
    DigestThreadsAgree(db);
    forall t | t in m ensures t in a && m[t].selection == a[t].selection {
      assert t in a.Keys;
      SelectionsAgree(db, t);
    }
    forall t | t in a ensures a[t].selection.Some? ==> WellKeyed(a[t].selection.value) {
      AuditSelectionsWellKeyed(db, t);
    }
    if SameTables(SameContext, m, a) {
      forall t | t in m ensures m[t] == a[t] {
        assert SameContext(m[t], a[t]);
      }
    }
  }

  /**
   The audit's session comparison passes exactly when no predicted row fails the
   sandbox CHECK and every surviving payload is typed and spelt as both sides expect, whatever
   the order of keys and whatever the order in which rows are enumerated.
   */
  lemma SessionCheck(leq: (Text, Text) -> bool, db: Database, x: seq<Text>, y: seq<Text>)
    requires ValidDatabase(db)
    requires Lists(x, Selected(MigratedSessions(db), AuditSessions(db).Keys)) && Lists(y, AuditSessions(db))
    ensures SnapshotRows(leq, SessionRows(Selected(MigratedSessions(db), AuditSessions(db).Keys), x))
         == SnapshotRows(leq, SessionRows(AuditSessions(db), y))
       <==> SandboxesValid(db) && PayloadsAgree(db)
  {
    SelectedTablesDecide(db);
    SessionTablesCompared(leq, Selected(MigratedSessions(db), AuditSessions(db).Keys), x, AuditSessions(db), y);
  }

  /** Tables that are equal once they are the same up to the spelling of selections. */
  lemma SessionTablesCompared(
      leq: (Text, Text) -> bool, a: map<Text, SessionContext>, x: seq<Text>, b: map<Text, SessionContext>, y: seq<Text>)
    requires Lists(x, a) && Lists(y, b) && SelectionsWellKeyed(a) && SelectionsWellKeyed(b)
    requires SameTables(SameContext, a, b) ==> a == b
    ensures SnapshotRows(leq, SessionRows(a, x)) == SnapshotRows(leq, SessionRows(b, y)) <==> a == b
  {
    SessionSnapshots(leq, a, x, b, y);
  }

  lemma SelectedTablesDecide(db: Database)
    requires ValidDatabase(db)
    ensures
      var m, a := Selected(MigratedSessions(db), AuditSessions(db).Keys), AuditSessions(db);
      && SelectionsWellKeyed(m) && SelectionsWellKeyed(a)
      && (SameTables(SameContext, m, a) ==> m == a)
      && (m == a <==> SandboxesValid(db) && PayloadsAgree(db))
  {
    AllSelected(db);
    SameAsEqual(db);
    SessionsAgree(db);
  }

  lemma AllSelected(db: Database)
    requires ValidDatabase(db)
    ensures Selected(MigratedSessions(db), AuditSessions(db).Keys) == MigratedSessions(db)
  {
    MigratedAreExpected(db);
    DigestThreadsAgree(db);
    SelectedWhole(MigratedSessions(db), AuditSessions(db).Keys);
  }

  lemma SelectedWhole(table: map<Text, SessionContext>, ids: set<Text>)
    requires table.Keys <= ids
    ensures Selected(table, ids) == table
  {
    assert forall t :: t in table ==> t in ids;
  }

  // ------------------------------------------------------- encoded relationships

  const LINK_COLUMNS := ["threadId", "agentId", "contextMode", "isCurrent", "linkedAt", "replacedAt"]

  const LINK_TAGS: seq<int> := [0x83a64, 0x730e4, 0xb31e5, 0x934f4, 0x83674, 0xa3974]

  lemma LinkColumnsDistinct()
    ensures DistinctNames(LINK_COLUMNS)
  {
    var n, tags := LINK_COLUMNS, LINK_TAGS;
    assert Tag(Ascii(n[0])) == tags[0];
    assert Tag(Ascii(n[1])) == tags[1];
    assert Tag(Ascii(n[2])) == tags[2];
    assert Tag(Ascii(n[3])) == tags[3];
    assert Tag(Ascii(n[4])) == tags[4];
    assert Tag(Ascii(n[5])) == tags[5];
    DistinctByTags(n, tags);
  }

  function LinkValues(t: Text, l: ThreadLink): seq<Value> {
    [Str(t), Str(l.agentId), Str(l.contextMode)]
    + [Num(if l.isCurrent then 1 else 0), Num(l.linkedAt), NullableNumber(l.replacedAt)]
  }

  /** The object that agentThreadRelationshipDigest prints; is_current is stored as 0 or 1. */
  function LinkRow(t: Text, l: ThreadLink): Value {
    RowOf(LINK_COLUMNS, LinkValues(t, l))
  }

  lemma LinkRowMeaning(t: Text, l: ThreadLink, t': Text, l': ThreadLink)
    ensures Meaning(LinkRow(t, l)) == Meaning(LinkRow(t', l')) <==> t == t' && SameLink(l, l')
  {
    LinkColumnsDistinct();
    RowMeaning(LINK_COLUMNS, LinkValues(t, l), LinkValues(t', l'));
    LinkValuesMeaning(t, l, t', l');
  }

  lemma LinkValuesMeaning(t: Text, l: ThreadLink, t': Text, l': ThreadLink)
    ensures Meanings(LinkValues(t, l)) == Meanings(LinkValues(t', l')) <==> t == t' && l == l'
  {
    var x1, y1 := [Str(t), Str(l.agentId), Str(l.contextMode)], [Str(t'), Str(l'.agentId), Str(l'.contextMode)];
    var x2 := [Num(if l.isCurrent then 1 else 0), Num(l.linkedAt), NullableNumber(l.replacedAt)];
    var y2 := [Num(if l'.isCurrent then 1 else 0), Num(l'.linkedAt), NullableNumber(l'.replacedAt)];
    ThreeColumns(x1, y1);
    ThreeColumns(x2, y2);
    ColumnsConcat(x1, y1, x2, y2);
  }

  /** Each value stands under its own name. */
  lemma LinkRowIs(t: Text, l: ThreadLink)
    ensures
      var row := LinkRow(t, l);
      && Has(row, "threadId", StrTree(t))
      && Has(row, "agentId", StrTree(l.agentId))
      && Has(row, "contextMode", StrTree(l.contextMode))
      && Has(row, "isCurrent", NumTree(if l.isCurrent then 1 else 0))
      && Has(row, "linkedAt", NumTree(l.linkedAt))
      && Has(row, "replacedAt", Meaning(NullableNumber(l.replacedAt)))
  {
    LinkColumnsDistinct();
    ColumnOf(LINK_COLUMNS, LinkValues(t, l), 0);
    ColumnOf(LINK_COLUMNS, LinkValues(t, l), 1);
    ColumnOf(LINK_COLUMNS, LinkValues(t, l), 2);
    ColumnOf(LINK_COLUMNS, LinkValues(t, l), 3);
    ColumnOf(LINK_COLUMNS, LinkValues(t, l), 4);
    ColumnOf(LINK_COLUMNS, LinkValues(t, l), 5);
  }

  predicate SameLink(l: ThreadLink, l': ThreadLink) { l == l' }

  function LinkRows(table: map<Text, ThreadLink>, walk: seq<Text>): (rows: seq<Value>)
    requires forall t :: t in walk ==> t in table
    ensures |rows| == |walk|
    ensures forall i :: 0 <= i < |walk| ==> rows[i] == LinkRow(walk[i], table[walk[i]])
  {
    if walk == [] then [] else [LinkRow(walk[0], table[walk[0]])] + LinkRows(table, walk[1..])
  }

  lemma LinkRowsWellKeyed(table: map<Text, ThreadLink>, walk: seq<Text>)
    requires Lists(walk, table)
    ensures Rows(LinkRows(table, walk))
  {
    forall i | 0 <= i < |walk| ensures WellKeyed(LinkRows(table, walk)[i]) {
      LinkRowWellKeyed(walk[i], table[walk[i]]);
    }
  }

  lemma LinkRowWellKeyed(t: Text, l: ThreadLink)
    ensures WellKeyed(LinkRow(t, l))
  {
    LinkColumnsDistinct();
    RowWellKeyed(LINK_COLUMNS, LinkValues(t, l));
  }

  lemma LinkSnapshots(
      leq: (Text, Text) -> bool, a: map<Text, ThreadLink>, x: seq<Text>, b: map<Text, ThreadLink>, y: seq<Text>)
    requires Lists(x, a) && Lists(y, b)
    ensures SnapshotRows(leq, LinkRows(a, x)) == SnapshotRows(leq, LinkRows(b, y)) <==> a == b
  {
    var s, t := LinkRows(a, x), LinkRows(b, y);
    if a == b {
      TableListedTwice(leq, a, s, x, t, y);
    }
    if SnapshotRows(leq, s) == SnapshotRows(leq, t) {
      LinkRowsPrint(a, x, b, y);
      TableSnapshotDetermines(leq, SameLink, s, x, a, t, y, b);
      SameLinkTables(a, b);
    }
  }

  lemma LinkRowsPrint(a: map<Text, ThreadLink>, x: seq<Text>, b: map<Text, ThreadLink>, y: seq<Text>)
    requires Lists(x, a) && Lists(y, b)
    ensures Prints(SameLink, LinkRows(a, x), x, a, LinkRows(b, y), y, b)
  {
    var s, t := LinkRows(a, x), LinkRows(b, y);
    LinkRowsWellKeyed(a, x);
    LinkRowsWellKeyed(b, y);
    forall i, j | 0 <= i < |x| && 0 <= j < |y|
      ensures Meaning(s[i]) == Meaning(t[j]) <==> x[i] == y[j] && SameLink(a[x[i]], b[y[j]])
    {
      LinkRowMeaning(x[i], a[x[i]], y[j], b[y[j]]);
    }
  }

  lemma SameLinkTables(a: map<Text, ThreadLink>, b: map<Text, ThreadLink>)
    ensures SameTables(SameLink, a, b) <==> a == b
  {
    if SameTables(SameLink, a, b) {
      forall t | t in a ensures a[t] == b[t] {
        assert SameLink(a[t], b[t]);
      }
    }
  }

  /** The audit's comparison of relationships passes exactly when no needed sandbox is invalid. */
  lemma LinkCheck(leq: (Text, Text) -> bool, db: Database, x: seq<Text>, y: seq<Text>)
    requires ValidDatabase(db)
    requires Lists(x, MigratedThreads(db)) && Lists(y, AuditLinks(db))
    ensures SnapshotRows(leq, LinkRows(MigratedThreads(db), x)) == SnapshotRows(leq, LinkRows(AuditLinks(db), y))
       <==> SandboxesValid(db)
  {
    LinkSnapshots(leq, MigratedThreads(db), x, AuditLinks(db), y);
    LinksAgree(db);
  }

  // -------------------------------------------------------------- encoded Agents

  const AGENT_COLUMNS := [
    "agent_id", "scope_id", "agent_name", "normalized_name", "lifecycle", "current_thread_id", "current_job_id",
    "version", "created_at", "updated_at", "orphaned_reason"]

  function LifecycleName(l: Lifecycle): Text {
    match l
    case Idle => Ascii("idle")
    case Active => Ascii("active")
    case WaitingInput => Ascii("waiting-input")
    case Archived => Ascii("archived")
    case Orphaned => Ascii("orphaned")
  }

  lemma LifecycleNamesDiffer(l: Lifecycle, l': Lifecycle)
    ensures LifecycleName(l) == LifecycleName(l') <==> l == l'
  {
    assert Ascii("archived")[0] == 0x61 && Ascii("orphaned")[0] == 0x6F;
  }

  function AgentValues(id: Text, a: Agent): seq<Value> {
    [Str(id), Str(a.scopeId), Str(a.agentName), Str(a.normalizedName)]
    + ([Str(LifecycleName(a.lifecycle)), NullableText(a.currentThreadId), NullableText(a.currentJobId), Num(a.version)]
       + [Num(a.createdAt), Num(a.updatedAt), NullableText(a.orphanedReason)])
  }

  const AGENT_TAGS: seq<int> := [
    0x830e4, 0x839e4, 0xa30e5, 0xf3765, 0x93665, 0x1131e4, 0xe31e4, 0x73b6e,
    0xa31f4, 0xa3af4, 0xf37ee]

  lemma AgentColumnsDistinct()
    ensures DistinctNames(AGENT_COLUMNS)
  {
    var n, tags := AGENT_COLUMNS, AGENT_TAGS;
    assert Tag(Ascii(n[0])) == tags[0];
    assert Tag(Ascii(n[1])) == tags[1];
    assert Tag(Ascii(n[2])) == tags[2];
    assert Tag(Ascii(n[3])) == tags[3];
    assert Tag(Ascii(n[4])) == tags[4];
    assert Tag(Ascii(n[5])) == tags[5];
    assert Tag(Ascii(n[6])) == tags[6];
    assert Tag(Ascii(n[7])) == tags[7];
    assert Tag(Ascii(n[8])) == tags[8];
    assert Tag(Ascii(n[9])) == tags[9];
    assert Tag(Ascii(n[10])) == tags[10];
    AgentTagsDistinct();
    DistinctByTags(n, tags);
  }

  lemma AgentTagsDistinct()
    ensures Distinct(AGENT_TAGS)
  {
  }

  /** A row of the agents table as agentStateDigest prints it. */
  function AgentRow(id: Text, a: Agent): Value {
    RowOf(AGENT_COLUMNS, AgentValues(id, a))
  }

  /** Each value stands under its own name. */
  lemma AgentRowIs(id: Text, a: Agent)
    ensures
      var row := AgentRow(id, a);
      && Has(row, "agent_id", StrTree(id))
      && Has(row, "scope_id", StrTree(a.scopeId))
      && Has(row, "agent_name", StrTree(a.agentName))
      && Has(row, "normalized_name", StrTree(a.normalizedName))
      && Has(row, "lifecycle", StrTree(LifecycleName(a.lifecycle)))
      && Has(row, "current_thread_id", Meaning(NullableText(a.currentThreadId)))
      && Has(row, "current_job_id", Meaning(NullableText(a.currentJobId)))
      && Has(row, "version", NumTree(a.version))
      && Has(row, "created_at", NumTree(a.createdAt))
      && Has(row, "updated_at", NumTree(a.updatedAt))
      && Has(row, "orphaned_reason", Meaning(NullableText(a.orphanedReason)))
  {
    AgentRowIsFirst(id, a);
    AgentRowIsSecond(id, a);
    AgentRowIsThird(id, a);
  }

  lemma AgentRowIsFirst(id: Text, a: Agent)
    ensures
      var row := AgentRow(id, a);
      && Has(row, "agent_id", StrTree(id))
      && Has(row, "scope_id", StrTree(a.scopeId))
      && Has(row, "agent_name", StrTree(a.agentName))
      && Has(row, "normalized_name", StrTree(a.normalizedName))
  {
    AgentColumnsDistinct();
    ColumnOf(AGENT_COLUMNS, AgentValues(id, a), 0);
    ColumnOf(AGENT_COLUMNS, AgentValues(id, a), 1);
    ColumnOf(AGENT_COLUMNS, AgentValues(id, a), 2);
    ColumnOf(AGENT_COLUMNS, AgentValues(id, a), 3);
  }

  lemma AgentRowIsSecond(id: Text, a: Agent)
    ensures
      var row := AgentRow(id, a);
      && Has(row, "lifecycle", StrTree(LifecycleName(a.lifecycle)))
      && Has(row, "current_thread_id", Meaning(NullableText(a.currentThreadId)))
      && Has(row, "current_job_id", Meaning(NullableText(a.currentJobId)))
      && Has(row, "version", NumTree(a.version))
  {
    AgentColumnsDistinct();
    ColumnOf(AGENT_COLUMNS, AgentValues(id, a), 4);
    ColumnOf(AGENT_COLUMNS, AgentValues(id, a), 5);
    ColumnOf(AGENT_COLUMNS, AgentValues(id, a), 6);
    ColumnOf(AGENT_COLUMNS, AgentValues(id, a), 7);
  }

  lemma AgentRowIsThird(id: Text, a: Agent)
    ensures
      var row := AgentRow(id, a);
      && Has(row, "created_at", NumTree(a.createdAt))
      && Has(row, "updated_at", NumTree(a.updatedAt))
      && Has(row, "orphaned_reason", Meaning(NullableText(a.orphanedReason)))
  {
    AgentColumnsDistinct();
    ColumnOf(AGENT_COLUMNS, AgentValues(id, a), 8);
    ColumnOf(AGENT_COLUMNS, AgentValues(id, a), 9);
    ColumnOf(AGENT_COLUMNS, AgentValues(id, a), 10);
  }

  lemma AgentValuesMeaning(id: Text, a: Agent, id': Text, a': Agent)
    ensures Meanings(AgentValues(id, a)) == Meanings(AgentValues(id', a')) <==> id == id' && a == a'
  {
    var x1 := [Str(id), Str(a.scopeId), Str(a.agentName), Str(a.normalizedName)];
    var y1 := [Str(id'), Str(a'.scopeId), Str(a'.agentName), Str(a'.normalizedName)];
    var x2 := [Str(LifecycleName(a.lifecycle)), NullableText(a.currentThreadId), NullableText(a.currentJobId), Num(a.version)];
    var y2 := [Str(LifecycleName(a'.lifecycle)), NullableText(a'.currentThreadId), NullableText(a'.currentJobId), Num(a'.version)];
    var x3 := [Num(a.createdAt), Num(a.updatedAt), NullableText(a.orphanedReason)];
    var y3 := [Num(a'.createdAt), Num(a'.updatedAt), NullableText(a'.orphanedReason)];
    LifecycleNamesDiffer(a.lifecycle, a'.lifecycle);
    FourColumns(x1, y1);
    FourColumns(x2, y2);
    ThreeColumns(x3, y3);
    ColumnsConcat(x1, y1, x2 + x3, y2 + y3);
    ColumnsConcat(x2, y2, x3, y3);
  }

  lemma AgentRowMeaning(id: Text, a: Agent, id': Text, a': Agent)
    ensures Meaning(AgentRow(id, a)) == Meaning(AgentRow(id', a')) <==> id == id' && a == a'
  {
    AgentColumnsDistinct();
    RowMeaning(AGENT_COLUMNS, AgentValues(id, a), AgentValues(id', a'));
    AgentValuesMeaning(id, a, id', a');
  }

  function AgentRows(table: map<Text, Agent>, walk: seq<Text>): (rows: seq<Value>)
    requires forall id :: id in walk ==> id in table
    ensures |rows| == |walk|
    ensures forall i :: 0 <= i < |walk| ==> rows[i] == AgentRow(walk[i], table[walk[i]])
  {
    if walk == [] then [] else [AgentRow(walk[0], table[walk[0]])] + AgentRows(table, walk[1..])
  }

  lemma AgentRowWellKeyed(id: Text, a: Agent)
    ensures WellKeyed(AgentRow(id, a))
  {
    AgentColumnsDistinct();
    RowWellKeyed(AGENT_COLUMNS, AgentValues(id, a));
  }

  predicate SameAgent(a: Agent, b: Agent) { a == b }

  lemma AgentSnapshots(
      leq: (Text, Text) -> bool, a: map<Text, Agent>, x: seq<Text>, b: map<Text, Agent>, y: seq<Text>)
    requires Lists(x, a) && Lists(y, b)
    ensures SnapshotRows(leq, AgentRows(a, x)) == SnapshotRows(leq, AgentRows(b, y)) <==> a == b
  {
    var s, t := AgentRows(a, x), AgentRows(b, y);
    if a == b {
      TableListedTwice(leq, a, s, x, t, y);
    }
    if SnapshotRows(leq, s) == SnapshotRows(leq, t) {
      AgentRowsPrint(a, x, b, y);
      TableSnapshotDetermines(leq, SameAgent, s, x, a, t, y, b);
      SameAgentTables(a, b);
    }
  }

  lemma AgentRowsPrint(a: map<Text, Agent>, x: seq<Text>, b: map<Text, Agent>, y: seq<Text>)
    requires Lists(x, a) && Lists(y, b)
    ensures Prints(SameAgent, AgentRows(a, x), x, a, AgentRows(b, y), y, b)
  {
    var s, t := AgentRows(a, x), AgentRows(b, y);
    AgentRowsWellKeyed(a, x);
    AgentRowsWellKeyed(b, y);
    forall i, j | 0 <= i < |x| && 0 <= j < |y|
      ensures Meaning(s[i]) == Meaning(t[j]) <==> x[i] == y[j] && SameAgent(a[x[i]], b[y[j]])
    {
      AgentRowMeaning(x[i], a[x[i]], y[j], b[y[j]]);
    }
  }

  lemma AgentRowsWellKeyed(table: map<Text, Agent>, walk: seq<Text>)
    requires Lists(walk, table)
    ensures Rows(AgentRows(table, walk))
  {
    forall i | 0 <= i < |walk| ensures WellKeyed(AgentRows(table, walk)[i]) {
      AgentRowWellKeyed(walk[i], table[walk[i]]);
    }
  }

  lemma SameAgentTables(a: map<Text, Agent>, b: map<Text, Agent>)
    ensures SameTables(SameAgent, a, b) <==> a == b
  {
    if SameTables(SameAgent, a, b) {
      forall id | id in a ensures a[id] == b[id] {
        assert SameAgent(a[id], b[id]);
      }
    }
  }

  /** The audit's Agent comparison passes exactly when every Agent's own current thread is read alike. */
  lemma AgentCheck(leq: (Text, Text) -> bool, db: Database, x: seq<Text>, y: seq<Text>)
    requires ValidDatabase(db)
    requires Lists(x, MigratedAgents(db)) && Lists(y, AuditAgents(db))
    ensures SnapshotRows(leq, AgentRows(MigratedAgents(db), x)) == SnapshotRows(leq, AgentRows(AuditAgents(db), y))
       <==> CurrentThreadsAgree(db)
  {
    AgentSnapshots(leq, MigratedAgents(db), x, AuditAgents(db), y);
    AgentsAgree(db);
  }

  /** The three comparisons together pass exactly on the databases that meet all three conditions. */
  lemma Verdict(
      leq: (Text, Text) -> bool, db: Database, sessions: seq<Text>, expected: seq<Text>,
      links: seq<Text>, expectedLinks: seq<Text>, agents: seq<Text>, expectedAgents: seq<Text>)
    requires ValidDatabase(db)
    requires Lists(sessions, Selected(MigratedSessions(db), AuditSessions(db).Keys)) && Lists(expected, AuditSessions(db))
    requires Lists(links, MigratedThreads(db)) && Lists(expectedLinks, AuditLinks(db))
    requires Lists(agents, MigratedAgents(db)) && Lists(expectedAgents, AuditAgents(db))
    ensures
      && SnapshotRows(leq, SessionRows(Selected(MigratedSessions(db), AuditSessions(db).Keys), sessions))
         == SnapshotRows(leq, SessionRows(AuditSessions(db), expected))
      && SnapshotRows(leq, LinkRows(MigratedThreads(db), links)) == SnapshotRows(leq, LinkRows(AuditLinks(db), expectedLinks))
      && SnapshotRows(leq, AgentRows(MigratedAgents(db), agents)) == SnapshotRows(leq, AgentRows(AuditAgents(db), expectedAgents))
      <==> SandboxesValid(db) && PayloadsAgree(db) && NoEmptyCurrentThread(db)
  {
    SessionCheck(leq, db, sessions, expected);
    LinkCheck(leq, db, links, expectedLinks);
    AgentCheck(leq, db, agents, expectedAgents);
    if SandboxesValid(db) {
      CurrentThreadsWithValidSandboxes(db);
    }
  }
}

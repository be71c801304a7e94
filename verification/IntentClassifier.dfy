/** The read-only diagnosis of journal rows, and what it can say about rows that the storage protocol wrote. */
module IntentClassifier {
  import opened Prelude
  import opened Documents
  import opened DocumentStorage

  datatype Json =
    | Null | Bool(b: bool) | Number(n: real) | Str(s: string) | Arr(items: seq<Json>) | Obj(fields: map<string, Json>)
  datatype Instant = Finite(ms: int) | NotFinite

  datatype Category =
    | IN_FLIGHT_OR_UNKNOWN | UNRESOLVED_PENDING | ROLLED_BACK_UNRESOLVED | COMMITTED_REFERENCED
    | COMMITTED_MISSING_REFERENCE | CLEANED_TERMINAL | REFERENCED_OBJECT | MANUAL_REVIEW_REQUIRED | MALFORMED_INTENT

  datatype ObservedIntent = ObservedIntent(id: int, action: string, entityType: string, entityId: int, details: Json,
                                           createdAt: Instant)
  datatype ReferenceFacts = ReferenceFacts(count: nat, archived: nat, firstPortraitId: Option<int>,
                                           lastPortraitId: Option<int>)
  const NO_REFERENCES := ReferenceFacts(0, 0, None, None)

  function Field(j: Json, name: string): Option<Json> {
    if j.Obj? && name in j.fields then Some(j.fields[name]) else None
  }

  predicate PositiveIdJson(j: Option<Json>) {
    j.Some? && j.value.Number? && j.value.n == j.value.n.Floor as real && PositiveId(j.value.n.Floor)
  }

  predicate IsText(j: Option<Json>, s: string) {
    j == Some(Str(s))
  }

  function StateName(s: IntentState): string {
    match s case PENDING => "PENDING" case ROLLED_BACK => "ROLLED_BACK" case COMMITTED => "COMMITTED" case CLEANED =>
        "CLEANED"
  }

  function StateIn(details: Json): Option<IntentState> {
    var state := Field(details, "state");
    if IsText(state, "PENDING") then Some(PENDING)
    else if IsText(state, "ROLLED_BACK") then Some(ROLLED_BACK)
    else if IsText(state, "COMMITTED") then Some(COMMITTED)
    else if IsText(state, "CLEANED") then Some(CLEANED)
    else None
  }

  function ObservedPrivateKey(details: Json): Option<string> {
    var key := Field(details, "fileKey");
    if key.Some? && key.value.Str? && PrivateKey(key.value.s) then Some(key.value.s) else None
  }

  predicate ValidIntent(intent: ObservedIntent) {
    var d := intent.details;
    && PositiveId(intent.id)
    && intent.action == "DOCUMENT_STORAGE_PENDING"
    && (intent.entityType == "DocumentStorageIntent" || intent.entityType == "StudentPortrait")
    && d.Obj?
    && (var op := Field(d, "operationId"); op.Some? && op.value.Str? && Uuid(op.value.s))
    && ObservedPrivateKey(d).Some?
    && PositiveIdJson(Field(d, "studentPortraitId"))
    && Field(d, "studentPortraitId") == Some(Number(intent.entityId as real))
    && PositiveIdJson(Field(d, "ownerUserId"))
    && (Field(d, "documentId") == Some(Null) || PositiveIdJson(Field(d, "documentId")))
    && StateIn(d).Some?
    && intent.createdAt.Finite?
  }

  /** details.recovery asks for a manual decision. */
  predicate RecoveryFlagged(d: Json) {
    var recovery := Field(d, "recovery");
    recovery.Some? && recovery.value.Obj?
    && (Field(recovery.value, "deleteFenced") == Some(Bool(true))
        || (Field(recovery.value, "manualReason").Some? && Field(recovery.value, "manualReason").value.Str?))
  }

  predicate IsPortrait(id: Option<int>, field: Option<Json>) {
    id.Some? && field == Some(Number(id.value as real))
  }

  function ClassifyIntent(intent: ObservedIntent, references: ReferenceFacts, now: int, staleAfterMs: int): Category {
    var d := intent.details;
    var state := StateIn(d);
    var referenced := references.count > 0;
    var portrait := Field(d, "studentPortraitId");
    if !ValidIntent(intent) then MALFORMED_INTENT
    else if (referenced && (!IsPortrait(references.firstPortraitId, portrait)
                            || !IsPortrait(references.lastPortraitId, portrait) || state == Some(CLEANED)))
            || RecoveryFlagged(d) then MANUAL_REVIEW_REQUIRED
    else if referenced then (if state == Some(COMMITTED) then COMMITTED_REFERENCED else REFERENCED_OBJECT)
    else if state == Some(COMMITTED) then COMMITTED_MISSING_REFERENCE
    else if state == Some(CLEANED) then CLEANED_TERMINAL
    else if state == Some(ROLLED_BACK) then ROLLED_BACK_UNRESOLVED
    else if now - intent.createdAt.ms < staleAfterMs then IN_FLIGHT_OR_UNKNOWN
    else UNRESOLVED_PENDING
  }

  /** Some document names the file although it should not: one of another portrait, or any at all once it was
      cleaned. */
  predicate Misreferenced(intent: ObservedIntent, f: ReferenceFacts) {
    && f.count > 0
    && (Field(intent.details, "state") == Some(Str("CLEANED"))
        || !IsPortrait(f.firstPortraitId, Field(intent.details, "studentPortraitId"))
        || !IsPortrait(f.lastPortraitId, Field(intent.details, "studentPortraitId")))
  }

  /** Every category, by when a row of any origin falls in it. */
  lemma CategoriesExactly(intent: ObservedIntent, f: ReferenceFacts, now: int, staleAfterMs: int)
    ensures var c := ClassifyIntent(intent, f, now, staleAfterMs);
            var sound := ValidIntent(intent) && !RecoveryFlagged(intent.details) && !Misreferenced(intent, f);
            var state := Field(intent.details, "state");
      && (c == MALFORMED_INTENT <==> !ValidIntent(intent))
      && (c == MANUAL_REVIEW_REQUIRED <==>
            ValidIntent(intent) && (RecoveryFlagged(intent.details) || Misreferenced(intent, f)))
      && (c == COMMITTED_REFERENCED <==> sound && f.count > 0 && state == Some(Str("COMMITTED")))
      && (c == REFERENCED_OBJECT <==> sound && f.count > 0 && state in {Some(Str("PENDING")), Some(Str("ROLLED_BACK"))})
      && (c == COMMITTED_MISSING_REFERENCE <==> sound && f.count == 0 && state == Some(Str("COMMITTED")))
      && (c == CLEANED_TERMINAL <==> sound && f.count == 0 && state == Some(Str("CLEANED")))
      && (c == ROLLED_BACK_UNRESOLVED <==> sound && f.count == 0 && state == Some(Str("ROLLED_BACK")))
      && (c == IN_FLIGHT_OR_UNKNOWN <==>
            sound && f.count == 0 && state == Some(Str("PENDING")) && now - intent.createdAt.ms < staleAfterMs)
      && (c == UNRESOLVED_PENDING <==>
            sound && f.count == 0 && state == Some(Str("PENDING")) && now - intent.createdAt.ms >= staleAfterMs)
  {
    hide Uuid;
    hide PrivateKey;
    hide RecoveryFlagged;
    hide PositiveIdJson;
  }

  // ---- Rows that the protocol wrote ----

  /** The journal row of an intent, as recovery.begin and its updates store it. */
  function JournalRow(id: int, row: Intent): ObservedIntent {
    ObservedIntent(id, "DOCUMENT_STORAGE_PENDING", "DocumentStorageIntent", row.portraitId,
      Obj(map["operationId" := Str(row.operationId), "fileKey" := Str(row.fileKey),
              "studentPortraitId" := Number(row.portraitId as real),
              "ownerUserId" := Number(row.ownerId as real), "documentId" := if row.documentId.Some?
                then Number(row.documentId.value as real) else Null,
              "state" := Str(StateName(row.state))]),
      Finite(row.createdAt))
  }

  function Naming(t: Table, key: string): set<int> {
    set id | id in t && t[id].fileKey == Some(key)
  }

  /** The grouped query over documents, archived ones included: how many name the key, and the least and greatest
      portrait. */
  ghost predicate FactsOf(t: Table, key: string, f: ReferenceFacts) {
    var ids := Naming(t, key);
    && f.count == |ids|
    && f.archived == |set id | id in ids && t[id].deletedAt.Some?|
    && (ids == {} ==> f.firstPortraitId.None? && f.lastPortraitId.None?)
    && (ids != {} ==>
          && f.firstPortraitId.Some? && (exists id :: id in ids && t[id].portraitId == f.firstPortraitId.value)
          && (forall id :: id in ids ==> f.firstPortraitId.value <= t[id].portraitId)
          && f.lastPortraitId.Some? && (exists id :: id in ids && t[id].portraitId == f.lastPortraitId.value)
          && (forall id :: id in ids ==> t[id].portraitId <= f.lastPortraitId.value))
  }

  lemma JournalRowValid(w: World, i: int)
    requires Inv(w) && i in w.intents
    ensures ValidIntent(JournalRow(i, w.intents[i]))
            && StateIn(JournalRow(i, w.intents[i]).details) == Some(w.intents[i].state)
    ensures !RecoveryFlagged(JournalRow(i, w.intents[i]).details)
  {
    var row := w.intents[i];
    assert IntentOk(w, i);
    assert UploadOk(w, row.fileKey);
    var d := JournalRow(i, row).details;
    assert Field(d, "operationId") == Some(Str(row.operationId));
    assert Field(d, "fileKey") == Some(Str(row.fileKey));
    assert Field(d, "studentPortraitId") == Some(Number(row.portraitId as real));
    assert Field(d, "ownerUserId") == Some(Number(row.ownerId as real));
    assert Field(d, "state") == Some(Str(StateName(row.state)));
    assert Field(d, "recovery") == None;
    if row.documentId.Some? {
      assert Field(d, "documentId") == Some(Number(row.documentId.value as real));
    } else {
      assert Field(d, "documentId") == Some(Null);
    }
  }

  lemma CountedIffReferenced(t: Table, key: string, f: ReferenceFacts)
    requires FactsOf(t, key, f)
    ensures f.count > 0 <==> Referenced(t, key)
  {
    if Referenced(t, key) {
      var id :| id in t && t[id].fileKey == Some(key);
      assert id in Naming(t, key);
    } else {
      assert Naming(t, key) == {};
    }
  }

  /** The category of a protocol row by its own state and the references alone. */
  function Diagnosis(row: Intent, referenced: bool, now: int, staleAfterMs: int): Category {
    if referenced then (if row.state == COMMITTED then COMMITTED_REFERENCED else REFERENCED_OBJECT)
    else match row.state
         case COMMITTED => COMMITTED_MISSING_REFERENCE
         case CLEANED => CLEANED_TERMINAL
         case ROLLED_BACK => ROLLED_BACK_UNRESOLVED
         case PENDING => if now - row.createdAt < staleAfterMs then IN_FLIGHT_OR_UNKNOWN else UNRESOLVED_PENDING
  }

  /** All documents that name the file belong to the intent's portrait. */
  predicate OnePortrait(t: Table, row: Intent) {
    forall id :: id in t && t[id].fileKey == Some(row.fileKey) ==> t[id].portraitId == row.portraitId
  }

  lemma ClassifyJournalRow(i: int, row: Intent, t: Table, f: ReferenceFacts, now: int, staleAfterMs: int)
    requires ValidIntent(JournalRow(i, row)) && StateIn(JournalRow(i, row).details) == Some(row.state)
    requires !RecoveryFlagged(JournalRow(i, row).details)
    requires FactsOf(t, row.fileKey, f) && OnePortrait(t, row) && (row.state == CLEANED ==> !Referenced(t, row.fileKey))
    ensures ClassifyIntent(JournalRow(i, row), f, now, staleAfterMs)
            == Diagnosis(row, Referenced(t, row.fileKey), now, staleAfterMs)
  {
    CountedIffReferenced(t, row.fileKey, f);
    assert Field(JournalRow(i, row).details, "studentPortraitId") == Some(Number(row.portraitId as real));
    if f.count > 0 {
      assert Naming(t, row.fileKey) != {};
      assert f.firstPortraitId == Some(row.portraitId) && f.lastPortraitId == Some(row.portraitId);
    }
  }

  /** An intent is read at one moment of a run and the references to its file at a later one. Whatever happened between,
      the row is never diagnosed as malformed or for manual review, and a reference to an uncommitted row can only mean
      that it was still pending and committed in between. */
  lemma TwoSnapshots(w0: World, before: seq<Step>, after: seq<Step>, i: int, f: ReferenceFacts, now: int,
                     staleAfterMs: int)
    requires Initial(w0) && i in Run(w0, before).intents
    requires FactsOf(Run(w0, before + after).documents, Run(w0, before).intents[i].fileKey, f)
    ensures var row, w' := Run(w0, before).intents[i], Run(w0, before + after);
            var category := ClassifyIntent(JournalRow(i, row), f, now, staleAfterMs);
            && category != MALFORMED_INTENT && category != MANUAL_REVIEW_REQUIRED
            && category == Diagnosis(row, Referenced(w'.documents, row.fileKey), now, staleAfterMs)
            && (category == REFERENCED_OBJECT ==> row.state == PENDING && StateOf(w', row.fileKey) == Some(COMMITTED))
  {
    var w, w' := Run(w0, before), Run(w0, before + after);
    RunFromInitial(w0, before, after);
    var row := w.intents[i];
    JournalRowValid(w, i);
    LaterReferences(w, w', i);
    ClassifyJournalRow(i, row, w'.documents, f, now, staleAfterMs);
  }

  /** What documents may say about a file later on, from the state its intent has now. */
  lemma LaterReferences(w: World, w': World, i: int)
    requires Inv(w) && Inv(w') && Evolves(w, w') && i in w.intents
    ensures OnePortrait(w'.documents, w.intents[i])
    ensures Referenced(w'.documents, w.intents[i].fileKey) ==>
              (w.intents[i].state == PENDING || w.intents[i].state == COMMITTED)
                  && StateOf(w', w.intents[i].fileKey) == Some(COMMITTED)
  {
    var row := w.intents[i];
    assert IntentOk(w, i) && UploadOk(w, row.fileKey);
    assert StateOf(w, row.fileKey) == Some(row.state);
    forall id | id in w'.documents && w'.documents[id].fileKey == Some(row.fileKey)
      ensures w'.documents[id].portraitId == row.portraitId && StateOf(w', row.fileKey) == Some(COMMITTED)
    {
      assert RowOk(w', w'.documents[id]);
    }
  }

  /** Read in one snapshot, no uncommitted row is referenced, and every stored object that no document names belongs to
      an intent in one of the unresolved categories, unless the intent is CLEANED and a put of the file was repeated. */
  lemma OneSnapshot(w0: World, steps: seq<Step>, i: int, f: ReferenceFacts, now: int, staleAfterMs: int)
    requires Initial(w0) && i in Run(w0, steps).intents
    requires FactsOf(Run(w0, steps).documents, Run(w0, steps).intents[i].fileKey, f)
    ensures var w := Run(w0, steps);
            var row := w.intents[i];
            var category := ClassifyIntent(JournalRow(i, row), f, now, staleAfterMs);
            && category != MALFORMED_INTENT && category != MANUAL_REVIEW_REQUIRED && category != REFERENCED_OBJECT
            && (row.fileKey in w.objects && !Referenced(w.documents, row.fileKey) ==>
                  if row.state == CLEANED then category == CLEANED_TERMINAL && RetryPut(row.fileKey) in steps
                  else category in {IN_FLIGHT_OR_UNKNOWN, UNRESOLVED_PENDING, ROLLED_BACK_UNRESOLVED,
                                     COMMITTED_MISSING_REFERENCE})
  {
    hide ClassifyIntent;
    hide FactsOf;
    assert steps + [] == steps;
    RunFromInitial(w0, steps, []);
    TwoSnapshots(w0, steps, [], i, f, now, staleAfterMs);
    var w := Run(w0, steps);
    StateHere(w, i);
    if w.intents[i].state == CLEANED {
      CleanedForGood(w0, steps, w.intents[i].fileKey);
    }
  }

  lemma StateHere(w: World, i: int)
    requires Inv(w) && i in w.intents
    ensures w.intents[i].fileKey in w.uploads && StateOf(w, w.intents[i].fileKey) == Some(w.intents[i].state)
    ensures Referenced(w.documents, w.intents[i].fileKey) ==> w.intents[i].state == COMMITTED
  {
    assert IntentOk(w, i) && UploadOk(w, w.intents[i].fileKey);
    if w.intents[i].state != COMMITTED {
      UncommittedUnreferenced(w, w.intents[i].fileKey);
    }
  }

  /** The first upload of an empty system, up to the moment its COMMIT is on the way. */
  lemma FirstUpload(key: string, operationId: string, title: string) returns (steps: seq<Step>)
    requires PrivateKey(key) && Uuid(operationId)
    ensures Run(World(map[], map[], {}, map[]), steps) ==
              World(map[], map[1 := Intent(operationId, key, 1, 1, None, PENDING, 0)], {key},
                    map[key := Upload(operationId, 1, 1, Create(title, None), Some(1), Committing, 0, false, true, 0,
                                      false)])
  {
    hide Run;
    hide WriteChange;
    hide SubmitForReview;
    hide Review;
    hide StaffMutation;
    hide Referenced;
    var w0 := World(map[], map[], {}, map[]);
    var u := NewUpload(operationId, 1, 1, Create(title, None));
    var row := Intent(operationId, key, 1, 1, None, PENDING, 0);
    RunNothing(w0);
    steps := Extend(w0, [], w0, Begin(key, operationId, 1, 1, Create(title, None)),
                    World(map[], map[], {}, map[key := u]));
    var recorded := u.(intentId := Some(1), phase := Recorded);
    steps := Extend(w0, steps, World(map[], map[], {}, map[key := u]), WriteIntent(key, 1, 0),
                    World(map[], map[1 := row], {}, map[key := recorded]));
    var putting := recorded.(phase := Putting, puts := 1);
    steps := Extend(w0, steps, World(map[], map[1 := row], {}, map[key := recorded]), SendPut(key),
                    World(map[], map[1 := row], {}, map[key := putting]));
    var landed := putting.(puts := 0);
    steps := Extend(w0, steps, World(map[], map[1 := row], {}, map[key := putting]), PutLands(key),
                    World(map[], map[1 := row], {key}, map[key := landed]));
    var stored := landed.(phase := Stored);
    steps := Extend(w0, steps, World(map[], map[1 := row], {key}, map[key := landed]), PutAcknowledged(key),
                    World(map[], map[1 := row], {key}, map[key := stored]));
    steps := Extend(w0, steps, World(map[], map[1 := row], {key}, map[key := stored]), SendCommit(key),
                    World(map[], map[1 := row], {key}, map[key := stored.(phase := Committing, commit := true)]));
  }

  lemma RunNothing(w: World)
    ensures Run(w, []) == w
  {
  }

  lemma Extend(w0: World, steps: seq<Step>, w: World, s: Step, w': World) returns (longer: seq<Step>)
    requires Run(w0, steps) == w && Apply(w, s) == w'
    ensures Run(w0, longer) == w'
  {
    RunLast(w0, steps, s);
    longer := steps + [s];
  }

  /** REFERENCED_OBJECT does arise when a commit lands between the two reads. */
  lemma CommitBetweenReads(key: string, operationId: string, title: string)
      returns (before: seq<Step>, after: seq<Step>)
    requires PrivateKey(key) && Uuid(operationId)
    ensures var w0 := World(map[], map[], {}, map[]);
            var f := ReferenceFacts(1, 0, Some(1), Some(1));
            && Initial(w0) && 1 in Run(w0, before).intents
            && FactsOf(Run(w0, before + after).documents, key, f)
            && ClassifyIntent(JournalRow(1, Run(w0, before).intents[1]), f, 0, 1) == REFERENCED_OBJECT
  {
    var w0 := World(map[], map[], {}, map[]);
    before := FirstUpload(key, operationId, title);
    after := [CommitLands(key, 1, 0)];
    RunLast(w0, before, after[0]);
    var t := Run(w0, before + after).documents;
    assert t == map[1 := Document(1, title, PrivateFile(1), Some(key), 1, DRAFT, None, 1, None, 0, None)];
    assert Naming(t, key) == {1};
    assert (set id | id in {1} && t[id].deletedAt.Some?) == {};
    assert t[1].fileKey == Some(key);
    TwoSnapshots(w0, before, after, 1, ReferenceFacts(1, 0, Some(1), Some(1)), 0, 1);
  }

  /** A world with one upload, no documents and the store as given. */
  function One(u: Upload, row: Intent, objects: set<string>): World {
    World(map[], map[1 := row], objects, map[row.fileKey := u])
  }

  function Once(operationId: string, title: string): Upload {
    NewUpload(operationId, 1, 1, Create(title, None)).(intentId := Some(1))
  }

  lemma Follow(w0: World, steps: seq<Step>, u: Upload, row: Intent, objects: set<string>, s: Step,
               u': Upload, row': Intent, objects': set<string>) returns (longer: seq<Step>)
    requires Run(w0, steps) == One(u, row, objects) && Apply(One(u, row, objects), s) == One(u', row', objects')
    ensures Run(w0, longer) == One(u', row', objects')
  {
    longer := Extend(w0, steps, One(u, row, objects), s, One(u', row', objects'));
  }

  lemma StoringSteps(u: Upload, row: Intent, objects: set<string>)
    ensures var w, k := One(u, row, objects), row.fileKey;
      && (u.phase == Recorded ==> Apply(w, SendPut(k)) == One(u.(phase := Putting, puts := 1), row, objects))
      && (u.phase == Putting ==> Apply(w, RetryPut(k)) == One(u.(puts := u.puts + 1, retried := true), row, objects))
      && (u.puts > 0 ==> Apply(w, PutLands(k)) == One(u.(puts := u.puts - 1), row, objects + {k}))
      && (u.phase == Putting && u.retried && k in objects ==>
          Apply(w, PutAcknowledged(k)) == One(u.(phase := Stored), row, objects))
      && (u.phase == Stored ==> Apply(w, CallbackRejected(k)) == One(u.(phase := RolledBack), row, objects))
  {
    hide Apply;
    PutSteps(One(u, row, objects), row.fileKey);
  }

  lemma CheckingSteps(u: Upload, row: Intent, objects: set<string>)
    requires u.intentId == Some(1) && u.portraitId == row.portraitId && u.operationId == row.operationId
    ensures var w, k := One(u, row, objects), row.fileKey;
      && (u.phase == RolledBack && row.state == PENDING ==>
          Apply(w, FindIntent(k)) == One(u.(phase := Found), row, objects))
      && (u.phase == Found ==> Apply(w, CountReferences(k)) == One(u.(phase := Unreferenced), row, objects))
      && (u.phase == Unreferenced && row.state == PENDING ==>
            Apply(w, MarkRolledBack(k))
                == One(u.(phase := Marked), row.(state := ROLLED_BACK, documentId := OriginalDocument(u.change)),
                       objects))
  {
  }

  lemma DeletingSteps(u: Upload, row: Intent, objects: set<string>)
    ensures var w, k := One(u, row, objects), row.fileKey;
      && (u.phase == Marked ==> Apply(w, SendDelete(k)) == One(u.(phase := Deleting, deletes := 1), row, objects))
      && (u.deletes > 0 ==>
          Apply(w, DeleteLands(k)) == One(u.(deletes := u.deletes - 1, gone := true), row, objects - {k}))
      && (u.phase == Deleting && u.gone ==> Apply(w, DeleteAcknowledged(k)) == One(u.(phase := Deleted), row, objects))
  {
    hide Apply;
    DeleteSteps(One(u, row, objects), row.fileKey);
  }

  lemma ClosingStep(u: Upload, row: Intent, objects: set<string>)
    requires u.intentId == Some(1) && u.portraitId == row.portraitId && u.operationId == row.operationId
    requires u.phase == Deleted && row.state == ROLLED_BACK
    ensures Apply(One(u, row, objects), MarkCleaned(row.fileKey))
            == One(u.(phase := Cleaned), row.(state := CLEANED, documentId := OriginalDocument(u.change)), objects)
  {
  }

  /** The same upload with its put sent twice, of which one attempt has landed, when its COMMIT is refused. */
  lemma TwoPuts(key: string, operationId: string, title: string) returns (steps: seq<Step>)
    requires PrivateKey(key) && Uuid(operationId)
    ensures Run(World(map[], map[], {}, map[]), steps) ==
              One(Once(operationId, title).(phase := RolledBack, puts := 1, retried := true),
                  Intent(operationId, key, 1, 1, None, PENDING, 0), {key})
  {
    hide Run;
    hide Apply;
    var w0 := World(map[], map[], {}, map[]);
    var u := NewUpload(operationId, 1, 1, Create(title, None));
    var row := Intent(operationId, key, 1, 1, None, PENDING, 0);
    RunNothing(w0);
    BeginStep(w0, key, operationId, 1, 1, Create(title, None));
    steps := Extend(w0, [], w0, Begin(key, operationId, 1, 1, Create(title, None)),
                    World(map[], map[], {}, map[key := u]));
    var v := Once(operationId, title).(phase := Recorded);
    IntentStep(World(map[], map[], {}, map[key := u]), key, 1, 0);
    steps := Extend(w0, steps, World(map[], map[], {}, map[key := u]), WriteIntent(key, 1, 0), One(v, row, {}));
    StoringSteps(v, row, {});
    steps := Follow(w0, steps, v, row, {}, SendPut(key), v.(phase := Putting, puts := 1), row, {});
    v := v.(phase := Putting, puts := 1);
    StoringSteps(v, row, {});
    steps := Follow(w0, steps, v, row, {}, RetryPut(key), v.(puts := 2, retried := true), row, {});
    v := v.(puts := 2, retried := true);
    StoringSteps(v, row, {});
    steps := Follow(w0, steps, v, row, {}, PutLands(key), v.(puts := 1), row, {key});
    v := v.(puts := 1);
    StoringSteps(v, row, {key});
    steps := Follow(w0, steps, v, row, {key}, PutAcknowledged(key), v.(phase := Stored), row, {key});
    StoringSteps(v.(phase := Stored), row, {key});
    steps := Follow(w0, steps, v.(phase := Stored), row, {key}, CallbackRejected(key), v.(phase := RolledBack), row,
                    {key});
  }

  /** Compensation cleans the intent, and the object is gone. */
  lemma RefusedUpload(key: string, operationId: string, title: string) returns (steps: seq<Step>)
    requires PrivateKey(key) && Uuid(operationId)
    ensures Run(World(map[], map[], {}, map[]), steps) ==
              One(Once(operationId, title).(phase := Cleaned, puts := 1, retried := true, gone := true),
                  Intent(operationId, key, 1, 1, None, CLEANED, 0), {})
  {
    hide Run;
    hide Apply;
    var w0 := World(map[], map[], {}, map[]);
    var row := Intent(operationId, key, 1, 1, None, PENDING, 0);
    var v := Once(operationId, title).(phase := RolledBack, puts := 1, retried := true);
    steps := TwoPuts(key, operationId, title);
    CheckingSteps(v, row, {key});
    steps := Follow(w0, steps, v, row, {key}, FindIntent(key), v.(phase := Found), row, {key});
    CheckingSteps(v.(phase := Found), row, {key});
    steps := Follow(w0, steps, v.(phase := Found), row, {key}, CountReferences(key), v.(phase := Unreferenced), row,
                    {key});
    CheckingSteps(v.(phase := Unreferenced), row, {key});
    steps := Follow(w0, steps, v.(phase := Unreferenced), row, {key}, MarkRolledBack(key), v.(phase := Marked),
                    row.(state := ROLLED_BACK), {key});
    v, row := v.(phase := Marked), row.(state := ROLLED_BACK);
    DeletingSteps(v, row, {key});
    steps := Follow(w0, steps, v, row, {key}, SendDelete(key), v.(phase := Deleting, deletes := 1), row, {key});
    v := v.(phase := Deleting, deletes := 1);
    DeletingSteps(v, row, {key});
    steps := Follow(w0, steps, v, row, {key}, DeleteLands(key), v.(deletes := 0, gone := true), row, {});
    v := v.(deletes := 0, gone := true);
    DeletingSteps(v, row, {});
    steps := Follow(w0, steps, v, row, {}, DeleteAcknowledged(key), v.(phase := Deleted), row, {});
    ClosingStep(v.(phase := Deleted), row, {});
    steps := Follow(w0, steps, v.(phase := Deleted), row, {}, MarkCleaned(key), v.(phase := Cleaned),
                    row.(state := CLEANED), {});
  }

  /** And it does arise that the attempt still in flight stores the object again, under a row diagnosed as terminal. */
  lemma LatePut(key: string, operationId: string, title: string, now: int, staleAfterMs: int)
      returns (before: seq<Step>)
    requires PrivateKey(key) && Uuid(operationId)
    ensures var w0 := World(map[], map[], {}, map[]);
            var w := Run(w0, before + [PutLands(key)]);
            && Initial(w0) && StateOf(Run(w0, before), key) == Some(CLEANED) && key !in Run(w0, before).objects
            && key in w.objects && 1 in w.intents && FactsOf(w.documents, key, NO_REFERENCES)
            && ClassifyIntent(JournalRow(1, w.intents[1]), NO_REFERENCES, now, staleAfterMs) == CLEANED_TERMINAL
  {
    var w0 := World(map[], map[], {}, map[]);
    before := RefusedUpload(key, operationId, title);
    RunLast(w0, before, PutLands(key));
    var w := Run(w0, before + [PutLands(key)]);
    assert Naming(w.documents, key) == {};
    OneSnapshot(w0, before + [PutLands(key)], 1, NO_REFERENCES, now, staleAfterMs);
  }
}

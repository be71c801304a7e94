/** The private-file protocol between the database (documents, intents) and the object store, as interleaved
    atomic steps of any number of uploads. A request in flight may land, be lost, or land after its sender gave up;
    a process may stop between any two steps. */
module DocumentStorage {
  import opened Prelude
  import opened Documents

  datatype IntentState = PENDING | ROLLED_BACK | COMMITTED | CLEANED
  datatype Intent = Intent(operationId: string, fileKey: string, portraitId: int, ownerId: int,
                           documentId: Option<int>, state: IntentState, createdAt: int)

  /** What the transaction of an upload writes: a new document, or a new version of the row read beforehand. */
  datatype Change = Create(title: string, programId: Option<int>) | Replace(read: Document)

  /** How far the process serving an upload has come. Deferred: an outcome is unknown, so compensation declined to act.
      Abandoned: the process stopped, or compensation gave up. */
  datatype Phase =
    | Begun | Recorded | Putting | Stored | Committing | Finished | Deferred | Abandoned
    | RolledBack | Found | Unreferenced | Marked | Deleting | Deleted | Cleaned

  /** An upload: its fixed parameters, the intent row once it exists, the phase, and its requests still in flight. The
      store's client repeats a put or a delete that it takes for lost, so several attempts of one may be in flight;
      retried remembers that a put was repeated, gone that a delete was carried out. */
  datatype Upload = Upload(operationId: string, portraitId: int, ownerId: int, change: Change, intentId: Option<int>,
                           phase: Phase,
                           puts: nat, retried: bool, commit: bool, deletes: nat, gone: bool)

  function NewUpload(operationId: string, portraitId: int, ownerId: int, change: Change): Upload {
    Upload(operationId, portraitId, ownerId, change, None, Begun, 0, false, false, 0, false)
  }

  datatype World = World(documents: Table, intents: map<int, Intent>, objects: set<string>,
                         uploads: map<string, Upload>)

  datatype Step =
    | Begin(key: string, operationId: string, portraitId: int, ownerId: int, change: Change)
    | WriteIntent(key: string, id: int, createdAt: int)
    | SendPut(key: string) | RetryPut(key: string) | PutLands(key: string) | PutLost(key: string)
    | PutAcknowledged(key: string) | PutUnknown(key: string)
    | CallbackRejected(key: string)
    | SendCommit(key: string) | CommitLands(key: string, newId: int, now: int) | CommitLost(key: string)
    | CommitAcknowledged(key: string) | CommitUnknown(key: string)
    | FindIntent(key: string) | CountReferences(key: string) | MarkRolledBack(key: string)
    | SendDelete(key: string) | RetryDelete(key: string) | DeleteLands(key: string) | DeleteLost(key: string)
    | DeleteAcknowledged(key: string)
    | MarkCleaned(key: string)
    | Stop(key: string)
    | Submit(read: Document, at: int)
    | Judge(id: int, verdict: Status, feedback: Option<string>, at: int)
    | Staff(id: int, portraitId: int, version: int, updatedAt: int, staffChange: StaffChange, at: int)

  predicate At(w: World, key: string, phase: Phase) {
    key in w.uploads && w.uploads[key].phase == phase
  }

  function SetUpload(w: World, key: string, u: Upload): World {
    w.(uploads := w.uploads[key := u])
  }

  function Move(w: World, key: string, phase: Phase): World
    requires key in w.uploads
  {
    SetUpload(w, key, w.uploads[key].(phase := phase))
  }

  /** intentWhere: the row has this id, names this file and operation, and is in one of the states. */
  predicate IntentMatches(w: World, key: string, states: set<IntentState>)
    requires key in w.uploads
  {
    var u := w.uploads[key];
    && u.intentId.Some? && u.intentId.value in w.intents
    && var row := w.intents[u.intentId.value];
       row.portraitId == u.portraitId && row.fileKey == key && row.operationId == u.operationId && row.state in states
  }

  function SetState(w: World, key: string, state: IntentState, documentId: Option<int>): World
    requires key in w.uploads && w.uploads[key].intentId.Some? && w.uploads[key].intentId.value in w.intents
  {
    var i := w.uploads[key].intentId.value;
    w.(intents := w.intents[i := w.intents[i].(state := state, documentId := documentId)])
  }

  /** The documentId recorded when the intent was written. */
  function OriginalDocument(change: Change): Option<int> {
    match change case Create(_, _) => None case Replace(read) => Some(read.id)
  }

  function WriteChange(t: Table, key: string, u: Upload, newId: int, now: int): Option<Table> {
    match u.change
    case Create(title, programId) => CreatePrivate(t, newId, title, key, u.portraitId, programId, now)
    case Replace(read) => UpdatePrivateVersion(t, read, key, now)
  }

  function WrittenId(u: Upload, newId: int): int {
    match u.change case Create(_, _) => newId case Replace(read) => read.id
  }

  predicate Referenced(t: Table, key: string) {
    exists id :: id in t && t[id].fileKey == Some(key)
  }

  /** A step that is not enabled changes nothing. */
  function Apply(w: World, s: Step): World {
    match s
    case Begin(k, op, portrait, owner, change) =>
      // Generated keys are fresh; a version is replaced on a live row that was read for this portrait.
      if k !in w.uploads && PrivateKey(k) && Uuid(op) && PositiveId(portrait) && PositiveId(owner)
         && (change.Replace? ==>
             change.read.deletedAt.None? && change.read.portraitId == portrait && PositiveId(change.read.id))
      then SetUpload(w, k, NewUpload(op, portrait, owner, change)) else w
    case WriteIntent(k, id, createdAt) =>
      if At(w, k, Begun) && id !in w.intents && PositiveId(id) then
        var u := w.uploads[k];
        var row := Intent(u.operationId, k, u.portraitId, u.ownerId, OriginalDocument(u.change), PENDING, createdAt);
        SetUpload(w, k, u.(intentId := Some(id), phase := Recorded)).(intents := w.intents[id := row])
      else w
    case SendPut(k) => if At(w, k, Recorded) then SetUpload(w, k, w.uploads[k].(phase := Putting, puts := 1)) else w
    case RetryPut(k) =>
      if At(w, k, Putting) then SetUpload(w, k, w.uploads[k].(puts := w.uploads[k].puts + 1, retried := true)) else w
    case PutLands(k) =>
      // IfNoneMatch: an object that is there already stays, and it is the same one.
      if k in w.uploads && w.uploads[k].puts > 0
      then SetUpload(w, k, w.uploads[k].(puts := w.uploads[k].puts - 1)).(objects := w.objects + {k}) else w
    case PutLost(k) => if k in w.uploads && w.uploads[k].puts > 0
      then SetUpload(w, k, w.uploads[k].(puts := w.uploads[k].puts - 1)) else w
    case PutAcknowledged(k) =>
      if At(w, k, Putting) && (w.uploads[k].puts == 0 || w.uploads[k].retried) && k in w.objects
        then Move(w, k, Stored) else w
    case PutUnknown(k) => if At(w, k, Putting) then Move(w, k, Deferred) else w
    case CallbackRejected(k) => if At(w, k, Stored) then Move(w, k, RolledBack) else w
    case SendCommit(k) => if At(w, k, Stored) then SetUpload(w, k, w.uploads[k].(phase := Committing, commit := true))
      else w
    case CommitLands(k, newId, now) =>
      if k in w.uploads && w.uploads[k].commit && IntentMatches(w, k, {PENDING}) && PositiveId(newId) then
        var u := w.uploads[k];
        match WriteChange(w.documents, k, u, newId, now)
        case None => w
        case Some(t) => SetUpload(SetState(w, k, COMMITTED, Some(WrittenId(u, newId))), k,
                                  u.(commit := false)).(documents := t)
      else w
    case CommitLost(k) => if k in w.uploads && w.uploads[k].commit then SetUpload(w, k, w.uploads[k].(commit := false))
      else w
    case CommitAcknowledged(k) => if At(w, k, Committing) && IntentMatches(w, k, {COMMITTED}) then Move(w, k, Finished)
      else w
    case CommitUnknown(k) => if At(w, k, Committing) then Move(w, k, Deferred) else w
    case FindIntent(k) =>
      if At(w, k, RolledBack) then Move(w, k, if IntentMatches(w, k, {PENDING, ROLLED_BACK}) then Found else Abandoned)
        else w
    case CountReferences(k) =>
      if At(w, k, Found) then Move(w, k, if Referenced(w.documents, k) then Abandoned else Unreferenced) else w
    case MarkRolledBack(k) =>
      if At(w, k, Unreferenced) then
        if IntentMatches(w, k, {PENDING, ROLLED_BACK})
          then Move(SetState(w, k, ROLLED_BACK, OriginalDocument(w.uploads[k].change)), k, Marked)
        else Move(w, k, Abandoned)
      else w
    case SendDelete(k) => if At(w, k, Marked) then SetUpload(w, k, w.uploads[k].(phase := Deleting, deletes := 1))
      else w
    case RetryDelete(k) => if At(w, k, Deleting)
      then SetUpload(w, k, w.uploads[k].(deletes := w.uploads[k].deletes + 1)) else w
    case DeleteLands(k) =>
      if k in w.uploads && w.uploads[k].deletes > 0
      then
        var u := w.uploads[k];
        SetUpload(w, k, u.(deletes := u.deletes - 1, gone := true)).(objects := w.objects - {k})
      else w
    case DeleteLost(k) =>
      if k in w.uploads && w.uploads[k].deletes > 0
        then SetUpload(w, k, w.uploads[k].(deletes := w.uploads[k].deletes - 1)) else w
    case DeleteAcknowledged(k) => if At(w, k, Deleting) && w.uploads[k].gone then Move(w, k, Deleted) else w
    case MarkCleaned(k) =>
      if At(w, k, Deleted) then
        if IntentMatches(w, k, {ROLLED_BACK})
          then Move(SetState(w, k, CLEANED, OriginalDocument(w.uploads[k].change)), k, Cleaned)
        else Move(w, k, Abandoned)
      else w
    case Stop(k) => if k in w.uploads then Move(w, k, Abandoned) else w
    case Submit(read, at) => WriteDocuments(w, SubmitForReview(w.documents, Some(read), at))
    case Judge(id, verdict, feedback, at) => WriteDocuments(w, Review(w.documents, id, verdict, feedback, at))
    case Staff(id, portrait, version, updatedAt, change, at) =>
      WriteDocuments(w, StaffMutation(w.documents, id, portrait, version, updatedAt, change, at))
  }

  function WriteDocuments(w: World, o: Outcome): World {
    if o.Written? then w.(documents := o.table) else w
  }

  function Run(w: World, steps: seq<Step>): World
    decreases |steps|
  {
    if steps == [] then w else Run(Apply(w, steps[0]), steps[1..])
  }

  lemma {:induction false} RunAppend(w: World, a: seq<Step>, b: seq<Step>)
    ensures Run(w, a + b) == Run(Run(w, a), b)
    decreases |a|
  {
    if a == [] {
      assert a + b == b;
    } else {
      assert (a + b)[1..] == a[1..] + b;
      RunAppend(Apply(w, a[0]), a[1..], b);
    }
  }

  // ---- Single steps, where they are enabled ----

  lemma BeginStep(w: World, key: string, operationId: string, portraitId: int, ownerId: int, change: Change)
    requires key !in w.uploads && PrivateKey(key) && Uuid(operationId) && PositiveId(portraitId) && PositiveId(ownerId)
    requires change.Replace? ==>
               change.read.deletedAt.None? && change.read.portraitId == portraitId && PositiveId(change.read.id)
    ensures Apply(w, Begin(key, operationId, portraitId, ownerId, change))
            == SetUpload(w, key, NewUpload(operationId, portraitId, ownerId, change))
  {
  }

  lemma IntentStep(w: World, key: string, id: int, createdAt: int)
    requires At(w, key, Begun) && id !in w.intents && PositiveId(id)
    ensures var u := w.uploads[key];
      var row := Intent(u.operationId, key, u.portraitId, u.ownerId, OriginalDocument(u.change), PENDING, createdAt);
      Apply(w, WriteIntent(key, id, createdAt))
      == SetUpload(w, key, u.(intentId := Some(id), phase := Recorded)).(intents := w.intents[id := row])
  {
  }

  lemma PutSteps(w: World, key: string)
    requires key in w.uploads
    ensures var u := w.uploads[key];
      && (u.phase == Recorded ==> Apply(w, SendPut(key)) == SetUpload(w, key, u.(phase := Putting, puts := 1)))
      && (u.phase == Putting ==> Apply(w, RetryPut(key)) == SetUpload(w, key, u.(puts := u.puts + 1, retried := true)))
      && (u.puts > 0 ==>
          Apply(w, PutLands(key)) == SetUpload(w, key, u.(puts := u.puts - 1)).(objects := w.objects + {key}))
      && (u.phase == Putting && (u.puts == 0 || u.retried) && key in w.objects ==>
          Apply(w, PutAcknowledged(key)) == Move(w, key, Stored))
      && (u.phase == Putting ==> Apply(w, PutUnknown(key)) == Move(w, key, Deferred))
      && (u.phase == Stored ==> Apply(w, CallbackRejected(key)) == Move(w, key, RolledBack))
  {
  }

  lemma DeleteSteps(w: World, key: string)
    requires key in w.uploads
    ensures var u := w.uploads[key];
      && (u.phase == Marked ==> Apply(w, SendDelete(key)) == SetUpload(w, key, u.(phase := Deleting, deletes := 1)))
      && (u.phase == Deleting ==> Apply(w, RetryDelete(key)) == SetUpload(w, key, u.(deletes := u.deletes + 1)))
      && (u.deletes > 0 ==>
            Apply(w, DeleteLands(key))
                == SetUpload(w, key, u.(deletes := u.deletes - 1, gone := true)).(objects := w.objects - {key}))
      && (u.phase == Deleting && u.gone ==> Apply(w, DeleteAcknowledged(key)) == Move(w, key, Deleted))
  {
  }

  // ---- The invariant ----

  /** What one upload's phase, requests in flight, intent state and object can be together. */
  predicate Coherent(u: Upload, state: IntentState, stored: bool) {
    var open := u.phase.Deferred? || u.phase.Abandoned?;
    && !u.phase.Begun?
    && (u.puts > 0 && !u.retried ==>
        u.puts == 1 && state.PENDING? && !stored && !u.commit && (u.phase.Putting? || open))
    && (u.commit ==> state.PENDING? && stored && (u.phase.Committing? || open))
    && (u.deletes > 0 || u.gone ==>
        (state.ROLLED_BACK? || state.CLEANED?) && u.phase in {Deleting, Deleted, Cleaned, Abandoned})
    && (u.gone && !u.retried ==> !stored)
    && (state.PENDING? ==> u.phase !in {Finished, Marked, Deleting, Deleted, Cleaned})
    && (state.ROLLED_BACK? ==> !u.commit && u.phase in {Marked, Deleting, Deleted, Abandoned})
    && (state.COMMITTED? ==> stored && !u.commit && (u.phase.Committing? || u.phase.Finished? || open))
    && (state.CLEANED? ==> u.gone && !u.commit && (u.phase.Cleaned? || u.phase.Abandoned?))
    && (u.phase.Recorded? ==> !stored && u.puts == 0 && !u.retried)
    && (u.phase in {Stored, RolledBack, Found, Unreferenced, Marked} ==> stored && !u.commit)
    && (u.phase.Committing? ==> stored)
    && (u.phase.Deleted? ==> u.gone)
  }

  predicate UploadOk(w: World, key: string)
    requires key in w.uploads
  {
    var u := w.uploads[key];
    && PrivateKey(key) && Uuid(u.operationId) && PositiveId(u.portraitId) && PositiveId(u.ownerId)
    && (u.change.Replace? ==>
        u.change.read.deletedAt.None? && u.change.read.portraitId == u.portraitId && PositiveId(u.change.read.id))
    && match u.intentId
       case None =>
         (u.phase.Begun? || u.phase.Abandoned?) && u.puts == 0 && !u.retried && !u.commit && u.deletes == 0 && !u.gone
             && key !in w.objects
       case Some(i) =>
         && i in w.intents && w.intents[i].fileKey == key && w.intents[i].operationId == u.operationId
         && w.intents[i].portraitId == u.portraitId && w.intents[i].ownerId == u.ownerId
         && Coherent(u, w.intents[i].state, key in w.objects)
  }

  /** The state of the intent that names this key. */
  function StateOf(w: World, key: string): Option<IntentState> {
    if key in w.uploads && w.uploads[key].intentId.Some? && w.uploads[key].intentId.value in w.intents
    then Some(w.intents[w.uploads[key].intentId.value].state) else None
  }

  predicate IntentOk(w: World, i: int)
    requires i in w.intents
  {
    var row := w.intents[i];
    && PositiveId(i) && row.fileKey in w.uploads && w.uploads[row.fileKey].intentId == Some(i)
    && (row.documentId.Some? ==> PositiveId(row.documentId.value))
  }

  /** A document's file is one whose intent committed, for the same portrait. */
  predicate RowOk(w: World, row: Document) {
    row.fileKey.Some? ==>
          StateOf(w, row.fileKey.value) == Some(COMMITTED) && w.uploads[row.fileKey.value].portraitId == row.portraitId
  }

  predicate Inv(w: World) {
    && (forall k :: k in w.uploads ==> UploadOk(w, k))
    && (forall k :: k in w.objects ==> k in w.uploads)
    && (forall i :: i in w.intents ==> IntentOk(w, i))
    && RowsNamed(w.documents)
    && (forall id :: id in w.documents ==> RowOk(w, w.documents[id]))
  }

  /** How the world may differ between two moments of a run. */
  ghost predicate Evolves(w: World, w': World) {
    && TableEvolves(w.documents, w'.documents)
    && (forall k :: k in w.uploads ==> k in w'.uploads && w.uploads[k].portraitId == w'.uploads[k].portraitId)
    && (forall k :: k in w.uploads && w.uploads[k].intentId.Some? ==> w.uploads[k].intentId == w'.uploads[k].intentId)
    && (forall k :: StateOf(w, k) == Some(COMMITTED) ==> StateOf(w', k) == Some(COMMITTED))
    && (forall k :: StateOf(w, k) == Some(CLEANED) ==> StateOf(w', k) == Some(CLEANED))
    && (forall k :: StateOf(w, k) == Some(ROLLED_BACK) ==>
        StateOf(w', k) == Some(ROLLED_BACK) || StateOf(w', k) == Some(CLEANED))
  }

  /** Only what belongs to one key changed, and nothing that had committed or been cleaned moved. */
  ghost predicate OnlyKey(w: World, w': World, key: string) {
    && key in w'.uploads
    && w'.uploads == w.uploads[key := w'.uploads[key]]
    && (forall k :: k != key ==> (k in w'.objects <==> k in w.objects))
    && (key in w.uploads ==> w.uploads[key].portraitId == w'.uploads[key].portraitId
                             && (w.uploads[key].intentId.Some? ==> w'.uploads[key].intentId == w.uploads[key].intentId))
    && (if w'.uploads[key].intentId.None? then w'.intents == w.intents
        else var i := w'.uploads[key].intentId.value;
             && i in w'.intents && w'.intents == w.intents[i := w'.intents[i]]
             && (i in w.intents ==> w.intents[i].fileKey == key))
    && (StateOf(w, key) == Some(COMMITTED) ==> StateOf(w', key) == Some(COMMITTED))
    && (StateOf(w, key) == Some(CLEANED) ==> StateOf(w', key) == Some(CLEANED))
    && (StateOf(w, key) == Some(ROLLED_BACK) ==>
        StateOf(w', key) == Some(ROLLED_BACK) || StateOf(w', key) == Some(CLEANED))
  }

  lemma KeyStep(w: World, w': World, key: string)
    requires Inv(w) && OnlyKey(w, w', key) && w'.documents == w.documents
    requires UploadOk(w', key)
    requires w'.uploads[key].intentId.Some? ==> IntentOk(w', w'.uploads[key].intentId.value)
    ensures Inv(w') && Evolves(w, w')
  {
    OthersKept(w, w', key);
    forall id | id in w.documents ensures RowOk(w', w.documents[id]) {
      assert RowOk(w, w.documents[id]);
    }
  }

  /** The other uploads and intents read the same in both worlds. */
  lemma OthersKept(w: World, w': World, key: string)
    requires Inv(w) && OnlyKey(w, w', key)
    ensures forall k :: k in w.uploads && k != key ==> k in w'.uploads && UploadOk(w', k)
    ensures forall k :: k != key ==> StateOf(w', k) == StateOf(w, k)
    ensures forall i :: i in w.intents && w.intents[i].fileKey != key ==>
              i in w'.intents && w'.intents[i] == w.intents[i] && IntentOk(w', i)
    ensures forall k :: k in w.uploads ==> k in w'.uploads && w.uploads[k].portraitId == w'.uploads[k].portraitId
  {
    forall k | k in w.uploads && k != key ensures k in w'.uploads && UploadOk(w', k) {
      assert UploadOk(w, k);
    }
    forall k | k in w.uploads && k != key ensures StateOf(w', k) == StateOf(w, k) {
      assert UploadOk(w, k);
    }
    forall i | i in w.intents && w.intents[i].fileKey != key
      ensures i in w'.intents && w'.intents[i] == w.intents[i] && IntentOk(w', i)
    {
      assert IntentOk(w, i);
    }
  }

  // ---- Every step keeps the invariant ----

  lemma EvolvesReflexive(w: World)
    ensures Evolves(w, w)
  {
  }

  lemma EvolvesTransitive(a: World, b: World, c: World)
    requires Evolves(a, b) && Evolves(b, c)
    ensures Evolves(a, c)
  {
    forall id | id in a.documents ensures id in c.documents && RowEvolves(a.documents[id], c.documents[id]) {
      assert RowEvolves(a.documents[id], b.documents[id]) && RowEvolves(b.documents[id], c.documents[id]);
    }
  }

  lemma KeyFacts(w: World, key: string)
    requires Inv(w)
    ensures key in w.uploads ==> UploadOk(w, key)
    ensures key in w.uploads && w.uploads[key].intentId.Some? ==> IntentOk(w, w.uploads[key].intentId.value)
    ensures key !in w.uploads ==> key !in w.objects
  {
    assert key in w.uploads ==> UploadOk(w, key);
    assert key in w.uploads && w.uploads[key].intentId.Some? ==> IntentOk(w, w.uploads[key].intentId.value);
  }

  /** Starting an upload, recording its intent, stopping. */
  lemma OpeningKeeps(w: World, s: Step)
    requires Inv(w) && (s.Begin? || s.WriteIntent? || s.Stop?)
    ensures Inv(Apply(w, s)) && Evolves(w, Apply(w, s))
  {
    hide Inv;
    hide Evolves;
    var w' := Apply(w, s);
    if w' == w {
      EvolvesReflexive(w);
    } else {
      KeyFacts(w, s.key);
      KeyStep(w, w', s.key);
    }
  }

  /** Storing the object. */
  lemma PutKeeps(w: World, s: Step)
    requires Inv(w) && (s.SendPut? || s.RetryPut? || s.PutLands? || s.PutLost? || s.PutAcknowledged? || s.PutUnknown?)
    ensures Inv(Apply(w, s)) && Evolves(w, Apply(w, s))
  {
    hide Inv;
    hide Evolves;
    var w' := Apply(w, s);
    if w' == w {
      EvolvesReflexive(w);
    } else {
      KeyFacts(w, s.key);
      KeyStep(w, w', s.key);
    }
  }

  /** The callback's outcome. */
  lemma DecideKeeps(w: World, s: Step)
    requires Inv(w) && (s.CallbackRejected? || s.SendCommit?)
    ensures Inv(Apply(w, s)) && Evolves(w, Apply(w, s))
  {
    hide Inv;
    hide Evolves;
    var w' := Apply(w, s);
    if w' == w {
      EvolvesReflexive(w);
    } else {
      KeyFacts(w, s.key);
      KeyStep(w, w', s.key);
    }
  }

  /** The answer to the commit, or none. */
  lemma CommitAnswerKeeps(w: World, s: Step)
    requires Inv(w) && (s.CommitLost? || s.CommitAcknowledged? || s.CommitUnknown?)
    ensures Inv(Apply(w, s)) && Evolves(w, Apply(w, s))
  {
    hide Inv;
    hide Evolves;
    var w' := Apply(w, s);
    if w' == w {
      EvolvesReflexive(w);
    } else {
      KeyFacts(w, s.key);
      KeyStep(w, w', s.key);
    }
  }

  /** Compensation's reads. */
  lemma CheckKeeps(w: World, s: Step)
    requires Inv(w) && (s.FindIntent? || s.CountReferences?)
    ensures Inv(Apply(w, s)) && Evolves(w, Apply(w, s))
  {
    hide Inv;
    hide Evolves;
    var w' := Apply(w, s);
    if w' == w {
      EvolvesReflexive(w);
    } else {
      KeyFacts(w, s.key);
      KeyStep(w, w', s.key);
    }
  }

  /** The intent is marked before the object is deleted ... */
  lemma MarkRolledBackKeeps(w: World, s: Step)
    requires Inv(w) && (s.MarkRolledBack?)
    ensures Inv(Apply(w, s)) && Evolves(w, Apply(w, s))
  {
    hide Inv;
    hide Evolves;
    var w' := Apply(w, s);
    if w' == w {
      EvolvesReflexive(w);
    } else {
      KeyFacts(w, s.key);
      KeyStep(w, w', s.key);
    }
  }

  /** ... and again afterwards. */
  lemma MarkCleanedKeeps(w: World, s: Step)
    requires Inv(w) && (s.MarkCleaned?)
    ensures Inv(Apply(w, s)) && Evolves(w, Apply(w, s))
  {
    hide Inv;
    hide Evolves;
    var w' := Apply(w, s);
    if w' == w {
      EvolvesReflexive(w);
    } else {
      KeyFacts(w, s.key);
      KeyStep(w, w', s.key);
    }
  }

  /** Compensation's delete request. */
  lemma DeleteKeeps(w: World, s: Step)
    requires Inv(w) && (s.SendDelete? || s.RetryDelete? || s.DeleteLands? || s.DeleteLost? || s.DeleteAcknowledged?)
    ensures Inv(Apply(w, s)) && Evolves(w, Apply(w, s))
  {
    hide Inv;
    hide Evolves;
    var w' := Apply(w, s);
    if w' == w {
      EvolvesReflexive(w);
    } else {
      KeyFacts(w, s.key);
      KeyStep(w, w', s.key);
    }
  }

  /** No committed file is referenced from a row that does not belong to its portrait, and no uncommitted one at all. */
  lemma UncommittedUnreferenced(w: World, key: string)
    requires Inv(w) && StateOf(w, key) != Some(COMMITTED)
    ensures !Referenced(w.documents, key)
  {
    forall id | id in w.documents ensures w.documents[id].fileKey != Some(key) {
      assert RowOk(w, w.documents[id]);
    }
  }

  /** The row a commit writes carries the new file, for the upload's portrait; the other rows stay. */
  lemma ChangeWrites(t: Table, key: string, u: Upload, newId: int, now: int)
    requires RowsNamed(t) && WriteChange(t, key, u, newId, now).Some?
    requires u.change.Replace? ==> u.change.read.portraitId == u.portraitId && u.change.read.deletedAt.None?
    ensures var t', written := WriteChange(t, key, u, newId, now).value, WrittenId(u, newId);
      && RowsNamed(t') && TableEvolves(t, t')
      && (forall id :: id in t' && id != written ==> id in t && t'[id] == t[id])
      && written in t' && t'[written].fileKey == Some(key) && t'[written].portraitId == u.portraitId
  {
  }

  lemma CommitStepKeeps(w: World, s: Step)
    requires Inv(w) && s.CommitLands?
    ensures Inv(Apply(w, s)) && Evolves(w, Apply(w, s))
  {
    hide Evolves;
    hide WriteChange;
    hide TableEvolves;
    var w', k := Apply(w, s), s.key;
    if w' == w {
      EvolvesReflexive(w);
    } else {
      var u := w.uploads[k];
      var middle := w'.(documents := w.documents);
      CommittedKey(w, middle, k, u);
      ChangeWrites(w.documents, k, u, s.newId, s.now);
      forall id | id in w'.documents ensures RowOk(w', w'.documents[id]) {
        if id != WrittenId(u, s.newId) {
          assert RowOk(middle, w.documents[id]);
        }
      }
      InvParts(middle, w');
      EvolvesTransitive(w, middle, w');
    }
  }

  /** The journal's part of a commit. */
  lemma CommittedKey(w: World, w': World, k: string, u: Upload)
    requires Inv(w) && k in w.uploads && u == w.uploads[k] && u.commit && IntentMatches(w, k, {PENDING})
    requires exists id :: PositiveId(id) && w' == SetUpload(SetState(w, k, COMMITTED, Some(id)), k, u.(commit := false))
    ensures Inv(w') && Evolves(w, w') && StateOf(w', k) == Some(COMMITTED) && w'.uploads[k].portraitId == u.portraitId
    ensures u.change.Replace? ==> u.change.read.portraitId == u.portraitId && u.change.read.deletedAt.None?
  {
    hide Inv;
    hide Evolves;
    KeyFacts(w, k);
    KeyStep(w, w', k);
  }

  /** Uploads, intents and objects alike: the invariant only needs the rows. */
  lemma InvParts(w: World, w': World)
    requires Inv(w) && w' == w.(documents := w'.documents) && RowsNamed(w'.documents)
    requires forall id :: id in w'.documents ==> RowOk(w', w'.documents[id])
    ensures Inv(w')
    ensures TableEvolves(w.documents, w'.documents) ==> Evolves(w, w')
  {
    forall k | k in w'.uploads ensures UploadOk(w', k) { assert UploadOk(w, k); }
    forall i | i in w'.intents ensures IntentOk(w', i) { assert IntentOk(w, i); }
  }

  /** The rows evolved and kept their files and portraits. */
  ghost predicate FilesKept(t: Table, t': Table) {
    && RowsNamed(t') && TableEvolves(t, t')
    && (forall id :: id in t' ==> id in t && t'[id].fileKey == t[id].fileKey && t'[id].portraitId == t[id].portraitId)
  }

  lemma StatusKeepsFiles(t: Table, doc: Document, status: Status, feedback: Option<string>, now: int)
    requires RowsNamed(t)
    ensures UpdateStatus(t, doc, status, feedback, now).Some? ==>
              FilesKept(t, UpdateStatus(t, doc, status, feedback, now).value)
  {
  }

  lemma StaffKeepsFiles(t: Table, doc: Document, change: StaffChange, now: int)
    requires RowsNamed(t)
    ensures UpdateStaffDocument(t, doc, change, now).Some? ==>
              FilesKept(t, UpdateStaffDocument(t, doc, change, now).value)
  {
  }

  /** Staff and review writes keep every row's file and portrait. */
  lemma DocumentWrites(w: World, s: Step)
    requires RowsNamed(w.documents) && (s.Submit? || s.Judge? || s.Staff?)
    ensures Apply(w, s) == w.(documents := Apply(w, s).documents) && FilesKept(w.documents, Apply(w, s).documents)
  {
    hide UpdateStatus;
    hide UpdateStaffDocument;
    hide FilesKept;
    var t := w.documents;
    NothingWritten(t);
    match s
    case Submit(read, at) => StatusKeepsFiles(t, read, REVIEW, None, at);
    case Judge(id, verdict, feedback, at) => if id in t { StatusKeepsFiles(t, t[id], verdict, feedback, at); }
    case Staff(id, _, _, _, change, at) => if id in t { StaffKeepsFiles(t, t[id], change, at); }
  }

  lemma NothingWritten(t: Table)
    requires RowsNamed(t)
    ensures FilesKept(t, t)
  {
  }

  lemma DocumentStepKeeps(w: World, s: Step)
    requires Inv(w) && (s.Submit? || s.Judge? || s.Staff?)
    ensures Inv(Apply(w, s)) && Evolves(w, Apply(w, s))
  {
    DocumentWrites(w, s);
    hide Apply;
    hide TableEvolves;
    var w' := Apply(w, s);
    forall id | id in w'.documents ensures RowOk(w', w'.documents[id]) {
      assert RowOk(w, w.documents[id]);
    }
    InvParts(w, w');
  }

  lemma StepKeeps(w: World, s: Step)
    requires Inv(w)
    ensures Inv(Apply(w, s)) && Evolves(w, Apply(w, s))
  {
    match s
    case Begin(_, _, _, _, _) | WriteIntent(_, _, _) | Stop(_) => OpeningKeeps(w, s);
    case SendPut(_) | RetryPut(_) | PutLands(_) | PutLost(_) | PutAcknowledged(_) | PutUnknown(_) => PutKeeps(w, s);
    case CallbackRejected(_) | SendCommit(_) => DecideKeeps(w, s);
    case CommitLost(_) | CommitAcknowledged(_) | CommitUnknown(_) => CommitAnswerKeeps(w, s);
    case FindIntent(_) | CountReferences(_) => CheckKeeps(w, s);
    case MarkRolledBack(_) => MarkRolledBackKeeps(w, s);
    case MarkCleaned(_) => MarkCleanedKeeps(w, s);
    case SendDelete(_) | RetryDelete(_) | DeleteLands(_) | DeleteLost(_) | DeleteAcknowledged(_) => DeleteKeeps(w, s);
    case CommitLands(_, _, _) => CommitStepKeeps(w, s);
    case _ => DocumentStepKeeps(w, s);
  }

  lemma {:induction false} RunKeeps(w: World, steps: seq<Step>)
    requires Inv(w)
    ensures Inv(Run(w, steps)) && Evolves(w, Run(w, steps))
    decreases |steps|
  {
    if steps == [] {
      EvolvesReflexive(w);
    } else {
      StepKeeps(w, steps[0]);
      RunKeeps(Apply(w, steps[0]), steps[1..]);
      EvolvesTransitive(w, Apply(w, steps[0]), Run(w, steps));
    }
  }

  // ---- What holds over whole runs ----

  /** Before the first private upload: no journal, no objects, and only documents with legacy addresses. */
  predicate Initial(w: World) {
    && w.intents == map[] && w.objects == {} && w.uploads == map[] && RowsNamed(w.documents)
    && forall id :: id in w.documents ==> w.documents[id].fileKey.None?
  }

  lemma RunFromInitial(w0: World, before: seq<Step>, after: seq<Step>)
    requires Initial(w0)
    ensures Inv(Run(w0, before)) && Inv(Run(w0, before + after)) && Evolves(Run(w0, before), Run(w0, before + after))
  {
    RunKeeps(w0, before);
    RunKeeps(Run(w0, before), after);
    RunAppend(w0, before, after);
  }

  /** At any moment: a stored object has a durable intent, and every document's file (archived documents' too)
      exists and is the committed file of its own portrait. */
  lemma EveryFileExists(w0: World, steps: seq<Step>)
    requires Initial(w0)
    ensures forall k :: k in Run(w0, steps).objects ==> StateOf(Run(w0, steps), k).Some?
    ensures forall id :: id in Run(w0, steps).documents && Run(w0, steps).documents[id].fileKey.Some? ==>
              var k := Run(w0, steps).documents[id].fileKey.value;
              k in Run(w0, steps).objects && StateOf(Run(w0, steps), k) == Some(COMMITTED)
              && Run(w0, steps).uploads[k].portraitId == Run(w0, steps).documents[id].portraitId
  {
    RunFromInitial(w0, steps, []);
    var w := Run(w0, steps);
    forall k | k in w.objects ensures StateOf(w, k).Some? {
      assert UploadOk(w, k);
    }
    forall id | id in w.documents && w.documents[id].fileKey.Some?
      ensures w.documents[id].fileKey.value in w.objects
    {
      assert RowOk(w, w.documents[id]) && UploadOk(w, w.documents[id].fileKey.value);
    }
  }

  /** Without a repeated put in the steps, no upload of the key counts as retried. */
  lemma {:induction false} RetriedByStep(w: World, steps: seq<Step>, key: string)
    requires key in w.uploads ==> !w.uploads[key].retried
    requires RetryPut(key) !in steps
    ensures key in Run(w, steps).uploads ==> !Run(w, steps).uploads[key].retried
    decreases |steps|
  {
    hide Apply;
    if steps != [] {
      assert steps[0] in steps && steps[0] != RetryPut(key);
      NotRetried(w, steps[0], key);
      RetriedByStep(Apply(w, steps[0]), steps[1..], key);
    }
  }

  lemma NotRetried(w: World, s: Step, key: string)
    requires (key in w.uploads ==> !w.uploads[key].retried) && s != RetryPut(key)
    ensures key in Apply(w, s).uploads ==> !Apply(w, s).uploads[key].retried
  {
    hide SubmitForReview;
    hide Review;
    hide StaffMutation;
    hide WriteChange;
  }

  /** An object appears only after its intent is durable, and finds it PENDING unless the put was repeated. */
  lemma IntentBeforeObject(w0: World, steps: seq<Step>, s: Step, key: string)
    requires Initial(w0)
    requires key !in Run(w0, steps).objects && key in Run(w0, steps + [s]).objects
    ensures StateOf(Run(w0, steps), key).Some? && StateOf(Run(w0, steps), key) != Some(COMMITTED)
    ensures RetryPut(key) !in steps ==> StateOf(Run(w0, steps), key) == Some(PENDING)
  {
    hide Inv;
    hide Evolves;
    hide Run;
    RunFromInitial(w0, steps, [s]);
    RunLast(w0, steps, s);
    var w := Run(w0, steps);
    KeyFacts(w, key);
    if RetryPut(key) !in steps {
      RetriedByStep(w0, steps, key);
    }
  }

  /** What committed once stays committed and its object is never deleted ... */
  lemma CommittedForGood(w0: World, before: seq<Step>, after: seq<Step>, key: string)
    requires Initial(w0) && StateOf(Run(w0, before), key) == Some(COMMITTED)
    ensures StateOf(Run(w0, before + after), key) == Some(COMMITTED) && key in Run(w0, before + after).objects
  {
    RunFromInitial(w0, before, after);
    assert UploadOk(Run(w0, before + after), key);
  }

  /** ... and what was cleaned stays unreferenced, and its object absent exactly when no attempt to put it is still in
      flight; none is unless a put was repeated. */
  lemma CleanedForGood(w0: World, before: seq<Step>, key: string)
    requires Initial(w0) && StateOf(Run(w0, before), key) == Some(CLEANED)
    ensures forall after ::
              && StateOf(Run(w0, before + after), key) == Some(CLEANED)
              && !Referenced(Run(w0, before + after).documents, key)
    ensures (forall after :: key !in Run(w0, before + after).objects)
            <==> key !in Run(w0, before).objects && Run(w0, before).uploads[key].puts == 0
    ensures RetryPut(key) !in before ==> key !in Run(w0, before).objects && Run(w0, before).uploads[key].puts == 0
  {
    var w := Run(w0, before);
    assert before + [] == before;
    RunFromInitial(w0, before, []);
    KeyFacts(w, key);
    forall after
      ensures StateOf(Run(w0, before + after), key) == Some(CLEANED)
              && !Referenced(Run(w0, before + after).documents, key)
    {
      RunFromInitial(w0, before, after);
      UncommittedUnreferenced(Run(w0, before + after), key);
    }
    if key !in w.objects && w.uploads[key].puts == 0 {
      forall after ensures key !in Run(w0, before + after).objects {
        RunAppend(w0, before, after);
        StaysAbsent(w, after, key);
      }
    } else if key !in w.objects {
      RunLast(w0, before, PutLands(key));
      assert key in Run(w0, before + [PutLands(key)]).objects;
    }
    if RetryPut(key) !in before {
      RetriedByStep(w0, before, key);
    }
  }

  lemma {:induction false} StaysAbsent(w: World, steps: seq<Step>, key: string)
    requires Inv(w) && StateOf(w, key) == Some(CLEANED) && key !in w.objects && w.uploads[key].puts == 0
    ensures key !in Run(w, steps).objects
    decreases |steps|
  {
    if steps != [] {
      KeyFacts(w, key);
      StepKeeps(w, steps[0]);
      AbsentStep(w, steps[0], key);
      StaysAbsent(Apply(w, steps[0]), steps[1..], key);
    }
  }

  predicate Absent(w: World, key: string) {
    key in w.uploads && key !in w.objects && w.uploads[key].puts == 0 && !At(w, key, Recorded) && !At(w, key, Putting)
  }

  lemma AbsentStep(w: World, s: Step, key: string)
    requires Absent(w, key)
    ensures key in Apply(w, s).uploads && key !in Apply(w, s).objects && Apply(w, s).uploads[key].puts == 0
  {
    if s.SendPut? || s.RetryPut? || s.PutLands? || s.PutLost? || s.PutAcknowledged? || s.PutUnknown? {
      AbsentPut(w, s, key);
    } else {
      AbsentOther(w, s, key);
    }
  }

  lemma AbsentPut(w: World, s: Step, key: string)
    requires Absent(w, key) && (s.SendPut? || s.RetryPut? || s.PutLands? || s.PutLost? || s.PutAcknowledged?
                                || s.PutUnknown?)
    ensures key in Apply(w, s).uploads && key !in Apply(w, s).objects && Apply(w, s).uploads[key].puts == 0
  {
  }

  lemma AbsentOther(w: World, s: Step, key: string)
    requires Absent(w, key) && !(s.SendPut? || s.RetryPut? || s.PutLands? || s.PutLost? || s.PutAcknowledged?
                                 || s.PutUnknown?)
    ensures key in Apply(w, s).uploads && key !in Apply(w, s).objects && Apply(w, s).uploads[key].puts == 0
  {
    hide SubmitForReview;
    hide Review;
    hide StaffMutation;
    hide WriteChange;
    hide IntentMatches;
    hide Referenced;
  }

  /** (version, updatedAt) names one state of a row for the whole run: a row that shows the same pair twice never
      changed. */
  lemma SnapshotNamesOneState(w0: World, before: seq<Step>, after: seq<Step>, id: int)
    requires Initial(w0) && id in Run(w0, before).documents
    ensures id in Run(w0, before + after).documents
    ensures var a, b := Run(w0, before).documents[id], Run(w0, before + after).documents[id];
            a == b || (a.updatedAt < b.updatedAt && a.version <= b.version && a.deletedAt.None?)
  {
    RunFromInitial(w0, before, after);
    assert RowEvolves(Run(w0, before).documents[id], Run(w0, before + after).documents[id]);
  }

  /** A write against a row read earlier in the run lands only on that very row. */
  lemma StaleWritesNeverLand(w0: World, before: seq<Step>, after: seq<Step>, id: int, key: string, change: StaffChange,
                             now: int)
    requires Initial(w0) && id in Run(w0, before).documents
    ensures var read, t := Run(w0, before).documents[id], Run(w0, before + after).documents;
            && id in t
            && (UpdatePrivateVersion(t, read, key, now).Some? ==> t[id] == read)
            && (SubmitForReview(t, Some(read), now).Written? ==> t[id] == read)
            && (StaffMutation(t, id, read.portraitId, read.version, read.updatedAt, change, now).Written? ==>
                t[id] == read)
  {
    RunFromInitial(w0, before, after);
    assert RowEvolves(Run(w0, before).documents[id], Run(w0, before + after).documents[id]);
    assert Run(w0, before).documents[id].id == id;
  }

  /** One step rewrites a row in one of four ways. */
  lemma RowStep(w: World, s: Step, id: int)
    requires RowsNamed(w.documents) && id in w.documents
    ensures id in Apply(w, s).documents
    ensures var a, b := w.documents[id], Apply(w, s).documents[id];
            || a == b
            || (s.CommitLands? && b.status == DRAFT && b.version == a.version + 1 && b.fileKey == Some(s.key))
            || (a.version == b.version && a.fileKey == b.fileKey
                && ((s.Submit? && a.status == DRAFT && b.status == REVIEW)
                    || (s.Judge? && a.status == REVIEW && b.status == s.verdict
                        && (b.status == APPROVED || b.status == NEEDS_REVISION))
                    || (s.Staff? && a.status == b.status)))
  {
  }

  function RowAt(w0: World, steps: seq<Step>, n: nat, id: int): Option<Document>
    requires n <= |steps|
  {
    var t := Run(w0, steps[..n]).documents;
    if id in t then Some(t[id]) else None
  }

  /** Step i submitted the row for review, and ever since it has kept that version and that file. */
  ghost predicate KeptSinceSubmitted(w0: World, steps: seq<Step>, i: nat, id: int)
    requires i < |steps|
  {
    && steps[i].Submit? && RowAt(w0, steps, i, id).Some? && RowAt(w0, steps, i, id).value.status == DRAFT
    && forall j :: i < j <= |steps| ==>
         && RowAt(w0, steps, j, id).Some?
         && RowAt(w0, steps, j, id).value.status != DRAFT
         && RowAt(w0, steps, j, id).value.version == RowAt(w0, steps, i, id).value.version
         && RowAt(w0, steps, j, id).value.fileKey == RowAt(w0, steps, i, id).value.fileKey
  }

  lemma RunLast(w0: World, init: seq<Step>, s: Step)
    ensures Run(w0, init + [s]) == Apply(Run(w0, init), s)
  {
    RunAppend(w0, init, [s]);
    var w := Run(w0, init);
    assert Run(w, [s]) == Run(Apply(w, s), []);
  }

  lemma NamedRows(w: World)
    requires Inv(w)
    ensures RowsNamed(w.documents)
  {
  }

  /** The last step of a run, seen by one row that is past DRAFT afterwards: it was so before, unless the step submitted
      it. */
  lemma LastStepOnRow(w0: World, init: seq<Step>, s: Step, id: int)
    requires Initial(w0) && id in Run(w0, init + [s]).documents && Run(w0, init + [s]).documents[id].status != DRAFT
    ensures id in Run(w0, init).documents
    ensures var a, b := Run(w0, init).documents[id], Run(w0, init + [s]).documents[id];
            a.version == b.version && a.fileKey == b.fileKey && (a.status == DRAFT ==> s.Submit?)
  {
    hide Run;
    hide Inv;
    hide Evolves;
    RunFromInitial(w0, init, []);
    assert init + [] == init;
    NamedRows(Run(w0, init));
    RunLast(w0, init, s);
    if id in Run(w0, init).documents {
      RowStep(Run(w0, init), s, id);
    }
  }

  lemma KeptLonger(w0: World, init: seq<Step>, s: Step, i: nat, id: int)
    requires i < |init| && KeptSinceSubmitted(w0, init, i, id)
    requires var a, b := RowAt(w0, init, |init|, id), RowAt(w0, init + [s], |init| + 1, id);
             b.Some? && b.value.status != DRAFT && b.value.version == a.value.version
                 && b.value.fileKey == a.value.fileKey
    ensures KeptSinceSubmitted(w0, init + [s], i, id)
  {
    forall j | i <= j <= |init| ensures RowAt(w0, init + [s], j, id) == RowAt(w0, init, j, id) {
      assert (init + [s])[..j] == init[..j];
    }
  }

  /** A document that has left DRAFT, an approved one in particular, still has the version and the file
      with which it was last submitted. */
  lemma {:induction false} ReviewedAsSubmitted(w0: World, steps: seq<Step>, id: int) returns (i: nat)
    requires Initial(w0) && (id in w0.documents ==> w0.documents[id].status == DRAFT)
    requires id in Run(w0, steps).documents && Run(w0, steps).documents[id].status != DRAFT
    ensures i < |steps| && KeptSinceSubmitted(w0, steps, i, id)
    decreases |steps|
  {
    if steps == [] {
      assert false;
    } else {
      var n := |steps| - 1;
      var init, s := steps[..n], steps[n];
      assert steps == init + [s] && steps[..n + 1] == steps && init[..n] == init;
      LastStepOnRow(w0, init, s, id);
      if Run(w0, init).documents[id].status == DRAFT {
        i := n;
      } else {
        i := ReviewedAsSubmitted(w0, init, id);
        KeptLonger(w0, init, s, i, id);
      }
    }
  }
}

/** persistPrivateFile and the compensation after it, as methods on the database rows and the object store.
    Every method performs a run of the protocol's atomic steps, so whatever is proved of all runs holds of it,
    also when its steps interleave with those of other uploads. */
module DocumentService {
  import opened Prelude
  import opened Documents
  import opened DocumentStorage

  /** What the database and the object store answer; a request that is not acknowledged may still have happened. */
  datatype Answers = Answers(
    bucketReady: bool, intentLands: bool, intentAcknowledged: bool,
    putRetries: nat, putLands: bool, putAcknowledged: bool,
    accessUnchanged: bool, commitLands: bool, commitAcknowledged: bool, markAcknowledged: bool,
    deleteRetries: nat, deleteLands: bool, deleteAcknowledged: bool, cleanAcknowledged: bool)

  datatype Saved = Saved(id: int) | Failed

  /** The parameters of one upload, with the generated key and operation and the identifiers the database will
      assign. */
  datatype Request = Request(key: string, operationId: string, portraitId: int, ownerId: int, change: Change,
                             intentId: int, newId: int, now: int)

  class Service {
    var documents: Table
    var intents: map<int, Intent>
    var objects: set<string>
    /** The processes serving uploads, and their requests in flight. */
    ghost var uploads: map<string, Upload>

    ghost function State(): World
      reads this
    {
      World(documents, intents, objects, uploads)
    }

    /** Generated identifiers are new, and a version replaces a live row read for the same portrait. */
    ghost predicate Fresh(q: Request)
      reads this
    {
      && q.key !in uploads && PrivateKey(q.key) && Uuid(q.operationId) && PositiveId(q.portraitId)
         && PositiveId(q.ownerId)
      && (q.change.Replace? ==>
          q.change.read.deletedAt.None? && q.change.read.portraitId == q.portraitId && PositiveId(q.change.read.id))
      && q.intentId !in intents && PositiveId(q.intentId) && q.newId !in documents && PositiveId(q.newId)
    }

    /** This process serves q, its intent is recorded, and it has come to this phase. */
    ghost predicate Serving(q: Request, phase: Phase)
      reads this
    {
      && q.key in uploads && uploads[q.key].phase == phase && uploads[q.key].intentId == Some(q.intentId)
      && uploads[q.key].operationId == q.operationId && uploads[q.key].portraitId == q.portraitId
      && uploads[q.key].change == q.change && PositiveId(q.newId)
    }

    /** recovery.begin: the journal entry may be durable although its acknowledgement is lost, and land late when it is
        not. */
    method Begin(q: Request, lands: bool, acknowledged: bool) returns (recorded: bool, ghost trace: seq<Step>)
      requires Fresh(q)
      modifies this`intents, this`uploads
      ensures State() == Run(old(State()), trace)
      ensures recorded == (lands && acknowledged) && (recorded ==> Serving(q, Recorded))
      ensures intents == if lands then old(intents)[q.intentId := NewIntent(q)] else old(intents)
    {
      hide Apply;
      ghost var w0 := State();
      ghost var u := NewUpload(q.operationId, q.portraitId, q.ownerId, q.change);
      uploads := uploads[q.key := u];
      BeginStep(w0, q.key, q.operationId, q.portraitId, q.ownerId, q.change);
      trace := Then(w0, [], Step.Begin(q.key, q.operationId, q.portraitId, q.ownerId, q.change), State());
      recorded := lands && acknowledged;
      if lands {
        IntentStep(State(), q.key, q.intentId, q.now);
        intents := intents[q.intentId := NewIntent(q)];
        uploads := uploads[q.key := u.(intentId := Some(q.intentId), phase := Recorded)];
        trace := Then(w0, trace, WriteIntent(q.key, q.intentId, q.now), State());
        if !acknowledged {
          StopStep(State(), q.key);
          uploads := uploads[q.key := uploads[q.key].(phase := Abandoned)];
          trace := Then(w0, trace, Stop(q.key), State());
        }
      }
    }

    /** PutObject, which the client may repeat; attempts that have not landed may still do so later. */
    method PutObject(q: Request, retries: nat, lands: bool, acknowledged: bool)
        returns (stored: bool, ghost trace: seq<Step>)
      requires Serving(q, Recorded)
      modifies this`objects, this`uploads
      ensures State() == Run(old(State()), trace)
      ensures stored == (lands && acknowledged)
      ensures objects == if lands then old(objects) + {q.key} else old(objects)
      ensures stored ==> Serving(q, Stored)
    {
      hide Apply;
      trace := SendPuts(q, retries);
      ghost var w1 := State();
      ghost var more := [];
      if lands {
        PutSteps(w1, q.key);
        objects := objects + {q.key};
        uploads := uploads[q.key := uploads[q.key].(puts := uploads[q.key].puts - 1)];
        more := Then(w1, more, PutLands(q.key), State());
      }
      PutSteps(State(), q.key);
      stored := lands && acknowledged;
      uploads := uploads[q.key := uploads[q.key].(phase := if stored then Stored else Deferred)];
      more := Then(w1, more, if stored then PutAcknowledged(q.key) else PutUnknown(q.key), State());
      RunAppend(old(State()), trace, more);
      trace := trace + more;
    }

    ghost method SendPuts(q: Request, retries: nat) returns (trace: seq<Step>)
      requires Serving(q, Recorded)
      modifies this`uploads
      ensures State() == Run(old(State()), trace) && Serving(q, Putting)
      ensures uploads[q.key].puts == 1 + retries && (uploads[q.key].retried || retries == 0)
    {
      hide Apply;
      ghost var w0 := State();
      PutSteps(w0, q.key);
      uploads := uploads[q.key := uploads[q.key].(phase := Putting, puts := 1)];
      trace := Then(w0, [], SendPut(q.key), State());
      for n := 0 to retries
        invariant State() == Run(w0, trace) && Serving(q, Putting)
        invariant uploads[q.key].puts == 1 + n && (uploads[q.key].retried || n == 0)
      {
        PutSteps(State(), q.key);
        uploads := uploads[q.key := uploads[q.key].(puts := uploads[q.key].puts + 1, retried := true)];
        trace := Then(w0, trace, RetryPut(q.key), State());
      }
    }

    /** What the callback's statements would write, or None when one of them matches no row. */
    function Callback(q: Request): (t: Option<Table>)
      reads this`documents, this`intents
      requires q.intentId in intents
    {
      var row := intents[q.intentId];
      if row.portraitId != q.portraitId || row.fileKey != q.key || row.operationId != q.operationId
         || row.state != PENDING then None
      else match q.change
           case Create(title, programId) =>
               CreatePrivate(documents, q.newId, title, q.key, q.portraitId, programId, q.now)
           case Replace(read) => UpdatePrivateVersion(documents, read, q.key, q.now)
    }

    /** The transaction: its callback writes the document and the intent, or rejects and so never sends COMMIT. */
    method Transaction(q: Request, accessUnchanged: bool, lands: bool, acknowledged: bool)
      returns (saved: Saved, rollbackProven: bool, ghost trace: seq<Step>)
      requires Serving(q, Stored) && q.intentId in intents
      modifies this`documents, this`intents, this`uploads
      ensures State() == Run(old(State()), trace)
      ensures rollbackProven == (!accessUnchanged || old(Callback(q)).None?)
      ensures rollbackProven ==> saved.Failed? && Serving(q, RolledBack)
      ensures rollbackProven || !lands ==> documents == old(documents) && intents == old(intents)
      ensures !rollbackProven && lands ==>
                && documents == old(Callback(q)).value && DocumentWritten(old(documents), documents, q)
                && intents == Committed(old(intents), q)
      ensures saved.Saved? == (!rollbackProven && lands && acknowledged)
      ensures saved.Saved? ==> saved.id == DocumentId(q)
    {
      saved := Failed;
      CallbackWrites(q);
      hide DocumentWritten;
      var written := Callback(q);
      rollbackProven := !accessUnchanged || written.None?;
      if rollbackProven {
        uploads := uploads[q.key := uploads[q.key].(phase := RolledBack)];
        trace := Then(old(State()), [], CallbackRejected(q.key), State());
      } else {
        trace := Commit(q, written.value, lands, acknowledged);
        if lands && acknowledged {
          saved := Saved(if q.change.Create? then q.newId else q.change.read.id);
          assert saved.id == DocumentId(q);
        }
      }
    }

    /** What the callback writes is the document the request asks for. */
    lemma CallbackWrites(q: Request)
      requires q.intentId in intents
      ensures Callback(q).Some? ==> DocumentWritten(documents, Callback(q).value, q)
    {
    }

    /** COMMIT of what the callback wrote; unless acknowledged, the request may still land later. */
    method Commit(q: Request, written: Table, lands: bool, acknowledged: bool) returns (ghost trace: seq<Step>)
      requires Serving(q, Stored) && q.intentId in intents && Callback(q) == Some(written)
      modifies this`documents, this`intents, this`uploads
      ensures State() == Run(old(State()), trace)
      ensures if lands then documents == written && intents == Committed(old(intents), q)
              else documents == old(documents) && intents == old(intents)
    {
      hide Apply;
      ghost var w0 := State();
      SendCommitStep(w0, q.key);
      uploads := uploads[q.key := uploads[q.key].(phase := Committing, commit := true)];
      trace := Then(w0, [], SendCommit(q.key), State());
      if lands {
        ghost var more := Land(q, written);
        RunAppend(w0, trace, more);
        trace := trace + more;
      }
      ghost var known := lands && acknowledged;
      CommitAnswerStep(State(), q.key);
      ghost var last := State();
      uploads := uploads[q.key := uploads[q.key].(phase := if known then Finished else Deferred)];
      ghost var more := Then(last, [], if known then CommitAcknowledged(q.key) else CommitUnknown(q.key), State());
      RunAppend(w0, trace, more);
      trace := trace + more;
    }

    /** The database applies the transaction: the document and the intent together. */
    method Land(q: Request, written: Table) returns (ghost trace: seq<Step>)
      requires Serving(q, Committing) && uploads[q.key].commit && q.intentId in intents && Callback(q) == Some(written)
      modifies this`documents, this`intents, this`uploads
      ensures State() == Run(old(State()), trace)
      ensures documents == written && intents == Committed(old(intents), q)
      ensures Serving(q, Committing) && IntentMatches(State(), q.key, {COMMITTED})
    {
      ghost var w0 := State();
      var id := if q.change.Create? then q.newId else q.change.read.id;
      documents := written;
      intents := intents[q.intentId := intents[q.intentId].(state := COMMITTED, documentId := Some(id))];
      uploads := uploads[q.key := uploads[q.key].(commit := false)];
      trace := Then(w0, [], CommitLands(q.key, q.newId, q.now), State());
    }

    /** Compensation acts only on an intent that is still open and whose file no document names, archived ones
        included. */
    predicate MayDelete(q: Request)
      reads this`documents, this`intents
      requires q.intentId in intents
    {
      var row := intents[q.intentId];
      && row.portraitId == q.portraitId && row.fileKey == q.key && row.operationId == q.operationId
         && (row.state == PENDING || row.state == ROLLED_BACK)
      && forall id :: id in documents ==> documents[id].fileKey != Some(q.key)
    }

    /** compensate: nothing at all unless the rollback is proven; otherwise mark, delete, mark again. */
    method Compensate(q: Request, rollbackProven: bool, a: Answers) returns (ghost trace: seq<Step>)
      requires rollbackProven ==> Serving(q, RolledBack) && q.intentId in intents
      modifies this`intents, this`objects, this`uploads
      ensures State() == Run(old(State()), trace)
      ensures !rollbackProven ==> State() == old(State())
      ensures objects == if rollbackProven && old(MayDelete(q)) && a.markAcknowledged && a.deleteLands
        then old(objects) - {q.key} else old(objects)
      ensures rollbackProven && old(MayDelete(q)) && a.markAcknowledged && a.deleteLands && a.deleteAcknowledged
              && a.cleanAcknowledged ==>
                intents == old(intents)[q.intentId := Closed(old(intents)[q.intentId], CLEANED, q)]
    {
      trace := [];
      if !rollbackProven {
        return;
      }
      hide Apply;
      hide Run;
      hide Serving;
      hide IntentMatches;
      ghost var w0 := State();
      ClosedTwice(w0.intents, q);
      hide Closed;
      var proceed;
      proceed, trace := Check(q);
      if !proceed {
        return;
      }
      ghost var more;
      proceed, more := MarkIntent(q, a.markAcknowledged);
      RunAppend(w0, trace, more);
      trace := trace + more;
      if !proceed {
        return;
      }
      proceed, more := DeleteObject(q, a.deleteRetries, a.deleteLands, a.deleteAcknowledged);
      RunAppend(w0, trace, more);
      trace := trace + more;
      if !proceed {
        return;
      }
      more := CloseIntent(q, a.cleanAcknowledged);
      RunAppend(w0, trace, more);
      trace := trace + more;
    }

    method Check(q: Request) returns (proceed: bool, ghost trace: seq<Step>)
      requires Serving(q, RolledBack) && q.intentId in intents
      modifies this`uploads
      ensures State() == Run(old(State()), trace)
      ensures proceed == old(MayDelete(q))
      ensures proceed ==> Serving(q, Unreferenced) && MayDelete(q)
    {
      hide SubmitForReview;
      hide Review;
      hide StaffMutation;
      hide WriteChange;
      ghost var w0 := State();
      var row := intents[q.intentId];
      proceed := row.portraitId == q.portraitId && row.fileKey == q.key && row.operationId == q.operationId
          && (row.state == PENDING || row.state == ROLLED_BACK);
      uploads := uploads[q.key := uploads[q.key].(phase := if proceed then Found else Abandoned)];
      trace := Then(w0, [], FindIntent(q.key), State());
      if proceed {
        ghost var more;
        proceed, more := CountDocuments(q);
        RunAppend(w0, trace, more);
        trace := trace + more;
      }
    }

    method CountDocuments(q: Request) returns (none: bool, ghost trace: seq<Step>)
      requires Serving(q, Found)
      modifies this`uploads
      ensures State() == Run(old(State()), trace)
      ensures none == forall id :: id in documents ==> documents[id].fileKey != Some(q.key)
      ensures none ==> Serving(q, Unreferenced)
    {
      ghost var w0 := State();
      none := forall id :: id in documents ==> documents[id].fileKey != Some(q.key);
      assert none == !Referenced(documents, q.key);
      uploads := uploads[q.key := uploads[q.key].(phase := if none then Unreferenced else Abandoned)];
      trace := Then(w0, [], CountReferences(q.key), State());
    }

    method MarkIntent(q: Request, acknowledged: bool) returns (proceed: bool, ghost trace: seq<Step>)
      requires Serving(q, Unreferenced) && q.intentId in intents && MayDelete(q)
      modifies this`intents, this`uploads
      ensures State() == Run(old(State()), trace)
      ensures proceed == acknowledged
      ensures intents == old(intents)[q.intentId := Closed(old(intents)[q.intentId], ROLLED_BACK, q)]
      ensures proceed ==> Serving(q, Marked) && IntentMatches(State(), q.key, {ROLLED_BACK})
    {
      ghost var w0 := State();
      var row := intents[q.intentId].(state := ROLLED_BACK, documentId := OriginalDocument(q.change));
      intents := intents[q.intentId := row];
      uploads := uploads[q.key := uploads[q.key].(phase := Marked)];
      trace := Then(w0, [], MarkRolledBack(q.key), State());
      proceed := acknowledged;
      if !proceed {
        trace := GiveUp(w0, trace, q.key);
      }
    }

    /** DeleteObject, which the client may repeat. */
    method DeleteObject(q: Request, retries: nat, lands: bool, acknowledged: bool)
        returns (proceed: bool, ghost trace: seq<Step>)
      requires Serving(q, Marked)
      modifies this`objects, this`uploads
      ensures State() == Run(old(State()), trace)
      ensures objects == if lands then old(objects) - {q.key} else old(objects)
      ensures proceed == (lands && acknowledged)
      ensures proceed ==> Serving(q, Deleted)
    {
      hide Apply;
      trace := SendDeletes(q, retries);
      ghost var w1 := State();
      ghost var more := [];
      if lands {
        DeleteSteps(w1, q.key);
        objects := objects - {q.key};
        uploads := uploads[q.key := uploads[q.key].(deletes := uploads[q.key].deletes - 1, gone := true)];
        more := Then(w1, more, DeleteLands(q.key), State());
      }
      proceed := lands && acknowledged;
      ghost var last := Answered(q, proceed);
      RunAppend(w1, more, last);
      RunAppend(old(State()), trace, more + last);
      trace := trace + (more + last);
    }

    ghost method SendDeletes(q: Request, retries: nat) returns (trace: seq<Step>)
      requires Serving(q, Marked)
      modifies this`uploads
      ensures State() == Run(old(State()), trace) && Serving(q, Deleting)
      ensures uploads[q.key].deletes == 1 + retries
    {
      hide Apply;
      ghost var w0 := State();
      DeleteSteps(w0, q.key);
      uploads := uploads[q.key := uploads[q.key].(phase := Deleting, deletes := 1)];
      trace := Then(w0, [], SendDelete(q.key), State());
      for n := 0 to retries
        invariant State() == Run(w0, trace) && Serving(q, Deleting)
        invariant uploads[q.key].deletes == 1 + n
      {
        DeleteSteps(State(), q.key);
        uploads := uploads[q.key := uploads[q.key].(deletes := uploads[q.key].deletes + 1)];
        trace := Then(w0, trace, RetryDelete(q.key), State());
      }
    }

    /** The answer to the delete request, if it came. */
    ghost method Answered(q: Request, acknowledged: bool) returns (trace: seq<Step>)
      requires Serving(q, Deleting)
      requires acknowledged ==> uploads[q.key].gone
      modifies this`uploads
      ensures State() == Run(old(State()), trace)
      ensures acknowledged ==> Serving(q, Deleted)
    {
      ghost var w0 := State();
      uploads := uploads[q.key := uploads[q.key].(phase := if acknowledged then Deleted else Abandoned)];
      trace := Then(w0, [], if acknowledged then DeleteAcknowledged(q.key) else Stop(q.key), State());
    }

    method CloseIntent(q: Request, acknowledged: bool) returns (ghost trace: seq<Step>)
      requires Serving(q, Deleted) && IntentMatches(State(), q.key, {ROLLED_BACK})
      modifies this`intents, this`uploads
      ensures State() == Run(old(State()), trace)
      ensures q.intentId in old(intents)
      ensures intents == old(intents)[q.intentId := Closed(old(intents)[q.intentId], CLEANED, q)]
    {
      ghost var w0 := State();
      var row := intents[q.intentId].(state := CLEANED, documentId := OriginalDocument(q.change));
      intents := intents[q.intentId := row];
      uploads := uploads[q.key := uploads[q.key].(phase := Cleaned)];
      trace := Then(w0, [], MarkCleaned(q.key), State());
      if !acknowledged {
        trace := GiveUp(w0, trace, q.key);
      }
    }

    /** persistPrivateFile: store the file under a journalled key, then write the document, and compensate a failure. */
    method PersistPrivateFile(q: Request, a: Answers) returns (saved: Saved, ghost trace: seq<Step>)
      requires Inv(State()) && Fresh(q)
      modifies this
      ensures State() == Run(old(State()), trace)
      ensures Inv(State()) && Evolves(old(State()), State())
      // Reported as saved: exactly the requested document is written, its file is stored and its intent names it.
      ensures saved.Saved? ==>
                && saved.id == DocumentId(q) && DocumentWritten(old(documents), documents, q)
                && objects == old(objects) + {q.key}
                && var row := NewIntent(q).(state := COMMITTED, documentId := Some(saved.id));
                   intents == old(intents)[q.intentId := row]
      // Whatever is reported, nothing else is ever written.
      ensures documents == old(documents) || DocumentWritten(old(documents), documents, q)
      // With every answer good, it is saved exactly when the row to replace still is the one that was read.
      ensures AllStored(a) && a.accessUnchanged && a.commitLands && a.commitAcknowledged ==>
                saved.Saved? == old(Writable(documents, q))
      ensures AllGood(a) && q.change.Create? ==> saved.Saved?
      ensures AllGood(a) && q.change.Replace? && SeenBefore(q.change.read, old(documents)) ==>
                (saved.Saved? <==> old(documents)[q.change.read.id] == q.change.read)
      // A refused write leaves no trace but the journal entry.
      ensures AllStored(a) && (!a.accessUnchanged || !old(Writable(documents, q))) && AllCleaned(a) ==>
                && documents == old(documents) && objects == old(objects)
                && intents == old(intents)[q.intentId := NewIntent(q).(state := CLEANED)]
    {
      hide DocumentWritten;
      ghost var w0 := State();
      UncommittedUnreferenced(w0, q.key);
      assert q.key !in objects;
      saved, trace := Persist(q, a);
      RunKeeps(w0, trace);
      if q.change.Replace? && SeenBefore(q.change.read, w0.documents) {
        WritableIfUnchanged(w0.documents, q);
      }
    }

    method Persist(q: Request, a: Answers) returns (saved: Saved, ghost trace: seq<Step>)
      requires Fresh(q) && q.key !in objects && !Referenced(documents, q.key)
      modifies this
      ensures State() == Run(old(State()), trace)
      ensures saved.Saved? ==>
                && saved.id == DocumentId(q) && DocumentWritten(old(documents), documents, q)
                && objects == old(objects) + {q.key}
                && var row := NewIntent(q).(state := COMMITTED, documentId := Some(saved.id));
                   intents == old(intents)[q.intentId := row]
      ensures documents == old(documents) || DocumentWritten(old(documents), documents, q)
      ensures AllStored(a) && a.accessUnchanged && a.commitLands && a.commitAcknowledged ==>
                saved.Saved? == old(Writable(documents, q))
      ensures AllStored(a) && (!a.accessUnchanged || !old(Writable(documents, q))) && AllCleaned(a) ==>
                && documents == old(documents) && objects == old(objects)
                && intents == old(intents)[q.intentId := NewIntent(q).(state := CLEANED)]
    {
      hide DocumentWritten;
      assert q.newId !in documents && q.intentId !in intents;
      hide Apply;
      hide Run;
      hide Serving;
      hide Fresh;
      ghost var w0 := State();
      saved := Failed;
      var stored;
      stored, trace := UploadPrivateDocument(q, a);
      if stored {
        ghost var more;
        saved, more := WriteDocument(q, a);
        RunAppend(w0, trace, more);
        trace := trace + more;
      }
    }

    /** The transaction and, if it fails, the compensation; before it, a failure proves no rollback and so compensates
        nothing. */
    method WriteDocument(q: Request, a: Answers) returns (saved: Saved, ghost trace: seq<Step>)
      requires Serving(q, Stored) && q.intentId in intents && intents[q.intentId] == NewIntent(q)
      requires q.change.Create? ==> q.newId !in documents
      requires !Referenced(documents, q.key)
      modifies this
      ensures State() == Run(old(State()), trace)
      ensures saved.Saved? ==>
                && saved.id == DocumentId(q) && DocumentWritten(old(documents), documents, q)
                && objects == old(objects) && intents == Committed(old(intents), q)
      ensures documents == old(documents) || DocumentWritten(old(documents), documents, q)
      ensures a.accessUnchanged && a.commitLands && a.commitAcknowledged ==> saved.Saved? == old(Writable(documents, q))
      ensures (!a.accessUnchanged || !old(Writable(documents, q))) && AllCleaned(a) ==>
                && documents == old(documents) && objects == old(objects) - {q.key}
                && intents == old(intents)[q.intentId := Closed(NewIntent(q), CLEANED, q)]
    {
      hide DocumentWritten;
      hide Apply;
      hide Run;
      hide Serving;
      hide Closed;
      hide Committed;
      ghost var w0 := State();
      CallbackExists(q);
      var rollbackProven;
      saved, rollbackProven, trace := Transaction(q, a.accessUnchanged, a.commitLands, a.commitAcknowledged);
      if saved.Failed? {
        ghost var more := Compensate(q, rollbackProven, a);
        RunAppend(w0, trace, more);
        trace := trace + more;
      }
    }

    lemma CallbackExists(q: Request)
      requires q.intentId in intents && intents[q.intentId] == NewIntent(q)
               && (q.change.Create? ==> q.newId !in documents)
      ensures Callback(q).Some? <==> Writable(documents, q)
    {
    }

    /** uploadPrivateDocument: the bucket is checked, the intent recorded, and only then is the object put. */
    method UploadPrivateDocument(q: Request, a: Answers) returns (stored: bool, ghost trace: seq<Step>)
      requires Fresh(q)
      modifies this`intents, this`objects, this`uploads
      ensures State() == Run(old(State()), trace)
      ensures stored == AllStored(a) && (stored ==> Serving(q, Stored))
      ensures intents == if a.bucketReady && a.intentLands then old(intents)[q.intentId := NewIntent(q)]
        else old(intents)
      ensures objects == if a.bucketReady && a.intentLands && a.intentAcknowledged && a.putLands
        then old(objects) + {q.key} else old(objects)
    {
      ghost var w0 := State();
      stored, trace := false, [];
      if !a.bucketReady {
        return;
      }
      hide Apply;
      hide Run;
      var recorded;
      recorded, trace := Begin(q, a.intentLands, a.intentAcknowledged);
      if !recorded {
        return;
      }
      ghost var more;
      stored, more := PutObject(q, a.putRetries, a.putLands, a.putAcknowledged);
      RunAppend(w0, trace, more);
      trace := trace + more;
    }

    /** submitForReview, with the row it read before, if any. */
    method SubmitDocument(read: Option<Document>, now: int) returns (o: Outcome)
      modifies this`documents
      ensures o == SubmitForReview(old(documents), read, now)
      ensures if o.Written? then read.Some? && State() == Apply(old(State()), Submit(read.value, now))
        else documents == old(documents)
      ensures Inv(old(State())) ==> Inv(State()) && Evolves(old(State()), State())
      // What goes to review is a live draft, with the file and the version that were read, and nothing else is written.
      ensures o.Written? ==> Rewritten(old(documents), documents, read.value.id, DRAFT, REVIEW, None, now)
      ensures o.Written? && RowEvolves(read.value, old(documents)[read.value.id]) ==>
                old(documents)[read.value.id] == read.value
      ensures read.Some? && read.value.id in old(documents) && old(documents)[read.value.id] == read.value ==>
        (o.Written? <==> read.value.status == DRAFT && read.value.deletedAt.None?)
    {
      ghost var w := State();
      if read.Some? {
        StatusWritten(w.documents, read.value, REVIEW, None, now);
        if Inv(w) {
          StepKeeps(w, Submit(read.value, now));
        }
      }
      if Inv(w) {
        EvolvesReflexive(w);
      }
      hide Inv;
      hide Evolves;
      hide Rewritten;
      if read.None? {
        o := NotFound;
      } else if read.value.status != DRAFT {
        o := BadRequest;
      } else {
        var updated := UpdateStatus(documents, read.value, REVIEW, None, now);
        o := Write(updated);
        if updated.Some? {
          documents := updated.value;
        }
      }
    }

    method ReviewDocument(id: int, verdict: Status, feedback: Option<string>, now: int) returns (o: Outcome)
      modifies this`documents
      ensures o == Review(old(documents), id, verdict, feedback, now)
      ensures State() == Apply(old(State()), Judge(id, verdict, feedback, now))
      ensures Inv(old(State())) ==> Inv(State()) && Evolves(old(State()), State())
      // Judged exactly when it is a live document in review: read and write are one transaction, so there are no
      // conflicts.
      ensures RowsNamed(old(documents)) ==> (o.Written? <==>
        && (verdict == APPROVED || verdict == NEEDS_REVISION)
        && id in old(documents) && old(documents)[id].deletedAt.None? && old(documents)[id].status == REVIEW)
      ensures RowsNamed(old(documents)) ==> o != Conflict
      ensures o.Written? && RowsNamed(old(documents)) ==>
                Rewritten(old(documents), documents, id, REVIEW, verdict, feedback, now)
    {
      ghost var w := State();
      if Inv(w) {
        StepKeeps(w, Judge(id, verdict, feedback, now));
      }
      if id in documents {
        StatusWritten(w.documents, documents[id], verdict, feedback, now);
      }
      hide Inv;
      hide Evolves;
      hide Rewritten;
      hide Apply;
      JudgeStep(State(), id, verdict, feedback, now);
      o := BadRequest;
      if verdict == APPROVED || verdict == NEEDS_REVISION {
        if id !in documents || documents[id].deletedAt.Some? {
          o := NotFound;
        } else if documents[id].status == REVIEW {
          var updated := UpdateStatus(documents, documents[id], verdict, feedback, now);
          o := Write(updated);
          if updated.Some? {
            documents := updated.value;
          }
        }
      }
    }

    method StaffMetadataMutation(id: int, portraitId: int, version: int, updatedAt: int, change: StaffChange, now: int)
        returns (o: Outcome)
      modifies this`documents
      ensures o == StaffMutation(old(documents), id, portraitId, version, updatedAt, change, now)
      ensures State() == Apply(old(State()), Staff(id, portraitId, version, updatedAt, change, now))
      ensures Inv(old(State())) ==> Inv(State()) && Evolves(old(State()), State())
      // Written exactly when the caller saw the live row as it is; archiving an archived row is answered without a
      // write.
      ensures RowsNamed(old(documents)) ==>
                && (o.Written? <==> MayEdit(old(documents), id, portraitId, version, updatedAt))
                && (o.Written? ==> EditedByStaff(old(documents), documents, id, change, now))
      ensures !o.Written? ==> documents == old(documents)
      ensures o == Unchanged <==>
                id in documents && documents[id].portraitId == portraitId && old(documents)[id].deletedAt.Some?
                    && change.Archive?
    {
      ghost var w := State();
      if id in documents {
        StaffWritten(w.documents, documents[id], change, now);
      }
      hide EditedByStaff;
      if Inv(w) {
        StepKeeps(w, Staff(id, portraitId, version, updatedAt, change, now));
      }
      hide Inv;
      hide Evolves;
      if id !in documents || documents[id].portraitId != portraitId
         || (change.Title? && documents[id].deletedAt.Some?) {
        return NotFound;
      }
      var doc := documents[id];
      if change.Archive? && doc.deletedAt.Some? {
        return Unchanged;
      }
      if doc.version != version || doc.updatedAt != updatedAt {
        return Conflict;
      }
      var updated := UpdateStaffDocument(documents, doc, change, now);
      o := Write(updated);
      if updated.Some? {
        documents := updated.value;
      }
    }

    /** An error ends compensation; the durable record stays as it is. */
    ghost method GiveUp(w0: World, before: seq<Step>, key: string) returns (trace: seq<Step>)
      requires State() == Run(w0, before) && key in uploads
      modifies this`uploads
      ensures State() == Run(w0, trace)
      ensures uploads == old(uploads)[key := old(uploads)[key].(phase := Abandoned)]
    {
      uploads := uploads[key := uploads[key].(phase := Abandoned)];
      trace := Then(w0, before, Stop(key), State());
    }
  }

  function NewIntent(q: Request): Intent {
    Intent(q.operationId, q.key, q.portraitId, q.ownerId, OriginalDocument(q.change), PENDING, q.now)
  }

  /** The document a request is about: the one it creates, or the one it replaces the file of. */
  function DocumentId(q: Request): int {
    if q.change.Create? then q.newId else q.change.read.id
  }

  function Closed(row: Intent, state: IntentState, q: Request): Intent {
    row.(state := state, documentId := OriginalDocument(q.change))
  }

  lemma ClosedTwice(intents: map<int, Intent>, q: Request)
    requires q.intentId in intents
    ensures var once := intents[q.intentId := Closed(intents[q.intentId], ROLLED_BACK, q)];
      once[q.intentId := Closed(once[q.intentId], CLEANED, q)]
      == intents[q.intentId := Closed(intents[q.intentId], CLEANED, q)]
  {
  }

  function Committed(intents: map<int, Intent>, q: Request): map<int, Intent>
    requires q.intentId in intents
  {
    intents[q.intentId := intents[q.intentId].(state := COMMITTED, documentId := Some(DocumentId(q)))]
  }

  /** Exactly the requested document is written. A new one has the request's title, program, portrait and file and is
      the first version of a draft; a new version of an existing one has the new file, the next number and a newer
      timestamp, and is a draft without feedback, but keeps title, program, portrait and everything else. */
  ghost predicate DocumentWritten(t: Table, t': Table, q: Request) {
    var id := DocumentId(q);
    && id in t' && (forall i :: i in t' <==> i in t || i == id) && (forall i :: i in t && i != id ==> t'[i] == t[i])
    && var d := t'[id];
       && d.fileKey == Some(q.key) && d.fileUrl == PrivateFile(id) && d.status == DRAFT && d.feedback == None
       && match q.change
          case Create(title, programId) =>
            && id !in t && d.id == id && d.title == title && d.programId == programId && d.portraitId == q.portraitId
            && d.version == 1 && d.deletedAt == None
          case Replace(read) =>
            && id in t && d.id == t[id].id && d.title == t[id].title && d.programId == t[id].programId == read.programId
            && d.portraitId == t[id].portraitId == read.portraitId && d.deletedAt == t[id].deletedAt == read.deletedAt
            && t[id].version == read.version && d.version == read.version + 1
            && t[id].updatedAt == read.updatedAt < d.updatedAt && d.updatedAt >= q.now
  }

  /** The row was in this table at an earlier moment of a run. */
  predicate SeenBefore(read: Document, t: Table) {
    read.id in t && RowEvolves(read, t[read.id])
  }

  /** A version can be replaced exactly on the very row that was read. */
  lemma WritableIfUnchanged(t: Table, q: Request)
    requires q.change.Replace? && SeenBefore(q.change.read, t)
    ensures Writable(t, q) <==> t[q.change.read.id] == q.change.read
  {
  }

  predicate AllGood(a: Answers) {
    AllStored(a) && a.accessUnchanged && a.commitLands && a.commitAcknowledged
  }

  predicate AllStored(a: Answers) {
    a.bucketReady && a.intentLands && a.intentAcknowledged && a.putLands && a.putAcknowledged
  }

  predicate AllCleaned(a: Answers) {
    a.markAcknowledged && a.deleteLands && a.deleteAcknowledged && a.cleanAcknowledged
  }

  /** A new document can always be written, a new version only on the row as it was read. */
  predicate Writable(t: Table, q: Request) {
    q.change.Replace? ==> q.change.read.id in t && SameVersion(t[q.change.read.id], q.change.read)
  }

  /** Only this live row changed, from one status to the other: file, version, title and owner stay, feedback only if
      some is given, and it counts as newer. */
  predicate Rewritten(t: Table, t': Table, id: int, before: Status, after: Status, feedback: Option<string>, now: int) {
    && id in t && id in t' && t[id].deletedAt.None? && t[id].status == before && t'[id].status == after
    && (feedback.Some? ==> t'[id].feedback == feedback) && (feedback.None? ==> t'[id].feedback == t[id].feedback)
    && t'[id] == t[id].(status := after, feedback := t'[id].feedback, updatedAt := t'[id].updatedAt)
    && t'[id].updatedAt > t[id].updatedAt && t'[id].updatedAt >= now
    && t' == t[id := t'[id]]
  }

  /** The one row a staff edit writes: the new title or the time of archiving, and a newer timestamp. */
  predicate EditedByStaff(t: Table, t': Table, id: int, change: StaffChange, now: int) {
    && id in t && id in t' && t[id].deletedAt.None? && t'[id].updatedAt > t[id].updatedAt && t'[id].updatedAt >= now
    && (match change
        case Title(title) => t'[id].title == title && t'[id].deletedAt == None
        case Archive => t'[id].title == t[id].title && t'[id].deletedAt == Some(now))
    && t'[id] == t[id].(title := t'[id].title, deletedAt := t'[id].deletedAt, updatedAt := t'[id].updatedAt)
    && t' == t[id := t'[id]]
  }

  predicate MayEdit(t: Table, id: int, portraitId: int, version: int, updatedAt: int) {
    && id in t && t[id].portraitId == portraitId && t[id].deletedAt.None?
    && t[id].version == version && t[id].updatedAt == updatedAt
  }

  lemma StaffWritten(t: Table, doc: Document, change: StaffChange, now: int)
    ensures var u := UpdateStaffDocument(t, doc, change, now);
      && (u.Some? ==> EditedByStaff(t, u.value, doc.id, change, now))
      && (doc.id in t && t[doc.id] == doc && doc.deletedAt.None? ==> u.Some?)
  {
  }

  lemma StatusWritten(t: Table, doc: Document, status: Status, feedback: Option<string>, now: int)
    ensures var u := UpdateStatus(t, doc, status, feedback, now);
      && (u.Some? ==> Rewritten(t, u.value, doc.id, doc.status, status, feedback, now))
      && (u.Some? && RowEvolves(doc, t[doc.id]) ==> t[doc.id] == doc)
      && (doc.id in t && t[doc.id] == doc && doc.deletedAt.None? ==> u.Some?)
  {
  }

  /** The run that goes one step further. */
  ghost function Then(w0: World, before: seq<Step>, s: Step, now: World): (trace: seq<Step>)
    requires now == Apply(Run(w0, before), s)
    ensures trace == before + [s] && Run(w0, trace) == now
  {
    RunLast(w0, before, s);
    before + [s]
  }

  // ---- Single steps, where they are enabled ----

  lemma StopStep(w: World, key: string)
    requires key in w.uploads
    ensures Apply(w, Stop(key)) == Move(w, key, Abandoned)
  {
  }

  lemma SendCommitStep(w: World, key: string)
    requires At(w, key, Stored)
    ensures Apply(w, SendCommit(key)) == SetUpload(w, key, w.uploads[key].(phase := Committing, commit := true))
  {
  }

  lemma CommitAnswerStep(w: World, key: string)
    requires At(w, key, Committing)
    ensures IntentMatches(w, key, {COMMITTED}) ==> Apply(w, CommitAcknowledged(key)) == Move(w, key, Finished)
    ensures Apply(w, CommitUnknown(key)) == Move(w, key, Deferred)
  {
  }

  lemma JudgeStep(w: World, id: int, verdict: Status, feedback: Option<string>, at: int)
    ensures Apply(w, Judge(id, verdict, feedback, at))
            == WriteDocuments(w, Review(w.documents, id, verdict, feedback, at))
  {
  }
}

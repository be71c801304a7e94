/** Bookings of experts: ordinary consultations and lead calls. Every writer holds the expert's booking lock and runs in
    one serializable transaction, so each is one atomic step. */
module Consultations {
  import opened Prelude

  datatype Status = REQUESTED | CONFIRMED | DONE | CANCELLED
  datatype MeetingStatus = MEETING_SCHEDULED | MEETING_COMPLETED | MEETING_CANCELLED
  datatype Meeting = Meeting(startTime: int, endTime: int, status: MeetingStatus)
  datatype Consultation = Consultation(clientId: int, profileId: int, startTime: int, endTime: int, status: Status,
                                       packageId: Option<int>, meeting: Meeting)

  datatype CallStatus = CALL_REQUESTED | CALL_CONFIRMED | CALL_DECLINED | CALL_CANCELLED | CALL_COMPLETED
  datatype Call = Call(expertUserId: int, startTime: int, endTime: int, status: CallStatus)

  /** profiles: the user of each expert profile; students: who is assigned to which profile; packages: their used
      slots. */
  datatype World = World(consultations: map<int, Consultation>, calls: map<int, Call>, profiles: map<int, int>,
                         students: set<(int, int)>, packages: map<int, int>)

  datatype Role = ADMIN | EXPERT | STUDENT | SCHOOLBOY | OTHER
  datatype Actor = Actor(id: int, role: Role)

  datatype NewConsultation = NewConsultation(clientId: int, profileId: int, startTime: int, endTime: int,
                                             status: Option<Status>)
  datatype Edit = Edit(startTime: Option<int>, endTime: Option<int>, status: Option<Status>)

  datatype Outcome = Done(world: World) | NotFound | Forbidden | BadRequest | Conflict | Occupied

  predicate Active(c: Call) {
    c.status == CALL_REQUESTED || c.status == CALL_CONFIRMED
  }

  predicate Overlap(aStart: int, aEnd: int, bStart: int, bEnd: int) {
    aStart < bEnd && aEnd > bStart
  }

  /** Some booking of the expert that still counts overlaps the interval, the excluded ones aside. */
  predicate SlotOccupied(w: World, userId: int, profileId: int, startTime: int, endTime: int,
                         excludedConsultation: Option<int>, excludedCall: Option<int>)
  {
    || (exists i :: i in w.consultations && Some(i) != excludedConsultation && w.consultations[i].profileId == profileId
                    && w.consultations[i].status != CANCELLED
                    && Overlap(w.consultations[i].startTime, w.consultations[i].endTime, startTime, endTime))
    || (exists c :: c in w.calls && Some(c) != excludedCall && w.calls[c].expertUserId == userId && Active(w.calls[c])
                    && Overlap(w.calls[c].startTime, w.calls[c].endTime, startTime, endTime))
  }

  function MeetingStatusOf(s: Status): MeetingStatus {
    match s case CANCELLED => MEETING_CANCELLED case DONE => MEETING_COMPLETED case _ => MEETING_SCHEDULED
  }

  function Booked(data: NewConsultation, packageId: Option<int>): Consultation {
    var status := if data.status.Some? then data.status.value else REQUESTED;
    Consultation(data.clientId, data.profileId, data.startTime, data.endTime, status, packageId,
                 Meeting(data.startTime, data.endTime, MeetingStatusOf(status)))
  }

  function Create(w: World, id: int, data: NewConsultation, actor: Actor): Outcome {
    if actor.role == OTHER then Forbidden
    else if data.profileId !in w.profiles then NotFound
    else
      var userId := w.profiles[data.profileId];
      if actor.role != ADMIN && (if actor.role == EXPERT then userId != actor.id else data.clientId != actor.id)
        then Forbidden
      else if actor.role != ADMIN && (data.clientId, data.profileId) !in w.students then Forbidden
      else if actor.role != ADMIN && actor.role != EXPERT && data.status.Some? && data.status.value != REQUESTED
        then Forbidden
      else if data.startTime >= data.endTime then BadRequest
      else if data.status != Some(CANCELLED)
              && SlotOccupied(w, userId, data.profileId, data.startTime, data.endTime, None, None) then Occupied
      else Done(w.(consultations := w.consultations[id := Booked(data, None)]))
  }

  predicate InScope(w: World, c: Consultation, actor: Actor) {
    match actor.role
    case ADMIN => true
    case EXPERT => c.profileId in w.profiles && w.profiles[c.profileId] == actor.id
    case OTHER => false
    case _ => c.clientId == actor.id
  }

  function Edited(c: Consultation, e: Edit): Consultation {
    var startTime := if e.startTime.Some? then e.startTime.value else c.startTime;
    var endTime := if e.endTime.Some? then e.endTime.value else c.endTime;
    var status := if e.status.Some? then e.status.value else c.status;
    c.(startTime := startTime, endTime := endTime, status := status,
       meeting := Meeting(startTime, endTime, MeetingStatusOf(status)))
  }

  /** Rescheduling, changing the status, cancelling and reactivating are all this one writer. */
  function Update(w: World, id: int, e: Edit, actor: Actor, expected: Option<Status>): Outcome {
    if actor.role == OTHER then Forbidden
    else if id !in w.consultations || !InScope(w, w.consultations[id], actor)
            || w.consultations[id].profileId !in w.profiles then NotFound
    else
      var c := w.consultations[id];
      var student := actor.role != ADMIN && actor.role != EXPERT;
      if expected.Some? && c.status != expected.value then Conflict
      else if student && e.status.Some? && e.status.value != REQUESTED && e.status.value != CANCELLED then Forbidden
      else if student && c.status != REQUESTED && (e.startTime.Some? || e.endTime.Some? || e.status == Some(REQUESTED))
        then Conflict
      else
        var next := Edited(c, e);
        if next.startTime >= next.endTime then BadRequest
        else if next.status != CANCELLED
                && SlotOccupied(w, w.profiles[c.profileId], c.profileId, next.startTime, next.endTime, Some(id), None)
                  then Occupied
        else Done(w.(consultations := w.consultations[id := next]))
  }

  /** A student's own booking, which uses one slot of a package. */
  function CreateIfAvailable(w: World, id: int, data: NewConsultation, userId: int, packageId: Option<int>): Outcome {
    if data.startTime >= data.endTime then BadRequest
    else if SlotOccupied(w, userId, data.profileId, data.startTime, data.endTime, None, None) then Occupied
    else if packageId.Some? && packageId.value !in w.packages then NotFound
    else Done(w.(consultations := w.consultations[id := Booked(data, packageId)],
                 packages := if packageId.Some? then w.packages[packageId.value := w.packages[packageId.value] + 1]
                   else w.packages))
  }

  /** Booking a lead call, or moving one that has not been answered yet. */
  function PlaceCall(w: World, id: int, profileId: int, startTime: int, endTime: int): Outcome {
    if profileId !in w.profiles then NotFound
    else if startTime >= endTime then BadRequest
    else if id in w.calls && w.calls[id].status != CALL_REQUESTED then Conflict
    else if SlotOccupied(w, w.profiles[profileId], profileId, startTime, endTime, None, Some(id)) then Occupied
    else Done(w.(calls := w.calls[id := Call(w.profiles[profileId], startTime, endTime, CALL_REQUESTED)]))
  }

  /** An active call may be confirmed or end; nothing makes an ended call active again. */
  function ChangeCall(w: World, id: int, status: CallStatus): Outcome {
    if id !in w.calls then NotFound
    else if !Active(w.calls[id]) && (status == CALL_REQUESTED || status == CALL_CONFIRMED) then Conflict
    else Done(w.(calls := w.calls[id := w.calls[id].(status := status)]))
  }

  datatype Step =
    | DoCreate(id: int, data: NewConsultation, actor: Actor)
    | DoUpdate(id: int, edit: Edit, actor: Actor, expected: Option<Status>)
    | DoBook(id: int, data: NewConsultation, packageId: Option<int>)
    | DoPlaceCall(id: int, profileId: int, startTime: int, endTime: int)
    | DoChangeCall(id: int, status: CallStatus)

  /** New identifiers are unused, and a booking names the user of its profile. */
  function Attempt(w: World, s: Step): Outcome {
    match s
    case DoCreate(id, data, actor) => if id in w.consultations then Conflict else Create(w, id, data, actor)
    case DoUpdate(id, edit, actor, expected) => Update(w, id, edit, actor, expected)
    case DoBook(id, data, packageId) =>
      if id in w.consultations || data.profileId !in w.profiles then Conflict
      else CreateIfAvailable(w, id, data, w.profiles[data.profileId], packageId)
    case DoPlaceCall(id, profileId, startTime, endTime) => PlaceCall(w, id, profileId, startTime, endTime)
    case DoChangeCall(id, status) => ChangeCall(w, id, status)
  }

  function Apply(w: World, s: Step): World {
    var o := Attempt(w, s);
    if o.Done? then o.world else w
  }

  function Run(w: World, steps: seq<Step>): World
    decreases |steps|
  {
    if steps == [] then w else Run(Apply(w, steps[0]), steps[1..])
  }

  // ---- The calendar of an expert ----

  /** An interval that counts in the calendar of a user: which list it is in, which row it is, and when it is. */
  datatype Entry = Entry(isCall: bool, id: int, userId: int, startTime: int, endTime: int)

  ghost predicate IsEntry(w: World, e: Entry) {
    if e.isCall then
      e.id in w.calls && Active(w.calls[e.id])
          && e == Entry(true, e.id, w.calls[e.id].expertUserId, w.calls[e.id].startTime, w.calls[e.id].endTime)
    else
      e.id in w.consultations && w.consultations[e.id].status != CANCELLED
          && w.consultations[e.id].profileId in w.profiles
      && e == Entry(false, e.id, w.profiles[w.consultations[e.id].profileId], w.consultations[e.id].startTime,
                    w.consultations[e.id].endTime)
  }

  /** No two entries of one user's calendar overlap. */
  ghost predicate NoDoubleBooking(w: World) {
    forall e, f :: IsEntry(w, e) && IsEntry(w, f) && e.userId == f.userId && (e.isCall != f.isCall || e.id != f.id)
      ==> !Overlap(e.startTime, e.endTime, f.startTime, f.endTime)
  }

  predicate WellFormed(w: World) {
    && (forall p, p' :: p in w.profiles && p' in w.profiles && w.profiles[p] == w.profiles[p'] ==> p == p')
    && (forall i :: i in w.consultations ==>
          var c := w.consultations[i];
          c.profileId in w.profiles && c.startTime < c.endTime
              && c.meeting == Meeting(c.startTime, c.endTime, MeetingStatusOf(c.status)))
    && (forall c :: c in w.calls ==> w.calls[c].startTime < w.calls[c].endTime)
  }

  ghost predicate Inv(w: World) {
    WellFormed(w) && NoDoubleBooking(w)
  }

  /** At no instant is anyone expected in two places: different entries of one user's calendar never hold it both. */
  lemma NeverTwice(w: World, e: Entry, f: Entry, t: int)
    requires Inv(w) && IsEntry(w, e) && IsEntry(w, f) && e.userId == f.userId && (e.isCall != f.isCall || e.id != f.id)
    ensures !(Within(t, e.startTime, e.endTime) && Within(t, f.startTime, f.endTime))
  {
  }

  /** A free interval overlaps no entry of the user's calendar but the excluded ones. */
  lemma FreeOfEntries(w: World, userId: int, profileId: int, startTime: int, endTime: int,
                      excludedConsultation: Option<int>, excludedCall: Option<int>, e: Entry)
    requires WellFormed(w) && profileId in w.profiles && w.profiles[profileId] == userId
    requires !SlotOccupied(w, userId, profileId, startTime, endTime, excludedConsultation, excludedCall)
    requires IsEntry(w, e) && e.userId == userId
             && (if e.isCall then Some(e.id) != excludedCall else Some(e.id) != excludedConsultation)
    ensures !Overlap(e.startTime, e.endTime, startTime, endTime)
  {
  }

  /** The new world has the old entries, one of them possibly gone or replaced by an entry that was found free. */
  lemma OneEntryKeeps(w: World, w': World, isCall: bool, id: int, userId: int, profileId: int, startTime: int,
                      endTime: int)
    requires Inv(w) && WellFormed(w') && w'.profiles == w.profiles && profileId in w.profiles
             && w.profiles[profileId] == userId
    requires forall e :: IsEntry(w', e) && !(e.isCall == isCall && e.id == id) ==> IsEntry(w, e)
    requires forall e :: IsEntry(w', e) && e.isCall == isCall && e.id == id ==>
               e == Entry(isCall, id, userId, startTime, endTime) || IsEntry(w, e)
    requires !IsEntry(w', Entry(isCall, id, userId, startTime, endTime))
             || IsEntry(w, Entry(isCall, id, userId, startTime, endTime))
             || !SlotOccupied(w, userId, profileId, startTime, endTime, if isCall then None else Some(id),
                              if isCall then Some(id) else None)
    ensures Inv(w')
  {
    forall e, f | IsEntry(w', e) && IsEntry(w', f) && e.userId == f.userId && (e.isCall != f.isCall || e.id != f.id)
      ensures !Overlap(e.startTime, e.endTime, f.startTime, f.endTime)
    {
      if !IsEntry(w, e) {
        FreeOfEntries(w, userId, profileId, startTime, endTime, if isCall then None else Some(id),
                      if isCall then Some(id) else None, f);
      } else if !IsEntry(w, f) {
        FreeOfEntries(w, userId, profileId, startTime, endTime, if isCall then None else Some(id),
                      if isCall then Some(id) else None, e);
      }
    }
  }

  lemma ConsultationStepKeeps(w: World, s: Step)
    requires Inv(w) && (s.DoCreate? || s.DoUpdate? || s.DoBook?)
    ensures Inv(Apply(w, s))
  {
    var w' := Apply(w, s);
    if Attempt(w, s).Done? {
      var c := w'.consultations[s.id];
      OneEntryKeeps(w, w', false, s.id, w.profiles[c.profileId], c.profileId, c.startTime, c.endTime);
    }
  }

  lemma CallStepKeeps(w: World, s: Step)
    requires Inv(w) && (s.DoPlaceCall? || s.DoChangeCall?)
    ensures Inv(Apply(w, s))
  {
    var w' := Apply(w, s);
    if s.DoPlaceCall? && Attempt(w, s).Done? {
      OneEntryKeeps(w, w', true, s.id, w.profiles[s.profileId], s.profileId, s.startTime, s.endTime);
    } else {
      assert forall e :: IsEntry(w', e) ==> IsEntry(w, e);
    }
  }

  /** Whatever is created, booked, moved, cancelled, reactivated or answered, no expert is ever double booked, every
      consultation keeps a positive length and its meeting stays in step with it. */
  lemma {:induction false} RunKeeps(w: World, steps: seq<Step>)
    requires Inv(w)
    ensures Inv(Run(w, steps))
    decreases |steps|
  {
    if steps != [] {
      match steps[0] {
        case DoCreate(_, _, _) => ConsultationStepKeeps(w, steps[0]);
        case DoUpdate(_, _, _, _) => ConsultationStepKeeps(w, steps[0]);
        case DoBook(_, _, _) => ConsultationStepKeeps(w, steps[0]);
        case DoPlaceCall(_, _, _, _) => CallStepKeeps(w, steps[0]);
        case DoChangeCall(_, _) => CallStepKeeps(w, steps[0]);
      }
      RunKeeps(Apply(w, steps[0]), steps[1..]);
    }
  }

  /** A refused step is refused for a reason that still stands: the slot it asked for is taken, by an entry of the
      calendar. */
  lemma OccupiedIsTaken(w: World, id: int, data: NewConsultation, userId: int, packageId: Option<int>)
      returns (e: Entry)
    requires Inv(w) && data.profileId in w.profiles && w.profiles[data.profileId] == userId
    requires CreateIfAvailable(w, id, data, userId, packageId) == Occupied
    ensures IsEntry(w, e) && e.userId == userId && Overlap(e.startTime, e.endTime, data.startTime, data.endTime)
    ensures ShareInstant(e.startTime, e.endTime, data.startTime, data.endTime)
  {
    if i :| i in w.consultations && w.consultations[i].profileId == data.profileId
            && w.consultations[i].status != CANCELLED
            && Overlap(w.consultations[i].startTime, w.consultations[i].endTime, data.startTime, data.endTime) {
      e := Entry(false, i, userId, w.consultations[i].startTime, w.consultations[i].endTime);
    } else {
      var c :| c in w.calls && w.calls[c].expertUserId == userId && Active(w.calls[c])
               && Overlap(w.calls[c].startTime, w.calls[c].endTime, data.startTime, data.endTime);
      e := Entry(true, c, userId, w.calls[c].startTime, w.calls[c].endTime);
    }
    SharedInstant(e.startTime, e.endTime, data.startTime, data.endTime);
  }

  // ---- Who may do what ----

  predicate Student(actor: Actor) {
    actor.role == STUDENT || actor.role == SCHOOLBOY
  }

  /** A new consultation belongs to its author or the author's student, who is assigned to the expert; students only
      request. */
  lemma CreatedByRight(w: World, id: int, data: NewConsultation, actor: Actor)
    requires Create(w, id, data, actor).Done?
    ensures data.profileId in w.profiles && data.startTime < data.endTime
    ensures actor.role != ADMIN ==> (data.clientId, data.profileId) in w.students
    ensures actor.role == EXPERT ==> w.profiles[data.profileId] == actor.id
    ensures Student(actor) ==>
              data.clientId == actor.id && Create(w, id, data, actor).world.consultations[id].status == REQUESTED
    ensures Create(w, id, data, actor).world == w.(consultations := w.consultations[id := Booked(data, None)])
  {
    hide SlotOccupied;
  }

  /** A student never confirms or completes a consultation, and moves or renews only a pending one; whoever edits, only
      times, status and the meeting change, and the meeting keeps in step. */
  lemma EditedByRight(w: World, id: int, e: Edit, actor: Actor, expected: Option<Status>)
    requires Update(w, id, e, actor, expected).Done?
    ensures id in w.consultations && InScope(w, w.consultations[id], actor)
    ensures id in Update(w, id, e, actor, expected).world.consultations
    ensures var c, c' := w.consultations[id], Update(w, id, e, actor, expected).world.consultations[id];
      && (expected.Some? ==> c.status == expected.value)
      && (Student(actor) && c'.status != c.status ==> c'.status == CANCELLED)
      && (Student(actor) && (c'.startTime, c'.endTime) != (c.startTime, c.endTime) ==> c.status == REQUESTED)
      && c' == c.(startTime := c'.startTime, endTime := c'.endTime, status := c'.status, meeting := c'.meeting)
      && c'.meeting == Meeting(c'.startTime, c'.endTime, MeetingStatusOf(c'.status))
      && Update(w, id, e, actor, expected).world == w.(consultations := w.consultations[id := c'])
  {
    hide SlotOccupied;
  }

  // ---- Package slots ----

  function BookedFrom(w: World, p: int): set<int> {
    set i | i in w.consultations && w.consultations[i].packageId == Some(p)
  }

  /** Consultations keep their package, and new ones that are not booked from one have none. */
  lemma PackageStays(w: World, s: Step, i: int)
    requires !s.DoBook?
    ensures Apply(w, s).packages == w.packages
    ensures i in w.consultations ==>
              i in Apply(w, s).consultations && Apply(w, s).consultations[i].packageId == w.consultations[i].packageId
    ensures i in Apply(w, s).consultations && i !in w.consultations ==> Apply(w, s).consultations[i].packageId == None
  {
    hide SlotOccupied;
    hide InScope;
  }

  lemma StepConservesSlots(w: World, s: Step, p: int)
    requires p in w.packages
    ensures p in Apply(w, s).packages
    ensures Apply(w, s).packages[p] - |BookedFrom(Apply(w, s), p)| == w.packages[p] - |BookedFrom(w, p)|
  {
    if s.DoBook? {
      BookConservesSlots(w, s, p);
    } else {
      hide Apply;
      PackageStays(w, s, 0);
      forall i ensures i in BookedFrom(Apply(w, s), p) <==> i in BookedFrom(w, p) {
        PackageStays(w, s, i);
      }
      assert BookedFrom(Apply(w, s), p) == BookedFrom(w, p);
    }
  }

  lemma BookConservesSlots(w: World, s: Step, p: int)
    requires p in w.packages && s.DoBook?
    ensures p in Apply(w, s).packages
    ensures Apply(w, s).packages[p] - |BookedFrom(Apply(w, s), p)| == w.packages[p] - |BookedFrom(w, p)|
  {
    hide SlotOccupied;
    var w' := Apply(w, s);
    if Attempt(w, s).Done? && s.packageId == Some(p) {
      assert BookedFrom(w', p) == BookedFrom(w, p) + {s.id};
    } else {
      assert BookedFrom(w', p) == BookedFrom(w, p);
    }
  }

  /** A package's used slots grow by exactly one for each consultation booked from it, in every run. */
  lemma {:induction false} RunConservesSlots(w: World, steps: seq<Step>, p: int)
    requires p in w.packages
    ensures p in Run(w, steps).packages
    ensures Run(w, steps).packages[p] - |BookedFrom(Run(w, steps), p)| == w.packages[p] - |BookedFrom(w, p)|
    decreases |steps|
  {
    if steps != [] {
      StepConservesSlots(w, steps[0], p);
      RunConservesSlots(Apply(w, steps[0]), steps[1..], p);
    }
  }

  // ---- What every single writer keeps ----

  function After(w: World, o: Outcome): World {
    if o.Done? then o.world else w
  }

  /** From one state to the next: nobody gets double booked, and each package loses a slot per consultation booked from
      it. */
  ghost predicate Kept(w: World, w': World) {
    && (Inv(w) ==> Inv(w'))
    && (forall p :: p in w.packages ==>
          p in w'.packages && w'.packages[p] - |BookedFrom(w', p)| == w.packages[p] - |BookedFrom(w, p)|)
  }

  lemma StepKept(w: World, s: Step)
    requires s.DoCreate? || s.DoUpdate? || s.DoBook?
    ensures Kept(w, Apply(w, s))
  {
    hide Inv;
    hide Apply;
    hide BookedFrom;
    if Inv(w) {
      ConsultationStepKeeps(w, s);
    }
    forall p | p in w.packages
      ensures p in Apply(w, s).packages
              && Apply(w, s).packages[p] - |BookedFrom(Apply(w, s), p)| == w.packages[p] - |BookedFrom(w, p)|
    {
      StepConservesSlots(w, s, p);
    }
  }

  /** No entry of the user's calendar but the excluded consultation overlaps the interval. */
  ghost predicate Free(w: World, userId: int, startTime: int, endTime: int, excluded: Option<int>) {
    forall e :: IsEntry(w, e) && e.userId == userId && (e.isCall || Some(e.id) != excluded) ==>
          !Overlap(e.startTime, e.endTime, startTime, endTime)
  }

  /** The two queries for bookings in the way find one exactly when the calendar holds one. */
  lemma FreeUnlessOccupied(w: World, profileId: int, startTime: int, endTime: int, excluded: Option<int>)
    requires WellFormed(w) && profileId in w.profiles
    ensures Free(w, w.profiles[profileId], startTime, endTime, excluded)
            <==> !SlotOccupied(w, w.profiles[profileId], profileId, startTime, endTime, excluded, None)
  {
    var userId := w.profiles[profileId];
    if !SlotOccupied(w, userId, profileId, startTime, endTime, excluded, None) {
      forall e | IsEntry(w, e) && e.userId == userId && (e.isCall || Some(e.id) != excluded)
        ensures !Overlap(e.startTime, e.endTime, startTime, endTime)
      {
        FreeOfEntries(w, userId, profileId, startTime, endTime, excluded, None, e);
      }
    } else if i :| i in w.consultations && Some(i) != excluded && w.consultations[i].profileId == profileId
                   && w.consultations[i].status != CANCELLED
                   && Overlap(w.consultations[i].startTime, w.consultations[i].endTime, startTime, endTime) {
      assert IsEntry(w, Entry(false, i, userId, w.consultations[i].startTime, w.consultations[i].endTime));
    } else {
      var c :| c in w.calls && w.calls[c].expertUserId == userId && Active(w.calls[c])
               && Overlap(w.calls[c].startTime, w.calls[c].endTime, startTime, endTime);
      assert IsEntry(w, Entry(true, c, userId, w.calls[c].startTime, w.calls[c].endTime));
    }
  }

  /** Administrators book for anyone, experts and students for themselves where they are assigned, and students only
      request. */
  predicate MayBook(w: World, data: NewConsultation, actor: Actor) {
    && data.profileId in w.profiles
    && match actor.role
       case ADMIN => true
       case OTHER => false
       case EXPERT => w.profiles[data.profileId] == actor.id && (data.clientId, data.profileId) in w.students
       case _ =>
         && data.clientId == actor.id && (data.clientId, data.profileId) in w.students
         && (data.status.None? || data.status == Some(REQUESTED))
  }

  /** A consultation is created exactly when the actor may, its length is positive and, unless it is created cancelled,
      the expert's calendar is free; then it is the only row that changes. */
  lemma CreatedWhenFree(w: World, id: int, data: NewConsultation, actor: Actor)
    requires Inv(w)
    ensures var o := Create(w, id, data, actor);
      && (o.Done? <==> MayBook(w, data, actor) && data.startTime < data.endTime
                       && (data.status == Some(CANCELLED)
                           || Free(w, w.profiles[data.profileId], data.startTime, data.endTime, None)))
      && (o == Occupied ==>
          data.profileId in w.profiles && !Free(w, w.profiles[data.profileId], data.startTime, data.endTime, None))
  {
    hide Free;
    hide SlotOccupied;
    if data.profileId in w.profiles {
      FreeUnlessOccupied(w, data.profileId, data.startTime, data.endTime, None);
    }
  }

  /** A student's booking is made exactly when its length is positive, the expert's calendar is free and the package, if
      one is named, exists. */
  lemma BookedWhenFree(w: World, id: int, data: NewConsultation, packageId: Option<int>)
    requires Inv(w) && data.profileId in w.profiles
    ensures CreateIfAvailable(w, id, data, w.profiles[data.profileId], packageId).Done?
            <==> data.startTime < data.endTime
                 && Free(w, w.profiles[data.profileId], data.startTime, data.endTime, None)
                 && (packageId.Some? ==> packageId.value in w.packages)
  {
    hide Free;
    hide SlotOccupied;
    FreeUnlessOccupied(w, data.profileId, data.startTime, data.endTime, None);
  }

  /** Who may edit a consultation how: administrators everything, experts and students their own; students may only
      cancel, or renew and move what is still requested; and the status must be the expected one, if one is. */
  predicate MayEdit(w: World, id: int, e: Edit, actor: Actor, expected: Option<Status>) {
    && id in w.consultations && w.consultations[id].profileId in w.profiles
    && var c := w.consultations[id];
       && (expected == None || expected == Some(c.status))
       && match actor.role
          case ADMIN => true
          case EXPERT => w.profiles[c.profileId] == actor.id
          case OTHER => false
          case _ =>
            && c.clientId == actor.id
               && (e.status == None || e.status == Some(REQUESTED) || e.status == Some(CANCELLED))
            && (c.status == REQUESTED || (e.startTime == None && e.endTime == None && e.status != Some(REQUESTED)))
  }

  /** What an edit gives is written, the rest of the consultation stays, and its meeting follows; no other row
      changes. */
  ghost predicate RowEdited(w: World, w': World, id: int, e: Edit) {
    && id in w.consultations && id in w'.consultations && w' == w.(consultations := w'.consultations)
    && (forall i :: i in w'.consultations <==> i in w.consultations)
    && (forall i :: i in w.consultations && i != id ==> w'.consultations[i] == w.consultations[i])
    && var c, c' := w.consultations[id], w'.consultations[id];
       && (e.startTime.Some? ==> c'.startTime == e.startTime.value)
          && (e.startTime.None? ==> c'.startTime == c.startTime)
       && (e.endTime.Some? ==> c'.endTime == e.endTime.value) && (e.endTime.None? ==> c'.endTime == c.endTime)
       && (e.status.Some? ==> c'.status == e.status.value) && (e.status.None? ==> c'.status == c.status)
       && c'.clientId == c.clientId && c'.profileId == c.profileId && c'.packageId == c.packageId && MeetingFollows(c')
  }

  predicate MeetingFollows(c: Consultation) {
    && c.meeting.startTime == c.startTime && c.meeting.endTime == c.endTime
    && (c.meeting.status == MEETING_CANCELLED <==> c.status == CANCELLED)
    && (c.meeting.status == MEETING_COMPLETED <==> c.status == DONE)
  }

  /** The new consultation is as asked for, requested unless a status is given, and uses a slot of the package, if
      any. */
  ghost predicate RowBooked(w: World, w': World, id: int, data: NewConsultation, packageId: Option<int>) {
    && id in w'.consultations && w' == w.(consultations := w'.consultations, packages := w'.packages)
    && (forall i :: i in w'.consultations <==> i in w.consultations || i == id)
    && (forall i :: i in w.consultations && i != id ==> w'.consultations[i] == w.consultations[i])
    && (var c := w'.consultations[id];
        && c.clientId == data.clientId && c.profileId == data.profileId && c.packageId == packageId
        && c.startTime == data.startTime && c.endTime == data.endTime && MeetingFollows(c)
        && (data.status.Some? ==> c.status == data.status.value) && (data.status.None? ==> c.status == REQUESTED))
    && (packageId.None? ==> w'.packages == w.packages)
    && (packageId.Some? ==>
        && packageId.value in w.packages && (forall p :: p in w'.packages <==> p in w.packages)
        && (forall p :: p in w.packages ==>
              w'.packages[p] == if p == packageId.value then w.packages[p] + 1 else w.packages[p]))
  }

  /** The length and the calendar allow the edited interval. */
  ghost predicate Fits(w: World, id: int, e: Edit)
    requires id in w.consultations && w.consultations[id].profileId in w.profiles
  {
    var c := w.consultations[id];
    var startTime := if e.startTime.Some? then e.startTime.value else c.startTime;
    var endTime := if e.endTime.Some? then e.endTime.value else c.endTime;
    && startTime < endTime
    && ((if e.status.Some? then e.status.value else c.status) == CANCELLED
        || Free(w, w.profiles[c.profileId], startTime, endTime, Some(id)))
  }

  /** An edit is accepted exactly when the actor may make it and the expert's calendar is free for what it leads to. */
  lemma EditedWhenFree(w: World, id: int, e: Edit, actor: Actor, expected: Option<Status>)
    requires Inv(w)
    ensures Update(w, id, e, actor, expected).Done? <==> MayEdit(w, id, e, actor, expected) && Fits(w, id, e)
  {
    hide Free;
    hide SlotOccupied;
    if id in w.consultations && w.consultations[id].profileId in w.profiles {
      var c := w.consultations[id];
      var next := Edited(c, e);
      FreeUnlessOccupied(w, c.profileId, next.startTime, next.endTime, Some(id));
    }
  }

  lemma EditWrites(w: World, id: int, e: Edit, actor: Actor, expected: Option<Status>)
    requires Update(w, id, e, actor, expected).Done?
    ensures RowEdited(w, Update(w, id, e, actor, expected).world, id, e)
  {
    hide SlotOccupied;
    hide InScope;
  }

  lemma CreateWrites(w: World, id: int, data: NewConsultation, actor: Actor)
    requires Create(w, id, data, actor).Done?
    ensures RowBooked(w, Create(w, id, data, actor).world, id, data, None)
  {
    hide SlotOccupied;
  }

  lemma BookWrites(w: World, id: int, data: NewConsultation, userId: int, packageId: Option<int>)
    requires CreateIfAvailable(w, id, data, userId, packageId).Done?
    ensures RowBooked(w, CreateIfAvailable(w, id, data, userId, packageId).world, id, data, packageId)
  {
    hide SlotOccupied;
  }

  // ---- The repository ----

  class ConsultationRepository {
    var consultations: map<int, Consultation>
    var packages: map<int, int>
    const calls: map<int, Call>
    const profiles: map<int, int>
    const students: set<(int, int)>

    function State(): World
      reads this
    {
      World(consultations, calls, profiles, students, packages)
    }

    constructor (w: World)
      ensures State() == w
    {
      consultations, calls, profiles, students, packages :=
          w.consultations, w.calls, w.profiles, w.students, w.packages;
    }

    method SlotTaken(userId: int, profileId: int, startTime: int, endTime: int, excluded: Option<int>)
        returns (taken: bool)
      ensures taken == SlotOccupied(State(), userId, profileId, startTime, endTime, excluded, None)
    {
      if exists i :: i in consultations && Some(i) != excluded && consultations[i].profileId == profileId
                     && consultations[i].status != CANCELLED
                     && Overlap(consultations[i].startTime, consultations[i].endTime, startTime, endTime) {
        return true;
      }
      taken := exists c :: c in calls && calls[c].expertUserId == userId && Active(calls[c])
                           && Overlap(calls[c].startTime, calls[c].endTime, startTime, endTime);
    }

    method CreateOne(id: int, data: NewConsultation, actor: Actor) returns (outcome: Outcome)
      modifies this
      ensures outcome == Create(old(State()), id, data, actor) && State() == After(old(State()), outcome)
      ensures id !in old(consultations) ==> Kept(old(State()), State())
      // Created exactly when the actor may and the expert's calendar is free.
      ensures Inv(old(State())) ==>
        (outcome.Done? <==> MayBook(old(State()), data, actor) && data.startTime < data.endTime
                            && (data.status == Some(CANCELLED)
                                || Free(old(State()), profiles[data.profileId], data.startTime, data.endTime, None)))
      ensures outcome.Done? ==> RowBooked(old(State()), State(), id, data, None)
      ensures !outcome.Done? ==> State() == old(State())
      ensures outcome.Done? && Student(actor) ==> consultations[id].status == REQUESTED && data.clientId == actor.id
    {
      ghost var w := State();
      if id !in consultations {
        StepKept(w, DoCreate(id, data, actor));
      }
      if Inv(w) {
        CreatedWhenFree(w, id, data, actor);
      }
      if Create(w, id, data, actor).Done? {
        CreateWrites(w, id, data, actor);
        CreatedByRight(w, id, data, actor);
      }
      hide RowBooked;
      hide Kept;
      hide Inv;
      hide Free;
      outcome := CheckAndCreate(id, data, actor);
    }

    method CheckAndCreate(id: int, data: NewConsultation, actor: Actor) returns (outcome: Outcome)
      modifies this
      ensures outcome == Create(old(State()), id, data, actor) && State() == After(old(State()), outcome)
    {
      if actor.role == OTHER { return Forbidden; }
      if data.profileId !in profiles { return NotFound; }
      var userId := profiles[data.profileId];
      if actor.role != ADMIN {
        if (actor.role == EXPERT && userId != actor.id) || (actor.role != EXPERT && data.clientId != actor.id) {
          return Forbidden;
        }
        if (data.clientId, data.profileId) !in students { return Forbidden; }
        if actor.role != EXPERT && data.status.Some? && data.status.value != REQUESTED { return Forbidden; }
      }
      if data.startTime >= data.endTime { return BadRequest; }
      if data.status != Some(CANCELLED) {
        var taken := SlotTaken(userId, data.profileId, data.startTime, data.endTime, None);
        if taken { return Occupied; }
      }
      consultations := consultations[id := Booked(data, None)];
      outcome := Done(State());
    }

    method UpdateOne(id: int, e: Edit, actor: Actor, expected: Option<Status>) returns (outcome: Outcome)
      modifies this
      ensures outcome == Update(old(State()), id, e, actor, expected) && State() == After(old(State()), outcome)
      ensures Kept(old(State()), State())
      // Edited exactly when the actor may and the calendar is free; then what is given is written.
      ensures Inv(old(State())) ==>
                (outcome.Done? <==> MayEdit(old(State()), id, e, actor, expected) && Fits(old(State()), id, e))
      ensures outcome.Done? ==> RowEdited(old(State()), State(), id, e)
      ensures !outcome.Done? ==> State() == old(State())
    {
      StepKept(State(), DoUpdate(id, e, actor, expected));
      if Inv(State()) {
        EditedWhenFree(State(), id, e, actor, expected);
      }
      if Update(State(), id, e, actor, expected).Done? {
        EditWrites(State(), id, e, actor, expected);
      }
      hide RowEdited;
      hide Inv;
      hide MayEdit;
      hide Fits;
      hide Kept;
      hide Update;
      outcome := CheckAndUpdate(id, e, actor, expected);
    }

    method CheckAndUpdate(id: int, e: Edit, actor: Actor, expected: Option<Status>) returns (outcome: Outcome)
      modifies this
      ensures outcome == Update(old(State()), id, e, actor, expected) && State() == After(old(State()), outcome)
    {
      hide SlotOccupied;
      hide InScope;
      if actor.role == OTHER { return Forbidden; }
      if id !in consultations || !InScope(State(), consultations[id], actor)
         || consultations[id].profileId !in profiles {
        return NotFound;
      }
      var c := consultations[id];
      if expected.Some? && c.status != expected.value { return Conflict; }
      if actor.role != ADMIN && actor.role != EXPERT {
        if e.status.Some? && e.status.value != REQUESTED && e.status.value != CANCELLED { return Forbidden; }
        if c.status != REQUESTED && (e.startTime.Some? || e.endTime.Some? || e.status == Some(REQUESTED)) {
          return Conflict;
        }
      }
      var startTime := if e.startTime.Some? then e.startTime.value else c.startTime;
      var endTime := if e.endTime.Some? then e.endTime.value else c.endTime;
      var status := if e.status.Some? then e.status.value else c.status;
      if startTime >= endTime { return BadRequest; }
      if status != CANCELLED {
        var taken := SlotTaken(profiles[c.profileId], c.profileId, startTime, endTime, Some(id));
        if taken { return Occupied; }
      }
      WriteUpdate(id, startTime, endTime, status);
      outcome := Done(State());
    }

    /** The meeting's row, then the consultation's own. */
    method WriteUpdate(id: int, startTime: int, endTime: int, status: Status)
      requires id in consultations
      modifies this`consultations
      ensures var edit := Edit(Some(startTime), Some(endTime), Some(status));
              consultations == old(consultations)[id := Edited(old(consultations)[id], edit)]
    {
      var meeting := Meeting(startTime, endTime, MeetingStatusOf(status));
      consultations := consultations[id := consultations[id].(meeting := meeting)];
      var row := consultations[id].(startTime := startTime, endTime := endTime, status := status);
      consultations := consultations[id := row];
    }

    method CreateIfExpertAvailable(id: int, data: NewConsultation, userId: int, packageId: Option<int>)
        returns (outcome: Outcome)
      modifies this
      ensures outcome == CreateIfAvailable(old(State()), id, data, userId, packageId)
              && State() == After(old(State()), outcome)
      ensures id !in old(consultations) && data.profileId in profiles && userId == profiles[data.profileId] ==>
                Kept(old(State()), State())
      // Booked exactly when the expert's calendar is free and the package exists.
      ensures Inv(old(State())) && data.profileId in profiles && userId == profiles[data.profileId] ==>
        (outcome.Done?
         <==> data.startTime < data.endTime && Free(old(State()), userId, data.startTime, data.endTime, None)
                            && (packageId.Some? ==> packageId.value in old(packages)))
      ensures outcome.Done? ==> RowBooked(old(State()), State(), id, data, packageId)
      ensures !outcome.Done? ==> State() == old(State())
    {
      ghost var w := State();
      if CreateIfAvailable(w, id, data, userId, packageId).Done? {
        BookWrites(w, id, data, userId, packageId);
      }
      hide RowBooked;
      if data.profileId in profiles && userId == profiles[data.profileId] {
        if id !in consultations {
          StepKept(w, DoBook(id, data, packageId));
        }
        if Inv(w) {
          BookedWhenFree(w, id, data, packageId);
        }
      }
      hide Kept;
      hide Inv;
      hide Free;
      outcome := CheckAndBook(id, data, userId, packageId);
    }

    method CheckAndBook(id: int, data: NewConsultation, userId: int, packageId: Option<int>) returns (outcome: Outcome)
      modifies this
      ensures outcome == CreateIfAvailable(old(State()), id, data, userId, packageId)
              && State() == After(old(State()), outcome)
    {
      if data.startTime >= data.endTime { return BadRequest; }
      var taken := SlotTaken(userId, data.profileId, data.startTime, data.endTime, None);
      if taken { return Occupied; }
      var before := consultations;
      consultations := consultations[id := Booked(data, packageId)];
      if packageId.Some? {
        if packageId.value !in packages {
          consultations := before; // the transaction rolls back
          return NotFound;
        }
        packages := packages[packageId.value := packages[packageId.value] + 1];
      }
      outcome := Done(State());
    }
  }
}

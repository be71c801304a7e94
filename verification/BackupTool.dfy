/** The local backup tool: it stops services under a journal, copies, resumes them, publishes the checkpoint and prunes.
    Its directories survive a crash. Between any two effects the process may be killed or the next call may raise; a
    docker call may raise whether or not it took effect. */
module BackupTool {
  import opened Prelude
  import opened BackupRetention

  datatype Service = BACKEND | MINIO | DB | REDIS
  datatype File = DATABASE_DUMP | DATABASE_GLOBALS | REDIS_RDB | MINIO_DATA_GZ | CONFIGURATION_GZ | MINIO_DATA_TAR
  datatype Phase =
    | CONFIGURATION | STOP_BACKEND | STOP_MINIO | DATABASE | REDIS_SNAPSHOT | MINIO_FILES
    | RESUMING | VERIFYING | COMPLETE

  const SERVICES: set<Service> := {BACKEND, MINIO, DB, REDIS}
  const ARTIFACTS: set<File> := {DATABASE_DUMP, DATABASE_GLOBALS, REDIS_RDB, MINIO_DATA_GZ, CONFIGURATION_GZ}

  datatype Journal = Journal(name: string, phase: Phase, backendStopAttempted: bool, minioStopAttempted: bool,
                             servicesResumed: bool)

  /** A checkpoint directory; the entry is what its manifest says. */
  datatype Dir = Dir(files: set<File>, manifest: Option<Entry>)

  /** In which parts of a run all goes well: no call raises, the process is not killed, docker does what it is told and
      a running service reports its health. */
  datatype Calm = Calm(starting: bool, copying: bool, resuming: bool, finishing: bool)

  /** Raised: an exception of a call; Refused: one the tool raises itself about what it finds; Killed: no further
      effect. */
  datatype Outcome = Ok | Raised | Refused | Killed

  function Flags(j: Journal): set<Service> {
    (if j.backendStopAttempted then {BACKEND} else {}) + (if j.minioStopAttempted then {MINIO} else {})
  }

  /** Taken from the services' data. */
  const COPIES: set<File> := {DATABASE_DUMP, DATABASE_GLOBALS, REDIS_RDB, MINIO_DATA_TAR}

  /** The copies were taken with only the databases up: neither the backend nor the object store could change
      anything. */
  predicate Quiet(during: map<File, set<Service>>) {
    forall f :: f in COPIES ==> f in during && during[f] == {DB, REDIS}
  }

  function Added(d: Dir, f: File): Dir {
    d.(files := d.files + {f})
  }

  predicate Whole(name: string, d: Dir) {
    d.files == ARTIFACTS && d.manifest.Some? && d.manifest.value.name == name
  }

  /** What is left of a dropped checkpoint: nothing, or its manifest and some of its files. */
  predicate Leftover(name: string, d: Dir) {
    if d.manifest.Some? then d.manifest.value.name == name && d.files <= ARTIFACTS else d.files == {}
  }

  function Present(snapshots: map<string, Dir>): set<Entry> {
    set n | n in snapshots && snapshots[n].manifest.Some? :: snapshots[n].manifest.value
  }

  /** The directories: checkpoints are whole, leftovers can be cleared, and of the checkpoints ever made, everything the
      retention rule keeps is still there. */
  ghost predicate Stored(snapshots: map<string, Dir>, trash: map<string, Dir>, made: set<Entry>) {
    && (forall n :: n in snapshots ==> Whole(n, snapshots[n]))
    && (forall n :: n in trash ==> Leftover(n, trash[n]))
    && snapshots.Keys !! trash.Keys
    && (forall n :: n in trash ==> exists e :: e in made && e.name == n)
    && Separate(made) && Keep(made) <= Present(snapshots) <= made
  }

  class Tool {
    var active: Option<Journal>
    var operations: map<string, Journal>
    var partials: map<string, Dir>
    var snapshots: map<string, Dir>
    var trash: map<string, Dir>
    var running: set<Service>
    ghost var owed: set<Service>   // stopped by the tool and not seen healthy since
    ghost var seen: set<Service>   // seen healthy by the resumption under way
    ghost var made: set<Entry>     // every checkpoint ever published
    ghost var during: map<File, set<Service>> // what was running when the run under way wrote a file

    /** Every service that is down is one the tool still owes, and the active journal says so; and the backend never
        runs without its object store. */
    ghost predicate Covered()
      reads this`active, this`running, this`owed
    {
      && SERVICES - running <= owed && owed <= (if active.Some? then Flags(active.value) else {})
      && running <= SERVICES && (BACKEND in running ==> MINIO in running)
    }

    ghost predicate Valid()
      reads this
    {
      Covered() && Stored(snapshots, trash, made)
    }

    constructor ()
      ensures Valid() && active == None && running == SERVICES && made == {}
    {
      active, operations, partials, snapshots, trash := None, map[], map[], map[], map[];
      running, owed, seen, made, during := SERVICES, {}, {}, {}, map[];
    }

    /** The hazard at a point between two effects; none while all is calm. */
    method Hazard(calm: bool) returns (o: Outcome)
      ensures o != Refused && (calm ==> o == Ok)
    {
      if calm { o := Ok; } else if * { o := Ok; } else if * { o := Raised; } else { o := Killed; }
    }

    method WriteOperation(j: Journal, calm: bool) returns (o: Outcome)
      modifies this`operations
      ensures o != Refused && (calm ==> o == Ok)
      ensures operations == old(operations) || operations == old(operations)[j.name := j]
      ensures o == Ok ==> operations == old(operations)[j.name := j]
    {
      o := Hazard(calm);
      if o != Ok { return; }
      operations := operations[j.name := j];
      o := Hazard(calm);
    }

    method SaveState(j: Journal, calm: bool) returns (o: Outcome)
      requires Covered() && owed <= Flags(j)
      modifies this`operations, this`active
      ensures Covered() && o != Refused && (calm ==> o == Ok)
      ensures operations == old(operations) || operations == old(operations)[j.name := j]
      ensures active == old(active) || (active == Some(j) && operations == old(operations)[j.name := j])
      ensures o == Ok ==> active == Some(j)
    {
      o := WriteOperation(j, calm);
      if o != Ok { return; }
      active := Some(j);
      o := Hazard(calm);
    }

    /** docker stop, and the look at the container afterwards; the journal must already own up to it. */
    method Stop(s: Service, calm: bool) returns (o: Outcome)
      requires Covered() && active.Some? && s in Flags(active.value) && (s == MINIO ==> BACKEND !in running)
      modifies this`running, this`owed
      ensures Covered() && o != Refused && owed <= old(owed) + {s} && running <= old(running)
      ensures (o == Ok ==> s !in running) && (calm ==> o == Ok)
    {
      o := Hazard(calm);
      if o != Ok { return; }
      var stopped: bool := *;
      if calm || stopped {
        running := running - {s};
        owed := owed + {s};
      }
      o := Hazard(calm);
      if o == Ok && s in running { o := Raised; }
    }

    method WaitHealthy(s: Service, polls: nat, calm: bool) returns (o: Outcome)
      requires Covered()
      modifies this`owed, this`seen
      ensures Covered() && o != Refused && owed <= old(owed)
      ensures o == Ok ==> s in running && s !in owed && seen == old(seen) + {s}
      ensures calm && s in old(running) ==> o == Ok
    {
      var left := polls;
      while true
        invariant Covered() && owed == old(owed) && seen == old(seen)
        decreases left
      {
        o := Hazard(calm);
        if o != Ok { return; }
        var reported: bool := *;
        if s in running && (calm || reported) {
          owed, seen := owed - {s}, seen + {s};
          return Ok;
        }
        if left == 0 { return Raised; }
        left := left - 1;
      }
    }

    method ResumeOne(s: Service, calm: bool) returns (o: Outcome)
      requires Covered() && (s == BACKEND ==> MINIO in running)
      modifies this`running, this`owed, this`seen
      ensures Covered() && o != Refused && owed <= old(owed) && old(running) <= running
      ensures o == Ok ==> s in running && s !in owed && seen == old(seen) + {s}
      ensures calm ==> o == Ok
    {
      o := Hazard(calm);
      if o != Ok { return; }
      if s !in running {
        var started: bool := *;
        if calm || started { running := running + {s}; }
        o := Hazard(calm); // a lost acknowledgement of the start is ignored
        if o == Killed { return; }
      }
      o := WaitHealthy(s, 45, calm);
    }

    /** state: the journal in memory, which may know of more stops than the one on disk. */
    method Resume(state: Journal, calm: bool) returns (o: Outcome)
      requires Covered() && active.Some? && owed <= Flags(state)
      modifies this`running, this`owed, this`seen, this`operations, this`active
      ensures Covered() && o != Refused && old(running) <= running && owed <= old(owed)
      // The journal goes only when all is up, everything that was stopped or depended upon has been seen healthy, and
      // the record says so.
      ensures active == old(active)
              || (active == None && owed == {} && running >= SERVICES && seen == Flags(state) + {DB, REDIS}
                                        && operations == old(operations)[state.name := state.(servicesResumed := true)])
      ensures o == Ok ==> active == None
      ensures calm ==> o == Ok
    {
      seen := {};
      if state.minioStopAttempted {
        o := ResumeOne(MINIO, calm);
        if o != Ok { return; }
      }
      o := WaitHealthy(DB, 7, calm);
      if o != Ok { return; }
      o := WaitHealthy(REDIS, 7, calm);
      if o != Ok { return; }
      if state.backendStopAttempted {
        o := ResumeOne(BACKEND, calm);
        if o != Ok { return; }
        o := Hazard(calm); // the HTTP health check
        if o != Ok { return; }
      }
      o := WriteOperation(state.(servicesResumed := true), calm);
      if o != Ok { return; }
      assert owed == {};
      active := None;
      o := Hazard(calm);
    }

    method Recover(calm: bool) returns (o: Outcome)
      requires Valid()
      modifies this`running, this`owed, this`seen, this`operations, this`active
      ensures Valid() && old(running) <= running
      ensures active == old(active)
              || (active == None && owed == {} && running >= SERVICES && seen == Flags(old(active).value) + {DB, REDIS})
      ensures o == Ok ==> active == None && running >= SERVICES
      ensures calm ==> o == Ok
      ensures o == Ok && old(active).Some? ==>
        var j := old(active).value; operations == old(operations)[j.name := j.(servicesResumed := true)]
    {
      hide Flags;
      hide Stored;
      if active == None {
        AllUp();
        return Ok;
      }
      o := Resume(active.value, calm);
    }

    // ---- Making a checkpoint ----

    method Write(name: string, f: File, calm: bool) returns (o: Outcome)
      modifies this`partials, this`during
      ensures during == old(during) || during == old(during)[f := running]
      ensures o == Ok ==> during == old(during)[f := running]
      ensures o != Refused && (calm && name in old(partials) ==> o == Ok)
      ensures o == Ok && name in old(partials) ==> name in partials && partials[name] == Added(old(partials[name]), f)
    {
      o := Hazard(calm);
      if o != Ok { return; }
      if name !in partials { return Raised; }
      partials := partials[name := Added(partials[name], f)];
      during := during[f := running];
      o := Hazard(calm);
    }

    /** Stops one service, with the intent on disk first. */
    method StopUnderJournal(s: Service, state: Journal, calm: bool) returns (o: Outcome)
      requires Covered() && active.Some? && s in Flags(state) && owed <= Flags(state)
               && (s == MINIO ==> BACKEND !in running)
      modifies this`operations, this`active, this`running, this`owed
      ensures Covered() && active.Some? && owed <= Flags(state) && o != Refused && running <= old(running)
      ensures (o == Ok ==> active == Some(state) && s !in running) && (calm ==> o == Ok)
    {
      o := SaveState(state, calm);
      if o != Ok { return; }
      o := Stop(s, calm);
    }

    method CopyData(start: Journal, calm: bool) returns (o: Outcome, state: Journal)
      requires Covered() && active.Some? && owed <= Flags(start)
      requires start.name in partials && partials[start.name] == Dir({CONFIGURATION_GZ}, None)
      modifies this`operations, this`active, this`partials, this`during
      ensures Covered() && active.Some? && Flags(state) == Flags(start) && state.name == start.name && o != Refused
      ensures o == Ok ==> during == Copied(old(during), running)
      ensures calm ==> o == Ok
      ensures o == Ok ==>
                state.name in partials && partials[state.name]
                    == Dir(ARTIFACTS - {MINIO_DATA_GZ} + {MINIO_DATA_TAR}, None)
    {
      hide Added;
      hide Flags;
      SameFlags(start, DATABASE);
      SameFlags(start, REDIS_SNAPSHOT);
      SameFlags(start, MINIO_FILES);
      state := start.(phase := DATABASE);
      o := SaveState(state, calm);
      if o != Ok { return; }
      o := Write(state.name, DATABASE_DUMP, calm);
      if o != Ok { return; }
      o := Write(state.name, DATABASE_GLOBALS, calm);
      if o != Ok { return; }
      state := state.(phase := REDIS_SNAPSHOT);
      o := SaveState(state, calm);
      if o != Ok { return; }
      o := Write(state.name, REDIS_RDB, calm);
      if o != Ok { return; }
      state := state.(phase := MINIO_FILES);
      o := SaveState(state, calm);
      if o != Ok { return; }
      o := Write(state.name, MINIO_DATA_TAR, calm);
      AllCopied();
    }

    /** The part of a run inside the try block, with the journal as it stands in memory at the end. */
    method StopAndCopy(start: Journal, calm: bool) returns (o: Outcome, state: Journal)
      requires Covered() && active == Some(start) && Flags(start) == {}
      requires start.name in partials && partials[start.name] == Dir({}, None)
      modifies this`operations, this`active, this`running, this`owed, this`partials, this`during
      ensures Covered() && active.Some? && owed <= Flags(state) && state.name == start.name && o != Refused
      ensures o == Ok ==>
                && Flags(state) == {BACKEND, MINIO} && Quiet(during)
                && CONFIGURATION_GZ in during && during[CONFIGURATION_GZ] == old(running)
      ensures calm ==> o == Ok
      ensures o == Ok ==>
                state.name in partials && partials[state.name]
                    == Dir(ARTIFACTS - {MINIO_DATA_GZ} + {MINIO_DATA_TAR}, None)
    {
      state := start;
      o := Write(state.name, CONFIGURATION_GZ, calm);
      if o != Ok { return; }
      state := state.(phase := STOP_BACKEND, backendStopAttempted := true);
      o := StopUnderJournal(BACKEND, state, calm);
      if o != Ok { return; }
      state := state.(phase := STOP_MINIO, minioStopAttempted := true);
      o := StopUnderJournal(MINIO, state, calm);
      if o != Ok { return; }
      OnlyDatabases();
      QuietCopies(during, running);
      hide Copied;
      hide Quiet;
      o, state := CopyData(state, calm);
    }

    /** Compression, verification, manifest, and the rename that publishes the checkpoint. */
    method Publish(state: Journal, entry: Entry, calm: bool) returns (o: Outcome)
      requires Stored(snapshots, trash, made) && state.name == entry.name
      requires forall x :: x in made ==> x.name != entry.name && x.completed < entry.completed
      requires entry.name in partials
               && partials[entry.name] == Dir(ARTIFACTS - {MINIO_DATA_GZ} + {MINIO_DATA_TAR}, None)
      modifies this`operations, this`partials, this`snapshots, this`made, this`during
      ensures Stored(snapshots, trash, made) && o != Refused && (calm ==> o == Ok)
      ensures o == Ok ==> during == old(during)[MINIO_DATA_GZ := running] && entry.name !in partials
      ensures operations == old(operations) || operations == old(operations)[state.name := state]
      ensures made == old(made) || (made == old(made) + {entry} && entry.name in snapshots)
      ensures o == Ok ==> made == old(made) + {entry} && entry.name in snapshots
    {
      hide Stored;
      o := WriteOperation(state, calm);
      if o != Ok { return; }
      o := Assemble(entry, calm);
      if o != Ok { return; }
      if !Whole(entry.name, partials[entry.name]) { return Refused; }
      PublishKeeps(snapshots, trash, made, entry, partials[entry.name]);
      snapshots := snapshots[entry.name := partials[entry.name]];
      partials := partials - {entry.name};
      made := made + {entry};
      o := Hazard(calm);
    }

    /** Compression and the manifest. */
    method Assemble(entry: Entry, calm: bool) returns (o: Outcome)
      requires entry.name in partials
               && partials[entry.name] == Dir(ARTIFACTS - {MINIO_DATA_GZ} + {MINIO_DATA_TAR}, None)
      modifies this`partials, this`during
      ensures o != Refused && (calm ==> o == Ok)
      ensures o == Ok ==>
                && entry.name in partials && partials[entry.name] == Dir(ARTIFACTS, Some(entry))
                && during == old(during)[MINIO_DATA_GZ := running]
    {
      o := Write(entry.name, MINIO_DATA_GZ, calm);
      if o != Ok { return; }
      Compressed();
      hide Added;
      partials := partials[entry.name := partials[entry.name].(files := partials[entry.name].files - {MINIO_DATA_TAR})];
      o := Hazard(calm);
      if o != Ok { return; }
      partials := partials[entry.name := partials[entry.name].(manifest := Some(entry))];
      o := Hazard(calm);
    }

    /** The maintenance window: services are stopped, copied from and resumed. copied tells how the copying went; unless
        it was killed, a calm resumption follows it to the end, whatever had failed. */
    method Maintain(start: Journal, calm: Calm) returns (o: Outcome, copied: Outcome, state: Journal)
      requires Covered() && active.None? && Flags(start) == {} && start.name in partials
               && partials[start.name] == Dir({}, None)
      modifies this`operations, this`active, this`running, this`owed, this`seen, this`partials, this`during
      ensures Covered() && o != Refused && copied != Refused && state.name == start.name
      ensures calm.starting && calm.resuming ==> o == if copied == Killed then Killed else Ok
      ensures calm.copying ==> copied == Ok
      ensures o == Ok && copied == Ok ==>
                && state.backendStopAttempted && state.minioStopAttempted && Quiet(during)
                && CONFIGURATION_GZ in during && during[CONFIGURATION_GZ] == SERVICES
      ensures o == Ok ==>
                active == None && copied != Killed && state.servicesResumed && seen == Flags(state) + {DB, REDIS}
                          && state.name in operations && operations[state.name] == state
      ensures o == Ok && copied == Ok ==>
                state.name in partials && partials[state.name]
                    == Dir(ARTIFACTS - {MINIO_DATA_GZ} + {MINIO_DATA_TAR}, None)
    {
      hide Flags;
      hide Quiet;
      state, copied := start, Ok;
      o := SaveState(state, calm.starting);
      if o != Ok { return; }
      copied, state := StopAndCopy(state, calm.copying);
      BothFlags(state);
      if copied == Killed { o := Killed; return; }
      SameFlags(state, RESUMING);
      state := state.(phase := RESUMING);
      o := SaveState(state, calm.resuming); // a failure here must not prevent the resumption
      if o == Killed { return; }
      o := Resume(state, calm.resuming);
      if o != Ok { return; }
      ResumedFlags(state);
      state := state.(servicesResumed := true);
      o := WriteOperation(state, calm.resuming);
    }

    /** One backup run, with the deploy lock held: any outcome leaves every stopped service covered and the directories
        sound; after a success all services are up, the journal is gone and exactly the retained checkpoints are there.
        A run that is calm throughout succeeds, and one that fails while copying but is calm then still brings the
        services back. */
    method RunBackup(name: string, entry: Entry, calm: Calm) returns (o: Outcome, retained: nat)
      requires Valid() && entry.name == name && name !in partials
      requires forall x :: x in made ==> x.name != name && x.completed < entry.completed
      modifies this
      ensures Valid() && o != Refused
      ensures made == old(made) || made == old(made) + {entry}
      ensures old(active).Some? ==>
                o == Raised && active == old(active) && running == old(running) && snapshots == old(snapshots)
      ensures old(active).None? && calm == Calm(true, true, true, true) ==> o == Ok
      ensures old(active).None? && calm.starting && calm.resuming && o != Killed ==>
                active == None && owed == {} && running >= SERVICES
      // On success both stops are on record, the copies were taken while only the databases ran, and the configuration
      // was saved before and the objects compressed after, with everything up.
      ensures o == Ok ==>
        && active == None && owed == {} && running >= SERVICES
        && name in operations && operations[name] == Journal(name, COMPLETE, true, true, true) && name !in partials
        && Quiet(during) && CONFIGURATION_GZ in during && MINIO_DATA_GZ in during
        && during[CONFIGURATION_GZ] == during[MINIO_DATA_GZ] == SERVICES
        && made == old(made) + {entry} && Present(snapshots) == Keep(made) && trash == map[]
           && retained == |Keep(made)| <= 8
    {
      hide Stored;
      hide Keep;
      hide Flags;
      hide Quiet;
      hide Covered;
      retained := 0;
      if active.Some? { o := Raised; return; }
      o := Hazard(calm.starting); // taking the inventory
      if o != Ok { return; }
      partials := partials[name := Dir({}, None)];
      o := Hazard(calm.starting);
      if o != Ok { return; }
      during := map[];
      var copied, state;
      NoFlags(name);
      o, copied, state := Maintain(Journal(name, CONFIGURATION, false, false, false), calm);
      if o != Ok { return; }
      AllUp();
      if copied != Ok { o := copied; return; }
      QuietStill(during, running);
      o, retained := PublishAndPrune(state, entry, calm.finishing);
    }

    lemma AllUp()
      requires Covered() && active.None?
      ensures owed == {} && running == SERVICES
    {
      assert owed == {};
      forall s: Service ensures s in running <==> s in SERVICES {
        assert s in SERVICES - running ==> s in owed;
      }
    }

    /** Nothing but the backend and the object store can be down. */
    lemma OnlyDatabases()
      requires Covered() && BACKEND !in running && MINIO !in running
      ensures running == {DB, REDIS}
    {
      forall s: Service ensures s in running <==> s in {DB, REDIS} {
        assert s in SERVICES - running ==> s in owed;
        assert active.Some? ==> (s in Flags(active.value) ==> s == BACKEND || s == MINIO);
      }
    }

    /** What follows the maintenance window. */
    method PublishAndPrune(state: Journal, entry: Entry, calm: bool) returns (o: Outcome, retained: nat)
      requires Stored(snapshots, trash, made) && state.name == entry.name && state.servicesResumed
      requires forall x :: x in made ==> x.name != entry.name && x.completed < entry.completed
      requires entry.name in partials
               && partials[entry.name] == Dir(ARTIFACTS - {MINIO_DATA_GZ} + {MINIO_DATA_TAR}, None)
      modifies this`operations, this`partials, this`snapshots, this`made, this`trash, this`during
      ensures Stored(snapshots, trash, made) && o != Refused && (calm ==> o == Ok)
      ensures made == old(made) || made == old(made) + {entry}
      ensures o == Ok ==>
        && entry.name in operations && operations[entry.name] == state.(phase := COMPLETE) && entry.name !in partials
        && during == old(during)[MINIO_DATA_GZ := running]
        && made == old(made) + {entry} && Present(snapshots) == Keep(made) && trash == map[]
           && retained == |Keep(made)| <= 8
    {
      hide Stored;
      hide Keep;
      retained := 0;
      o := Publish(state.(phase := VERIFYING), entry, calm);
      if o != Ok { return; }
      o := WriteOperation(state.(phase := COMPLETE), calm);
      if o != Ok { return; }
      NewestIn(made, entry);
      o, retained := Prune(entry.name, calm);
    }

    // ---- Pruning ----

    /** Clearing what is left of one dropped checkpoint, however much of it an earlier attempt already removed. */
    method ClearTrash(name: string, calm: bool) returns (o: Outcome)
      requires name in trash && forall n :: n in trash ==> Leftover(n, trash[n])
      modifies this`trash
      ensures forall n :: n in trash ==> Leftover(n, trash[n])
      ensures trash.Keys <= old(trash).Keys && trash.Keys >= old(trash).Keys - {name}
      ensures o != Refused && (o == Ok ==> name !in trash) && (calm ==> o == Ok)
    {
      if trash[name].files == {} && trash[name].manifest.None? {
        o := Hazard(calm);
        if o != Ok { return; }
        trash := trash - {name};
        return;
      }
      var entries := trash[name].files;
      if trash[name].manifest.None? || trash[name].manifest.value.name != name || !(entries <= ARTIFACTS) {
        return Refused;
      }
      while entries != {}
        invariant name in trash && trash[name].files == entries <= ARTIFACTS
                  && trash[name].manifest == old(trash)[name].manifest
        invariant trash.Keys == old(trash).Keys && forall n :: n in trash ==> Leftover(n, trash[n])
        decreases |entries|
      {
        o := Hazard(calm);
        if o != Ok { return; }
        var f :| f in entries;
        entries := entries - {f};
        trash := trash[name := trash[name].(files := entries)];
      }
      o := Hazard(calm);
      if o != Ok { return; }
      trash := trash[name := trash[name].(manifest := None)];
      o := Hazard(calm);
      if o != Ok { return; }
      trash := trash - {name};
      o := Hazard(calm);
    }

    /** snapshots/ as the directory lists it. */
    method ListSnapshots() returns (manifests: seq<Entry>)
      requires forall n :: n in snapshots ==> Whole(n, snapshots[n])
      ensures Elements(manifests) == Present(snapshots)
    {
      manifests := [];
      var left := snapshots.Keys;
      while left != {}
        invariant left <= snapshots.Keys
        invariant forall e :: e in manifests
                              <==> exists n :: n in snapshots.Keys - left && snapshots[n].manifest.value == e
        decreases |left|
      {
        var n :| n in left;
        left := left - {n};
        var before := manifests;
        manifests := manifests + [snapshots[n].manifest.value];
        forall e
          ensures e in manifests <==> exists m :: m in snapshots.Keys - left && snapshots[m].manifest.value == e
        {
          assert e in manifests <==> e in before || e == snapshots[n].manifest.value;
          if e in before {
            var m :| m in snapshots.Keys - (left + {n}) && snapshots[m].manifest.value == e;
            assert m in snapshots.Keys - left;
          }
          assert n in snapshots.Keys - left;
        }
      }
    }

    /** Moves every checkpoint whose name is not kept to the trash, one rename at a time. */
    method MoveDropped(manifests: seq<Entry>, keep: set<string>, calm: bool) returns (o: Outcome)
      requires Stored(snapshots, trash, made) && keep == Names(Keep(made)) && Elements(manifests) == Present(snapshots)
      modifies this`snapshots, this`trash
      ensures Stored(snapshots, trash, made) && o != Refused && (calm ==> o == Ok)
      ensures o == Ok ==> Present(snapshots) <= Keep(made)
    {
      hide Keep;
      hide Names;
      hide Separate;
      ghost var present := Present(snapshots);
      PresentMade(snapshots, trash, made);
      o := Ok;
      for i := 0 to |manifests|
        invariant Stored(snapshots, trash, made) && Present(snapshots) <= present && o == Ok
        invariant forall j :: 0 <= j < i ==> (manifests[j] in Present(snapshots) ==> manifests[j] in Keep(made))
      {
        var e := manifests[i];
        assert e in Elements(manifests);
        if e.name !in keep && e.name in snapshots {
          o := Hazard(calm);
          if o != Ok { return; }
          DropKeeps(snapshots, trash, made, e);
          trash := trash[e.name := snapshots[e.name]];
          snapshots := snapshots - {e.name};
        }
        KeptOrGone(snapshots, trash, made, e);
      }
      forall e | e in Present(snapshots) ensures e in Keep(made) {
        var j :| 0 <= j < |manifests| && manifests[j] == e;
      }
    }

    method Prune(newest: string, calm: bool) returns (o: Outcome, retained: nat)
      requires Stored(snapshots, trash, made)
      requires exists e :: e in made && e.name == newest && forall x :: x in made ==> x.completed <= e.completed
      modifies this`snapshots, this`trash
      ensures Stored(snapshots, trash, made) && o != Refused && (calm ==> o == Ok)
      ensures o == Ok ==> Present(snapshots) == Keep(made) && trash == map[] && retained == |Keep(made)| <= 8
    {
      hide Keep;
      hide Names;
      hide Separate;
      retained := 0;
      o := Hazard(calm); // reading and hashing every checkpoint
      if o != Ok { return; }
      var manifests := ListSnapshots();
      KeepOfPresent(snapshots, trash, made);
      var keep := RetentionKeep(manifests);
      NewestKept(made, newest);
      if newest !in keep { o := Refused; return; }
      o := MoveDropped(manifests, keep, calm);
      if o != Ok { return; }
      PresentKept(snapshots, trash, made);
      o := EmptyTrash(calm);
      KeepAtMostEight(made);
      NamesCount(made, Keep(made));
      retained := |keep|;
    }

    method EmptyTrash(calm: bool) returns (o: Outcome)
      requires Stored(snapshots, trash, made)
      modifies this`trash
      ensures Stored(snapshots, trash, made) && o != Refused && (calm ==> o == Ok)
      ensures o == Ok ==> trash == map[]
    {
      hide Keep;
      hide Separate;
      o := Ok;
      while trash != map[]
        invariant Stored(snapshots, trash, made) && o == Ok
        decreases |trash.Keys|
      {
        var name :| name in trash;
        ghost var before := trash.Keys;
        o := ClearTrash(name, calm);
        if o != Ok { return; }
        assert trash.Keys == before - {name};
      }
    }
  }

  lemma Compressed()
    ensures Added(Dir(ARTIFACTS - {MINIO_DATA_GZ} + {MINIO_DATA_TAR}, None), MINIO_DATA_GZ).files - {MINIO_DATA_TAR}
            == ARTIFACTS
    ensures Added(Dir(ARTIFACTS - {MINIO_DATA_GZ} + {MINIO_DATA_TAR}, None), MINIO_DATA_GZ).manifest == None
  {
  }

  function Copied(during: map<File, set<Service>>, running: set<Service>): map<File, set<Service>> {
    during[DATABASE_DUMP := running][DATABASE_GLOBALS := running][REDIS_RDB := running][MINIO_DATA_TAR := running]
  }

  lemma QuietStill(during: map<File, set<Service>>, running: set<Service>)
    requires Quiet(during)
    ensures Quiet(during[MINIO_DATA_GZ := running])
  {
  }

  lemma QuietCopies(during: map<File, set<Service>>, running: set<Service>)
    requires running == {DB, REDIS}
    ensures Quiet(Copied(during, running))
    ensures CONFIGURATION_GZ in during ==>
              && CONFIGURATION_GZ in Copied(during, running)
              && Copied(during, running)[CONFIGURATION_GZ] == during[CONFIGURATION_GZ]
  {
  }

  lemma AllCopied()
    ensures Added(Added(Added(Added(Dir({CONFIGURATION_GZ}, None), DATABASE_DUMP), DATABASE_GLOBALS), REDIS_RDB),
                  MINIO_DATA_TAR)
            == Dir(ARTIFACTS - {MINIO_DATA_GZ} + {MINIO_DATA_TAR}, None)
  {
  }

  lemma KeptOrGone(snapshots: map<string, Dir>, trash: map<string, Dir>, made: set<Entry>, e: Entry)
    requires Stored(snapshots, trash, made) && e in made && (e.name in Names(Keep(made)) || e.name !in snapshots)
    ensures e in Present(snapshots) ==> e in Keep(made)
  {
    hide Keep;
    KeepSubset(made);
    if e in Present(snapshots) {
      var n :| n in snapshots && snapshots[n].manifest.Some? && snapshots[n].manifest.value == e;
      assert Whole(n, snapshots[n]);
    }
  }

  lemma PresentMade(snapshots: map<string, Dir>, trash: map<string, Dir>, made: set<Entry>)
    requires Stored(snapshots, trash, made)
    ensures Present(snapshots) <= made
  {
  }

  lemma PresentKept(snapshots: map<string, Dir>, trash: map<string, Dir>, made: set<Entry>)
    requires Stored(snapshots, trash, made) && Present(snapshots) <= Keep(made)
    ensures Present(snapshots) == Keep(made) && Separate(made)
  {
  }

  /** Names tell checkpoints apart. */
  lemma {:induction false} NamesCount(made: set<Entry>, part: set<Entry>)
    requires Separate(made) && part <= made
    ensures |Names(part)| == |part|
    decreases |part|
  {
    if part != {} {
      var e :| e in part;
      NamesCount(made, part - {e});
      assert Names(part) == Names(part - {e}) + {e.name};
      assert e.name !in Names(part - {e});
    } else {
      assert Names(part) == {};
    }
  }

  lemma NoFlags(name: string)
    ensures Flags(Journal(name, CONFIGURATION, false, false, false)) == {}
  {
  }

  lemma BothFlags(j: Journal)
    ensures Flags(j) == {BACKEND, MINIO} <==> j.backendStopAttempted && j.minioStopAttempted
  {
  }

  lemma ResumedFlags(j: Journal)
    ensures Flags(j.(servicesResumed := true)) == Flags(j)
  {
  }

  lemma SameFlags(j: Journal, phase: Phase)
    ensures Flags(j.(phase := phase)) == Flags(j)
  {
  }

  lemma NewestIn(made: set<Entry>, entry: Entry)
    requires entry in made && forall x :: x in made && x != entry ==> x.completed < entry.completed
    ensures exists e :: e in made && e.name == entry.name && forall x :: x in made ==> x.completed <= e.completed
  {
    assert forall x :: x in made ==> x.completed <= entry.completed;
  }

  lemma KeepSubset(made: set<Entry>)
    ensures Keep(made) <= made
  {
  }

  /** The names kept of the checkpoints that are there are those the rule keeps of all ever made. */
  lemma KeepOfPresent(snapshots: map<string, Dir>, trash: map<string, Dir>, made: set<Entry>)
    requires Stored(snapshots, trash, made)
    ensures Separate(Present(snapshots)) && Keep(Present(snapshots)) == Keep(made)
  {
    hide Keep;
    KeepBetween(made, Present(snapshots));
  }

  lemma NewestKept(made: set<Entry>, newest: string)
    requires exists e :: e in made && e.name == newest && forall x :: x in made ==> x.completed <= e.completed
    ensures newest in Names(Keep(made))
  {
    var e :| e in made && e.name == newest && forall x :: x in made ==> x.completed <= e.completed;
    assert LaterDates(made, e) == {};
    assert e in Keep(made);
  }

  lemma DropKeeps(snapshots: map<string, Dir>, trash: map<string, Dir>, made: set<Entry>, e: Entry)
    requires Stored(snapshots, trash, made) && e in made && e.name in snapshots && e.name !in Names(Keep(made))
    ensures Stored(snapshots - {e.name}, trash[e.name := snapshots[e.name]], made)
    ensures Present(snapshots - {e.name}) == Present(snapshots) - {e}
  {
    hide Keep;
    var after := snapshots - {e.name};
    KnownNames(snapshots, made);
    forall x ensures x in Present(after) <==> x in Present(snapshots) && x != e {
      if x in Present(snapshots) && x != e {
        var n :| n in snapshots && snapshots[n].manifest.Some? && snapshots[n].manifest.value == x;
        assert n in after && after[n] == snapshots[n];
      }
      if x in Present(after) {
        var n :| n in after && after[n].manifest.Some? && after[n].manifest.value == x;
        assert n in snapshots && after[n] == snapshots[n];
      }
    }
    assert Present(after) == Present(snapshots) - {e};
    KeptName(made, e);
  }

  lemma KeptName(made: set<Entry>, e: Entry)
    ensures e in Keep(made) ==> e.name in Names(Keep(made))
  {
  }

  lemma KnownNames(snapshots: map<string, Dir>, made: set<Entry>)
    requires (forall n :: n in snapshots ==> Whole(n, snapshots[n])) && Present(snapshots) <= made
    ensures forall n :: n in snapshots ==>
      snapshots[n].manifest.Some? && snapshots[n].manifest.value in made && snapshots[n].manifest.value.name == n
  {
    forall n | n in snapshots ensures snapshots[n].manifest.Some? && snapshots[n].manifest.value in made {
      assert Whole(n, snapshots[n]);
      assert snapshots[n].manifest.value in Present(snapshots);
    }
  }

  lemma SeparateNewer(made: set<Entry>, entry: Entry)
    requires Separate(made) && forall x :: x in made ==> x.name != entry.name && x.completed < entry.completed
    ensures Separate(made + {entry})
  {
  }

  lemma PublishKeeps(snapshots: map<string, Dir>, trash: map<string, Dir>, made: set<Entry>, entry: Entry, dir: Dir)
    requires Stored(snapshots, trash, made) && Whole(entry.name, dir) && dir.manifest == Some(entry)
    requires forall x :: x in made ==> x.name != entry.name && x.completed < entry.completed
    ensures Stored(snapshots[entry.name := dir], trash, made + {entry})
    ensures Present(snapshots[entry.name := dir]) == Present(snapshots) + {entry}
  {
    hide Keep;
    hide Separate;
    var after := snapshots[entry.name := dir];
    KeepWithNewer(made, entry);
    SeparateNewer(made, entry);
    KnownNames(snapshots, made);
    forall e ensures e in Present(after) <==> e in Present(snapshots) || e == entry {
      if e in Present(snapshots) {
        var n :| n in snapshots && snapshots[n].manifest.Some? && snapshots[n].manifest.value == e;
        assert n in after && after[n] == snapshots[n];
      }
      if e == entry {
        assert entry.name in after && after[entry.name] == dir;
      }
      if e in Present(after) {
        var n :| n in after && after[n].manifest.Some? && after[n].manifest.value == e;
        assert n == entry.name || (n in snapshots && after[n] == snapshots[n]);
      }
    }
    assert Present(after) == Present(snapshots) + {entry};
  }
}

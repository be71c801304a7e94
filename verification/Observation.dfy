/** The paged observer of the upload journal, against the one-query summary of the same journal. */
module Observation {
  import opened Prelude
  import opened IntentClassifier
  import opened DocumentStorage

  type Journal = seq<ObservedIntent>   // the audit log, with the details as stored
  type References = string -> ReferenceFacts

  datatype Cursor = Cursor(afterId: int, throughId: Option<int>)
  const START := Cursor(0, None)

  /** The log in key order; identifiers are assigned from 1 up. */
  ghost predicate Ordered(j: Journal) {
    && (forall i :: 0 <= i < |j| ==> PositiveId(j[i].id))
    && (forall a, b :: 0 <= a < b < |j| ==> j[a].id < j[b].id)
  }

  /** A grouped query returns a group only for rows that exist, and then with both portraits. */
  ghost predicate Grouped(refs: References) {
    forall k :: var f := refs(k); if f.count == 0 then f == NO_REFERENCES
      else f.firstPortraitId.Some? && f.lastPortraitId.Some?
  }

  predicate Technical(row: ObservedIntent) {
    row.action == "DOCUMENT_STORAGE_PENDING"
        && (row.entityType == "DocumentStorageIntent" || row.entityType == "StudentPortrait")
  }

  // ---- The query's projection of details, and the summary's reading of the stored details ----

  function TextOfLength(j: Option<Json>, n: nat): Json {
    if j.Some? && j.value.Str? && |j.value.s| == n then j.value else Null
  }

  predicate Positive(j: Option<Json>) {
    j.Some? && j.value.Number? && 1.0 <= j.value.n <= MAX_SAFE_INTEGER as real && j.value.n.Floor as real == j.value.n
  }

  function ProjectedId(j: Option<Json>): Json {
    if Positive(j) then Number(j.value.n.Floor as real) else Null
  }

  /** details #> '{recovery,name}' */
  function RecoveryField(d: Json, name: string): Option<Json> {
    var recovery := Field(d, "recovery");
    if recovery.Some? then Field(recovery.value, name) else None
  }

  /** The bounded fields that the observer fetches. */
  function Project(d: Json): Json {
    if !d.Obj? then Null
    else
      var documentId := Field(d, "documentId");
      var fenced, reason := RecoveryField(d, "deleteFenced"), RecoveryField(d, "manualReason");
      Obj(map[
        "operationId" := TextOfLength(Field(d, "operationId"), 36),
        "fileKey" := TextOfLength(Field(d, "fileKey"), 46),
        "studentPortraitId" := ProjectedId(Field(d, "studentPortraitId")),
        "ownerUserId" := ProjectedId(Field(d, "ownerUserId")),
        "documentId" := if documentId == Some(Null) then Null else if Positive(documentId) then ProjectedId(documentId)
          else Str("invalid"),
        "state" := if StateIn(d).Some? then Str(StateName(StateIn(d).value)) else Null,
        "recovery" := Obj(map[
          "deleteFenced" := if fenced.Some? then Bool(fenced == Some(Bool(true))) else Null,
          "manualReason" := if reason.Some? && reason.value.Str? then Str("present") else Null])])
  }

  predicate SqlValid(row: ObservedIntent) {
    var d := row.details;
    && row.id > 0 && row.createdAt.Finite? && d.Obj?
    && (var op := Field(d, "operationId"); op.Some? && op.value.Str? && Uuid(op.value.s))
    && ObservedPrivateKey(d).Some?
    && Positive(Field(d, "studentPortraitId")) && Field(d, "studentPortraitId").value.n == row.entityId as real
    && Positive(Field(d, "ownerUserId"))
    && (Field(d, "documentId") == Some(Null) || Positive(Field(d, "documentId")))
    && StateIn(d).Some?
  }

  function FactsFor(refs: References, key: Option<string>): ReferenceFacts {
    if key.Some? then refs(key.value) else NO_REFERENCES
  }

  /** The summary's "unresolved" flag of one technical row. */
  predicate SqlUnresolved(row: ObservedIntent, refs: References) {
    !SqlValid(row) ||
    var d := row.details;
    var f := FactsFor(refs, ObservedPrivateKey(d));
    var portrait := Field(d, "studentPortraitId");
    var state := StateIn(d);
    || (f.count > 0 && (!IsPortrait(f.firstPortraitId, portrait) || !IsPortrait(f.lastPortraitId, portrait)))
    || state == Some(PENDING) || state == Some(ROLLED_BACK)
    || (state == Some(COMMITTED) && f.count == 0)
    || (state == Some(CLEANED) && f.count > 0)
    || (Field(d, "recovery").Some? && Field(d, "recovery").value.Obj?
        && (RecoveryField(d, "deleteFenced") == Some(Bool(true))
            || (RecoveryField(d, "manualReason").Some? && RecoveryField(d, "manualReason").value.Str?)))
  }

  /** What the observer makes of a row: it fetches the projection and classifies that. */
  function CategoryOf(row: ObservedIntent, refs: References, now: int, staleAfterMs: int): Category {
    var seen := row.(details := Project(row.details));
    ClassifyIntent(seen, FactsFor(refs, ObservedPrivateKey(seen.details)), now, staleAfterMs)
  }

  predicate Settled(c: Category) {
    c == COMMITTED_REFERENCED || c == CLEANED_TERMINAL
  }

  lemma ProjectionFields(d: Json)
    requires d.Obj?
    ensures Field(Project(d), "operationId") == Some(TextOfLength(Field(d, "operationId"), 36))
    ensures Field(Project(d), "fileKey") == Some(TextOfLength(Field(d, "fileKey"), 46))
    ensures Field(Project(d), "studentPortraitId") == Some(ProjectedId(Field(d, "studentPortraitId")))
    ensures Field(Project(d), "ownerUserId") == Some(ProjectedId(Field(d, "ownerUserId")))
    ensures Field(Project(d), "documentId") == Some(if Field(d, "documentId") == Some(Null) then Null
                                                    else if Positive(Field(d, "documentId"))
                                                      then ProjectedId(Field(d, "documentId")) else Str("invalid"))
  {
    hide TextOfLength;
    hide ProjectedId;
    hide Positive;
    hide StateIn;
  }

  lemma ProjectionState(d: Json)
    requires d.Obj?
    ensures StateIn(Project(d)) == StateIn(d)
    ensures ObservedPrivateKey(Project(d)) == ObservedPrivateKey(d)
  {
    hide ProjectedId;
    hide Positive;
    assert Field(Project(d), "state") == Some(if StateIn(d).Some? then Str(StateName(StateIn(d).value)) else Null);
  }

  lemma ProjectionRecovery(d: Json)
    requires d.Obj?
    ensures RecoveryFlagged(Project(d)) == RecoveryFlagged(d)
  {
    var recovery := Project(d).fields["recovery"];
    assert Field(Project(d), "recovery") == Some(recovery) && recovery.Obj?;
    var fenced, reason := RecoveryField(d, "deleteFenced"), RecoveryField(d, "manualReason");
    assert Field(recovery, "deleteFenced") == Some(if fenced.Some? then Bool(fenced == Some(Bool(true))) else Null);
    assert Field(recovery, "manualReason") == Some(if reason.Some? && reason.value.Str? then Str("present") else Null);
  }

  /** The projection loses nothing that validity depends on. */
  lemma ProjectionKeepsValidity(row: ObservedIntent)
    requires Technical(row) && PositiveId(row.id)
    ensures ValidIntent(row.(details := Project(row.details))) == SqlValid(row)
  {
    if row.details.Obj? {
      ProjectionFields(row.details);
      ProjectionState(row.details);
    }
  }

  /** Row by row, the observer leaves a row out of the two settled categories exactly when the summary calls it
      unresolved. */
  lemma ObserverAgreesWithSummary(row: ObservedIntent, refs: References, now: int, staleAfterMs: int)
    requires Technical(row) && PositiveId(row.id) && Grouped(refs)
    ensures Settled(CategoryOf(row, refs, now, staleAfterMs)) <==> !SqlUnresolved(row, refs)
  {
    ProjectionKeepsValidity(row);
    if SqlValid(row) {
      ProjectionFields(row.details);
      ProjectionState(row.details);
      ProjectionRecovery(row.details);
      var portrait := Field(row.details, "studentPortraitId");
      assert Field(Project(row.details), "studentPortraitId") == portrait;
    }
  }

  // ---- Pages and sweeps ----

  function TechnicalRows(j: Journal): seq<ObservedIntent> {
    if j == [] then [] else if Technical(j[0]) then [j[0]] + TechnicalRows(j[1..]) else TechnicalRows(j[1..])
  }

  /** The rows with after < id <= through, in key order. */
  function Between(rows: seq<ObservedIntent>, after: int, through: int): seq<ObservedIntent> {
    if rows == [] then []
    else if after < rows[0].id <= through then [rows[0]] + Between(rows[1..], after, through)
    else Between(rows[1..], after, through)
  }

  function MaxId(j: Journal): int {
    if j == [] then 0 else j[|j| - 1].id
  }

  function ThroughId(j: Journal, c: Cursor): int {
    if c.throughId.Some? then c.throughId.value else MaxId(j)
  }

  /** What is still to be visited from a cursor. */
  function Ahead(j: Journal, c: Cursor): seq<ObservedIntent> {
    Between(TechnicalRows(j), c.afterId, ThroughId(j, c))
  }

  function Page(j: Journal, c: Cursor, limit: nat): (rows: seq<ObservedIntent>)
    ensures |rows| <= limit
  {
    var all := Ahead(j, c);
    if |all| <= limit then all else all[..limit]
  }

  function NextCursor(j: Journal, c: Cursor, limit: nat): Cursor
    requires limit >= 1
  {
    var rows := Page(j, c, limit);
    if |rows| < limit then START else Cursor(rows[|rows| - 1].id, Some(ThroughId(j, c)))
  }

  lemma {:induction false} TechnicalOrdered(j: Journal)
    requires Ordered(j)
    ensures Ordered(TechnicalRows(j))
    ensures forall r :: r in TechnicalRows(j) ==> r in j && Technical(r)
  {
    if j != [] {
      TechnicalOrdered(j[1..]);
      var rest := TechnicalRows(j[1..]);
      forall k | 0 <= k < |rest| ensures j[0].id < rest[k].id {
        assert rest[k] in j[1..];
      }
      assert forall r :: r in j[1..] ==> r in j;
    }
  }

  lemma {:induction false} BetweenMembers(rows: seq<ObservedIntent>, after: int, through: int)
    ensures forall r :: r in Between(rows, after, through) ==> r in rows && after < r.id <= through
  {
    if rows != [] {
      BetweenMembers(rows[1..], after, through);
    }
  }

  /** Starting over after the k-th row leaves out exactly the first k rows. */
  lemma {:induction false} BetweenAfter(rows: seq<ObservedIntent>, after: int, through: int, k: nat)
    requires Ordered(rows) && 0 < k <= |Between(rows, after, through)|
    ensures Between(rows, Between(rows, after, through)[k - 1].id, through) == Between(rows, after, through)[k..]
    decreases |rows|
  {
    var all, rest := Between(rows, after, through), Between(rows[1..], after, through);
    BetweenMembers(rows[1..], after, through);
    if after < rows[0].id <= through && k == 1 {
      BetweenSame(rows[1..], rows[0].id, after, through);
      assert all[1..] == rest;
    } else {
      var n := if after < rows[0].id <= through then k - 1 else k;
      BetweenAfter(rows[1..], after, through, n);
      assert rest[n - 1] in rows[1..];
      assert all[k - 1] == rest[n - 1] && all[k..] == rest[n..];
    }
  }

  lemma {:induction false} BetweenSame(rows: seq<ObservedIntent>, a: int, b: int, through: int)
    requires forall r :: r in rows ==> r.id > a && r.id > b
    ensures Between(rows, a, through) == Between(rows, b, through)
  {
    if rows != [] {
      assert rows[0] in rows;
      BetweenSame(rows[1..], a, b, through);
    }
  }

  lemma NextPage(j: Journal, c: Cursor, limit: nat)
    requires Ordered(j) && limit >= 1 && |Page(j, c, limit)| == limit
    ensures Ahead(j, NextCursor(j, c, limit)) == Ahead(j, c)[limit..]
  {
    TechnicalOrdered(j);
    BetweenAfter(TechnicalRows(j), c.afterId, ThroughId(j, c), limit);
  }

  /** The pages that repeated calls visit from a cursor until they come back to the start. */
  function Sweep(j: Journal, c: Cursor, limit: nat): (pages: seq<seq<ObservedIntent>>)
    requires Ordered(j) && limit >= 1
    decreases |Ahead(j, c)|
  {
    var rows := Page(j, c, limit);
    if |rows| < limit then [rows]
    else
      NextPage(j, c, limit);
      [rows] + Sweep(j, NextCursor(j, c, limit), limit)
  }

  function Flatten<T>(pages: seq<seq<T>>): seq<T> {
    if pages == [] then [] else pages[0] + Flatten(pages[1..])
  }

  /** A page is the first part of what is ahead; a short page is all of it. */
  lemma PageIsAhead(j: Journal, c: Cursor, limit: nat)
    requires limit >= 1
    ensures |Page(j, c, limit)| <= limit
    ensures if |Page(j, c, limit)| < limit then Page(j, c, limit) == Ahead(j, c)
            else |Ahead(j, c)| >= limit && Page(j, c, limit) == Ahead(j, c)[..limit]
  {
    hide Ahead;
  }

  /** On an unchanging journal a sweep visits every technical row exactly once, in key order, at most limit at a
      time. */
  lemma {:induction false} SweepVisitsOnce(j: Journal, c: Cursor, limit: nat)
    requires Ordered(j) && limit >= 1
    ensures Flatten(Sweep(j, c, limit)) == Ahead(j, c)
    ensures forall p :: p in Sweep(j, c, limit) ==> |p| <= limit
    decreases |Ahead(j, c)|
  {
    hide Ordered;
    hide Ahead;
    hide Page;
    hide NextCursor;
    PageIsAhead(j, c, limit);
    var rows := Page(j, c, limit);
    if |rows| < limit {
      assert Flatten([rows]) == rows + Flatten<ObservedIntent>([]);
    } else {
      var next := NextCursor(j, c, limit);
      NextPage(j, c, limit);
      SweepVisitsOnce(j, next, limit);
      assert Sweep(j, c, limit)[1..] == Sweep(j, next, limit);
      assert Ahead(j, c) == Ahead(j, c)[..limit] + Ahead(j, c)[limit..];
    }
  }

  lemma SweepFromStart(j: Journal, limit: nat)
    requires Ordered(j) && limit >= 1
    ensures Flatten(Sweep(j, START, limit)) == TechnicalRows(j)
    ensures forall p :: p in Sweep(j, START, limit) ==> |p| <= limit
  {
    hide Sweep;
    SweepVisitsOnce(j, START, limit);
    AheadOfStart(j);
  }

  lemma AheadOfStart(j: Journal)
    requires Ordered(j)
    ensures Ahead(j, START) == TechnicalRows(j)
  {
    TechnicalOrdered(j);
    forall r | r in TechnicalRows(j) ensures 0 < r.id <= MaxId(j) {
      assert r in j;
    }
    AllBetween(TechnicalRows(j), MaxId(j));
  }

  lemma {:induction false} AllBetween(rows: seq<ObservedIntent>, through: int)
    requires forall r :: r in rows ==> 0 < r.id <= through
    ensures Between(rows, 0, through) == rows
  {
    if rows != [] {
      assert rows[0] in rows;
      AllBetween(rows[1..], through);
    }
  }

  // ---- Tallies ----

  /** How many rows the observer puts in one of the categories. */
  function Tally(rows: seq<ObservedIntent>, c: Category, refs: References, now: int, staleAfterMs: int): nat {
    if rows == [] then 0
    else
      (if CategoryOf(rows[0], refs, now, staleAfterMs) == c then 1 else 0)
      + Tally(rows[1..], c, refs, now, staleAfterMs)
  }

  /** count(*) FILTER (WHERE unresolved) */
  function UnresolvedCount(rows: seq<ObservedIntent>, refs: References): nat {
    if rows == [] then 0 else (if SqlUnresolved(rows[0], refs) then 1 else 0) + UnresolvedCount(rows[1..], refs)
  }

  lemma {:induction false} TallyAppend(a: seq<ObservedIntent>, b: seq<ObservedIntent>, c: Category, refs: References,
                                       now: int, staleAfterMs: int)
    ensures Tally(a + b, c, refs, now, staleAfterMs) == Tally(a, c, refs, now, staleAfterMs)
            + Tally(b, c, refs, now, staleAfterMs)
  {
    if a == [] {
      assert a + b == b;
    } else {
      assert (a + b)[1..] == a[1..] + b;
      TallyAppend(a[1..], b, c, refs, now, staleAfterMs);
    }
  }

  function SweepTally(pages: seq<seq<ObservedIntent>>, c: Category, refs: References, now: int,
                      staleAfterMs: int): nat {
    if pages == [] then 0
    else
      Tally(pages[0], c, refs, now, staleAfterMs)
      + SweepTally(pages[1..], c, refs, now, staleAfterMs)
  }

  lemma {:induction false} SweepTallyFlat(pages: seq<seq<ObservedIntent>>, c: Category, refs: References, now: int,
                                          staleAfterMs: int)
    ensures SweepTally(pages, c, refs, now, staleAfterMs) == Tally(Flatten(pages), c, refs, now, staleAfterMs)
  {
    if pages != [] {
      SweepTallyFlat(pages[1..], c, refs, now, staleAfterMs);
      TallyAppend(pages[0], Flatten(pages[1..]), c, refs, now, staleAfterMs);
    }
  }

  lemma {:induction false} UnsettledAreUnresolved(rows: seq<ObservedIntent>, refs: References, now: int,
                                                  staleAfterMs: int)
    requires Grouped(refs) && forall r :: r in rows ==> Technical(r) && PositiveId(r.id)
    ensures |rows| - Tally(rows, COMMITTED_REFERENCED, refs, now, staleAfterMs) - Tally(rows, CLEANED_TERMINAL, refs,
            now, staleAfterMs)
            == UnresolvedCount(rows, refs)
  {
    if rows != [] {
      assert rows[0] in rows;
      ObserverAgreesWithSummary(rows[0], refs, now, staleAfterMs);
      UnsettledAreUnresolved(rows[1..], refs, now, staleAfterMs);
    }
  }

  /** A sweep's total, less the two settled categories, is the summary's unresolved count. */
  lemma SweepMatchesSummary(j: Journal, refs: References, limit: nat, now: int, staleAfterMs: int)
    requires Ordered(j) && Grouped(refs) && limit >= 1
    ensures var pages := Sweep(j, START, limit);
            |Flatten(pages)| - SweepTally(pages, COMMITTED_REFERENCED, refs, now, staleAfterMs)
              - SweepTally(pages, CLEANED_TERMINAL, refs, now, staleAfterMs)
            == UnresolvedCount(TechnicalRows(j), refs)
  {
    var pages := Sweep(j, START, limit);
    SweepFromStart(j, limit);
    SweepTallyFlat(pages, COMMITTED_REFERENCED, refs, now, staleAfterMs);
    SweepTallyFlat(pages, CLEANED_TERMINAL, refs, now, staleAfterMs);
    TechnicalOrdered(j);
    forall r | r in TechnicalRows(j) ensures Technical(r) && PositiveId(r.id) {
      assert r in j;
    }
    UnsettledAreUnresolved(TechnicalRows(j), refs, now, staleAfterMs);
  }

  // ---- The observer itself ----

  datatype Observed = Observed(categories: map<Category, nat>, observed: nat, nextCursor: Cursor) | InvalidBounds

  function CeilDiv(n: nat, d: nat): nat
    requires d > 0
  {
    (n + d - 1) / d
  }

  lemma DivBounds(n: nat, d: nat)
    requires d > 0
    ensures (n / d) * d <= n < (n / d) * d + d
  {
  }

  lemma CancelLess(a: int, b: int, c: nat)
    requires a * c < b * c
    ensures a < b
  {
    if b <= a {
      MulMonotone(b, a, c);
    }
  }

  lemma MulMonotone(a: int, b: int, c: nat)
    requires a <= b
    ensures a * c <= b * c
  {
  }

  /** With chunks of this size, at most concurrency chunks cover n rows, and none is empty. */
  lemma ChunkBounds(n: nat, concurrency: nat, size: nat)
    requires concurrency >= 1 && n >= 1 && size == CeilDiv(n, concurrency)
    ensures 1 <= size
    ensures 1 <= CeilDiv(n, size) <= concurrency
    ensures (CeilDiv(n, size) - 1) * size < n <= CeilDiv(n, size) * size
  {
    DivBounds(n + concurrency - 1, concurrency);
    CancelLess(0, size, concurrency);
    DivBounds(n + size - 1, size);
    var q := CeilDiv(n, size);
    assert (q - 1) * size == q * size - size;
    assert n <= size * concurrency;
    CancelLess(q - 1, concurrency, size);
    CancelLess(0, q, size);
  }

  lemma {:induction false} FlattenAppend<T>(pages: seq<seq<T>>, last: seq<T>)
    ensures Flatten(pages + [last]) == Flatten(pages) + last
  {
    if pages == [] {
      assert Flatten([last]) == last + Flatten<T>([]);
    } else {
      assert (pages + [last])[1..] == pages[1..] + [last];
      FlattenAppend(pages[1..], last);
    }
  }

  /** The lanes of one page: at most concurrency of them, none empty, together the page. */
  method Chunks(rows: seq<ObservedIntent>, concurrency: nat) returns (chunks: seq<seq<ObservedIntent>>)
    requires concurrency >= 1
    ensures |chunks| <= concurrency
    ensures forall c :: c in chunks ==> c != []
    ensures Flatten(chunks) == rows
  {
    chunks := [];
    var n := |rows|;
    if n == 0 {
      return;
    }
    var size := CeilDiv(n, concurrency);
    ChunkBounds(n, concurrency, size);
    var count, i := CeilDiv(n, size), 0;
    while i < count
      invariant 0 <= i <= count && |chunks| == i
      invariant i < count ==> i * size < n
      invariant Flatten(chunks) == rows[..if i < count then i * size else n]
      invariant forall c :: c in chunks ==> c != []
    {
      var from, to := i * size, if (i + 1) * size < n then (i + 1) * size else n;
      assert from < to by {
        assert (i + 1) * size == i * size + size;
      }
      if i + 1 < count {
        NotLast(i, count, size, n);
      } else {
        assert i + 1 == count;
      }
      FlattenAppend(chunks, rows[from..to]);
      chunks := chunks + [rows[from..to]];
      assert rows[..from] + rows[from..to] == rows[..to];
      i := i + 1;
    }
  }

  lemma NotLast(i: nat, count: nat, size: nat, n: nat)
    requires i + 1 < count && (count - 1) * size < n
    ensures (i + 1) * size < n
  {
    TimesMonotone(i + 1, count - 1, size);
  }

  lemma {:induction false} TimesMonotone(a: nat, b: nat, size: nat)
    requires a <= b
    ensures a * size <= b * size
    decreases b - a
  {
    if a < b {
      TimesMonotone(a, b - 1, size);
      assert b * size == (b - 1) * size + size;
    }
  }

  /** One call: check the bounds, read a page, classify it lane by lane, and count. */
  method Observe(j: Journal, refs: References, cursor: Cursor, limit: int, concurrency: nat, now: int,
                 staleAfterMs: int)
    returns (r: Observed)
    requires concurrency >= 1
    ensures r.InvalidBounds? <==>
              limit < 1 || limit > 100 || cursor.afterId < 0 || cursor.afterId > MAX_SAFE_INTEGER
              || (cursor.throughId.Some?
                  && (cursor.throughId.value > MAX_SAFE_INTEGER || cursor.throughId.value < cursor.afterId))
    ensures r.Observed? ==>
              && r.observed == |Page(j, cursor, limit)| && r.nextCursor == NextCursor(j, cursor, limit)
              && forall c :: c in r.categories &&
                   r.categories[c] == Tally(Page(j, cursor, limit), c, refs, now, staleAfterMs)
  {
    hide Page;
    hide NextCursor;
    hide CategoryOf;
    if limit < 1 || limit > 100 || cursor.afterId < 0 || cursor.afterId > MAX_SAFE_INTEGER
       || (cursor.throughId.Some?
           && (cursor.throughId.value > MAX_SAFE_INTEGER || cursor.throughId.value < cursor.afterId)) {
      return InvalidBounds;
    }
    var rows := Page(j, cursor, limit);
    var categories: map<Category, nat> := map[
      IN_FLIGHT_OR_UNKNOWN := 0, UNRESOLVED_PENDING := 0, ROLLED_BACK_UNRESOLVED := 0, COMMITTED_REFERENCED := 0,
      COMMITTED_MISSING_REFERENCE := 0, CLEANED_TERMINAL := 0, REFERENCED_OBJECT := 0,
      MANUAL_REVIEW_REQUIRED := 0, MALFORMED_INTENT := 0];
    forall c: Category ensures c in categories && categories[c] == 0 {
      match c
      case IN_FLIGHT_OR_UNKNOWN =>
      case UNRESOLVED_PENDING =>
      case ROLLED_BACK_UNRESOLVED =>
      case COMMITTED_REFERENCED =>
      case COMMITTED_MISSING_REFERENCE =>
      case CLEANED_TERMINAL =>
      case REFERENCED_OBJECT =>
      case MANUAL_REVIEW_REQUIRED =>
      case MALFORMED_INTENT =>
    }
    var chunks := Chunks(rows, concurrency);
    ghost var done: seq<ObservedIntent> := [];
    for k := 0 to |chunks|
      invariant done == Flatten(chunks[..k])
      invariant forall c :: c in categories && categories[c] == Tally(done, c, refs, now, staleAfterMs)
    {
      for i := 0 to |chunks[k]|
        invariant done == Flatten(chunks[..k]) + chunks[k][..i]
        invariant forall c :: c in categories && categories[c] == Tally(done, c, refs, now, staleAfterMs)
      {
        var category := CategoryOf(chunks[k][i], refs, now, staleAfterMs);
        forall c ensures Tally(done + [chunks[k][i]], c, refs, now, staleAfterMs)
            == Tally(done, c, refs, now, staleAfterMs) + if c == category then 1 else 0 {
          TallyAppend(done, [chunks[k][i]], c, refs, now, staleAfterMs);
        }
        categories := categories[category := categories[category] + 1];
        done := done + [chunks[k][i]];
      }
      FlattenAppend(chunks[..k], chunks[k]);
      assert chunks[..k] + [chunks[k]] == chunks[..k + 1];
    }
    assert chunks[..|chunks|] == chunks;
    r := Observed(categories, |rows|, NextCursor(j, cursor, limit));
  }
}

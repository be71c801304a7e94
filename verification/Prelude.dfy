module Prelude {
  datatype Option<+T> = None | Some(value: T)

  const MAX_SAFE_INTEGER := 9007199254740991   // 2^53 - 1

  /** A database identifier that a JavaScript number holds exactly. */
  predicate PositiveId(n: int) {
    0 < n <= MAX_SAFE_INTEGER
  }

  predicate UuidChar(i: int, c: char) {
    if i == 8 || i == 13 || i == 18 || i == 23 then c == '-'
    else if i == 14 then c == '4'
    else if i == 19 then c == '8' || c == '9' || c == 'a' || c == 'b'
    else '0' <= c <= '9' || 'a' <= c <= 'f'
  }

  /** A lower-case version 4 UUID. */
  predicate Uuid(s: string) {
    |s| == 36 && forall i :: 0 <= i < 36 ==> UuidChar(i, s[i])
  }

  /** The key under which a private document is stored. */
  predicate PrivateKey(s: string) {
    |s| == 46 && s[..10] == "documents/" && Uuid(s[10..])
  }

  // ---- Intervals, from their start up to but not including their end ----

  predicate Within(t: int, from: int, to: int) {
    from <= t < to
  }

  ghost predicate ShareInstant(aStart: int, aEnd: int, bStart: int, bEnd: int) {
    exists t :: Within(t, aStart, aEnd) && Within(t, bStart, bEnd)
  }

  /** Two intervals of positive length have an instant in common exactly when each starts before the other ends. */
  lemma SharedInstant(aStart: int, aEnd: int, bStart: int, bEnd: int)
    requires aStart < aEnd && bStart < bEnd
    ensures ShareInstant(aStart, aEnd, bStart, bEnd) <==> aStart < bEnd && bStart < aEnd
  {
    var t := if aStart < bStart then bStart else aStart;
    assert aStart < bEnd && bStart < aEnd ==> Within(t, aStart, aEnd) && Within(t, bStart, bEnd);
  }
}

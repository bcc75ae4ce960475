/**
  The attendance ledger: the two ordered collections the app keeps (sessions
  and attendance records), the "current" session reference, and the operations
  that change or read them. Clock readings (`Date.now()`, `new Date()` and the
  `yyyy-MM-dd` day format) are passed in as a `Moment`.
*/
module Ledger {
  import opened Base
  import opened JsStrings

  /** How an attendance record was obtained. */
  datatype Method = Bluetooth | Wifi | Manual

  /** One reading of the clock: milliseconds since the epoch, its ISO-8601 text and its calendar day. */
  datatype Moment = Moment(millis: nat, iso: string, day: string)

  datatype Session = Session(
    id: string,
    name: string,
    beaconId: string,
    wifiSSID: string,
    adminId: Option<string>,
    createdAt: string,
    date: string,
    active: bool,
    endedAt: Option<string>)

  /** Every record the ledger writes is a presence record. */
  datatype Status = Present

  datatype Record = Record(
    id: string,
    userId: string,
    userName: string,
    sessionId: string,
    via: Method,
    timestamp: string,
    date: string,
    status: Status)

  /** The arguments of one `markAttendance` call, with the clock reading taken during it. */
  datatype MarkRequest = MarkRequest(userId: string, userName: string, sessionId: string, via: Method, now: Moment)

  /** What `markAttendance` returns: `success: true` with the record, or `success: false` with a message. */
  datatype MarkOutcome = Recorded(record: Record) | Rejected(message: string)

  const AlreadyMarkedMessage: string := "Already marked for this session"
  const GeneratedBeaconPrefix: string := "BEACON_"

  // ---------------------------------------------------------------------------
  // Array.prototype.filter and the three read projections

  /** The elements of `s` that satisfy `p`, in their original order. */
  function Filter<T(!new)>(s: seq<T>, p: T -> bool): (r: seq<T>)
    ensures |r| <= |s|
    ensures forall x :: x in r <==> x in s && p(x)
  {
    if s == [] then [] else (if p(s[0]) then [s[0]] else []) + Filter(s[1..], p)
  }

  /** Filtering a concatenation filters each part: together with the membership
      clause of `Filter`, this pins down the order of the result. */
  lemma {:induction false} FilterAppend<T(!new)>(a: seq<T>, b: seq<T>, p: T -> bool)
    ensures Filter(a + b, p) == Filter(a, p) + Filter(b, p)
  {
    if a == [] {
      assert a + b == b;
    } else {
      assert (a + b)[1..] == a[1..] + b;
      FilterAppend(a[1..], b, p);
    }
  }

  /** `getSessionRecords(sessionId)`. */
  function SessionRecords(records: seq<Record>, sessionId: string): (r: seq<Record>)
    ensures forall x :: x in r <==> x in records && x.sessionId == sessionId
  {
    Filter(records, (x: Record) => x.sessionId == sessionId)
  }

  /** `getUserRecords(userId)`. */
  function UserRecords(records: seq<Record>, userId: string): (r: seq<Record>)
    ensures forall x :: x in r <==> x in records && x.userId == userId
  {
    Filter(records, (x: Record) => x.userId == userId)
  }

  /** `getActiveSessions()`. */
  function ActiveSessions(sessions: seq<Session>): (r: seq<Session>)
    ensures forall s :: s in r <==> s in sessions && s.active
  {
    Filter(sessions, (s: Session) => s.active)
  }

  // ---------------------------------------------------------------------------
  // The deduplication gate

  predicate IsPairRecord(x: Record, userId: string, sessionId: string) {
    x.userId == userId && x.sessionId == sessionId
  }

  /** Some record belongs to `(userId, sessionId)`. */
  predicate HasRecord(records: seq<Record>, userId: string, sessionId: string) {
    exists i :: 0 <= i < |records| && IsPairRecord(records[i], userId, sessionId)
  }

  /** `records.find(r => r.userId === userId && r.sessionId === sessionId)`: the first record of the pair. */
  function FindRecord(records: seq<Record>, userId: string, sessionId: string): (r: Option<Record>)
    ensures r.Some? <==> HasRecord(records, userId, sessionId)
    ensures r.Some? ==> exists k :: 0 <= k < |records| && records[k] == r.value &&
                                    IsPairRecord(r.value, userId, sessionId) &&
                                    forall j :: 0 <= j < k ==> !IsPairRecord(records[j], userId, sessionId)
  {
    if records == [] then None
    else if IsPairRecord(records[0], userId, sessionId) then Some(records[0])
    else
      var r := FindRecord(records[1..], userId, sessionId);
      assert HasRecord(records[1..], userId, sessionId) ==> HasRecord(records, userId, sessionId) by {
        if HasRecord(records[1..], userId, sessionId) {
          var i :| 0 <= i < |records[1..]| && IsPairRecord(records[1..][i], userId, sessionId);
          assert IsPairRecord(records[i + 1], userId, sessionId);
        }
      }
      assert HasRecord(records, userId, sessionId) ==> HasRecord(records[1..], userId, sessionId) by {
        if HasRecord(records, userId, sessionId) {
          var i :| 0 <= i < |records| && IsPairRecord(records[i], userId, sessionId);
          assert i != 0 && IsPairRecord(records[1..][i - 1], userId, sessionId);
        }
      }
      assert r.Some? ==> exists k :: 0 <= k < |records| && records[k] == r.value &&
                                    IsPairRecord(r.value, userId, sessionId) &&
                                    forall j :: 0 <= j < k ==> !IsPairRecord(records[j], userId, sessionId) by {
        if r.Some? {
          var k :| 0 <= k < |records[1..]| && records[1..][k] == r.value &&
                   IsPairRecord(r.value, userId, sessionId) &&
                   forall j :: 0 <= j < k ==> !IsPairRecord(records[1..][j], userId, sessionId);
          assert records[k + 1] == r.value;
          forall j | 0 <= j < k + 1 ensures !IsPairRecord(records[j], userId, sessionId) {
            if j > 0 { assert records[j] == records[1..][j - 1]; }
          }
        }
      }
      r
  }

  /** The records of one `(userId, sessionId)` pair, in order. */
  function PairRecords(records: seq<Record>, userId: string, sessionId: string): seq<Record> {
    Filter(records, (x: Record) => IsPairRecord(x, userId, sessionId))
  }

  /** A pair has records in the pair view exactly when the gate sees one. */
  lemma PairRecordsEmptyIff(records: seq<Record>, userId: string, sessionId: string)
    ensures PairRecords(records, userId, sessionId) == [] <==> !HasRecord(records, userId, sessionId)
  {
    var r := PairRecords(records, userId, sessionId);
    if r != [] {
      assert r[0] in records && IsPairRecord(r[0], userId, sessionId);
      var i :| 0 <= i < |records| && records[i] == r[0];
    }
    if HasRecord(records, userId, sessionId) {
      var i :| 0 <= i < |records| && IsPairRecord(records[i], userId, sessionId);
      assert records[i] in r;
    }
  }

  /** The core invariant: no two records share a `(userId, sessionId)` pair. */
  predicate UniquePairs(records: seq<Record>) {
    forall i, j :: 0 <= i < j < |records| ==>
      !IsPairRecord(records[j], records[i].userId, records[i].sessionId)
  }

  /** The record `markAttendance` builds: the id is `Date.now().toString()`, the status is present. */
  function NewRecord(req: MarkRequest): (r: Record)
    ensures IsPairRecord(r, req.userId, req.sessionId) && r.userName == req.userName
    ensures r.via == req.via && r.status == Present
    ensures r.id == DecimalString(req.now.millis) && r.id != []
    ensures r.timestamp == req.now.iso && r.date == req.now.day
  {
    Record(DecimalString(req.now.millis), req.userId, req.userName, req.sessionId, req.via,
           req.now.iso, req.now.day, Present)
  }

  /** The record collection after one `markAttendance` call. */
  function Marked(records: seq<Record>, req: MarkRequest): (r: seq<Record>)
    ensures HasRecord(r, req.userId, req.sessionId)
    ensures |records| <= |r| <= |records| + 1 && r[..|records|] == records
    ensures UniquePairs(records) ==> UniquePairs(r)
  {
    if HasRecord(records, req.userId, req.sessionId) then records
    else
      var r := records + [NewRecord(req)];
      assert IsPairRecord(r[|records|], req.userId, req.sessionId);
      r
  }

  /** The record collection after a series of `markAttendance` calls, in order. */
  function MarkAll(records: seq<Record>, reqs: seq<MarkRequest>): seq<Record>
    decreases |reqs|
  {
    if reqs == [] then records else MarkAll(Marked(records, reqs[0]), reqs[1..])
  }

  /** However many calls are made, the invariant holds afterwards and earlier records stay in place. */
  lemma {:induction false} MarkAllPreservesUnique(records: seq<Record>, reqs: seq<MarkRequest>)
    requires UniquePairs(records)
    ensures UniquePairs(MarkAll(records, reqs))
    ensures |records| <= |MarkAll(records, reqs)| <= |records| + |reqs|
    ensures MarkAll(records, reqs)[..|records|] == records
    decreases |reqs|
  {
    if reqs != [] {
      var next := Marked(records, reqs[0]);
      MarkAllPreservesUnique(next, reqs[1..]);
      assert MarkAll(records, reqs)[..|next|][..|records|] == MarkAll(records, reqs)[..|records|];
    }
  }

  /** Appending a record of another pair leaves a pair's records as they were. */
  lemma PairRecordsAfterAppend(records: seq<Record>, x: Record, userId: string, sessionId: string)
    ensures PairRecords(records + [x], userId, sessionId) ==
            PairRecords(records, userId, sessionId) + (if IsPairRecord(x, userId, sessionId) then [x] else [])
  {
    FilterAppend(records, [x], (y: Record) => IsPairRecord(y, userId, sessionId));
    assert [x][1..] == [];
  }

  /** Once a pair is recorded, later calls never change its records. */
  lemma {:induction false} RecordedPairIsStable(records: seq<Record>, reqs: seq<MarkRequest>, userId: string, sessionId: string)
    requires HasRecord(records, userId, sessionId)
    ensures PairRecords(MarkAll(records, reqs), userId, sessionId) == PairRecords(records, userId, sessionId)
    decreases |reqs|
  {
    if reqs != [] {
      var next := Marked(records, reqs[0]);
      if next != records {
        PairRecordsAfterAppend(records, NewRecord(reqs[0]), userId, sessionId);
        assert HasRecord(next, userId, sessionId) by {
          var i :| 0 <= i < |records| && IsPairRecord(records[i], userId, sessionId);
          assert next[i] == records[i];
        }
      }
      RecordedPairIsStable(next, reqs[1..], userId, sessionId);
    }
  }

  /** Calls for other pairs never add a record to this pair. */
  lemma {:induction false} OtherPairsDoNotTouch(records: seq<Record>, reqs: seq<MarkRequest>, userId: string, sessionId: string)
    requires forall j :: 0 <= j < |reqs| ==> !(reqs[j].userId == userId && reqs[j].sessionId == sessionId)
    ensures PairRecords(MarkAll(records, reqs), userId, sessionId) == PairRecords(records, userId, sessionId)
    decreases |reqs|
  {
    if reqs != [] {
      var next := Marked(records, reqs[0]);
      if next != records {
        PairRecordsAfterAppend(records, NewRecord(reqs[0]), userId, sessionId);
      }
      OtherPairsDoNotTouch(next, reqs[1..], userId, sessionId);
    }
  }

  /** For a pair with no record yet, any series of calls leaves exactly one record of it,
      built from the first call for that pair (so it carries that call's method). */
  lemma {:induction false} FirstMarkWins(records: seq<Record>, reqs: seq<MarkRequest>, k: nat)
    requires k < |reqs|
    requires !HasRecord(records, reqs[k].userId, reqs[k].sessionId)
    requires forall j :: 0 <= j < k ==> !(reqs[j].userId == reqs[k].userId && reqs[j].sessionId == reqs[k].sessionId)
    ensures PairRecords(MarkAll(records, reqs), reqs[k].userId, reqs[k].sessionId) == [NewRecord(reqs[k])]
    decreases k
  {
    var u, s := reqs[k].userId, reqs[k].sessionId;
    var next := Marked(records, reqs[0]);
    PairRecordsEmptyIff(records, u, s);
    if k == 0 {
      PairRecordsAfterAppend(records, NewRecord(reqs[0]), u, s);
      RecordedPairIsStable(next, reqs[1..], u, s);
    } else {
      if next != records {
        PairRecordsAfterAppend(records, NewRecord(reqs[0]), u, s);
      }
      PairRecordsEmptyIff(next, u, s);
      FirstMarkWins(next, reqs[1..], k - 1);
    }
  }

  /** The gate: a call for a pair that already has a record, however it got there and whatever the
      call's method (manual marks included), leaves the records unchanged. */
  lemma RepeatedMarkIsNoop(records: seq<Record>, req: MarkRequest)
    requires HasRecord(records, req.userId, req.sessionId)
    ensures Marked(records, req) == records
  {
  }

  /** A new record shows up at once, at the end, in both of the views it belongs to. */
  lemma MarkReflectedInViews(records: seq<Record>, req: MarkRequest)
    requires !HasRecord(records, req.userId, req.sessionId)
    ensures SessionRecords(Marked(records, req), req.sessionId) == SessionRecords(records, req.sessionId) + [NewRecord(req)]
    ensures UserRecords(Marked(records, req), req.userId) == UserRecords(records, req.userId) + [NewRecord(req)]
  {
    var x := NewRecord(req);
    assert Marked(records, req) == records + [x];
    assert [x][1..] == [];
    FilterAppend(records, [x], (y: Record) => y.sessionId == req.sessionId);
    assert Filter([x], (y: Record) => y.sessionId == req.sessionId) == [x];
    FilterAppend(records, [x], (y: Record) => y.userId == req.userId);
    assert Filter([x], (y: Record) => y.userId == req.userId) == [x];
  }

  // ---------------------------------------------------------------------------
  // Sessions

  /** The session `createSession` builds: an empty beacon id becomes `BEACON_<millis>`. */
  function NewSession(name: string, beaconId: string, wifiSSID: string, adminId: Option<string>, now: Moment): (s: Session)
    ensures s.active && s.endedAt == None
    ensures s.name == name && s.wifiSSID == wifiSSID && s.adminId == adminId
    ensures s.id == DecimalString(now.millis) && s.id != []
    ensures s.createdAt == now.iso && s.date == now.day
    ensures s.beaconId != [] && (beaconId != [] ==> s.beaconId == beaconId)
    ensures beaconId == [] ==> s.beaconId == GeneratedBeaconPrefix + s.id
  {
    var stamp := DecimalString(now.millis);
    var beacon := if beaconId != [] then beaconId else GeneratedBeaconPrefix + stamp;
    Session(stamp, name, beacon, wifiSSID, adminId, now.iso, now.day, true, None)
  }

  /** A new session joins the active list at its end; sessions already active stay active. */
  lemma CreatedSessionIsActiveLast(sessions: seq<Session>, s: Session)
    requires s.active
    ensures ActiveSessions(sessions + [s]) == ActiveSessions(sessions) + [s]
  {
    FilterAppend(sessions, [s], (x: Session) => x.active);
    assert [s][1..] == [];
  }

  /** `{...s, active: false, endedAt}`: the session is closed at `endedAt` and every other field is kept. */
  function Close(s: Session, endedAt: string): (c: Session)
    ensures !c.active && c.endedAt == Some(endedAt)
    ensures c.id == s.id && c.name == s.name && c.beaconId == s.beaconId && c.wifiSSID == s.wifiSSID &&
            c.adminId == s.adminId && c.createdAt == s.createdAt && c.date == s.date
  {
    s.(active := false, endedAt := Some(endedAt))
  }

  /** `sessions.map(s => s.id === sessionId ? {...s, active: false, endedAt} : s)`. */
  function Ended(sessions: seq<Session>, sessionId: string, endedAt: string): (r: seq<Session>)
    ensures |r| == |sessions|
    ensures forall i :: 0 <= i < |r| ==>
      r[i] == if sessions[i].id == sessionId then Close(sessions[i], endedAt) else sessions[i]
  {
    if sessions == [] then []
    else [if sessions[0].id == sessionId then Close(sessions[0], endedAt) else sessions[0]]
         + Ended(sessions[1..], sessionId, endedAt)
  }

  /** Ending twice equals ending once with the later time: `active` stays false, `endedAt` is re-stamped. */
  lemma EndTwiceRestamps(sessions: seq<Session>, sessionId: string, first: string, second: string)
    ensures Ended(Ended(sessions, sessionId, first), sessionId, second) == Ended(sessions, sessionId, second)
  {
  }

  /** Ending an unknown id leaves every session as it was. */
  lemma EndUnknownIsNoop(sessions: seq<Session>, sessionId: string, endedAt: string)
    requires forall i :: 0 <= i < |sessions| ==> sessions[i].id != sessionId
    ensures Ended(sessions, sessionId, endedAt) == sessions
  {
  }

  /** Ending removes exactly the sessions with that id from the active list, keeping the others in order. */
  lemma {:induction false} EndRemovesFromActive(sessions: seq<Session>, sessionId: string, endedAt: string)
    ensures ActiveSessions(Ended(sessions, sessionId, endedAt)) ==
            Filter(ActiveSessions(sessions), (x: Session) => x.id != sessionId)
  {
    if sessions != [] {
      var e := Ended(sessions, sessionId, endedAt);
      assert e == [e[0]] + e[1..];
      assert e[1..] == Ended(sessions[1..], sessionId, endedAt);
      EndRemovesFromActive(sessions[1..], sessionId, endedAt);
      assert Filter(e, (s: Session) => s.active) ==
             (if e[0].active then [e[0]] else []) + Filter(e[1..], (s: Session) => s.active);
      var act := ActiveSessions(sessions);
      assert act == (if sessions[0].active then [sessions[0]] else []) + ActiveSessions(sessions[1..]);
      FilterAppend(if sessions[0].active then [sessions[0]] else [], ActiveSessions(sessions[1..]),
                   (x: Session) => x.id != sessionId);
      if sessions[0].active {
        assert [sessions[0]][1..] == [];
      }
    }
  }

  // ---------------------------------------------------------------------------
  // The provider's state and its mutating operations

  class AttendanceLedger {
    var sessions: seq<Session>
    var records: seq<Record>
    var activeSession: Option<Session>

    /** The provider starts with empty collections (before persisted data is loaded). */
    constructor ()
      ensures sessions == [] && records == [] && activeSession == None
      ensures UniquePairs(records)
    {
      sessions, records, activeSession := [], [], None;
    }

    /** `createSession`: appends one active session and makes it the current one. */
    method CreateSession(name: string, beaconId: string, wifiSSID: string, adminId: Option<string>, now: Moment)
      returns (session: Session)
      modifies this
      ensures session == NewSession(name, beaconId, wifiSSID, adminId, now)
      ensures sessions == old(sessions) + [session]
      ensures records == old(records) && activeSession == Some(session)
    {
      session := NewSession(name, beaconId, wifiSSID, adminId, now);
      sessions := sessions + [session];
      activeSession := Some(session);
    }

    /** `endSession`: closes every session with the id and clears the current session. */
    method EndSession(sessionId: string, now: Moment)
      modifies this
      ensures sessions == Ended(old(sessions), sessionId, now.iso)
      ensures records == old(records) && activeSession == None
    {
      sessions := Ended(sessions, sessionId, now.iso);
      activeSession := None;
    }

    /** `markAttendance`: the deduplication gate. The session id is not checked against `sessions`. */
    method MarkAttendance(userId: string, userName: string, sessionId: string, via: Method, now: Moment)
      returns (outcome: MarkOutcome)
      modifies this
      ensures records == Marked(old(records), MarkRequest(userId, userName, sessionId, via, now))
      ensures outcome == if HasRecord(old(records), userId, sessionId) then Rejected(AlreadyMarkedMessage)
                         else Recorded(NewRecord(MarkRequest(userId, userName, sessionId, via, now)))
      ensures sessions == old(sessions) && activeSession == old(activeSession)
      ensures UniquePairs(old(records)) ==> UniquePairs(records)
    {
      var found := FindRecord(records, userId, sessionId);
      if found.Some? {
        return Rejected(AlreadyMarkedMessage);
      }
      var record := NewRecord(MarkRequest(userId, userName, sessionId, via, now));
      records := records + [record];
      outcome := Recorded(record);
    }

    /** `manualMark`: `markAttendance` with method manual. */
    method ManualMark(userId: string, userName: string, sessionId: string, now: Moment)
      returns (outcome: MarkOutcome)
      modifies this
      ensures records == Marked(old(records), MarkRequest(userId, userName, sessionId, Manual, now))
      ensures outcome == if HasRecord(old(records), userId, sessionId) then Rejected(AlreadyMarkedMessage)
                         else Recorded(NewRecord(MarkRequest(userId, userName, sessionId, Manual, now)))
      ensures sessions == old(sessions) && activeSession == old(activeSession)
      ensures UniquePairs(old(records)) ==> UniquePairs(records)
    {
      outcome := MarkAttendance(userId, userName, sessionId, Manual, now);
    }
  }
}

/**
  The check-in attempt of the attendance screen: walk the active sessions in
  order, skip those the user is already marked for, run one detection per
  remaining session, and stop at the first positive detection whose
  `markAttendance` succeeds. Each detection's outcome is an input (a `Probe`),
  one per active session; `ProbesFor` builds them from `DetectPresence`.
*/
module CheckIn {
  import Base
  import opened Ledger
  import opened Connectivity

  /** The screen's phase. */
  datatype Phase = Idle | Requesting | Scanning | Success | Failed

  /** What the screen shows after a successful check-in. */
  datatype CheckInResult = CheckInResult(via: Method, sessionName: string)

  /** One `detectPresence` call: the value it returned, or an exception the loop catches. */
  datatype Probe = Returned(detection: Detection) | Raised

  /** `detection.detected && detection.method`: a positive probe carries the method to record, and
      for a detection whose flag agrees with its method it is exactly the `detected` flag. */
  function Positive(p: Probe): (b: bool)
    ensures b ==> p.Returned? && p.detection.via.Some?
    ensures p.Returned? && (p.detection.detected <==> p.detection.via.Some?) ==> (b <==> p.detection.detected)
  {
    p.Returned? && p.detection.detected && p.detection.via.Some?
  }

  /** `isAlreadyMarked(sessionId)`: `records.some(r => r.userId === user.id && r.sessionId === sessionId)`.
      It holds exactly when the ledger already holds a record of the pair. */
  function IsAlreadyMarked(records: seq<Record>, userId: string, sessionId: string): (b: bool)
    ensures b <==> HasRecord(records, userId, sessionId)
  {
    assert HasRecord(records, userId, sessionId) ==> exists r :: r in records && r.userId == userId && r.sessionId == sessionId by {
      if HasRecord(records, userId, sessionId) {
        var i :| 0 <= i < |records| && IsPairRecord(records[i], userId, sessionId);
        assert records[i] in records;
      }
    }
    exists r :: r in records && r.userId == userId && r.sessionId == sessionId
  }

  /** The screen's test and the ledger's gate agree: a session is skipped exactly when marking it would be refused. */
  lemma AlreadyMarkedAgreesWithGate(records: seq<Record>, userId: string, sessionId: string)
    ensures IsAlreadyMarked(records, userId, sessionId) <==> FindRecord(records, userId, sessionId).Some?
  {
  }

  /** The loop stops at session `i`: not yet marked, and its detection is positive. */
  predicate StopsAt(records: seq<Record>, userId: string, active: seq<Session>, probes: seq<Probe>, i: nat)
    requires i < |active| == |probes|
  {
    !IsAlreadyMarked(records, userId, active[i].id) && Positive(probes[i])
  }

  /** The first session from `from` on where the loop stops, or `|active|` when there is none. */
  function FirstStop(records: seq<Record>, userId: string, active: seq<Session>, probes: seq<Probe>, from: nat): (k: nat)
    requires |probes| == |active| && from <= |active|
    ensures from <= k <= |active|
    ensures k < |active| ==> StopsAt(records, userId, active, probes, k)
    ensures forall j :: from <= j < k ==> !StopsAt(records, userId, active, probes, j)
    decreases |active| - from
  {
    if from == |active| then from
    else if StopsAt(records, userId, active, probes, from) then from
    else FirstStop(records, userId, active, probes, from + 1)
  }

  /** How many of the first `upto` sessions get a detection call: those not already marked. */
  function DetectorCalls(records: seq<Record>, userId: string, active: seq<Session>, upto: nat): (n: nat)
    requires upto <= |active|
    ensures n <= upto
    ensures n == 0 <==> forall j :: 0 <= j < upto ==> IsAlreadyMarked(records, userId, active[j].id)
  {
    if upto == 0 then 0
    else DetectorCalls(records, userId, active, upto - 1) +
         (if IsAlreadyMarked(records, userId, active[upto - 1].id) then 0 else 1)
  }

  /** Probes built from `detectPresence`, one per session. Each call reads the current SSID afresh
      (`currents[i]`) and races on the events it observed itself (`races[i]`). */
  function ProbesFor(active: seq<Session>, currents: seq<Base.Option<string>>, races: seq<seq<RaceEvent>>): (p: seq<Probe>)
    requires |currents| == |active| && |races| == |active|
    ensures |p| == |active|
    ensures forall i :: 0 <= i < |p| ==> p[i].Returned? && p[i].detection.via != Base.Some(Manual)
  {
    seq(|active|, i requires 0 <= i < |active| =>
      Returned(DetectPresence(active[i].beaconId, active[i].wifiSSID, currents[i], races[i])))
  }

  /** With real detections, a successful check-in is by WiFi or by Bluetooth, never manual. */
  lemma DetectedCheckInIsWifiOrBluetooth(records: seq<Record>, userId: string, active: seq<Session>,
                                         currents: seq<Base.Option<string>>, races: seq<seq<RaceEvent>>)
    requires |currents| == |active| && |races| == |active|
    ensures var probes := ProbesFor(active, currents, races);
            var k := FirstStop(records, userId, active, probes, 0);
            k < |active| ==> probes[k].detection.via == Base.Some(Wifi) || probes[k].detection.via == Base.Some(Bluetooth)
  {
  }

  /** The first active session is not yet marked and the phone is on its WiFi network: the attempt
      stops there after a single detection, so no later session is scanned for. */
  lemma WifiSessionFirstStopsAtOnce(records: seq<Record>, userId: string, active: seq<Session>,
                                    currents: seq<Base.Option<string>>, races: seq<seq<RaceEvent>>)
    requires |currents| == |active| && |races| == |active| && |active| >= 1
    requires !IsAlreadyMarked(records, userId, active[0].id)
    requires active[0].wifiSSID != [] && WifiMatches(currents[0], active[0].wifiSSID)
    ensures FirstStop(records, userId, active, ProbesFor(active, currents, races), 0) == 0
    ensures DetectorCalls(records, userId, active, 1) == 1
    ensures ProbesFor(active, currents, races)[0] == Returned(DetectedByWifi)
  {
  }

  /** The `for` loop of `startCheckIn`: the detections, in session order, up to the first check-in. */
  method RunDetections(ledger: AttendanceLedger, userId: string, userName: string,
                       active: seq<Session>, probes: seq<Probe>, now: Moment)
    returns (calls: nat, found: Base.Option<CheckInResult>)
    requires |probes| == |active|
    modifies ledger
    ensures ledger.sessions == old(ledger.sessions) && ledger.activeSession == old(ledger.activeSession)
    ensures var k := FirstStop(old(ledger.records), userId, active, probes, 0);
            if k < |active| then
              var via := probes[k].detection.via.value;
              calls == DetectorCalls(old(ledger.records), userId, active, k + 1) &&
              ledger.records == old(ledger.records) + [NewRecord(MarkRequest(userId, userName, active[k].id, via, now))] &&
              found == Base.Some(CheckInResult(via, active[k].name))
            else
              calls == DetectorCalls(old(ledger.records), userId, active, |active|) &&
              ledger.records == old(ledger.records) && found == Base.None
  {
    ghost var records0 := ledger.records;
    calls, found := 0, Base.None;
    var i := 0;
    while i < |active|
      invariant 0 <= i <= |active|
      invariant ledger.records == records0
      invariant ledger.sessions == old(ledger.sessions) && ledger.activeSession == old(ledger.activeSession)
      invariant found == Base.None
      invariant forall j :: 0 <= j < i ==> !StopsAt(records0, userId, active, probes, j)
      invariant calls == DetectorCalls(records0, userId, active, i)
    {
      var session := active[i];
      if !IsAlreadyMarked(ledger.records, userId, session.id) {
        calls := calls + 1;
        var probe := probes[i];
        if Positive(probe) {
          AlreadyMarkedAgreesWithGate(ledger.records, userId, session.id);
          var outcome := ledger.MarkAttendance(userId, userName, session.id, probe.detection.via.value, now);
          if outcome.Recorded? {
            assert StopsAt(records0, userId, active, probes, i);
            found := Base.Some(CheckInResult(probe.detection.via.value, session.name));
            break;
          }
        }
      }
      i := i + 1;
    }
    ghost var k := FirstStop(records0, userId, active, probes, 0);
    assert found.Some? ==> k == i && calls == DetectorCalls(records0, userId, active, k + 1);
    assert found.None? ==> k == |active| && i == |active|;
  }

  /** The attendance screen's state. */
  class MarkAttendanceScreen {
    var phase: Phase
    var result: Base.Option<CheckInResult>

    constructor ()
      ensures phase == Idle && result == Base.None
    {
      phase, result := Idle, Base.None;
    }

    /** `startCheckIn`. Returns how many detections were run. */
    method StartCheckIn(ledger: AttendanceLedger, userId: string, userName: string,
                        platform: Platform, reply: PermissionReply, probes: seq<Probe>, now: Moment)
      returns (calls: nat)
      requires |probes| == |ActiveSessions(ledger.sessions)|
      modifies this, ledger
      ensures ledger.sessions == old(ledger.sessions) && ledger.activeSession == old(ledger.activeSession)
      ensures calls <= |ActiveSessions(old(ledger.sessions))|
      ensures |old(ledger.records)| <= |ledger.records| <= |old(ledger.records)| + 1
      ensures UniquePairs(old(ledger.records)) ==> UniquePairs(ledger.records)
      ensures var active := ActiveSessions(old(ledger.sessions));
              var k := FirstStop(old(ledger.records), userId, active, probes, 0);
              if active == [] then
                calls == 0 && ledger.records == old(ledger.records) && phase == old(phase) && result == old(result)
              else if !PermissionsGranted(platform, reply) then
                calls == 0 && ledger.records == old(ledger.records) && phase == Idle && result == old(result)
              else if k < |active| then
                var via := probes[k].detection.via.value;
                calls == DetectorCalls(old(ledger.records), userId, active, k + 1) &&
                ledger.records == old(ledger.records) + [NewRecord(MarkRequest(userId, userName, active[k].id, via, now))] &&
                phase == Success && result == Base.Some(CheckInResult(via, active[k].name))
              else
                calls == DetectorCalls(old(ledger.records), userId, active, |active|) &&
                ledger.records == old(ledger.records) && phase == Failed && result == old(result)
    {
      var active := ActiveSessions(ledger.sessions);
      calls := 0;
      if |active| == 0 {
        return;
      }
      phase := Requesting;
      var hasPerms := PermissionsGranted(platform, reply);
      if !hasPerms {
        phase := Idle;
        return;
      }
      phase := Scanning;
      var found;
      calls, found := RunDetections(ledger, userId, userName, active, probes, now);
      if found.Some? {
        result := found;
        phase := Success;
      } else {
        phase := Failed;
      }
    }
  }
}

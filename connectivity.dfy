/**
  Proximity detection: the WiFi SSID comparison, the BLE device-match rule,
  the permission rule, and `detectPresence`, which tries WiFi first and falls
  back to a BLE scan raced against a 15-second timer. The platform (NetInfo,
  the BLE manager, PermissionsAndroid) and the timers are abstract inputs: the
  SSID NetInfo reported, and the sequence of events the race observes.
*/
module Connectivity {
  import opened Base
  import opened JsStrings
  import opened Ledger

  // ---------------------------------------------------------------------------
  // Permissions

  /** `Platform.OS`, as far as `requestPermissions` distinguishes it. */
  datatype Platform = Android | OtherPlatform

  datatype PermissionStatus = Granted | Denied | NeverAskAgain

  /** What `PermissionsAndroid.requestMultiple` produced: one status per permission, or an exception. */
  datatype PermissionReply = Replied(statuses: seq<PermissionStatus>) | RequestFailed

  /** `Object.values(results).every(r => r === GRANTED)`. */
  function AllGranted(statuses: seq<PermissionStatus>): (r: bool)
    ensures r <==> forall i :: 0 <= i < |statuses| ==> statuses[i] == Granted
  {
    if statuses == [] then true
    else
      assert forall i :: 1 <= i < |statuses| ==> statuses[i] == statuses[1..][i - 1];
      statuses[0] == Granted && AllGranted(statuses[1..])
  }

  /** `requestPermissions`: always granted off Android; on Android only if every permission is granted. */
  function PermissionsGranted(platform: Platform, reply: PermissionReply): (r: bool)
    ensures r <==> !platform.Android? ||
                   (reply.Replied? && forall i :: 0 <= i < |reply.statuses| ==> reply.statuses[i] == Granted)
  {
    if !platform.Android? then true
    else match reply
      case RequestFailed => false
      case Replied(statuses) => AllGranted(statuses)
  }

  // ---------------------------------------------------------------------------
  // WiFi

  /** The form SSIDs are compared in: `toLowerCase()` then `trim()`. It holds no upper-case
      ASCII letter, and neither starts nor ends with whitespace. */
  function NormalizedSsid(s: string): (r: string)
    ensures |r| <= |s| && NoUpper(r)
    ensures r != [] ==> !IsWhitespace(r[0]) && !IsWhitespace(r[|r| - 1])
  {
    TrimKeepsNoUpper(Lower(s));
    Trim(Lower(s))
  }

  /** Normalising an SSID twice is normalising it once. */
  lemma NormalizedSsidIdempotent(s: string)
    ensures NormalizedSsid(NormalizedSsid(s)) == NormalizedSsid(s)
  {
    LowerOfNoUpper(NormalizedSsid(s));
    TrimIdempotent(Lower(s));
  }

  /** `checkWifiMatch(target)`, given what `getCurrentWifiSSID` returned. */
  function WifiMatches(current: Option<string>, target: string): (r: bool)
    ensures current == None || current == Some([]) ==> !r
    ensures current.Some? && current.value != [] ==> (r <==> NormalizedSsid(current.value) == NormalizedSsid(target))
  {
    match current
    case None => false
    case Some(ssid) => ssid != [] && NormalizedSsid(ssid) == NormalizedSsid(target)
  }

  /** The comparison ignores ASCII letter case on either side. */
  lemma WifiMatchIgnoresCase(current: string, target: string)
    ensures WifiMatches(Some(Upper(current)), target) == WifiMatches(Some(current), target)
    ensures WifiMatches(Some(current), Upper(target)) == WifiMatches(Some(current), target)
  {
    LowerOfUpper(current);
    LowerOfUpper(target);
  }

  /** The comparison ignores whitespace around the current SSID. */
  lemma WifiMatchIgnoresSurroundingWhitespace(w1: string, current: string, w2: string, target: string)
    requires AllWhitespace(w1) && AllWhitespace(w2) && current != []
    ensures WifiMatches(Some(w1 + current + w2), target) == WifiMatches(Some(current), target)
  {
    LowerAppend(w1 + current, w2);
    LowerAppend(w1, current);
    LowerKeepsWhitespace(w1);
    LowerKeepsWhitespace(w2);
    TrimIgnoresSurroundingWhitespace(w1, Lower(current), w2);
  }

  /** For two non-empty SSIDs the comparison is symmetric. */
  lemma WifiMatchSymmetric(a: string, b: string)
    requires a != [] && b != []
    ensures WifiMatches(Some(a), b) == WifiMatches(Some(b), a)
  {
  }

  // ---------------------------------------------------------------------------
  // BLE device match

  /** An advertising peripheral as the scan callback sees it. */
  datatype Device = Device(name: Option<string>, localName: Option<string>, rssi: Option<int>)

  const RssiThreshold: int := -75
  const MissingRssi: int := -999

  /** `device.rssi || -999`: a missing RSSI, and also an RSSI of 0, becomes -999. */
  function EffectiveRssi(rssi: Option<int>): (r: int)
    ensures r == MissingRssi || (rssi == Some(r) && r != 0)
    ensures rssi.Some? && rssi.value != 0 ==> r == rssi.value
  {
    match rssi
    case None => MissingRssi
    case Some(v) => if v == 0 then MissingRssi else v
  }

  /** `field?.includes(beaconId)`: an absent field never matches, and an empty id is in every present field. */
  function FieldIncludes(field: Option<string>, beaconId: string): (b: bool)
    ensures b <==> field.Some? && exists i :: OccursAt(field.value, beaconId, i)
    ensures field.Some? && beaconId == [] ==> b
  {
    assert field.Some? && beaconId == [] ==> OccursAt(field.value, beaconId, 0);
    field.Some? && Includes(field.value, beaconId)
  }

  /** The scan callback's test: name or local name contains the beacon id, and the RSSI is above -75 dBm. */
  function DeviceMatches(d: Device, beaconId: string): (r: bool)
    ensures r <==> (FieldIncludes(d.name, beaconId) || FieldIncludes(d.localName, beaconId)) &&
                   d.rssi.Some? && d.rssi.value != 0 && d.rssi.value > RssiThreshold
  {
    (FieldIncludes(d.name, beaconId) || FieldIncludes(d.localName, beaconId)) &&
    EffectiveRssi(d.rssi) > RssiThreshold
  }

  /** The threshold is strict: -75 dBm is rejected, -74 dBm accepted. */
  lemma RssiThresholdIsStrict(name: string, beaconId: string)
    requires Includes(name, beaconId)
    ensures !DeviceMatches(Device(Some(name), None, Some(-75)), beaconId)
    ensures DeviceMatches(Device(Some(name), None, Some(-74)), beaconId)
    ensures !DeviceMatches(Device(Some(name), None, None), beaconId)
  {
  }

  // ---------------------------------------------------------------------------
  // The BLE race and its resolve-once latch

  /** What `bleManager.state()` can report. */
  datatype BleState = Unknown | Resetting | Unsupported | Unauthorized | PoweredOff | PoweredOn

  /** `{detected, method}` as `detectPresence` returns it. */
  datatype Detection = Detection(detected: bool, via: Option<Method>)

  const NotDetected: Detection := Detection(false, None)
  const DetectedByBluetooth: Detection := Detection(true, Some(Bluetooth))
  const DetectedByWifi: Detection := Detection(true, Some(Wifi))

  /** What the race can observe, in the order it happens. */
  datatype RaceEvent =
    | SoftDeadline                    // the 15 s timer fires
    | StateSettled(state: BleState)   // `bleManager.state()` settles (a rejection reads as not powered on)
    | Advertisement(device: Device)   // the scan callback receives a device
    | ScanError                       // the scan callback receives an error
    | HardDeadline                    // the 30 s auto-stop registered after the scan started

  /** The `resolved` flag together with the value the promise resolved to. */
  datatype Latch = Pending | Resolved(result: Detection)

  /** The race's state: the latch, whether the BLE state query has settled, and whether a scan is running. */
  datatype Race = Race(latch: Latch, stateKnown: bool, scanning: bool)

  const Initial: Race := Race(Pending, false, false)

  /** One event of the race. */
  function Step(beaconId: string, r: Race, e: RaceEvent): (n: Race)
    ensures r.latch.Resolved? ==> n.latch == r.latch
    ensures n.latch != r.latch ==>
              (n.latch == Resolved(NotDetected) && (e.SoftDeadline? || (e.StateSettled? && e.state != PoweredOn))) ||
              (n.latch == Resolved(DetectedByBluetooth) && e.Advertisement? && r.scanning && DeviceMatches(e.device, beaconId))
  {
    match e
    case SoftDeadline =>
      // the timer stops the scan and resolves not-detected; once resolved it has been cleared
      if r.latch.Pending? then Race(Resolved(NotDetected), r.stateKnown, false) else r
    case StateSettled(state) =>
      if r.stateKnown then r
      else if state == PoweredOn then r.(stateKnown := true, scanning := true)
      else if r.latch.Pending? then r.(latch := Resolved(NotDetected), stateKnown := true)
      else r.(stateKnown := true)
    case Advertisement(d) =>
      // a matching device stops the scan; only the first resolution counts
      if !r.scanning || !DeviceMatches(d, beaconId) then r
      else Race(if r.latch.Pending? then Resolved(DetectedByBluetooth) else r.latch, r.stateKnown, false)
    case ScanError => r
    case HardDeadline => if r.stateKnown then r.(scanning := false) else r
  }

  /** The race after a sequence of events. */
  function Run(beaconId: string, r: Race, events: seq<RaceEvent>): Race
    decreases |events|
  {
    if events == [] then r else Run(beaconId, Step(beaconId, r, events[0]), events[1..])
  }

  /** A reachable race: it resolved to one of its two outcomes, and no scan runs before the state query settled. */
  predicate WellFormed(r: Race) {
    (r.latch.Pending? || r.latch.result == NotDetected || r.latch.result == DetectedByBluetooth) &&
    (r.scanning ==> r.stateKnown)
  }

  lemma {:induction false} RunKeepsWellFormed(beaconId: string, r: Race, events: seq<RaceEvent>)
    requires WellFormed(r)
    ensures WellFormed(Run(beaconId, r, events))
    decreases |events|
  {
    if events != [] {
      RunKeepsWellFormed(beaconId, Step(beaconId, r, events[0]), events[1..]);
    }
  }

  /** The outcome of the race. The 15 s timer always fires in the end, so a latch
      still pending after the observed events resolves to not-detected. */
  function Settle(beaconId: string, events: seq<RaceEvent>): (d: Detection)
    ensures d == NotDetected || d == DetectedByBluetooth
  {
    RunKeepsWellFormed(beaconId, Initial, events);
    match Run(beaconId, Initial, events).latch
    case Pending => NotDetected
    case Resolved(d) => d
  }

  lemma {:induction false} RunAppend(beaconId: string, r: Race, first: seq<RaceEvent>, later: seq<RaceEvent>)
    ensures Run(beaconId, r, first + later) == Run(beaconId, Run(beaconId, r, first), later)
    decreases |first|
  {
    if first == [] {
      assert first + later == later;
    } else {
      assert (first + later)[1..] == first[1..] + later;
      RunAppend(beaconId, Step(beaconId, r, first[0]), first[1..], later);
    }
  }

  /** Once resolved, no later event changes the latch. */
  lemma {:induction false} ResolvedIsFinal(beaconId: string, r: Race, events: seq<RaceEvent>)
    requires r.latch.Resolved?
    ensures Run(beaconId, r, events).latch == r.latch
    decreases |events|
  {
    if events != [] {
      ResolvedIsFinal(beaconId, Step(beaconId, r, events[0]), events[1..]);
    }
  }

  /** The first event that resolves the race decides its outcome; everything after it is ignored. */
  lemma FirstResolutionWins(beaconId: string, first: seq<RaceEvent>, later: seq<RaceEvent>)
    requires Run(beaconId, Initial, first).latch.Resolved?
    ensures Settle(beaconId, first + later) == Settle(beaconId, first)
  {
    RunAppend(beaconId, Initial, first, later);
    ResolvedIsFinal(beaconId, Run(beaconId, Initial, first), later);
  }

  /** The timer firing first yields not-detected, whatever the scan reports afterwards. */
  lemma TimeoutFirstNotDetected(beaconId: string, later: seq<RaceEvent>)
    ensures Settle(beaconId, [SoftDeadline] + later) == NotDetected
  {
    FirstResolutionWins(beaconId, [SoftDeadline], later);
  }

  /** Bluetooth not powered on when the scan starts yields not-detected, whatever follows. */
  lemma BluetoothOffNotDetected(beaconId: string, state: BleState, later: seq<RaceEvent>)
    requires state != PoweredOn
    ensures Settle(beaconId, [StateSettled(state)] + later) == NotDetected
  {
    FirstResolutionWins(beaconId, [StateSettled(state)], later);
  }

  /** A matching device seen once the scan runs yields detection by Bluetooth, even if the timer fires later. */
  lemma MatchFirstDetected(beaconId: string, d: Device, later: seq<RaceEvent>)
    requires DeviceMatches(d, beaconId)
    ensures Settle(beaconId, [StateSettled(PoweredOn), Advertisement(d)] + later) == DetectedByBluetooth
  {
    var first := [StateSettled(PoweredOn), Advertisement(d)];
    var started := Step(beaconId, Initial, first[0]);
    assert first[1..] == [Advertisement(d)] && first[1..][1..] == [];
    assert Run(beaconId, Initial, first) == Run(beaconId, started, [Advertisement(d)]);
    assert Run(beaconId, started, [Advertisement(d)]) == Run(beaconId, Step(beaconId, started, Advertisement(d)), []);
    FirstResolutionWins(beaconId, first, later);
  }

  /** A device that passes the match test arrives as event `i` while a scan is running. */
  predicate MatchWhileScanning(beaconId: string, r: Race, events: seq<RaceEvent>, i: int) {
    0 <= i < |events| && events[i].Advertisement? && DeviceMatches(events[i].device, beaconId) &&
    Run(beaconId, r, events[..i]).scanning
  }

  lemma {:induction false} BluetoothNeedsMatchFrom(beaconId: string, r: Race, events: seq<RaceEvent>)
    requires Run(beaconId, r, events).latch == Resolved(DetectedByBluetooth)
    ensures r.latch == Resolved(DetectedByBluetooth) || exists i :: MatchWhileScanning(beaconId, r, events, i)
    decreases |events|
  {
    if events != [] {
      var n := Step(beaconId, r, events[0]);
      BluetoothNeedsMatchFrom(beaconId, n, events[1..]);
      if n.latch == Resolved(DetectedByBluetooth) {
        if r.latch != Resolved(DetectedByBluetooth) {
          assert events[..0] == [];
          assert MatchWhileScanning(beaconId, r, events, 0);
        }
      } else {
        var i :| MatchWhileScanning(beaconId, n, events[1..], i);
        var prefix := events[..i + 1];
        assert prefix[0] == events[0] && prefix[1..] == events[1..][..i];
        assert Run(beaconId, r, prefix) == Run(beaconId, n, events[1..][..i]);
        assert events[i + 1] == events[1..][i];
        assert MatchWhileScanning(beaconId, r, events, i + 1);
      }
    }
  }

  /** Detection by Bluetooth happens only through an observed device that passes the match test
      and arrives while the scan is running. */
  lemma BluetoothNeedsMatch(beaconId: string, events: seq<RaceEvent>)
    requires Settle(beaconId, events).detected
    ensures exists i :: MatchWhileScanning(beaconId, Initial, events, i)
  {
    RunKeepsWellFormed(beaconId, Initial, events);
    BluetoothNeedsMatchFrom(beaconId, Initial, events);
  }

  /** The step that resolves the race leaves no scan running. */
  lemma ResolvingStepStopsScan(beaconId: string, r: Race, e: RaceEvent)
    requires WellFormed(r) && r.latch.Pending?
    requires Step(beaconId, r, e).latch.Resolved?
    ensures !Step(beaconId, r, e).scanning
  {
  }

  /** If the timer fires before the state query settles, the scan still starts afterwards. It runs
      until a matching device or the 30 s auto-stop stops it, and the outcome stays not-detected
      even when a matching device is then seen. */
  lemma LateScanAfterTimeout(beaconId: string, d: Device)
    ensures Run(beaconId, Initial, [SoftDeadline, StateSettled(PoweredOn)]).scanning
    ensures !Run(beaconId, Initial, [SoftDeadline, StateSettled(PoweredOn), HardDeadline]).scanning
    ensures DeviceMatches(d, beaconId) ==>
              !Run(beaconId, Initial, [SoftDeadline, StateSettled(PoweredOn), Advertisement(d)]).scanning &&
              Settle(beaconId, [SoftDeadline, StateSettled(PoweredOn), Advertisement(d)]) == NotDetected
    ensures Settle(beaconId, [SoftDeadline, StateSettled(PoweredOn)]) == NotDetected
  {
    var late := [StateSettled(PoweredOn), Advertisement(d)];
    var events := [SoftDeadline] + late;
    var timedOut := Step(beaconId, Initial, SoftDeadline);
    var started := Step(beaconId, timedOut, late[0]);
    assert events[1..] == late && late[1..] == [Advertisement(d)] && late[1..][1..] == [];
    assert Run(beaconId, Initial, events) == Run(beaconId, timedOut, late);
    assert Run(beaconId, timedOut, late) == Run(beaconId, started, [Advertisement(d)]);
    assert Run(beaconId, started, [Advertisement(d)]) == Step(beaconId, started, Advertisement(d));
    FirstResolutionWins(beaconId, [SoftDeadline], late);
  }

  // ---------------------------------------------------------------------------
  // detectPresence

  /** `detectPresence`: WiFi first when the session has an SSID, otherwise or on a miss the BLE race. */
  function DetectPresence(beaconId: string, wifiSSID: string, current: Option<string>, events: seq<RaceEvent>): (d: Detection)
    ensures d.detected <==> d.via.Some?
    ensures d.via != Some(Manual)
    ensures d.via == Some(Wifi) <==> wifiSSID != [] && WifiMatches(current, wifiSSID)
    ensures !(wifiSSID != [] && WifiMatches(current, wifiSSID)) ==> d == Settle(beaconId, events)
  {
    if wifiSSID != [] && WifiMatches(current, wifiSSID) then DetectedByWifi
    else Settle(beaconId, events)
  }

  /** A WiFi match decides the result without looking at any BLE event: no scan is needed. */
  lemma WifiTakesPrecedence(beaconId: string, wifiSSID: string, current: Option<string>, events: seq<RaceEvent>)
    requires wifiSSID != [] && WifiMatches(current, wifiSSID)
    ensures DetectPresence(beaconId, wifiSSID, current, events) == DetectedByWifi
  {
  }

  /** `detectPresence` reports Bluetooth only after a device passing the match test arrived while the scan ran. */
  lemma BluetoothDetectionNeedsMatch(beaconId: string, wifiSSID: string, current: Option<string>, events: seq<RaceEvent>)
    requires DetectPresence(beaconId, wifiSSID, current, events).via == Some(Bluetooth)
    ensures exists i :: MatchWhileScanning(beaconId, Initial, events, i)
  {
    BluetoothNeedsMatch(beaconId, events);
  }

  /** An empty SSID skips the WiFi check: the result is the BLE race's, whatever network is current. */
  lemma EmptySsidSkipsWifi(beaconId: string, current: Option<string>, events: seq<RaceEvent>)
    ensures DetectPresence(beaconId, [], current, events) == Settle(beaconId, events)
  {
  }
}

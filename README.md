# AttendTrack attendance core, modelled in Dafny

AttendTrack is a React Native app that records attendance when a student's phone
shows it is near a live session. It checks two signals: the phone is on the
session's WiFi network, or it sees the admin's Bluetooth beacon strongly enough.
This project models the parts of the app that hold logic, and proves properties
of them:

- **The attendance ledger** (`ledger.dfy`, module `Ledger`). It holds the
  attendance context's two ordered collections, sessions and attendance records,
  plus the "current session" reference. It is a class whose methods replace
  those `seq` fields. Its operations are create session, end session, mark
  attendance (the deduplication gate: at most one record per user and session)
  and manual mark. The three read projections are pure filters. The proofs
  cover these points:
  - the one-record-per-pair invariant holds over any series of calls;
  - the first call for a pair decides the stored record;
  - appends and updates leave everything else unchanged;
  - the filters are exact and keep the original order.
- **Proximity detection** (`connectivity.dfy`, module `Connectivity`):
  - the WiFi test: SSIDs are lower-cased, trimmed and compared;
  - the BLE device test: name or local name contains the beacon id, and the
    RSSI is strictly above -75 dBm;
  - the Android all-permissions-granted rule;
  - `detectPresence`: WiFi first. After a miss, a BLE scan races a 15-second
    timer. A one-shot `resolved` latch keeps the first of timeout, match or
    scan-start failure. The latch is a state machine (`Pending` → `Resolved`)
    driven by an abstract sequence of race events.
- **The check-in attempt** (`check_in.dfy`, module `CheckIn`), the
  `startCheckIn` loop of the attendance screen:
  - it walks the active sessions in order and skips sessions the user is
    already marked for;
  - it runs one detection per remaining session;
  - it stops at the first positive detection whose mark succeeds;
  - it swallows a detection's exception and goes on with the next session.

  Each detection's outcome is an input (`Probe`), one per active session.
  `ProbesFor` builds these inputs from `DetectPresence`.
- **The create-session form** (`session_form.dfy`, module `SessionForm`). The
  `handleCreate` checks run in order: first the trimmed name, then the
  untrimmed beacon id and SSID. The fields are trimmed before they go to the
  ledger. The module also states the shape of the id `generateBeaconId`
  proposes.
- `js_strings.dfy` (module `JsStrings`) models the JavaScript string
  operations these rely on: `trim`, `toLowerCase`/`toUpperCase`, `includes`
  and `Number.prototype.toString`. `base.dfy` holds `Option` and `Result`.

Behaviours of the code a reader may not expect, which the model follows:

- `endSession` on an already-ended session re-stamps `endedAt`
  (`EndTwiceRestamps`).
- `markAttendance` does not check that the session exists or is active. There
  is no "session not found" outcome.
- `detectPresence` starts the BLE race even when the beacon id is empty, and
  also when both the SSID and the beacon id are empty.
- If the 15 s timer fires before the Bluetooth state query settles, the scan
  starts anyway. It runs until a matching device or the 30 s auto-stop stops
  it (`LateScanAfterTimeout`), or until the next detection's `startBleScan`
  stops it first. That last case lies across two races, outside this model.
- After a positive detection whose mark is refused, the check-in loop goes on
  to the next session. No run of the model reaches that branch: the skip test
  and the gate read the same records.

## Model

| member | source | states |
|---|---|---|
| `Ledger.SessionRecords` | src/context/AttendanceContext.tsx:86 | the result holds exactly the records whose session id is the given one |
| `Ledger.UserRecords` | src/context/AttendanceContext.tsx:87 | the result holds exactly the records whose user id is the given one |
| `Ledger.ActiveSessions` | src/context/AttendanceContext.tsx:88 | the result holds exactly the sessions with `active` set |
| `Ledger.Filter` | src/context/AttendanceContext.tsx:86-88 | a filter keeps exactly the elements satisfying the predicate and is never longer than its input |
| `Ledger.FilterAppend` | src/context/AttendanceContext.tsx:86-88 | filtering a concatenation concatenates the filtered parts, so the projections keep the original order |
| `Ledger.FindRecord` | src/context/AttendanceContext.tsx:63 | the lookup finds a record iff one exists for the (user, session) pair, and it returns the first such record |
| `Ledger.NewRecord` | src/context/AttendanceContext.tsx:66-75 | the new record carries the given user id, user name, session and method, status present, the timestamp's decimal text as its id, and the call's ISO time and day |
| `Ledger.Marked` | src/context/AttendanceContext.tsx:61-79 | after a mark the pair is recorded; the old records are kept as a prefix; at most one record is appended; no-duplicate-pair is preserved |
| `Ledger.MarkAllPreservesUnique` | src/context/AttendanceContext.tsx:61-79 | over any series of marks, no two records share a (user, session) pair, earlier records stay in place, and at most one record per call is added |
| `Ledger.RecordedPairIsStable` | src/context/AttendanceContext.tsx:63-64 | once a pair is recorded, no later series of calls changes its records |
| `Ledger.OtherPairsDoNotTouch` | src/context/AttendanceContext.tsx:61-79 | calls for other pairs never add a record for this pair |
| `Ledger.FirstMarkWins` | src/context/AttendanceContext.tsx:61-79 | for a pair with no record yet, any series of calls leaves exactly one record of it, built from the first call for that pair (its method wins) |
| `Ledger.RepeatedMarkIsNoop` | src/context/AttendanceContext.tsx:63-64 | a call for a pair that already has a record, from an earlier call or loaded data and with any method (manual marks included), leaves the records unchanged |
| `Ledger.MarkReflectedInViews` | src/context/AttendanceContext.tsx:76-87 | a new record appears at once at the end of its session's and its user's projections |
| `Ledger.NewSession` | src/context/AttendanceContext.tsx:34-44 | a created session is active with no end time; its id is the decimal millisecond timestamp, `createdAt` the ISO time and `date` the day of the same clock reading; an empty beacon id becomes `BEACON_` followed by that id, and a given one is kept |
| `Ledger.CreatedSessionIsActiveLast` | src/context/AttendanceContext.tsx:45-49 | creating a session appends it to the active list; sessions already active stay active and in order |
| `Ledger.Close` | src/context/AttendanceContext.tsx:54 | a closed session is inactive with `endedAt` set to the given time, and every other field is kept as it was |
| `Ledger.Ended` | src/context/AttendanceContext.tsx:53-55 | ending keeps the length; every session with the id becomes inactive with `endedAt` stamped, and all others are unchanged |
| `Ledger.EndTwiceRestamps` | src/context/AttendanceContext.tsx:52-58 | ending twice equals ending once at the later time (still inactive, `endedAt` re-stamped) |
| `Ledger.EndUnknownIsNoop` | src/context/AttendanceContext.tsx:53-55 | ending an id no session has leaves the sessions unchanged |
| `Ledger.EndRemovesFromActive` | src/context/AttendanceContext.tsx:52-58 | after ending, the active list is the old active list minus the sessions with that id, in order |
| `Ledger.AttendanceLedger.constructor` | src/context/AttendanceContext.tsx:8-10 | the provider starts with no sessions, no records and no current session |
| `Ledger.AttendanceLedger.CreateSession` | src/context/AttendanceContext.tsx:34-49 | appends exactly the new session, leaves the records alone, and makes the new session current |
| `Ledger.AttendanceLedger.EndSession` | src/context/AttendanceContext.tsx:52-58 | replaces the sessions by their ended form, leaves the records alone, and clears the current session unconditionally |
| `Ledger.AttendanceLedger.MarkAttendance` | src/context/AttendanceContext.tsx:61-79 | refuses with "Already marked for this session" and no change when the pair exists; otherwise appends the one new record and returns it; sessions untouched; no-duplicate-pair preserved |
| `Ledger.AttendanceLedger.ManualMark` | src/context/AttendanceContext.tsx:82-84 | behaves as a mark with method manual, through the same gate |
| `JsStrings.TrimStartIsSuffix` | src/services/ConnectivityService.ts:58 | what remains after dropping leading whitespace is a suffix of the input |
| `JsStrings.TrimEndIsPrefix` | src/services/ConnectivityService.ts:58 | what remains after dropping trailing whitespace is a prefix of the input |
| `JsStrings.Trim` | src/services/ConnectivityService.ts:58 | the result is a contiguous slice of the input with only whitespace cut from both ends, and it neither starts nor ends with whitespace |
| `JsStrings.TrimIgnoresSurroundingWhitespace` | src/services/ConnectivityService.ts:58 | whitespace around a string makes no difference to its trimmed form |
| `JsStrings.TrimIdempotent` | src/screens/admin/CreateSessionScreen.tsx:48 | trimming twice equals trimming once |
| `JsStrings.Lower` | src/services/ConnectivityService.ts:58 | lower-casing keeps the length, maps each character on its own, and leaves no upper-case letter |
| `JsStrings.LowerOfNoUpper` | src/services/ConnectivityService.ts:58 | lower-casing a text without upper-case letters changes nothing |
| `JsStrings.TrimKeepsNoUpper` | src/services/ConnectivityService.ts:58 | trimming a text without upper-case letters leaves none |
| `JsStrings.Upper` | src/screens/admin/CreateSessionScreen.tsx:43 | upper-casing keeps the length and maps each character on its own |
| `JsStrings.Includes` | src/services/ConnectivityService.ts:78-79 | `includes` holds iff the needle occurs at some position of the haystack |
| `JsStrings.DecimalString` | src/context/AttendanceContext.tsx:36 | a timestamp's text is non-empty decimal digits with no leading zero, and those digits denote the timestamp |
| `Connectivity.AllGranted` | src/services/ConnectivityService.ts:35 | holds iff every permission status is granted (true for none) |
| `Connectivity.PermissionsGranted` | src/services/ConnectivityService.ts:25-40 | true off Android; on Android true iff the request replied and every status is granted, false when it threw |
| `Connectivity.WifiMatches` | src/services/ConnectivityService.ts:55-59 | false for no SSID or an empty one; otherwise true iff the lower-cased, trimmed SSIDs are equal |
| `Connectivity.NormalizedSsid` | src/services/ConnectivityService.ts:58 | the compared form is no longer than the SSID, holds no upper-case letter, and neither starts nor ends with whitespace |
| `Connectivity.NormalizedSsidIdempotent` | src/services/ConnectivityService.ts:58 | normalising an SSID twice is normalising it once |
| `Connectivity.WifiMatchIgnoresCase` | src/services/ConnectivityService.ts:58 | upper-casing either SSID does not change the outcome |
| `Connectivity.WifiMatchIgnoresSurroundingWhitespace` | src/services/ConnectivityService.ts:58 | whitespace around the current SSID does not change the outcome |
| `Connectivity.WifiMatchSymmetric` | src/services/ConnectivityService.ts:58 | for two non-empty SSIDs the test is symmetric |
| `Connectivity.EffectiveRssi` | src/services/ConnectivityService.ts:80 | a missing RSSI, and an RSSI of 0, become -999; any other reading is kept |
| `Connectivity.FieldIncludes` | src/services/ConnectivityService.ts:78-79 | an optional name field contains the beacon id iff it is present and the id occurs in it; a present field always contains an empty id |
| `Connectivity.DeviceMatches` | src/services/ConnectivityService.ts:77-82 | a device matches iff its name or local name contains the beacon id and it reports a non-zero RSSI strictly above -75 |
| `Connectivity.RssiThresholdIsStrict` | src/services/ConnectivityService.ts:19-80 | -75 dBm is rejected, -74 dBm accepted, and a missing RSSI rejected |
| `Connectivity.Step` | src/services/ConnectivityService.ts:109-130 | a resolved latch never changes; a pending latch resolves only to not-detected by the timer or a not-powered-on state, or to Bluetooth by a matching device during a scan |
| `Connectivity.RunKeepsWellFormed` | src/services/ConnectivityService.ts:108-131 | over any events the latch holds only not-detected or Bluetooth, and no scan runs before the state query settles |
| `Connectivity.Settle` | src/services/ConnectivityService.ts:108-131 | the race's outcome is either not-detected or detected by Bluetooth |
| `Connectivity.ResolvedIsFinal` | src/services/ConnectivityService.ts:109-130 | after resolution no event changes the latch |
| `Connectivity.FirstResolutionWins` | src/services/ConnectivityService.ts:109-130 | events after the first resolving one have no effect on the outcome |
| `Connectivity.TimeoutFirstNotDetected` | src/services/ConnectivityService.ts:110-116 | the timer firing first gives not-detected, whatever follows |
| `Connectivity.BluetoothOffNotDetected` | src/services/ConnectivityService.ts:62-66 | a state other than powered-on at scan start gives not-detected, whatever follows |
| `Connectivity.MatchFirstDetected` | src/services/ConnectivityService.ts:118-123 | a matching device seen during the scan gives detected-by-Bluetooth, even if the timer fires later |
| `Connectivity.BluetoothNeedsMatch` | src/services/ConnectivityService.ts:70-85 | a Bluetooth detection implies that some device passing the match test arrived while a scan was running |
| `Connectivity.ResolvingStepStopsScan` | src/services/ConnectivityService.ts:110-123 | the step that resolves the race leaves no scan running |
| `Connectivity.LateScanAfterTimeout` | src/services/ConnectivityService.ts:62-89 | a timer that fires before the state query settles still lets the scan start; a matching device or the 30 s auto-stop stops it; the outcome stays not-detected, even when a matching device is then seen |
| `Connectivity.DetectPresence` | src/services/ConnectivityService.ts:97-131 | detected iff a method is set; never manual; WiFi iff the SSID is non-empty and matches; otherwise the BLE race's outcome |
| `Connectivity.BluetoothDetectionNeedsMatch` | src/services/ConnectivityService.ts:118-123 | `detectPresence` reports Bluetooth only after a device passing the match test arrived while the scan ran |
| `Connectivity.WifiTakesPrecedence` | src/services/ConnectivityService.ts:101-105 | a WiFi match gives detected-by-WiFi whatever the BLE events would have been |
| `Connectivity.EmptySsidSkipsWifi` | src/services/ConnectivityService.ts:102 | an empty SSID gives the BLE race's outcome, whatever network is current |
| `CheckIn.AlreadyMarkedAgreesWithGate` | src/screens/student/MarkAttendanceScreen.tsx:22-23 | the screen skips a session exactly when the ledger's gate would refuse to mark it |
| `CheckIn.IsAlreadyMarked` | src/screens/student/MarkAttendanceScreen.tsx:22-23 | the screen's test holds exactly when the records already hold one for the user and session |
| `CheckIn.Positive` | src/screens/student/MarkAttendanceScreen.tsx:57 | a positive detection carries the method to record; for a detection whose flag agrees with its method, it is exactly the `detected` flag |
| `CheckIn.FirstStop` | src/screens/student/MarkAttendanceScreen.tsx:48-68 | the stopping session is unmarked with a positive detection, and no earlier session is |
| `CheckIn.DetectorCalls` | src/screens/student/MarkAttendanceScreen.tsx:48-55 | the number of detections is at most the number of sessions walked, and zero iff all of them are already marked |
| `CheckIn.ProbesFor` | src/screens/student/MarkAttendanceScreen.tsx:52-55 | real detections, each reading the current SSID afresh, never throw and never report manual |
| `CheckIn.DetectedCheckInIsWifiOrBluetooth` | src/screens/student/MarkAttendanceScreen.tsx:57-63 | with real detections, a check-in records WiFi or Bluetooth |
| `CheckIn.WifiSessionFirstStopsAtOnce` | src/screens/student/MarkAttendanceScreen.tsx:48-68 | an unmarked first session on the current WiFi stops the loop after one detection, so later sessions are not scanned for |
| `CheckIn.RunDetections` | src/screens/student/MarkAttendanceScreen.tsx:46-73 | the loop makes one detection per unmarked session up to the first stop, appends exactly that session's record, and reports its method and name; otherwise nothing changes |
| `CheckIn.MarkAttendanceScreen.constructor` | src/screens/student/MarkAttendanceScreen.tsx:16-17 | the screen starts idle with no result |
| `CheckIn.MarkAttendanceScreen.StartCheckIn` | src/screens/student/MarkAttendanceScreen.tsx:25-82 | no sessions: nothing happens; permissions denied: no detection and back to idle; otherwise at most one new record, calls bounded by the session count, and success iff a record was made (with method and session name) |
| `SessionForm.Validate` | src/screens/admin/CreateSessionScreen.tsx:47-63 | a blank trimmed name is rejected first; an empty untrimmed beacon id and SSID are rejected next; otherwise the trimmed fields and the admin id go on |
| `SessionForm.ErrorMessage` | src/screens/admin/CreateSessionScreen.tsx:48-54 | each rejection has a non-empty alert text |
| `SessionForm.AcceptedNameIsTrimmed` | src/screens/admin/CreateSessionScreen.tsx:48-59 | an accepted name reaches the ledger non-empty and already trimmed |
| `SessionForm.BlankBeaconIsGenerated` | src/screens/admin/CreateSessionScreen.tsx:52-61 | a whitespace-only beacon id passes the check, arrives empty, and the ledger replaces it with `BEACON_` followed by the timestamp |
| `SessionForm.BeaconIdFrom` | src/screens/admin/CreateSessionScreen.tsx:42-45 | a generated id is `ATD_` followed by at most six characters, none a lower-case letter |
| `SessionForm.GeneratedIdShape` | src/screens/admin/CreateSessionScreen.tsx:43 | for a random number's base-36 text, the id is `ATD_` followed by the first six or fewer digits, upper-cased |
| `SessionForm.CreateSessionForm.constructor` | src/screens/admin/CreateSessionScreen.tsx:13-16 | the form starts with empty fields, not loading |
| `SessionForm.CreateSessionForm.GenerateBeaconId` | src/screens/admin/CreateSessionScreen.tsx:42-45 | fills in the beacon id field only |
| `SessionForm.CreateSessionForm.HandleCreate` | src/screens/admin/CreateSessionScreen.tsx:47-73 | returns the validation error with its alert text, or the session `createSession` builds from the trimmed fields with no error alert; on rejection nothing changes, otherwise the session is appended and made current, the fields are cleared and `loading` ends false |

## Left out

- Persistence through AsyncStorage is left out: `loadData`, `saveSessions`,
  `saveRecords` and the storage calls. Only the in-memory collections are
  modelled.
- A failed storage write inside `markAttendance` is left out. The source
  puts the new record in memory before the write. If the write then fails, the
  check-in loop catches the error and goes on to the next session. Every mark
  in one attempt builds its list from the records of the render the attempt
  started in. So a later successful mark replaces the list holding the first
  record, and that record is lost. The model has no storage failures, so it
  does not capture this.
- A failed `createSession` is left out. In `handleCreate` only a storage error
  can cause it, and the source then shows the "Failed to create session" alert.
- Platform services are abstract inputs:
  - NetInfo: the current SSID as `getCurrentWifiSSID` returns it, one reading
    per `detectPresence` call;
  - the BLE manager: the state it reports and the devices the scan delivers,
    as race events;
  - `PermissionsAndroid`: the reply to the permission request, as a list of
    statuses. Which five permissions are requested is not modelled;
  - `Platform.OS`: the platform.
- Timers are events, not durations. The 15 s timer is `SoftDeadline` and the
  30 s auto-stop is `HardDeadline`. Promise scheduling, concurrent check-ins
  and React state staleness between renders are left out.
- Clock readings and randomness are inputs:
  - `Date.now()`, `new Date().toISOString()` and `format(..., 'yyyy-MM-dd')`
    are one `Moment` per operation. `createSession` reads `Date.now()` twice
    (the id, and the `BEACON_` suffix), and the two readings may differ by a
    millisecond. The model uses one reading for both.
  - `Math.random()` is the base-36 text of the number. Ids are not unique in
    the source, and the model does not assume that they are.
- `JsStrings.Lower`: only ASCII letters are case-mapped. JavaScript's
  `toLowerCase` also maps non-ASCII letters, and JavaScript strings are UTF-16
  code units rather than characters.
- `JsStrings.Upper`: only ASCII letters are case-mapped, as for `Lower`.
- `SessionForm.CreateSessionForm.HandleCreate`: the source clears the fields
  only when the confirmation alert's OK button is pressed. The model clears
  them when the creation succeeds.
- `CheckIn.MarkAttendanceScreen.StartCheckIn`: the permission request is an
  input value. "Permissions are not requested when there are no active
  sessions" shows only as the phase staying unchanged.
- Alerts, the progress animation, `reset`, `autoDetectWifi`,
  `handleEndSession`'s confirmation dialog, `destroy`, and all rendering and
  navigation are left out. So are the read-only screens and the demo login.

/**
  The admin's create-session form: the checks `handleCreate` makes before it
  calls `createSession`, the trimming of the fields it passes on, and the shape
  of the beacon id `generateBeaconId` proposes. `Math.random()` is an input:
  the base-36 text of the random number.
*/
module SessionForm {
  import opened Base
  import opened JsStrings
  import Ledger

  datatype FormError = MissingName | MissingDetector

  /** The text of the error alert shown for each rejection. */
  function ErrorMessage(e: FormError): (m: string)
    ensures m != []
  {
    match e
    case MissingName => "Please enter a session name"
    case MissingDetector => "Please set at least a Beacon ID or WiFi SSID for detection"
  }

  /** The arguments `handleCreate` passes to `createSession`. */
  datatype SessionDraft = SessionDraft(name: string, beaconId: string, wifiSSID: string, adminId: Option<string>)

  /** The checks of `handleCreate`, in order: the trimmed name, then the untrimmed beacon id and SSID. */
  function Validate(name: string, beaconId: string, wifiSSID: string, adminId: Option<string>): (r: Result<SessionDraft, FormError>)
    ensures r == Failure(MissingName) <==> Trim(name) == []
    ensures r == Failure(MissingDetector) <==> Trim(name) != [] && beaconId == [] && wifiSSID == []
    ensures r.Success? ==> r.value == SessionDraft(Trim(name), Trim(beaconId), Trim(wifiSSID), adminId)
  {
    if Trim(name) == [] then Failure(MissingName)
    else if beaconId == [] && wifiSSID == [] then Failure(MissingDetector)
    else Success(SessionDraft(Trim(name), Trim(beaconId), Trim(wifiSSID), adminId))
  }

  lemma WhitespaceTrimsToEmpty(s: string)
    requires AllWhitespace(s)
    ensures Trim(s) == []
  {
  }

  /** An accepted name reaches the ledger non-empty and already trimmed. */
  lemma AcceptedNameIsTrimmed(name: string, beaconId: string, wifiSSID: string, adminId: Option<string>)
    requires Validate(name, beaconId, wifiSSID, adminId).Success?
    ensures var d := Validate(name, beaconId, wifiSSID, adminId).value;
            d.name != [] && Trim(d.name) == d.name
  {
  }

  /** A whitespace-only beacon id passes the untrimmed check, reaches the ledger empty,
      and the ledger then generates `BEACON_<millis>` for it. */
  lemma BlankBeaconIsGenerated(name: string, beaconId: string, adminId: Option<string>, now: Ledger.Moment)
    requires Trim(name) != [] && beaconId != [] && AllWhitespace(beaconId)
    ensures Validate(name, beaconId, [], adminId).Success?
    ensures var d := Validate(name, beaconId, [], adminId).value;
            Ledger.NewSession(d.name, d.beaconId, d.wifiSSID, d.adminId, now).beaconId ==
            Ledger.GeneratedBeaconPrefix + DecimalString(now.millis)
  {
    WhitespaceTrimsToEmpty(beaconId);
  }

  // ---------------------------------------------------------------------------
  // generateBeaconId

  const GeneratedIdPrefix: string := "ATD_"

  /** `'ATD_' + text.substring(2, 8).toUpperCase()`; `substring` clamps both ends to the text. */
  function BeaconIdFrom(randomText: string): (id: string)
    ensures |id| <= |GeneratedIdPrefix| + 6 && GeneratedIdPrefix <= id
    ensures |id| == |GeneratedIdPrefix| + (if |randomText| <= 2 then 0 else if |randomText| >= 8 then 6 else |randomText| - 2)
    ensures forall i :: |GeneratedIdPrefix| <= i < |id| ==> !('a' <= id[i] <= 'z')
  {
    var lo := if |randomText| < 2 then |randomText| else 2;
    var hi := if |randomText| < 8 then |randomText| else 8;
    GeneratedIdPrefix + Upper(randomText[lo..hi])
  }

  predicate IsBase36Digit(c: char) {
    '0' <= c <= '9' || 'a' <= c <= 'z'
  }

  predicate IsUpperBase36Digit(c: char) {
    '0' <= c <= '9' || 'A' <= c <= 'Z'
  }

  /** For the text of a random number in [0, 1), `0.` followed by base-36 digits, the id is `ATD_`
      followed by the first (at most six) digits in upper case. */
  lemma GeneratedIdShape(digits: string)
    requires forall i :: 0 <= i < |digits| ==> IsBase36Digit(digits[i])
    ensures var n := if |digits| < 6 then |digits| else 6;
            BeaconIdFrom("0." + digits) == GeneratedIdPrefix + Upper(digits[..n])
    ensures var id := BeaconIdFrom("0." + digits);
            forall i :: |GeneratedIdPrefix| <= i < |id| ==> IsUpperBase36Digit(id[i])
  {
  }

  // ---------------------------------------------------------------------------
  // The form's state

  class CreateSessionForm {
    var name: string
    var beaconId: string
    var wifiSSID: string
    var loading: bool

    constructor ()
      ensures name == [] && beaconId == [] && wifiSSID == [] && !loading
    {
      name, beaconId, wifiSSID, loading := [], [], [], false;
    }

    /** `generateBeaconId`: fills the beacon id field and nothing else. */
    method GenerateBeaconId(randomText: string)
      modifies this
      ensures beaconId == BeaconIdFrom(randomText)
      ensures name == old(name) && wifiSSID == old(wifiSSID) && loading == old(loading)
    {
      beaconId := BeaconIdFrom(randomText);
    }

    /** `handleCreate`: on a rejection the error alert is shown and nothing changes; otherwise the
        ledger gets the trimmed fields, the fields are cleared (when the confirmation is dismissed)
        and `loading` ends false. */
    method HandleCreate(ledger: Ledger.AttendanceLedger, adminId: Option<string>, now: Ledger.Moment)
      returns (r: Result<Ledger.Session, FormError>, errorAlert: Option<string>)
      modifies this, ledger
      ensures errorAlert == if r.Failure? then Some(ErrorMessage(r.error)) else None
      ensures ledger.records == old(ledger.records)
      ensures r == match Validate(old(name), old(beaconId), old(wifiSSID), adminId)
                   case Failure(e) => Failure(e)
                   case Success(d) => Success(Ledger.NewSession(d.name, d.beaconId, d.wifiSSID, d.adminId, now))
      ensures r.Failure? ==>
                name == old(name) && beaconId == old(beaconId) && wifiSSID == old(wifiSSID) && loading == old(loading) &&
                ledger.sessions == old(ledger.sessions) && ledger.activeSession == old(ledger.activeSession)
      ensures r.Success? ==>
                ledger.sessions == old(ledger.sessions) + [r.value] && ledger.activeSession == Some(r.value) &&
                name == [] && beaconId == [] && wifiSSID == [] && !loading
    {
      match Validate(name, beaconId, wifiSSID, adminId)
      case Failure(e) =>
        r, errorAlert := Failure(e), Some(ErrorMessage(e));
      case Success(d) =>
        errorAlert := None;
        loading := true;
        var session := ledger.CreateSession(d.name, d.beaconId, d.wifiSSID, d.adminId, now);
        name, beaconId, wifiSSID := [], [], [];
        loading := false;
        r := Success(session);
    }
  }
}

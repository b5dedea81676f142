/** The records an update goes through when nothing stands in its way, one state after the other. */
module OtaPlan {
  import opened Wrappers
  import opened OtaModel
  import Utf8

  /** The slot a boot came up in, the release it runs, and whether it passes the health check. */
  datatype Boot = Boot(slot: Slot, release: Release, healthy: bool)

  /** An environment that cooperates: no step fails, and the server offers one update. */
  datatype Luck = Luck(boots: map<string, Boot>, offer: Manifest, id: string)

  function Other(slot: Slot): Slot {
    if slot == SlotA then SlotB else SlotA
  }

  /** The attempt as it is recorded when the update is admitted. */
  function Offered(luck: Luck): Persistent {
    FRESH.(state := Precheck, attemptId := luck.id, targetVersion := luck.offer.version, buildId := luck.offer.buildId,
           artifactUrl := luck.offer.artifactUrl, expectedSize := luck.offer.size, expectedSha256 := luck.offer.sha256)
  }

  /** ... and when it is about to be installed, from the boot `bootId` in `slot`. */
  function Captured(luck: Luck, bootId: string, slot: Slot): Persistent {
    Offered(luck).(state := Installing, bootIdBefore := bootId, previousSlot := slot, candidateSlot := Other(slot), context := RebootInstall)
  }

  /** The record in each state of the update. */
  function Planned(luck: Luck, bootId: string, slot: Slot, state: State): Persistent {
    var i := Index(state);
    if i < 3 then FRESH.(state := state)
    else if i < 7 then Offered(luck).(state := state)
    else Captured(luck, bootId, slot).(state := state)
  }

  /** The state after each of them. */
  function After(s: State): State {
    match s
    case Idle => CheckNetwork
    case CheckNetwork => CheckUpdate
    case CheckUpdate => Precheck
    case Precheck => Downloading
    case Downloading => VerifyDownload
    case VerifyDownload => RaucVerify
    case RaucVerify => Installing
    case Installing => RebootPending
    case RebootPending => BootNewSlot
    case BootNewSlot => HealthCheck
    case HealthCheck => MarkGood
    case MarkGood => ReportSuccess
    case _ => Idle
  }

  /** An upgrade is offered to a device that came up in one of its two slots. */
  predicate Offers(luck: Luck, bootId: string) {
    && bootId in luck.boots && UuidV4(bootId) && UuidV4(luck.id)
    && (luck.boots[bootId].slot == SlotA || luck.boots[bootId].slot == SlotB)
    && Admit(luck.boots[bootId].release, luck.offer) == Update
  }

  /** `bootId` comes up in the candidate slot with the offered release, in good health ... */
  predicate Upgraded(luck: Luck, before: string, bootId: string) {
    Arrives(luck, before, bootId) && luck.boots[bootId].healthy
  }

  /** ... or not. */
  predicate Unwell(luck: Luck, before: string, bootId: string) {
    Arrives(luck, before, bootId) && !luck.boots[bootId].healthy
  }

  predicate Arrives(luck: Luck, before: string, bootId: string) {
    && before in luck.boots && bootId in luck.boots && bootId != before && UuidV4(bootId)
    && luck.boots[bootId].slot == Other(luck.boots[before].slot)
    && CandidateRelease(luck.boots[bootId].release, Offered(luck))
  }

  lemma {:induction false} AsciiValid(s: seq<int>)
    requires forall i :: 0 <= i < |s| ==> 0 <= s[i] < 0x80
    ensures Utf8.Valid(s)
  {
    if s != [] {
      AsciiValid(s[1..]);
    }
  }

  lemma UuidIsText(s: string)
    requires UuidV4(s)
    ensures BoundedText(s, UUID_CAP) && s != ""
  {
    forall i | 0 <= i < |s| ensures '-' <= s[i] <= 'f' {
    }
    AsciiValid(Utf8.Codes(s));
  }

  lemma ShaIsText(s: string)
    requires Sha256Text(s)
    ensures BoundedText(s, SHA256_CAP) && s != ""
  {
    forall i | 0 <= i < |s| ensures '0' <= s[i] <= 'f' {
    }
    AsciiValid(Utf8.Codes(s));
  }

  lemma EmptyIsText(cap: nat)
    requires cap > 0
    ensures BoundedText("", cap)
  {
  }

  lemma OfferedTexts(luck: Luck, bootId: string)
    requires Offers(luck, bootId)
    ensures TextsValid(Offered(luck)) && TextsValid(Captured(luck, bootId, luck.boots[bootId].slot)) && luck.id != ""
  {
    hide BoundedText, UuidV4, Sha256Text, ArtifactPath;
    UuidIsText(luck.id);
    UuidIsText(bootId);
    ShaIsText(luck.offer.sha256);
    EmptyIsText(ERROR_CAP);
    EmptyIsText(UUID_CAP);
  }

  lemma FreshTexts()
    ensures TextsValid(FRESH)
  {
  }

  lemma PlannedTexts(luck: Luck, bootId: string, state: State)
    requires Offers(luck, bootId)
    ensures TextsValid(Planned(luck, bootId, luck.boots[bootId].slot, state)) && luck.id != ""
  {
    hide TextsValid, Admit, UuidV4;
    OfferedTexts(luck, bootId);
    FreshTexts();
    TextsOfState(FRESH, state);
    TextsOfState(Offered(luck), state);
    TextsOfState(Captured(luck, bootId, luck.boots[bootId].slot), state);
  }

  lemma PlannedShape(luck: Luck, bootId: string, slot: Slot, state: State)
    requires luck.id != "" && slot != SlotUnknown && Index(state) <= 12
    ensures ShapeValid(Planned(luck, bootId, slot, state))
  {
  }

  lemma PlannedValid(luck: Luck, bootId: string, state: State)
    requires Offers(luck, bootId) && Index(state) <= 12
    ensures Valid(Planned(luck, bootId, luck.boots[bootId].slot, state))
  {
    hide TextsValid, ShapeValid, Planned, Admit, UuidV4;
    PlannedTexts(luck, bootId, state);
    PlannedShape(luck, bootId, luck.boots[bootId].slot, state);
  }

  /** The texts of a record have nothing to do with its state. */
  lemma TextsOfState(s: Persistent, state: State)
    requires TextsValid(s)
    ensures TextsValid(s.(state := state))
  {
  }

  /** Each record may follow the one before. */
  lemma PlanFollows(luck: Luck, bootId: string, state: State)
    requires Offers(luck, bootId) && Index(state) < 12
    ensures var slot := luck.boots[bootId].slot;
      Follows(Planned(luck, bootId, slot, state), Planned(luck, bootId, slot, After(state)))
  {
    hide Valid, TransitionAllowed, IdentityKept, Planned, UuidV4, Admit, Index;
    var slot := luck.boots[bootId].slot;
    AfterIndex(state);
    PlannedValid(luck, bootId, After(state));
    PlanMoves(luck, bootId, slot, state);
    PlanIdentity(luck, bootId, slot, state);
  }

  const UNHEALTHY := OtaError(HealthFailed, "")

  /** What becomes of the attempt when the candidate fails its health check. */
  function Rolled(s: Persistent): Persistent {
    s.(state := Rollback, lastError := UNHEALTHY, context := RebootHealthFailure)
  }

  lemma RolledTexts(s: Persistent)
    requires TextsValid(s)
    ensures TextsValid(Rolled(s))
  {
    EmptyIsText(ERROR_CAP);
  }

  lemma RolledFollows(luck: Luck, bootId: string)
    requires Offers(luck, bootId)
    ensures var s := Planned(luck, bootId, luck.boots[bootId].slot, HealthCheck); Follows(s, Rolled(s))
  {
    hide TextsValid, UuidV4, Admit;
    PlannedTexts(luck, bootId, HealthCheck);
    RolledTexts(Planned(luck, bootId, luck.boots[bootId].slot, HealthCheck));
  }

  lemma AfterIndex(state: State)
    requires Index(state) < 12
    ensures Index(After(state)) == Index(state) + 1
  {
  }

  lemma PlanMoves(luck: Luck, bootId: string, slot: Slot, state: State)
    requires Index(state) < 12
    ensures TransitionAllowed(Planned(luck, bootId, slot, state).state, Planned(luck, bootId, slot, After(state)).state)
  {
  }

  lemma PlanIdentity(luck: Luck, bootId: string, slot: Slot, state: State)
    requires Index(state) < 12
    ensures IdentityKept(Planned(luck, bootId, slot, state), Planned(luck, bootId, slot, After(state)))
  {
  }

  /** The last one is forgotten. */
  lemma PlanEnds(luck: Luck, bootId: string, slot: Slot)
    ensures Follows(Planned(luck, bootId, slot, ReportSuccess), FRESH)
  {
    FreshTexts();
    hide TextsValid;
  }
}

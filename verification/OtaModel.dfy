/**
 The agent's shared records (model.h), the persistent-state validator (persistence.c), the
 admission check (compatibility.c, manifest.c validators) and the transition table
 (state_machine.c). C strings are Dafny strings with one character per byte.
 */
module OtaModel {
  import opened Wrappers
  import opened Decimal
  import Utf8
  import V = Version

  const UUID_CAP := 37
  const TEXT_CAP := 256
  const PATH_CAP := 4096
  const ERROR_CAP := 512
  const SHA256_CAP := 65

  datatype State =
    | Idle | CheckNetwork | CheckUpdate | Precheck | Downloading | VerifyDownload | RaucVerify
    | Installing | RebootPending | BootNewSlot | HealthCheck | MarkGood | ReportSuccess
    | Rollback | Error

  /** Position in the enumeration; the progress measure of an attempt. */
  function Index(s: State): (i: nat)
    ensures i < 15
  {
    match s
    case Idle => 0 case CheckNetwork => 1 case CheckUpdate => 2 case Precheck => 3
    case Downloading => 4 case VerifyDownload => 5 case RaucVerify => 6 case Installing => 7
    case RebootPending => 8 case BootNewSlot => 9 case HealthCheck => 10 case MarkGood => 11
    case ReportSuccess => 12 case Rollback => 13 case Error => 14
  }

  datatype ErrorCode =
    | NoError | ConfigInvalid | IdentityInvalid | IdentityAmbiguous | LocalReleaseInvalid
    | ManifestHttp | ManifestInvalid | DeviceCompatMismatch | VersionMalformed | VersionCollision
    | DowngradeRejected | DownloadHttp | DownloadRangeMismatch | DownloadDiskSpace
    | DownloadSizeMismatch | DownloadHashMismatch | RaucVerifyFailed | RaucCompatMismatch
    | RaucIdentityMismatch | RaucInstallFailed | RaucMarkGoodFailed | RaucMarkBadFailed
    | HealthFailed | RebootContextInvalid | RebootFailed | PersistenceFailed | ReportFailed
    | IllegalTransition | TimeSourceFailed | EndpointConfigInvalid

  datatype OtaError = OtaError(code: ErrorCode, message: string)

  const NO_ERROR := OtaError(NoError, "")

  datatype Slot = SlotUnknown | SlotA | SlotB

  datatype RebootContext = RebootNone | RebootInstall | RebootHealthFailure

  datatype Persistent = Persistent(
    schemaVersion: int, state: State, attemptId: string, targetVersion: string, buildId: string,
    artifactUrl: string, expectedSize: nat, expectedSha256: string, lastError: OtaError,
    previousSlot: Slot, candidateSlot: Slot, bootIdBefore: string, context: RebootContext)

  /** ota_persistent_state_init. */
  const FRESH := Persistent(1, Idle, "", "", "", "", 0, "", NO_ERROR, SlotUnknown, SlotUnknown, "", RebootNone)

  datatype Release = Release(
    schemaVersion: int, deviceCompatible: string, raucCompatible: string, version: string, buildId: string)

  datatype Manifest = Manifest(
    schemaVersion: int, deviceCompatible: string, version: string, buildId: string,
    artifactUrl: string, sha256: string, size: nat, mandatory: bool)

  // ---------------------------------------------------------------- field checks

  predicate NoControls(s: string) {
    forall i :: 0 <= i < |s| ==> ' ' <= s[i] && s[i] != 127 as char
  }

  /** bounded_text: fits its array, UTF-8, no control characters. */
  predicate BoundedText(s: string, cap: nat) {
    |s| < cap && Utf8.Valid(Utf8.Codes(s)) && NoControls(s)
  }

  predicate LowerHex(c: char) {
    IsDigit(c) || 'a' <= c <= 'f'
  }

  /** ota_uuid_valid with require_v4. */
  predicate UuidV4(s: string) {
    && |s| == 36
    && (forall i :: 0 <= i < 36 ==> if i in {8, 13, 18, 23} then s[i] == '-' else LowerHex(s[i]))
    && s[14] == '4' && s[19] in "89ab"
  }

  predicate Contains(s: string, pattern: string) {
    exists i, j :: 0 <= i && j == i + |pattern| <= |s| && s[i..j] == pattern
  }

  /** ota_artifact_path_valid. */
  predicate ArtifactPath(s: string) {
    && 2 <= |s| < PATH_CAP && s[0] == '/' && s[1] != '/'
    && Utf8.Valid(Utf8.Codes(s)) && !Contains(s, "..") && NoControls(s)
    && (forall i :: 0 <= i < |s| ==> s[i] !in "\\%:?# ")
  }

  predicate Sha256Text(s: string) {
    |s| == 64 && forall i :: 0 <= i < 64 ==> LowerHex(s[i])
  }

  // ---------------------------------------------------------------- persistent state

  predicate HasAttempt(s: Persistent) {
    s.attemptId != ""
  }

  predicate HasBoot(s: Persistent) {
    s.previousSlot != SlotUnknown
  }

  /** The field-by-field text checks of ota_persistent_state_validate (lines 181-196). */
  predicate TextsValid(s: Persistent) {
    && BoundedText(s.attemptId, UUID_CAP) && BoundedText(s.targetVersion, TEXT_CAP)
    && BoundedText(s.buildId, TEXT_CAP) && BoundedText(s.artifactUrl, PATH_CAP)
    && BoundedText(s.expectedSha256, SHA256_CAP) && BoundedText(s.lastError.message, ERROR_CAP)
    && BoundedText(s.bootIdBefore, UUID_CAP)
    && (HasAttempt(s) ==>
          && UuidV4(s.attemptId) && V.ParseVersion(s.targetVersion).Some? && s.buildId != ""
          && ArtifactPath(s.artifactUrl) && 0 < s.expectedSize <= INT64_MAX
          && Sha256Text(s.expectedSha256))
    && (HasBoot(s) ==> UuidV4(s.bootIdBefore))
  }

  /** The rules relating the fields to the state (lines 197-223). */
  predicate ShapeValid(s: Persistent) {
    && s.schemaVersion == 1
    && (!HasAttempt(s) ==>
          && s.targetVersion == "" && s.buildId == "" && s.artifactUrl == ""
          && s.expectedSize == 0 && s.expectedSha256 == "")
    && (3 <= Index(s.state) <= 13 ==> HasAttempt(s))
    && (Index(s.state) <= 2 ==> !HasAttempt(s))
    && (if HasBoot(s) then
          && HasAttempt(s) && s.candidateSlot != SlotUnknown && s.previousSlot != s.candidateSlot
          && s.context != RebootNone
        else
          s.candidateSlot == SlotUnknown && s.bootIdBefore == "" && s.context == RebootNone)
    && (7 <= Index(s.state) <= 13 ==> HasBoot(s))
    && (Index(s.state) < 7 ==> !HasBoot(s))
    && (s.context == RebootHealthFailure ==> s.state == Rollback || s.state == Error)
    && (s.state == Error ==> s.lastError.code != NoError)
    && (s.state != Error && s.state != Rollback ==> s.lastError.code == NoError)
    && (s.lastError.code == NoError ==> s.lastError.message == "")
  }

  /** ota_persistent_state_validate. */
  predicate Valid(s: Persistent) {
    TextsValid(s) && ShapeValid(s)
  }

  // ---------------------------------------------------------------- transitions

  const TRANSITIONS: set<(State, State)> := {
    (Idle, CheckNetwork), (CheckNetwork, CheckUpdate), (CheckUpdate, Precheck), (CheckUpdate, Idle),
    (Precheck, Idle), (Precheck, Downloading), (Downloading, VerifyDownload),
    (VerifyDownload, RaucVerify), (RaucVerify, Installing), (Installing, RebootPending),
    (RebootPending, BootNewSlot), (BootNewSlot, HealthCheck), (BootNewSlot, Rollback),
    (HealthCheck, MarkGood), (HealthCheck, Rollback), (MarkGood, ReportSuccess),
    (ReportSuccess, Idle)
  }

  /** ota_transition_allowed. */
  predicate TransitionAllowed(from: State, to: State) {
    from != to && (to == Error || (from, to) in TRANSITIONS)
  }

  /** same_attempt. */
  predicate SameAttempt(a: Persistent, b: Persistent) {
    && a.attemptId == b.attemptId && a.targetVersion == b.targetVersion && a.buildId == b.buildId
    && a.artifactUrl == b.artifactUrl && a.expectedSha256 == b.expectedSha256
    && a.expectedSize == b.expectedSize
  }

  /** The identity checks of ota_state_machine_transition (lines 78-92). */
  predicate IdentityKept(prev: Persistent, next: Persistent) {
    var reset := next.state == Idle;
    && (reset || !HasAttempt(prev) || SameAttempt(prev, next))
    && (reset || !HasBoot(prev) ||
        (prev.previousSlot == next.previousSlot && prev.candidateSlot == next.candidateSlot &&
         prev.bootIdBefore == next.bootIdBefore))
    && (next.context == prev.context || reset ||
        (prev.state == RaucVerify && next.state == Installing && next.context == RebootInstall) ||
        (prev.state == HealthCheck && next.state == Rollback && next.context == RebootHealthFailure))
  }

  /** What a successful ota_state_machine_transition may replace `prev` with. */
  predicate Follows(prev: Persistent, next: Persistent) {
    TransitionAllowed(prev.state, next.state) && Valid(next) && IdentityKept(prev, next)
  }

  /** Every transition not into IDLE strictly raises the index, so it measures an attempt. */
  lemma TransitionRaises(from: State, to: State)
    requires TransitionAllowed(from, to) && to != Idle
    ensures Index(from) < Index(to)
    ensures 8 <= Index(to) <= 13 ==> to == RebootPending || 8 <= Index(from) <= 13
  {
  }

  /** A chain of transitions that does not return to IDLE. */
  predicate Chain(path: seq<State>) {
    forall i :: 0 < i < |path| ==> TransitionAllowed(path[i - 1], path[i]) && path[i] != Idle
  }

  /** An attempt therefore makes at most fourteen durable moves before it ends. */
  lemma {:induction false} ChainIsShort(path: seq<State>)
    requires Chain(path) && path != []
    ensures |path| <= Index(path[|path| - 1]) - Index(path[0]) + 1 <= 15
  {
    if |path| > 1 {
      var front := path[..|path| - 1];
      assert Chain(front) by {
        forall i | 0 < i < |front|
          ensures TransitionAllowed(front[i - 1], front[i]) && front[i] != Idle
        {
          assert front[i - 1] == path[i - 1] && front[i] == path[i];
        }
      }
      ChainIsShort(front);
      TransitionRaises(path[|path| - 2], path[|path| - 1]);
    }
  }

  /** ERROR is terminal, and so is a ROLLBACK whose cause must be kept. */
  lemma FailureIsFinal(prev: Persistent, next: Persistent)
    requires Follows(prev, next) && prev.lastError.code != NoError && Valid(prev)
    ensures prev.state == Rollback && next.state == Error
  {
    hide TextsValid;
  }

  // ---------------------------------------------------------------- admission

  /** clean_text. */
  predicate CleanText(s: string, cap: nat) {
    s != "" && BoundedText(s, cap)
  }

  predicate ReleaseValid(r: Release) {
    && r.schemaVersion == 1 && CleanText(r.deviceCompatible, TEXT_CAP)
    && CleanText(r.raucCompatible, TEXT_CAP) && CleanText(r.buildId, TEXT_CAP)
    && CleanText(r.version, TEXT_CAP) && V.ParseVersion(r.version).Some?
  }

  predicate ManifestValid(m: Manifest) {
    && m.schemaVersion == 1 && CleanText(m.deviceCompatible, TEXT_CAP)
    && CleanText(m.buildId, TEXT_CAP) && CleanText(m.version, TEXT_CAP)
    && CleanText(m.artifactUrl, PATH_CAP) && ArtifactPath(m.artifactUrl)
    && Sha256Text(m.sha256) && 0 < m.size <= INT64_MAX && V.ParseVersion(m.version).Some?
  }

  datatype Admission = Refused | UpToDate | Update

  /** ota_compatibility_precheck. */
  function Admit(local: Release, remote: Manifest): Admission {
    if !ReleaseValid(local) || !ManifestValid(remote) then Refused
    else if local.deviceCompatible != remote.deviceCompatible then Refused
    else
      var order := V.Compare(V.ParseVersion(remote.version).value, V.ParseVersion(local.version).value);
      if order < 0 || (order == 0 && local.buildId != remote.buildId) then Refused
      else if order > 0 then Update else UpToDate
  }

  /** `newer` and `older` are canonical versions and the first is strictly larger. */
  ghost predicate StrictlyNewer(newer: string, older: string) {
    exists n, o :: V.Fits(n) && V.Fits(o) && newer == V.PrintVersion(n) && older == V.PrintVersion(o)
                   && V.Rank(n) > V.Rank(o)
  }

  /** An update is reported exactly for a compatible, well-formed, strictly newer manifest. */
  lemma AdmitsExactlyUpgrades(local: Release, remote: Manifest)
    ensures Admit(local, remote) == Update <==>
            ReleaseValid(local) && ManifestValid(remote) &&
            local.deviceCompatible == remote.deviceCompatible &&
            StrictlyNewer(remote.version, local.version)
  {
    if ReleaseValid(local) && ManifestValid(remote) {
      V.PrintOfParse(remote.version);
      V.PrintOfParse(local.version);
      V.CompareIsRank(V.ParseVersion(remote.version).value, V.ParseVersion(local.version).value);
      if n, o :| V.Fits(n) && V.Fits(o) && remote.version == V.PrintVersion(n) &&
                 local.version == V.PrintVersion(o) && V.Rank(n) > V.Rank(o) {
        V.ParseOfPrint(n);
        V.ParseOfPrint(o);
      }
    }
  }

  /** attempt_manifest. */
  function AttemptManifest(r: Release, s: Persistent): Manifest {
    Manifest(1, r.deviceCompatible, s.targetVersion, s.buildId, s.artifactUrl, s.expectedSha256,
             s.expectedSize, false)
  }

  const DEVICE_COMPATIBLE := "atk-dlrk3588"
  const RAUC_COMPATIBLE := "EdgeGuard-ATK-DLRK3588-RK3588"

  /** candidate_release_valid. */
  predicate CandidateRelease(r: Release, s: Persistent) {
    && ReleaseValid(r) && r.deviceCompatible == DEVICE_COMPATIBLE
    && r.raucCompatible == RAUC_COMPATIBLE && r.version == s.targetVersion && r.buildId == s.buildId
  }
}

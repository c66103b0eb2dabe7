/** The rows of the festival database, and the database as one value. */
module Entities {
  import opened Wrappers

  /** Primary and foreign keys (uuids). */
  datatype Id = Id(text: string)

  /** The falsy key: what an empty string is to `if (!userId)`. */
  const NO_ID := Id("")

  /** Milliseconds since the epoch. */
  type Time = int

  /** What a column of type timestamp keeps of a time: it rounds to whole seconds. */
  function WholeSecond(t: Time): (r: Time)
    ensures t - 500 < r <= t + 500 && r % 1000 == 0
  {
    (t + 500) / 1000 * 1000
  }

  /** A school as it was entered, with what `toLowerCase` makes of it. */
  datatype Institution = Institution(text: string, lower: string)

  datatype User = User(email: string, institution: Institution)

  /** `members` lists the users of the member rows, oldest row first; the leader is not among them. */
  datatype Team = Team(name: string, institution: Institution, leaderId: Id, members: seq<Id>)

  datatype ParticipantType = Individual | TeamBased

  /** Both dates are NOT NULL columns. */
  datatype Wave = Wave(id: Id, name: string, price: real, startDate: Time, endDate: Time)

  datatype Competition = Competition(
    name: string,
    participantType: ParticipantType,
    minTeamMembers: int,
    maxTeamMembers: int,
    description: Option<string>,
    requiresSubmission: bool,
    isActive: bool,
    waves: seq<Wave>,
    whatsappGroupUrl: Option<string>)

  datatype AttemptStatus = AttemptPending | AttemptApproved | AttemptRejected

  datatype Attempt = Attempt(
    id: Id,
    proofOfPaymentUrl: string,
    proofOfPaymentFileId: Option<Id>,
    status: AttemptStatus,
    rejectionReason: Option<string>,
    verifiedBy: Option<Id>,
    verifiedAt: Option<Time>,
    uploadedAt: Time)

  datatype RegistrationStatus = PendingPayment | PendingVerification | Verified | Rejected | Cancelled

  /** `attempts` holds the payment attempts of the registration, oldest first. */
  datatype Registration = Registration(
    competitionId: Id,
    waveId: Id,
    userId: Option<Id>,
    teamId: Option<Id>,
    status: RegistrationStatus,
    attempts: seq<Attempt>)

  datatype SubmissionStatus = Draft | Submitted | Graded

  datatype Submission = Submission(
    registrationId: Id,
    title: string,
    description: Option<string>,
    fileUrl: string,
    storedFileId: Option<Id>,
    originalityFileUrl: Option<string>,
    originalityStoredFileId: Option<Id>,
    status: SubmissionStatus)

  datatype StoredFile = StoredFile(userId: Id, fileKey: string, fileUrl: string)

  /** All tables, plus the keys of the blobs held by the storage provider. */
  datatype Db = Db(
    users: map<Id, User>,
    teams: map<Id, Team>,
    competitions: map<Id, Competition>,
    registrations: map<Id, Registration>,
    submissions: map<Id, Submission>,
    files: map<Id, StoredFile>,
    blobs: set<string>)

  /** A file sent with a request, after the storage validator has looked at it. `Valid` carries what
      the storage layer generates for it: the row id, the blob key and the public URL. */
  datatype Upload = Missing | Invalid | Valid(id: Id, key: string, url: string)

  datatype RegisterDto = RegisterDto(competitionId: Id, waveId: Id, teamId: Option<Id>)

  datatype VerificationAction = Approve | Reject

  datatype VerifyDto = VerifyDto(action: VerificationAction, note: Option<string>)

  datatype SubmissionDto = SubmissionDto(registrationId: Id, title: string, description: Option<string>)

  /** Why a request is refused, one value for each exception the use cases throw. */
  datatype Error =
    // teams
    | LeaderNotFound | ProfileIncomplete | AlreadyInTeam | TeamNameTaken
    | OnlyLeaderMayAdd | NewcomerNotFound | AddingOneself | NewcomerInTeam
    | TeamFull | NewcomerProfileIncomplete | InstitutionMismatch
    | NotInTeam | OnlyLeaderMayDisband | TeamIsRegistered
    // registrations
    | MissingUserId | CompetitionNotFound | WaveNotFound | WaveNotOpen | WaveClosed
    | TeamIdRequired | TeamIdNotAllowed | AlreadyRegistered | QuotaReached | TeamNotFound
    | OnlyLeaderMayRegister | TeamSizeOutOfRange | MemberQuotaReached | SaveFailed
    // payments
    | RegistrationNotFound | NotRegistrationManager | ProofAwaitingReview | ProofNotNeeded
    | NotVerifiable | NoteRequired | NoProofToVerify
    // storage and submissions
    | InvalidFile | FileNotFound | FileForbidden
    | WorkFileRequired | NotPaid | NotSubmissionManager | AlreadySubmitted
    | SubmissionNotFound | MayNotDeleteSubmission | SubmissionGraded
}

# Festival backend: a verified model

A Dafny model of the festival domain of the backend (teams, competition registrations, payment attempts,
submissions, stored files), of the notification socket index, the competition import and list cache, the
stored-file keys and the one-time codes, with proofs about whole runs.

## How it is built

- `Entities.dfy` has the rows, and the database as one value `Db`. `Teams`, `Registrations`, `Storage` and
  `Submissions` say for each request when it is refused, with which error, and what it writes; `Proofs` links
  payment attempts to stored files.
- `Steps.dfy` puts the requests together as one state machine: `Verdict`, `Next`, the invariant `Inv`, and
  `Enabled`, which is what the environment guarantees. `Runs.dfy` defines runs of any length.
- `Answers.dfy` says for each request what it answers and what it writes in terms of the columns alone, so that every
  guard and every assignment is said twice, once as the code does it and once as a fact about it.
- `Quota.dfy`, `History.dfy`, `Interleaving.dfy`, `Losses.dfy` and `Races.dfy` hold the main theorems. Where something
  expected of the code fails, `QuotaExamples.dfy`, `OverlapExamples.dfy` and `FileExamples.dfy` build the run that
  shows it, from a festival before its first request (`Scenarios.dfy`).
- `Database.dfy` is the class with the tables and the repository queries. The `*UseCases.dfy` files are the
  use cases as imperative methods on it, with the loops, the in-place sort and the order of writes of the source.
  Each is proved to refuse exactly as the verdict says and to write exactly what the step says.
  `Backend.HandleAll` ties any sequence of calls to `Runs.Run`.
- `{:induction false}` marks lemmas whose body is the proof: the inductive ones, and main results over databases and
  runs, where an induction that Dafny tries by itself only costs the solver time.
- `NotificationsGateway.dfy`, `CompetitionList.dfy` with `CompetitionImport.dfy` and `Competitions.dfy`, `FileKeys.dfy`
  and `Accounts.dfy` are separate, smaller machines.

## Assumptions

- A request is one atomic step, except in `Interleaving.dfy`. There a register request is five kinds of action: the
  reads and guards up to the duplicate check, the leader's quota check, the roster read, each member's quota check, and
  the save; the machine records the answer. A disband request is two: the lookups and guards, and the delete. Every
  other request is still one action.
- Unique indexes, foreign keys and NOT NULL are enforced at the write; a NULL never collides with anything. Deleting a
  row does what its foreign keys say: a team takes its registrations and their submissions along, and a stored file
  leaves NULL in the payment attempts that referred to it.
- Columns of type timestamp keep whole seconds: the expiry of a code and the time of a decision are rounded to the
  nearest one (`WholeSecond`).
- Two texts can be longer than their column and still pass the request checks: the institution that a team takes over
  from its leader, and the title of a submission. Both make the save fail. Other texts are taken to fit.
- The database may refuse any row of a competition, for any reason (`CompetitionImport.Rules`); `ColumnsTake` lists
  what the columns ask.
- Generated ids and blob keys are new. `uploadedAt` strictly increases within a registration. Without that
  "the latest attempt" is not determined (`PaymentAttempts.TiesLeaveLatestOpen`).
- Users, competitions and waves are never deleted, and emails stay unique. Other modules may otherwise change users
  and competitions at any time (`EditUsers`, `EditCompetitions`).
- The database returns the rows of a relation in any order it likes (`IsRowOrder`).

## Where the code and its wording differ

- The limit of three competitions is announced as a maximum, but it is only checked when registering. A rejected
  registration that gets a new proof or a reversed decision, and a member added to a team that is already
  registered, are not checked. `Quota.QuotaKeptIff` says exactly when a request keeps a user within three,
  `Quota.ActiveIsBounded` gives the bound that does hold; `QuotaExamples.RevivalExceedsQuota` and
  `QuotaExamples.JoinExceedsQuota` are runs that end at four.
- Check and save of a register request are not in one transaction. `Interleaving.OverlapIsBounded` gives the bound for
  requests in flight, `Interleaving.OverlapStaysWithinIff` the exact condition for staying within three,
  `OverlapExamples.OverlapExceedsQuota` a run that ends at four.
- Nor are look and delete of a disband request. A team that registers in between is deleted with its registration
  (`OverlapExamples.DisbandLosesRegistration`); `Losses.OverlapLosesNothingIff` says exactly when that happens.
- The history of payment attempts is not quite append-only: deleting the stored file of a proof, which the storage
  route allows its owner at any time, clears the reference of the attempt, also of one long decided
  (`FileExamples.SupersededProofChanges`). `History.ReferenceClearedIff` says exactly when.
- A register request that loses the race for a unique index is meant to answer "already registered", but the code
  compares with a PostgreSQL error code while the database is MySQL, so it answers with an internal error.
  `Races.SaveRefusedIff` says exactly when a request that has passed all checks ends so,
  `OverlapExamples.LostRaceIsAnInternalError` is a run in which one does.
- The cached competition list goes stale in an import that fails half-way, exactly when an active item precedes the
  failing one (`CompetitionList.ImportStaleIff`, `CompetitionList.StaleListIsServed`), and stays so exactly until the
  next successful writer or the end of its time-to-live (`CompetitionList.ListIsCompleteIff`).
- A partial update of a competition that leaves out the name, the type or a team size resets it: the update DTO inherits
  the initial values of the create DTO. `CompetitionList.OmittedFieldsAreReset` says when the route still changes
  exactly the fields sent.
- A manager whose work file was deleted through the storage route cannot delete the submission any more
  (`Submissions.ManagerMayDelete`, `FileExamples.WorkWithoutFileStays`).

## Model

| member | source | states |
|---|---|---|
| Quota.ActiveIsBounded | src/modules/festival/registrations/applications/use-cases/register-competition.use-case.ts:94-143 | over every run from an empty festival, a user's active registrations are at most three plus the revivals of rejected registrations the user takes part in plus the active registrations gained by joining a registered team |
| Quota.ActiveIsConserved | src/modules/festival/registrations/infrastructures/repositories/registration.repository.ts:45-61 | over every run, active = entered + revived + gained by joining - rejected, for every user |
| Quota.StepAccount | src/modules/festival/registrations/applications/use-cases/register-competition.use-case.ts:94-154 | every change of a user's count by one request is one of the four events, and an entry leaves the user at three or fewer |
| Quota.QuotaKeptIff | src/modules/festival/registrations/applications/use-cases/register-competition.use-case.ts:102-107 | a request keeps a user within the quota if and only if it neither revives a registration of a user at the quota nor adds the user to a team with too many active registrations |
| Quota.RegisterRaisesParticipants | src/modules/festival/registrations/applications/use-cases/register-competition.use-case.ts:109-154 | an accepted register request adds one to the leader or individual and to each member, leaves everybody else's count alone, and leaves each participant at three or fewer |
| Quota.JoinCount | src/modules/festival/teams/applications/use-cases/add-member.use-case.ts:59-83 | joining a team adds all its active registrations to the newcomer's count, each once, and changes nobody else's |
| Quota.MoveCount | src/modules/festival/registrations/applications/use-cases/verify-payment.use-case.ts:61-74 | a proof or a decision moves the count of the participants of its own registration by revival or rejection, and no other count |
| QuotaExamples.RevivalExceedsQuota | src/modules/festival/registrations/domains/services/registration-domain.service.ts:32-45 | the quota is no invariant: in any festival with four open individual competitions, rejecting a user's first registration, filling the quota and uploading a new proof ends at four |
| QuotaExamples.JoinExceedsQuota | src/modules/festival/teams/applications/use-cases/add-member.use-case.ts:59-83 | nor is it for late joins: from an empty festival, a user with three registrations of their own joins a registered team and is active in four |
| QuotaExamples.TeamPlaygroundExists | src/modules/festival/teams/domains/services/team-domain.service.ts:12-42 | such a festival exists |
| Scenarios.PlaygroundExists | src/modules/festival/registrations/domains/services/registration-domain.service.ts:61-92 | such a festival exists |
| OverlapExamples.OverlapExceedsQuota | src/modules/festival/registrations/applications/use-cases/register-competition.use-case.ts:110-154 | from an empty festival, a user enters two competitions and then two more at once: both late requests pass the check, both save, and the user is active in four |
| Interleaving.OverlapIsBounded | src/modules/festival/registrations/applications/use-cases/register-competition.use-case.ts:94-154 | with register and disband requests cut as described above, other requests in between and at most k of a user's register requests in flight, active plus pending is at most 2 + k plus revivals and late joins; k = 1 gives the quota |
| Interleaving.ActionKeepsQuotaIff | src/modules/festival/registrations/applications/use-cases/register-competition.use-case.ts:102-154 | an action takes a user from within the quota beyond it if and only if it saves an accepted row of a user who is full at that moment, revives a registration of such a user, or adds the user to a team with too many |
| Interleaving.OverlapStaysWithinIff | src/modules/festival/registrations/applications/use-cases/register-competition.use-case.ts:102-154 | over any interleaving a user is within the quota at every point if and only if the run has no such action |
| Interleaving.OverlapKeepsRows | src/modules/festival/registrations/domains/entities/registration.entity.ts:35-40 | under any interleaving every row has exactly one of user and team and a wave of its own competition, and no two rows of a competition share a user or a team |
| Races.SaveRefusedIff | src/modules/festival/registrations/applications/use-cases/register-competition.use-case.ts:153-181 | in every interleaved run a request that has passed all checks is refused at the save if and only if another request has saved a clashing row since its duplicate check, or its team is gone, or the individual has no account; the answer is always the internal error, and otherwise the row is there |
| Races.ClashesIffSavedSince | src/modules/festival/registrations/applications/use-cases/register-competition.use-case.ts:78-154 | a request in flight whose team, if any, exists clashes with the table if and only if another request has saved a clashing row since its duplicate check |
| OverlapExamples.LostRaceIsAnInternalError | src/modules/festival/registrations/applications/use-cases/register-competition.use-case.ts:167-181 | from an empty festival: a user sends two requests for one competition at once; one is saved, the other ends with the internal error instead of "already registered" |
| Losses.OverlapLosesNothingIff | src/modules/festival/teams/applications/use-cases/leave-team.use-case.ts:32-39 | over any interleaving of cut register and disband requests with other requests, no registration, older attempt or registered team is lost between any two points if and only if no disband deletes a team for which a register request has saved since the disband looked |
| Losses.ActionKeepsIff | src/modules/festival/teams/applications/use-cases/leave-team.use-case.ts:39 | an action loses something if and only if it is a disband's delete of a team that is registered at that moment |
| Losses.MissedIffSavedSince | src/modules/festival/teams/applications/use-cases/leave-team.use-case.ts:32-39 | a team that a disband is about to delete is registered if and only if a register request of it has saved since the disband looked and the team still exists |
| OverlapExamples.DisbandLosesRegistration | src/modules/festival/teams/applications/use-cases/leave-team.use-case.ts:32-39 | from an empty festival, a leader registers and disbands a team at once: the saved registration is gone afterwards, and nobody was refused |
| OverlapExamples.LoneTeamExists | src/modules/festival/teams/applications/use-cases/leave-team.use-case.ts:20-30 | such a festival exists |
| Losses.SavedTeamHasMinimum | src/modules/festival/registrations/applications/use-cases/register-competition.use-case.ts:117-154 | whatever happens between the roster read and the save, a team that is registered is led by the user, has the minimum the request read, and at most three people |
| Losses.RegisteredTeamKeepsMinimum | src/modules/festival/registrations/applications/use-cases/register-competition.use-case.ts:117-154 | over any interleaving in which no disband comes too late, it keeps leader, minimum and maximum at every later point |
| Interleaving.UninterruptedIsAtomic | src/modules/festival/registrations/applications/use-cases/register-competition.use-case.ts:49-182 | the cut-up register request, when nobody interrupts it, ends in exactly the database and with exactly the answer of the atomic request, in every branch and whatever else is in flight |
| Interleaving.UninterruptedDisbandIsAtomic | src/modules/festival/teams/applications/use-cases/leave-team.use-case.ts:20-45 | so does the cut-up disband request |
| Interleaving.ActionKeepsInv | src/modules/festival/registrations/applications/use-cases/register-competition.use-case.ts:117-154 | every action of the interleaved machine keeps the database invariant and the facts a request relies on after it read the roster, also a delete that cascades |
| Steps.StepKeepsInv | src/modules/festival/registrations/domains/entities/registration.entity.ts:35-79 | every request, accepted or refused, keeps all rules on users, teams, registrations, attempts, submissions and files |
| Steps.DeleteTeamKeepsInv | src/modules/festival/registrations/domains/entities/registration.entity.ts:77-79 | deleting a team, registered or not, leaves nothing behind that refers to it and breaks no rule |
| Runs.RunKeepsInv | src/modules/festival/registrations/applications/orchestrator/registrations.orchestrator.ts:27-65 | every database of every run satisfies them |
| Backend.Handle | src/modules/festival/registrations/applications/orchestrator/registrations.orchestrator.ts:27-65 | handling one request by its use case gives the refusal and the database that the step gives, and keeps the invariant |
| Backend.HandleAll | src/modules/festival/registrations/applications/orchestrator/registrations.orchestrator.ts:27-65 | calling the use cases one after another is the run of the steps |
| History.RunGrows | src/modules/festival/registrations/applications/use-cases/upload-payment-proof.use-case.ts:49-60 | between any two points of a run no registration is removed or changes hands, no attempt is removed, none changes once a newer one exists except that its reference to a stored file may be cleared, and every registered team keeps its leader and members |
| History.ReferenceClearedIff | src/modules/festival/registrations/domains/entities/payment-attempt.entity.ts:37-42 | over a run an attempt's reference to its stored file is cleared if and only if an accepted request deleted that file; nothing else clears it, nothing fills it again |
| History.ReferencesAreLive | src/modules/shared/storage/applications/use-cases/delete-stored-file.use-case.ts:27-47 | in every reachable database the file an attempt refers to exists with its blob, and exactly the manager of the registration can delete it on its own |
| FileExamples.SupersededProofChanges | src/modules/festival/registrations/domains/entities/payment-attempt.entity.ts:40-42 | from an empty festival: a rejected proof, a second proof, and the deletion of the first proof's file change the older attempt |
| Proofs.WorkFileIsUnseen | src/modules/festival/submissions/applications/use-cases/delete-submission.use-case.ts:47-51 | taking a work back deletes a file, but no payment attempt ever refers to it, so every registration stays as it is |
| History.AttemptsCountUploads | src/modules/festival/registrations/applications/use-cases/upload-payment-proof.use-case.ts:54-60 | a registration has exactly one attempt for each accepted proof upload of the run |
| History.StatusFollowsAttempts | src/modules/festival/registrations/applications/use-cases/verify-payment.use-case.ts:43-72 | in every reachable database the status is determined by the newest attempt, older ones are rejected, rejections carry a non-blank reason, a verifier and a time, CANCELLED does not occur and the "no proof" branch of verify is dead |
| History.RegisteredTeamKeepsMinimum | src/modules/festival/teams/applications/use-cases/leave-team.use-case.ts:26-39 | a team that registered exists ever after with the same leader, at least as many people as at registration and so at least the minimum checked then, and at most three |
| History.EveryUserHasOneTeam | src/modules/festival/teams/infrastructures/repositories/team.repository.ts:34-47 | in every reachable database a user is on at most one team in one role, teams have one to three people and distinct names, and the lookup by user finds exactly that team |
| History.ManagerIsFixed | src/modules/festival/registrations/domains/services/registration-domain.service.ts:18-30 | who may manage a registration never changes over a run |
| History.SubmissionsFollowVerification | src/modules/festival/submissions/applications/use-cases/create-submission.use-case.ts:47-69 | every stored submission was handed in by an accepted request of the run that found its registration VERIFIED at that moment; the registration is not PENDING_PAYMENT ever after, and has no second one |
| History.ManagerDeletesRowAndFile | src/modules/festival/submissions/applications/use-cases/delete-submission.use-case.ts:29-52 | in every reachable database the manager's delete is accepted if and only if the main file still exists, and then row, file row and blob are gone |
| Teams.AddKeepsRosters | src/modules/festival/teams/applications/use-cases/add-member.use-case.ts:35-83 | an accepted addition keeps every user on at most one team, no leader among the members, no member twice, and three people at most |
| Teams.CascadeIsIdleIffUnregistered | src/modules/festival/teams/applications/use-cases/leave-team.use-case.ts:32-39 | deleting a team leaves registrations and submissions alone if and only if the team has no registration, which is the disband guard |
| Teams.AddAcceptedIff | src/modules/festival/teams/applications/use-cases/add-member.use-case.ts:35-68 | an addition is accepted if and only if the user leads a team with a free place and the address is that of another user, on no team, with the institution of the team up to upper and lower case |
| TeamUseCases.CreateTeam | src/modules/festival/teams/applications/use-cases/create-team.use-case.ts:33-71 | refuses in the order of the guards, else inserts the team with the leader's institution and no members; an institution too long for the team's column fails the save |
| TeamUseCases.AddMember | src/modules/festival/teams/applications/use-cases/add-member.use-case.ts:33-83 | refuses in the order of the guards, else appends the newcomer to the leader's team and changes no other team |
| TeamUseCases.LeaveTeam | src/modules/festival/teams/applications/use-cases/leave-team.use-case.ts:20-45 | only the leader of an unregistered team gets through, the team row goes, registrations and submissions stay |
| Answers.CreateTeamAnswer | src/modules/festival/teams/applications/use-cases/create-team.use-case.ts:38-71 | who may found a team, each refusal in order, and the inserted row |
| Answers.AddMemberAnswer | src/modules/festival/teams/applications/use-cases/add-member.use-case.ts:35-83 | each refusal of a team's leader in order, with a team of three full, and the one member that is appended |
| Answers.DisbandAnswer | src/modules/festival/teams/applications/use-cases/leave-team.use-case.ts:20-45 | a user without a team, a member and the leader of a registered team are refused, each with its reason; from the leader of an unregistered team the team row goes and nothing else |
| Answers.DisbandAcceptedIff | src/modules/festival/teams/applications/use-cases/leave-team.use-case.ts:20-39 | a disband is accepted if and only if the user leads a team that has no registration |
| History.OnlyTheLeaderDisbands | src/modules/festival/teams/applications/use-cases/leave-team.use-case.ts:26-39 | over a run a team keeps its leader until an accepted disband request of that leader |
| Losses.OnlyTheLeaderDisbands | src/modules/festival/teams/applications/use-cases/leave-team.use-case.ts:26-39 | over any interleaving a team disappears only when a disband request finishes that its leader sent |
| Registrations.ManagerIsUnique | src/modules/festival/registrations/domains/services/registration-domain.service.ts:18-30 | exactly one person manages a registration |
| Registrations.DecisionTouchesOnlyNewest | src/modules/festival/registrations/applications/use-cases/verify-payment.use-case.ts:61-74 | a decision writes verdict, note, verifier and time to the newest attempt and the status to the row, and nothing else; a later decision leaves no trace of an earlier one |
| Registrations.SaveFailsOnlyOnMissingUser | src/modules/festival/registrations/applications/use-cases/register-competition.use-case.ts:153-181 | in an atomic request the save can fail only because the individual's account does not exist |
| Registrations.RegisterAcceptedIff | src/modules/festival/registrations/applications/use-cases/register-competition.use-case.ts:54-154 | a register request is accepted if and only if the competition and an open wave of its own take it, with a team exactly when it is team-based, every participant is below the quota, the user or team has no row for it, and the team is led by the user and of an allowed size, or the individual has an account |
| Answers.NotOpenAnswer | src/modules/festival/registrations/applications/use-cases/register-competition.use-case.ts:54-73 | the refusals up to the window of the wave, in order |
| Answers.IndividualAnswer | src/modules/festival/registrations/applications/use-cases/register-competition.use-case.ts:78-154 | the rest for an individual: duplicate, three active registrations, missing account, and the inserted row |
| Answers.TeamAnswer | src/modules/festival/registrations/applications/use-cases/register-competition.use-case.ts:78-154 | the rest for a team: duplicate, the leader's three, unknown team, foreign team, a size outside the bounds of the competition with zero for one and three, a member's three, and the inserted row |
| Answers.CountsIff | src/modules/festival/registrations/infrastructures/repositories/registration.repository.ts:45-61 | what the quota counts: registrations not cancelled or rejected that the user owns, leads or is a member of, three being full |
| RegistrationUseCases.Register | src/modules/festival/registrations/applications/use-cases/register-competition.use-case.ts:49-154 | all guards in order, the quota of the leader and then of each member, and the inserted row |
| RegistrationUseCases.CheckUserQuota | src/modules/festival/registrations/applications/use-cases/register-competition.use-case.ts:94-107 | fetching, filtering and counting finds the quota full exactly when the user's active registrations number three or more |
| RegistrationUseCases.UploadPaymentProof | src/modules/festival/registrations/applications/use-cases/upload-payment-proof.use-case.ts:30-76 | refuses as `Answers.UploadProofAnswer` says, else writes what `Answers.UploadProofWrites` says and responds with the stored row |
| RegistrationUseCases.VerifyPayment | src/modules/festival/registrations/applications/use-cases/verify-payment.use-case.ts:33-105 | refuses as `Answers.VerifyAnswer` says, else decides the latest attempt whatever order the rows came in, and responds with the stored row |
| Answers.UploadAcceptedIff | src/modules/festival/registrations/domains/services/registration-domain.service.ts:18-45 | a proof is accepted if and only if the registration is unpaid or rejected, the user owns it or leads its team and has an account, and the file is valid |
| Answers.UploadProofAnswer | src/modules/festival/registrations/applications/use-cases/upload-payment-proof.use-case.ts:35-47 | each refusal in order |
| Answers.UploadProofWrites | src/modules/festival/registrations/applications/use-cases/upload-payment-proof.use-case.ts:43-60 | the appended attempt with its URL, file and time, the status, the stored file, and nothing else |
| Answers.VerifyAcceptedIff | src/modules/festival/registrations/domains/services/registration-domain.service.ts:47-60 | in every database that keeps the rules a decision, first or reversed, is accepted if and only if the registration has a proof and a rejection has a note that is not blank |
| Answers.VerifyAnswer | src/modules/festival/registrations/applications/use-cases/verify-payment.use-case.ts:38-59 | each refusal in order |
| Answers.VerifyWrites | src/modules/festival/registrations/applications/use-cases/verify-payment.use-case.ts:61-74 | status, note, verifier and time of the newest attempt, the status of the row, and nothing else |
| RegistrationUseCases.DecideLatest | src/modules/festival/registrations/applications/use-cases/verify-payment.use-case.ts:51-68 | load, in-place sort and update of the first element decide the last uploaded attempt and no other |
| PaymentAttempts.SortNewestFirst | src/modules/festival/registrations/applications/use-cases/verify-payment.use-case.ts:51-53 | the sort orders by descending upload time and is a permutation |
| PaymentAttempts.SortedIsReversed | src/modules/festival/registrations/domains/mappers/registration.mapper.ts:33-35 | with distinct upload times there is one sorted order, so verify and mapper choose the same attempt |
| PaymentAttempts.TiesLeaveLatestOpen | src/modules/festival/registrations/applications/use-cases/verify-payment.use-case.ts:51-53 | two attempts can come out in two sorted orders if and only if their upload times are equal |
| PaymentAttempts.ToResponse | src/modules/festival/registrations/domains/mappers/registration.mapper.ts:33-96 | the response shows every attempt, newest first, repeats the newest in its head fields, and has the group link only when the registration is verified |
| PaymentAttempts.ResponseShowsAttempts | src/modules/festival/registrations/domains/mappers/registration.mapper.ts:33-57 | every attempt with its columns, the last uploaded one first and in the head |
| PaymentAttempts.ResponseShowsDecision | src/modules/festival/registrations/applications/use-cases/verify-payment.use-case.ts:61-104 | after verify the first attempt of the response is the one just decided, with the request's note and its time to the second, and the status matches it |
| Database.Database.FindMyRegistrations | src/modules/festival/registrations/infrastructures/repositories/registration.repository.ts:45-61 | the join returns each registration of the user as owner, leader or member, once, and no other |
| Database.Database.CheckDuplicate | src/modules/festival/registrations/infrastructures/repositories/registration.repository.ts:63-74 | finds a row of the competition with the same team, or with the same user |
| Database.Database.FindTeamByUserId | src/modules/festival/teams/infrastructures/repositories/team.repository.ts:34-47 | returns the unique team of the user, if there is one |
| Database.Database.InsertRegistration | src/modules/festival/registrations/domains/entities/registration.entity.ts:35-79 | saves exactly when the foreign keys and both unique indexes accept the row |
| Database.Database.DeleteTeamRow | src/modules/festival/registrations/domains/entities/registration.entity.ts:77-79 | deleting a team row cascades to its registrations and their submissions |
| Answers.CascadeRemoves | src/modules/festival/registrations/domains/entities/registration.entity.ts:77-79 | exactly the registrations of the team and their submissions go |
| Database.Database.DeleteFileRow | src/modules/festival/registrations/domains/entities/payment-attempt.entity.ts:40-42 | deleting a file row sets the references of payment attempts to NULL and changes nothing else in them |
| StorageUseCases.UploadFile | src/modules/shared/storage/applications/use-cases/upload-file.use-case.ts:37-73 | blob first, then the row; a refused row leaves the blob |
| StorageUseCases.DeleteStoredFile | src/modules/shared/storage/applications/use-cases/delete-stored-file.use-case.ts:27-47 | only the owner gets through; blob and row are removed, and the references to the row are cleared |
| Answers.UploadFileAnswer | src/modules/shared/storage/applications/use-cases/upload-file.use-case.ts:37-73 | answers and writes of an upload, also when the row is refused |
| Answers.DeleteFileAnswer | src/modules/shared/storage/applications/use-cases/delete-stored-file.use-case.ts:27-47 | answers and writes of a delete, with exactly the references to the file cleared |
| Submissions.ManagerMayDelete | src/modules/festival/submissions/applications/use-cases/delete-submission.use-case.ts:33-50 | the manager's delete is refused only when the file row is already gone, never by the ownership check or the graded guard |
| FileExamples.WorkWithoutFileStays | src/modules/festival/submissions/applications/use-cases/delete-submission.use-case.ts:47-51 | from an empty festival: a paid user hands in a work, deletes its file through the storage route, and from then on nobody can delete the submission |
| Submissions.DeleteRemovesRowAndFile | src/modules/festival/submissions/applications/use-cases/delete-submission.use-case.ts:47-51 | a successful delete removes row, main file and blob and keeps every other row, file and blob |
| SubmissionUseCases.CreateSubmission | src/modules/festival/submissions/applications/orchestrator/submissions.orchestrator.ts:19-50 | the files are stored before eligibility is checked, and stay when the submission is refused |
| SubmissionUseCases.SaveSubmission | src/modules/festival/submissions/applications/use-cases/create-submission.use-case.ts:39-105 | existence, eligibility, the length of the title and the one-per-registration index, then the row with both files |
| SubmissionUseCases.DeleteSubmission | src/modules/festival/submissions/applications/use-cases/delete-submission.use-case.ts:29-52 | refuses in order, else deletes the file and then the row |
| Answers.SubmitAnswer | src/modules/festival/submissions/applications/use-cases/create-submission.use-case.ts:47-103 | each refusal in order, uploads first |
| Answers.UploadsStore | src/modules/festival/submissions/applications/orchestrator/submissions.orchestrator.ts:25-41 | which file rows and blobs the uploads of a submission leave, also when one of them is refused |
| Answers.SubmitStores | src/modules/festival/submissions/applications/orchestrator/submissions.orchestrator.ts:25-41 | the stored files stay when the submission is refused |
| Answers.SubmitWrites | src/modules/festival/submissions/applications/use-cases/create-submission.use-case.ts:56-66 | the row of an accepted submission links both files and is SUBMITTED |
| Answers.DeleteSubmissionAnswer | src/modules/festival/submissions/applications/use-cases/delete-submission.use-case.ts:29-50 | each refusal in order |
| Answers.DeleteSubmissionWrites | src/modules/festival/submissions/applications/use-cases/delete-submission.use-case.ts:47-51 | row, file row and blob go, references to the file are cleared, and nothing else changes |
| NotificationsGateway.IndexIsLive | src/modules/shared/notifications/notifications.gateway.ts:28-70 | after any connects and disconnects with fresh socket ids the index is exactly the relation of live authenticated connections, with no empty list and no socket twice |
| NotificationsGateway.SendReachesLiveSockets | src/modules/shared/notifications/notifications.gateway.ts:73-80 | a message to a user is emitted once to each live socket of the user and to no other |
| NotificationsGateway.Gateway.HandleConnection | src/modules/shared/notifications/notifications.gateway.ts:28-57 | an authenticated socket is appended to its user's list, any other changes nothing |
| NotificationsGateway.Gateway.HandleDisconnect | src/modules/shared/notifications/notifications.gateway.ts:59-70 | the socket leaves every list it is in and a list that becomes empty leaves the map, also while the map is being visited |
| NotificationsGateway.Gateway.SendToUser | src/modules/shared/notifications/notifications.gateway.ts:73-80 | emits to the sockets in the user's list, in order |
| Competitions.DtoShowsTheRunningWave | src/modules/festival/competitions/domains/mappers/competition.mapper.ts:21-50 | open if and only if active and some wave is running; the active wave is a running one that started first; all waves are shown, earliest first; every other field is that of the row |
| CompetitionImport.ImportContents | src/modules/festival/competitions/applications/use-cases/import-competitions.use-case.ts:29-62 | the import keeps every old row, adds for the first item of each new non-empty name a row with its columns, and adds nothing else |
| CompetitionImport.ImportCounts | src/modules/festival/competitions/applications/use-cases/import-competitions.use-case.ts:26-64 | the table grows by the number of distinct new names |
| CompetitionImport.ReimportAddsNothing | src/modules/festival/competitions/applications/use-cases/import-competitions.use-case.ts:32-36 | importing the same names again imports nothing and changes nothing |
| CompetitionList.Controller.ImportItems | src/modules/festival/competitions/applications/use-cases/import-competitions.use-case.ts:23-65 | the import completes if and only if the database takes every item that is the first of a new name; then imported is the number of distinct new names and imported, skipped and nameless items add up to the input; else it ends at the first one refused, with exactly the items before it inserted |
| CompetitionList.Controller.ImportCompetitions | src/modules/festival/competitions/interface/http/competitions.controller.ts:132-141 | the cached list is dropped when a completed import added something and kept otherwise; a coherent list goes stale if and only if an active first item precedes the first one refused |
| CompetitionList.AbortedImportStaleIff | src/modules/festival/competitions/interface/http/competitions.controller.ts:136-139 | in an import that fails the cached list goes wrong if and only if an active item, first of a new name, precedes every item the database refuses: a condition on the table, the input and the rules of the database |
| CompetitionList.ImportStaleIff | src/modules/festival/competitions/interface/http/competitions.controller.ts:132-141 | over all imports, completed or not, a coherent cached list goes stale if and only if there is one and the import fails after an active item |
| CompetitionList.StaleListIsServed | src/modules/festival/competitions/interface/http/competitions.controller.ts:74-139 | from an empty table: list, an import of any two items of which the database takes the first and refuses the second, list again; the second list misses the active competition that was inserted |
| CompetitionList.TwoWaysToFail | src/modules/festival/competitions/domains/entities/competition.entity.ts:9-50 | two such inputs under the rules of the columns: two waves of one name, and a name of 151 characters |
| CompetitionList.ListIsCompleteIff | src/modules/festival/competitions/interface/http/competitions.controller.ts:60-181 | over any sequence of requests what a cached list shows is right, and it is complete if and only if no import has failed after inserting an active competition since the list was last dropped, by a successful writer or the end of its time-to-live |
| CompetitionList.Handle | src/modules/festival/competitions/interface/http/competitions.controller.ts:74-181 | the controller answers every request as the trace theorem assumes |
| CompetitionList.Controller.GetAll | src/modules/festival/competitions/interface/http/competitions.controller.ts:74-86 | the list, cached or not, shows each active competition once and nothing else, as it is in the table up to the clock, if and only if the cache was coherent |
| CompetitionList.Controller.Create | src/modules/festival/competitions/interface/http/competitions.controller.ts:119-125 | creates an active competition and drops the cached list; a row the database refuses changes neither |
| CompetitionList.Controller.Update | src/modules/festival/competitions/interface/http/competitions.controller.ts:147-155 | changes the fields sent, resets name, type and team sizes when they are left out, clears the two nullable fields on null, and drops the cached list; a null elsewhere, a row the database refuses or an unknown id changes nothing |
| CompetitionList.OmittedFieldsAreReset | src/modules/festival/competitions/applications/dto/update-competition.dto.ts:5-7 | an update changes exactly the fields sent if and only if each of the four inherited defaults that is left out is in the row already |
| CompetitionList.UpdateWrites | src/modules/festival/competitions/applications/use-cases/update-competition.use-case.ts:27-43 | each column is written from the field of its name, nulls clear the nullable ones and fail the others, and no other row changes |
| CompetitionList.SoftDeleteWrites | src/modules/festival/competitions/applications/use-cases/soft-delete-competition.use-case.ts:14-33 | one flag of an active competition is written, an inactive one is left alone, and an unknown id or a refused row fails |
| CompetitionList.UpdateWaveWrites | src/modules/festival/competitions/applications/use-cases/update-wave.use-case.ts:24-30 | the four columns of one wave with the id, each from the field of its name, and no other wave or row |
| CompetitionList.Controller.SoftDelete | src/modules/festival/competitions/interface/http/competitions.controller.ts:161-167 | deactivates and drops the cached list; an unknown id or a refused row changes nothing |
| CompetitionList.Controller.UpdateWave | src/modules/festival/competitions/interface/http/competitions.controller.ts:174-181 | changes one wave of one competition and drops the cached list; a null or a row the database refuses changes nothing |
| FileKeys.KeyRoundTrip | src/modules/shared/storage/infrastructures/adapters/cloudinary-storage.adapter.ts:37-48 | the adapter takes every generated key apart into the folder context/userId and the generated id, and these with the extension rebuild the key, for every original name, context and user |
| FileKeys.UploadTarget | src/modules/shared/storage/infrastructures/adapters/cloudinary-storage.adapter.ts:37-48 | for every key, the folder is what precedes the last slash and the public id what precedes the last dot of the name |
| FileKeys.ExtensionShape | src/modules/shared/storage/domains/services/storage-domain.service.ts:18-26 | the extension of a key is a dot followed by no further dot or slash, whatever the original name |
| FileKeys.ExtensionOf | src/modules/shared/storage/domains/services/storage-domain.service.ts:18-26 | the extension of a name is what follows its last dot, in lower case; a name without a dot or with only a leading one gets the default |
| Accounts.ResetAcceptedIff | src/modules/identity/auth/applications/use-cases/reset-password.use-case.ts:23-47 | a reset succeeds if and only if it presents the last code issued to the account, not used since, no later than its expiry: ten minutes after it was issued, rounded to a second |
| Accounts.ResetsNeverExceedIssues | src/modules/identity/auth/applications/use-cases/forgot-password.use-case.ts:34-42 | over every run successful resets plus the code still out never exceed the codes issued |
| Accounts.ResetsNeedAnIssueBetween | src/modules/identity/auth/applications/use-cases/reset-password.use-case.ts:43-47 | between two successful resets of an account a code was issued, and the second reset uses it in time |
| Accounts.VerifyAcceptedIff | src/modules/identity/auth/applications/use-cases/verify-email.use-case.ts:19-35 | a verification succeeds if and only if it is the account's first with the sign-up code, no later than its expiry, rounded to a second |
| Accounts.VerifiesAtMostOnce | src/modules/identity/auth/applications/use-cases/verify-email.use-case.ts:25-43 | an account verifies at most once |
| Accounts.ActiveIffVerified | src/modules/identity/auth/applications/use-cases/register.use-case.ts:33-47 | a self-registered account is active if and only if it is verified, which is when its code was confirmed |
| Accounts.PasswordIsOfLastReset | src/modules/identity/auth/applications/use-cases/reset-password.use-case.ts:43-47 | after any requests an account has the password of its last successful reset, or of its sign-up if there was none |
| Accounts.OthersUntouched | src/modules/identity/auth/applications/use-cases/reset-password.use-case.ts:43-47 | a request changes no account but its own, and a refused one none |
| Accounts.RefusalsOf | src/modules/identity/auth/applications/use-cases/verify-email.use-case.ts:19-33 | each refusal of sign-up, verification and reset with its reason |
| Accounts.AuthService.Register | src/modules/identity/auth/applications/use-cases/register.use-case.ts:21-47 | a new email gets an inactive, unverified account with a code for ten minutes |
| Accounts.AuthService.VerifyEmailCode | src/modules/identity/auth/applications/use-cases/verify-email.use-case.ts:19-43 | refuses in order, else activates the account and clears its code |
| Accounts.AuthService.ForgotPasswordCode | src/modules/identity/auth/applications/use-cases/forgot-password.use-case.ts:23-51 | a known email gets a new reset code for ten minutes in place of the old one |
| Accounts.AuthService.ResetPasswordWith | src/modules/identity/auth/applications/use-cases/reset-password.use-case.ts:18-50 | refuses in order, else sets the password and clears the code, as the history theorems say |

## Left out

- Framework parts: wiring, guards, DTO validation, exception filters, JWT, password hashing, CSRF, Swagger.
- Side outputs: notifications of the use cases, mail, audit log, message broker, search index.
- Simulation, sandbox worker, seeder, admin account creation, health checks: they bypass the modelled rules.
- The competition detail cache: its invalidation keys do not match the prefixed routes, so there is no coherence to state.
- Grading, CANCELLED and champion titles: no modelled step sets a grade or cancels, and titles have no rule.
- File bytes, MIME and size checks, blob providers: a file arrives as missing, invalid, or valid with its generated id, key and URL.
- Interleavings inside the other requests: creating a team, adding a member, payments, submissions, the storage routes
  and edits of users and competitions act in one step also in `Interleaving.dfy`, `Losses.dfy` and `Races.dfy`. So do the reads of a
  register request before its first quota check.
- Registrations.WaveVerdict: missing wave dates are not modelled, because both columns are NOT NULL.
- FileKeys.Extension: lower-cases ASCII letters only; other letters are kept.
- Text comparison in the database is plain equality here; its collation is not modelled.
- CompetitionList.Controller.FindActive: the order of the list (by name in the database) is not modelled; a list is compared by its entries.
- CompetitionImport.FromItem: dates and prices of waves are taken as their columns keep them.
- Accounts.AuthService.Register: the email is taken as already trimmed and lower-cased.
- PaymentAttempts.ToResponse: names, avatars and contact details in the response are not modelled.

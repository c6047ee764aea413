# Verified models of the school platform's stateful services

Dafny models of the parts of the platform that keep state over many requests:
refresh-token families, the audit hash chain, the exam engine, the timetable and
attendance views, the Redis-backed limiter and caches, the password vault, recovery
codes and the tenant query extension. Each service is a class whose methods are
proved against a function of the old state; the functions are the steps of a run
model, and the main results are lemmas about every run.

| file | what it models |
|---|---|
| RefreshTokens.dfy | the rotation protocol with its reads and writes as separate, interleaved steps |
| TokenService.dfy | the same with whole requests, and the service |
| TokenBranches.dfy | exactly when interleaved requests fall short of whole ones |
| HashText.dfy, JsonText.dfy | the text that is hashed, payload values and the key order of a jsonb column |
| AuditChain.dfy, AuditLog.dfy, AuditOverlap.dfy | the verifier, the recorded log, and the log of handlers that overlap |
| Shuffle.dfy, ExamPaper.dfy, ExamGrading.dfy, ExamService.dfy | shuffling, the stored paper, marking and grading, and the life of an answer sheet |
| ExamOverlap.dfy | submissions of one sheet that overlap |
| Timetable.dfy, DailySchedule.dfy, WeekParity.dfy | schedule rows, a teacher's day and the alternating weeks |
| TimetableOverlap.dfy | creations of schedule rows that overlap |
| CarryForward.dfy | the attendance sheet of a classroom |
| TimedStore.dfy, RateLimiter.dfy, SchoolCalendar.dfy, FeatureFlags.dfy | a key-value store with expiry and the three services on it |
| LimiterOverlap.dfy | the limiter with check, count and locks apart |
| CacheOverlap.dfy | a cached question with look-up, fill, change and drop apart |
| PasswordVault.dfy | master keys, key pairs and encrypted passwords |
| RecoveryCodes.dfy | single-use codes, by whole requests and by requests that overlap |
| TenantScope.dfy | rewriting of database arguments by tenant |
| Optional.dfy, Sequences.dfy, Utf8.dfy, Decimals.dfy | shared definitions |

`dafny verify dfyconfig.toml` checks all files.

## What was found

Where a promised property does not hold of the code as it stands, the model keeps the
code and proves exactly when the property holds:

- The rotating transaction does not test the used flag again, so overlapping refreshes
  branch a family (`OverlappingRefreshesBranch`). A family keeps one unused token if and
  only if no rotation of the run finds its token used (`RunKeepsTipIff`); a replay closes
  all branches once it is written, and until then their tokens work (`ReplayWindow`).
- The audit hash joins fields with `|` (`UniqueReadingIffAllClean`). The anchor of an
  untouched chain proves the content of the last rows that are accepted with it if and
  only if none of the six text fields before the timestamp holds that character, but for
  a user id that is nothing else (`AnchorIsEvidenceIff`). Links and hashes that are null
  are not tested, so rows can be put in front of the first one (`RowsInFrontPass`);
  but for hashes left out nothing else gets by (`PassesIff`).
- The payload is hashed as given but read back from a jsonb column, which orders keys by
  length, and with the application version added. A row verifies if and only if its
  payload comes back as it was hashed (`RowVerifiesIffKept`); the event of a new school
  does not (`RegistrationFailsVerification`).
- `src/modules/rbac/rbac.service.ts:1019`, `src/modules/auth/password-vault.service.ts:317`
  and `src/modules/saas-admin/services/saas-tenant-lifecycle.service.ts:169` and `:232` write
  audit rows without hashes. The next event then links to the genesis text and its
  untouched log is refused, and until then the anchor does not match (`HonestLogVerifies`).
- The audit handler takes its timestamp, looks up and writes in separate steps: a tenant's
  log verifies if and only if each handler found the last hash, in the order of the
  timestamps (`LogVerifiesIffSerial`, `DistinctStampsVerifyIff`).
- The total written at submission is the sum of the stored answers if and only if no
  answer that earns points is followed by another to its question (`SubmittedTotalIsStoredSum`);
  of overlapping submissions, if and only if the last one leaves out no stored answer
  that is worth something (`TotalAgreesIff`).
- A question in use can be deleted, with its answers. Papers and totals stay as they were
  if and only if it was on no such paper, and its answers were worth nothing
  (`ReentryShowsSamePaper`, `SubmittedSheetInOrder`).
- The teacher look-up is exact (`TeacherLookupIsExact`), but not repeated at the write:
  nobody gets two classrooms if and only if no creation would find a conflict when it
  writes (`RunKeepsDisjointIff`).
- Week alternation breaks at a new year exactly after a year that ends on a Friday or a
  leap year that starts on one (`NowruzKeepsAlternation`).
- The row-count guard of the attendance sheet hides an inherited absence exactly when
  rows of other students, or of a second spelling of the day, fill the count (`GuardChangesLineIff`).
- The comments in `src/modules/auth/auth.service.ts:533-535` and
  `src/common/redis/brute-force.service.ts:203-205` promise a 15-minute lock after five
  wrong codes. One request at a time never reaches that tier (`LongTiersNeedExemptAddress`);
  with k that overlap the exact cap is 2 + k, so three reach it, and 4 + 2k for logins
  (`CountersUnderOverlap`, `OverlapCapIsReached`). A request that was counted earlier can
  cut a longer lock short (`LockHoldsIff`).
- Official holidays do not drop cached answers and stay unseen for up to a day
  (`NewOfficialHolidayIsNotSeen`); an answer is the uncached one if and only if no live
  entry stands or its official row says the same as today's (`AnswerIsExactIff`). A fill
  that is overtaken by a change and its drop stays stale for its whole life; answers stay
  current if and only if there is no such fill and no change that drops nothing over a
  live entry (`SettledIffNeverStales`).
- Two scopes of feature flags share a cache entry if and only if one's name and a colon
  begin the other's (`ScopesShareIff`).
- A vault's first master key is trimmed, and a blank one replaced by a generated key
  that is returned to nobody (`FirstKeyOpensIffTrimmed`); a new password of more than 190
  bytes leaves the old ciphertext in place (`ChangeKeepsVaultCurrentIff`).
- Recovery codes are read and written back in two calls, so overlapping logins restore a
  spent code (`OverlapRestoresCode`); codes are spent once if and only if every write
  finds the list that its request read (`OverlapConservesIff`).
- An update or upsert that sets the tenant column moves rows out (`UpdateMovesRowsIff`),
  and look-ups by unique key are not confined (`FindUniqueIsNotConfined`): they depend on
  own rows alone if and only if their condition admits no others (`FindUniqueSeesOwnIff`).

## Model

| member | source | states |
|---|---|---|
| RefreshTokens.VerdictIff | src/modules/auth/auth.service.ts:691-748 | on the rows alone: a refresh is a replay if and only if its token is used and its family live, however old it is; expired if and only if unused, live and past its expiry; admitted if and only if unused, live and not past it |
| RefreshTokens.RunKeepsInv | src/modules/auth/auth.service.ts:685-871 | every interleaving of look-ups, rotations, logouts and password changes keeps tokens in existing families, a forest of rotations with one root per family, and a token used exactly when it has a successor |
| RefreshTokens.FamilyIsTree | src/modules/auth/auth.service.ts:685-774 | in every reachable state all tokens of a family descend by rotations from one login token, and a token is used if and only if it was rotated, never half-rotated |
| RefreshTokens.RevokedFamilyStaysClosed | src/modules/auth/auth.service.ts:713-735 | once a family is revoked, every later state refuses every token of it, and only requests that had read before can still add one each |
| RefreshTokens.ReplayClosesFamily | src/modules/auth/auth.service.ts:718-735 | a used token of a live family, when presented, closes all its branches from the moment the revocation is written, whatever runs between and after |
| TokenBranches.ReplayWindow | src/modules/auth/auth.service.ts:691-735 | after a replay was looked up, and through any further steps, an unused token of the family is admitted if and only if it has not expired and no step rotated it or wrote a revocation of the family |
| TokenBranches.CommitKeepsTipIff | src/modules/auth/auth.service.ts:737-774 | a rotating transaction leaves the family one unused token if and only if the token it rotates is still unused, which it does not test |
| TokenBranches.RunKeepsTipIff | src/modules/auth/auth.service.ts:691-774 | over every interleaving a family with one unused token keeps exactly one, its newest, if and only if no rotation in the run finds its token already used; once branched it stays branched |
| TokenBranches.RunKeepsGoodIff | src/modules/auth/auth.service.ts:691-774 | through any run an unused token of a live family stays so if and only if no step rotates it or revokes the family |
| RefreshTokens.OverlappingRefreshesBranch | src/modules/auth/auth.service.ts:691-774 | the rotating transaction does not test the used flag again: two overlapping refreshes of one token both succeed and leave two unused tokens |
| RefreshTokens.PasswordChangeClosesFamilies | src/modules/auth/session.service.ts:165-171 | after a password change every refresh begun later fails for every family of the user that existed then |
| RefreshTokens.PendingIsStable | src/modules/auth/auth.service.ts:691-774 | what a request has read and will write is not changed by other requests |
| TokenRequests.RefreshDoes | src/modules/auth/auth.service.ts:685-791 | row by row: a replay revokes the one family with its reason, an exchange marks the token used and adds one good for seven days, and every other answer changes nothing |
| TokenRequests.LoginDoes | src/modules/auth/auth.service.ts:823-871 | row by row: a live family and an unused token good for seven days, and no other change |
| TokenRequests.LogoutDoes | src/modules/auth/auth.service.ts:797-815 | row by row: exactly the family of the token, or exactly those of the user, are revoked, each with its reason |
| TokenRequests.PasswordChangeDoes | src/modules/auth/session.service.ts:165-171 | row by row: exactly the user's families that are not revoked yet, and those only if the old password was right |
| TokenRequests.RequestIsItsSteps | src/modules/auth/auth.service.ts:685-871 | a request run without interruption has exactly the effect of its database steps in the interleaved protocol, and leaves nothing pending |
| TokenRequests.ReachableIsQuiet | src/modules/auth/auth.service.ts:685-871 | with whole requests every family has, after every run, exactly one unused token, which is its newest |
| TokenRequests.RevokedStaysRevoked | src/modules/auth/auth.service.ts:713-735 | no run of requests undoes a revocation |
| TokenRequests.PasswordChangeEndsOldTokens | src/modules/auth/auth.service.ts:619-664 | no refresh token issued before a password change is exchanged after it |
| TokenRequests.ReplayEndsFamily | src/modules/auth/auth.service.ts:718-735 | with whole requests one refresh with a used token of a live family makes every token of the family refused for ever |
| TokenRequests.TokenService.CreateTokenPair | src/modules/auth/auth.service.ts:823-871 | a login creates a live family with one unused token; it is the `Login` request of the run model |
| TokenRequests.TokenService.RefreshToken | src/modules/auth/auth.service.ts:685-791 | answers by the verdict on the row (unknown, revoked, reused, expired, admitted) and changes the tables as the `Refresh` request does, revoking the family on reuse |
| TokenRequests.TokenService.LogoutToken | src/modules/auth/auth.service.ts:797-808 | revokes the family of the token and nothing else |
| TokenRequests.TokenService.LogoutUser | src/modules/auth/auth.service.ts:809-815 | revokes every family of the user |
| TokenRequests.TokenService.RevokeAllOtherSessions | src/modules/auth/session.service.ts:165-171 | revokes every live token family of the user and keeps the reason of those already revoked |
| HashText.JoinInjective | src/common/crypto/encryption.service.ts:121-132 | joining fields with the separator is injective when all but the last field are free of it |
| HashText.UniqueReadingIffAllClean | src/common/crypto/encryption.service.ts:121-132 | a joined text determines its fields if and only if no field contains the separator |
| JsonText.RenderInjective | src/common/crypto/encryption.service.ts:129 | two payloads are turned into the same text only if they are the same value, with the same keys in the same order |
| JsonText.IsIndexIff | prisma/schema.prisma:569 | a key is read back before all names exactly when it is a number below 2^32 - 1 in decimal digits without a leading zero |
| JsonText.StoredUnchangedIffInOrder | prisma/schema.prisma:569 | a value comes back from the jsonb column unchanged if and only if the keys of every object in it are distinct and already in storage order |
| JsonText.StoredWithUnchangedIff | src/modules/audit-log/audit-log.service.ts:79-97 | an object with one more member assigned comes back as the original object if and only if the original was in storage order and held that member |
| AuditChain.HashIs | src/common/crypto/encryption.service.ts:109-135 | the digest is of ten fields in this order with the pepper last, a missing user, link or payload standing for a fixed text |
| AuditChain.HashDeterminesText | src/common/crypto/encryption.service.ts:109-135 | equal hashes mean equal joined texts, whatever the pepper |
| AuditChain.VerifyAuditLogIntegrity | src/modules/audit-log/audit-log.service.ts:126-197 | the loop reports an intact chain exactly for an accepted non-empty log, else the first row whose link or hash fails, and whether the anchor matches the last hash |
| AuditChain.TextDeterminesPieces | src/common/crypto/encryption.service.ts:121-132 | whatever separators the fields hold, the hashed text determines the first six fields as one joined text, the timestamp, the link and the payload text |
| AuditChain.OneReadingIsUnique | src/common/crypto/encryption.service.ts:121-132 | the first six fields have one reading if none holds the separator, or only the user id does and consists of it |
| AuditChain.TamperEvidence | src/modules/audit-log/audit-log.service.ts:140-194 | any accepted rows that end in the anchor of an honest chain without stray separators, null links and hashes included, end in that chain in every hashed field; they are that chain and no more if and only if no link is missing behind their first row |
| AuditChain.PassesIff | src/modules/audit-log/audit-log.service.ts:140-194 | exactly what passes against such a chain: its own content with any hashes but the last left out, behind any accepted rows if its first link is left out too |
| AuditChain.RowsInFrontPass | src/modules/audit-log/audit-log.service.ts:146 | against every honest chain any accepted rows can be put in front, since a missing link is not tested |
| AuditChain.UnhashedAreAccepted | src/modules/audit-log/audit-log.service.ts:146-170 | such as rows without links and hashes, whatever they say |
| AuditChain.StraySeparatorHidesAnEdit | src/common/crypto/encryption.service.ts:121-132 | for every honest chain with a stray separator other rows, as many and all linked, are accepted against the same anchor, with the same row ids and tenant when the separator is behind the tenant |
| AuditChain.AnchorIsEvidenceIff | src/modules/audit-log/audit-log.service.ts:140-194 | so the anchor proves the hashed content of the last rows of whatever is accepted, and of all of them when no link is missing behind the first, if and only if no row of the honest chain has a stray separator |
| AuditLog.RowIs | src/modules/audit-log/audit-log.service.ts:79-113 | a recorded row has each field of its event, the id and instant it was given and the link, and the hash is over the payload as given |
| AuditLog.ReadBackHolds | src/modules/audit-log/audit-log.service.ts:91-106 | the column gives back nothing for an event without payload and version, else an object with each member of the payload, a scalar payload under value, and the version under its own key |
| AuditLog.ArraySpreads | src/modules/audit-log/audit-log.service.ts:91-94 | an array payload is spread into members named by its positions |
| AuditLog.ReadBackAsHashedIff | src/modules/audit-log/audit-log.service.ts:79-97 | the payload text the verifier reads back is the hashed one if and only if nothing was given, or an object whose keys are in storage order and which holds the application version, if there is one, itself |
| AuditLog.RowVerifiesIffKept | src/modules/audit-log/audit-log.service.ts:60-120 | so a recorded row passes the recomputation if and only if its payload comes back as it was hashed |
| AuditLog.RegistrationFailsVerification | src/modules/auth/auth.service.ts:133 | the event of a new school, with the keys schoolName and slug, never passes: the shorter key is read back first |
| AuditLog.RecordedChain | src/modules/audit-log/audit-log.service.ts:60-120 | after any interleaving of events and of other services' rows, of all tenants, each tenant has one row per entry, a recorded one linked to the row before it, and its anchor is the last hash in its rows |
| AuditLog.HonestLogVerifies | src/modules/audit-log/audit-log.service.ts:60-197 | after any such run verification accepts a tenant's untouched log if and only if every recorded payload comes back as it was hashed and no recorded row follows one that another service wrote; its anchor matches if and only if the last row was recorded or none was |
| AuditLog.CurrentIsChain | src/modules/audit-log/audit-log.service.ts:69-120 | the events recorded since the last row of another service form a chain of their own |
| AuditLog.AnchoredLogIsAuthenticIff | src/modules/audit-log/audit-log.service.ts:60-197 | when their payloads come back as hashed, whatever rows are accepted and end in the anchor end in the recorded content of these events, and are nothing else when no link is missing behind the first, if and only if none of them had a stray separator |
| AuditLog.LatestIsTip | src/modules/audit-log/audit-log.service.ts:69-76 | with distinct timestamps the newest row by timestamp is the last one appended |
| AuditLog.AuditLogService.FindLatest | src/modules/audit-log/audit-log.service.ts:69-73 | finds a row of the tenant that none of its rows is newer than, or nothing when it has none |
| AuditLog.AuditLogService.HandleAuditLogEvent | src/modules/audit-log/audit-log.service.ts:60-120 | appends one row chained to a newest one of the tenant and sets its anchor, also when timestamps are equal; with distinct timestamps it is the append of the run model; without a tenant it does nothing |
| AuditLog.AuditLogService.RecordWithoutHash | src/modules/rbac/rbac.service.ts:1019-1029 | how other services write: a row without link and hash, and no anchor |
| AuditOverlap.StepsAreHandler | src/modules/audit-log/audit-log.service.ts:60-120 | a time stamp, a look-up and a write with nothing in between are one whole event |
| AuditOverlap.LogVerifiesIffSerial | src/modules/audit-log/audit-log.service.ts:60-197 | for every interleaving of these steps and of other services' rows, equal time stamps included, the tenant's log as the query returns it is accepted if and only if every handler found the hash that was the last one when it wrote, and the query returns the hashed rows in the order they were written and before the others |
| AuditOverlap.DistinctStampsVerifyIff | src/modules/audit-log/audit-log.service.ts:60-197 | when no time stamps are equal the run decides: the handlers wrote in the order of their stamps, each having found the last hash, and every row of another service is newer than theirs |
| Shuffle.ShuffleArray | src/modules/exams/exams.service.ts:1080-1087 | the in-place loop computes the function of the draws that the laws below speak about |
| Shuffle.ShufflePermutes | src/modules/exams/exams.service.ts:1080-1087 | whatever is drawn, the result is a permutation |
| Shuffle.ShuffleBijective | src/modules/exams/exams.service.ts:1080-1087 | on distinct elements every permutation is reached by exactly one draw sequence |
| ExamPaper.BuildPaper | src/modules/exams/exams.service.ts:583-599 | the loops assemble the paper that the draws determine, shuffled or not |
| ExamPaper.PaperIsPermutation | src/modules/exams/exams.service.ts:583-599 | the stored paper holds each question once, and for each question each of its options once |
| ExamPaper.PaperFollowsFlags | src/modules/exams/exams.service.ts:583-599 | without a shuffle flag questions and options keep the exam's order, with it they follow the draws |
| ExamPaper.ShowQuestionIs | src/modules/exams/exams.service.ts:616-646 | a question is shown with its own score, kind and text, and its options in the stored order, each with its own text |
| ExamPaper.RenderPaper | src/modules/exams/exams.service.ts:616-646 | rendering follows the stored orders and skips what no longer exists |
| ExamPaper.AssembledPaperIsStable | src/modules/exams/exams.service.ts:616-646 | a stored paper renders the same, with all its questions, after questions are added |
| ExamGrading.MarkedIs | src/modules/exams/exams.service.ts:725-757 | an answer to a multiple-choice or true/false question earns the score if and only if it selects the first correct option, and zero otherwise; a descriptive one has no score and is left to the teacher |
| ExamGrading.RecordsAre | src/modules/exams/exams.service.ts:718-758 | the records are exactly the marked answers to questions of the exam |
| ExamGrading.UpsertDoes | src/modules/exams/exams.service.ts:762-772 | storing a record writes the row of its question, keeping the comment, and no other |
| ExamGrading.AutoGrade | src/modules/exams/exams.service.ts:719-758 | the marking loop returns the records, the sum of the awarded scores and whether a descriptive question was answered |
| ExamGrading.StoredSum | src/modules/exams/exams.service.ts:718-786 | the sum of the stored answers is the marked sum less the points that later answers overwrote |
| ExamGrading.SubmittedTotalIsStoredSum | src/modules/exams/exams.service.ts:718-786 | for scores that are not negative the total written at submission equals the sum of the stored answers if and only if no answer that earns points is followed by another to the same question |
| ExamGrading.DistinctAnswersAreStored | src/modules/exams/exams.service.ts:718-786 | with each question answered at most once the records are the stored rows |
| ExamGrading.RepeatedAnswerCountsTwice | src/modules/exams/exams.service.ts:718-786 | an answer sent twice counts twice in the total and once in the rows |
| ExamGrading.SubmittedTotalWithinExam | src/modules/exams/exams.service.ts:718-786 | with distinct question ids the marked total is at most the sum of the question scores |
| ExamGrading.UpdateAnswers | src/modules/exams/exams.service.ts:914-927 | the grading loop updates the named rows or fails as a whole |
| ExamGrading.GradesByRow | src/modules/exams/exams.service.ts:914-927 | grading succeeds exactly when every graded question has a row, and each row takes its last grade |
| ExamGrading.RoundHundredths | src/modules/exams/exams.service.ts:939-942 | rounding to hundredths moves the sum by no more than half a hundredth |
| ExamGrading.GradedTotalIs | src/modules/exams/exams.service.ts:935-942 | a graded total is the sum with the grace to the nearest hundredth, halves up, and never above the exam's |
| ExamService.StartDoes | src/modules/exams/exams.service.ts:549-614 | each answer to an entry if and only if its condition, with the sheet it leaves field by field |
| ExamService.FirstHandInIsAccepted | src/modules/exams/exams.service.ts:571-576 | a first submission is accepted at every moment up to the end of the exam and up to one minute after the duration, and at no later one |
| ExamService.SubmitDoes | src/modules/exams/exams.service.ts:690-786 | each answer to a submission if and only if its condition, and the sheet field by field: no total exactly when a descriptive question was answered, flagged exactly from three tab switches on |
| ExamService.GradeDoes | src/modules/exams/exams.service.ts:893-955 | a grading is saved if and only if every graded question has a row, and then each row has its last grade and the sheet the capped total |
| ExamService.DeletionDoes | src/modules/question-bank/question-bank.service.ts:144-159 | a deleted question goes with its answers on every sheet, and every other question stays |
| ExamService.RunKeepsInv | src/modules/exams/exams.service.ts:519-962 | every run of entries, submissions, gradings and questions added or deleted keeps times in order and totals that account for the stored answers and those deleted since |
| ExamService.SubmittedSheetInOrder | src/modules/exams/exams.service.ts:556-786 | every submitted sheet has start <= submission <= deadline <= min(end of exam, start + duration + 1 minute); a marked total is the sum of the stored answers if and only if every answer deleted with its question since was worth nothing; a graded one is min(exam total, rounded sum with grace) over stored and deleted answers |
| ExamService.RunSettles | src/modules/exams/exams.service.ts:570-786 | submitted and timed-out are absorbing, although submission tests only the first; the stored paper and the time of a submitted one never change, and a question stays as it is until it is deleted and then stays away |
| ExamPaper.RenderSameIff | src/modules/exams/exams.service.ts:616-646 | a stored paper reads as before if and only if none of its questions is gone |
| ExamService.ReentryShowsSamePaper | src/modules/exams/exams.service.ts:564-646 | a later entry shows the identical paper, whatever happened between, questions added included, if and only if no question on it was deleted |
| ExamService.GradingIsIdempotent | src/modules/exams/exams.service.ts:893-962 | repeating a grading changes nothing |
| ExamService.ExamsService.StartExam | src/modules/exams/exams.service.ts:519-663 | access, opening hours, an earlier submission, a new or stored paper: the same answers and rows as the step of the run model |
| ExamService.ExamsService.SubmitExamAnswers | src/modules/exams/exams.service.ts:666-796 | missing, already submitted, late (which sets timed-out) or marked and stored, as the step of the run model |
| ExamService.ExamsService.GradeDescriptiveAnswers | src/modules/exams/exams.service.ts:893-962 | grades all or nothing and writes the capped total, as the step of the run model |
| ExamService.ExamsService.DeleteQuestion | src/modules/question-bank/question-bank.service.ts:144-159 | takes a question out of the exam and its answers out of every sheet, whether in use or not |
| ExamOverlap.StepsAreSubmit | src/modules/exams/exams.service.ts:666-796 | a test of status and deadline followed at once by its write is one whole submission |
| ExamOverlap.TotalAgreesIff | src/modules/exams/exams.service.ts:694-786 | over every interleaving of submissions a total that was written is the sum of the stored answers if and only if every stored answer that the submission written last leaves out is worth nothing |
| Timetable.TeacherLookupIsExact | src/modules/classes/classes.service.ts:793-840 | in a clash-free timetable the look-up reports a conflict if and only if writing the slot would put a teacher into two classrooms at one time |
| Timetable.VerdictIff | src/modules/classes/classes.service.ts:729-847 | each refusal if and only if its condition, in order: period outside 1 to 10, an unknown name, a taken place, a teacher busy in another classroom |
| Timetable.CreateDoes | src/modules/classes/classes.service.ts:870-905 | a saved creation has the slot as given, without second lesson and teacher on a plain one, and no other row changes |
| Timetable.UpdateDoes | src/modules/classes/classes.service.ts:909-1098 | a saved update has the new value of each given field and the old one of each absent field; the replaced row is gone and no other changes |
| Timetable.UpdateRefusedIff | src/modules/classes/classes.service.ts:909-1075 | an update is refused for the same reasons, decided on the slot with those fields |
| Timetable.RunKeepsInv | src/modules/classes/classes.service.ts:729-1111 | every run of create, replace, move and delete keeps one row per classroom, day and period, and no second teacher or lesson on a plain slot |
| Timetable.RunKeepsTeachersDisjoint | src/modules/classes/classes.service.ts:729-1111 | without the override flag the teacher sets of different classrooms at one day and period stay disjoint |
| Timetable.ClassesService.FindSlot | src/modules/classes/classes.service.ts:777-790 | finds an occupied slot exactly when there is one |
| Timetable.ClassesService.HasTeacherConflict | src/modules/classes/classes.service.ts:793-840 | true exactly when the first or, on a split slot, the second teacher is busy elsewhere |
| Timetable.ClassesService.CreateSchedule | src/modules/classes/classes.service.ts:729-907 | refuses for the first failing test or writes the new or replaced row, as the step of the run model |
| Timetable.ClassesService.UpdateSchedule | src/modules/classes/classes.service.ts:909-1098 | merges the given fields, tests as creation does, removes the replaced row and writes |
| Timetable.ClassesService.DeleteSchedule | src/modules/classes/classes.service.ts:1100-1111 | removes the row or reports that there is none |
| TimetableOverlap.StepsAreCreate | src/modules/classes/classes.service.ts:777-907 | look-ups followed at once by the write are one whole creation |
| TimetableOverlap.RunKeepsDisjointIff | src/modules/classes/classes.service.ts:777-907 | over every interleaving of look-ups and writes with whole changes and deletions each place keeps one row, and nobody ever has two classrooms at one time if and only if no creation finds, when it writes, that a teacher of it has become busy elsewhere |
| TimetableOverlap.OverlapGivesTwoClassrooms | src/modules/classes/classes.service.ts:793-907 | two creations with one teacher at one time in two classrooms that both look first are both written |
| DailySchedule.GetTeacherDailySchedule | src/modules/attendance/attendance.service.ts:710-852 | nothing for a user without a teacher profile; else exactly the entries of the slots of the day that are the teacher's this week, each once, in order of period |
| DailySchedule.EntryIs | src/modules/attendance/attendance.service.ts:783-813 | an entry names the slot's lesson and teacher, of an alternating one the first in an odd week and the second in an even one |
| DailySchedule.ListedIff | src/modules/attendance/attendance.service.ts:739-781 | which slots of the day are listed for a teacher, and which for a user who names none |
| DailySchedule.OneSlotPerPeriod | src/modules/attendance/attendance.service.ts:739-781 | from the timetable invariant: no two listed slots of a teacher fall in one period |
| DailySchedule.ListedIffActive | src/modules/attendance/attendance.service.ts:765-813 | a slot is listed exactly when the teacher is its active one, but for alternating slots that lack a second teacher or lesson |
| DailySchedule.SplitSlotHasOneTeacher | src/modules/attendance/attendance.service.ts:765-813 | an alternating slot is never listed for two teachers in one week, and names the one it is listed for |
| DailySchedule.SplitSlotAlternates | src/modules/attendance/attendance.service.ts:765-813 | its two teachers take turns: seven days later in the year the other one has it |
| DailySchedule.ScheduleAfterRun | src/modules/attendance/attendance.service.ts:710-852 | after any run of timetable operations without the override flag the answer has strictly increasing periods and names the teacher in every entry |
| WeekParity.DayOfYearIsBijective | src/modules/attendance/attendance.service.ts:108 | month and day correspond one to one to the days 1 to 365 or 366 |
| WeekParity.WeekNumberCountsSaturdays | src/modules/attendance/attendance.service.ts:108-113 | within a year the week number counts Saturdays, so the active week changes on every Saturday and on no other day |
| WeekParity.WeeksBeginOdd | src/modules/attendance/attendance.service.ts:108-113 | every year begins in an odd week, and a day of it is in one if and only if an even number of Saturdays lies between |
| WeekParity.AlternationOverYears | src/modules/attendance/attendance.service.ts:108-113 | for any two dates, the active weeks agree if and only if the Saturdays plus the breaking years between them are even in number |
| WeekParity.NowruzKeepsAlternation | src/modules/attendance/attendance.service.ts:108-113 | across one new year the alternation goes on if and only if the old year neither ends on a Friday nor is a leap year starting on one |
| WeekParity.ClientAgreesWithServer | frontend/src/utils/jalali.ts:211-249 | client and server read the same date from the same three numbers but for the years 1300 and 1500, and then show the same week |
| CarryForward.RecordDoes | src/modules/attendance/attendance.service.ts:129-285 | an empty list is refused, and one that names twice a student without a mark of the period; else it is saved |
| CarryForward.WrittenAt | src/modules/attendance/attendance.service.ts:200-256 | saving a list sets each named student's mark of that date and period to the last one given and leaves every other row |
| CarryForward.AttendanceService.RecordStudentAttendanceBulk | src/modules/attendance/attendance.service.ts:129-285 | for status and delay: refuses an empty list, fails as a whole when it would create a row twice, else writes item by item |
| CarryForward.AttendanceService.GetClassroomAttendance | src/modules/attendance/attendance.service.ts:292-448 | for status and delay: one line per enrolled student, counts in which each falls once, and for tidy marks the meaning "own mark, else the nearest earlier period's absence, else present" |
| CarryForward.UnguardedMeansRight | src/modules/attendance/attendance.service.ts:361-398 | the maps "last row wins" and "first row wins" compute that meaning: an absence or excused absence of the nearest earlier period as it was, and presence for any other status |
| CarryForward.GuardChangesLineIff | src/modules/attendance/attendance.service.ts:367 | for any rows, the row-count guard changes a line if and only if it skips the look-up for a student with an earlier mark and none of the period |
| CarryForward.EnoughRowsCoverRoster | src/modules/attendance/attendance.service.ts:367 | the pigeonhole: as many rows as students, each for a student of its own, leave no student without one |
| CarryForward.GuardIsHarmless | src/modules/attendance/attendance.service.ts:361-398 | so the guard never changes the view when the day is spelled one way and only enrolled students are marked |
| CarryForward.DepartedStudentHidesAbsence | src/modules/attendance/attendance.service.ts:367 | otherwise it can: a mark of a student who left hides an absence of one who stays |
| CarryForward.FullyRecordedIffAllMarked | src/modules/attendance/attendance.service.ts:430 | for tidy marks the flag is set if and only if the roster is not empty and every student has a mark of the period |
| CarryForward.SummaryIs | src/modules/attendance/attendance.service.ts:424-430 | each number of the summary is that of the lines with its status, and they add up to the roster |
| CarryForward.RunStaysTidy | src/modules/attendance/attendance.service.ts:129-285 | any run of recordings that spells the day one way and names enrolled students leaves the marks tidy |
| CarryForward.LatestByStudent | src/modules/attendance/attendance.service.ts:361-363 | the map built from rows keeps the last row of each student |
| CarryForward.EarliestByStudent | src/modules/attendance/attendance.service.ts:377-381 | the guarded inserts keep the first row of each student |
| TimedStore.PutDoes | src/common/redis/redis.service.ts:71-82 | a value is found until its time to live is over, or for good without one |
| TimedStore.IncrDoes | src/common/redis/redis.service.ts:93-104 | a live counter counts up in its window, a missing or expired one starts at 1 with a new window |
| TimedStore.SweepIsInvisible | src/common/redis/redis.service.ts:62-122 | hiding expired entries cannot be told from removing them, by any later sequence of commands |
| TimedStore.RedisService.Get | src/common/redis/redis.service.ts:62-69 | the live value, or nothing when missing, expired or not connected |
| TimedStore.RedisService.Set | src/common/redis/redis.service.ts:71-82 | overwrites value and expiry; a time to live of zero is none |
| TimedStore.RedisService.Delete | src/common/redis/redis.service.ts:84-91 | removes the key when connected |
| TimedStore.RedisService.Increment | src/common/redis/redis.service.ts:93-104 | counts up and starts the window only when the count becomes 1; answers 1 on an error or without connection |
| TimedStore.RedisService.TimeToLive | src/common/redis/redis.service.ts:106-113 | seconds left, -1 without expiry or connection, -2 when missing |
| RateLimiter.KeyTextInjective | src/common/redis/brute-force.service.ts:27-28 | the key texts of counters and locks never fall together, whatever users and addresses are called |
| RateLimiter.WaitIff | src/common/redis/brute-force.service.ts:23-65 | an attempt waits if and only if the user is locked, or the address is and is not an exempt one of a login |
| RateLimiter.FailDoes | src/common/redis/brute-force.service.ts:70-109 | a failure counts for user and address in windows of 600 or 300 seconds and by the larger count locks both: 300 seconds from the fifth login, 1800 from the tenth, 300 from the third code, 900 from the fifth; nothing else changes |
| RateLimiter.SucceedDoes | src/common/redis/brute-force.service.ts:114-129 | a success removes exactly the two counters and two locks |
| RateLimiter.AttemptDoes | src/modules/auth/two-factor.service.ts:226-237 | a request is refused exactly while it has to wait, and otherwise only a wrong outcome counts and only a right one clears |
| RateLimiter.MemoryDoes | src/common/redis/brute-force.service.ts:86-107 | the locks kept in the process: their names, their lengths and whom they refuse |
| RateLimiter.RunKeepsInv | src/common/redis/brute-force.service.ts:23-129 | in every run a counter that reached the first threshold has a lock behind it that outlasts it, or for the fifth login failure ends at most 300 seconds before it |
| RateLimiter.CountersAreCapped | src/common/redis/brute-force.service.ts:70-109 | with whole requests no second-factor counter exceeds 3, and no login counter exceeds 6 but for exempt addresses |
| RateLimiter.LongTiersNeedExemptAddress | src/common/redis/brute-force.service.ts:83-107 | with whole requests the 15-minute tier is unreachable and the 30-minute tier needs an exempt address |
| LimiterOverlap.StepsAreAttempt | src/modules/auth/two-factor.service.ts:226-237 | a check followed at once by counting and by setting the locks, or by success, is one whole request |
| LimiterOverlap.CountersUnderOverlap | src/common/redis/brute-force.service.ts:23-109 | with check, count and locks apart: when at most k requests of a checked scope overlap, a second-factor counter stays within 2 + k and a login counter within 4 + 2k |
| LimiterOverlap.OverlapCapIsReached | src/common/redis/brute-force.service.ts:23-109 | these bounds are exact: for every k a run with at most k overlapping requests reaches them, so three are enough for the 15-minute tier |
| LimiterOverlap.LockHoldsIff | src/common/redis/brute-force.service.ts:83-129 | a lock holds through a run if and only if no request under way succeeds or sets a shorter lock that ends earlier |
| RateLimiter.LockHoldsOverRun | src/common/redis/brute-force.service.ts:23-65 | until a checked lock ends, no run shortens or lifts it, moves its counter, or lets an attempt through |
| RateLimiter.ExemptAddressCountsOn | src/common/redis/brute-force.service.ts:30 | from an exempt address the address counter grows with every user tried, so the tenth user is locked for 30 minutes on a first mistake |
| RateLimiter.BruteForceService.CheckLoginAllowed | src/common/redis/brute-force.service.ts:23-65 | allows exactly when neither a checked lock of the store nor one kept in the process is in force; without a connection the latter alone decide |
| RateLimiter.BruteForceService.RecordFailedAttempt | src/common/redis/brute-force.service.ts:70-109 | increments both counters and sets both locks, in the store and in the process, by the larger one; without a connection the failure counts as a first one |
| RateLimiter.BruteForceService.RecordLoginSuccess | src/common/redis/brute-force.service.ts:114-129 | removes the counters and locks of the user and the address, in the store when connected and in the process |
| RateLimiter.BruteForceService.Check2FAAllowed | src/common/redis/brute-force.service.ts:162-200 | as for logins, with every address checked |
| RateLimiter.BruteForceService.Record2FAFailedAttempt | src/common/redis/brute-force.service.ts:207-243 | as for logins, with 300 seconds of window and thresholds 3 and 5 |
| RateLimiter.BruteForceService.Record2FASuccess | src/common/redis/brute-force.service.ts:248-260 | as for logins |
| RateLimiter.BruteForceService.Guard | src/modules/auth/two-factor.service.ts:226-237 | check, verify, record: the order in which logins, second factors, step-ups and the vault use the limiter is one step of the run model; without a connection only locks set before refuse |
| SchoolCalendar.NormalizeIsStable | src/modules/calendar/school-calendar.service.ts:45-77 | a day written as its midnight or as a Jalali date is read back as the same day, and exactly the moments of a day in Tehran are read as it |
| SchoolCalendar.FridaysAre | src/common/utils/jalali.util.ts:151-170 | 2 January 1970 is a Friday, and exactly the days a whole number of weeks from it |
| SchoolCalendar.RuleIs | src/modules/calendar/school-calendar.service.ts:125-175 | the reason of a verdict: Friday, else an official holiday with its title, else one of the school with its title, else a working day |
| SchoolCalendar.AskDoes | src/modules/calendar/school-calendar.service.ts:107-178 | a live entry is the answer, else the rule, which is kept for 86400 seconds |
| SchoolCalendar.SchoolHolidayDoes | src/modules/calendar/school-calendar.service.ts:183-235 | what adding and removing a school holiday answers, writes and drops from the cache |
| SchoolCalendar.OfficialHolidayDoes | src/modules/calendar/school-calendar.service.ts:255-296 | what adding and removing an official holiday answers and writes; the cache is not touched |
| SchoolCalendar.AnswersFollowRule | src/modules/calendar/school-calendar.service.ts:107-178 | every answer in every run is the uncached priority rule with the school's holidays as they are now and the official table of a step less than 24 hours before |
| SchoolCalendar.AnswerIsExactIff | src/modules/calendar/school-calendar.service.ts:107-178 | in every run the answer is the uncached one if and only if no live entry stands for the day, or the official table of the step that worked it out says the same of the day as today's |
| SchoolCalendar.SettledAnswersAreExact | src/modules/calendar/school-calendar.service.ts:107-178 | so if nothing official changed for the day in 24 hours the answer is the uncached one, whatever schools add and remove |
| SchoolCalendar.NewOfficialHolidayIsNotSeen | src/modules/calendar/school-calendar.service.ts:255-277 | an official holiday announced after a question stays unseen for exactly 24 hours |
| SchoolCalendar.SchoolCalendarService.IsWorkingDay | src/modules/calendar/school-calendar.service.ts:107-178 | answers from the cache or by the rule and caches it, as the step of the run model; without a connection by the rule |
| SchoolCalendar.SchoolCalendarService.AddTenantHoliday | src/modules/calendar/school-calendar.service.ts:183-214 | refuses a second holiday of the school on the day, else adds it and, when connected, drops the cached answer of that day |
| SchoolCalendar.SchoolCalendarService.RemoveTenantHoliday | src/modules/calendar/school-calendar.service.ts:219-235 | removes the holiday found by id and, when connected, drops the cached answer of its day |
| SchoolCalendar.SchoolCalendarService.AddOfficialHoliday | src/modules/calendar/school-calendar.service.ts:255-277 | refuses a second official holiday on the day, else adds it; the cache is not touched |
| SchoolCalendar.SchoolCalendarService.RemoveOfficialHoliday | src/modules/calendar/school-calendar.service.ts:282-296 | removes the official holiday; the cache is not touched |
| FeatureFlags.SameScopeIff | src/modules/feature-flags/feature-flags.service.ts:18 | two askers use one scope if and only if they are the same or both stand for the global one |
| FeatureFlags.ScopesShareIff | src/modules/feature-flags/feature-flags.service.ts:18 | two different scopes share a cache entry for some flags if and only if one scope's name followed by a colon begins the other's |
| FeatureFlags.KeyInjective | src/modules/feature-flags/feature-flags.service.ts:18 | so cache keys of different questions differ for tenant ids without a colon other than "global" |
| FeatureFlags.RuleIs | src/modules/feature-flags/feature-flags.service.ts:25-53 | an undefined flag is off for everyone; a defined one is what the tenant's override says, else its default |
| FeatureFlags.AskDoes | src/modules/feature-flags/feature-flags.service.ts:17-57 | a live entry is the answer, else the rule, kept for 600 seconds, or 300 if the flag is undefined |
| FeatureFlags.ChangesDo | src/modules/feature-flags/feature-flags.service.ts:98-159 | what setting and registering a flag answer and write |
| FeatureFlags.StepKeepsInv | src/modules/feature-flags/feature-flags.service.ts:98-159 | flags keep ids of their own and overrides belong to existing flags |
| FeatureFlags.SetFlagIsSeen | src/modules/feature-flags/feature-flags.service.ts:98-131 | after a flag is set for a tenant every answer for it is that value until the next set, whatever is asked, registered or set for others |
| FeatureFlags.AnswersFollowRule | src/modules/feature-flags/feature-flags.service.ts:17-57 | every answer in every run is the uncached rule with the overrides of now and the definitions of a step less than 10 minutes before |
| FeatureFlags.FeatureFlagsService.IsFlagEnabled | src/modules/feature-flags/feature-flags.service.ts:17-57 | answers from the cache or by the rule, cached for 300 or 600 seconds, as the step of the run model; without a connection by the rule |
| FeatureFlags.FeatureFlagsService.SetFlag | src/modules/feature-flags/feature-flags.service.ts:98-131 | fails for an undefined flag, else upserts the override and, when connected, drops the cached answer |
| FeatureFlags.FeatureFlagsService.Register | src/modules/feature-flags/feature-flags.service.ts:136-159 | upserts the definition under an unchanged id and leaves the cache alone |
| CacheOverlap.FlagStepsAreWhole | src/modules/feature-flags/feature-flags.service.ts:17-159 | what each whole request of the flags does to one question is a look-up and fill, a change and drop, or a change alone |
| CacheOverlap.DayStepsAreWhole | src/modules/calendar/school-calendar.service.ts:107-296 | the same for one day of one school |
| CacheOverlap.AnswerIsCurrentIff | src/modules/feature-flags/feature-flags.service.ts:17-57 | for every interleaving of look-ups, fills, changes and drops an answer is the rule of now if and only if no live entry stands or the rule said the same when the request that filled it looked |
| CacheOverlap.SettledIffNeverStales | src/modules/feature-flags/feature-flags.service.ts:17-131 | answers stay current, but while a drop is due, if and only if no fill brings back a value that changed behind it and no change without a drop leaves a live entry with another value |
| CacheOverlap.OvertakenChangeIsNotSeen | src/modules/feature-flags/feature-flags.service.ts:17-131 | a change and its drop between a look-up and its fill stay unseen for the whole life of the entry |
| PasswordVault.RecoverFindsPassword | src/modules/auth/password-vault.service.ts:350-414 | recovery finds the password if it is among the guesses, and nothing else |
| PasswordVault.ChangeIff | src/modules/auth/auth.service.ts:619-647 | a password is changed if and only if the account is there and the old password is the one its hash was made from; else nothing changes; then the hash, and the ciphertext when there is one, are of the new password |
| PasswordVault.PasswordChangesOnlyWhenGiven | src/modules/auth/auth.service.ts:630-633 | over any run a password stays as it is unless a step gives the password of that moment |
| PasswordVault.EnsureVaultDoes | src/modules/auth/password-vault.service.ts:109-154 | a missing vault is made under the trimmed or generated key, told only to a caller who gave none; one that is there stays |
| PasswordVault.TrimTakesBlanksOff | src/modules/auth/password-vault.service.ts:132 | trimming takes blanks off both ends and nothing else |
| PasswordVault.VaultEventsDo | src/modules/auth/password-vault.service.ts:100-214 | setting up or making a vault writes that one school's columns and nothing else |
| PasswordVault.RevealDoes | src/modules/auth/password-vault.service.ts:243-345 | each answer to a request to reveal if and only if its condition; only a recovered ciphertext is written |
| PasswordVault.BackfillDoes | src/modules/auth/password-vault.service.ts:419-466 | the vault, and exactly the recoverable accounts up to the first that stops the backfill |
| PasswordVault.BackfillAnswers | src/modules/auth/password-vault.service.ts:430-465 | it tells the counts, each exact, if and only if no recovered password has more than 190 bytes |
| PasswordVault.StepKeepsInv | src/modules/auth/password-vault.service.ts:100-466 | every operation keeps vault columns all set or all empty, the hash of the key that locks the private half of the public key, ciphertexts under their school's key, and public keys for good |
| PasswordVault.HashAcceptsWhatOpens | src/modules/auth/password-vault.service.ts:171-211 | in a sound vault the hash accepts exactly the key that opens the private half, which pairs with the public key |
| PasswordVault.RotationNeedsCurrentKey | src/modules/auth/password-vault.service.ts:159-214 | the key changes exactly for the current key, for a platform administrator as for anyone; then only the new key opens the same pair, and otherwise nothing changes |
| PasswordVault.FirstKeyOpensIffTrimmed | src/modules/auth/password-vault.service.ts:133-151 | the key typed at first setup opens the vault if and only if it is not empty and has no blank at either end; a blank one is replaced by a key nobody is told |
| PasswordVault.EncryptForIsSound | src/modules/auth/password-vault.service.ts:219-238 | encryption succeeds exactly for an existing school and a non-empty password of at most 190 bytes, creating the vault when there is none |
| PasswordVault.RevealIffCurrent | src/modules/auth/password-vault.service.ts:243-345 | reveal answers with the current password if and only if the key is the current one and the ciphertext is of that password or can be made now |
| PasswordVault.RevealNeedsKeyAndSchool | src/modules/auth/password-vault.service.ts:259-287 | nothing is revealed across schools, under a limiter refusal, or without the current key |
| PasswordVault.ChangeKeepsVaultCurrentIff | src/modules/auth/auth.service.ts:635-647 | after a password change the vault holds the new password if and only if it can be encrypted or was held before |
| PasswordVault.OverlongPasswordRevealsOldOne | src/modules/auth/auth.service.ts:635-647 | a new password over 190 bytes leaves the old one to be revealed |
| PasswordVault.CurrentKeyRevealsLatestPassword | src/modules/auth/password-vault.service.ts:159-345 | after any run of rotations, password changes, reveals and backfills in which the user's new passwords can be encrypted, the current master key and no other reveals the latest password |
| PasswordVault.FillCounts | src/modules/auth/password-vault.service.ts:419-466 | a backfill counts every account once, encrypts exactly the recoverable ones and touches no other |
| PasswordVault.PasswordVaultService.EnsureTenantVault | src/modules/auth/password-vault.service.ts:100-154 | creates a vault under the trimmed or a generated key, or leaves it, as the step of the run model |
| PasswordVault.PasswordVaultService.SetupKeyOf | src/modules/auth/password-vault.service.ts:159-214 | first setup, rotation and each refusal, as the step of the run model |
| PasswordVault.PasswordVaultService.EncryptPasswordForTenant | src/modules/auth/password-vault.service.ts:219-238 | the ciphertext or nothing, and the vault it may create |
| PasswordVault.PasswordVaultService.ChangePasswordOf | src/modules/auth/auth.service.ts:619-647 | verifies the old password, always replaces the hash, and the ciphertext only when there is a new one |
| PasswordVault.PasswordVaultService.TryRecoverPlaintext | src/modules/auth/password-vault.service.ts:402-413 | the loop returns the first guess the hash accepts |
| PasswordVault.PasswordVaultService.RevealPasswordOf | src/modules/auth/password-vault.service.ts:243-345 | the checks in their order, recovery on the fly, and decryption |
| PasswordVault.PasswordVaultService.BackfillTenantPasswords | src/modules/auth/password-vault.service.ts:419-466 | recovered, already encrypted and unrecovered add up to all accounts; an overlong recovered password stops it half way |
| RecoveryCodes.VerifyDoes | src/modules/auth/two-factor.service.ts:134-180 | each outcome of an attempt if and only if its condition, and one code taken off the list exactly when a code let it in |
| RecoveryCodes.CodesAreConserved | src/modules/auth/two-factor.service.ts:164-177 | over any sequence of attempts the codes issued are the codes spent plus the codes left |
| RecoveryCodes.SpentOnceIffGone | src/modules/auth/two-factor.service.ts:164-177 | with distinct codes a code is refused if and only if it was spent |
| RecoveryCodes.StepsAreVerify | src/modules/auth/two-factor.service.ts:136-173 | a read followed at once by its write is one whole attempt |
| RecoveryCodes.WriteGivesBackIff | src/modules/auth/two-factor.service.ts:164-173 | with reading and writing apart, a write puts back a code that had left the list if and only if some code on the list it read, other than its own, has left since |
| RecoveryCodes.OverlapConservesIff | src/modules/auth/two-factor.service.ts:136-173 | over every interleaving the codes issued are those spent and those left if and only if every write finds the list its request read |
| RecoveryCodes.OverlapRestoresCode | src/modules/auth/two-factor.service.ts:136-173 | two requests, one inside the other, by any two codes of any list leave the first code to be used again |
| RecoveryCodes.TwoFactorService.Verify2FAToken | src/modules/auth/two-factor.service.ts:134-180 | a valid time-based code leaves the list, a listed code is removed once, anything else is denied |
| TenantScope.RewriteConfines | src/prisma/prisma-tenant.extension.ts:112-179 | whatever the caller wrote, rewritten conditions name the tenant and rewritten new rows belong to it |
| TenantScope.RewriteKeeps | src/prisma/prisma-tenant.extension.ts:89-180 | rewriting leaves the caller's other conditions and all fields alone, and every call of a platform administrator, without a tenant or on an unbound model but for the hiding of deleted rows |
| TenantScope.ReadSeesOwnRows | src/prisma/prisma-tenant.extension.ts:92-137 | a rewritten read finds exactly the tenant's rows that satisfy the caller's other conditions, without deleted ones unless asked for |
| TenantScope.CallLeavesOthers | src/prisma/prisma-tenant.extension.ts:112-179 | one call changes no row of another tenant |
| TenantScope.CallSeesOwn | src/prisma/prisma-tenant.extension.ts:112-179 | its answer and effect depend on the tenant's own rows alone |
| TenantScope.OtherTenantsDoNotInterfere | src/prisma/prisma-tenant.extension.ts:112-179 | in any interleaving of tenants' calls each tenant gets the answers and rows it would get if only its own calls had been made |
| TenantScope.RunLeavesOthers | src/prisma/prisma-tenant.extension.ts:112-179 | a run of one tenant's calls changes no row of any other |
| TenantScope.UpdateMovesRowsIff | src/prisma/prisma-tenant.extension.ts:158-170 | an update, updateMany or upsert whose data sets the tenant column leaves other tenants' rows as they are if and only if it names its own tenant or finds no row |
| TenantScope.FindUniqueIsNotConfined | src/prisma/prisma-tenant.extension.ts:127-137 | a look-up by unique key is not rewritten and shows a row whoever owns it |
| TenantScope.FindUniqueSeesOwnIff | src/prisma/prisma-tenant.extension.ts:127-137 | such a look-up depends on the tenant's own rows alone if and only if its condition admits no row of another tenant |
| TenantScope.LookupByIdSeesOwnIff | src/prisma/prisma-tenant.extension.ts:127-137 | so by id if and only if the caller adds the tenant and no other |
| TenantScope.QueryArgs.Extend | src/prisma/prisma-tenant.extension.ts:89-180 | rewriting the argument object in place, branch by branch, is the function the laws speak about |

## Left out

Assumptions shared by several modules:

- Cryptography and libraries: SHA-256, argon2, AES-GCM, RSA, JWT, TOTP and jalaali-js are symbolic or parameters; hashes are injective, and fresh tokens and ids were never issued before.
- Concurrency: requests are atomic except in RefreshTokens.dfy, TokenBranches.dfy, RecoveryCodes.dfy and the files named Overlap; first entries and gradings of one sheet, changes of schedule rows, attendance and vault requests that overlap are not modelled. Reads that follow one another are one step.
- Failures: database errors and a connection that is lost within a call are not modelled, nor are runs in which Redis comes and goes; the services are stated with and without a connection.
- Numbers: scores are reals, not floats; clocks are integers that do not go back.

Tokens:

- TokenRequests.TokenService.RevokeAllOtherSessions: token families only; the UserSession rows that the same call updates are never read by a refresh and are left out, as is `revokeSession`.
- Expiry: computed when the rotation commits, and counted as seven times 24 hours rather than by calendar days.
- Access tokens, user agents and the switch between a user's schools, which issues a pair as a login does.

Audit log:

- Rows whose user is deleted lose their user id (`onDelete: SetNull`), which changes them after they were hashed.
- AuditChain.VerifyAuditLogIntegrity: an empty log is accepted without looking at the anchor, as in the code, so a log wiped whole is not caught.
- AuditChain.AnchorIsEvidenceIff: timestamps, digests, the pepper and JSON numbers are single symbols of the hashed text, so a field that spells one out between separators is not modelled; the rows found that refute it need not name the tenant whose rows the verifier queries unless the separator is behind the tenant.
- AuditLog.ReadBackAsHashedIff: numbers come back as they were written; NUL characters and lone surrogates, which the column refuses, are not modelled.
- AuditOverlap.LogVerifiesIffSerial: the anchor under overlap is left out; row ids are fresh and hold no separator, as UUIDs are.

Exams:

- One exam at a time; questions are added and deleted, there being no edit of a question in use; the two calls of a deletion, options first, are one step; repeated question ids in one submission are outside the run model but not outside ExamGrading.
- Publishing, result lists and feedback texts.

Timetable and attendance:

- One school; ids are not empty strings. Deleting a teacher (`src/modules/members/members.service.ts:1261-1266`) clears second teachers outside the modelled operations.
- DailySchedule.GetTeacherDailySchedule: the listed slots and their order; attendance statistics, start and end times, and lesson and teacher names are left out.
- WeekParity.ClientAgreesWithServer: a date is three numbers; time zones, weekday names and other text formats are left out. The calendar is any assignment of first days with years of 365 or 366 days.
- CarryForward.AttendanceService.RecordStudentAttendanceBulk: marks hold status and delay only; grades, notes, reasons, notifications and the choice of academic year are left out.
- CarryForward.AttendanceService.GetClassroomAttendance: status and delay only; the reason, grade and note columns and the look-up of the classroom are left out.

Timed store and its services:

- RateLimiter.RunKeepsInv: whole seconds, with Redis connected. The payment limiter is left out.
- LimiterOverlap.CountersUnderOverlap: the two increments of a failure and the start of their windows are one step, the two locks another, and the removals after a success a third; a window whose start is held up between two increments is not modelled.
- CacheOverlap.AnswerIsCurrentIff: of the tables only what the rule says for the question is kept.
- SchoolCalendar.NormalizeIsStable: a fixed offset of 3:30 for Tehran; inputs are moments or Jalali days, and the reading of date texts is left out: a written Gregorian day whose year lies between 1200 and 1700 would be read as Jalali.
- FeatureFlags.SetFlagIsSeen: overrides written by `src/modules/saas-admin/services/saas-subscription.service.ts:125` bypass the service; they are changes that drop nothing in CacheOverlap.dfy and no steps here. Override configuration and flag texts are left out.

Vault and codes:

- PasswordVault.PasswordVaultService.RevealPasswordOf: the limiter appears as the answer of its check; what it records of right and wrong keys is the `Guard` method of the limiter, and the audit row of a reveal is left out.
- Candidate credentials are a list on the account; how they are derived from names and codes is left out, as are the status report and passwords set by administrators, which end as a password change does.
- RecoveryCodes.CodesAreConserved: enabling, disabling and the generation of codes are left out.

Tenant extension:

- TenantScope.OtherTenantsDoNotInterfere: conditions look at one row, so relation filters and nested writes are left out, as are unique constraints across tenants, raw queries, `createManyAndReturn` and platform administrators, none of which the extension confines.

Not modelled at all: controllers, guards, validation, the user interface apart from the week arithmetic, finance, messaging, storage, clubs, coaching, calendar events, seeds and scripts.

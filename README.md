# Farm management app: contexts and page logic

This project models the client-side core of a farm-management web application in Dafny. The application's browser code keeps everything in its own lists, persisted to browser storage:
- a course catalog with an occupancy counter per course;
- students' pre-enrollment requests, which administrators approve, reject, unenroll or delete;
- a notification feed;
- visitors' farm-visit bookings;
- virtual-tour spots;
- a mock user database, keyed by email, used for sign-up and sign-in;
- a user list for administrators.

The pages on top of these lists filter and sort them, offer actions according to a record's status, and validate forms before anything is stored.

Each state holder becomes a Dafny `class` with a `seq` field (`CourseContext.CourseCatalog`, `PreEnrollmentContext.PreEnrollmentLedger`, `NotificationContext.NotificationFeed`, `BookingContext.BookingLedger`, `VirtualEventContext.SpotList`, `UserContext.UserList`, `AuthContext.Auth`, `UserDb.UserStore`). Every method is proved against a pure function of the old state. The properties the code promises are lemmas about those functions:
- the clamped counter;
- one request per student and course;
- which actions move which status;
- round trips through the stored database.

Page handlers are classes holding their dialog and selection state and calling the context methods. Decision logic is made of pure functions: button gating, status chips, filters, the newest-first sort and paging, and form validators. Where the source builds a result step by step (`validateForm` of the booking and enrollment pages, `validateDocuments`, `persistUsers`), the model is a method with a loop or a sequence of checks, proved equal to a function.

Ids, timestamps (`Date.now()`, ISO dates) and the date formatter are parameters. Instants are integers in milliseconds. The JavaScript `Map` of the user database is an ordered list of entries with unique keys (`UserDb`).

The modules are:
- `Common`: options, filters, string helpers, the email pattern `\S+@\S+\.\S+`.
- `UserDb`
- `CourseContext`
- `PreEnrollmentContext`
- `NotificationContext`
- `BookingContext`
- `VirtualEventContext`
- `UserContext`
- `AuthContext`
- `ClearData`
- `Formatters`
- `CourseEnrollmentPage`
- `PreEnrollmentManagementPage`
- `BookingManagementPage`
- `CourseManagementPage`
- `OfferedCoursesPage`
- `UserManagementPage`
- `BookingSystemPage`
- `RegisterPage`

Where the code and its own design (comments, dialog texts) disagree, the model follows the code. Such cases are listed under "## Findings", each with an as-written member and a corrected one.

## Model

| member | source | states |
|---|---|---|
| CourseContext.CourseCatalog.constructor | frontend/src/contexts/CourseContext.tsx:213 | the catalog starts as the loaded list |
| CourseContext.CourseCatalog.AddCourse | frontend/src/contexts/CourseContext.tsx:220-229 | the list becomes the old list followed by the new course built from the data, the id and the time |
| CourseContext.AddCourseAppends | frontend/src/contexts/CourseContext.tsx:220-229 | exactly one course is appended, with counter 0, the given id, creation and update time equal to `now` and the data's fields; the prefix is the old list unchanged |
| CourseContext.CourseCatalog.UpdateCourse | frontend/src/contexts/CourseContext.tsx:231-251 | the list becomes `Updated`: same length, the patch merged into each course with the id, the others kept |
| CourseContext.Updated | frontend/src/contexts/CourseContext.tsx:233-249 | same length; a course with the id is merged with the patch, every other course is left as it was |
| CourseContext.UpdateCourseProtectsIdentity | frontend/src/contexts/CourseContext.tsx:231-251 | whatever the patch, id, counter and creation time are kept; the update time becomes `now`; other courses are unchanged |
| CourseContext.UpdateCourseCanBreakBound | frontend/src/contexts/CourseContext.tsx:240-243 | lowering the limit below the counter leaves a course outside `0 <= counter <= limit`; the update does not re-establish the bound |
| CourseContext.CourseCatalog.DeleteCourse | frontend/src/contexts/CourseContext.tsx:253-255 | the list becomes `Deleted(old, id)` |
| CourseContext.Deleted | frontend/src/contexts/CourseContext.tsx:254 | no remaining course has the id; every course without the id remains |
| CourseContext.DeleteCourseKeepsOthers | frontend/src/contexts/CourseContext.tsx:253-255 | the deletion keeps the other courses in order (it distributes over concatenation), and afterwards the id is not found |
| CourseContext.FindIndex | frontend/src/contexts/CourseContext.tsx:263 | `None` exactly when no course has the id; otherwise the first index holding it |
| CourseContext.FindById | frontend/src/contexts/CourseContext.tsx:257-259 | `None` exactly when no course has the id; otherwise the first course carrying it |
| CourseContext.CourseCatalog.ToggleCourseStatus | frontend/src/contexts/CourseContext.tsx:261-277 | the list becomes `Toggled`: an unknown id returns the list as it was, else the first match's status flips and its time is stamped |
| CourseContext.ToggledFlipsFirst | frontend/src/contexts/CourseContext.tsx:261-277 | same length and ids; a status changes exactly at the first index with the id; an unknown id leaves the list unchanged |
| CourseContext.ToggleTwiceRestores | frontend/src/contexts/CourseContext.tsx:269-273 | two toggles give back every course except for its update time |
| CourseContext.CourseCatalog.UpdateEnrollmentCount | frontend/src/contexts/CourseContext.tsx:279-305 | the list becomes `Adjusted`: only courses with the id are recomputed |
| CourseContext.Adjusted | frontend/src/contexts/CourseContext.tsx:281-303 | same length; a course with the id goes through the clamped counter step, every other course is the same object |
| CourseContext.NextCountClamps | frontend/src/contexts/CourseContext.tsx:287-290 | increment gives `min(cur+1, limit)`, decrement gives `max(cur-1, 0)`, and a counter in range stays in range |
| CourseContext.AdjustedPreservesRange | frontend/src/contexts/CourseContext.tsx:279-305 | if every course was in range, every course still is; only the counter and the update time of the named course can change; when the clamped value equals the current one the course is returned untouched |
| CourseContext.IncrementOverCapacityLowers | frontend/src/contexts/CourseContext.tsx:288-289 | on a course already over its limit, an "increment" pulls the counter down to the limit |
| PreEnrollmentContext.FindPair | frontend/src/contexts/PreEnrollmentContext.tsx:72-75 | `None` exactly when no request matches the (student, course) pair; otherwise the first matching index |
| PreEnrollmentContext.FindRequest | frontend/src/contexts/PreEnrollmentContext.tsx:253 | `None` exactly when no request has the id; otherwise the first index holding it |
| PreEnrollmentContext.Resubmitted | frontend/src/contexts/PreEnrollmentContext.tsx:84-92 | same length and keys; each request with the id is set back to pending with the new update time, the rest are kept |
| PreEnrollmentContext.PreEnrollmentLedger.constructor | frontend/src/contexts/PreEnrollmentContext.tsx:58-64 | the ledger starts with the loaded requests, wired to the catalog and feed |
| PreEnrollmentContext.PreEnrollmentLedger.SubmitPreEnrollment | frontend/src/contexts/PreEnrollmentContext.tsx:70-144 | the requests become `Submitted(old, f, id, now)` and the feed receives `SubmitNotice` when there is one |
| PreEnrollmentContext.SubmitNewAppends | frontend/src/contexts/PreEnrollmentContext.tsx:117-143 | a first submission for a pair appends exactly one pending request for that pair, with creation time equal to update time and no feedback; the administrator gets "New Enrollment Request" |
| PreEnrollmentContext.SubmitRejectedResets | frontend/src/contexts/PreEnrollmentContext.tsx:81-100 | with a rejected request for the pair, that same request goes back to pending with a new update time and nothing is added; the notice is "Enrollment Request Resubmitted" |
| PreEnrollmentContext.SubmitExistingIsNoOp | frontend/src/contexts/PreEnrollmentContext.tsx:81-103 | with a pending, approved or enrolled request for the pair, the requests are unchanged and no notice is posted |
| PreEnrollmentContext.SubmitChangesIff | frontend/src/contexts/PreEnrollmentContext.tsx:81-143 | on well-formed requests, a submission changes the requests exactly when the pair has no request yet or its request was rejected |
| PreEnrollmentContext.SubmitIdempotent | frontend/src/contexts/PreEnrollmentContext.tsx:70-144 | submitting the same form twice in a row gives the same requests as once |
| PreEnrollmentContext.SubmitKeepsValid | frontend/src/contexts/PreEnrollmentContext.tsx:72-135 | with a fresh id, submission keeps unique ids and at most one request per pair |
| PreEnrollmentContext.SameKeysValid | frontend/src/contexts/PreEnrollmentContext.tsx:84-92 | a rewrite that keeps every id and pair keeps the invariant |
| PreEnrollmentContext.MostRecent | frontend/src/contexts/PreEnrollmentContext.tsx:156-159 | the result has the greatest update time, and it is the earliest such element (what a stable descending sort puts first) |
| PreEnrollmentContext.PairRequests | frontend/src/contexts/PreEnrollmentContext.tsx:148-150 | exactly the requests of the pair |
| PreEnrollmentContext.StudentEnrollmentStatus | frontend/src/contexts/PreEnrollmentContext.tsx:146-162 | `None` exactly when no request matches the pair; otherwise the status of a matching request whose update time is the greatest among the matches |
| PreEnrollmentContext.StatusOfUniquePair | frontend/src/contexts/PreEnrollmentContext.tsx:146-162 | under one-request-per-pair, the query returns that request's own status |
| PreEnrollmentContext.StatusUpdated | frontend/src/contexts/PreEnrollmentContext.tsx:167-235 | same length; each request with the id gets the status, the feedback (cleared when omitted) and the time; others are kept |
| PreEnrollmentContext.PreEnrollmentLedger.UpdateEnrollmentStatus | frontend/src/contexts/PreEnrollmentContext.tsx:164-250 | requests become `StatusUpdated`; the feed gets one student notice per rewritten request in list order; the catalog becomes `CountedAfterUpdate` (counter coupling) |
| PreEnrollmentContext.PreEnrollmentLedger.RewriteAndNotify | frontend/src/contexts/PreEnrollmentContext.tsx:167-235 | the walk of the `map` callback returns `StatusUpdated` and posts the notices `NoticesPosted` describes |
| PreEnrollmentContext.StepOfUpdate | frontend/src/contexts/PreEnrollmentContext.tsx:167-235 | one more request of the walk appends its rewritten form and, for the id, posts its notice |
| PreEnrollmentContext.PreEnrollmentLedger.StatusEmailSettled | frontend/src/contexts/PreEnrollmentContext.tsx:195-217 | a settled status email posts "Email Sent" on delivery and an "Email Error" entry (which the feed suppresses) on failure; a throw posts nothing |
| PreEnrollmentContext.StatusUpdateKeepsValid | frontend/src/contexts/PreEnrollmentContext.tsx:167-235 | a status update keeps unique ids and one request per pair |
| PreEnrollmentContext.StatusUpdateTouchesOne | frontend/src/contexts/PreEnrollmentContext.tsx:164-235 | with unique ids, exactly the request with the id is rewritten (any status to any status; no guard) and exactly its student is notified once |
| PreEnrollmentContext.NoticesOnlyFor | frontend/src/contexts/PreEnrollmentContext.tsx:219-225 | over any prefix, the only notice is the one for the request with the id, once that request is passed |
| PreEnrollmentContext.UnknownIdChangesNothing | frontend/src/contexts/PreEnrollmentContext.tsx:166-246 | an unknown id changes no request, posts no notice and moves no counter |
| PreEnrollmentContext.NoticesNoneFor | frontend/src/contexts/PreEnrollmentContext.tsx:168-233 | without a request carrying the id, the walk posts nothing |
| PreEnrollmentContext.CounterCrossesApproved | frontend/src/contexts/PreEnrollmentContext.tsx:237-246 | the counter is incremented exactly on a move into approved, decremented exactly on a move out of approved, untouched otherwise |
| PreEnrollmentContext.ApprovalAtCapacityIsAbsorbed | frontend/src/contexts/PreEnrollmentContext.tsx:239-241 | approving for a full course leaves the counter at the limit: the clamp absorbs the over-capacity approval instead of refusing it |
| PreEnrollmentContext.WithoutRequest | frontend/src/contexts/PreEnrollmentContext.tsx:258 | no remaining request has the id; every request without it remains |
| PreEnrollmentContext.PreEnrollmentLedger.DeleteEnrollment | frontend/src/contexts/PreEnrollmentContext.tsx:252-259 | requests lose the id; the catalog becomes `CountedAfterDelete` |
| PreEnrollmentContext.DeleteDecrementsIffApproved | frontend/src/contexts/PreEnrollmentContext.tsx:252-259 | deletion decrements the course counter once exactly when the removed request was approved |
| PreEnrollmentContext.FilterKeepsValid | frontend/src/contexts/PreEnrollmentContext.tsx:258 | removing requests keeps the invariant |
| PreEnrollmentContext.DeleteKeepsValid | frontend/src/contexts/PreEnrollmentContext.tsx:252-259 | deletion keeps the invariant and leaves no request with the id |
| PreEnrollmentContext.PreEnrollmentLedger.UnenrollStudent | frontend/src/contexts/PreEnrollmentContext.tsx:261-268 | as written: on an approved request, the status update to rejected plus one more decrement of the course counter; otherwise nothing |
| PreEnrollmentContext.UnenrollDecrementsTwice | frontend/src/contexts/PreEnrollmentContext.tsx:242-266 | a course at 2 of 30 drops to 0 when one of two approved students is unenrolled |
| PreEnrollmentContext.PreEnrollmentLedger.UnenrollStudentOnce | frontend/src/contexts/PreEnrollmentContext.tsx:261-268 | corrected: on an approved request only the status update runs, so the counter is decremented once |
| PreEnrollmentContext.UnenrollOnceWithdrawsOne | frontend/src/contexts/PreEnrollmentContext.tsx:242-245 | one decrement takes exactly one place (floored at 0) from the course and changes no other counter |
| NotificationContext.NotificationFeed.constructor | frontend/src/contexts/NotificationContext.tsx:16-20 | the feed starts with the loaded list |
| NotificationContext.NotificationFeed.AddNotification | frontend/src/contexts/NotificationContext.tsx:27-42 | the list becomes `Posted(old, d, id, now)` |
| NotificationContext.PostedPrepends | frontend/src/contexts/NotificationContext.tsx:27-42 | the post is dropped exactly when it is an error titled "Email Error" or mentioning "Failed to send email"; otherwise one unread entry with the given fields is put first and the old list follows |
| NotificationContext.EmailErrorNeverPosted | frontend/src/contexts/NotificationContext.tsx:29-33 | an error entry titled "Email Error" never appears, whatever its message |
| NotificationContext.EmailOutcomeVisibility | frontend/src/contexts/NotificationContext.tsx:29-33 | of the ways an email send settles, only a delivery leaves an entry in the feed |
| NotificationContext.PhraseAloneSuppresses | frontend/src/contexts/NotificationContext.tsx:31 | an error whose message contains the phrase anywhere (any text before and after it) is dropped, whatever its title |
| NotificationContext.PostAddsOneUnread | frontend/src/contexts/NotificationContext.tsx:27-42 | a post that is not suppressed adds exactly one unread entry and puts it first in its recipient's list |
| NotificationContext.UnreadCountCons | frontend/src/contexts/NotificationContext.tsx:66-68 | the unread count of a list with one more entry grows by one exactly when that entry is unread |
| NotificationContext.MarkedRead | frontend/src/contexts/NotificationContext.tsx:45-51 | same length; an entry is read afterwards exactly when it was read or has the id; nothing else changes |
| NotificationContext.NotificationFeed.MarkAsRead | frontend/src/contexts/NotificationContext.tsx:44-52 | the list becomes `MarkedRead(old, id)` |
| NotificationContext.MarkAsReadCount | frontend/src/contexts/NotificationContext.tsx:44-52 | marking never raises the unread count, and every entry with the id is read afterwards |
| NotificationContext.AllRead | frontend/src/contexts/NotificationContext.tsx:55-57 | same length; every entry is read and otherwise unchanged |
| NotificationContext.NotificationFeed.MarkAllAsRead | frontend/src/contexts/NotificationContext.tsx:54-58 | the list becomes `AllRead(old)` |
| NotificationContext.MarkAllAsReadClears | frontend/src/contexts/NotificationContext.tsx:54-68 | afterwards the unread count is 0, and marking all again changes nothing |
| NotificationContext.NoUnreadCountsZero | frontend/src/contexts/NotificationContext.tsx:66-68 | a list of read entries counts 0 unread |
| NotificationContext.WithoutErrors | frontend/src/contexts/NotificationContext.tsx:61-63 | exactly the non-error entries remain |
| NotificationContext.NotificationFeed.ClearFailedNotifications | frontend/src/contexts/NotificationContext.tsx:60-64 | the list becomes `WithoutErrors(old)` |
| NotificationContext.ClearFailedProperties | frontend/src/contexts/NotificationContext.tsx:60-64 | the clearing keeps order (it distributes over concatenation) and is idempotent |
| NotificationContext.ClearFailedNoErrors | frontend/src/contexts/NotificationContext.tsx:60-64 | a feed without errors is left as it is |
| NotificationContext.ForUser | frontend/src/contexts/NotificationContext.tsx:70-72 | exactly the entries of the user |
| BookingContext.BookingLedger.constructor | frontend/src/contexts/BookingContext.tsx:44-49 | the ledger starts with the loaded bookings, wired to the feed |
| BookingContext.BookingLedger.AddBooking | frontend/src/contexts/BookingContext.tsx:55-71 | the new booking is appended and the administrator's "New Booking Request" notice is posted |
| BookingContext.AddBookingAppends | frontend/src/contexts/BookingContext.tsx:55-62 | exactly one booking is appended, pending, stamped `now`, with the given id and data; the others stay as they were |
| BookingContext.Answer | frontend/src/contexts/BookingContext.tsx:79-145 | same length; a booking with the id gets the status and feedback (creation time and everything else kept); others are kept |
| BookingContext.BookingLedger.UpdateBookingStatus | frontend/src/contexts/BookingContext.tsx:73-147 | bookings become `Answer`; the feed gets the notices `AnswerNotices` describes, in list order |
| BookingContext.BookingLedger.AnswerAndNotify | frontend/src/contexts/BookingContext.tsx:78-145 | the `map` walk returns `Answer` of the bookings and posts, in list order, one notice per booking with the id that the update changes |
| BookingContext.BookingLedger.AnswerOne | frontend/src/contexts/BookingContext.tsx:80-95 | the visitor of one booking is notified exactly when the booking has the id and its status or feedback changes |
| BookingContext.StepOfAnswer | frontend/src/contexts/BookingContext.tsx:79-145 | one more booking of the walk appends its answered form and posts its notice if it changes |
| BookingContext.AnswerTouchesOne | frontend/src/contexts/BookingContext.tsx:78-146 | with unique ids, only the booking with the id is rewritten (any status from any status); its visitor is notified exactly when status or feedback changes |
| BookingContext.NoticesOnlyFor | frontend/src/contexts/BookingContext.tsx:80-96 | over any prefix, the only notice is the one for the booking with the id |
| BookingContext.RepeatedAnswerIsSilent | frontend/src/contexts/BookingContext.tsx:81-85 | answering again with the same status and feedback posts nothing |
| BookingContext.SilentWhenUnchanged | frontend/src/contexts/BookingContext.tsx:81-85 | when no booking with the id would change, the walk posts nothing |
| BookingContext.ClearedFeedbackReadsUndefined | frontend/src/contexts/BookingContext.tsx:82-91 | removing the feedback without a status change counts as a change and is announced as "undefined" |
| BookingContext.BookingLedger.BookingEmailSettled | frontend/src/contexts/BookingContext.tsx:111-139 | a settled email posts "Email Sent" on delivery, a suppressed "Email Error" on failure, nothing on a throw |
| BookingContext.VisitorBookings | frontend/src/contexts/BookingContext.tsx:149-151 | exactly the bookings with the email |
| BookingContext.VisitorBookingsInOrder | frontend/src/contexts/BookingContext.tsx:149-151 | the bookings keep their order (the query distributes over concatenation) |
| BookingContext.WithoutBooking | frontend/src/contexts/BookingContext.tsx:156 | no remaining booking has the id; every other booking remains |
| BookingContext.BookingLedger.DeleteBooking | frontend/src/contexts/BookingContext.tsx:155-165 | bookings lose the id and the "Booking Deleted" notice is always posted |
| BookingContext.DeleteUnknownStillNotifies | frontend/src/contexts/BookingContext.tsx:155-165 | deleting an unknown id leaves the bookings as they were but still adds a notice |
| VirtualEventContext.SpotList.constructor | frontend/src/contexts/VirtualEventContext.tsx:66-71 | the list is the stored one, or the built-in spots when nothing is stored |
| VirtualEventContext.InitialSpotsShape | frontend/src/contexts/VirtualEventContext.tsx:66-71 | the built-in list has six spots with the distinct ids "1" to "6" |
| VirtualEventContext.SpotList.AddSpot | frontend/src/contexts/VirtualEventContext.tsx:77-80 | the new spot is appended |
| VirtualEventContext.AddSpotAppends | frontend/src/contexts/VirtualEventContext.tsx:77-80 | the length grows by one and the old spots stay in place |
| VirtualEventContext.Edited | frontend/src/contexts/VirtualEventContext.tsx:83 | same length; spots with the id are merged with the patch, others kept |
| VirtualEventContext.SpotList.EditSpot | frontend/src/contexts/VirtualEventContext.tsx:82-84 | the list becomes `Edited(old, id, patch)` |
| VirtualEventContext.EditNeutral | frontend/src/contexts/VirtualEventContext.tsx:82-84 | an empty patch, or an unknown id, changes nothing |
| VirtualEventContext.EditCanRename | frontend/src/contexts/VirtualEventContext.tsx:83 | the patch may overwrite the id, after which the old id no longer matches |
| VirtualEventContext.WithoutSpot | frontend/src/contexts/VirtualEventContext.tsx:87 | no remaining spot has the id; every other spot remains |
| VirtualEventContext.SpotList.DeleteSpot | frontend/src/contexts/VirtualEventContext.tsx:86-88 | the list becomes `WithoutSpot(old, id)` |
| VirtualEventContext.DeleteSpotKeepsOrder | frontend/src/contexts/VirtualEventContext.tsx:86-88 | deletion keeps order (distributes over concatenation) and is idempotent |
| Common.Filter | frontend/src/contexts/CourseContext.tsx:254 | `Array.prototype.filter`: never longer than its input; keeps only elements satisfying the predicate, and keeps every one that does |
| Common.FilterConcat | frontend/src/contexts/NotificationContext.tsx:61-63 | filtering distributes over concatenation, so kept elements stay in their original order |
| Common.FilterIdempotent | frontend/src/contexts/NotificationContext.tsx:61-63 | filtering twice by the same predicate is filtering once |
| Common.FilterAll | frontend/src/contexts/NotificationContext.tsx:61-63 | a filter that keeps every element returns its input |
| Common.Map | frontend/src/contexts/CourseContext.tsx:233-249 | `Array.prototype.map`: same length, element `i` is the callback applied to element `i` |
| Common.ContainsIffOccurs | frontend/src/pages/admin/UserManagement.tsx:73-74 | `includes` holds exactly when the text occurs at some position |
| Common.EmptyIsContained | frontend/src/pages/admin/UserManagement.tsx:71-78 | every text includes the empty search term |
| Common.ToLower | frontend/src/pages/admin/UserManagement.tsx:73-74 | `toLowerCase` on the ASCII and Latin-1 letters with a one-character partner: same length, each of those letters lowered, every other character kept |
| Common.ToLowerIdempotent | frontend/src/pages/admin/CourseManagement.tsx:97-98 | lowering twice is lowering once |
| Common.ToUpper | frontend/src/pages/admin/BookingManagement.tsx:186-190 | `toUpperCase` on the ASCII and Latin-1 letters with a one-character partner: same length, each of those letters raised, every other character kept |
| Common.UpperAgree | frontend/src/pages/admin/BookingManagement.tsx:186-190 | texts equal up to case have the same upper-case form |
| Common.UpperAgreeCapital | frontend/src/pages/admin/BookingManagement.tsx:186-190 | a lower-case word and the same word capitalised have the same upper-case form |
| Common.Split | frontend/src/pages/student/CourseEnrollment.tsx:263 | `split` on one character: at least one piece, and no piece holds the separator |
| Common.IndexOf | frontend/src/contexts/UserContext.tsx:105 | the first position of the character: it holds the character and nothing before it does |
| Common.SplitJoin | frontend/src/pages/student/CourseEnrollment.tsx:263 | joining the pieces of a split with the separator gives back the text |
| Common.SplitAtFirst | frontend/src/pages/student/CourseEnrollment.tsx:263 | a separator-free piece splits off at the first separator |
| Common.JoinSplit | frontend/src/pages/student/CourseEnrollment.tsx:263 | splitting a join of separator-free pieces gives the pieces back |
| Common.EmailMatchFromIff | frontend/src/pages/visitor/BookingSystem.tsx:74 | the left-to-right scan for `\S+@\S+\.\S+` succeeds exactly when the pattern matches with its '@' at some position from the start |
| Common.PatternHasAt | frontend/src/pages/student/CourseEnrollment.tsx:292 | any email the pattern accepts contains an '@' |
| UserDb.IndexOfKey | frontend/src/contexts/AuthContext.tsx:153 | `None` exactly when the key is absent; otherwise the first entry with the key |
| UserDb.Get | frontend/src/contexts/AuthContext.tsx:106 | `Map.get`: `None` exactly when the key is absent, otherwise the record of an entry with the key |
| UserDb.Set | frontend/src/contexts/AuthContext.tsx:158-164 | `Map.set`: a present key keeps the length (replaced in place), an absent key is appended at the end |
| UserDb.SetGet | frontend/src/contexts/AuthContext.tsx:153-164 | `set` keeps keys unique, `get` then returns the new record, every other key reads as before, and the key set grows by exactly the key |
| UserDb.SetReads | frontend/src/contexts/AuthContext.tsx:153-164 | after `set`, keys stay unique, the key reads as the new record and every other key as before |
| UserDb.SetKeys | frontend/src/contexts/AuthContext.tsx:153-164 | after `set`, a key is present exactly when it was present before or is the key set |
| UserDb.GetAt | frontend/src/contexts/UserContext.tsx:87-94 | with unique keys, `get` of an entry's key returns that entry's record |
| UserDb.UserStore.constructor | frontend/src/contexts/AuthContext.tsx:28-51 | the store holds the saved entries, or nothing |
| AuthContext.Auth.constructor | frontend/src/contexts/AuthContext.tsx:28-65 | the in-memory database is the stored one (empty when none); signed in exactly when a session was saved |
| AuthContext.Auth.Register | frontend/src/contexts/AuthContext.tsx:133-178 | the outcome is `RegisterOutcome`; the database becomes `RegisteredDb`; storage is written only on success; the session is untouched |
| AuthContext.RegisterRules | frontend/src/contexts/AuthContext.tsx:143-164 | registration succeeds exactly for a non-reserved email, a non-admin role and an email not yet present; each refusal has its message in guard order; a refusal leaves the database as it was |
| AuthContext.RegisterAddsOne | frontend/src/contexts/AuthContext.tsx:158-167 | a success appends exactly one entry under the email, keeps keys unique, and no other email's record changes |
| AuthContext.RegisterTwiceRefused | frontend/src/contexts/AuthContext.tsx:153-155 | a second registration with the same email is refused, with "Email is already registered" when the role is not admin |
| AuthContext.Auth.Login | frontend/src/contexts/AuthContext.tsx:83-131 | success opens the session `LoginSession` gives; every failure rejects with "Login failed" and keeps the session; the database is unchanged |
| AuthContext.AdminLogin | frontend/src/contexts/AuthContext.tsx:86-99 | the administrator signs in exactly with the hard-coded password, whatever the database holds, and gets the fixed admin session |
| AuthContext.UserLogin | frontend/src/contexts/AuthContext.tsx:106-130 | any other email signs in exactly when a record exists and its password matches; the session carries the record's name and role |
| AuthContext.RegisterThenLogin | frontend/src/contexts/AuthContext.tsx:106-178 | whoever registers can sign in with the same password and gets the chosen role, which is never admin |
| AuthContext.Auth.Logout | frontend/src/contexts/AuthContext.tsx:180-184 | the session is cleared and the database untouched |
| UserContext.DayStart | frontend/src/contexts/UserContext.tsx:105 | the date-only join date is the start of the day containing the instant: at most the instant, less than a day before it, a whole number of days |
| UserContext.WithPasswords | frontend/src/contexts/UserContext.tsx:84-94 | same length; each entry takes the stored password of its key when there is one |
| UserContext.Refreshed | frontend/src/contexts/UserContext.tsx:28-54 | one user per database entry, in entry order |
| UserContext.UserList.constructor | frontend/src/contexts/UserContext.tsx:20-23 | the list starts as loaded, wired to the store and the feed |
| UserContext.UserList.PersistUsers | frontend/src/contexts/UserContext.tsx:69-98 | the two loops store `Persisted(updated, old entries)` and the list becomes `updated` |
| UserContext.CollectedLastWins | frontend/src/contexts/UserContext.tsx:71-82 | the database built from the list has unique keys, and the record under an email is the last user with that email |
| UserContext.CollectedInOrder | frontend/src/contexts/UserContext.tsx:71-82 | with distinct emails the database has one entry per user, in list order |
| UserContext.PasswordsPreserved | frontend/src/contexts/UserContext.tsx:84-94 | a key already stored keeps its stored password; a new key gets the placeholder "preserved" |
| UserContext.CollectedPasswords | frontend/src/contexts/UserContext.tsx:73-81 | before the second loop every entry carries the placeholder password |
| UserContext.UserList.RefreshUsers | frontend/src/contexts/UserContext.tsx:28-54 | with a stored database the list is rebuilt from it; without one the list is kept |
| UserContext.PersistRefreshRoundTrip | frontend/src/contexts/UserContext.tsx:37-98 | with distinct emails, persisting then refreshing gives back every user with the email as id and the status reset to active |
| UserContext.UserList.AddUser | frontend/src/contexts/UserContext.tsx:100-121 | the new user is appended and persisted, and one "New User Registration" notice is posted |
| UserContext.AddUserShape | frontend/src/contexts/UserContext.tsx:101-107 | the new user is active, joined at the start of today, last logged in now, with the given email and role |
| UserContext.UpdatedUsers | frontend/src/contexts/UserContext.tsx:124-128 | same length; each user with the id is merged with the patch, others kept |
| UserContext.UserList.UpdateUser | frontend/src/contexts/UserContext.tsx:123-130 | the list becomes `UpdatedUsers` and is persisted |
| UserContext.WithoutUser | frontend/src/contexts/UserContext.tsx:133 | no remaining user has the id; every other user remains |
| UserContext.UserList.DeleteUser | frontend/src/contexts/UserContext.tsx:132-135 | the list loses the id and is persisted |
| UserContext.DeleteAndUpdate | frontend/src/contexts/UserContext.tsx:123-135 | deletion keeps order (distributes over concatenation); updating an unknown id changes nothing |
| UserContext.FindUser | frontend/src/contexts/UserContext.tsx:137-139 | `None` exactly when no user has the id; otherwise the first user in the list with the id |
| UserContext.UsersByRole | frontend/src/contexts/UserContext.tsx:141-143 | exactly the users with the role |
| UserContext.RolesPartition | frontend/src/contexts/UserContext.tsx:141-143 | the three role lists together are as long as the whole list |
| UserContext.RecentUsers | frontend/src/contexts/UserContext.tsx:145-149 | exactly the users who joined at or after the cutoff `days` days before now |
| UserContext.RecentUsersMonotone | frontend/src/contexts/UserContext.tsx:145-149 | a longer window never returns fewer users |
| UserContext.LastWithEmail | frontend/src/contexts/UserContext.tsx:72-82 | `None` exactly when no user has the email; otherwise the last index holding it |
| ClearData.Kept | frontend/src/utils/clearData.ts:26-28 | exactly the entries that are the administrator's or not students |
| ClearData.Storage.constructor | frontend/src/utils/clearData.ts:14-20 | the storage keys as found |
| ClearData.Storage.ClearAllStudentData | frontend/src/utils/clearData.ts:14-54 | an unparsable database fails with nothing changed; otherwise the database keeps only `Kept`, pre-enrollments are removed, a student session is removed, and the result is success unless reading the session throws, which keeps the earlier writes and reports failure; the courses are never touched |
| ClearData.KeptEntries | frontend/src/utils/clearData.ts:26-28 | the only student entry left can be the administrator's email; every non-student entry is kept |
| ClearData.KeptInOrder | frontend/src/utils/clearData.ts:26-28 | the kept entries stay in order and a second clearing changes nothing |
| ClearData.KeptKeysUnique | frontend/src/utils/clearData.ts:26-31 | clearing keeps the database's keys unique |
| ClearData.NoStudentsUntouched | frontend/src/utils/clearData.ts:26-28 | a database with no students is left as it was |
| Formatters.PurposeLabel | frontend/src/utils/formatters.ts:2-8 | a label exactly for the five keys, and it is the key's own label |
| Formatters.FormatLabels | frontend/src/utils/formatters.ts:1-10 | each key formats to its label; any other purpose is shown unchanged |
| Formatters.FormatIdempotent | frontend/src/utils/formatters.ts:1-10 | formatting twice is formatting once |
| Formatters.FormatInjective | frontend/src/utils/formatters.ts:2-8 | distinct keys get distinct labels |
| Formatters.InheritedMemberLeaks | frontend/src/utils/formatters.ts:10 | as written, "constructor" yields the inherited member instead of itself; the corrected lookup shows it unchanged |
| Formatters.AsWrittenAgreesElsewhere | frontend/src/utils/formatters.ts:10 | on every purpose that is not an inherited name, the as-written lookup and the corrected one agree |
| CourseEnrollmentPage.CourseEnrollmentStatus | frontend/src/pages/student/CourseEnrollment.tsx:160-176 | nothing without a signed-in user with an id; "approved" exactly when some request of the student for the course is approved; `None` exactly when the student has no request for it; otherwise the ledger's most recent status |
| CourseEnrollmentPage.PageStatusAgreesOnValidLedger | frontend/src/pages/student/CourseEnrollment.tsx:160-176 | with one request per student and course, the page's status is the ledger's own status |
| CourseEnrollmentPage.PageStatusPrefersApproval | frontend/src/pages/student/CourseEnrollment.tsx:166-172 | without that invariant the two disagree: an approved request followed by a later rejected one shows "approved" while the ledger reports "rejected" |
| CourseEnrollmentPage.AvailableCourses | frontend/src/pages/student/CourseEnrollment.tsx:205-223 | nothing without a user; otherwise exactly the active catalog courses in which the student is not enrolled |
| CourseEnrollmentPage.AvailableInOrder | frontend/src/pages/student/CourseEnrollment.tsx:205-223 | the offered list keeps catalog order (distributes over concatenation) |
| CourseEnrollmentPage.EnrolledCourseNotOffered | frontend/src/pages/student/CourseEnrollment.tsx:205-223 | a course with an approved request of the student is never offered and its button is disabled |
| CourseEnrollmentPage.EnrollButtonProps | frontend/src/pages/student/CourseEnrollment.tsx:341-388 | enabled exactly when the status is neither approved nor pending and the course has room; the label is "Already Enrolled", "Course Full", "Pending Approval" or "Enroll" in that precedence; an enabled button is primary, with the retry tooltip after a rejection |
| CourseEnrollmentPage.EnrollClick | frontend/src/pages/student/CourseEnrollment.tsx:390-424 | refused exactly for an approved or pending status, each with its own warning; otherwise the form opens for that course, pre-filled exactly when someone is signed in |
| CourseEnrollmentPage.ButtonAgreesWithClick | frontend/src/pages/student/CourseEnrollment.tsx:341-424 | the button is enabled exactly when a click would open the form and the course has room |
| CourseEnrollmentPage.PrefillRoundTrip | frontend/src/pages/student/CourseEnrollment.tsx:415-440 | a name with a space is rebuilt exactly from its pre-filled first and last names; a one-word name becomes the first name with an empty last name |
| CourseEnrollmentPage.DocumentErrors | frontend/src/pages/student/CourseEnrollment.tsx:256-273 | a message exactly for each requirement whose chosen file has a wrong format, and for nothing else |
| CourseEnrollmentPage.ValidateDocuments | frontend/src/pages/student/CourseEnrollment.tsx:256-273 | the loop returns true exactly when every chosen file has an accepted format, and builds exactly `DocumentErrors` over the requirements |
| CourseEnrollmentPage.FormatsSplit | frontend/src/pages/student/CourseEnrollment.tsx:76-126 | splitting each requirement's format text at the commas gives its extension list |
| CourseEnrollmentPage.ImageOrPdfSplit | frontend/src/pages/student/CourseEnrollment.tsx:82 | ".pdf,.jpg,.jpeg,.png" splits into its four extensions |
| CourseEnrollmentPage.DocumentOrPdfSplit | frontend/src/pages/student/CourseEnrollment.tsx:103 | ".pdf,.doc,.docx" splits into its three extensions |
| CourseEnrollmentPage.PdfOnlySplit | frontend/src/pages/student/CourseEnrollment.tsx:117 | ".pdf" splits into itself alone |
| CourseEnrollmentPage.CleanExtensionUnchanged | frontend/src/pages/student/CourseEnrollment.tsx:264 | lower-casing and trimming leave a plain lower-case extension as it is |
| CourseEnrollmentPage.FormatListClean | frontend/src/pages/student/CourseEnrollment.tsx:76-126 | every listed extension is a dot followed by lower-case letters |
| CourseEnrollmentPage.AcceptedFileByList | frontend/src/pages/student/CourseEnrollment.tsx:263-265 | the check on the format text is a plain suffix test of the lower-cased file name against the list |
| CourseEnrollmentPage.PdfAlwaysAccepted | frontend/src/pages/student/CourseEnrollment.tsx:76-126 | a PDF, in any letter case, is accepted for every requirement |
| CourseEnrollmentPage.MedicalFormOnlyPdf | frontend/src/pages/student/CourseEnrollment.tsx:113-117 | the medical form accepts a file exactly when it ends in ".pdf" in any case |
| CourseEnrollmentPage.MessageIf | frontend/src/pages/student/CourseEnrollment.tsx:275-330 | a check leaves a message exactly when it fails |
| CourseEnrollmentPage.NoMessagesIffValid | frontend/src/pages/student/CourseEnrollment.tsx:275-330 | every field check runs, and there are no field messages exactly when the fields are valid |
| CourseEnrollmentPage.EmailMessages | frontend/src/pages/student/CourseEnrollment.tsx:289-295 | the email has a message exactly when it fails the pattern, and the "required" one exactly when it is empty |
| CourseEnrollmentPage.SchoolMessage | frontend/src/pages/student/CourseEnrollment.tsx:327-330 | the school is demanded exactly for attainment "Others" with no school typed |
| CourseEnrollmentPage.CheckFields | frontend/src/pages/student/CourseEnrollment.tsx:275-330 | the field checks return true exactly for valid fields and collect exactly `FieldErrors` |
| CourseEnrollmentPage.Check | frontend/src/pages/student/CourseEnrollment.tsx:275-330 | one field check records its message exactly when the check fails, and the form stays valid only if it was and the check passes |
| CourseEnrollmentPage.ValidateForm | frontend/src/pages/student/CourseEnrollment.tsx:275-339 | as written: valid exactly when the fields and the documents are valid, but the errors shown are the field messages alone, with no document message |
| CourseEnrollmentPage.DocumentErrorHidden | frontend/src/pages/student/CourseEnrollment.tsx:332-337 | a medical form named without ".pdf" on an otherwise valid form blocks submission while no field message is shown; the document message exists but is dropped |
| CourseEnrollmentPage.ValidateFormShowingDocuments | frontend/src/pages/student/CourseEnrollment.tsx:275-339 | corrected: same verdict, and the shown errors carry the document messages under `documents` |
| CourseEnrollmentPage.InvalidFormShowsAMessage | frontend/src/pages/student/CourseEnrollment.tsx:275-339 | with the correction, an invalid form always shows at least one message |
| CourseEnrollmentPage.HandleEnrollSubmit | frontend/src/pages/student/CourseEnrollment.tsx:426-473 | without a user or course it reports that it cannot submit; otherwise it validates, rejects an invalid form, sends exactly the request built from the form and the document at the stepper's position, and reports a failed submission when that position is past the requirements |
| CourseEnrollmentPage.AttainmentRoundTrip | frontend/src/pages/student/CourseEnrollment.tsx:451-453 | the school typed under "Others" can be read back from the submitted attainment; any other attainment is sent unchanged |
| CourseManagementPage.FilteredCourses | frontend/src/pages/admin/CourseManagement.tsx:95-107 | exactly the catalog courses whose title or code contains the search text ignoring case, whose department is the chosen one or "all", and whose status is the chosen one or "all" |
| CourseManagementPage.NoFilterListsAll | frontend/src/pages/admin/CourseManagement.tsx:95-107 | an empty search with both filters at "all" lists every course, in order |
| CourseManagementPage.SearchIgnoresCase | frontend/src/pages/admin/CourseManagement.tsx:97-98 | searching for a text or its lower-case form lists the same courses |
| CourseManagementPage.Departments | frontend/src/pages/admin/CourseManagement.tsx:92 | each non-empty department of the catalog exactly once, and nothing else, in the order of each department's first course (as the `Set` keeps insertion order) |
| CourseManagementPage.InitialForm | frontend/src/pages/admin/CourseManagement.tsx:60-72 | the empty form: 8 weeks, a limit of 30, 3 units, a fee of 5000, empty texts and the given start date |
| CourseManagementPage.CourseAdminPage.constructor | frontend/src/pages/admin/CourseManagement.tsx:78-85 | the page starts with the empty form, no course selected and both dialogs closed |
| CourseManagementPage.CourseAdminPage.Edit | frontend/src/pages/admin/CourseManagement.tsx:147-166 | the course is selected for editing, the form is filled from it and the dialog opens |
| CourseManagementPage.EditRoundTrip | frontend/src/pages/admin/CourseManagement.tsx:111-166 | saving an edit unchanged gives back the course with a new update time when its department and a non-zero unit count are set; otherwise those come back as "" and 3 |
| CourseManagementPage.CourseAdminPage.Submit | frontend/src/pages/admin/CourseManagement.tsx:109-145 | an edit updates the edited course with the form and its own status; otherwise the form is added as a new course; the dialog closes and the form resets |
| CourseManagementPage.EditKeepsStatus | frontend/src/pages/admin/CourseManagement.tsx:111-130 | saving an edit keeps the status, id, counter and creation time, whatever the form holds, and takes the title and limit from the form |
| CourseManagementPage.NewCourseData | frontend/src/pages/admin/CourseManagement.tsx:131-136 | a new course is sent active, with the form's fields and no syllabus |
| CourseManagementPage.AddedCourseIsActive | frontend/src/pages/admin/CourseManagement.tsx:131-136 | a course added from the form starts active, with an empty counter and the given id |
| CourseManagementPage.StudentsWith | frontend/src/pages/admin/CourseManagement.tsx:168-178 | exactly the requests for the course with the given status |
| CourseManagementPage.EnrolledAndPendingDisjoint | frontend/src/pages/admin/CourseManagement.tsx:168-178 | no request is in both the enrolled and the pending list of a course |
| CourseManagementPage.CourseAdminPage.AskDelete | frontend/src/pages/admin/CourseManagement.tsx:180-183 | the course is selected for deletion and the confirmation opens |
| CourseManagementPage.CourseAdminPage.ConfirmDelete | frontend/src/pages/admin/CourseManagement.tsx:185-191 | as written: only the catalog loses the course; nothing happens without a selection |
| CourseManagementPage.DeleteLeavesOrphans | frontend/src/pages/admin/CourseManagement.tsx:185-191 | as written, a request for the deleted course is kept and points at a course the catalog no longer has |
| CourseManagementPage.WarnedDeleteKeepsRecord | frontend/src/pages/admin/CourseManagement.tsx:512-517 | as written, for a course with one enrolled student and its approved request, the dialog shows the records warning, yet deletion leaves the catalog empty and the request in place without its course |
| CourseManagementPage.AfterDelete | frontend/src/pages/admin/CourseManagement.tsx:512-517 | corrected: the catalog loses the course and exactly the requests for other courses remain |
| CourseManagementPage.CourseAdminPage.ConfirmDeleteWithRecords | frontend/src/pages/admin/CourseManagement.tsx:185-191 | corrected: catalog and requests become `AfterDelete`, as the dialog's warning promises |
| CourseManagementPage.DeleteWithRecordsLeavesNoOrphans | frontend/src/pages/admin/CourseManagement.tsx:512-517 | with the records removed too, no request is left without its course, provided none was before |
| OfferedCoursesPage.OfferedCourses | frontend/src/pages/student/OfferedCourses.tsx:73-84 | exactly the active courses matching the search text (ignoring case) and the department |
| OfferedCoursesPage.OfferedIsActiveFilter | frontend/src/pages/student/OfferedCourses.tsx:73-84 | the student's list is the administrator's list with the status filter at "active" |
| OfferedCoursesPage.StatusChipColor | frontend/src/pages/student/OfferedCourses.tsx:196-208 | green exactly for "enrolled", amber exactly for "pending" |
| OfferedCoursesPage.ButtonLabels | frontend/src/pages/student/OfferedCourses.tsx:210-226 | any label but "Enroll Now" comes with a disabled button and a full course is never open, in both the as-written and the corrected button; corrected, "Enroll Now" shows exactly with no request or a rejected one |
| OfferedCoursesPage.ApprovedStudentSeesEnrollNow | frontend/src/pages/student/OfferedCourses.tsx:216-226 | as written, a student whose request was approved sees an enabled "Enroll Now" on a course with room, and submitting again changes nothing |
| OfferedCoursesPage.EnabledIffSubmitChanges | frontend/src/pages/student/OfferedCourses.tsx:86-100 | corrected, the button of a course with room is enabled exactly when submitting would change the requests |
| OfferedCoursesPage.InitialForm | frontend/src/pages/student/OfferedCourses.tsx:56-62 | the form starts with the signed-in user's id, name and email (empty without one) and an empty phone and course |
| OfferedCoursesPage.Submission | frontend/src/pages/student/OfferedCourses.tsx:86-100 | the request carries the dialog's course and the form's student and phone, with no document |
| OfferedCoursesPage.OfferedCoursesView.constructor | frontend/src/pages/student/OfferedCourses.tsx:50-62 | the view starts with the initial form and the dialog closed |
| OfferedCoursesPage.OfferedCoursesView.Open | frontend/src/pages/student/OfferedCourses.tsx:233-300 | the dialog opens for the course with the form kept |
| OfferedCoursesPage.OfferedCoursesView.Submit | frontend/src/pages/student/OfferedCourses.tsx:86-100 | with a course, the ledger receives exactly that submission and the feed gets the ledger's submission notice, if any; the dialog closes and phone and course are cleared; without one, requests, feed and form stay as they were |
| PreEnrollmentManagementPage.RowActions | frontend/src/pages/admin/PreEnrollmentManagement.tsx:222-268 | view and delete on every row; approve and reject exactly on a pending request; unenroll exactly on an approved one |
| PreEnrollmentManagementPage.ConfirmCall | frontend/src/pages/admin/PreEnrollmentManagement.tsx:66-165 | approval forwards the typed feedback, rejection forwards none |
| PreEnrollmentManagementPage.OnlyAdminTransitions | frontend/src/pages/admin/PreEnrollmentManagement.tsx:66-165 | every status change the page can cause is pending to approved, pending to rejected or approved to rejected; nothing reaches "enrolled"; a rejected request can only stay or be deleted |
| PreEnrollmentManagementPage.AdminTransitionsOffered | frontend/src/pages/admin/PreEnrollmentManagement.tsx:222-268 | each of those transitions is offered by some row action |
| PreEnrollmentManagementPage.RejectDropsReason | frontend/src/pages/admin/PreEnrollmentManagement.tsx:70-97 | after a rejection the request carries no feedback, whatever reason was typed; after an approval it carries the typed feedback |
| PreEnrollmentManagementPage.StatusChip | frontend/src/pages/admin/PreEnrollmentManagement.tsx:167-175 | the default colour exactly for a text other than the three known statuses, shown upper-cased |
| PreEnrollmentManagementPage.ChipOfLedgerStatus | frontend/src/pages/admin/PreEnrollmentManagement.tsx:167-175 | among the ledger's statuses only "enrolled" falls back to the default chip, shown as "ENROLLED" |
| PreEnrollmentManagementPage.AdminPage.constructor | frontend/src/pages/admin/PreEnrollmentManagement.tsx:41-54 | nothing selected, empty texts, every dialog closed |
| PreEnrollmentManagementPage.AdminPage.Open | frontend/src/pages/admin/PreEnrollmentManagement.tsx:56-144 | the request is selected and the action's dialog opens; nothing else changes |
| PreEnrollmentManagementPage.AdminPage.ConfirmApprove | frontend/src/pages/admin/PreEnrollmentManagement.tsx:66-86 | the selected request is approved with the typed feedback, its student is notified, the counter moves as the ledger's rule says, the dialogs close, the feedback clears and the success message shows; without a selection requests, catalog and feed stay as they were |
| PreEnrollmentManagementPage.AdminPage.ConfirmReject | frontend/src/pages/admin/PreEnrollmentManagement.tsx:93-113 | the selected request is rejected with no feedback, its student is notified, the counter moves as the ledger's rule says, the dialogs close, the typed reason clears and the info message shows; without a selection requests, catalog and feed stay as they were |
| PreEnrollmentManagementPage.AdminPage.ConfirmDelete | frontend/src/pages/admin/PreEnrollmentManagement.tsx:120-139 | the selected request is removed through the ledger (one decrement if it was approved), the dialogs close and the success message shows; without a selection requests and catalog stay as they were |
| PreEnrollmentManagementPage.AdminPage.ConfirmUnenroll | frontend/src/pages/admin/PreEnrollmentManagement.tsx:146-165 | an approved selected request becomes rejected, its student is notified and its course counter is decremented twice (the double decrement listed under Findings); any other request leaves requests, catalog and feed as they were; the dialogs close and the success message shows |
| UserManagementPage.FilteredUsers | frontend/src/pages/admin/UserManagement.tsx:71-78 | exactly the users whose name or email contains the search text ignoring case and whose role is the chosen one or "all" |
| UserManagementPage.InsertByJoin | frontend/src/pages/admin/UserManagement.tsx:81-83 | inserting into a newest-first list keeps it newest first and adds exactly the one user |
| UserManagementPage.BelowHead | frontend/src/pages/admin/UserManagement.tsx:81-83 | in a newest-first list, the tail and a later-joined user all joined no later than the head |
| UserManagementPage.SortedByJoin | frontend/src/pages/admin/UserManagement.tsx:81-83 | the sorted list is newest first and a permutation of its input |
| UserManagementPage.SortedListsMatching | frontend/src/pages/admin/UserManagement.tsx:71-83 | the table lists exactly the matching users, newest first |
| UserManagementPage.InsertKeepsTies | frontend/src/pages/admin/UserManagement.tsx:81-83 | insertion puts the new user before the users with the same join date and keeps their order |
| UserManagementPage.SortIsStable | frontend/src/pages/admin/UserManagement.tsx:81-83 | users with the same join date keep their relative order |
| UserManagementPage.SortedIsIdentityOnSorted | frontend/src/pages/admin/UserManagement.tsx:81-83 | sorting a newest-first list changes nothing |
| UserManagementPage.PageRows | frontend/src/pages/admin/UserManagement.tsx:224-225 | at most a page of rows, each the list's row at page offset plus its index; a full page when the list reaches past it |
| UserManagementPage.RowOnItsPage | frontend/src/pages/admin/UserManagement.tsx:224-225 | row `k` is shown as row `k mod size` of page `k div size` |
| UserManagementPage.UserAdminPage.constructor | frontend/src/pages/admin/UserManagement.tsx:40-47 | first page, ten rows per page, nothing selected, the edit dialog closed, no alert |
| UserManagementPage.UserAdminPage.ChangePage | frontend/src/pages/admin/UserManagement.tsx:85-87 | the page becomes the chosen one and the page size is kept |
| UserManagementPage.UserAdminPage.ChangeRowsPerPage | frontend/src/pages/admin/UserManagement.tsx:89-92 | a new page size always goes back to the first page |
| UserManagementPage.UserAdminPage.EditClick | frontend/src/pages/admin/UserManagement.tsx:94-105 | the user is selected, the edit form is filled from it and the dialog opens |
| UserManagementPage.EditRoundTrip | frontend/src/pages/admin/UserManagement.tsx:94-114 | saving the edit form unchanged gives back the user |
| UserManagementPage.UserAdminPage.EditSubmit | frontend/src/pages/admin/UserManagement.tsx:107-114 | with a selection, the form is applied as a patch to that user and the new list is written to the database, the dialog closes and "User updated successfully" shows; without one, the list and the stored database stay as they were |
| UserManagementPage.UserAdminPage.DeleteUser | frontend/src/pages/admin/UserManagement.tsx:116-122 | the user is removed and the new list written to the database exactly when the prompt is confirmed, with its alert; otherwise the list and the stored database stay as they were |
| UserManagementPage.TogglePatch | frontend/src/pages/admin/UserManagement.tsx:124-132 | the toggle sends only the opposite status |
| UserManagementPage.UserAdminPage.ToggleStatus | frontend/src/pages/admin/UserManagement.tsx:124-132 | the user's status flips through the list, the new list is written to the database and the matching alert shows; paging is kept |
| UserManagementPage.ToggleTwice | frontend/src/pages/admin/UserManagement.tsx:124-132 | a toggle changes only the status, always changes it, and two toggles give back the user |
| BookingManagementPage.RowActions | frontend/src/pages/admin/BookingManagement.tsx:193-226 | view and delete on every booking; respond exactly on a pending one |
| BookingManagementPage.StatusChipColor | frontend/src/pages/admin/BookingManagement.tsx:146-155 | the warning colour exactly for a pending booking |
| BookingManagementPage.ChipsAgree | frontend/src/pages/admin/BookingManagement.tsx:137-155 | the table chip and the details chip share a colour and the same text up to case, and the colour tells the status |
| BookingManagementPage.BookingAdminPage.constructor | frontend/src/pages/admin/BookingManagement.tsx:107-110 | nothing selected, an empty feedback text, every dialog closed |
| BookingManagementPage.BookingAdminPage.Open | frontend/src/pages/admin/BookingManagement.tsx:118-124 | the booking is selected and the action's dialog opens; the feedback text is kept |
| BookingManagementPage.BookingAdminPage.SubmitFeedback | frontend/src/pages/admin/BookingManagement.tsx:129-135 | with a selection, the booking is answered with the chosen status and the typed text (even empty), the ledger's notices follow, and the dialog closes; without one, bookings and feed stay as they were; the text is always cleared |
| BookingManagementPage.ResponseAlwaysNotifies | frontend/src/pages/admin/BookingManagement.tsx:193-203 | a response from this page always reaches a pending booking and always changes it, so the visitor is always notified; the stored feedback is the typed text |
| BookingManagementPage.BookingAdminPage.CancelFeedback | frontend/src/pages/admin/BookingManagement.tsx:318-322 | cancel closes the dialog and drops the selection but keeps the typed text |
| BookingManagementPage.BookingAdminPage.ConfirmDelete | frontend/src/pages/admin/BookingManagement.tsx:118-122 | with a selection the booking is removed, the "Booking Deleted" notice is posted and the dialog closes; without one, bookings and feed stay as they were |
| BookingSystemPage.RunLength | frontend/src/pages/visitor/BookingSystem.tsx:100 | the longest prefix whose characters satisfy the test: within the text, all satisfy it, and the next one does not |
| BookingSystemPage.DecimalText | frontend/src/pages/visitor/BookingSystem.tsx:100 | the decimal text of a number is one or more digits |
| BookingSystemPage.ValueOfDecimal | frontend/src/pages/visitor/BookingSystem.tsx:100 | reading a number's decimal text back gives the number |
| BookingSystemPage.RunOverDigits | frontend/src/pages/visitor/BookingSystem.tsx:100 | the digit run of digits followed by a non-digit is exactly the digits |
| BookingSystemPage.ParseDecimal | frontend/src/pages/visitor/BookingSystem.tsx:100-136 | `parseInt` reads a number's decimal text back and stops at the first non-digit ("15.9" is 15) |
| BookingSystemPage.GroupSizeOfNumber | frontend/src/pages/visitor/BookingSystem.tsx:96-108 | a plain number is accepted exactly from 1 to 15 |
| BookingSystemPage.NumberFieldReadsLeadingDigits | frontend/src/pages/visitor/BookingSystem.tsx:96-108 | number-field texts in exponent or fraction form pass the check on their leading digits: "1e2" (a hundred) as 1, "15.9" as 15 |
| BookingSystemPage.ValidateForm | frontend/src/pages/visitor/BookingSystem.tsx:62-117 | every check runs; the result is true exactly for a valid form and exactly when no field has a message |
| BookingSystemPage.NoErrorsIffValid | frontend/src/pages/visitor/BookingSystem.tsx:62-117 | no messages exactly for a valid form; "in the past" exactly for a date before today's midnight; "maximum 15" exactly for a number above 15 |
| BookingSystemPage.ValidFormBooking | frontend/src/pages/visitor/BookingSystem.tsx:62-139 | a booking from a valid form has a group of 1 to 15, an email matching the pattern and a visit at or after today's midnight |
| BookingSystemPage.MultipleAwayFromZero | frontend/src/pages/visitor/BookingSystem.tsx:126-130 | helper of `CombinedParts`, not a behaviour of the page: a non-zero multiple of a positive number is at least that number away from zero |
| BookingSystemPage.DivModOf | frontend/src/pages/visitor/BookingSystem.tsx:126-130 | helper of `CombinedParts`, not a behaviour of the page: quotient and remainder are determined by the division equation |
| BookingSystemPage.CombinedParts | frontend/src/pages/visitor/BookingSystem.tsx:126-130 | the combined instant is on the date's day, at the time's hour and minute, with the date's seconds and milliseconds |
| BookingSystemPage.InitialForm | frontend/src/pages/visitor/BookingSystem.tsx:35-52 | the form starts with the signed-in user's name and email, no date or time and no group size |
| BookingSystemPage.BookingPage.constructor | frontend/src/pages/visitor/BookingSystem.tsx:48-60 | the page starts with the initial form, no errors and no message |
| BookingSystemPage.BookingPage.Submit | frontend/src/pages/visitor/BookingSystem.tsx:119-154 | the errors shown are the form's; a valid form adds exactly the booking built from it, posts the "New Booking Request" notice, empties the form and shows the success message; an invalid one leaves bookings, feed, form and message as they were |
| RegisterPage.FormError | frontend/src/pages/auth/Register.tsx:39-61 | no message exactly when every required field is filled, the email has an '@', the password has at least 6 characters and the two passwords match |
| RegisterPage.ChecksInOrder | frontend/src/pages/auth/Register.tsx:39-61 | the checks run in order and the first failure is the one reported |
| RegisterPage.AtSignIsEnough | frontend/src/pages/auth/Register.tsx:45-48 | "a@" passes this form although the other forms' email pattern rejects it |
| RegisterPage.RegisterDataOf | frontend/src/pages/auth/Register.tsx:73 | registration receives the form's email, password and role |
| RegisterPage.UserDataOf | frontend/src/pages/auth/Register.tsx:76-82 | the user list receives the form's name, email and role |
| RegisterPage.RegisterView.constructor | frontend/src/pages/auth/Register.tsx:27-37 | an empty form with no role, no error, no success message |
| RegisterPage.RegisterView.Submit | frontend/src/pages/auth/Register.tsx:63-93 | the signed-in session and its flag are never touched; an invalid form only shows its message; a refused registration shows the generic failure; in both cases the success flag, the database, the user list, the stored entries and the feed stay as they were; a successful one registers, appends the user to the list, writes the database, posts the "New User Registration" notice and shows success |
| RegisterPage.PasswordSurvivesAddUser | frontend/src/pages/auth/Register.tsx:73-82 | after a successful sign-up the database holds the account under its email with the typed password, name and role, although the user list writes the database again |

## Left out

- The Laravel back end: the PHP controllers, models, seeders and routes. The browser code never calls them. Its visitor-booking rule allows groups of up to 50, while the booking page allows 15. The model follows the page.
- Browser storage and JSON: each context's list is a field, and `UserDb.UserStore` and `ClearData.Storage` stand for the keys that the modelled code reads back. Parsing failures are modelled only where the code catches them, in `clearAllStudentData` (a slot is `Unparsable`). The `useEffect` writes of each list are not modelled.
- `initializeCourses` and the default course data: the catalog's constructor takes the loaded list.
- The storage-event listener and the 5-second refresh timers of the user list and of the user-management page: `RefreshUsers` is the operation they call, and it is modelled.
- EmailJS sends: asynchronous foreign calls. Each has a `...EmailSettled` method that takes the outcome (delivered, failed, or threw synchronously) as a parameter and posts the notice the code posts for it.
- `Date.now()`, `new Date()`, `toISOString` and the ids built from them: all are parameters. Instants are integers in milliseconds, and local time is a fixed offset from them, with no time zones or daylight saving. The booking page's "today at midnight" is a parameter.
- `window.confirm` in the user table is the `confirmed` parameter of `UserManagementPage.UserAdminPage.DeleteUser`.
- React details: render batching, and state updaters that run their side effects inside `setState`. Each operation is one sequential step whose effects run once, in list order.
- Rendering: the 1.5-second redirect after sign-up, snackbars' timing, `date-fns` formatting (the booking date text is a parameter `fmt`), and document previews through `URL.createObjectURL`.
- The pages whose only logic repeats a context call: the virtual tour and event pages, profile, dashboards, "my bookings", enrolled courses. Also the type declarations in `types/index.ts`, whose course shape the contexts do not use.
- `getAllBookings`, `getTotalUsers`, `getCourseById`, `getStudentEnrollmentStatus` and the other context getters are class functions that read a field. Their contracts are those of the pure functions they call: `UserContext.RolesPartition` relates the role lists to the total count.
- `handleStatusUpdate` of the booking table is never used by the page, so it is not modelled.
- CourseEnrollmentPage.HandleEnrollSubmit: submits the document of the requirement at the stepper's position, whatever other files were chosen. The ledger then drops `educationalAttainment`. Both are modelled as written.
- CourseEnrollmentPage.FormatsSplit: the model carries the format lists as pre-split extension lists; this lemma and `AcceptedFileByList` prove that they agree with splitting the text at its commas.
- RegisterPage.FormError: counts the password's length in characters, not UTF-16 code units.
- AuthContext.Auth: keeps the database loaded when the module starts. Writes by the user list (`persistUsers`) reach storage but not this in-memory copy until the page reloads. The model gives both the same store object, so `RegisterPage.RegisterView.Submit` requires them to share it, but it does not model a reload.
- PreEnrollmentManagementPage.StatusChip: the chip table is an object literal indexed by status, so a status named after an inherited member (for example "constructor") would reach `Object.prototype`. No status of the ledger has such a name, so this is not modelled further.
- BookingSystemPage.BookingPage.Submit: empties the form to the blank form after a booking, dropping the signed-in user's name and email. A visit later today at an hour already past is accepted, because only the date is compared with today's midnight. Both are modelled as written.
- CourseManagementPage.Form: the number fields (duration, enrollment limit, units, fee) are integers here, and so are the `fee`, `enrollmentLimit`, `duration` and `units` of `CourseContext.Course`. The dialog reads them with `parseInt` and, for the fee, `parseFloat` (frontend/src/pages/admin/CourseManagement.tsx:381, 400, 412, 422), and `handleSubmit` (:108-145) saves them unchecked. A cleared field is saved as `NaN` and a fee such as 4999.5 as a fraction; neither is modelled. With a `NaN` limit, `Math.min(currentEnrollment + 1, NaN)` (CourseContext.tsx:289) makes the counter `NaN`, and the full-course tests `currentEnrollment >= enrollmentLimit` (OfferedCourses.tsx:192 and 217, CourseEnrollment.tsx:357) are then always false, so such a course is never full. The model's integer limit cannot reach that state.
- CourseManagementPage.CourseAdminPage.Submit: saves only integer number fields, for the reason given under `CourseManagementPage.Form`; a `NaN` or fractional value from the dialog is not modelled.
- CourseManagementPage.NewCourseData: copies integer fields only, as above.
- CourseManagementPage.FilteredCourses: uses "all" as the "no department filter" value, so a department literally named "all" cannot be selected on its own.
- OfferedCoursesPage.Submission: the short form has no date of birth, address or guardian, so the page submits a request whose copies of those keys are `undefined`. The model has no undefined string and stores `""` for them.
- BookingSystemPage.GroupSizeOk: takes the group-size text as any string. The page's number field only ever yields a valid floating-point text or "", a restriction the model does not impose. `NumberFieldReadsLeadingDigits` uses texts that the field does yield.
- Common.ToLower: maps only the ASCII and Latin-1 letters whose case partner is one character. JavaScript's `toLowerCase` applies full Unicode case mapping, which also covers Greek, Cyrillic and other scripts and can change the length ("İ" lowers to two code units). The searches `CourseManagementPage.FilteredCourses`, `OfferedCoursesPage.OfferedCourses` and `UserManagementPage.FilteredUsers` therefore ignore case only on those letters.
- Common.ToUpper: maps only the same letters. JavaScript's `toUpperCase` also maps the other scripts and turns "ß" into "SS", changing the length. The model keeps "ß" and "µ", and every character outside Latin-1 except "Ÿ", as they are.
- BookingSystemPage.BookingPage.Submit: the date and time pickers are modelled as a chosen instant or none. A value typed invalidly into a picker is still a `Date`, but an invalid one. It passes the required and past-date checks, and then `toISOString` throws, so the page shows "Failed to submit booking request. Please try again.". This invalid-picker path and its error snackbar are not modelled.
- BookingManagementPage.BookingAdminPage.CancelFeedback: keeps the typed feedback for the next response, and a response with no text stores `Some("")`, not no feedback. Both are modelled as written.

## Findings

| source | as written | input that shows it | evidently intended | confidence | as-written member | corrected member |
|---|---|---|---|---|---|---|
| frontend/src/contexts/PreEnrollmentContext.tsx:261-268 | `unenrollStudent` updates the status to rejected, which already decrements the course counter (lines 242-245), and then decrements it once more | a course with counter 2 and limit 30 and two approved students; unenrolling one of them leaves the counter at 0 | one unenrolment withdraws one place | not executed | PreEnrollmentContext.PreEnrollmentLedger.UnenrollStudent, PreEnrollmentContext.UnenrollDecrementsTwice | PreEnrollmentContext.PreEnrollmentLedger.UnenrollStudentOnce, PreEnrollmentContext.UnenrollOnceWithdrawsOne |
| frontend/src/utils/formatters.ts:10 | the label table is an object literal indexed by the purpose, so names inherited from `Object.prototype` are found too | the purpose "constructor" yields the `Object` constructor function instead of the text | a purpose with no label is shown unchanged | not executed | Formatters.FormatBookingPurposeAsWritten, Formatters.InheritedMemberLeaks | Formatters.FormatBookingPurpose, Formatters.AsWrittenAgreesElsewhere |
| frontend/src/pages/student/CourseEnrollment.tsx:332-337 | the document messages are merged at the top level of the shown errors, and then the field messages replace the shown errors outright | a form with every field valid and a medical form named "x.jpg": submission is blocked and no message is shown | the invalid document's message is shown under its requirement | not executed | CourseEnrollmentPage.ValidateForm, CourseEnrollmentPage.DocumentErrorHidden | CourseEnrollmentPage.ValidateFormShowingDocuments, CourseEnrollmentPage.InvalidFormShowsAMessage |
| frontend/src/pages/admin/CourseManagement.tsx:185-191 | deleting a course calls only `deleteCourse`, while the dialog (lines 512-517) warns that the course's enrollment records will be removed | a course with `currentEnrollment` 1 and its one approved request: the dialog shows the warning, and after deletion the request remains and names a course that no longer exists | the course's requests go with it | not executed | CourseManagementPage.CourseAdminPage.ConfirmDelete, CourseManagementPage.WarnedDeleteKeepsRecord | CourseManagementPage.CourseAdminPage.ConfirmDeleteWithRecords, CourseManagementPage.DeleteWithRecordsLeavesNoOrphans |
| frontend/src/pages/student/OfferedCourses.tsx:216-226 | the button checks for the status "enrolled", which no operation sets; an approved request leaves it enabled as "Enroll Now" | a student with an approved request for a course with room: the button is enabled, and submitting changes nothing | an approved request counts as enrolled | not executed | OfferedCoursesPage.EnrollButtonAsWritten, OfferedCoursesPage.ApprovedStudentSeesEnrollNow | OfferedCoursesPage.EnrollButtonFor, OfferedCoursesPage.EnabledIffSubmitChanges |

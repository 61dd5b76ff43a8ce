# ResumeReview, modelled in Dafny

ResumeReview is a resume-review web application. Users log in with a magic link mailed to them. They upload
resumes and follow each one's review status. Admins list, filter, page through, download, review and delete
resumes, and every status change mails the owner.

This project models the server's state handling:

- the magic-link lifecycle: request, strict expiry, single-use redemption and session claims;
- admin elevation and the user listing;
- the resume collection and its schema checks;
- the resume routes: upload, the owner's list, the admin list with its filter and pagination, read,
  download, review with notification, and delete;
- the e-mail service's token, link, subject and message rules.

It also models the pure logic of the web client:

- the review form's initial values and the request body it builds (tag parsing, note trimming, leaving out
  an empty score);
- the status class and label helpers;
- the admin page's query string, page clamps, score cell and counters;
- the dashboard's stat cards and score badge;
- the resume list's entries.

The databases are in memory.

- The user collection is a `Users.UserStore` class and the resume collection a `ResumeCollection.ResumeStore`
  class. Each holds a map from id to record plus the next id to allocate, and its methods update these in
  place.
- Each route is a method whose postcondition ties the new store to a pure transition function on the
  collection value (`AuthRoutes.LinkRequested`, `AuthRoutes.Redeemed`, `AdminRoutes.AdminEnsured`,
  `ResumeRoutes.Reviewed`). The lemmas prove the multi-call properties about those functions: single use,
  staleness of a replaced token, idempotence, first-login scenarios.
- `findOne` returns the first match in insertion order, and ids are allocated in increasing order.

These are inputs rather than something the model computes:

- the clock, in milliseconds;
- the 32 random bytes behind a token;
- the requester's id and role, which the authentication middleware supplies;
- the mail configuration (an empty string stands for an unset variable);
- whether the mail provider fails;
- the set of files present on disk;
- the set of users matched by the admin search.

Text is ASCII. `toLowerCase`, `toUpperCase`, `trim`, `split`, `join`, a first-occurrence `replace` and the
`\b\w` capitalisation are written out in module `Text`.

## Model

| member | source | states |
|---|---|---|
| Users.TargetFor | server/routes/auth.js:19-29 | the user a request addresses is the stored user whose e-mail equals the lower-cased address when there is one, otherwise a fresh id (`nextId`) |
| Users.TargetOfStoredEmail | server/routes/auth.js:20 | a stored user is found again by its own stored e-mail, since that address is already lower-case |
| Users.FindByEmail | server/routes/auth.js:20 | `findOne({email})` finds a user with that e-mail when one exists, and nothing exactly when none does |
| Users.First | server/routes/auth.js:57-60 | the first-match search returns the lowest id satisfying the predicate, and none when no user below the bound satisfies it |
| Users.UserStore.Insert | server/routes/auth.js:21-25 | a new user document is stored under the next id and no stored user changes; a lower-case address not yet taken keeps the collection valid |
| Users.UserStore.Save | server/routes/auth.js:36 | `user.save()` replaces exactly that user's record; the store stays valid when the saved record does |
| AuthRoutes.FindRedeemable | server/routes/auth.js:57-64 | the verify lookup finds a user holding the token with an expiry strictly after now, and nothing exactly when no user is redeemable |
| AuthRoutes.LinkRequested | server/routes/auth.js:19-34 | after a link request the addressed user has the lower-cased e-mail, the given name, the new token and expiry now + 15 min. An existing user keeps role, verification and last login; a new one is a `user`, unverified. No other user changes |
| AuthRoutes.Redeemed | server/routes/auth.js:66-71 | redemption clears token and expiry, marks the user verified, stamps the login time, and keeps id, e-mail, name and role; no other user changes |
| AuthRoutes.RequestMagicLink | server/routes/auth.js:14-45 | a missing e-mail or name is 400 with the store unchanged. Otherwise the store becomes `LinkRequested` of the old one before the mail is sent, and a failed send is 500 with the new token still stored. The attempted mail is the magic-link mail for the new token; on delivery the reply is the fixed message `Magic link sent to your email`, never the token |
| AuthRoutes.Verify | server/routes/auth.js:53-89 | an empty token is 400; a token no user can redeem is 400 with nothing changed. Otherwise the store becomes `Redeemed`, and the claims carry the redeemed user's id, e-mail and role with a 7-day lifetime |
| AuthRoutes.ExpiryIsStrict | server/routes/auth.js:59 | a link whose expiry equals now cannot be redeemed |
| AuthRoutes.LinkThenVerify | server/routes/auth.js:32-34 | a fresh link is redeemable by the addressed user until just before now + 15 min, and by nobody from then on |
| AuthRoutes.RedeemIsSingleUse | server/routes/auth.js:66-71 | after a token is redeemed, verifying it again fails at any later time |
| AuthRoutes.ReRequestStalesOldToken | server/routes/auth.js:32-34 | a second request for the same address, in any letter case, makes the first token unredeemable even before it expires |
| AuthRoutes.RequestIgnoresCase | server/routes/auth.js:20-29 | requests whose addresses differ only in letter case have the same effect, and an existing address never creates a second user |
| AuthRoutes.FirstLoginScenario | server/routes/auth.js:19-78 | a new address gets one new unverified `user` record whose link is redeemable within 15 minutes. Redeeming it verifies the user, clears the token and issues role `user`, and a later request with a new token leaves the first one unredeemable |
| AdminRoutes.AdminEnsured | server/routes/admin.js:16-42 | the addressed user ends with role `admin`, the given name and the lower-cased e-mail. An existing user is updated in place; otherwise one verified admin is added. No other user changes |
| AdminRoutes.CreateAdmin | server/routes/admin.js:7-52 | with no requester check, missing fields are 400 with nothing changed; otherwise the store becomes `AdminEnsured` and the reply echoes the admin user |
| AdminRoutes.AdminIdempotent | server/routes/admin.js:16-42 | repeating `create-admin` with the same e-mail and name changes nothing more |
| AdminRoutes.ListUsers | server/routes/admin.js:61-64 | the user listing holds each stored user once, in id order, each as a record without token or expiry fields |
| ResumeModel.ParseStatus | server/models/Resume.js:29-33 | exactly the five enum names are accepted, and each is read back as the status with that name |
| ResumeModel.StatusRoundTrip | server/models/Resume.js:29-33 | every status's name is in the enum and parses back to that status |
| ResumeModel.NewResume | server/models/Resume.js:4-59 | a new document has the given owner and file fields and the defaults: `pending`, no score, no reviewer, empty notes, no review time, uploaded now, no tags. It passes the schema exactly when the required strings are non-empty |
| Collections.KeysInOrder | server/routes/admin.js:63 | the stored ids below a bound, each once, in increasing order |
| Collections.KeysInOrderBelow | server/routes/resumes.js:21-29 | adding a key at or above the bound leaves the ordered key list below the bound unchanged |
| ResumeCollection.Stored | server/routes/resumes.js:88-91 | the documents in insertion order: each stored document once, in increasing id order |
| ResumeCollection.StoredAfterInsert | server/routes/resumes.js:19-29 | inserting under the next id keeps the collection valid and appends the document to the stored order |
| ResumeCollection.Select | server/routes/resumes.js:72-91 | the filter keeps exactly the documents matching the status and owner conditions, as a sub-multiset of its input |
| ResumeCollection.SelectConcat | server/routes/resumes.js:88-91 | filtering distributes over concatenation |
| ResumeCollection.HeadIsNewest | server/routes/resumes.js:91 | in a newest-first list the head is at least as new as every later document |
| ResumeCollection.InsertByUpload | server/routes/resumes.js:91 | inserting into a newest-first list keeps it newest-first and adds exactly that document |
| ResumeCollection.NewestFirst | server/routes/resumes.js:56 | `sort({uploadedAt: -1})` yields a newest-first permutation of its input |
| ResumeCollection.Find | server/routes/resumes.js:55-56 | `find(query).sort(...)` returns newest first exactly the stored documents matching the query, each once |
| ResumeCollection.Count | server/routes/resumes.js:96 | `countDocuments` equals the length of the matching list |
| ResumeCollection.FindAfterInsert | server/routes/resumes.js:19-29 | a new document joins exactly the queries it matches; nothing else in any result changes |
| ResumeCollection.ResumeStore.Insert | server/routes/resumes.js:19-31 | `save()` of a new document stores it under the next id exactly when it passes the schema; a refused document changes nothing |
| ResumeCollection.ResumeStore.Save | server/routes/resumes.js:188 | `save()` of a stored document replaces it exactly when it passes the schema; a refused one changes nothing |
| ResumeCollection.ResumeStore.Remove | server/routes/resumes.js:235 | `findByIdAndDelete` removes only that document |
| ResumeRoutes.Upload | server/routes/resumes.js:15-49 | without a file the reply is 400 and nothing changes. Otherwise one `pending` document owned by the requester is added under the next id, or a schema refusal gives 500 with nothing stored |
| ResumeRoutes.MyResumes | server/routes/resumes.js:55-57 | the requester's list holds exactly the requester's documents, newest upload first |
| ResumeRoutes.UploadShowsInOwnList | server/routes/resumes.js:19-29 | an upload adds itself once to its owner's list and to no other user's, and nothing else in any list changes |
| ResumeRoutes.TotalPages | server/routes/resumes.js:100 | `ceil(total/limit)`: the least page count whose pages hold every document, zero exactly for an empty set, and null for a limit of 0 |
| ResumeRoutes.PageOf | server/routes/resumes.js:92-94 | a page holds the documents at positions `(page-1)*limit` onward: `limit` of them, or what is left when fewer remain. It is empty past the end, and a limit of 0 gives the whole listing |
| ResumeRoutes.PageHoldsEveryDocument | server/routes/resumes.js:92-100 | every document of the filtered list appears on some page numbered within `totalPages` |
| ResumeRoutes.PagePastEndIsEmpty | server/routes/resumes.js:92-100 | a page numbered beyond `totalPages` is empty |
| ResumeRoutes.ListAll | server/routes/resumes.js:66-108 | `/all` returns one page of the status- and search-filtered list, newest first, with the total of the whole filtered set and `ceil(total/limit)` pages. It is 500 exactly when page 0 asks for a negative skip |
| ResumeRoutes.UnknownStatusListsNothing | server/routes/resumes.js:72-74 | a status filter naming no enum value matches no document |
| ResumeRoutes.GetOne | server/routes/resumes.js:111-126 | the stored document for a known id, 404 otherwise |
| ResumeRoutes.DownloadFile | server/routes/resumes.js:131-148 | a missing document is 404 and a requester who is neither owner nor admin gets 403. For an allowed requester a file missing from disk is 404; otherwise the stored file is sent under its original name |
| ResumeRoutes.Reviewed | server/routes/resumes.js:170-186 | a review sets status, reviewer and review time; score, notes and tags change only when supplied, and every other field is kept |
| ResumeRoutes.ReviewTwiceIsReviewOnce | server/routes/resumes.js:170-188 | applying the same review twice at the same time is the same as applying it once |
| ResumeRoutes.Notify | server/routes/resumes.js:191-203 | the status mail goes to the owner's address with the status subject and message. It is delivered iff the owner exists, the provider is configured and it accepts. It carries a notes paragraph iff the request set non-empty review notes; an owner who is gone makes the attempt fail |
| ResumeRoutes.Review | server/routes/resumes.js:155-219 | an unknown status is 400 and a missing document 404, both changing nothing. A save the schema refuses (score out of bounds) is 500 with nothing changed. Otherwise the reviewed document replaces the stored one, and a mail is attempted iff the status changed; its outcome never changes the reply |
| ResumeRoutes.ReviewWithoutScoreSaves | server/routes/resumes.js:170-188 | a review that supplies no score never fails the schema check |
| ResumeRoutes.Delete | server/routes/resumes.js:225-239 | a missing document is 404; otherwise it is removed and no other document changes |
| EmailService.HexEncode | server/services/emailService.js:15 | hex encoding gives two lower-case hex digits per byte |
| EmailService.HexRoundTrip | server/services/emailService.js:15 | decoding the hex text of bytes gives the bytes back |
| EmailService.HexInjective | server/services/emailService.js:15 | distinct random byte strings give distinct tokens |
| EmailService.MagicLinkToken | server/services/emailService.js:14-16 | the token is exactly 64 lower-case hex digits, all safe in a URL query |
| EmailService.MagicLink | server/services/emailService.js:22 | the link is the front-end address, then `/auth/verify?token=`, then the token |
| EmailService.Send | server/services/emailService.js:5-11 | a missing API key fails, then a missing sender address fails, before anything is sent. A provider failure is passed on; otherwise the mail goes out from the configured sender |
| EmailService.SendMagicLink | server/services/emailService.js:19-55 | the login mail goes to the given address with the login subject and the magic link, and any failure is passed on to the caller |
| EmailService.StatusMessage | server/services/emailService.js:62-67 | the four table entries, and only they, get a message other than the generic one |
| EmailService.MessagesTellStatusesApart | server/services/emailService.js:62-77 | the five statuses get five different messages: `pending` the generic one, the other four their own |
| EmailService.StatusSubject | server/services/emailService.js:72 | the subject is `Resume Status Update: ` followed, position by position, by the upper-cased status with its first `_` turned into a blank |
| EmailService.SubjectsTellStatusesApart | server/services/emailService.js:72 | different statuses of the enum get different subjects |
| EmailService.StatusSubjectOfNeedsRevision | server/services/emailService.js:72 | `needs_revision` gives the subject `Resume Status Update: NEEDS REVISION` |
| EmailService.NotesParagraph | server/services/emailService.js:78 | the notes paragraph is present exactly when the notes are non-empty, and quotes them verbatim |
| EmailService.SendStatusNotification | server/services/emailService.js:58-95 | the status mail carries the status subject, the table message and a notes paragraph iff there are notes; failures are passed on |
| Text.ToLower | server/routes/auth.js:20 | `toLowerCase` keeps the length and leaves no upper-case letter |
| Text.ToUpper | server/services/emailService.js:72 | `toUpperCase` keeps the length and leaves no lower-case letter |
| Text.Trim | client/src/components/ResumeReviewModal.tsx:74 | `trim` gives a text with no white space at either end |
| Text.TrimIsSlice | client/src/components/ResumeReviewModal.tsx:74 | what `trim` removes is white space at the two ends; the rest is a contiguous slice of the input |
| Text.TrimOfTrimmed | client/src/components/ResumeReviewModal.tsx:74-75 | trimming a trimmed text changes nothing |
| Text.Split | client/src/components/ResumeReviewModal.tsx:75 | `split` gives at least one piece and no piece contains the separator |
| Text.SplitJoin | client/src/components/ResumeReviewModal.tsx:75 | joining the pieces of a split with the separator gives the text back |
| Text.ReplaceFirst | client/src/app/admin/page.tsx:121 | a string `replace` changes only the first occurrence and keeps every other character |
| Text.CapitalizeWords | client/src/app/admin/page.tsx:121 | `replace(/\b\w/g, toUpperCase)` upper-cases exactly the word-initial characters |
| Text.DecimalRoundTrip | client/src/app/admin/page.tsx:65 | a page number written in decimal reads back as the same number |
| StatusDisplay.StatusColor | client/src/app/admin/page.tsx:105-118 | approved, needs_revision, rejected and under_review get their own classes, and every other string gets `status-pending` |
| StatusDisplay.ColorsTellStatusesApart | client/src/app/dashboard/page.tsx:94-107 | different statuses of the enum get different classes |
| StatusDisplay.StatusText | client/src/app/admin/page.tsx:120-122 | the label has the status's length and a blank at the first `_`. Every other character is the status's own, upper-cased exactly where a word starts once that blank is in place |
| StatusDisplay.LabelsTellStatusesApart | client/src/app/admin/page.tsx:120-122 | different statuses of the enum get different labels |
| StatusDisplay.LabelHasNoUnderscore | client/src/components/ResumeList.tsx:59-61 | a status with at most one `_` has none left in its label |
| StatusDisplay.LabelOfUnderReview | client/src/app/admin/page.tsx:120-122 | `under_review` is labelled `Under Review` |
| StatusDisplay.LabelOfPending | client/src/app/dashboard/page.tsx:109-111 | `pending` is labelled `Pending` |
| StatusDisplay.ShownScoreInRange | client/src/app/admin/page.tsx:298 | a shown score of a stored document lies between 1 and 100 |
| StatusDisplay.ScoreBadgeAsWritten | client/src/app/dashboard/page.tsx:275 | as written, a missing score renders nothing, a truthy score the badge with that score, and a score of 0 the bare text "0" |
| StatusDisplay.ZeroScoreRendersStrayZero | client/src/components/ResumeList.tsx:98 | as written, a score of 0 renders the text "0" in the badge slot |
| StatusDisplay.ScoreBadgeSlot | client/src/components/ResumeList.tsx:98 | as intended, the badge appears exactly for a truthy score and there is never a bare text node; this differs from as written only for a score of 0 |
| StatusDisplay.CountIn | client/src/app/admin/page.tsx:189-209 | a counter is at most the list's length, 0 exactly when no entry has a wanted status, and the full length exactly when all entries do |
| StatusDisplay.CountConcat | client/src/app/admin/page.tsx:189-209 | the count over a concatenation is the sum of the counts over its parts |
| StatusDisplay.CountAppend | client/src/app/admin/page.tsx:189-209 | appending a document raises the count by one exactly when its status is wanted, so the count is the number of documents with a wanted status |
| StatusDisplay.CountDisjointUnion | client/src/app/dashboard/page.tsx:194 | counting two disjoint status groups together is the sum of counting them apart |
| StatusDisplay.CountsCoverList | server/models/Resume.js:29-33 | the five per-status counts of a list add up to its length |
| ReviewForm.InitialForm | client/src/components/ResumeReviewModal.tsx:36-39 | the form opens with the stored status and notes, with the stored score only when it is truthy, and with the stored tags joined by `, ` |
| ReviewForm.CleanTags | client/src/components/ResumeReviewModal.tsx:75 | trimming pieces and dropping empty ones leaves only non-empty, trimmed, comma-free tags, no more than there were pieces |
| ReviewForm.CleanTagsOfPiece | client/src/components/ResumeReviewModal.tsx:75 | one piece gives its trimmed text as a tag, or no tag when nothing is left after trimming |
| ReviewForm.CleanTagsConcat | client/src/components/ResumeReviewModal.tsx:75 | pieces are cleaned one by one and in order: cleaning a concatenation concatenates the cleaned parts |
| ReviewForm.ParseTags | client/src/components/ResumeReviewModal.tsx:75 | every submitted tag is non-empty, trimmed and comma-free, and there are no more tags than comma-separated pieces |
| ReviewForm.TagsRoundTrip | client/src/components/ResumeReviewModal.tsx:39-75 | parsing the opened tag field `tags.join(', ')` gives back the stored tags, when each is non-empty, trimmed and comma-free |
| ReviewForm.Payload | client/src/components/ResumeReviewModal.tsx:71-76 | the status is always sent. The score is sent iff the field is filled. Notes are sent trimmed, and only when something is left. Tags are always sent, as the parsed and cleaned list of the tags field |
| ReviewForm.ZeroScoreLeftOut | client/src/components/ResumeReviewModal.tsx:37-73 | a stored score of 0 opens as an empty field and is left out of the request |
| ReviewForm.ResubmitChangesOnlyReviewStamp | client/src/components/ResumeReviewModal.tsx:36-76 | submitting the form as opened keeps status (so no mail), score, notes and tags, and changes only reviewer and review time |
| AdminPage.QueryParams | client/src/app/admin/page.tsx:64-75 | the query always carries `page` and `limit=10`, plus `status` and `search` only when non-empty |
| AdminPage.Lookup | client/src/app/admin/page.tsx:64-75 | reading a query key finds a pair with that key, and nothing exactly when there is none |
| AdminPage.ServerReadsPageQuery | server/routes/resumes.js:69 | the server reads back the page number, a limit of 10, and the status and search exactly as the page sent them, absent when they were empty |
| AdminPage.PreviousPage | client/src/app/admin/page.tsx:328 | Previous gives the larger of 1 and the page before, so it never goes below page 1 |
| AdminPage.NextPage | client/src/app/admin/page.tsx:335 | Next gives the smaller of the last page and the page after, so it never goes past the last page |
| AdminPage.PagingFromOutOfRange | client/src/app/admin/page.tsx:223-359 | a page at or past the last one, which a filter or search change leaves in place, goes to the last page on Next; Previous from page 1 or below gives 1 |
| AdminPage.PaginationShownIffMoreThanOnePage | client/src/app/admin/page.tsx:324 | the pagination bar shows exactly when the filtered set has more than 10 documents |
| AdminPage.PagingStaysInRange | client/src/app/admin/page.tsx:328-335 | from any page in range, both buttons land on a page in range |
| AdminPage.PagingButtonsInverse | client/src/app/admin/page.tsx:352-359 | Next undoes Previous away from the first page, and Previous undoes Next away from the last page |
| AdminPage.ScoreCellOf | client/src/app/admin/page.tsx:298 | the cell shows `score/100` for a truthy score and a dash for a score of 0 or none |
| AdminPage.StatsOf | client/src/app/admin/page.tsx:183-209 | the total card is the server's total, and each counter counts its own status over the page shown: pending, under review, approved, needs revision |
| AdminPage.CountersCoverOnePage | client/src/app/admin/page.tsx:189-209 | on a listing fetched with the page's limit, the four counters add up to at most 10 whatever the total |
| DashboardPage.DashboardStatsOf | client/src/app/dashboard/page.tsx:177-196 | the total is the list length, and the "Under Review" card counts both `under_review` and `pending` resumes |
| DashboardPage.StatusCardsBelowTotal | client/src/app/dashboard/page.tsx:177-196 | approved + needs revision + under review is at most the total, equal to it exactly when no resume is rejected |
| DashboardPage.DashboardBadge | client/src/app/dashboard/page.tsx:275 | as written: the badge for a truthy score and nothing without a score, but a stray "0" for a score of 0, the only case where it differs from the intended slot |
| ResumeListView.EntryOf | client/src/components/ResumeList.tsx:44-117 | an entry shows the status class and label of its resume and the badge as written, a stray "0" included. It shows the review date iff there is one and the notes iff they are non-empty |
| ResumeListView.FreshUploadShowsNoReview | client/src/components/ResumeList.tsx:98-117 | a new upload shows no badge, no review date, no notes, and the pending class |
| ResumeListView.ReviewedEntryShowsReview | client/src/components/ResumeList.tsx:108-117 | after a review the entry shows its date and new label, and the notes when the review supplied non-empty ones |

## Left out

- JWT signing and checking, and the `auth`/`adminAuth` middleware, are not modelled. Session claims are a plain record, and the requester's id and role are inputs. `/me` and `/logout` only echo the request and are not modelled.
- `User.js` is not part of this model. The user's fields are inferred from the routes, with `isVerified` defaulting to false.
- Database failures other than the schema check on `save()` are not modelled (connection errors, cast errors of malformed ids). So the 500 branches are modelled only where the schema can refuse a save (upload and review) and for the negative skip of page 0.
- `populate`, the `-filePath` projection and the `$regex` user search of `/all` are not modelled. The search is the set of matching users, given as an input.
- Mongo's order for equal `uploadedAt` values is unspecified. The model keeps insertion order for ties.
- File storage, `fs.existsSync`, `unlinkSync` and `res.download` are not modelled, and neither is the removal of an uploaded file after a failed save. Which files exist is an input.
- The defaults of `/all` for an absent page (1) or limit (10) are not modelled. The caller always supplies both as numbers.
- The reply code 201 of a successful upload is not distinguished from other successes.
- Verify reads then saves, so two concurrent verifies of one token could both succeed. The model is sequential.
- Unicode in `toLowerCase`, `toUpperCase`, `trim` and `\b\w` is not modelled; text is ASCII.
- `parseInt` of the query's page and limit and of the form's score is not modelled, nor are non-numeric or negative values. Page and limit are natural numbers, and the score is an optional integer.
- URL encoding of query values and of the magic link is not modelled. The token is shown to need none.
- The error text a mail provider throws is a fixed constant.
- The review of a document whose owner no longer exists is modelled as a failed mail, which the route ignores.
- React rendering, hooks, toasts, date formatting and blob downloads are not modelled. The client pages contribute only the values they compute and show.
- LoginForm, the verify page, AuthContext, the home page, ResumeUpload and LoadingSpinner hold only UI state and redirects, and are not modelled.
- Text.Trim: its own contract states only that the result is trimmed and no longer than the input. That the result is the input with white space cut from both ends is stated by `Text.TrimIsSlice`.

## Findings

| source | as written | input that shows it | evidently intended | confidence | as-written member | corrected member |
|---|---|---|---|---|---|---|
| client/src/app/dashboard/page.tsx:275 | `{resume.score && (<span>…)}` renders the number 0 when the score is 0 | a resume reviewed with score 0 | no badge and no stray text for a score of 0, as the admin table's dash shows | high, not executed | StatusDisplay.ZeroScoreRendersStrayZero | StatusDisplay.ScoreBadgeSlot |
| client/src/components/ResumeList.tsx:98 | the same `{resume.score && …}` renders "0" in the user's resume list | a resume reviewed with score 0 | no badge and no stray text for a score of 0 | high, not executed | StatusDisplay.ZeroScoreRendersStrayZero | StatusDisplay.ScoreBadgeSlot |

/**
 * The resume routes: upload, the owner's list, the admin list with its filter and pagination, the
 * single-resume read, download with its owner-or-admin check, the review update with its status
 * notification, and delete. The requester's id and role stand for what the authentication middleware
 * attaches to the request; which files are on disk is an input.
 */
module ResumeRoutes {
  import opened Outcomes
  import opened Users
  import opened EmailService
  import opened ResumeModel
  import opened ResumeCollection

  const NoFile: string := "No file uploaded"
  const UploadError: string := "Error uploading resume"
  const FetchError: string := "Error fetching resumes"
  const NotFound: string := "Resume not found"
  const AccessDenied: string := "Access denied"
  const FileNotFound: string := "File not found"
  const InvalidStatus: string := "Valid status is required"
  const ReviewError: string := "Error updating resume review"
  const Deleted: string := "Resume deleted successfully"

  /** The `resume` object of the upload reply. */
  datatype UploadReceipt = UploadReceipt(id: ResumeId, originalName: string, status: Status, uploadedAt: Time)

  /**
   * `POST /upload`: without a file, 400; otherwise one new `pending` document owned by the requester,
   * unless the schema check refuses it (an empty required field), which is a 500 with nothing stored.
   */
  method Upload(store: ResumeStore, requester: UserId, file: Option<UploadedFile>, now: Time) returns (r: Reply<UploadReceipt>)
    requires store.Valid()
    modifies store
    ensures store.Valid()
    ensures file.None? ==> r == Fail(400, NoFile) && store.Db() == old(store.Db())
    ensures file.Some? && !SchemaValid(NewResume(old(store.nextId), requester, file.value, now)) ==>
      r == Fail(500, UploadError) && store.Db() == old(store.Db())
    ensures file.Some? && SchemaValid(NewResume(old(store.nextId), requester, file.value, now)) ==>
      var doc := NewResume(old(store.nextId), requester, file.value, now);
      && store.Db() == ResumeDb(old(store.records)[doc.id := doc], old(store.nextId) + 1)
      && r == Ok(UploadReceipt(doc.id, file.value.originalName, Pending, now))
  {
    if file.None? {
      return Fail(400, NoFile);
    }
    var doc := NewResume(store.nextId, requester, file.value, now);
    var saved, id := store.Insert(doc);
    if !saved {
      return Fail(500, UploadError);
    }
    r := Ok(UploadReceipt(id, doc.originalName, doc.status, doc.uploadedAt));
  }

  /** The query `{ userId: owner }`. */
  function OwnerQuery(owner: UserId): Query
  {
    Query(None, Some({owner}))
  }

  /** `GET /my-resumes`: exactly the requester's documents, newest upload first. */
  function MyResumes(db: ResumeDb, requester: UserId): (r: seq<Resume>)
    requires ResumeDbValid(db)
    ensures NewestFirstSorted(r)
    ensures forall x :: x in r <==> x in db.records.Values && x.userId == requester
  {
    Find(db, OwnerQuery(requester))
  }

  /** An upload shows up once in its owner's list and in no one else's; the rest of every list is as before. */
  lemma UploadShowsInOwnList(db: ResumeDb, doc: Resume, owner: UserId)
    requires ResumeDbValid(db) && doc.id == db.nextId && SchemaValid(doc)
    ensures ResumeDbValid(ResumeDb(db.records[doc.id := doc], db.nextId + 1))
    ensures multiset(MyResumes(ResumeDb(db.records[doc.id := doc], db.nextId + 1), owner))
         == multiset(MyResumes(db, owner)) + (if doc.userId == owner then multiset{doc} else multiset{})
  {
    FindAfterInsert(db, doc, OwnerQuery(owner));
  }

  /**
   * The query of `GET /all`: the status filter when `status` is non-empty, and the owner restriction when a
   * search was given (`searchMatches` is the set of users whose name or e-mail matches it).
   */
  function AdminQuery(status: string, searchMatches: Option<set<UserId>>): Query
  {
    Query(if status == "" then None else Some(status), searchMatches)
  }

  /** `Math.ceil(total / limit)`; a limit of 0 gives `Infinity` or `NaN`, which the JSON reply carries as `null`. */
  function TotalPages(total: nat, limit: nat): (pages: Option<nat>)
    ensures pages.None? <==> limit == 0
    ensures pages.Some? ==> pages.value * limit >= total
    ensures pages.Some? && pages.value > 0 ==> (pages.value - 1) * limit < total
    ensures pages.Some? ==> (pages.value == 0 <==> total == 0)
  {
    if limit == 0 then None else Some((total + limit - 1) / limit)
  }

  /** `.skip((page - 1) * limit).limit(limit)` on the sorted documents; a limit of 0 means no limit. */
  function PageOf(all: seq<Resume>, page: nat, limit: nat): (r: seq<Resume>)
    requires page >= 1
    ensures limit > 0 ==> |r| <= limit
    ensures forall i :: 0 <= i < |r| ==> (page - 1) * limit + i < |all| && r[i] == all[(page - 1) * limit + i]
    ensures (page - 1) * limit >= |all| ==> r == []
    ensures limit == 0 ==> r == all
    ensures (page - 1) * limit <= |all| ==>
      |r| == if limit == 0 || |all| - (page - 1) * limit < limit then |all| - (page - 1) * limit else limit
  {
    var skip := (page - 1) * limit;
    assert limit == 0 ==> skip == 0;
    if skip >= |all| then []
    else if limit == 0 || skip + limit >= |all| then all[skip..]
    else all[skip..skip + limit]
  }

  /** Every document of the listing is the `(i % limit)`-th entry of page `i / limit + 1`, which is within the page count. */
  lemma PageHoldsEveryDocument(all: seq<Resume>, limit: nat, i: nat)
    requires limit > 0 && i < |all|
    ensures var page := i / limit + 1;
      && i % limit < |PageOf(all, page, limit)|
      && PageOf(all, page, limit)[i % limit] == all[i]
      && page <= TotalPages(|all|, limit).value
  {
    var q, m := i / limit, i % limit;
    assert i == q * limit + m && m < limit;
    var p := PageOf(all, q + 1, limit);
    assert q * limit < |all|;
    assert |p| > m;
    var n := TotalPages(|all|, limit).value;
    if n <= q {
      MulMonotone(n, q, limit);
    }
  }

  lemma MulMonotone(a: nat, b: nat, c: nat)
    requires a <= b
    ensures a * c <= b * c
  {
  }

  /** A page past the page count is empty. */
  lemma PagePastEndIsEmpty(all: seq<Resume>, page: nat, limit: nat)
    requires limit > 0 && page > TotalPages(|all|, limit).value
    ensures PageOf(all, page, limit) == []
  {
    var n := TotalPages(|all|, limit).value;
    MulMonotone(n, page - 1, limit);
  }

  /** The reply of `GET /all`. */
  datatype ListPage = ListPage(resumes: seq<Resume>, totalPages: Option<nat>, currentPage: nat, total: nat)

  /**
   * `GET /all`: the filtered documents, newest first, one page of them, and the count of the whole filtered
   * set. A page of 0 asks for a negative skip, which the database refuses (500) unless the limit is 0.
   */
  function ListAll(db: ResumeDb, page: nat, limit: nat, status: string, searchMatches: Option<set<UserId>>): (r: Reply<ListPage>)
    requires ResumeDbValid(db)
    ensures r.Fail? <==> page == 0 && limit > 0
    ensures r.Fail? ==> r == Fail(500, FetchError)
    ensures r.Ok? ==>
      var all := Find(db, AdminQuery(status, searchMatches));
      && r.body.total == |all|
      && r.body.totalPages == TotalPages(|all|, limit)
      && r.body.currentPage == page
      && r.body.resumes == PageOf(all, if page == 0 then 1 else page, limit)
    ensures r.Ok? ==> forall x :: x in r.body.resumes ==>
      && x in db.records.Values
      && (status != "" ==> StatusName(x.status) == status)
      && (searchMatches.Some? ==> x.userId in searchMatches.value)
  {
    if page == 0 && limit > 0 then Fail(500, FetchError)
    else
      var q := AdminQuery(status, searchMatches);
      var all := Find(db, q);
      var shown := PageOf(all, if page == 0 then 1 else page, limit);
      assert forall x :: x in shown ==> x in all;
      Ok(ListPage(shown, TotalPages(Count(db, q), limit), page, Count(db, q)))
  }

  /** A status filter that names no status matches nothing. */
  lemma UnknownStatusListsNothing(db: ResumeDb, page: nat, limit: nat, status: string, searchMatches: Option<set<UserId>>)
    requires ResumeDbValid(db) && status != "" && status !in StatusNames && page >= 1
    ensures ListAll(db, page, limit, status, searchMatches).Ok?
    ensures ListAll(db, page, limit, status, searchMatches).body.total == 0
  {
    var all := Find(db, AdminQuery(status, searchMatches));
    if |all| > 0 {
      var x := all[0];
      assert x in all;
      StatusRoundTrip(x.status);
    }
  }

  /** `GET /:id`. */
  function GetOne(db: ResumeDb, id: ResumeId): (r: Reply<Resume>)
    ensures r.Ok? <==> id in db.records
    ensures r.Ok? ==> r.body == db.records[id]
    ensures r.Fail? ==> r == Fail(404, NotFound)
  {
    if id in db.records then Ok(db.records[id]) else Fail(404, NotFound)
  }

  /** What `res.download` sends: the stored file, under its original name. */
  datatype Download = Download(fileName: string, originalName: string)

  /**
   * `GET /:id/download`: a missing document is 404, a requester who is neither its owner nor an admin is 403,
   * and a file missing from `filesOnDisk` is 404, in that order.
   */
  function DownloadFile(db: ResumeDb, requester: UserId, role: Role, id: ResumeId, filesOnDisk: set<string>): (r: Reply<Download>)
    ensures r.Ok? <==>
      id in db.records && (db.records[id].userId == requester || role == Admin) && db.records[id].fileName in filesOnDisk
    ensures id !in db.records ==> r == Fail(404, NotFound)
    ensures id in db.records && db.records[id].userId != requester && role != Admin ==> r == Fail(403, AccessDenied)
    ensures id in db.records && (db.records[id].userId == requester || role == Admin) && db.records[id].fileName !in filesOnDisk ==>
      r == Fail(404, FileNotFound)
    ensures r.Ok? ==> r.body == Download(db.records[id].fileName, db.records[id].originalName)
  {
    if id !in db.records then Fail(404, NotFound)
    else
      var doc := db.records[id];
      if doc.userId != requester && role != Admin then Fail(403, AccessDenied)
      else if doc.fileName !in filesOnDisk then Fail(404, FileNotFound)
      else Ok(Download(doc.fileName, doc.originalName))
  }

  /** The body of `PUT /:id/review`; a field left out of the JSON is `Keep`, and a missing status is `""`. */
  datatype ReviewRequest = ReviewRequest(status: string, score: Patch<Option<int>>, reviewNotes: Patch<string>, tags: Patch<seq<string>>)

  /** The reviewed document: status, reviewer and review time always set; score, notes and tags only when supplied. */
  function Reviewed(doc: Resume, status: Status, reviewer: UserId, req: ReviewRequest, now: Time): (r: Resume)
    ensures r.status == status && r.reviewerId == Some(reviewer) && r.reviewedAt == Some(now)
    ensures r.score == (if req.score.Set? then req.score.value else doc.score)
    ensures r.reviewNotes == (if req.reviewNotes.Set? then req.reviewNotes.value else doc.reviewNotes)
    ensures r.tags == (if req.tags.Set? then req.tags.value else doc.tags)
    ensures && r.id == doc.id && r.userId == doc.userId && r.originalName == doc.originalName
            && r.fileName == doc.fileName && r.filePath == doc.filePath && r.fileSize == doc.fileSize
            && r.mimeType == doc.mimeType && r.uploadedAt == doc.uploadedAt
  {
    doc.(status := status, reviewerId := Some(reviewer), reviewedAt := Some(now),
         score := Patched(req.score, doc.score),
         reviewNotes := Patched(req.reviewNotes, doc.reviewNotes),
         tags := Patched(req.tags, doc.tags))
  }

  /** Sending the same review again at the same time changes nothing more. */
  lemma ReviewTwiceIsReviewOnce(doc: Resume, status: Status, reviewer: UserId, req: ReviewRequest, now: Time)
    ensures Reviewed(Reviewed(doc, status, reviewer, req, now), status, reviewer, req, now) == Reviewed(doc, status, reviewer, req, now)
  {
  }

  /** The `notes` argument of the status mail: the request's notes, or `''` when they were left out. */
  function NotesArgument(notes: Patch<string>): string
  {
    Patched(notes, "")
  }

  const OwnerMissing: string := "owner not found"

  /**
   * The status mail to the document's owner, as `populate` finds it in the user collection; an owner that
   * is gone makes the attempt fail, which the route ignores like any other send error.
   */
  function Notify(users: UserDb, owner: UserId, status: string, notes: Patch<string>,
                  config: MailConfig, frontendUrl: string, providerFails: bool): (d: Delivery)
    ensures owner !in users.users ==> d == Failed(OwnerMissing)
    ensures owner in users.users ==>
      (d.Delivered? <==> config.apiKey != "" && config.fromEmail != "" && !providerFails)
    ensures owner in users.users && d.Delivered? ==>
      d.mail.to == users.users[owner].email && d.mail.subject == StatusSubject(status)
    ensures d.Delivered? ==>
      && d.mail.body.StatusBody?
      && d.mail.body.message == StatusMessage(status)
      && (d.mail.body.notes.Some? <==> notes.Set? && notes.value != "")
  {
    if owner !in users.users then Failed(OwnerMissing)
    else
      var u := users.users[owner];
      SendStatusNotification(config, frontendUrl, u.email, u.name, status, NotesArgument(notes), providerFails)
  }

  /**
   * `PUT /:id/review`. A missing or unknown status is 400 and a missing document 404, both with nothing
   * changed. Otherwise the reviewed document is saved (a score out of bounds fails the save: 500, nothing
   * changed), and a status mail is attempted exactly when the status changed; its outcome never changes
   * the reply.
   */
  method Review(store: ResumeStore, users: UserDb, id: ResumeId, reviewer: UserId, req: ReviewRequest, now: Time,
                config: MailConfig, frontendUrl: string, providerFails: bool)
    returns (r: Reply<Resume>, sent: Option<Delivery>)
    requires store.Valid()
    modifies store
    ensures store.Valid() && store.nextId == old(store.nextId)
    ensures ParseStatus(req.status).None? ==> r == Fail(400, InvalidStatus) && sent.None? && store.records == old(store.records)
    ensures ParseStatus(req.status).Some? && id !in old(store.records) ==>
      r == Fail(404, NotFound) && sent.None? && store.records == old(store.records)
    ensures ParseStatus(req.status).Some? && id in old(store.records) ==>
      var doc := old(store.records)[id];
      var doc' := Reviewed(doc, ParseStatus(req.status).value, reviewer, req, now);
      && (!SchemaValid(doc') ==> r == Fail(500, ReviewError) && sent.None? && store.records == old(store.records))
      && (SchemaValid(doc') ==> store.records == old(store.records)[id := doc'] && r == Ok(doc'))
      && (SchemaValid(doc') ==> (sent.Some? <==> doc.status != doc'.status))
      && (sent.Some? ==> sent.value == Notify(users, doc.userId, req.status, req.reviewNotes, config, frontendUrl, providerFails))
  {
    sent := None;
    var status := ParseStatus(req.status);
    if status.None? {
      return Fail(400, InvalidStatus), sent;
    }
    if id !in store.records {
      return Fail(404, NotFound), sent;
    }
    var doc := store.records[id];
    var oldStatus := doc.status;
    doc := doc.(status := status.value, reviewerId := Some(reviewer), reviewedAt := Some(now));
    if req.score.Set? {
      doc := doc.(score := req.score.value);
    }
    if req.reviewNotes.Set? {
      doc := doc.(reviewNotes := req.reviewNotes.value);
    }
    if req.tags.Set? {
      doc := doc.(tags := req.tags.value);
    }
    var saved := store.Save(doc);
    if !saved {
      return Fail(500, ReviewError), sent;
    }
    if oldStatus != status.value {
      sent := Some(Notify(users, doc.userId, req.status, req.reviewNotes, config, frontendUrl, providerFails));
    }
    r := Ok(doc);
  }

  /** A schema-valid document stays valid under a review that supplies no score, whatever else it carries. */
  lemma ReviewWithoutScoreSaves(doc: Resume, status: Status, reviewer: UserId, req: ReviewRequest, now: Time)
    requires SchemaValid(doc) && req.score.Keep?
    ensures SchemaValid(Reviewed(doc, status, reviewer, req, now))
  {
  }

  /** `DELETE /:id`: a missing document is 404; otherwise it is removed and no other document changes. */
  method Delete(store: ResumeStore, id: ResumeId) returns (r: Reply<string>)
    requires store.Valid()
    modifies store
    ensures store.Valid() && store.nextId == old(store.nextId)
    ensures id !in old(store.records) ==> r == Fail(404, NotFound) && store.records == old(store.records)
    ensures id in old(store.records) ==> r == Ok(Deleted) && store.records == old(store.records) - {id}
  {
    if id !in store.records {
      return Fail(404, NotFound);
    }
    store.Remove(id);
    r := Ok(Deleted);
  }
}

/**
 * The resume document of `server/models/Resume.js`: its five-value status, the score bounds, the
 * required fields and the defaults a new document receives.
 */
module ResumeModel {
  import opened Outcomes
  import opened Users

  type ResumeId = nat

  /** The `status` enum. */
  datatype Status = Pending | UnderReview | Approved | NeedsRevision | Rejected

  function StatusName(s: Status): string
  {
    match s
    case Pending => "pending"
    case UnderReview => "under_review"
    case Approved => "approved"
    case NeedsRevision => "needs_revision"
    case Rejected => "rejected"
  }

  const StatusNames: set<string> := {"pending", "under_review", "approved", "needs_revision", "rejected"}

  /** The enum check: exactly the five names are statuses, and each reads back as its own name. */
  function ParseStatus(s: string): (r: Option<Status>)
    ensures r.Some? <==> s in StatusNames
    ensures r.Some? ==> StatusName(r.value) == s
  {
    if s == "pending" then Some(Pending)
    else if s == "under_review" then Some(UnderReview)
    else if s == "approved" then Some(Approved)
    else if s == "needs_revision" then Some(NeedsRevision)
    else if s == "rejected" then Some(Rejected)
    else None
  }

  /** Every status parses back from its name, so the names are distinct. */
  lemma StatusRoundTrip(st: Status)
    ensures StatusName(st) in StatusNames && ParseStatus(StatusName(st)) == Some(st)
  {
  }

  /** The `default: 'pending'` of the status field. */
  const DefaultStatus: Status := Pending

  /** Score bounds: `min: 0`, `max: 100`. */
  const MinScore: int := 0
  const MaxScore: int := 100

  /** A resume document; `null` fields are `None`. */
  datatype Resume = Resume(
    id: ResumeId,
    userId: UserId,
    originalName: string,
    fileName: string,
    filePath: string,
    fileSize: nat,
    mimeType: string,
    status: Status,
    score: Option<int>,
    reviewerId: Option<UserId>,
    reviewNotes: string,
    reviewedAt: Option<Time>,
    uploadedAt: Time,
    tags: seq<string>)

  predicate ScoreInRange(score: Option<int>)
  {
    score.None? || MinScore <= score.value <= MaxScore
  }

  /**
   * What saving a document checks: the required string fields are non-empty and the score is null or
   * within bounds. (The status cannot leave the enum here, and `userId` and `fileSize` are always present.)
   */
  predicate SchemaValid(r: Resume)
  {
    && r.originalName != "" && r.fileName != "" && r.filePath != "" && r.mimeType != ""
    && ScoreInRange(r.score)
  }

  /** The file the upload middleware hands over. */
  datatype UploadedFile = UploadedFile(originalName: string, fileName: string, path: string, size: nat, mimeType: string)

  /** A new document for `file`: the given fields, and every other field at its default. */
  function NewResume(id: ResumeId, owner: UserId, file: UploadedFile, now: Time): (r: Resume)
    ensures r.id == id && r.userId == owner && r.uploadedAt == now
    ensures r.originalName == file.originalName && r.fileName == file.fileName && r.filePath == file.path
    ensures r.fileSize == file.size && r.mimeType == file.mimeType
    ensures r.status == DefaultStatus && r.score.None? && r.reviewerId.None? && r.reviewNotes == ""
    ensures r.reviewedAt.None? && r.tags == []
    ensures SchemaValid(r) <==>
      file.originalName != "" && file.fileName != "" && file.path != "" && file.mimeType != ""
  {
    Resume(id, owner, file.originalName, file.fileName, file.path, file.size, file.mimeType,
           DefaultStatus, None, None, "", None, now, [])
  }
}

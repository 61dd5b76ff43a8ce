/**
 * The resume list of the user's page: for each resume, the status class and label, the score badge, the
 * review date when there is one and the review notes when there are any.
 */
module ResumeListView {
  import opened Outcomes
  import opened Users
  import opened ResumeModel
  import opened StatusDisplay
  import opened ResumeRoutes

  /** What one list entry shows; absent parts are `None`. */
  datatype Entry = Entry(
    title: string,
    statusClass: string,
    statusLabel: string,
    badge: BadgeSlot,
    reviewedAt: Option<Time>,
    notes: Option<string>)

  /**
   * The entry of one resume: the review date and notes appear only when present and non-empty. The badge
   * is `{resume.score && (…)}` as written, so a score of 0 shows a stray "0".
   */
  function EntryOf(doc: Resume): (e: Entry)
    ensures e.title == doc.originalName
    ensures e.statusClass == StatusColor(StatusName(doc.status))
    ensures e.statusLabel == StatusText(StatusName(doc.status))
    ensures e.badge.ScoreBadge? <==> ScoreShown(doc.score)
    ensures e.badge.ScoreBadge? ==> e.badge.score == doc.score.value
    ensures doc.score == Some(0) ==> e.badge == BareText("0")
    ensures e.reviewedAt.Some? <==> doc.reviewedAt.Some?
    ensures e.notes.Some? <==> doc.reviewNotes != ""
    ensures e.notes.Some? ==> e.notes.value == doc.reviewNotes
  {
    var name := StatusName(doc.status);
    Entry(doc.originalName, StatusColor(name), StatusText(name), ScoreBadgeAsWritten(doc.score),
          doc.reviewedAt, if doc.reviewNotes == "" then None else Some(doc.reviewNotes))
  }

  /** A fresh upload shows none of the review parts: no badge, no review date, no notes, the pending class. */
  lemma FreshUploadShowsNoReview(id: ResumeId, owner: UserId, file: UploadedFile, now: Time)
    ensures var e := EntryOf(NewResume(id, owner, file, now));
      e.badge == Nothing && e.reviewedAt.None? && e.notes.None? && e.statusClass == PendingClass
  {
  }

  /**
   * After a review the entry shows its date, the new label, and the notes when the review supplied
   * non-empty ones.
   */
  lemma ReviewedEntryShowsReview(doc: Resume, status: Status, reviewer: UserId, req: ReviewRequest, now: Time)
    ensures var e := EntryOf(Reviewed(doc, status, reviewer, req, now));
      && e.reviewedAt == Some(now)
      && e.statusLabel == StatusText(StatusName(status))
      && (req.reviewNotes.Set? && req.reviewNotes.value != "" ==> e.notes == Some(req.reviewNotes.value))
  {
  }
}

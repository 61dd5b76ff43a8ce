/**
 * The user's dashboard: the four stat cards over the user's own resumes, and the score badge of each
 * listed resume.
 */
module DashboardPage {
  import opened Outcomes
  import opened ResumeModel
  import opened StatusDisplay

  /** The cards: all resumes, approved, needing revision, and "Under Review", which also counts pending ones. */
  datatype DashboardStats = DashboardStats(total: nat, approved: nat, needsRevision: nat, underReview: nat)

  function DashboardStatsOf(rs: seq<Resume>): (s: DashboardStats)
    ensures s.total == |rs|
    ensures s.approved == CountIn(rs, {Approved}) && s.needsRevision == CountIn(rs, {NeedsRevision})
    ensures s.underReview == CountIn(rs, {UnderReview}) + CountIn(rs, {Pending})
  {
    CountDisjointUnion(rs, {UnderReview}, {Pending});
    assert {UnderReview} + {Pending} == {UnderReview, Pending};
    DashboardStats(|rs|, CountIn(rs, {Approved}), CountIn(rs, {NeedsRevision}), CountIn(rs, {UnderReview, Pending}))
  }

  /**
   * The three status cards add up to at most the total, and to exactly the total when no resume is
   * rejected: rejected resumes are counted by no card but the total.
   */
  lemma StatusCardsBelowTotal(rs: seq<Resume>)
    ensures var s := DashboardStatsOf(rs);
      && s.approved + s.needsRevision + s.underReview + CountIn(rs, {Rejected}) == s.total
      && s.approved + s.needsRevision + s.underReview <= s.total
      && (s.approved + s.needsRevision + s.underReview == s.total <==> forall i :: 0 <= i < |rs| ==> rs[i].status != Rejected)
  {
    CountsCoverList(rs);
  }

  /**
   * The score badge of a listed resume, `{resume.score && (…)}` as written: the badge for a truthy score,
   * nothing without a score, and a stray "0" for a score of 0, the one case where it differs from the
   * intended slot.
   */
  function DashboardBadge(doc: Resume): (slot: BadgeSlot)
    ensures slot.ScoreBadge? <==> ScoreShown(doc.score)
    ensures slot.ScoreBadge? ==> slot.score == doc.score.value
    ensures doc.score.None? ==> slot == Nothing
    ensures doc.score == Some(0) ==> slot == BareText("0")
    ensures slot != ScoreBadgeSlot(doc.score) <==> doc.score == Some(0)
  {
    ScoreBadgeAsWritten(doc.score)
  }
}

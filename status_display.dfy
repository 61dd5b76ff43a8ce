/**
 * The display helpers that the admin page, the dashboard and the resume list each define in the same way:
 * the CSS class and the label of a status, whether a score is shown, and the per-status counters.
 */
module StatusDisplay {
  import opened Outcomes
  import opened Text
  import opened ResumeModel

  const PendingClass: string := "status-pending"

  /** `getStatusColor`: four statuses have their own class; every other string falls to `status-pending`. */
  function StatusColor(status: string): (c: string)
    ensures c != PendingClass <==> status in {"approved", "needs_revision", "rejected", "under_review"}
  {
    if status == "approved" then "status-approved"
    else if status == "needs_revision" then "status-needs-revision"
    else if status == "rejected" then "status-rejected"
    else if status == "under_review" then "status-under-review"
    else PendingClass
  }

  /** Different statuses of the enum get different classes. */
  lemma ColorsTellStatusesApart(a: Status, b: Status)
    requires a != b
    ensures StatusColor(StatusName(a)) != StatusColor(StatusName(b))
  {
  }

  /**
   * `getStatusText`: the first `_` becomes a blank, then every word-initial character is upper-cased.
   * The label has the length of the status and, ignoring case, the same characters except that blank.
   */
  function StatusText(status: string): (t: string)
    ensures |t| == |status|
    ensures '_' in status ==> t[FirstIndexOf(status, '_')] == ' '
    ensures forall i :: 0 <= i < |status| && i != FirstIndexOf(status, '_') ==> LowerChar(t[i]) == LowerChar(status[i])
    ensures forall i :: 0 <= i < |status| && i != FirstIndexOf(status, '_') ==>
      t[i] == if WordStartsAt(ReplaceFirst(status, '_', ' '), i) then UpperChar(status[i]) else status[i]
  {
    var spaced := ReplaceFirst(status, '_', ' ');
    var t := CapitalizeWords(spaced);
    assert forall i :: 0 <= i < |status| ==> LowerChar(t[i]) == LowerChar(spaced[i]);
    t
  }

  /** Different statuses of the enum get different labels. */
  lemma LabelsTellStatusesApart(a: Status, b: Status)
    requires a != b
    ensures StatusText(StatusName(a)) != StatusText(StatusName(b))
  {
    var sa, sb := StatusName(a), StatusName(b);
    if |sa| == |sb| {
      // Only `approved` and `rejected` share a length; their first letters differ, whatever the case.
      assert {sa, sb} == {"approved", "rejected"};
      assert sa[0] != '_' && sb[0] != '_';
      assert LowerChar(sa[0]) != LowerChar(sb[0]);
      assert LowerChar(StatusText(sa)[0]) != LowerChar(StatusText(sb)[0]);
    }
  }

  /** A status with at most one `_` has none left in its label; the five statuses are such. */
  lemma LabelHasNoUnderscore(status: string)
    requires forall i, j :: 0 <= i < j < |status| ==> status[i] != '_' || status[j] != '_'
    ensures '_' !in StatusText(status)
  {
    var t := StatusText(status);
    var k := FirstIndexOf(status, '_');
    forall i | 0 <= i < |t|
      ensures t[i] != '_'
    {
      if i != k {
        assert status[i] != '_' by {
          if k < |status| {
            assert status[k] == '_';
          }
        }
      }
    }
  }

  /** For example, `under_review` is labelled `Under Review`. */
  lemma LabelOfUnderReview(status: string)
    requires status == "under_review"
    ensures StatusText(status) == "Under Review"
  {
    assert status[5] == '_' && forall i :: 0 <= i < 5 ==> status[i] != '_';
    assert FirstIndexOf(status, '_') == 5;
    var spaced := ReplaceFirst(status, '_', ' ');
    assert spaced == status[..5] + " " + status[6..];
    CapitalizedUnderReview(spaced);
  }

  lemma CapitalizedUnderReview(spaced: string)
    requires spaced == "under review"
    ensures CapitalizeWords(spaced) == "Under Review"
  {
    var t := CapitalizeWords(spaced);
    assert WordStartsAt(spaced, 0) && WordStartsAt(spaced, 6);
    assert t[0] == 'U' && t[1] == 'n' && t[2] == 'd' && t[3] == 'e' && t[4] == 'r' && t[5] == ' ';
    assert t[6] == 'R' && t[7] == 'e' && t[8] == 'v' && t[9] == 'i' && t[10] == 'e' && t[11] == 'w';
  }

  /** `pending` is labelled `Pending`. */
  lemma LabelOfPending(status: string)
    requires status == "pending"
    ensures StatusText(status) == "Pending"
  {
    assert '_' !in status;
    var t := CapitalizeWords(status);
    assert WordStartsAt(status, 0);
    assert t[0] == 'P' && t[1] == 'e' && t[2] == 'n' && t[3] == 'd' && t[4] == 'i' && t[5] == 'n' && t[6] == 'g';
  }

  /** `resume.score ? ... : ...`: a score is shown only when it is truthy, that is, present and not 0. */
  predicate ScoreShown(score: Option<int>)
  {
    score.Some? && score.value != 0
  }

  /** A shown score of a stored document lies between 1 and 100. */
  lemma ShownScoreInRange(score: Option<int>)
    requires ScoreInRange(score) && ScoreShown(score)
    ensures 1 <= score.value <= 100
  {
  }

  /** What a `{cond && <badge/>}` slot renders: nothing, a bare text node, or the score badge. */
  datatype BadgeSlot = Nothing | BareText(text: string) | ScoreBadge(score: int)

  /**
   * `{resume.score && (<span>Score: …/100</span>)}` as written: a missing score renders nothing, but a score
   * of 0 makes the expression evaluate to the number 0, which React renders as the text "0".
   */
  function ScoreBadgeAsWritten(score: Option<int>): (slot: BadgeSlot)
    ensures slot.ScoreBadge? <==> ScoreShown(score)
    ensures slot.ScoreBadge? ==> slot.score == score.value
    ensures slot == Nothing <==> score.None?
    ensures score == Some(0) ==> slot == BareText("0")
  {
    match score
    case None => Nothing
    case Some(n) => if n == 0 then BareText("0") else ScoreBadge(n)
  }

  /** A resume scored 0 shows a stray "0" where the badge would be. */
  lemma ZeroScoreRendersStrayZero()
    ensures ScoreBadgeAsWritten(Some(0)) == BareText("0")
  {
  }

  /** The badge slot as intended: the badge for a truthy score, and nothing at all otherwise. */
  function ScoreBadgeSlot(score: Option<int>): (slot: BadgeSlot)
    ensures !slot.BareText?
    ensures slot.ScoreBadge? <==> ScoreShown(score)
    ensures slot.ScoreBadge? ==> slot.score == score.value
    ensures slot == ScoreBadgeAsWritten(score) <==> score != Some(0)
  {
    if ScoreShown(score) then ScoreBadge(score.value) else Nothing
  }

  /** `resumes.filter(r => <status is one of wanted>).length`. */
  function CountIn(rs: seq<Resume>, wanted: set<Status>): (n: nat)
    ensures n <= |rs|
    ensures n == 0 <==> forall i :: 0 <= i < |rs| ==> rs[i].status !in wanted
    ensures n == |rs| <==> forall i :: 0 <= i < |rs| ==> rs[i].status in wanted
  {
    if |rs| == 0 then 0
    else
      var rest := CountIn(rs[1..], wanted);
      assert forall i :: 1 <= i < |rs| ==> rs[i] == rs[1..][i - 1];
      (if rs[0].status in wanted then 1 else 0) + rest
  }

  /** Counting over a concatenation adds the counts of the two parts. */
  lemma {:induction false} CountConcat(a: seq<Resume>, b: seq<Resume>, wanted: set<Status>)
    ensures CountIn(a + b, wanted) == CountIn(a, wanted) + CountIn(b, wanted)
  {
    if |a| == 0 {
      assert a + b == b;
    } else {
      assert (a + b)[0] == a[0] && (a + b)[1..] == a[1..] + b;
      CountConcat(a[1..], b, wanted);
    }
  }

  /** The count grows by one for each appended document with a wanted status, and by nothing otherwise. */
  lemma CountAppend(rs: seq<Resume>, x: Resume, wanted: set<Status>)
    ensures CountIn(rs + [x], wanted) == CountIn(rs, wanted) + (if x.status in wanted then 1 else 0)
  {
    CountConcat(rs, [x], wanted);
    assert CountIn([x], wanted) == (if x.status in wanted then 1 else 0) + CountIn([x][1..], wanted);
  }

  /** Counting two disjoint groups of statuses separately adds up to counting them together. */
  lemma {:induction false} CountDisjointUnion(rs: seq<Resume>, a: set<Status>, b: set<Status>)
    requires a !! b
    ensures CountIn(rs, a + b) == CountIn(rs, a) + CountIn(rs, b)
  {
    if |rs| > 0 {
      CountDisjointUnion(rs[1..], a, b);
    }
  }

  /** Every document has one of the five statuses, so the five counters add up to the length of the list. */
  lemma {:induction false} CountsCoverList(rs: seq<Resume>)
    ensures CountIn(rs, {Pending}) + CountIn(rs, {UnderReview}) + CountIn(rs, {Approved})
          + CountIn(rs, {NeedsRevision}) + CountIn(rs, {Rejected}) == |rs|
  {
    if |rs| > 0 {
      CountsCoverList(rs[1..]);
      match rs[0].status
      case Pending =>
      case UnderReview =>
      case Approved =>
      case NeedsRevision =>
      case Rejected =>
    }
  }
}

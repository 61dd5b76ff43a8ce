/**
 * The admin page: the query string of its resume request, the Previous/Next page clamps, the score
 * cell of the table and the per-status counters over the page it shows.
 */
module AdminPage {
  import opened Outcomes
  import opened Text
  import opened Users
  import opened ResumeModel
  import opened ResumeCollection
  import opened ResumeRoutes
  import opened StatusDisplay

  /** The `limit: '10'` the page always asks for. */
  const PageSize: nat := 10
  const PageSizeText: string := "10"

  type Param = (string, string)

  /** `URLSearchParams` of `fetchResumes`: `page` and `limit` always, then `status` and `search` when non-empty. */
  function QueryParams(page: nat, status: string, search: string): (ps: seq<Param>)
    ensures |ps| == 2 + (if status != "" then 1 else 0) + (if search != "" then 1 else 0)
    ensures ps[0].0 == "page" && ps[1] == ("limit", PageSizeText)
  {
    [("page", NatToDecimal(page)), ("limit", PageSizeText)]
    + (if status != "" then [("status", status)] else [])
    + (if search != "" then [("search", search)] else [])
  }

  /** The value the server reads for `key`: the first pair with that name. */
  function Lookup(ps: seq<Param>, key: string): (v: Option<string>)
    ensures v.None? <==> forall i :: 0 <= i < |ps| ==> ps[i].0 != key
    ensures v.Some? ==> exists i :: 0 <= i < |ps| && ps[i] == (key, v.value)
  {
    if |ps| == 0 then None
    else if ps[0].0 == key then Some(ps[0].1)
    else
      var v := Lookup(ps[1..], key);
      assert forall i :: 1 <= i < |ps| ==> ps[i] == ps[1..][i - 1];
      v
  }

  /** A query value as the route destructures it: an absent one is falsy, like the empty string. */
  function QueryValue(v: Option<string>): string
  {
    match v
    case None => ""
    case Some(s) => s
  }

  lemma PageSizeTextValue()
    ensures AllDigits(PageSizeText) && ParseDecimal(PageSizeText) == PageSize
  {
    assert PageSizeText[..1] == "1" && PageSizeText[..1][..0] == [];
  }

  /**
   * The server reads back what the page sent: its page number, a limit of 10, and the same status filter
   * and search text, absent exactly when the page left them empty.
   */
  lemma ServerReadsPageQuery(page: nat, status: string, search: string)
    ensures var ps := QueryParams(page, status, search);
      && Lookup(ps, "page") == Some(NatToDecimal(page)) && ParseDecimal(NatToDecimal(page)) == page
      && Lookup(ps, "limit") == Some(PageSizeText) && ParseDecimal(PageSizeText) == PageSize
      && (Lookup(ps, "status").Some? <==> status != "") && QueryValue(Lookup(ps, "status")) == status
      && (Lookup(ps, "search").Some? <==> search != "") && QueryValue(Lookup(ps, "search")) == search
  {
    DecimalRoundTrip(page);
    PageSizeTextValue();
    var ps := QueryParams(page, status, search);
    var tail := ps[2..];
    assert forall i :: 0 <= i < |tail| ==> tail[i] == ps[i + 2];
    assert ps == [ps[0], ps[1]] + tail;
    assert ps[1..] == [ps[1]] + tail && ps[1..][1..] == tail;
    if status != "" {
      assert tail[0] == ("status", status);
    }
    if search != "" {
      assert tail[|tail| - 1] == ("search", search);
      if status != "" {
        assert tail[1..][0] == ("search", search);
      }
    }
  }

  /** The pagination bar appears only when there is more than one page. */
  predicate PaginationShown(totalPages: nat)
  {
    totalPages > 1
  }

  /** The bar is shown exactly when the filtered set does not fit on one page of 10. */
  lemma PaginationShownIffMoreThanOnePage(total: nat)
    ensures PaginationShown(TotalPages(total, PageSize).value) <==> total > PageSize
  {
  }

  /** Previous: `Math.max(1, currentPage - 1)`, the larger of 1 and the page before. */
  function PreviousPage(page: int): (p: int)
    ensures p >= 1 && p >= page - 1
    ensures p == 1 || p == page - 1
    ensures page > 1 ==> p < page
  {
    if page - 1 > 1 then page - 1 else 1
  }

  /** Next: `Math.min(totalPages, currentPage + 1)`, the smaller of the last page and the page after. */
  function NextPage(page: int, totalPages: int): (p: int)
    ensures p <= totalPages && p <= page + 1
    ensures p == totalPages || p == page + 1
    ensures page < totalPages ==> p > page
  {
    if totalPages < page + 1 then totalPages else page + 1
  }

  /**
   * Changing the filter or the search keeps the current page, so the page can lie past the last one; then
   * Next goes back to the last page, and Previous from the first page stays there.
   */
  lemma PagingFromOutOfRange(page: int, totalPages: int)
    ensures page >= totalPages ==> NextPage(page, totalPages) == totalPages
    ensures page <= 1 ==> PreviousPage(page) == 1
  {
  }

  /** From any page in range, both buttons land on a page in range. */
  lemma PagingStaysInRange(page: int, totalPages: int)
    requires 1 <= page <= totalPages
    ensures 1 <= PreviousPage(page) <= totalPages
    ensures 1 <= NextPage(page, totalPages) <= totalPages
  {
  }

  /** Next undoes Previous away from the first page, and Previous undoes Next away from the last one. */
  lemma PagingButtonsInverse(page: int, totalPages: int)
    requires 1 <= page <= totalPages
    ensures page > 1 ==> NextPage(PreviousPage(page), totalPages) == page
    ensures page < totalPages ==> PreviousPage(NextPage(page, totalPages)) == page
  {
  }

  /** A cell of the score column. */
  datatype ScoreCell = Dash | OutOfHundred(score: int)

  /** `resume.score ? `${resume.score}/100` : '-'`: a score of 0 or none shows a dash. */
  function ScoreCellOf(score: Option<int>): (c: ScoreCell)
    ensures c.Dash? <==> !ScoreShown(score)
    ensures c.OutOfHundred? ==> c.score == score.value
  {
    if ScoreShown(score) then OutOfHundred(score.value) else Dash
  }

  /** The stat cards: the server's total, and four counters taken over the list of the current page only. */
  datatype AdminStats = AdminStats(total: nat, pending: nat, underReview: nat, approved: nat, needsRevision: nat)

  function StatsOf(listing: ListPage): (s: AdminStats)
    ensures s.total == listing.total
    ensures s.pending == CountIn(listing.resumes, {Pending}) && s.underReview == CountIn(listing.resumes, {UnderReview})
    ensures s.approved == CountIn(listing.resumes, {Approved}) && s.needsRevision == CountIn(listing.resumes, {NeedsRevision})
    ensures s.pending + s.underReview + s.approved + s.needsRevision <= |listing.resumes|
  {
    var rs := listing.resumes;
    CountsCoverList(rs);
    AdminStats(listing.total, CountIn(rs, {Pending}), CountIn(rs, {UnderReview}), CountIn(rs, {Approved}),
               CountIn(rs, {NeedsRevision}))
  }

  /**
   * On a listing fetched with the page's limit, the four counters add up to at most 10, whatever the total:
   * they describe the page shown, not the whole filtered set.
   */
  lemma CountersCoverOnePage(db: ResumeDb, page: nat, status: string, searchMatches: Option<set<UserId>>)
    requires ResumeDbValid(db) && page >= 1
    ensures var r := ListAll(db, page, PageSize, status, searchMatches);
      && r.Ok?
      && var s := StatsOf(r.body);
      s.pending + s.underReview + s.approved + s.needsRevision <= PageSize
  {
  }
}

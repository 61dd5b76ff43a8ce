/**
 * The review form of the admin page: its initial field values from the stored resume, and the request
 * body `handleSubmit` builds from the fields (status always; score only when the field is filled;
 * notes trimmed, and only when something is left; tags split at commas, trimmed, empty ones dropped).
 */
module ReviewForm {
  import opened Outcomes
  import opened Text
  import opened Users
  import opened ResumeModel
  import opened StatusDisplay
  import opened ResumeRoutes

  /** The form fields; an empty score field is `None`. */
  datatype Form = Form(status: string, score: Option<int>, reviewNotes: string, tags: string)

  const TagSeparator: string := ", "

  /** The initial fields: `resume.status`, `resume.score || ''`, `resume.reviewNotes || ''`, `resume.tags.join(', ')`. */
  function InitialForm(doc: Resume): (f: Form)
    ensures f.status == StatusName(doc.status)
    ensures f.score.Some? <==> ScoreShown(doc.score)
    ensures f.score.Some? ==> f.score == doc.score
    ensures f.reviewNotes == doc.reviewNotes
    ensures f.tags == Join(doc.tags, TagSeparator)
  {
    Form(StatusName(doc.status), if ScoreShown(doc.score) then doc.score else None, doc.reviewNotes,
         Join(doc.tags, TagSeparator))
  }

  /** A tag as the form submits it: non-empty, without surrounding white space, without a comma. */
  predicate CleanTag(t: string)
  {
    t != "" && IsTrimmed(t) && ',' !in t
  }

  predicate CleanTagList(tags: seq<string>)
  {
    forall i :: 0 <= i < |tags| ==> CleanTag(tags[i])
  }

  /** `.map(tag => tag.trim()).filter(tag => tag.length > 0)` over pieces that have no comma. */
  function CleanTags(pieces: seq<string>): (tags: seq<string>)
    requires forall i :: 0 <= i < |pieces| ==> ',' !in pieces[i]
    ensures |tags| <= |pieces|
    ensures CleanTagList(tags)
  {
    if |pieces| == 0 then []
    else
      var t := Trim(pieces[0]);
      TrimKeepsCharacters(pieces[0]);
      var rest := CleanTags(pieces[1..]);
      if t == "" then rest
      else
        assert ',' !in t;
        CleanTagCons(t, rest);
        [t] + rest
  }

  lemma CleanTagCons(t: string, rest: seq<string>)
    requires CleanTag(t) && CleanTagList(rest)
    ensures CleanTagList([t] + rest)
  {
    var r := [t] + rest;
    assert forall i :: 1 <= i < |r| ==> r[i] == rest[i - 1];
  }

  /** One piece gives its trimmed text as a tag, or no tag when nothing is left after trimming. */
  lemma CleanTagsOfPiece(p: string)
    requires ',' !in p
    ensures CleanTags([p]) == if Trim(p) == "" then [] else [Trim(p)]
  {
    assert [p][1..] == [];
  }

  /** Pieces are cleaned one by one, in order: cleaning a concatenation concatenates the cleaned parts. */
  lemma {:induction false} CleanTagsConcat(a: seq<string>, b: seq<string>)
    requires forall i :: 0 <= i < |a| ==> ',' !in a[i]
    requires forall i :: 0 <= i < |b| ==> ',' !in b[i]
    ensures CleanTags(a + b) == CleanTags(a) + CleanTags(b)
    decreases |a|
  {
    if |a| == 0 {
      assert a + b == b;
    } else {
      assert (a + b)[0] == a[0] && (a + b)[1..] == a[1..] + b;
      CleanTagsConcat(a[1..], b);
    }
  }

  /** The submitted tags: `tags.split(',')`, each piece trimmed, empty ones dropped, order kept. */
  function ParseTags(field: string): (tags: seq<string>)
    ensures CleanTagList(tags)
    ensures |tags| <= |Split(field, ',')|
  {
    CleanTags(Split(field, ','))
  }

  /** A leading blank on the first piece makes no difference to the cleaned tags. */
  lemma CleanTagsLeadingBlank(p: string, ps: seq<string>)
    requires ',' !in p && forall i :: 0 <= i < |ps| ==> ',' !in ps[i]
    ensures CleanTags([[' '] + p] + ps) == CleanTags([p] + ps)
  {
    TrimLeadingBlank(p);
    assert ([[' '] + p] + ps)[1..] == ps && ([p] + ps)[1..] == ps;
  }

  /** The pieces of a text after a blank clean up to the same tags as the text's own pieces. */
  lemma CleanTagsAfterBlank(j: string)
    ensures CleanTags(Split([' '] + j, ',')) == CleanTags(Split(j, ','))
  {
    var s := [' '] + j;
    assert s[1..] == j;
    var rest := Split(j, ',');
    assert Split(s, ',') == [[' '] + rest[0]] + rest[1..];
    assert rest == [rest[0]] + rest[1..];
    CleanTagsLeadingBlank(rest[0], rest[1..]);
  }

  /** Parsing the initial tag field gives back clean stored tags: `join(', ')` and the parse are inverse. */
  lemma {:induction false} TagsRoundTrip(tags: seq<string>)
    requires CleanTagList(tags)
    ensures ParseTags(Join(tags, TagSeparator)) == tags
    decreases |tags|
  {
    if |tags| == 0 {
      ParseEmpty();
    } else if |tags| == 1 {
      ParseSingle(tags[0]);
    } else {
      var t, rest := tags[0], tags[1..];
      assert tags == [t] + rest;
      assert CleanTagList(rest);
      TagsRoundTrip(rest);
      var j := Join(rest, TagSeparator);
      JoinAfterTag(t, rest);
      assert Join(tags, TagSeparator) == t + [','] + ([' '] + j);
      ParseAfterTag(t, j);
    }
  }

  lemma ParseEmpty()
    ensures ParseTags([]) == []
  {
    assert Split([], ',') == [[]];
    assert Trim([]) == [];
  }

  lemma ParseSingle(t: string)
    requires CleanTag(t)
    ensures ParseTags(t) == [t]
  {
    SplitOfPiece(t, ',');
    TrimOfTrimmed(t);
    assert CleanTags([t]) == [t] + CleanTags([]);
  }

  lemma JoinAfterTag(t: string, rest: seq<string>)
    requires |rest| >= 1
    ensures Join([t] + rest, TagSeparator) == t + [','] + ([' '] + Join(rest, TagSeparator))
  {
    var parts := [t] + rest;
    assert parts[0] == t && parts[1..] == rest;
    var j := Join(rest, TagSeparator);
    assert Join(parts, TagSeparator) == t + TagSeparator + j;
    Regroup(t, j);
  }

  lemma Regroup(t: string, j: string)
    ensures t + TagSeparator + j == t + [','] + ([' '] + j)
  {
    assert TagSeparator == [','] + [' '];
  }

  /** A clean tag, a comma and a blank before `j` parse to that tag followed by the tags of `j`. */
  lemma ParseAfterTag(t: string, j: string)
    requires CleanTag(t)
    ensures ParseTags(t + [','] + ([' '] + j)) == [t] + ParseTags(j)
  {
    SplitAfterPiece(t, [' '] + j, ',');
    var tail := Split([' '] + j, ',');
    var pieces := [t] + tail;
    TrimOfTrimmed(t);
    assert pieces[0] == t && pieces[1..] == tail;
    assert CleanTags(pieces) == [t] + CleanTags(tail);
    CleanTagsAfterBlank(j);
  }

  /** `handleSubmit`'s request body. */
  function Payload(f: Form): (p: ReviewRequest)
    ensures p.status == f.status
    ensures p.score.Set? <==> f.score.Some?
    ensures p.score.Set? ==> p.score.value == f.score
    ensures p.reviewNotes.Set? <==> Trim(f.reviewNotes) != ""
    ensures p.reviewNotes.Set? ==> p.reviewNotes.value == Trim(f.reviewNotes) && IsTrimmed(p.reviewNotes.value)
    ensures p.tags == Set(ParseTags(f.tags)) && CleanTagList(p.tags.value)
  {
    var notes := Trim(f.reviewNotes);
    ReviewRequest(f.status,
                  if f.score.Some? then Set(f.score) else Keep,
                  if notes == "" then Keep else Set(notes),
                  Set(ParseTags(f.tags)))
  }

  /** A stored score of 0 starts as an empty field and is left out of the request. */
  lemma ZeroScoreLeftOut(doc: Resume)
    requires doc.score == Some(0)
    ensures Payload(InitialForm(doc)).score == Keep
  {
  }

  /**
   * Submitting the form as it opened, for a resume whose notes are trimmed and whose tags are clean,
   * keeps the status (so no mail is due), the score, the notes and the tags: only the reviewer and the
   * review time change.
   */
  lemma ResubmitChangesOnlyReviewStamp(doc: Resume, reviewer: UserId, now: Time)
    requires IsTrimmed(doc.reviewNotes) && CleanTagList(doc.tags)
    ensures ParseStatus(Payload(InitialForm(doc)).status) == Some(doc.status)
    ensures Reviewed(doc, doc.status, reviewer, Payload(InitialForm(doc)), now)
         == doc.(reviewerId := Some(reviewer), reviewedAt := Some(now))
  {
    StatusRoundTrip(doc.status);
    ResubmitKeepsFields(doc);
  }

  /** The request built from the opened form patches score, notes and tags to what they already are. */
  lemma ResubmitKeepsFields(doc: Resume)
    requires IsTrimmed(doc.reviewNotes) && CleanTagList(doc.tags)
    ensures var p := Payload(InitialForm(doc));
      && Patched(p.score, doc.score) == doc.score
      && Patched(p.reviewNotes, doc.reviewNotes) == doc.reviewNotes
      && Patched(p.tags, doc.tags) == doc.tags
  {
    var f := InitialForm(doc);
    TrimOfTrimmed(doc.reviewNotes);
    assert Trim(f.reviewNotes) == doc.reviewNotes;
    TagsRoundTrip(doc.tags);
    assert ParseTags(f.tags) == doc.tags;
  }
}

/**
 * The e-mail service of the server: the magic-link token (hex of 32 random bytes), the magic link,
 * the status-notification subject, message and notes paragraph, and the configuration checks made
 * before anything is handed to the mail provider. The provider itself is not modelled: whether it
 * fails is an input, and a delivered mail is returned as a value.
 */
module EmailService {
  import opened Outcomes
  import opened Text
  import opened ResumeModel

  type Byte = x: int | 0 <= x < 256

  /** `crypto.randomBytes(32)`: the number of random bytes behind a token. */
  const TokenByteCount: nat := 32

  predicate IsHexDigit(c: char) { IsDigit(c) || 'a' <= c <= 'f' }

  /** Characters that a URL query value carries without percent-encoding. */
  predicate IsUrlUnreserved(c: char)
  {
    IsUpperLetter(c) || IsLowerLetter(c) || IsDigit(c) || c == '-' || c == '_' || c == '.' || c == '~'
  }

  function HexChar(d: nat): (c: char)
    requires d < 16
    ensures IsHexDigit(c)
  {
    if d < 10 then (48 + d) as char else (87 + d) as char
  }

  function HexValue(c: char): (d: nat)
    requires IsHexDigit(c)
    ensures d < 16 && HexChar(d) == c
  {
    if IsDigit(c) then c as int - 48 else c as int - 87
  }

  /** `Buffer.toString('hex')`: two lower-case hex digits per byte, high nibble first. */
  function HexEncode(bytes: seq<Byte>): (r: string)
    ensures |r| == 2 * |bytes|
    ensures forall i :: 0 <= i < |r| ==> IsHexDigit(r[i])
  {
    if |bytes| == 0 then []
    else [HexChar(bytes[0] / 16), HexChar(bytes[0] % 16)] + HexEncode(bytes[1..])
  }

  predicate IsHexText(s: string)
  {
    |s| % 2 == 0 && forall i :: 0 <= i < |s| ==> IsHexDigit(s[i])
  }

  function HexDecode(s: string): (r: seq<Byte>)
    requires IsHexText(s)
    ensures |r| == |s| / 2
  {
    if |s| == 0 then []
    else [HexValue(s[0]) * 16 + HexValue(s[1])] + HexDecode(s[2..])
  }

  /** Decoding the hex text of a byte string gives the byte string back. */
  lemma {:induction false} HexRoundTrip(bytes: seq<Byte>)
    ensures IsHexText(HexEncode(bytes)) && HexDecode(HexEncode(bytes)) == bytes
  {
    if |bytes| > 0 {
      var s := HexEncode(bytes);
      HexRoundTrip(bytes[1..]);
      assert s[2..] == HexEncode(bytes[1..]);
      assert HexValue(s[0]) * 16 + HexValue(s[1]) == bytes[0];
    }
  }

  /** Distinct random byte strings give distinct tokens. */
  lemma HexInjective(a: seq<Byte>, b: seq<Byte>)
    requires HexEncode(a) == HexEncode(b)
    ensures a == b
  {
    HexRoundTrip(a);
    HexRoundTrip(b);
  }

  /** `generateMagicLinkToken`, with the random bytes as input: 64 lower-case hex digits, safe in a URL query. */
  function MagicLinkToken(randomBytes: seq<Byte>): (token: string)
    requires |randomBytes| == TokenByteCount
    ensures |token| == 64
    ensures forall i :: 0 <= i < |token| ==> IsHexDigit(token[i]) && IsUrlUnreserved(token[i])
  {
    HexEncode(randomBytes)
  }

  const VerifyPath: string := "/auth/verify?token="

  /** The link mailed to the user: the front-end address, the verify page, and the token as its query value. */
  function MagicLink(frontendUrl: string, token: string): (link: string)
    ensures |link| == |frontendUrl| + |VerifyPath| + |token|
    ensures link[..|frontendUrl|] == frontendUrl
    ensures link[|frontendUrl|..|frontendUrl| + |VerifyPath|] == VerifyPath
    ensures link[|frontendUrl| + |VerifyPath|..] == token
  {
    frontendUrl + VerifyPath + token
  }

  /** The two environment settings the sender needs; `""` stands for an unset variable. */
  datatype MailConfig = MailConfig(apiKey: string, fromEmail: string)

  datatype MailBody =
    | LoginBody(name: string, link: string)
    | StatusBody(name: string, message: string, notes: Option<string>, dashboardLink: string)

  datatype Mail = Mail(from: string, to: string, subject: string, body: MailBody)

  /** What became of one send: the mail handed to the provider, or the error thrown to the caller. */
  datatype Delivery = Delivered(mail: Mail) | Failed(error: string)

  const MissingApiKey: string := "SENDGRID_API_KEY is required"
  const MissingFromEmail: string := "FROM_EMAIL is required"
  /** Stands for whatever error the provider throws; its text is not modelled. */
  const ProviderError: string := "mail provider error"

  /**
   * `sendWithSendGrid`: a missing API key, then a missing sender address, fail before anything is sent;
   * otherwise the mail goes to the provider, whose failure is rethrown.
   */
  function Send(config: MailConfig, to: string, subject: string, body: MailBody, providerFails: bool): (d: Delivery)
    ensures config.apiKey == "" ==> d == Failed(MissingApiKey)
    ensures config.apiKey != "" && config.fromEmail == "" ==> d == Failed(MissingFromEmail)
    ensures d.Delivered? <==> config.apiKey != "" && config.fromEmail != "" && !providerFails
    ensures d.Delivered? ==> d.mail == Mail(config.fromEmail, to, subject, body)
  {
    if config.apiKey == "" then Failed(MissingApiKey)
    else if config.fromEmail == "" then Failed(MissingFromEmail)
    else if providerFails then Failed(ProviderError)
    else Delivered(Mail(config.fromEmail, to, subject, body))
  }

  const LoginSubject: string := "Login to Resume Review Platform"

  /** `sendMagicLink`: the login mail goes to the address exactly as the caller gave it. */
  function SendMagicLink(config: MailConfig, frontendUrl: string, email: string, token: string, name: string,
                         providerFails: bool): (d: Delivery)
    ensures d.Delivered? <==> config.apiKey != "" && config.fromEmail != "" && !providerFails
    ensures d.Delivered? ==>
      d.mail.to == email && d.mail.subject == LoginSubject && d.mail.body == LoginBody(name, MagicLink(frontendUrl, token))
  {
    Send(config, email, LoginSubject, LoginBody(name, MagicLink(frontendUrl, token)), providerFails)
  }

  const GenericStatusMessage: string := "Your resume status has been updated."

  /** The message table of `sendStatusNotification`, with the generic message for every other status. */
  function StatusMessage(status: string): (m: string)
    ensures m != GenericStatusMessage <==> status in {"approved", "needs_revision", "rejected", "under_review"}
  {
    if status == "approved" then "Congratulations! Your resume has been approved."
    else if status == "needs_revision" then "Your resume needs some revisions before approval."
    else if status == "rejected" then "Unfortunately, your resume has been rejected."
    else if status == "under_review" then "Your resume is currently under review."
    else GenericStatusMessage
  }

  /** The five statuses get five different messages: `pending` the generic one, the others their own. */
  lemma MessagesTellStatusesApart(a: Status, b: Status)
    requires a != b
    ensures StatusMessage(StatusName(a)) != StatusMessage(StatusName(b))
  {
  }

  const SubjectPrefix: string := "Resume Status Update: "

  /** The subject of a status mail: the status with its first `_` made a blank, upper-cased. */
  function StatusSubject(status: string): (subject: string)
    ensures |subject| == |SubjectPrefix| + |status|
    ensures subject[..|SubjectPrefix|] == SubjectPrefix
    ensures forall i :: |SubjectPrefix| <= i < |subject| ==> !IsLowerLetter(subject[i])
    ensures forall i :: 0 <= i < |status| ==>
      subject[|SubjectPrefix| + i] == UpperChar(if i == FirstIndexOf(status, '_') then ' ' else status[i])
  {
    var spaced := ReplaceFirst(status, '_', ' ');
    assert forall i :: 0 <= i < |status| && i == FirstIndexOf(status, '_') ==> status[i] == '_' && spaced[i] == ' ';
    SubjectPrefix + ToUpper(spaced)
  }

  /** Different statuses of the enum get different subjects. */
  lemma SubjectsTellStatusesApart(a: Status, b: Status)
    requires a != b
    ensures StatusSubject(StatusName(a)) != StatusSubject(StatusName(b))
  {
    var sa, sb := StatusName(a), StatusName(b);
    if |sa| == |sb| {
      // Only `approved` and `rejected` share a length; their first letters differ.
      assert {sa, sb} == {"approved", "rejected"};
      assert sa[0] != '_' && sb[0] != '_';
      assert UpperChar(sa[0]) != UpperChar(sb[0]);
      assert StatusSubject(sa)[|SubjectPrefix|] != StatusSubject(sb)[|SubjectPrefix|];
    }
  }

  /** For example, `needs_revision` gives the subject `Resume Status Update: NEEDS REVISION`. */
  lemma StatusSubjectOfNeedsRevision(status: string)
    requires status == "needs_revision"
    ensures StatusSubject(status) == SubjectPrefix + "NEEDS REVISION"
  {
    UpperOfNeedsRevision(status);
  }

  lemma UpperOfNeedsRevision(status: string)
    requires status == "needs_revision"
    ensures ToUpper(ReplaceFirst(status, '_', ' ')) == "NEEDS REVISION"
  {
    assert status[5] == '_' && forall i :: 0 <= i < 5 ==> status[i] != '_';
    assert FirstIndexOf(status, '_') == 5;
    var spaced := ReplaceFirst(status, '_', ' ');
    assert spaced == status[..5] + " " + status[6..];
    UpperOfNeedsBlankRevision(spaced);
  }

  lemma UpperOfNeedsBlankRevision(spaced: string)
    requires spaced == "needs revision"
    ensures ToUpper(spaced) == "NEEDS REVISION"
  {
    var u := ToUpper(spaced);
    assert u[0] == 'N' && u[1] == 'E' && u[2] == 'E' && u[3] == 'D' && u[4] == 'S' && u[5] == ' ' && u[6] == 'R';
    assert u[7] == 'E' && u[8] == 'V' && u[9] == 'I' && u[10] == 'S' && u[11] == 'I' && u[12] == 'O' && u[13] == 'N';
  }

  const NotesOpen: string := "<p><strong>Review Notes:</strong> "
  const NotesClose: string := "</p>"

  /** The review-notes paragraph: present exactly when there are notes, and quoting them verbatim. */
  function NotesParagraph(notes: string): (p: Option<string>)
    ensures p.Some? <==> notes != ""
    ensures p.Some? ==> |p.value| == |NotesOpen| + |notes| + |NotesClose|
    ensures p.Some? ==> p.value[|NotesOpen|..|NotesOpen| + |notes|] == notes
  {
    if notes == "" then None else Some(NotesOpen + notes + NotesClose)
  }

  /** `sendStatusNotification`: subject, message and notes paragraph for the new status. */
  function SendStatusNotification(config: MailConfig, frontendUrl: string, email: string, name: string,
                                  status: string, notes: string, providerFails: bool): (d: Delivery)
    ensures d.Delivered? <==> config.apiKey != "" && config.fromEmail != "" && !providerFails
    ensures d.Delivered? ==> d.mail.to == email && d.mail.subject == StatusSubject(status)
    ensures d.Delivered? ==>
      d.mail.body.StatusBody? && d.mail.body.message == StatusMessage(status) && (d.mail.body.notes.Some? <==> notes != "")
  {
    Send(config, email, StatusSubject(status),
         StatusBody(name, StatusMessage(status), NotesParagraph(notes), frontendUrl + "/dashboard"), providerFails)
  }
}

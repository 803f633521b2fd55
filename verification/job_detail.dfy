/** A job's page: the applicant count, whether the visitor has applied, which button the
    page offers, the WhatsApp contact link and the application insert. */
module JobDetail {

  import opened Js
  import Seqs
  import Text
  import Rows
  import Store

  function ForJob(jobId: string): Rows.ApplicationRow -> bool
  {
    (a: Rows.ApplicationRow) => a.jobId == jobId
  }

  function ApplicationBy(jobId: string, userId: string): Rows.ApplicationRow -> bool
  {
    (a: Rows.ApplicationRow) => a.jobId == jobId && a.userId == userId
  }

  /** The user's applications to the job. */
  function Applications(apps: seq<Rows.ApplicationRow>, jobId: string, userId: string): (r: seq<Rows.ApplicationRow>)
    ensures forall a :: a in r <==> a in apps && a.jobId == jobId && a.userId == userId
  {
    Seqs.Filter(apps, ApplicationBy(jobId, userId))
  }

  /** The applicant count: the exact count of the job's applications, `count || 0`, and the
      query's default 0 when the count query fails. */
  function ApplicantCount(apps: seq<Rows.ApplicationRow>, jobId: string, countAccepted: bool): (r: nat)
    ensures !countAccepted ==> r == 0
    ensures countAccepted ==> r == |Seqs.Filter(apps, ForJob(jobId))|
  {
    if countAccepted then IntOr(Some(|Seqs.Filter(apps, ForJob(jobId))|), 0) else 0
  }

  /** `hasApplied`: a signed-in visitor with exactly one application row. The single-row
      lookup fails on two or more rows, and a failed lookup leaves the default `false`. */
  predicate HasApplied(apps: seq<Rows.ApplicationRow>, jobId: string, user: Option<string>): (r: bool)
    ensures user.None? ==> !r
    ensures r ==> user.Some? && exists a :: a in apps && a.jobId == jobId && a.userId == user.value
  {
    var mine := if user.Some? then Applications(apps, jobId, user.value) else [];
    assert mine != [] ==> mine[0] in mine;
    user.Some? && |mine| == 1
  }

  /** The three states of the button at the bottom of the page. */
  datatype ApplyButton = AlreadyApplied | OwnPosting | ApplyDialog

  /** Applied first, then the owner's notice, then the dialog; a visitor who is not signed in
      is never the owner. */
  function ButtonFor(hasApplied: bool, user: Option<string>, ownerId: string): (r: ApplyButton)
    ensures r == AlreadyApplied <==> hasApplied
    ensures r == OwnPosting <==> !hasApplied && user == Some(ownerId)
    ensures r == ApplyDialog <==> !hasApplied && user != Some(ownerId)
  {
    if hasApplied then AlreadyApplied
    else if user.Some? && user.value == ownerId then OwnPosting
    else ApplyDialog
  }

  /** The contact link: "https://wa.me/" followed by the digits of the number, in order. */
  function WhatsAppLink(contactWhatsapp: string): (r: string)
    ensures Text.StartsWith(r, "https://wa.me/")
    ensures forall i :: |"https://wa.me/"| <= i < |r| ==> Text.IsDigit(r[i])
    ensures Seqs.IsSubsequence(r[|"https://wa.me/"|..], contactWhatsapp)
    ensures r[|"https://wa.me/"|..] == Text.DigitsOf(contactWhatsapp)
  {
    var digits := Text.DigitsOf(contactWhatsapp);
    var r := "https://wa.me/" + digits;
    assert r[|"https://wa.me/"|..] == digits;
    assert forall i :: |"https://wa.me/"| <= i < |r| ==> r[i] == digits[i - |"https://wa.me/"|] && r[i] in digits;
    r
  }

  /** Formatting characters in the number do not change the link. */
  lemma WhatsAppIgnoresFormatting(a: string, b: string)
    requires Text.DigitsOf(a) == Text.DigitsOf(b)
    ensures WhatsAppLink(a) == WhatsAppLink(b)
  {
  }

  /** The row inserted by an application: this job, the caller, and no cover letter when the
      field is empty. */
  function ApplicationRowFor(jobId: string, userId: string, coverLetter: string, newId: string): (r: Rows.ApplicationRow)
    ensures r.id == newId && r.jobId == jobId && r.userId == userId
    ensures r.coverLetter == EmptyToNull(coverLetter)
  {
    Rows.ApplicationRow(newId, jobId, userId, EmptyToNull(coverLetter))
  }

  /** How `handleApply` ends. */
  datatype ApplyOutcome = RedirectToLogin | Failed | Applied | Duplicate

  /** `handleApply` as written: no user means the login redirect and no insert; otherwise one
      insert, without looking at `hasApplied`. */
  method ApplyAsWritten(apps: Store.Table<Rows.ApplicationRow>, jobId: string, user: Option<string>,
                        coverLetter: string, newId: string, accepted: bool)
    returns (outcome: ApplyOutcome)
    modifies apps
    ensures user.None? ==> outcome == RedirectToLogin && apps.rows == old(apps.rows)
    ensures user.Some? && !accepted ==> outcome == Failed && apps.rows == old(apps.rows)
    ensures user.Some? && accepted ==>
              outcome == Applied && apps.rows == old(apps.rows) + [ApplicationRowFor(jobId, user.value, coverLetter, newId)]
  {
    if user.None? {
      return RedirectToLogin;
    }
    if !accepted {
      return Failed;
    }
    apps.Insert(ApplicationRowFor(jobId, user.value, coverLetter, newId));
    outcome := Applied;
  }

  /** Appending one application of the user to the job adds one row to their applications. */
  lemma ApplicationsAfterInsert(apps: seq<Rows.ApplicationRow>, jobId: string, userId: string, row: Rows.ApplicationRow)
    requires row.jobId == jobId && row.userId == userId
    ensures |Applications(apps + [row], jobId, userId)| == |Applications(apps, jobId, userId)| + 1
  {
    Seqs.FilterAppend(apps, row, ApplicationBy(jobId, userId));
  }

  /** Since the applied flag is not re-read after applying, the dialog stays available and a
      second application goes through; with two rows the lookup fails and the page goes back
      to offering "Apply Now". */
  lemma SecondApplicationHidesApplied(apps: seq<Rows.ApplicationRow>, jobId: string, userId: string,
                                      first: Rows.ApplicationRow, second: Rows.ApplicationRow)
    requires |Applications(apps, jobId, userId)| == 0
    requires first.jobId == jobId && first.userId == userId
    requires second.jobId == jobId && second.userId == userId
    ensures HasApplied(apps + [first], jobId, Some(userId))
    ensures !HasApplied(apps + [first] + [second], jobId, Some(userId))
  {
    ApplicationsAfterInsert(apps, jobId, userId, first);
    ApplicationsAfterInsert(apps + [first], jobId, userId, second);
  }

  /** An accepted application raises the shown applicant count by one. */
  lemma ApplyRaisesCount(apps: seq<Rows.ApplicationRow>, jobId: string, row: Rows.ApplicationRow)
    requires row.jobId == jobId
    ensures ApplicantCount(apps + [row], jobId, true) == ApplicantCount(apps, jobId, true) + 1
  {
    Seqs.FilterAppend(apps, row, ForJob(jobId));
  }

  /** At most one application per user and job: the state in which `hasApplied` is reliable. */
  predicate OneApplicationEach(apps: seq<Rows.ApplicationRow>)
  {
    forall i, j :: 0 <= i < j < |apps| ==> !(apps[i].jobId == apps[j].jobId && apps[i].userId == apps[j].userId)
  }

  /** Under one application per user and job, a user has applied exactly when they have any
      application row. */
  lemma {:induction false} OneApplicationEachBounds(apps: seq<Rows.ApplicationRow>, jobId: string, userId: string)
    requires OneApplicationEach(apps)
    ensures |Applications(apps, jobId, userId)| <= 1
  {
    if apps != [] {
      OneApplicationEachBounds(apps[1..], jobId, userId);
      if ApplicationBy(jobId, userId)(apps[0]) {
        forall a | a in apps[1..] ensures !ApplicationBy(jobId, userId)(a) {
          var k :| 0 <= k < |apps[1..]| && apps[1..][k] == a;
          assert apps[k + 1] == a;
        }
        Seqs.FilterNone(apps[1..], ApplicationBy(jobId, userId));
      }
    }
  }

  /** While each user has at most one application per job, the page shows "applied" exactly
      for a signed-in user who has an application row. */
  lemma AppliedIffApplicationRow(apps: seq<Rows.ApplicationRow>, jobId: string, userId: string)
    requires OneApplicationEach(apps)
    ensures HasApplied(apps, jobId, Some(userId)) <==> exists a :: a in apps && a.jobId == jobId && a.userId == userId
  {
    OneApplicationEachBounds(apps, jobId, userId);
    var mine := Applications(apps, jobId, userId);
    if exists a :: a in apps && a.jobId == jobId && a.userId == userId {
      var a :| a in apps && a.jobId == jobId && a.userId == userId;
      assert a in mine;
    }
  }

  /** The application as intended: a user who already has an application to the job is not
      inserted again, so one application per user and job is kept and the applied flag holds
      after every successful application. */
  method Apply(apps: Store.Table<Rows.ApplicationRow>, jobId: string, user: Option<string>,
               coverLetter: string, newId: string, accepted: bool)
    returns (outcome: ApplyOutcome)
    modifies apps
    requires OneApplicationEach(apps.rows)
    ensures OneApplicationEach(apps.rows)
    ensures user.None? ==> outcome == RedirectToLogin && apps.rows == old(apps.rows)
    ensures outcome == Duplicate <==> user.Some? && |Applications(old(apps.rows), jobId, user.value)| != 0
    ensures outcome == Duplicate || outcome == Failed ==> apps.rows == old(apps.rows)
    ensures outcome == Failed <==> user.Some? && |Applications(old(apps.rows), jobId, user.value)| == 0 && !accepted
    ensures outcome == Applied ==>
              apps.rows == old(apps.rows) + [ApplicationRowFor(jobId, user.value, coverLetter, newId)]
    ensures user.Some? && outcome != Failed ==> HasApplied(apps.rows, jobId, user)
  {
    if user.None? {
      return RedirectToLogin;
    }
    var userId := user.value;
    if |Applications(apps.rows, jobId, userId)| != 0 {
      OneApplicationEachBounds(apps.rows, jobId, userId);
      return Duplicate;
    }
    if !accepted {
      return Failed;
    }
    var row := ApplicationRowFor(jobId, userId, coverLetter, newId);
    ghost var before := apps.rows;
    forall i | 0 <= i < |before| ensures !(before[i].jobId == jobId && before[i].userId == userId) {
      assert before[i] in before;
    }
    apps.Insert(row);
    ApplicationsAfterInsert(before, jobId, userId, row);
    outcome := Applied;
  }
}

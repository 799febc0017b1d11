/** backend/models.go and validateIssue of backend/validation.go. */
module Model {
  import opened Common
  import opened Text
  import Sanitize

  const STATUS_OPEN := "Open"
  const STATUS_DONE := "Done"
  const STATUS_ARCHIVE := "Archive"
  const PRIORITY_NORMAL := "Normal"
  const PRIORITY_HIGH := "High"

  const MAX_TITLE_LENGTH := 100
  const MAX_DESC_LENGTH := 5000
  const MAX_PLANNED_DATES := 100

  /** A UTC instant of time.Time, as its calendar fields. */
  datatype Moment = Moment(year: nat, month: nat, day: nat, hour: nat, minute: nat, second: nat, nanos: nat)

  /** One row of the issues table, and the JSON of an issue without its id. planned is nil or a list. */
  datatype Issue = Issue(
    title: string, description: string, status: string, position: int,
    deadline: Option<Moment>, planned: Option<seq<string>>, priority: string,
    labelId: Option<int>, creatorId: Option<int>, assigneeId: Option<int>, updaterId: Option<int>,
    projectId: int, releaseId: Option<int>, updatedAt: int)

  predicate IsValidStatus(s: string) {
    s in {STATUS_OPEN, "Todo", "Stage1", "Stage2", "Stage3", "Stage4", STATUS_DONE, STATUS_ARCHIVE}
  }

  predicate IsValidPriority(p: string) {
    p == PRIORITY_NORMAL || p == PRIORITY_HIGH
  }

  predicate IsDigit(c: char) { '0' <= c <= '9' }

  function DigitValue(c: char): nat
    requires IsDigit(c)
  {
    c as int - '0' as int
  }

  function DaysIn(year: nat, month: nat): nat {
    if month == 2 then (if year % 4 == 0 && (year % 100 != 0 || year % 400 == 0) then 29 else 28)
    else if month in {4, 6, 9, 11} then 30 else 31
  }

  /** Accepted by time.Parse with the layout 2006-01-02. */
  predicate IsDate(d: string) {
    && |d| == 10 && d[4] == '-' && d[7] == '-'
    && (forall i :: 0 <= i < 10 && i != 4 && i != 7 ==> IsDigit(d[i]))
    && var year := 1000 * DigitValue(d[0]) + 100 * DigitValue(d[1]) + 10 * DigitValue(d[2]) + DigitValue(d[3]);
       var month := 10 * DigitValue(d[5]) + DigitValue(d[6]);
       var day := 10 * DigitValue(d[8]) + DigitValue(d[9]);
       1 <= month <= 12 && 1 <= day <= DaysIn(year, month)
  }

  predicate IsMoment(m: Moment) {
    && m.year < 10000 && 1 <= m.month <= 12 && 1 <= m.day <= DaysIn(m.year, m.month)
    && m.hour < 24 && m.minute < 60 && m.second < 60 && m.nanos < 1_000_000_000
  }

  /** A request body after JSON decoding: its deadline is some instant. */
  predicate Decodable(i: Issue) {
    i.deadline.Some? ==> IsMoment(i.deadline.value)
  }

  /** validateIssue: the cleaned-up issue, or None for any validation error. */
  function ValidateIssue(i: Issue): (r: Option<Issue>)
    ensures r.Some? ==> r.value == i.(title := Sanitize.SanitizeString(i.title),
                                      description := Sanitize.CleanDescription(i.description))
  {
    var title := Sanitize.SanitizeString(i.title);
    var description := Sanitize.CleanDescription(i.description);
    if title == "" || |title| > MAX_TITLE_LENGTH then None
    else if |description| > MAX_DESC_LENGTH then None
    else if !IsValidStatus(i.status) then None
    else if i.priority != "" && !IsValidPriority(i.priority) then None
    else if i.position < 0 then None
    else if i.deadline.Some? && !(2000 <= i.deadline.value.year <= 2100) then None
    else if i.planned.Some? && |i.planned.value| > MAX_PLANNED_DATES then None
    else if i.planned.Some? && exists k :: 0 <= k < |i.planned.value| && !IsDate(i.planned.value[k]) then None
    else Some(i.(title := title, description := description))
  }

  /**
   * The requirements on a body: a title with something outside its tags and not too long once it is
   * cleaned, a description not too long either, and fields within their ranges.
   */
  ghost predicate Acceptable(i: Issue) {
    && (exists k :: Sanitize.Outside(TrimSpace(Sanitize.RemoveNul(i.title)), k))
    && |Sanitize.SanitizeString(i.title)| <= MAX_TITLE_LENGTH
    && |Sanitize.CleanDescription(i.description)| <= MAX_DESC_LENGTH
    && i.status in {"Open", "Todo", "Stage1", "Stage2", "Stage3", "Stage4", "Done", "Archive"}
    && i.priority in {"", "Normal", "High"} && i.position >= 0
    && (i.deadline.Some? ==> 2000 <= i.deadline.value.year <= 2100)
    && (i.planned.Some? ==> |i.planned.value| <= MAX_PLANNED_DATES && forall d :: d in i.planned.value ==> IsDate(d))
  }

  /** A body is accepted exactly if it meets them, and then only its title and description are cleaned. */
  lemma {:induction false} ValidateIssueExactly(i: Issue)
    ensures ValidateIssue(i).Some? <==> Acceptable(i)
    ensures ValidateIssue(i).Some? ==>
      ValidateIssue(i).value == i.(title := Sanitize.SanitizeString(i.title),
                                   description := Sanitize.CleanDescription(i.description))
  {
    hide IsDate;
    var t := TrimSpace(Sanitize.RemoveNul(i.title));
    var picks := Sanitize.StripTagsKeeps(t);
    assert (exists k :: Sanitize.Outside(t, k)) <==> picks != [] by {
      if picks != [] {
        assert picks[0] in picks;
      }
    }
  }

  /** What validateIssue leaves behind, and what therefore holds of every stored row. */
  ghost predicate Validated(i: Issue) {
    && Free(i.title, NUL) && !Sanitize.HasTag(i.title) && i.title != ""
    && Free(i.description, NUL) && Trimmed(i.description)
    && IsValidStatus(i.status)
    && (i.priority == "" || IsValidPriority(i.priority))
    && (i.deadline.Some? ==> IsMoment(i.deadline.value))
    && (i.planned.Some? ==> forall k :: 0 <= k < |i.planned.value| ==> IsDate(i.planned.value[k]))
  }

  lemma {:induction false} ValidateIssueValidated(i: Issue)
    requires Decodable(i) && ValidateIssue(i).Some?
    ensures Validated(ValidateIssue(i).value)
  {
    Sanitize.SanitizeClean(i.title);
    Sanitize.CleanDescriptionShape(i.description);
  }

  /**
   * Validating a stored issue again changes its title exactly if the title has white space at an
   * end, and changes nothing else.
   */
  lemma {:induction false} RevalidateStored(i: Issue)
    requires Validated(i) && ValidateIssue(i).Some?
    ensures ValidateIssue(i).value == i.(title := TrimSpace(i.title))
    ensures ValidateIssue(i).value == i <==> Trimmed(i.title)
  {
    Sanitize.SanitizeFixed(i.title);
    Sanitize.CleanDescriptionFixed(i.description);
  }
}

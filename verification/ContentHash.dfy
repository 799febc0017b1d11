/** issueContentHash of backend/handlers.go. */
module ContentHash {
  import opened Common
  import opened Text
  import opened Numbers
  import opened Model

  /** Fixed-width numbers, each followed by its separator. */
  function Stamp(fields: seq<(nat, nat, char)>): string {
    if fields == [] then "" else Padded(fields[0].0, fields[0].1) + [fields[0].2] + Stamp(fields[1..])
  }

  function MomentFields(m: Moment): seq<(nat, nat, char)> {
    [(m.year, 4, '-'), (m.month, 2, '-'), (m.day, 2, 'T'), (m.hour, 2, ':'), (m.minute, 2, ':'), (m.second, 2, 'Z')]
  }

  /** Format(time.RFC3339) of a UTC time: 2006-01-02T15:04:05Z. */
  function Rfc3339(m: Moment): string {
    Stamp(MomentFields(m))
  }

  /** %v of a []string. */
  function PlannedText(planned: Option<seq<string>>): string {
    "[" + (if planned.None? then "" else Join(planned.value, ' ')) + "]"
  }

  function IdText(id: Option<int>): string {
    Decimal(if id.None? then 0 else id.value)
  }

  function DeadlineText(deadline: Option<Moment>): string {
    if deadline.None? then "" else Rfc3339(deadline.value)
  }

  function HashFields(i: Issue): (parts: seq<string>)
    ensures |parts| == 10
  {
    [i.title, i.description, i.status, i.priority, IdText(i.labelId), IdText(i.assigneeId),
     DeadlineText(i.deadline), PlannedText(i.planned), Decimal(i.projectId), IdText(i.releaseId)]
  }

  function IssueContentHash(i: Issue): string {
    Join(HashFields(i), NUL)
  }

  /** References that passed their existence checks: no id is 0. */
  predicate RealIds(i: Issue) {
    i.labelId != Some(0) && i.assigneeId != Some(0) && i.releaseId != Some(0)
  }

  ghost predicate Hashable(i: Issue) {
    Validated(i) && RealIds(i)
  }

  /** The dates of a nil list and of an empty list are the same: none. */
  function Dates(planned: Option<seq<string>>): seq<string> {
    if planned.None? then [] else planned.value
  }

  function ToSecond(deadline: Option<Moment>): Option<Moment> {
    if deadline.None? then None else Some(deadline.value.(nanos := 0))
  }

  /** Equal in every field a content edit can change, deadlines to the second. */
  predicate SameContent(a: Issue, b: Issue) {
    && a.title == b.title && a.description == b.description && a.status == b.status
    && a.priority == b.priority && a.labelId == b.labelId && a.assigneeId == b.assigneeId
    && ToSecond(a.deadline) == ToSecond(b.deadline) && Dates(a.planned) == Dates(b.planned)
    && a.projectId == b.projectId && a.releaseId == b.releaseId
  }

  lemma {:induction false} IdTextInjective(a: Option<int>, b: Option<int>)
    requires a != Some(0) && b != Some(0) && IdText(a) == IdText(b)
    ensures a == b
  {
    DecimalInjective(if a.None? then 0 else a.value, if b.None? then 0 else b.value);
  }

  ghost predicate SameLayout(f: seq<(nat, nat, char)>, g: seq<(nat, nat, char)>) {
    && |f| == |g|
    && forall k :: 0 <= k < |f| ==> f[k].1 == g[k].1 && f[k].0 < Pow10(f[k].1) && g[k].0 < Pow10(g[k].1)
  }

  lemma {:induction false} StampInjective(f: seq<(nat, nat, char)>, g: seq<(nat, nat, char)>)
    requires SameLayout(f, g) && Stamp(f) == Stamp(g)
    ensures forall k :: 0 <= k < |f| ==> f[k].0 == g[k].0
  {
    if f != [] {
      var a, b := Padded(f[0].0, f[0].1), Padded(g[0].0, g[0].1);
      var s, t := Stamp(f), Stamp(g);
      assert s[..|a|] == a && t[..|a|] == b;
      assert s[|a| + 1..] == Stamp(f[1..]) && t[|a| + 1..] == Stamp(g[1..]);
      PaddedInjective(f[0].0, g[0].0, f[0].1);
      StampInjective(f[1..], g[1..]);
      forall k | 0 <= k < |f| ensures f[k].0 == g[k].0 {
        assert k > 0 ==> f[k] == f[1..][k - 1] && g[k] == g[1..][k - 1];
      }
    }
  }

  lemma {:induction false} StampFree(f: seq<(nat, nat, char)>, c: char)
    requires !IsDigit(c) && forall k :: 0 <= k < |f| ==> f[k].2 != c
    ensures Free(Stamp(f), c)
  {
    if f != [] {
      StampFree(f[1..], c);
    }
  }

  lemma {:induction false} SmallPowers()
    ensures Pow10(4) == 10000 && Pow10(2) == 100
  {
    assert Pow10(0) == 1 && Pow10(1) == 10 && Pow10(3) == 1000;
  }

  lemma {:induction false} Rfc3339Injective(a: Moment, b: Moment)
    requires IsMoment(a) && IsMoment(b) && Rfc3339(a) == Rfc3339(b)
    ensures a.(nanos := 0) == b.(nanos := 0)
  {
    var f, g := MomentFields(a), MomentFields(b);
    SmallPowers();
    StampInjective(f, g);
    assert f[0].0 == g[0].0 && f[1].0 == g[1].0 && f[2].0 == g[2].0;
    assert f[3].0 == g[3].0 && f[4].0 == g[4].0 && f[5].0 == g[5].0;
  }

  lemma {:induction false} DeadlineNotEmpty(m: Moment)
    ensures Rfc3339(m) != ""
  {
    assert MomentFields(m) != [];
  }

  predicate AllDates(dates: seq<string>) {
    forall k :: 0 <= k < |dates| ==> IsDate(dates[k])
  }

  lemma {:induction false} DatesInText(dates: seq<string>)
    requires AllDates(dates)
    ensures dates != [] ==> Split(Join(dates, ' '), ' ') == dates && Join(dates, ' ') != ""
  {
    if dates != [] {
      forall k | 0 <= k < |dates| ensures Free(dates[k], ' ') {
        assert IsDate(dates[k]);
      }
      SplitJoin(dates, ' ');
      assert IsDate(dates[0]);
    }
  }

  lemma {:induction false} PlannedTextInjective(a: Option<seq<string>>, b: Option<seq<string>>)
    requires AllDates(Dates(a)) && AllDates(Dates(b))
    requires PlannedText(a) == PlannedText(b)
    ensures Dates(a) == Dates(b)
  {
    var s, t := PlannedText(a), PlannedText(b);
    assert s[1..|s| - 1] == Join(Dates(a), ' ') && t[1..|t| - 1] == Join(Dates(b), ' ');
    DatesInText(Dates(a));
    DatesInText(Dates(b));
  }

  lemma {:induction false} DigitsHaveNoNul(n: int)
    ensures Free(Decimal(n), NUL)
  {
  }

  lemma {:induction false} DatesHaveNoNul(dates: seq<string>)
    requires AllDates(dates)
    ensures Free(Join(dates, ' '), NUL)
  {
    if |dates| >= 1 {
      assert IsDate(dates[0]);
      forall i | 0 <= i < 10 ensures dates[0][i] != NUL {
        assert i != 4 && i != 7 ==> IsDigit(dates[0][i]);
      }
      DatesHaveNoNul(dates[1..]);
    }
  }

  lemma {:induction false} WordsHaveNoNul(i: Issue)
    requires Validated(i)
    ensures Free(i.status, NUL) && Free(i.priority, NUL)
  {
  }

  lemma {:induction false} DatesFieldsHaveNoNul(i: Issue)
    requires Validated(i)
    ensures Free(PlannedText(i.planned), NUL) && Free(DeadlineText(i.deadline), NUL)
  {
    DatesHaveNoNul(Dates(i.planned));
    if i.deadline.Some? {
      StampFree(MomentFields(i.deadline.value), NUL);
    }
  }

  lemma {:induction false} FieldsHaveNoNul(i: Issue)
    requires Hashable(i)
    ensures forall k :: 0 <= k < 10 ==> Free(HashFields(i)[k], NUL)
  {
    hide PlannedText, DeadlineText, Decimal;
    DigitsHaveNoNul(if i.labelId.None? then 0 else i.labelId.value);
    DigitsHaveNoNul(if i.assigneeId.None? then 0 else i.assigneeId.value);
    DigitsHaveNoNul(if i.releaseId.None? then 0 else i.releaseId.value);
    DigitsHaveNoNul(i.projectId);
    DatesFieldsHaveNoNul(i);
    WordsHaveNoNul(i);
  }

  /** The hash is equal exactly when the content is: no two different contents share a hash. */
  lemma {:induction false} HashExact(a: Issue, b: Issue)
    requires Hashable(a) && Hashable(b)
    ensures IssueContentHash(a) == IssueContentHash(b) <==> SameContent(a, b)
  {
    var f, g := HashFields(a), HashFields(b);
    FieldsHaveNoNul(a);
    FieldsHaveNoNul(b);
    SplitJoin(f, NUL);
    SplitJoin(g, NUL);
    if IssueContentHash(a) == IssueContentHash(b) {
      assert f == g;
      FieldsEqual(a, b, f, g);
    }
    if SameContent(a, b) {
      assert PlannedText(a.planned) == PlannedText(b.planned);
      assert DeadlineText(a.deadline) == DeadlineText(b.deadline);
    }
  }

  lemma {:induction false} FieldsEqual(a: Issue, b: Issue, f: seq<string>, g: seq<string>)
    requires Hashable(a) && Hashable(b)
    requires f == HashFields(a) && g == HashFields(b) && f == g
    ensures SameContent(a, b)
  {
    assert f[0] == g[0] && f[1] == g[1] && f[2] == g[2] && f[3] == g[3] && f[4] == g[4];
    assert f[5] == g[5] && f[6] == g[6] && f[7] == g[7] && f[8] == g[8] && f[9] == g[9];
    IdTextInjective(a.labelId, b.labelId);
    IdTextInjective(a.assigneeId, b.assigneeId);
    IdTextInjective(a.releaseId, b.releaseId);
    DecimalInjective(a.projectId, b.projectId);
    PlannedTextInjective(a.planned, b.planned);
    if a.deadline.Some? {
      DeadlineNotEmpty(a.deadline.value);
    }
    if b.deadline.Some? {
      DeadlineNotEmpty(b.deadline.value);
    }
    if a.deadline.Some? && b.deadline.Some? {
      Rfc3339Injective(a.deadline.value, b.deadline.value);
    }
  }
}

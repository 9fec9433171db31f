/**
 Incidents and reports over whole runs: creating an incident (connect.go 345-408), creating and
 editing a report (connect.go 997-1211), its link to an incident (1414-1467), and the incident edit.
 */
module IncidentRuns {
  import opened Prelude
  import opened Incident
  import opened IncidentLists
  import opened IncidentEdit

  const PRIORITY_NORMAL := 3

  /** The number after the largest one used in the event, and 1 for the first. */
  ghost predicate IsNext(used: set<int>, n: int)
  {
    n >= 1 && (n == 1 || n - 1 in used) && forall m :: m in used ==> m < n
  }

  lemma NextIsUnique(used: set<int>, n: int, n': int)
    requires IsNext(used, n) && IsNext(used, n')
    ensures n == n'
  {
    assert n - 1 in used ==> n - 1 < n';
    assert n' - 1 in used ==> n' - 1 < n;
  }

  lemma {:induction false} NextExists(used: set<int>)
    ensures exists n :: IsNext(used, n)
  {
    if used == {} {
      assert IsNext(used, 1);
    } else {
      assert (forall x :: x !in used) ==> used == {};
      var x :| x in used;
      NextExists(used - {x});
      var n :| IsNext(used - {x}, n);
      var n' := if x < n then n else x + 1;
      forall m | m in used ensures m < n' { assert m == x || m in used - {x}; }
      assert IsNext(used, n');
    }
  }

  function IncidentNumbers(s: Store, event: int): set<int>
  {
    set id | id in s.rows && id.event == event :: id.number
  }

  function ReportNumbers(s: Store, event: int): set<int>
  {
    set k | k in s.reports && k.0 == event :: k.1
  }

  /** The store afterwards, and why the request was refused, if it was: several requests are not one transaction. */
  datatype Answer = Answer(store: Store, error: Option<Error>)

  function FreshRow(author: int, now: int): Row
  {
    Row(PRIORITY_NORMAL, Open, None, now, now, None, None, None, None, None, false, Some(author))
  }

  function WithFreshRow(s: Store, id: IncidentId, author: int, now: int): Store
  {
    s.(rows := s.rows[id := FreshRow(author, now)])
  }

  /** The row goes in first; the request is then an edit of it, and its refusal does not take the row out again. */
  function CreateIncident(s: Store, id: IncidentId, p: Payload, c: Caller, now: int, trim: string -> string): Answer
  {
    var s1 := WithFreshRow(s, id, c.author, now);
    match Update(s1, id, p, c, now, trim)
    case Ok(s') => Answer(s', None)
    case Err(e) => Answer(s1, Some(e))
  }

  // Reports.

  /** What the caller may do: touch the report at all, change its summary, add entries to it. */
  datatype Rights = Rights(mayEdit: bool, maySummarise: bool, mayAdd: bool)

  datatype ReportRequest = ReportRequest(incident: Option<int>, summary: Option<string>, entries: seq<string>)

  function Positive(n: Option<int>): Option<int>
  {
    if n.Some? && n.value > 0 then n else None
  }

  /** What the link should be: unchanged if nothing is asked, and none for a number that is not positive. */
  function Target(previous: Option<int>, desired: Option<int>): Option<int>
  {
    if desired.None? then previous else Positive(desired)
  }

  function BothTimelines(event: int, number: int, previous: Option<int>, target: Option<int>,
                         author: int): multiset<Entry>
  {
    var onReport := if target.Some? then AttachedTo(target.value)
                        else if previous.Some? then DetachedFrom(previous.value) else DetachedFrom(0);
    var incident := if target.Some? then target else previous;
    var onIncident := Changes([if target.Some? then ReportsAdded({number}) else ReportsRemoved({number})]);
    multiset{Entry(OnReport(event, number), author, onReport, true)} +
    (if incident.None? then multiset{}
     else multiset{Entry(OnIncident(IncidentId(event, incident.value)), author, onIncident, true)})
  }

  function ReconcileReportLink(s: Store, event: int, number: int, desired: Option<int>,
                               author: int): Result<Store, Error>
    requires (event, number) in s.reports
  {
    var previous := s.reports[(event, number)];
    var target := Target(previous, desired);
    if target == previous then Ok(s)
    else if target.Some? && IncidentId(event, target.value) !in s.rows then Err(UnknownReportTarget)
    else Ok(s.(reports := s.reports[(event, number) := target],
               journal := s.journal + BothTimelines(event, number, previous, target, author)))
  }

  predicate AddsEntry(q: ReportRequest)
  {
    exists t :: t in q.entries && t != ""
  }

  predicate LinkOnly(q: ReportRequest)
  {
    q.summary.None? && !AddsEntry(q)
  }

  function SummaryEntry(event: int, number: int, author: int, summary: Option<string>): multiset<Entry>
  {
    if summary.None? then multiset{}
    else multiset{Entry(OnReport(event, number), author, SummaryTo(summary.value), true)}
  }

  /** The link is reconciled on its own; the rest then writes the row as it was read at the start. */
  function UpdateReport(s: Store, event: int, number: int, q: ReportRequest, author: int, rights: Rights): Answer
  {
    var k := (event, number);
    if k !in s.reports then Answer(s, Some(NoSuchReport))
    else if !rights.mayEdit then Answer(s, Some(NotReportsEditor))
    else
      match ReconcileReportLink(s, event, number, q.incident, author)
      case Err(e) => Answer(s, Some(e))
      case Ok(s1) =>
        if LinkOnly(q) then Answer(s1, None)
        else if (q.summary.Some? && !rights.maySummarise) || (AddsEntry(q) && !rights.mayAdd)
          then Answer(s1, Some(ReportForbidden))
        else Answer(s1.(reports := s1.reports[k := s.reports[k]],
                         journal := s1.journal + SummaryEntry(event, number, author, q.summary)
                                    + WrittenEntries(OnReport(event, number), author, q.entries)), None)
  }

  function CreateReport(s: Store, event: int, number: int, q: ReportRequest, author: int): Answer
  {
    var incident := Positive(q.incident);
    if incident.Some? && IncidentId(event, incident.value) !in s.rows then Answer(s, Some(UnknownReportTarget))
    else
      Answer(s.(reports := s.reports[(event, number) := incident],
                 journal := s.journal + SummaryEntry(event, number, author, q.summary)
                            + (if incident.None? then multiset{}
                               else BothTimelines(event, number, None, incident, author))
                            + WrittenEntries(OnReport(event, number), author, q.entries)), None)
  }

  /**
   The link a report edit asks for is the one it has afterwards exactly when there was nothing to
   change or the request asked for nothing else: any other part writes the old link back.
   */
  lemma LinkSurvivesExactly(s: Store, event: int, number: int, q: ReportRequest, author: int, rights: Rights)
    requires (event, number) in s.reports
    requires UpdateReport(s, event, number, q, author, rights).error.None?
    ensures var previous := s.reports[(event, number)];
            var after := UpdateReport(s, event, number, q, author, rights).store.reports[(event, number)];
            && (after == Target(previous, q.incident) <==> Target(previous, q.incident) == previous || LinkOnly(q))
            && (!LinkOnly(q) ==> after == previous)
  {
  }

  /** In that case both timelines record an attachment that the report does not have. */
  lemma LostLinkIsOnTheTimelines(s: Store, event: int, number: int, q: ReportRequest, author: int)
    requires (event, number) in s.reports && Positive(q.incident).Some? && !LinkOnly(q)
    requires s.reports[(event, number)] != q.incident && IncidentId(event, q.incident.value) in s.rows
    ensures var s' := UpdateReport(s, event, number, q, author, Rights(true, true, true)).store;
            && s'.reports[(event, number)] == s.reports[(event, number)] != q.incident
            && Entry(OnReport(event, number), author, AttachedTo(q.incident.value), true) in s'.journal
            && Entry(OnIncident(IncidentId(event, q.incident.value)),
                     author, Changes([ReportsAdded({number})]), true) in s'.journal
  {
  }

  /** The link part of the request changes something, and can. */
  predicate LinkMoves(s: Store, event: int, number: int, q: ReportRequest)
    requires (event, number) in s.reports
  {
    var previous := s.reports[(event, number)];
    var target := Target(previous, q.incident);
    target != previous && (target.Some? ==> IncidentId(event, target.value) in s.rows)
  }

  predicate LinkRefused(s: Store, event: int, number: int, q: ReportRequest)
    requires (event, number) in s.reports
  {
    var previous := s.reports[(event, number)];
    var target := Target(previous, q.incident);
    target != previous && target.Some? && IncidentId(event, target.value) !in s.rows
  }

  predicate SecondPartDenied(q: ReportRequest, rights: Rights)
  {
    (q.summary.Some? && !rights.maySummarise) || (AddsEntry(q) && !rights.mayAdd)
  }

  /** Which requests for an existing report are refused, and how: told from the request, the rights and the row. */
  lemma ReportRefusedExactly(s: Store, event: int, number: int, q: ReportRequest, author: int, rights: Rights)
    requires (event, number) in s.reports
    ensures UpdateReport(s, event, number, q, author, rights).error ==
            if !rights.mayEdit then Some(NotReportsEditor)
            else if LinkRefused(s, event, number, q) then Some(UnknownReportTarget)
            else if SecondPartDenied(q, rights) then Some(ReportForbidden)
            else None
  {
  }

  /**
   A refused request leaves the store alone exactly when it could not or did not have to move the
   link: short of that the link is in place, with its entries, although the request was refused.
   */
  lemma RefusalLeavesNothingExactly(s: Store, event: int, number: int, q: ReportRequest, author: int, rights: Rights)
    requires (event, number) in s.reports
    requires !rights.mayEdit || LinkRefused(s, event, number, q) || SecondPartDenied(q, rights)
    ensures var o, previous := UpdateReport(s, event, number, q, author, rights), s.reports[(event, number)];
            && (o.store == s <==> !(rights.mayEdit && LinkMoves(s, event, number, q)))
            && (o.store != s ==>
                  o.store == s.(reports := s.reports[(event, number) := Target(previous, q.incident)],
                                journal := s.journal
                                  + BothTimelines(event, number, previous, Target(previous, q.incident), author)))
  {
    if rights.mayEdit && LinkMoves(s, event, number, q) {
      var moved := ReconcileReportLink(s, event, number, q.incident, author).value;
      assert moved.reports[(event, number)] != s.reports[(event, number)];
    }
  }

  /**
   Linking a report from its own editor leaves the same table as adding it to the incident's list,
   and so does detaching.
   */
  lemma BothEditorsAgree(s: Store, id: IncidentId, number: int, desired: int, author: int, want: seq<int>)
    requires (id.event, number) in s.reports && id in s.rows && id.number > 0
    requires if desired > 0 then desired == id.number else s.reports[(id.event, number)] == Some(id.number)
    requires ToSet(want) ==
                 if desired > 0 then Referring(s.reports, id) + {number} else Referring(s.reports, id) - {number}
    ensures var r := ReconcileReportLink(s, id.event, number, Some(desired), author);
            r.Ok? && r.value.reports == ReferenceAfter(s.reports, id, Some(want))
  {
    var after := ReconcileReportLink(s, id.event, number, Some(desired), author).value.reports;
    ReferringIn(s.reports, id);
    forall k | k in s.reports ensures after[k] == ReferenceAfter(s.reports, id, Some(want))[k] {
      assert k.1 in want <==> k.1 in ToSet(want);
      assert k.0 == id.event ==> k == (id.event, k.1);
    }
  }

  // Runs.

  datatype Op =
    | Create(id: IncidentId, p: Payload, c: Caller, now: int)
    | Edit(id: IncidentId, p: Payload, c: Caller, now: int)
    | NewReport(event: int, number: int, q: ReportRequest, author: int)
    | EditReport(event: int, number: int, q: ReportRequest, author: int, rights: Rights)
    | WriteVisit(event: int, number: int, incident: Option<int>)
    | MergeArea(event: int, dup: string, canon: string)
    | Admin(knownTypes: set<int>, outcomes: set<int>, areas: set<(int, string)>)

  /** Numbers are handed out by the store; visits and reference data change as the foreign keys let them. */
  ghost predicate Allowed(s: Store, op: Op)
  {
    match op
    case Create(id, _, _, _) => IsNext(IncidentNumbers(s, id.event), id.number)
    case NewReport(event, number, _, _) => IsNext(ReportNumbers(s, event), number)
    case WriteVisit(event, _, incident) => incident.Some? ==> IncidentId(event, incident.value) in s.rows
    case MergeArea(event, dup, canon) => dup != canon && (event, dup) in s.areas && (event, canon) in s.areas
    case Admin(knownTypes, outcomes, areas) =>
      var s' := s.(knownTypes := knownTypes, outcomes := outcomes, areas := areas);
      && (forall pair :: pair in s.types ==> pair.1 in knownTypes)
      && (forall id :: id in s.rows && RowOk(s, id, s.rows[id]) ==> RowOk(s', id, s.rows[id]))
    case _ => true
  }

  /** Every incident of the event at the duplicate area, moved to the canonical one. */
  function Repointed(rows: map<IncidentId, Row>, event: int, dup: string, canon: string): map<IncidentId, Row>
  {
    map id | id in rows ::
      if id.event == event && rows[id].areaSlug == Some(dup) then rows[id].(areaSlug := Some(canon)) else rows[id]
  }

  function Apply(s: Store, op: Op, trim: string -> string): Store
  {
    match op
    case Create(id, p, c, now) => CreateIncident(s, id, p, c, now, trim).store
    case Edit(id, p, c, now) => (match Update(s, id, p, c, now, trim) case Ok(s') => s' case Err(_) => s)
    case NewReport(event, number, q, author) => CreateReport(s, event, number, q, author).store
    case EditReport(event, number, q, author, rights) =>
      UpdateReport(s, event, number, q, author, rights).store
    case WriteVisit(event, number, incident) => s.(visits := s.visits[(event, number) := incident])
    case MergeArea(event, dup, canon) =>
      s.(rows := Repointed(s.rows, event, dup, canon), areas := s.areas - {(event, dup)})
    case Admin(knownTypes, outcomes, areas) => s.(knownTypes := knownTypes, outcomes := outcomes, areas := areas)
  }

  function Run(s: Store, ops: seq<Op>, trim: string -> string): Store
  {
    if ops == [] then s else Apply(Run(s, ops[..|ops| - 1], trim), ops[|ops| - 1], trim)
  }

  ghost predicate AllAllowed(s: Store, ops: seq<Op>, trim: string -> string)
  {
    ops == [] || (AllAllowed(s, ops[..|ops| - 1], trim) && Allowed(Run(s, ops[..|ops| - 1], trim), ops[|ops| - 1]))
  }

  const EMPTY_STORE := Store(map[], {}, map[], map[], {}, multiset{}, {}, {}, {})

  /** An event's incidents are numbered 1, 2, 3, … without a gap. */
  ghost predicate NumbersDense(rows: map<IncidentId, Row>)
  {
    forall id :: id in rows ==> id.number >= 1 && (id.number == 1 || IncidentId(id.event, id.number - 1) in rows)
  }

  lemma FreshRowKeepsInv(s: Store, id: IncidentId, author: int, now: int)
    requires Inv(s) && NumbersDense(s.rows) && IsNext(IncidentNumbers(s, id.event), id.number)
    ensures id !in s.rows
    ensures Inv(WithFreshRow(s, id, author, now)) && NumbersDense(WithFreshRow(s, id, author, now).rows)
  {
    var s1 := WithFreshRow(s, id, author, now);
    assert id in s.rows ==> id.number in IncidentNumbers(s, id.event);
    forall other | other in s1.rows
      ensures RowOk(s1, other, s1.rows[other])
      ensures other.number >= 1 && (other.number == 1 || IncidentId(other.event, other.number - 1) in s1.rows)
    {
      if other == id && id.number != 1 {
        var before :| before in s.rows && before.event == id.event && before.number == id.number - 1;
        assert before == IncidentId(id.event, id.number - 1);
      }
    }
  }

  lemma CreateKeepsInv(s: Store, id: IncidentId, p: Payload, c: Caller, now: int, trim: string -> string)
    requires Inv(s) && NumbersDense(s.rows) && IsNext(IncidentNumbers(s, id.event), id.number)
    ensures Inv(CreateIncident(s, id, p, c, now, trim).store)
    ensures NumbersDense(CreateIncident(s, id, p, c, now, trim).store.rows)
  {
    FreshRowKeepsInv(s, id, c.author, now);
    var s1 := WithFreshRow(s, id, c.author, now);
    var r := Update(s1, id, p, c, now, trim);
    if r.Ok? {
      UpdateKeepsInv(s1, id, p, c, now, trim, r.value);
      assert forall other :: other in r.value.rows <==> other in s1.rows;
    }
  }

  lemma ReportsKeepInv(s: Store, k: (int, int), target: Option<int>, journal: multiset<Entry>)
    requires Inv(s) && (target.Some? ==> IncidentId(k.0, target.value) in s.rows)
    ensures Inv(s.(reports := s.reports[k := target], journal := journal))
  {
  }

  ghost predicate RunInv(s: Store)
  {
    Inv(s) && NumbersDense(s.rows)
  }

  lemma EditKeepsInv(s: Store, id: IncidentId, p: Payload, c: Caller, now: int, trim: string -> string)
    requires RunInv(s)
    ensures RunInv(Apply(s, Edit(id, p, c, now), trim))
  {
    var r := Update(s, id, p, c, now, trim);
    if r.Ok? {
      UpdateKeepsInv(s, id, p, c, now, trim, r.value);
      assert forall other :: other in r.value.rows <==> other in s.rows;
    }
  }

  lemma NewReportKeepsInv(s: Store, event: int, number: int, q: ReportRequest, author: int)
    requires RunInv(s)
    ensures RunInv(CreateReport(s, event, number, q, author).store)
  {
    var s' := CreateReport(s, event, number, q, author).store;
    if s' != s { ReportsKeepInv(s, (event, number), Positive(q.incident), s'.journal); }
  }

  lemma ReconcileKeepsInv(s: Store, event: int, number: int, desired: Option<int>, author: int)
    requires RunInv(s) && (event, number) in s.reports
    ensures var r := ReconcileReportLink(s, event, number, desired, author);
            r.Ok? ==> RunInv(r.value) && r.value.rows == s.rows
  {
    var r := ReconcileReportLink(s, event, number, desired, author);
    var k := (event, number);
    if r.Ok? && r.value != s { ReportsKeepInv(s, k, Target(s.reports[k], desired), r.value.journal); }
  }

  lemma EditReportKeepsInv(s: Store, event: int, number: int, q: ReportRequest, author: int, rights: Rights)
    requires RunInv(s)
    ensures RunInv(UpdateReport(s, event, number, q, author, rights).store)
  {
    var k := (event, number);
    if k in s.reports {
      ReconcileKeepsInv(s, event, number, q.incident, author);
      var r := ReconcileReportLink(s, event, number, q.incident, author);
      var s' := UpdateReport(s, event, number, q, author, rights).store;
      if r.Ok? && s' != r.value { ReportsKeepInv(r.value, k, s.reports[k], s'.journal); }
    }
  }

  lemma VisitKeepsInv(s: Store, event: int, number: int, incident: Option<int>)
    requires RunInv(s) && (incident.Some? ==> IncidentId(event, incident.value) in s.rows)
    ensures RunInv(s.(visits := s.visits[(event, number) := incident]))
  {
  }

  lemma MergeKeepsInv(s: Store, op: Op, trim: string -> string)
    requires RunInv(s) && op.MergeArea? && Allowed(s, op)
    ensures RunInv(Apply(s, op, trim))
  {
    var s' := Apply(s, op, trim);
    assert s'.rows.Keys == s.rows.Keys;
    forall id | id in s'.rows ensures RowOk(s', id, s'.rows[id]) {
      assert RowOk(s, id, s.rows[id]);
    }
  }

  lemma AdminKeepsInv(s: Store, op: Op, trim: string -> string)
    requires RunInv(s) && op.Admin? && Allowed(s, op)
    ensures RunInv(Apply(s, op, trim))
  {
  }

  lemma StepKeepsInv(s: Store, op: Op, trim: string -> string)
    requires RunInv(s) && Allowed(s, op)
    ensures RunInv(Apply(s, op, trim))
  {
    match op
    case Create(id, p, c, now) => CreateKeepsInv(s, id, p, c, now, trim);
    case Edit(id, p, c, now) => EditKeepsInv(s, id, p, c, now, trim);
    case NewReport(event, number, q, author) => NewReportKeepsInv(s, event, number, q, author);
    case EditReport(event, number, q, author, rights) =>
      EditReportKeepsInv(s, event, number, q, author, rights);
    case WriteVisit(event, number, incident) => VisitKeepsInv(s, event, number, incident);
    case MergeArea(_, _, _) => MergeKeepsInv(s, op, trim);
    case Admin(_, _, _) => AdminKeepsInv(s, op, trim);
  }

  lemma {:induction false} RunKeepsInv(s: Store, ops: seq<Op>, trim: string -> string)
    requires RunInv(s) && AllAllowed(s, ops, trim)
    ensures RunInv(Run(s, ops, trim))
  {
    if ops != [] {
      RunKeepsInv(s, ops[..|ops| - 1], trim);
      StepKeepsInv(Run(s, ops[..|ops| - 1], trim), ops[|ops| - 1], trim);
    }
  }

  /** Over every run: links are symmetric, every reference is to something, and closed goes with a closing time. */
  lemma ReachableInv(ops: seq<Op>, trim: string -> string)
    requires AllAllowed(EMPTY_STORE, ops, trim)
    ensures RunInv(Run(EMPTY_STORE, ops, trim))
  {
    RunKeepsInv(EMPTY_STORE, ops, trim);
  }

  /** What never goes away: an incident, who created it and when, a report, and any journal entry. */
  ghost predicate Preserved(s: Store, s': Store)
  {
    && (forall id :: id in s.rows ==>
                       id in s'.rows && s'.rows[id].created == s.rows[id].created
                       && s'.rows[id].createdBy == s.rows[id].createdBy)
    && s.reports.Keys <= s'.reports.Keys
    && s.journal <= s'.journal
  }

  lemma UpdatePreserves(s: Store, id: IncidentId, p: Payload, c: Caller, now: int, trim: string -> string, s': Store)
    requires LinksOk(s) && Update(s, id, p, c, now, trim) == Ok(s')
    ensures Preserved(s, s')
  {
    UpdateClosed(s, id, p, c, now, trim);
    assert s.reports.Keys <= s'.reports.Keys;
  }

  lemma CreatePreserves(s: Store, id: IncidentId, p: Payload, c: Caller, now: int, trim: string -> string)
    requires RunInv(s) && IsNext(IncidentNumbers(s, id.event), id.number)
    ensures Preserved(s, CreateIncident(s, id, p, c, now, trim).store)
  {
    FreshRowKeepsInv(s, id, c.author, now);
    var s1 := WithFreshRow(s, id, c.author, now);
    var r := Update(s1, id, p, c, now, trim);
    if r.Ok? { UpdatePreserves(s1, id, p, c, now, trim, r.value); }
  }

  lemma EditPreserves(s: Store, id: IncidentId, p: Payload, c: Caller, now: int, trim: string -> string)
    requires RunInv(s)
    ensures Preserved(s, Apply(s, Edit(id, p, c, now), trim))
  {
    var r := Update(s, id, p, c, now, trim);
    if r.Ok? { UpdatePreserves(s, id, p, c, now, trim, r.value); }
  }

  lemma NewReportPreserves(s: Store, event: int, number: int, q: ReportRequest, author: int)
    ensures Preserved(s, CreateReport(s, event, number, q, author).store)
  {
  }

  lemma EditReportPreserves(s: Store, event: int, number: int, q: ReportRequest, author: int, rights: Rights)
    ensures Preserved(s, UpdateReport(s, event, number, q, author, rights).store)
  {
    if (event, number) in s.reports && ReconcileReportLink(s, event, number, q.incident, author).Ok? {
      assert Preserved(s, ReconcileReportLink(s, event, number, q.incident, author).value);
    }
  }

  lemma StepPreserves(s: Store, op: Op, trim: string -> string)
    requires RunInv(s) && Allowed(s, op)
    ensures Preserved(s, Apply(s, op, trim))
  {
    match op
    case Create(id, p, c, now) => CreatePreserves(s, id, p, c, now, trim);
    case Edit(id, p, c, now) => EditPreserves(s, id, p, c, now, trim);
    case NewReport(event, number, q, author) => NewReportPreserves(s, event, number, q, author);
    case EditReport(event, number, q, author, rights) =>
      EditReportPreserves(s, event, number, q, author, rights);
    case WriteVisit(_, _, _) =>
    case MergeArea(_, _, _) =>
    case Admin(_, _, _) =>
  }

  lemma {:induction false} RunPreserves(s: Store, ops: seq<Op>, trim: string -> string)
    requires RunInv(s) && AllAllowed(s, ops, trim)
    ensures Preserved(s, Run(s, ops, trim))
  {
    if ops != [] {
      var init := ops[..|ops| - 1];
      RunPreserves(s, init, trim);
      RunKeepsInv(s, init, trim);
      StepPreserves(Run(s, init, trim), ops[|ops| - 1], trim);
    }
  }

  lemma CreatorMayChoosePrivacy(s: Store, id: IncidentId, p: Payload, c: Caller, now: int, trim: string -> string)
    ensures FieldProblem(s, id, FreshRow(c.author, now), p, c, trim) != Some(PrivacyForbidden)
    ensures FieldProblem(s, id, FreshRow(c.author, now), p, c, trim) != Some(NoSuchIncident)
  {
  }

  /** The creator is never refused for setting privacy, and a refusal leaves the bare row with its number used up. */
  lemma CreateIncidentAnswer(s: Store, id: IncidentId, p: Payload, c: Caller, now: int, trim: string -> string)
    requires RunInv(s) && IsNext(IncidentNumbers(s, id.event), id.number)
    ensures id !in s.rows
    ensures var o, s1 := CreateIncident(s, id, p, c, now, trim), WithFreshRow(s, id, c.author, now);
            if Accepted(s1, id, p, c, trim) then o == Answer(Edited(s1, id, p, c, now, trim), None)
            else o.store == s1 && o.error.Some? && o.error.value !in {PrivacyForbidden, NoSuchIncident}
  {
    FreshRowKeepsInv(s, id, c.author, now);
    CreatorMayChoosePrivacy(WithFreshRow(s, id, c.author, now), id, p, c, now, trim);
    var s1 := WithFreshRow(s, id, c.author, now);
    UpdateClosed(s1, id, p, c, now, trim);
    if Update(s1, id, p, c, now, trim).Err? { UpdateRefusal(s1, id, p, c, now, trim); }
  }

  /** Creating an incident with an outcome that does not exist: the caller is refused, and incident 1 is there. */
  lemma BareRowIsLeft(trim: string -> string)
    ensures var id, p, c := IncidentId(1, 1), EMPTY_PAYLOAD.(outcome := Some(7)), Caller(1, false);
            && Allowed(EMPTY_STORE, Create(id, p, c, 10))
            && var o := CreateIncident(EMPTY_STORE, id, p, c, 10, trim);
               o.error == Some(InvalidOutcome) && id in o.store.rows && o.store.rows[id] == FreshRow(1, 10)
  {
    assert IncidentNumbers(EMPTY_STORE, 1) == {};
  }
}

/**
 What an incident edit and a report edit do, field by field and entry by entry, told from the stored
 rows and the request alone (incident.go 484-851, connect.go 381-389, 997-1211, 1414-1467).
 */
module IncidentEffects {
  import opened Prelude
  import opened Incident
  import opened IncidentLists
  import opened IncidentEdit
  import opened IncidentRuns

  // The row.

  /** Empty text is stored as none, and a text longer than a positive limit is cut there. */
  predicate TextAsRequested(before: Option<string>, want: Option<string>, limit: nat, after: Option<string>)
  {
    && (want.None? ==> after == before)
    && (want == Some("") ==> after == None)
    && (want.Some? && want.value != "" ==>
          after == Some(if limit > 0 && |want.value| > limit then want.value[..limit] else want.value))
  }

  /** An absent field stays; a present one is that field's own submitted value. */
  predicate RowAsRequested(r: Row, p: Payload, now: int, trim: string -> string, r': Row)
  {
    && r'.created == r.created && r'.createdBy == r.createdBy
    && r'.isPrivate == (if p.isPrivate.Some? then p.isPrivate.value else r.isPrivate)
    && r'.priority == (if p.priority == 0 then r.priority else p.priority)
    && r'.state == (if p.state == "open" then Open else if p.state == "closed" then Closed else r.state)
    && (p.state == "closed" && r.state == Open ==> r'.closed == Some(now))
    && (p.state == "open" && r.state == Closed ==> r'.closed == None)
    && (r'.state == r.state ==> r'.closed == r.closed)
    && (p.outcome.None? ==> r'.outcome == r.outcome)
    && (p.outcome == Some(0) ==> r'.outcome == None)
    && (p.outcome.Some? && p.outcome.value != 0 ==> r'.outcome == p.outcome)
    && r'.started == (if p.started.Some? then p.started.value else r.started)
    && TextAsRequested(r.summary, p.summary, 0, r'.summary)
    && TextAsRequested(r.description, p.description, 0, r'.description)
    && TextAsRequested(r.booth, p.booth, 32, r'.booth)
    && (p.areaSlug.None? ==> r'.areaSlug == r.areaSlug)
    && (p.areaSlug.Some? ==>
          r'.areaSlug == if trim(p.areaSlug.value) == "" then None else Some(trim(p.areaSlug.value)))
  }

  lemma UpdatedAsRequested(r: Row, p: Payload, now: int, trim: string -> string)
    ensures RowAsRequested(r, p, now, trim, UpdatedRow(r, p, now, trim))
  {
  }

  /** An accepted edit stores exactly the requested values, each in its own field. */
  lemma EditStoresRequest(s: Store, id: IncidentId, p: Payload, c: Caller, now: int, trim: string -> string, s': Store)
    requires LinksOk(s) && Update(s, id, p, c, now, trim) == Ok(s')
    ensures id in s.rows && id in s'.rows && RowAsRequested(s.rows[id], p, now, trim, s'.rows[id])
  {
    UpdateClosed(s, id, p, c, now, trim);
    UpdatedAsRequested(s.rows[id], p, now, trim);
  }

  /** The row is determined: there is no other with these fields. */
  lemma RequestDeterminesRow(r: Row, p: Payload, now: int, trim: string -> string, a: Row, b: Row)
    requires RowAsRequested(r, p, now, trim, a) && RowAsRequested(r, p, now, trim, b)
    ensures a == b
  {
  }

  /** Which field changes are refused, and in which order. */
  lemma FieldsRefusedExactly(s: Store, id: IncidentId, r: Row, p: Payload, c: Caller, trim: string -> string)
    ensures FieldProblem(s, id, r, p, c, trim) ==
            if p.isPrivate.Some? && !c.isAdmin && r.createdBy != Some(c.author) then Some(PrivacyForbidden)
            else if p.outcome.Some? && p.outcome.value != 0 && r.outcome != p.outcome && p.outcome.value !in s.outcomes
              then Some(InvalidOutcome)
            else if p.areaSlug.Some? && trim(p.areaSlug.value) != "" && r.areaSlug != Some(trim(p.areaSlug.value))
                    && (id.event, trim(p.areaSlug.value)) !in s.areas
              then Some(UnknownArea)
            else None
  {
  }

  /** A new incident has priority 3, is open and public, and has what the request says beyond that. */
  lemma NewIncidentStoresRequest(s: Store, id: IncidentId, p: Payload, c: Caller, now: int, trim: string -> string)
    requires RunInv(s) && IsNext(IncidentNumbers(s, id.event), id.number)
    ensures var o := CreateIncident(s, id, p, c, now, trim);
            var bare := Row(3, Open, None, now, now, None, None, None, None, None, false, Some(c.author));
            && id in o.store.rows
            && (o.error.None? ==> RowAsRequested(bare, p, now, trim, o.store.rows[id]))
            && (o.error.Some? ==> o.store.rows[id] == bare)
  {
    CreateIncidentAnswer(s, id, p, c, now, trim);
    FreshRowKeepsInv(s, id, c.author, now);
    var s1 := WithFreshRow(s, id, c.author, now);
    UpdateClosed(s1, id, p, c, now, trim);
    UpdatedAsRequested(s1.rows[id], p, now, trim);
  }

  // The change lines.

  /** Whether a line is due, told from the two rows, the stored lists and the request. */
  predicate LineDue(s: Store, id: IncidentId, r: Row, r': Row, p: Payload, line: Change)
  {
    match line
    case Privacy(v) => r'.isPrivate != r.isPrivate && v == r'.isPrivate
    case Priority(v) => r'.priority != r.priority && v == r'.priority
    case StateTo(v) => r'.state != r.state && v == r'.state
    case Outcome(v) => r'.outcome != r.outcome && v == r'.outcome
    case Started(v) => r'.started != r.started && v == r'.started
    case Summary(v) => r'.summary != r.summary && v == r'.summary
    case Description(v) => r'.description != r.description && v == r'.description
    case Booth(v) => r'.booth != r.booth && v == r'.booth
    case AreaTo(v) => r'.areaSlug != r.areaSlug && v == r'.areaSlug
    case TypesAdded(v) => p.typeIds.Some? && v != {} && v == ToSet(p.typeIds.value) - TypesOf(s.types, id)
    case TypesRemoved(v) => p.typeIds.Some? && v != {} && v == TypesOf(s.types, id) - ToSet(p.typeIds.value)
    case ReportsAdded(v) => p.reports.Some? && v != {} && v == ToSet(p.reports.value) - Referring(s.reports, id)
    case ReportsRemoved(v) => p.reports.Some? && v != {} && v == Referring(s.reports, id) - ToSet(p.reports.value)
    case VisitsAdded(v) => p.visits.Some? && v != {} && v == ToSet(p.visits.value) - Referring(s.visits, id)
    case VisitsRemoved(v) => p.visits.Some? && v != {} && v == Referring(s.visits, id) - ToSet(p.visits.value)
    case LinksAdded(v) => p.linked.Some? && v != {} && v == ToSet(p.linked.value) - LinksOf(s.links, id)
    case LinksRemoved(v) => p.linked.Some? && v != {} && v == LinksOf(s.links, id) - ToSet(p.linked.value)
  }

  lemma StatusLinesDue(r: Row, r': Row, line: Change)
    ensures line in StatusLines(r, r') <==>
            || (r'.isPrivate != r.isPrivate && line == Privacy(r'.isPrivate))
            || (r'.priority != r.priority && line == Priority(r'.priority))
            || (r'.state != r.state && line == StateTo(r'.state))
  {
  }

  lemma TextLinesDue(r: Row, r': Row, line: Change)
    ensures line in TextLines(r, r') <==>
            || (r'.started != r.started && line == Started(r'.started))
            || (r'.summary != r.summary && line == Summary(r'.summary))
            || (r'.description != r.description && line == Description(r'.description))
            || (r'.booth != r.booth && line == Booth(r'.booth))
  {
  }

  lemma FieldLinesIn(r: Row, r': Row, line: Change)
    ensures line in FieldChanges(r, r') <==>
            || line in StatusLines(r, r') || (r'.outcome != r.outcome && line == Outcome(r'.outcome))
            || line in TextLines(r, r') || (r'.areaSlug != r.areaSlug && line == AreaTo(r'.areaSlug))
  {
  }

  predicate IsFieldLine(line: Change)
  {
    line.Privacy? || line.Priority? || line.StateTo? || line.Outcome? || line.Started?
    || line.Summary? || line.Description? || line.Booth? || line.AreaTo?
  }

  lemma FieldLinesDue(s: Store, id: IncidentId, r: Row, r': Row, p: Payload, line: Change)
    ensures line in FieldChanges(r, r') <==> LineDue(s, id, r, r', p, line) && IsFieldLine(line)
  {
    FieldLinesIn(r, r', line);
    StatusLinesDue(r, r', line);
    TextLinesDue(r, r', line);
  }

  lemma ListChangesIn<T>(want: Option<seq<T>>, have: set<T>, added: set<T> -> Change, removed: set<T> -> Change,
                         line: Change)
    ensures line in ListChanges(want, have, added, removed) <==>
            want.Some? &&
            (|| (ToSet(want.value) - have != {} && line == added(ToSet(want.value) - have))
             || (have - ToSet(want.value) != {} && line == removed(have - ToSet(want.value))))
  {
  }

  lemma TypeLinesDue(s: Store, id: IncidentId, r: Row, r': Row, p: Payload, line: Change)
    ensures line in TypeLines(s, id, p.typeIds) <==>
            LineDue(s, id, r, r', p, line) && (line.TypesAdded? || line.TypesRemoved?)
  {
    ListChangesIn(p.typeIds, TypesOf(s.types, id), t => TypesAdded(t), t => TypesRemoved(t), line);
  }

  lemma ReportLinesDue(s: Store, id: IncidentId, r: Row, r': Row, p: Payload, line: Change)
    ensures line in ReportLines(s, id, p.reports) <==>
            LineDue(s, id, r, r', p, line) && (line.ReportsAdded? || line.ReportsRemoved?)
  {
    ListChangesIn(p.reports, Referring(s.reports, id), n => ReportsAdded(n), n => ReportsRemoved(n), line);
  }

  lemma VisitLinesDue(s: Store, id: IncidentId, r: Row, r': Row, p: Payload, line: Change)
    ensures line in VisitLines(s, id, p.visits) <==>
            LineDue(s, id, r, r', p, line) && (line.VisitsAdded? || line.VisitsRemoved?)
  {
    ListChangesIn(p.visits, Referring(s.visits, id), n => VisitsAdded(n), n => VisitsRemoved(n), line);
  }

  lemma LinkLinesDue(s: Store, id: IncidentId, r: Row, r': Row, p: Payload, line: Change)
    ensures line in LinkLines(s, id, p.linked) <==>
            LineDue(s, id, r, r', p, line) && (line.LinksAdded? || line.LinksRemoved?)
  {
    ListChangesIn(p.linked, LinksOf(s.links, id), l => LinksAdded(l), l => LinksRemoved(l), line);
  }

  /**
   The change entry names exactly the fields that changed, with their new values, and what each list
   gained and lost.
   */
  lemma LinesAreDue(s: Store, id: IncidentId, r: Row, r': Row, p: Payload, line: Change)
    ensures line in AllChanges(s, id, r, r', p) <==> LineDue(s, id, r, r', p, line)
  {
    FieldLinesDue(s, id, r, r', p, line);
    TypeLinesDue(s, id, r, r', p, line);
    ReportLinesDue(s, id, r, r', p, line);
    VisitLinesDue(s, id, r, r', p, line);
    LinkLinesDue(s, id, r, r', p, line);
  }

  // Links refused.

  /**
   The first link that cannot be made decides the refusal: for a link to itself it is the way back that
   fails, for any other the way there.
   */
  lemma {:induction false} FirstBadLinkDecides(s: Store, id: IncidentId, add: seq<IncidentId>, author: int, i: nat)
    requires LinksOk(s) && id in s.rows && i < |add| && forall o :: o in add ==> (id, o) !in s.links
    requires AllLinkable(s, id, add[..i]) && !AllLinkable(s, id, add[..i + 1])
    ensures LinkAll(s, id, add, author) == Err(if add[i] == id then LinkBackFailed else LinkRejected)
    decreases |add|
  {
    if i < |add| - 1 {
      var init := add[..|add| - 1];
      assert init[..i] == add[..i] && init[..i + 1] == add[..i + 1];
      assert forall o :: o in init ==> o in add;
      FirstBadLinkDecides(s, id, init, author, i);
    } else {
      assert add[..i + 1] == add && add[..|add| - 1] == add[..i];
      LinkAllClosed(s, id, add[..i], author);
      LinkableStep(s, id, add, author);
      var before := AfterLinking(s, id, add[..i], author);
      PairsIn(id, add[..i], (id, add[i]));
      PairsIn(id, add[..i], (add[i], id));
      assert add[i] in add;
      var other := add[i];
      assert (other, id) in s.links ==> (id, other) in s.links;
      assert Linkable(s, id, add[i]) ==> add[i] in add[..i] by {
        if Linkable(s, id, add[i]) && add[i] !in add[..i] {
          assert Linkable(before, id, add[i]);
        }
      }
    }
  }

  // The journal.

  lemma {:induction false} SubtractCount<T>(want: seq<T>, have: set<T>, x: T)
    ensures multiset(Subtract(want, have))[x] == if x in have then 0 else multiset(want)[x]
  {
    if want != [] {
      var init, last := want[..|want| - 1], want[|want| - 1];
      SubtractCount(init, have, x);
      assert want == init + [last];
    }
  }

  lemma {:induction false} AttachEntriesCount(id: IncidentId, add: seq<int>, author: int, e: Entry)
    ensures AttachEntries(id, add, author)[e] ==
            if e.place.OnReport? && e == Entry(OnReport(id.event, e.place.number), author, AttachedTo(id.number), true)
            then multiset(add)[e.place.number] else 0
  {
    if add != [] {
      var init, last := add[..|add| - 1], add[|add| - 1];
      AttachEntriesCount(id, init, author, e);
      assert add == init + [last];
    }
  }

  lemma {:induction false} LinkEntriesCount(id: IncidentId, add: seq<IncidentId>, author: int, e: Entry)
    ensures LinkEntries(id, add, author)[e] ==
            if e.place.OnIncident? && e == Entry(e.place, author, LinkedTo(id), true)
            then multiset(add)[e.place.id] else 0
  {
    if add != [] {
      var init, last := add[..|add| - 1], add[|add| - 1];
      LinkEntriesCount(id, init, author, e);
      assert add == init + [last];
    }
  }

  lemma DetachEntriesCount(id: IncidentId, sub: set<int>, author: int, e: Entry)
    ensures DetachEntries(id, sub, author)[e] ==
            if e.place.OnReport? && e.place.number in sub
               && e == Entry(OnReport(id.event, e.place.number), author, DetachedFrom(id.number), true) then 1 else 0
  {
  }

  lemma UnlinkEntriesCount(id: IncidentId, sub: set<IncidentId>, author: int, e: Entry)
    ensures UnlinkEntries(id, sub, author)[e] ==
            if e.place.OnIncident? && e.place.id in sub && e == Entry(e.place, author, UnlinkedFrom(id), true)
            then 1 else 0
  {
  }

  lemma WrittenEntriesCount(place: Place, author: int, texts: seq<string>, e: Entry)
    ensures WrittenEntries(place, author, texts)[e] ==
            if e.text.Written? && e.text.text != "" && e == Entry(place, author, e.text, false)
            then multiset(texts)[e.text.text] else 0
  {
    if e.text.Written? { WrittenAreTheTexts(place, author, texts, e.text.text); }
    OnlyTextsAreWritten(place, author, texts, e);
  }

  /** One entry on each report newly attached, as often as it is named, and on each one detached. */
  function ReportEntriesDue(s: Store, id: IncidentId, want: Option<seq<int>>, author: int, e: Entry): nat
  {
    if want.None? || !e.generated || e.author != author || !e.place.OnReport? || e.place.event != id.event then 0
    else
      var number, attached := e.place.number, Referring(s.reports, id);
      if e.text == AttachedTo(id.number) && number !in attached then multiset(want.value)[number]
      else if e.text == DetachedFrom(id.number) && number in attached && number !in want.value then 1
      else 0
  }

  /** One entry on each incident newly linked, as often as it is named, and on each one unlinked. */
  function LinkListEntriesDue(s: Store, id: IncidentId, want: Option<seq<IncidentId>>, author: int, e: Entry): nat
  {
    if want.None? || !e.generated || e.author != author || !e.place.OnIncident? then 0
    else
      var other, linked := e.place.id, LinksOf(s.links, id);
      if e.text == LinkedTo(id) && other !in linked then multiset(want.value)[other]
      else if e.text == UnlinkedFrom(id) && other in linked && other !in want.value then 1
      else 0
  }

  /** The change entry, when there are lines. */
  function ChangeEntryDue(id: IncidentId, author: int, lines: seq<Change>, e: Entry): nat
  {
    if lines != [] && e.place == OnIncident(id) && e.author == author && e.text == Changes(lines) && e.generated
    then 1 else 0
  }

  /** The nonempty texts, not marked as generated. */
  function TextEntriesDue(place: Place, author: int, texts: seq<string>, e: Entry): nat
  {
    if e.place == place && e.author == author && !e.generated && e.text.Written? && e.text.text != ""
    then multiset(texts)[e.text.text] else 0
  }

  lemma ReportEntriesCount(s: Store, id: IncidentId, want: Option<seq<int>>, author: int, e: Entry)
    ensures ReportEntries(s.reports, id, want, author)[e] == ReportEntriesDue(s, id, want, author, e)
  {
    if want.Some? {
      var have := Referring(s.reports, id);
      AttachEntriesCount(id, Subtract(want.value, have), author, e);
      DetachEntriesCount(id, have - ToSet(want.value), author, e);
      if e.place.OnReport? { SubtractCount(want.value, have, e.place.number); }
    }
  }

  lemma LinkListEntriesCount(s: Store, id: IncidentId, want: Option<seq<IncidentId>>, author: int, e: Entry)
    ensures LinkListEntries(s.links, id, want, author)[e] == LinkListEntriesDue(s, id, want, author, e)
  {
    if want.Some? {
      var have := LinksOf(s.links, id);
      LinkEntriesCount(id, Subtract(want.value, have), author, e);
      UnlinkEntriesCount(id, have - ToSet(want.value), author, e);
      if e.place.OnIncident? { SubtractCount(want.value, have, e.place.id); }
    }
  }

  lemma ChangeEntryCount(id: IncidentId, author: int, lines: seq<Change>, e: Entry)
    ensures SystemEntry(id, author, lines)[e] == ChangeEntryDue(id, author, lines, e)
  {
  }

  lemma TextEntriesCount(place: Place, author: int, texts: seq<string>, e: Entry)
    ensures WrittenEntries(place, author, texts)[e] == TextEntriesDue(place, author, texts, e)
  {
    WrittenEntriesCount(place, author, texts, e);
  }

  lemma NewEntriesCount(s: Store, id: IncidentId, p: Payload, c: Caller, now: int, trim: string -> string, e: Entry)
    requires id in s.rows
    ensures var lines := AllChanges(s, id, s.rows[id], UpdatedRow(s.rows[id], p, now, trim), p);
            NewEntries(s, id, p, c, now, trim)[e] ==
            ReportEntries(s.reports, id, p.reports, c.author)[e] + LinkListEntries(s.links, id, p.linked, c.author)[e]
            + SystemEntry(id, c.author, lines)[e] + WrittenEntries(OnIncident(id), c.author, p.entries)[e]
  {
  }

  /** An accepted edit adds to the journal exactly the entries due, and takes none away. */
  lemma EditWritesEntries(s: Store, id: IncidentId, p: Payload, c: Caller, now: int, trim: string -> string,
                          s': Store, e: Entry)
    requires id in s.rows && id in s'.rows && LinksOk(s) && Update(s, id, p, c, now, trim) == Ok(s')
    ensures var lines := AllChanges(s, id, s.rows[id], s'.rows[id], p);
            s'.journal[e] ==
            s.journal[e]
            + ReportEntriesDue(s, id, p.reports, c.author, e) + LinkListEntriesDue(s, id, p.linked, c.author, e)
            + ChangeEntryDue(id, c.author, lines, e) + TextEntriesDue(OnIncident(id), c.author, p.entries, e)
  {
    UpdateClosed(s, id, p, c, now, trim);
    NewEntriesCount(s, id, p, c, now, trim, e);
    ReportEntriesCount(s, id, p.reports, c.author, e);
    LinkListEntriesCount(s, id, p.linked, c.author, e);
    ChangeEntryCount(id, c.author, AllChanges(s, id, s.rows[id], s'.rows[id], p), e);
    TextEntriesCount(OnIncident(id), c.author, p.entries, e);
  }

  // Reports.

  /** How many entries of this kind a link that moves writes: one on the report, one on the incident joined or left. */
  function LinkEntriesDue(event: int, number: int, previous: Option<int>, target: Option<int>,
                          author: int, e: Entry): nat
  {
    if e.author != author || !e.generated || previous == target then 0
    else if e.place == OnReport(event, number) then
      if target.Some? then if e.text == AttachedTo(target.value) then 1 else 0
      else if previous.Some? && e.text == DetachedFrom(previous.value) then 1 else 0
    else if target.Some? then
      if e.place == OnIncident(IncidentId(event, target.value)) && e.text == Changes([ReportsAdded({number})])
      then 1 else 0
    else if previous.Some? && e.place == OnIncident(IncidentId(event, previous.value))
            && e.text == Changes([ReportsRemoved({number})]) then 1
    else 0
  }

  lemma BothTimelinesAreDue(event: int, number: int, previous: Option<int>, target: Option<int>, author: int, e: Entry)
    requires previous != target
    ensures BothTimelines(event, number, previous, target, author)[e] ==
            LinkEntriesDue(event, number, previous, target, author, e)
  {
  }

  /** How many entries of this kind the other parts of a report request write: the summary's, and the nonempty texts. */
  function PartEntriesDue(event: int, number: int, q: ReportRequest, author: int, e: Entry): nat
  {
    if e.author != author || e.place != OnReport(event, number) then 0
    else if e.generated then if q.summary.Some? && e.text == SummaryTo(q.summary.value) then 1 else 0
    else if e.text.Written? && e.text.text != "" then multiset(q.entries)[e.text.text] else 0
  }

  lemma PartsAreDue(event: int, number: int, q: ReportRequest, author: int, e: Entry)
    ensures SummaryEntry(event, number, author, q.summary)[e]
            + WrittenEntries(OnReport(event, number), author, q.entries)[e] ==
            PartEntriesDue(event, number, q, author, e)
  {
    WrittenEntriesCount(OnReport(event, number), author, q.entries, e);
  }

  /** A request for the link alone has no other parts to write. */
  lemma {:induction false} LinkOnlyWritesNoPart(event: int, number: int, q: ReportRequest, author: int, e: Entry)
    requires LinkOnly(q)
    ensures PartEntriesDue(event, number, q, author, e) == 0
  {
    if e.text.Written? && e.text.text in q.entries { assert e.text.text == ""; }
  }

  /** The target is the number asked for if positive, none if not, and as before if not asked. */
  function WantedLink(previous: Option<int>, asked: Option<int>): Option<int>
  {
    if asked.None? then previous else if asked.value > 0 then asked else None
  }

  lemma LinkOnlyExactly(q: ReportRequest)
    ensures LinkOnly(q) <==> q.summary.None? && forall t :: t in q.entries ==> t == ""
  {
  }

  lemma ReportEditTable(s: Store, event: int, number: int, q: ReportRequest, author: int, rights: Rights)
    requires (event, number) in s.reports && UpdateReport(s, event, number, q, author, rights).error.None?
    ensures var previous := s.reports[(event, number)];
            UpdateReport(s, event, number, q, author, rights).store.reports ==
            s.reports[(event, number) := if LinkOnly(q) then WantedLink(previous, q.incident) else previous]
  {
    var previous := s.reports[(event, number)];
    assert s.reports[(event, number) := previous] == s.reports;
  }

  /** After an accepted edit the report's link is the target if nothing else was asked for, and as before otherwise. */
  lemma ReportEditLinks(s: Store, event: int, number: int, q: ReportRequest, author: int, rights: Rights)
    requires (event, number) in s.reports && UpdateReport(s, event, number, q, author, rights).error.None?
    ensures var previous := s.reports[(event, number)];
            var alone := q.summary.None? && forall t :: t in q.entries ==> t == "";
            UpdateReport(s, event, number, q, author, rights).store.reports ==
            s.reports[(event, number) := if alone then WantedLink(previous, q.incident) else previous]
  {
    LinkOnlyExactly(q);
    ReportEditTable(s, event, number, q, author, rights);
  }

  function MovedEntries(event: int, number: int, previous: Option<int>, target: Option<int>,
                        author: int): multiset<Entry>
  {
    if target == previous then multiset{} else BothTimelines(event, number, previous, target, author)
  }

  function PartEntries(event: int, number: int, q: ReportRequest, author: int): multiset<Entry>
  {
    if LinkOnly(q) then multiset{}
    else
      SummaryEntry(event, number, author, q.summary) + WrittenEntries(OnReport(event, number), author, q.entries)
  }

  lemma MovedCount(event: int, number: int, previous: Option<int>, target: Option<int>, author: int, e: Entry)
    ensures MovedEntries(event, number, previous, target, author)[e] ==
            LinkEntriesDue(event, number, previous, target, author, e)
  {
    if previous != target { BothTimelinesAreDue(event, number, previous, target, author, e); }
  }

  lemma PartCount(event: int, number: int, q: ReportRequest, author: int, e: Entry)
    ensures PartEntries(event, number, q, author)[e] == PartEntriesDue(event, number, q, author, e)
  {
    PartsAreDue(event, number, q, author, e);
    if LinkOnly(q) { LinkOnlyWritesNoPart(event, number, q, author, e); }
  }

  lemma ReconcileWrites(s: Store, event: int, number: int, desired: Option<int>, author: int)
    requires (event, number) in s.reports && ReconcileReportLink(s, event, number, desired, author).Ok?
    ensures var previous := s.reports[(event, number)];
            ReconcileReportLink(s, event, number, desired, author).value.journal ==
            s.journal + MovedEntries(event, number, previous, WantedLink(previous, desired), author)
  {
  }

  lemma RestWrites(s: Store, event: int, number: int, q: ReportRequest, author: int, rights: Rights)
    requires (event, number) in s.reports && UpdateReport(s, event, number, q, author, rights).error.None?
    ensures ReconcileReportLink(s, event, number, q.incident, author).Ok?
    ensures UpdateReport(s, event, number, q, author, rights).store.journal ==
            ReconcileReportLink(s, event, number, q.incident, author).value.journal
            + PartEntries(event, number, q, author)
  {
    var linked := ReconcileReportLink(s, event, number, q.incident, author).value.journal;
    var summary, texts := SummaryEntry(event, number, author, q.summary),
                          WrittenEntries(OnReport(event, number), author, q.entries);
    assert linked + multiset{} == linked;
    assert linked + summary + texts == linked + (summary + texts);
  }

  lemma ReportEditJournal(s: Store, event: int, number: int, q: ReportRequest, author: int, rights: Rights)
    requires (event, number) in s.reports && UpdateReport(s, event, number, q, author, rights).error.None?
    ensures var previous := s.reports[(event, number)];
            UpdateReport(s, event, number, q, author, rights).store.journal ==
            s.journal + MovedEntries(event, number, previous, WantedLink(previous, q.incident), author)
            + PartEntries(event, number, q, author)
  {
    RestWrites(s, event, number, q, author, rights);
    ReconcileWrites(s, event, number, q.incident, author);
  }

  /** It writes exactly the entries of the link, if that moves, and of the other parts. */
  lemma ReportEditWritesEntries(s: Store, event: int, number: int, q: ReportRequest, author: int,
                                rights: Rights, e: Entry)
    requires (event, number) in s.reports && UpdateReport(s, event, number, q, author, rights).error.None?
    ensures var previous := s.reports[(event, number)];
            UpdateReport(s, event, number, q, author, rights).store.journal[e] ==
            s.journal[e] + LinkEntriesDue(event, number, previous, WantedLink(previous, q.incident), author, e)
            + PartEntriesDue(event, number, q, author, e)
  {
    var previous := s.reports[(event, number)];
    ReportEditJournal(s, event, number, q, author, rights);
    MovedCount(event, number, previous, WantedLink(previous, q.incident), author, e);
    PartCount(event, number, q, author, e);
  }

  /** A new report has the link asked for, if positive, and the same entries. */
  lemma NewReportWritesEntries(s: Store, event: int, number: int, q: ReportRequest, author: int, e: Entry)
    ensures var o := CreateReport(s, event, number, q, author);
            var target := if q.incident.Some? && q.incident.value > 0 then q.incident else None;
            if target.Some? && IncidentId(event, target.value) !in s.rows
            then o.error == Some(UnknownReportTarget) && o.store == s
            else
              && o.error.None? && o.store.reports == s.reports[(event, number) := target]
              && o.store.journal[e] == s.journal[e] + LinkEntriesDue(event, number, None, target, author, e)
                                       + PartEntriesDue(event, number, q, author, e)
  {
    PartsAreDue(event, number, q, author, e);
    var target := Positive(q.incident);
    if target.Some? { BothTimelinesAreDue(event, number, None, target, author, e); }
  }

  // Payloads that only append to the journal.

  /** A payload is journal-only exactly when it has entries and everything else in it is absent. */
  lemma JournalOnlyExactly(p: Payload)
    ensures IsJournalOnly(p) <==> p.entries != [] && p.(entries := []) == EMPTY_PAYLOAD
  {
  }
}

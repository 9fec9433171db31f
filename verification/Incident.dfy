/**
 Editing incidents (go/internal/incident/incident.go, connect.go): a request names the fields and
 lists it wants changed, and the edit reconciles the stored incident with it in one transaction.

 The store keeps what the tables keep, with their keys: an insert of a row that is already there
 fails, a row that refers to nothing fails, and an update of no row does nothing. Reads are made
 before the transaction and requests are handled one after another. The journal is a bag of entries;
 a list in a change line is kept as a set.
 */
module Incident {
  import opened Prelude

  datatype IncidentId = IncidentId(event: int, number: int)

  datatype State = Open | Closed

  datatype Row = Row(
    priority: int, state: State, outcome: Option<int>, created: int, started: int, closed: Option<int>,
    summary: Option<string>, description: Option<string>, areaSlug: Option<string>, booth: Option<string>,
    isPrivate: bool, createdBy: Option<int>)

  /** One line of the "what changed" entry. */
  datatype Change =
    | Privacy(isPrivate: bool)
    | Priority(priority: int)
    | StateTo(state: State)
    | Outcome(id: Option<int>)
    | Started(at: int)
    | Summary(text: Option<string>)
    | Description(text: Option<string>)
    | Booth(text: Option<string>)
    | AreaTo(slug: Option<string>)
    | TypesAdded(types: set<int>)
    | TypesRemoved(types: set<int>)
    | ReportsAdded(numbers: set<int>)
    | ReportsRemoved(numbers: set<int>)
    | VisitsAdded(numbers: set<int>)
    | VisitsRemoved(numbers: set<int>)
    | LinksAdded(ids: set<IncidentId>)
    | LinksRemoved(ids: set<IncidentId>)

  datatype Place = OnIncident(id: IncidentId) | OnReport(event: int, number: int)

  datatype Text =
    | Changes(lines: seq<Change>)
    | LinkedTo(id: IncidentId)
    | UnlinkedFrom(id: IncidentId)
    | AttachedTo(number: int)
    | DetachedFrom(number: int)
    | SummaryTo(summary: string)
    | Written(text: string)

  datatype Entry = Entry(place: Place, author: int, text: Text, generated: bool)

  /** Reports and visits are keyed by event and number and refer to an incident of their event, if any. */
  datatype Store = Store(
    rows: map<IncidentId, Row>,
    types: set<(IncidentId, int)>,
    reports: map<(int, int), Option<int>>,
    visits: map<(int, int), Option<int>>,
    links: set<(IncidentId, IncidentId)>,
    journal: multiset<Entry>,
    knownTypes: set<int>, outcomes: set<int>, areas: set<(int, string)>)

  /** A request: an absent field, a zero priority and an unknown state all mean "leave it". */
  datatype Payload = Payload(
    isPrivate: Option<bool>, priority: int, state: string, outcome: Option<int>, started: Option<int>,
    summary: Option<string>, description: Option<string>, booth: Option<string>, areaSlug: Option<string>,
    typeIds: Option<seq<int>>, reports: Option<seq<int>>, visits: Option<seq<int>>,
    peoplePresent: bool, linked: Option<seq<IncidentId>>, entries: seq<string>)

  datatype Caller = Caller(author: int, isAdmin: bool)

  datatype Error =
    | NoSuchIncident
    | PrivacyForbidden
    | InvalidOutcome
    | UnknownArea
    | TypeAttachFailed
    | ReportJournalFailed
    | LinkRejected
    | LinkBackFailed
    | UnknownReportTarget
    | NoSuchReport
    | NotReportsEditor
    | ReportForbidden

  const BOOTH_LENGTH := 32

  // Fields.

  function ParseState(s: string): Option<State>
  {
    if s == "open" then Some(Open) else if s == "closed" then Some(Closed) else None
  }

  /** Empty text is stored as null; a positive limit truncates. */
  function StringToSql(s: string, maxLength: nat): Option<string>
  {
    if s == "" then None
    else if maxLength > 0 && |s| > maxLength then Some(s[..maxLength])
    else Some(s)
  }

  function SetText(stored: Option<string>, want: Option<string>, maxLength: nat): Option<string>
  {
    if want.None? then stored else StringToSql(want.value, maxLength)
  }

  function SetOutcome(stored: Option<int>, want: Option<int>): Option<int>
  {
    if want.None? then stored else if want.value == 0 then None else want
  }

  function SetArea(stored: Option<string>, want: Option<string>, trim: string -> string): Option<string>
  {
    if want.None? then stored else StringToSql(trim(want.value), 0)
  }

  /** The first reason to refuse the field changes, in the order the program tests them. */
  function FieldProblem(s: Store, id: IncidentId, row: Row, p: Payload, c: Caller,
                        trim: string -> string): Option<Error>
  {
    if p.isPrivate.Some? && !c.isAdmin && row.createdBy != Some(c.author) then Some(PrivacyForbidden)
    else
      var outcome, area := SetOutcome(row.outcome, p.outcome), SetArea(row.areaSlug, p.areaSlug, trim);
      if outcome.Some? && outcome != row.outcome && outcome.value !in s.outcomes then Some(InvalidOutcome)
      else if area.Some? && area != row.areaSlug && (id.event, area.value) !in s.areas then Some(UnknownArea)
      else None
  }

  function WithStatus(row: Row, p: Payload, now: int): Row
  {
    var state := if ParseState(p.state).Some? then ParseState(p.state).value else row.state;
    row.(isPrivate := if p.isPrivate.Some? then p.isPrivate.value else row.isPrivate,
         priority := if p.priority != 0 then p.priority else row.priority,
         state := state,
         closed := if state == row.state then row.closed else if state == Closed then Some(now) else None)
  }

  function WithTexts(row: Row, p: Payload): Row
  {
    row.(started := if p.started.Some? then p.started.value else row.started,
         summary := SetText(row.summary, p.summary, 0),
         description := SetText(row.description, p.description, 0),
         booth := SetText(row.booth, p.booth, BOOTH_LENGTH))
  }

  function UpdatedRow(row: Row, p: Payload, now: int, trim: string -> string): Row
  {
    WithTexts(WithStatus(row, p, now).(outcome := SetOutcome(row.outcome, p.outcome)), p)
      .(areaSlug := SetArea(row.areaSlug, p.areaSlug, trim))
  }

  function LineIf(changed: bool, line: Change): seq<Change>
  {
    if changed then [line] else []
  }

  function StatusLines(row: Row, row': Row): seq<Change>
  {
    LineIf(row'.isPrivate != row.isPrivate, Privacy(row'.isPrivate)) +
    LineIf(row'.priority != row.priority, Priority(row'.priority)) +
    LineIf(row'.state != row.state, StateTo(row'.state))
  }

  function TextLines(row: Row, row': Row): seq<Change>
  {
    LineIf(row'.started != row.started, Started(row'.started)) +
    LineIf(row'.summary != row.summary, Summary(row'.summary)) +
    LineIf(row'.description != row.description, Description(row'.description)) +
    LineIf(row'.booth != row.booth, Booth(row'.booth))
  }

  /** One line for every field whose value differs between the two rows. */
  function FieldChanges(row: Row, row': Row): seq<Change>
  {
    StatusLines(row, row') +
    LineIf(row'.outcome != row.outcome, Outcome(row'.outcome)) +
    TextLines(row, row') +
    LineIf(row'.areaSlug != row.areaSlug, AreaTo(row'.areaSlug))
  }

  // Lists.

  function TypesOf(types: set<(IncidentId, int)>, id: IncidentId): set<int>
  {
    set pair | pair in types && pair.0 == id :: pair.1
  }

  /** The reports, or visits, that refer to the incident. */
  function Referring(m: map<(int, int), Option<int>>, id: IncidentId): set<int>
  {
    set k | k in m && k.0 == id.event && m[k] == Some(id.number) :: k.1
  }

  function LinksOf(links: set<(IncidentId, IncidentId)>, id: IncidentId): set<IncidentId>
  {
    set pair | pair in links && pair.0 == id :: pair.1
  }

  /** What is wanted and not there yet; repetitions stay. */
  function Subtract<T(==)>(want: seq<T>, have: set<T>): seq<T>
  {
    if want == [] then []
    else Subtract(want[..|want| - 1], have) + (if want[|want| - 1] in have then [] else [want[|want| - 1]])
  }

  function AttachType(s: Store, id: IncidentId, t: int): Result<Store, Error>
  {
    if t !in s.knownTypes || (id, t) in s.types then Err(TypeAttachFailed)
    else Ok(s.(types := s.types + {(id, t)}))
  }

  function AttachTypes(s: Store, id: IncidentId, add: seq<int>): Result<Store, Error>
  {
    if add == [] then Ok(s)
    else
      var s' :- AttachTypes(s, id, add[..|add| - 1]);
      AttachType(s', id, add[|add| - 1])
  }

  function WithoutTypes(types: set<(IncidentId, int)>, id: IncidentId, sub: set<int>): set<(IncidentId, int)>
  {
    set pair | pair in types && !(pair.0 == id && pair.1 in sub)
  }

  function WithTypes(s: Store, id: IncidentId, want: Option<seq<int>>): Result<Store, Error>
  {
    if want.None? then Ok(s)
    else
      var have := TypesOf(s.types, id);
      var s' :- AttachTypes(s, id, Subtract(want.value, have));
      Ok(s'.(types := WithoutTypes(s'.types, id, have - ToSet(want.value))))
  }

  function SetReport(s: Store, k: (int, int), target: Option<int>): Store
  {
    if k in s.reports then s.(reports := s.reports[k := target]) else s
  }

  function Journal(s: Store, e: Entry): Store
  {
    s.(journal := s.journal + multiset{e})
  }

  /** The mirrored entry on the report's own timeline needs the report to exist. */
  function AttachReport(s: Store, id: IncidentId, number: int, author: int): Result<Store, Error>
  {
    var k := (id.event, number);
    if k !in s.reports then Err(ReportJournalFailed)
    else Ok(Journal(SetReport(s, k, Some(id.number)),
                    Entry(OnReport(id.event, number), author, AttachedTo(id.number), true)))
  }

  function AttachReports(s: Store, id: IncidentId, add: seq<int>, author: int): Result<Store, Error>
  {
    if add == [] then Ok(s)
    else
      var s' :- AttachReports(s, id, add[..|add| - 1], author);
      AttachReport(s', id, add[|add| - 1], author)
  }

  function Detached(m: map<(int, int), Option<int>>, id: IncidentId, sub: set<int>): map<(int, int), Option<int>>
  {
    map k | k in m :: if k.0 == id.event && k.1 in sub then None else m[k]
  }

  function DetachEntries(id: IncidentId, sub: set<int>, author: int): multiset<Entry>
  {
    multiset(set n | n in sub :: Entry(OnReport(id.event, n), author, DetachedFrom(id.number), true))
  }

  /** Detaches these reports, with an entry on each one's timeline. */
  function DetachReports(s: Store, id: IncidentId, sub: set<int>, author: int): Store
  {
    s.(reports := Detached(s.reports, id, sub), journal := s.journal + DetachEntries(id, sub, author))
  }

  function WithReports(s: Store, id: IncidentId, want: Option<seq<int>>, author: int): Result<Store, Error>
  {
    if want.None? then Ok(s)
    else
      var have := Referring(s.reports, id);
      var s' :- AttachReports(s, id, Subtract(want.value, have), author);
      Ok(DetachReports(s', id, have - ToSet(want.value), author))
  }

  /** Attaching these, in turn; one that does not exist matches no row. */
  function Marked(m: map<(int, int), Option<int>>, id: IncidentId, add: seq<int>): map<(int, int), Option<int>>
  {
    if add == [] then m
    else
      var m', k := Marked(m, id, add[..|add| - 1]), (id.event, add[|add| - 1]);
      if k in m' then m'[k := Some(id.number)] else m'
  }

  /** Visits write no entry of their own, so one that does not exist is passed over in silence. */
  function WithVisits(s: Store, id: IncidentId, want: Option<seq<int>>): Store
  {
    if want.None? then s
    else
      var have := Referring(s.visits, id);
      s.(visits := Detached(Marked(s.visits, id, Subtract(want.value, have)), id, have - ToSet(want.value)))
  }

  function Link(s: Store, id: IncidentId, other: IncidentId, author: int): Result<Store, Error>
  {
    if other !in s.rows || (id, other) in s.links then Err(LinkRejected)
    else if other == id || (other, id) in s.links then Err(LinkBackFailed)
    else Ok(Journal(s.(links := s.links + {(id, other), (other, id)}),
                    Entry(OnIncident(other), author, LinkedTo(id), true)))
  }

  function LinkAll(s: Store, id: IncidentId, add: seq<IncidentId>, author: int): Result<Store, Error>
  {
    if add == [] then Ok(s)
    else
      var s' :- LinkAll(s, id, add[..|add| - 1], author);
      Link(s', id, add[|add| - 1], author)
  }

  function Unlinked(links: set<(IncidentId, IncidentId)>, id: IncidentId, sub: set<IncidentId>): set<(IncidentId,
                    IncidentId)>
  {
    set pair | pair in links && !(pair.0 == id && pair.1 in sub) && !(pair.1 == id && pair.0 in sub)
  }

  function UnlinkEntries(id: IncidentId, sub: set<IncidentId>, author: int): multiset<Entry>
  {
    multiset(set o | o in sub :: Entry(OnIncident(o), author, UnlinkedFrom(id), true))
  }

  function UnlinkAll(s: Store, id: IncidentId, sub: set<IncidentId>, author: int): Store
  {
    s.(links := Unlinked(s.links, id, sub), journal := s.journal + UnlinkEntries(id, sub, author))
  }

  function WithLinks(s: Store, id: IncidentId, want: Option<seq<IncidentId>>, author: int): Result<Store, Error>
  {
    if want.None? then Ok(s)
    else
      var have := LinksOf(s.links, id);
      var s' :- LinkAll(s, id, Subtract(want.value, have), author);
      Ok(UnlinkAll(s', id, have - ToSet(want.value), author))
  }

  /** The lines for one list: what was added and what was removed, when there is anything. */
  function ListChanges<T>(want: Option<seq<T>>, have: set<T>, added: set<T> -> Change,
                          removed: set<T> -> Change): seq<Change>
  {
    if want.None? then []
    else
      var w := ToSet(want.value);
      LineIf(w - have != {}, added(w - have)) + LineIf(have - w != {}, removed(have - w))
  }

  function TypeLines(s: Store, id: IncidentId, want: Option<seq<int>>): seq<Change>
  {
    ListChanges(want, TypesOf(s.types, id), t => TypesAdded(t), t => TypesRemoved(t))
  }

  function ReportLines(s: Store, id: IncidentId, want: Option<seq<int>>): seq<Change>
  {
    ListChanges(want, Referring(s.reports, id), n => ReportsAdded(n), n => ReportsRemoved(n))
  }

  function VisitLines(s: Store, id: IncidentId, want: Option<seq<int>>): seq<Change>
  {
    ListChanges(want, Referring(s.visits, id), n => VisitsAdded(n), n => VisitsRemoved(n))
  }

  function LinkLines(s: Store, id: IncidentId, want: Option<seq<IncidentId>>): seq<Change>
  {
    ListChanges(want, LinksOf(s.links, id), l => LinksAdded(l), l => LinksRemoved(l))
  }

  function AllListChanges(s: Store, id: IncidentId, p: Payload): seq<Change>
  {
    TypeLines(s, id, p.typeIds) + ReportLines(s, id, p.reports) +
    VisitLines(s, id, p.visits) + LinkLines(s, id, p.linked)
  }

  function AllChanges(s: Store, id: IncidentId, row: Row, row': Row, p: Payload): seq<Change>
  {
    FieldChanges(row, row') + AllListChanges(s, id, p)
  }

  function SystemEntry(id: IncidentId, author: int, lines: seq<Change>): multiset<Entry>
  {
    if lines == [] then multiset{} else multiset{Entry(OnIncident(id), author, Changes(lines), true)}
  }

  function WrittenEntries(place: Place, author: int, texts: seq<string>): multiset<Entry>
  {
    if texts == [] then multiset{}
    else
      WrittenEntries(place, author, texts[..|texts| - 1]) +
      (if texts[|texts| - 1] == "" then multiset{}
       else multiset{Entry(place, author, Written(texts[|texts| - 1]), false)})
  }

  /** The four lists, one after another. */
  function WithLists(s: Store, id: IncidentId, p: Payload, author: int): Result<Store, Error>
  {
    var s2 :- WithTypes(s, id, p.typeIds);
    var s3 :- WithReports(s2, id, p.reports, author);
    WithLinks(WithVisits(s3, id, p.visits), id, p.linked, author)
  }

  /** The whole edit. An error leaves nothing behind: the transaction is rolled back. */
  function Update(s: Store, id: IncidentId, p: Payload, c: Caller, now: int,
                  trim: string -> string): Result<Store, Error>
  {
    if id !in s.rows then Err(NoSuchIncident)
    else
      var row := s.rows[id];
      var problem := FieldProblem(s, id, row, p, c, trim);
      if problem.Some? then Err(problem.value)
      else
        var row' := UpdatedRow(row, p, now, trim);
        var s' :- WithLists(s.(rows := s.rows[id := row']), id, p, c.author);
        Ok(s'.(journal := s'.journal + SystemEntry(id, c.author, AllChanges(s, id, row, row', p))
                          + WrittenEntries(OnIncident(id), c.author, p.entries)))
  }

  // What holds of every store.

  /** Links are symmetric, and join different incidents that exist. */
  ghost predicate LinksOk(s: Store)
  {
    forall pair :: pair in s.links ==>
                     (pair.1, pair.0) in s.links && pair.0 != pair.1 && pair.0 in s.rows && pair.1 in s.rows
  }

  ghost predicate RefersTo(m: map<(int, int), Option<int>>, rows: map<IncidentId, Row>)
  {
    forall k :: k in m && m[k].Some? ==> IncidentId(k.0, m[k].value) in rows
  }

  /** A closing time is recorded exactly for closed incidents; outcome and area are real ones. */
  ghost predicate RowOk(s: Store, id: IncidentId, row: Row)
  {
    && (row.state == Closed <==> row.closed.Some?)
    && (row.outcome.Some? ==> row.outcome.value in s.outcomes)
    && (row.areaSlug.Some? ==> (id.event, row.areaSlug.value) in s.areas)
  }

  ghost predicate Inv(s: Store)
  {
    && LinksOk(s)
    && (forall pair :: pair in s.types ==> pair.0 in s.rows && pair.1 in s.knownTypes)
    && RefersTo(s.reports, s.rows) && RefersTo(s.visits, s.rows)
    && (forall id :: id in s.rows ==> RowOk(s, id, s.rows[id]))
  }
}

/**
 The incident edit as the program carries it out (incident.go 402-851): field by field, then list by
 list, row by row, on a transaction that is kept only if nothing fails. Beside it, creating an
 incident and editing a report (connect.go 345-408, 1101-1211, 1414-1467), which write in several goes.
 */
module IncidentService {
  import opened Prelude
  import opened Incident
  import opened IncidentLists
  import opened IncidentRuns
  import opened IncidentEffects

  /** sliceSubtract (incident.go 892-900). */
  method SliceSubtract<T(==)>(a: seq<T>, b: seq<T>) returns (ret: seq<T>)
    ensures ret == Subtract(a, ToSet(b))
  {
    ret := [];
    for i := 0 to |a|
      invariant ret == Subtract(a[..i], ToSet(b))
    {
      assert a[..i + 1][..i] == a[..i];
      if a[i] !in b {
        ret := ret + [a[i]];
      }
    }
    assert a[..|a|] == a;
  }

  /** A read of rows, in whatever order the store returns them. */
  method InSomeOrder<T(==)>(rows: set<T>) returns (r: seq<T>)
    ensures NoDuplicates(r) && ToSet(r) == rows
  {
    r := [];
    var rest := rows;
    while rest != {}
      invariant NoDuplicates(r) && rest <= rows && ToSet(r) == rows - rest
    {
      var x :| x in rest;
      assert x !in ToSet(r);
      ghost var before := r;
      rest, r := rest - {x}, r + [x];
      assert ToSet(r) == ToSet(before) + {x};
    }
  }

  lemma {:induction false} SubtractNoDuplicates<T>(a: seq<T>, b: set<T>)
    requires NoDuplicates(a)
    ensures NoDuplicates(Subtract(a, b))
  {
    if a != [] {
      var init, last := a[..|a| - 1], a[|a| - 1];
      SubtractNoDuplicates(init, b);
      SubtractIn(init, b, last);
      NoDuplicatesSplit(a);
      var r := Subtract(a, b);
      if r != [] && last !in b {
        assert r == Subtract(init, b) + [last];
        NoDuplicatesSplit(r);
      }
    }
  }

  lemma SubtractSet<T>(a: seq<T>, b: set<T>)
    ensures ToSet(Subtract(a, b)) == ToSet(a) - b
    ensures Subtract(a, b) == [] <==> ToSet(a) - b == {}
  {
    var r := Subtract(a, b);
    forall x ensures x in ToSet(r) <==> x in ToSet(a) - b { SubtractIn(a, b, x); }
    if |r| > 0 { assert r[0] in ToSet(r); }
  }

  /** What to add and what to take away. */
  method Difference<T(==)>(want: seq<T>, stored: set<T>) returns (add: seq<T>, sub: seq<T>)
    ensures add == Subtract(want, stored) && ToSet(add) == ToSet(want) - stored
    ensures NoDuplicates(sub) && ToSet(sub) == stored - ToSet(want)
    ensures add == [] <==> ToSet(want) - stored == {}
    ensures sub == [] <==> stored - ToSet(want) == {}
  {
    var have := InSomeOrder(stored);
    add := SliceSubtract(want, have);
    sub := SliceSubtract(have, want);
    SubtractSet(want, stored);
    SubtractSet(have, ToSet(want));
    SubtractNoDuplicates(have, ToSet(want));
  }

  lemma TakeOneMore<T>(s: seq<T>, i: nat)
    requires i < |s|
    ensures s[..i + 1][..i] == s[..i] && s[..i + 1] == s[..i] + [s[i]]
    ensures ToSet(s[..i + 1]) == ToSet(s[..i]) + {s[i]}
    ensures NoDuplicates(s) ==> s[i] !in s[..i]
  {
  }

  // Types.

  lemma {:induction false} AttachTypesStops(s: Store, id: IncidentId, add: seq<int>, i: nat)
    requires i <= |add| && AttachTypes(s, id, add[..i]).Err?
    ensures AttachTypes(s, id, add) == AttachTypes(s, id, add[..i])
    decreases |add|
  {
    if i == |add| {
      assert add[..i] == add;
    } else {
      assert add[..|add| - 1][..i] == add[..i];
      AttachTypesStops(s, id, add[..|add| - 1], i);
    }
  }

  method AttachEachType(tx: Store, id: IncidentId, add: seq<int>) returns (r: Result<Store, Error>)
    ensures r == AttachTypes(tx, id, add)
  {
    var s := tx;
    for i := 0 to |add|
      invariant AttachTypes(tx, id, add[..i]) == Ok(s)
    {
      TakeOneMore(add, i);
      var attached := AttachType(s, id, add[i]);
      if attached.Err? {
        AttachTypesStops(tx, id, add, i + 1);
        return Err(attached.error);
      }
      s := attached.value;
    }
    assert add[..|add|] == add;
    r := Ok(s);
  }

  method DetachEachType(before: set<(IncidentId, int)>, id: IncidentId,
                        sub: seq<int>) returns (types: set<(IncidentId, int)>)
    ensures types == WithoutTypes(before, id, ToSet(sub))
  {
    types := before;
    assert ToSet(sub[..0]) == {} && WithoutTypes(before, id, {}) == before;
    for i := 0 to |sub|
      invariant types == WithoutTypes(before, id, ToSet(sub[..i]))
    {
      TakeOneMore(sub, i);
      types := types - {(id, sub[i])};
    }
    assert sub[..|sub|] == sub;
  }

  method ReconcileTypes(tx: Store, id: IncidentId, list: Option<seq<int>>) returns (r: Result<Store, Error>,
                        lines: seq<Change>)
    ensures r == WithTypes(tx, id, list)
    ensures r.Ok? ==> lines == TypeLines(tx, id, list)
  {
    if list.None? { return Ok(tx), []; }
    var add, sub := Difference(list.value, TypesOf(tx.types, id));
    lines := if |add| > 0 then [TypesAdded(ToSet(add))] else [];
    r := AttachEachType(tx, id, add);
    if r.Ok? {
      if |sub| > 0 { lines := lines + [TypesRemoved(ToSet(sub))]; }
      var types := DetachEachType(r.value.types, id, sub);
      r := Ok(r.value.(types := types));
    }
  }

  // Reports.

  lemma {:induction false} AttachReportsStops(s: Store, id: IncidentId, add: seq<int>, author: int, i: nat)
    requires i <= |add| && AttachReports(s, id, add[..i], author).Err?
    ensures AttachReports(s, id, add, author) == AttachReports(s, id, add[..i], author)
    decreases |add|
  {
    if i == |add| {
      assert add[..i] == add;
    } else {
      assert add[..|add| - 1][..i] == add[..i];
      AttachReportsStops(s, id, add[..|add| - 1], author, i);
    }
  }

  function DetachReport(s: Store, id: IncidentId, number: int, author: int): Store
  {
    Journal(SetReport(s, (id.event, number), None),
            Entry(OnReport(id.event, number), author, DetachedFrom(id.number), true))
  }

  lemma DetachOneMore(s: Store, id: IncidentId, done: set<int>, number: int, author: int)
    requires number !in done
    ensures DetachReport(DetachReports(s, id, done, author), id, number, author) ==
            DetachReports(s, id, done + {number}, author)
  {
    var left := DetachReport(DetachReports(s, id, done, author), id, number, author);
    var right := DetachReports(s, id, done + {number}, author);
    assert left.reports == right.reports;
    DetachEntriesOneMore(id, done, number, author);
    assert left.journal == right.journal;
  }

  lemma DetachEntriesOneMore(id: IncidentId, done: set<int>, number: int, author: int)
    requires number !in done
    ensures DetachEntries(id, done + {number}, author) ==
            DetachEntries(id, done, author) +
            multiset{Entry(OnReport(id.event, number), author, DetachedFrom(id.number), true)}
  {
    var e := Entry(OnReport(id.event, number), author, DetachedFrom(id.number), true);
    var before, after := set n | n in done :: Entry(OnReport(id.event, n), author, DetachedFrom(id.number), true),
                      set n | n in done + {number} ::
                        Entry(OnReport(id.event, n), author, DetachedFrom(id.number), true);
    assert after == before + {e} && e !in before;
  }

  lemma DetachNone(s: Store, id: IncidentId, author: int)
    ensures DetachReports(s, id, {}, author) == s
  {
    assert Detached(s.reports, id, {}) == s.reports;
    assert DetachEntries(id, {}, author) == multiset{};
  }

  method AttachEachReport(tx: Store, id: IncidentId, add: seq<int>, author: int) returns (r: Result<Store, Error>)
    ensures r == AttachReports(tx, id, add, author)
  {
    var s := tx;
    for i := 0 to |add|
      invariant AttachReports(tx, id, add[..i], author) == Ok(s)
    {
      TakeOneMore(add, i);
      var attached := AttachReport(s, id, add[i], author);
      if attached.Err? {
        AttachReportsStops(tx, id, add, author, i + 1);
        return Err(attached.error);
      }
      s := attached.value;
    }
    assert add[..|add|] == add;
    r := Ok(s);
  }

  method DetachEachReport(tx: Store, id: IncidentId, sub: seq<int>, author: int) returns (s: Store)
    requires NoDuplicates(sub)
    ensures s == DetachReports(tx, id, ToSet(sub), author)
  {
    s := tx;
    DetachNone(tx, id, author);
    assert ToSet(sub[..0]) == {};
    for i := 0 to |sub|
      invariant s == DetachReports(tx, id, ToSet(sub[..i]), author)
    {
      TakeOneMore(sub, i);
      DetachOneMore(tx, id, ToSet(sub[..i]), sub[i], author);
      s := DetachReport(s, id, sub[i], author);
    }
    assert sub[..|sub|] == sub;
  }

  method ReconcileReports(tx: Store, id: IncidentId, list: Option<seq<int>>, author: int)
    returns (r: Result<Store, Error>, lines: seq<Change>)
    ensures r == WithReports(tx, id, list, author)
    ensures r.Ok? ==> lines == ReportLines(tx, id, list)
  {
    if list.None? { return Ok(tx), []; }
    var add, sub := Difference(list.value, Referring(tx.reports, id));
    lines := if |add| > 0 then [ReportsAdded(ToSet(add))] else [];
    r := AttachEachReport(tx, id, add, author);
    if r.Ok? {
      if |sub| > 0 { lines := lines + [ReportsRemoved(ToSet(sub))]; }
      var detached := DetachEachReport(r.value, id, sub, author);
      r := Ok(detached);
    }
  }

  // Visits.

  method MarkEachVisit(m: map<(int, int), Option<int>>, id: IncidentId,
                       add: seq<int>) returns (visits: map<(int, int), Option<int>>)
    ensures visits == Marked(m, id, add)
  {
    visits := m;
    for i := 0 to |add|
      invariant visits == Marked(m, id, add[..i])
    {
      TakeOneMore(add, i);
      var k := (id.event, add[i]);
      if k in visits { visits := visits[k := Some(id.number)]; }
    }
    assert add[..|add|] == add;
  }

  lemma DetachedOneMore(m: map<(int, int), Option<int>>, id: IncidentId, done: set<int>, number: int)
    ensures var m', k := Detached(m, id, done), (id.event, number);
            Detached(m, id, done + {number}) == if k in m' then m'[k := None] else m'
  {
    var m', k := Detached(m, id, done), (id.event, number);
    var left, right := Detached(m, id, done + {number}), if k in m' then m'[k := None] else m';
    assert left.Keys == right.Keys;
    forall j | j in left ensures left[j] == right[j] {
      assert j == (j.0, j.1);
    }
  }

  method ClearEachVisit(m: map<(int, int), Option<int>>, id: IncidentId,
                        sub: seq<int>) returns (visits: map<(int, int), Option<int>>)
    ensures visits == Detached(m, id, ToSet(sub))
  {
    visits := m;
    assert ToSet(sub[..0]) == {} && Detached(m, id, {}) == m;
    for i := 0 to |sub|
      invariant visits == Detached(m, id, ToSet(sub[..i]))
    {
      TakeOneMore(sub, i);
      DetachedOneMore(m, id, ToSet(sub[..i]), sub[i]);
      var k := (id.event, sub[i]);
      if k in visits { visits := visits[k := None]; }
    }
    assert sub[..|sub|] == sub;
  }

  method ReconcileVisits(tx: Store, id: IncidentId, list: Option<seq<int>>) returns (s: Store, lines: seq<Change>)
    ensures s == WithVisits(tx, id, list)
    ensures lines == VisitLines(tx, id, list)
  {
    if list.None? { return tx, []; }
    var add, sub := Difference(list.value, Referring(tx.visits, id));
    lines := if |add| > 0 then [VisitsAdded(ToSet(add))] else [];
    var visits := MarkEachVisit(tx.visits, id, add);
    if |sub| > 0 { lines := lines + [VisitsRemoved(ToSet(sub))]; }
    visits := ClearEachVisit(visits, id, sub);
    s := tx.(visits := visits);
  }

  // Links.

  lemma {:induction false} LinkAllStops(s: Store, id: IncidentId, add: seq<IncidentId>, author: int, i: nat)
    requires i <= |add| && LinkAll(s, id, add[..i], author).Err?
    ensures LinkAll(s, id, add, author) == LinkAll(s, id, add[..i], author)
    decreases |add|
  {
    if i == |add| {
      assert add[..i] == add;
    } else {
      assert add[..|add| - 1][..i] == add[..i];
      LinkAllStops(s, id, add[..|add| - 1], author, i);
    }
  }

  function Unlink(s: Store, id: IncidentId, other: IncidentId, author: int): Store
  {
    Journal(s.(links := s.links - {(id, other)} - {(other, id)}),
            Entry(OnIncident(other), author, UnlinkedFrom(id), true))
  }

  lemma UnlinkEntriesOneMore(id: IncidentId, done: set<IncidentId>, other: IncidentId, author: int)
    requires other !in done
    ensures UnlinkEntries(id, done + {other}, author) ==
            UnlinkEntries(id, done, author) + multiset{Entry(OnIncident(other), author, UnlinkedFrom(id), true)}
  {
    var e := Entry(OnIncident(other), author, UnlinkedFrom(id), true);
    var before, after := set o | o in done :: Entry(OnIncident(o), author, UnlinkedFrom(id), true),
                         set o | o in done + {other} :: Entry(OnIncident(o), author, UnlinkedFrom(id), true);
    assert after == before + {e} && e !in before;
  }

  lemma UnlinkOneMore(s: Store, id: IncidentId, done: set<IncidentId>, other: IncidentId, author: int)
    requires other !in done
    ensures Unlink(UnlinkAll(s, id, done, author), id, other, author) == UnlinkAll(s, id, done + {other}, author)
  {
    var left, right := Unlink(UnlinkAll(s, id, done, author), id, other, author),
                       UnlinkAll(s, id, done + {other}, author);
    forall pair: (IncidentId, IncidentId) ensures pair in left.links <==> pair in right.links {
      assert pair == (pair.0, pair.1);
    }
    UnlinkEntriesOneMore(id, done, other, author);
    assert left.journal == right.journal;
  }

  lemma UnlinkNone(s: Store, id: IncidentId, author: int)
    ensures UnlinkAll(s, id, {}, author) == s
  {
    assert Unlinked(s.links, id, {}) == s.links;
    assert UnlinkEntries(id, {}, author) == multiset{};
  }

  method LinkEach(tx: Store, id: IncidentId, add: seq<IncidentId>, author: int) returns (r: Result<Store, Error>)
    ensures r == LinkAll(tx, id, add, author)
  {
    var s := tx;
    for i := 0 to |add|
      invariant LinkAll(tx, id, add[..i], author) == Ok(s)
    {
      TakeOneMore(add, i);
      var linked := Link(s, id, add[i], author);
      if linked.Err? {
        LinkAllStops(tx, id, add, author, i + 1);
        return Err(linked.error);
      }
      s := linked.value;
    }
    assert add[..|add|] == add;
    r := Ok(s);
  }

  method UnlinkEach(tx: Store, id: IncidentId, sub: seq<IncidentId>, author: int) returns (s: Store)
    requires NoDuplicates(sub)
    ensures s == UnlinkAll(tx, id, ToSet(sub), author)
  {
    s := tx;
    UnlinkNone(tx, id, author);
    assert ToSet(sub[..0]) == {};
    for i := 0 to |sub|
      invariant s == UnlinkAll(tx, id, ToSet(sub[..i]), author)
    {
      TakeOneMore(sub, i);
      UnlinkOneMore(tx, id, ToSet(sub[..i]), sub[i], author);
      s := Unlink(s, id, sub[i], author);
    }
    assert sub[..|sub|] == sub;
  }

  method ReconcileLinks(tx: Store, id: IncidentId, list: Option<seq<IncidentId>>, author: int)
    returns (r: Result<Store, Error>, lines: seq<Change>)
    ensures r == WithLinks(tx, id, list, author)
    ensures r.Ok? ==> lines == LinkLines(tx, id, list)
  {
    if list.None? { return Ok(tx), []; }
    var add, sub := Difference(list.value, LinksOf(tx.links, id));
    lines := if |add| > 0 then [LinksAdded(ToSet(add))] else [];
    r := LinkEach(tx, id, add, author);
    if r.Ok? {
      if |sub| > 0 { lines := lines + [LinksRemoved(ToSet(sub))]; }
      var unlinked := UnlinkEach(r.value, id, sub, author);
      r := Ok(unlinked);
    }
  }

  // Fields.

  /** Privacy, priority and state. */
  method EditStatus(stored: Row, p: Payload, c: Caller, now: int) returns (r: Result<Row, Error>, lines: seq<Change>)
    ensures r.Err? <==> p.isPrivate.Some? && !c.isAdmin && stored.createdBy != Some(c.author)
    ensures r.Err? ==> r.error == PrivacyForbidden
    ensures r.Ok? ==> r.value == WithStatus(stored, p, now) && lines == StatusLines(stored, r.value)
  {
    var update := stored;
    lines := [];
    if p.isPrivate.Some? {
      if !c.isAdmin && !(stored.createdBy.Some? && stored.createdBy.value == c.author) {
        return Err(PrivacyForbidden), lines;
      }
      if p.isPrivate.value != stored.isPrivate {
        update := update.(isPrivate := p.isPrivate.value);
        lines := lines + [Privacy(p.isPrivate.value)];
      }
    }
    if p.priority != 0 && p.priority != stored.priority {
      update := update.(priority := p.priority);
      lines := lines + [Priority(p.priority)];
    }
    var state := ParseState(p.state);
    if state.Some? && state.value != stored.state {
      update := update.(state := state.value, closed := if state.value == Closed then Some(now) else None);
      lines := lines + [StateTo(state.value)];
    }
    r := Ok(update);
  }

  method EditOutcome(known: set<int>, stored: Option<int>, want: Option<int>) returns (r: Result<Option<int>, Error>,
                     lines: seq<Change>)
    ensures var outcome := SetOutcome(stored, want);
            if outcome.Some? && outcome != stored && outcome.value !in known then r == Err(InvalidOutcome)
            else r == Ok(outcome) && lines == LineIf(outcome != stored, Outcome(outcome))
  {
    var update := stored;
    lines := [];
    if want.Some? {
      if want.value == 0 {
        if stored.Some? {
          update := None;
          lines := [Outcome(None)];
        }
      } else if stored.None? || stored.value != want.value {
        if want.value !in known {
          return Err(InvalidOutcome), lines;
        }
        update := want;
        lines := [Outcome(want)];
      }
    }
    r := Ok(update);
  }

  method EditText(stored: Option<string>, want: Option<string>, maxLength: nat) returns (text: Option<string>,
                  changed: bool)
    ensures text == SetText(stored, want, maxLength) && changed == (text != stored)
    ensures TextAsRequested(stored, want, maxLength, text)
  {
    text, changed := stored, false;
    if want.Some? {
      var submitted := StringToSql(want.value, maxLength);
      if submitted != stored { text, changed := submitted, true; }
    }
  }

  /** Start time and free text. */
  method EditTexts(stored: Row, p: Payload) returns (row: Row, lines: seq<Change>)
    ensures row == WithTexts(stored, p) && lines == TextLines(stored, row)
    ensures row.started == if p.started.Some? then p.started.value else stored.started
    ensures TextAsRequested(stored.summary, p.summary, 0, row.summary)
    ensures TextAsRequested(stored.description, p.description, 0, row.description)
    ensures TextAsRequested(stored.booth, p.booth, 32, row.booth)
  {
    var started := stored.started;
    lines := [];
    if p.started.Some? && p.started.value != stored.started {
      started := p.started.value;
      lines := lines + [Started(started)];
    }
    var summary, newSummary := EditText(stored.summary, p.summary, 0);
    if newSummary { lines := lines + [Summary(summary)]; }
    var description, newDescription := EditText(stored.description, p.description, 0);
    if newDescription { lines := lines + [Description(description)]; }
    var booth, newBooth := EditText(stored.booth, p.booth, BOOTH_LENGTH);
    if newBooth { lines := lines + [Booth(booth)]; }
    row := stored.(started := started, summary := summary, description := description, booth := booth);
  }

  method EditArea(areas: set<(int, string)>, event: int, stored: Option<string>, want: Option<string>,
                  trim: string -> string)
    returns (r: Result<Option<string>, Error>, lines: seq<Change>)
    ensures var area := SetArea(stored, want, trim);
            if area.Some? && area != stored && (event, area.value) !in areas then r == Err(UnknownArea)
            else r == Ok(area) && lines == LineIf(area != stored, AreaTo(area))
  {
    var update := stored;
    lines := [];
    if want.Some? {
      var slug := trim(want.value);
      if slug == "" {
        if stored.Some? {
          update := None;
          lines := [AreaTo(None)];
        }
      } else if stored.None? || stored.value != slug {
        if (event, slug) !in areas {
          return Err(UnknownArea), lines;
        }
        update := Some(slug);
        lines := [AreaTo(Some(slug))];
      }
    }
    r := Ok(update);
  }

  lemma FieldsTogether(stored: Row, p: Payload, now: int, trim: string -> string, texts: Row, row: Row)
    requires texts == WithTexts(WithStatus(stored, p, now).(outcome := SetOutcome(stored.outcome, p.outcome)), p)
    requires row == texts.(areaSlug := SetArea(stored.areaSlug, p.areaSlug, trim))
    ensures row == UpdatedRow(stored, p, now, trim)
    ensures StatusLines(stored, row) == StatusLines(stored, WithStatus(stored, p, now))
    ensures TextLines(stored, row) ==
            TextLines(WithStatus(stored, p, now).(outcome := SetOutcome(stored.outcome, p.outcome)), texts)
  {
  }

  method ReconcileFields(s: Store, id: IncidentId, p: Payload, c: Caller, now: int, trim: string -> string)
    returns (r: Result<Row, Error>, lines: seq<Change>)
    requires id in s.rows
    ensures var problem := FieldProblem(s, id, s.rows[id], p, c, trim);
            if problem.Some? then r == Err(problem.value)
            else r == Ok(UpdatedRow(s.rows[id], p, now, trim)) && lines == FieldChanges(s.rows[id], r.value)
    ensures r.Ok? ==> RowAsRequested(s.rows[id], p, now, trim, r.value)
  {
    var stored := s.rows[id];
    var status, statusLines := EditStatus(stored, p, c, now);
    if status.Err? { return Err(status.error), []; }
    var outcome, outcomeLines := EditOutcome(s.outcomes, stored.outcome, p.outcome);
    if outcome.Err? { return Err(outcome.error), []; }
    var row, textLines := EditTexts(status.value.(outcome := outcome.value), p);
    var area, areaLines := EditArea(s.areas, id.event, stored.areaSlug, p.areaSlug, trim);
    if area.Err? { return Err(area.error), []; }
    r := Ok(row.(areaSlug := area.value));
    lines := statusLines + outcomeLines + textLines + areaLines;
    FieldsTogether(stored, p, now, trim, row, r.value);
    UpdatedAsRequested(stored, p, now, trim);
  }

  method WriteEntries(tx: Store, place: Place, author: int, texts: seq<string>) returns (s: Store)
    ensures s == tx.(journal := tx.journal + WrittenEntries(place, author, texts))
  {
    s := tx;
    assert tx.journal + multiset{} == tx.journal;
    for i := 0 to |texts|
      invariant s == tx.(journal := tx.journal + WrittenEntries(place, author, texts[..i]))
    {
      TakeOneMore(texts, i);
      ghost var before := WrittenEntries(place, author, texts[..i]);
      if texts[i] != "" {
        var e := Entry(place, author, Written(texts[i]), false);
        s := Journal(s, e);
        assert tx.journal + (before + multiset{e}) == tx.journal + before + multiset{e};
      } else {
        assert before + multiset{} == before;
      }
    }
    assert texts[..|texts|] == texts;
  }

  lemma LinesReadBeforeTheWrites(tx: Store, s2: Store, s3: Store, s4: Store, id: IncidentId, p: Payload, author: int)
    requires WithTypes(tx, id, p.typeIds) == Ok(s2) && WithReports(s2, id, p.reports, author) == Ok(s3)
    requires s4 == WithVisits(s3, id, p.visits)
    ensures ReportLines(s2, id, p.reports) == ReportLines(tx, id, p.reports)
    ensures VisitLines(s3, id, p.visits) == VisitLines(tx, id, p.visits)
    ensures LinkLines(s4, id, p.linked) == LinkLines(tx, id, p.linked)
  {
    WithTypesClosed(tx, id, p.typeIds);
    WithReportsClosed(s2, id, p.reports, author);
  }

  method ReconcileLists(tx: Store, id: IncidentId, p: Payload, author: int) returns (r: Result<Store, Error>,
                        lines: seq<Change>)
    ensures r == WithLists(tx, id, p, author)
    ensures r.Ok? ==> lines == AllListChanges(tx, id, p)
  {
    var types, typeLines := ReconcileTypes(tx, id, p.typeIds);
    if types.Err? { return types, []; }
    var reports, reportLines := ReconcileReports(types.value, id, p.reports, author);
    if reports.Err? { return reports, []; }
    var visits, visitLines := ReconcileVisits(reports.value, id, p.visits);
    var linkLines;
    r, linkLines := ReconcileLinks(visits, id, p.linked, author);
    lines := typeLines + reportLines + visitLines + linkLines;
    LinesReadBeforeTheWrites(tx, types.value, reports.value, visits, id, p, author);
  }

  /** The number query: the largest of 1 and every used number plus one. */
  method NextNumber(used: set<int>) returns (n: int)
    ensures IsNext(used, n)
  {
    n := 1;
    var rest := used;
    while rest != {}
      invariant rest <= used && IsNext(used - rest, n)
    {
      assert (forall x :: x !in rest) ==> rest == {};
      var x :| x in rest;
      ghost var seen := used - rest;
      rest := rest - {x};
      if x >= n { n := x + 1; }
      assert used - rest == seen + {x};
    }
    assert used - {} == used;
  }

  method HasEntry(q: ReportRequest) returns (adds: bool)
    ensures adds <==> AddsEntry(q)
  {
    adds := false;
    for i := 0 to |q.entries|
      invariant adds <==> exists j :: 0 <= j < i && q.entries[j] != ""
    {
      if q.entries[i] != "" { adds := true; }
    }
    assert adds ==> AddsEntry(q) by {
      if adds { var j :| 0 <= j < |q.entries| && q.entries[j] != ""; assert q.entries[j] in q.entries; }
    }
  }

  class IncidentService {
    var store: Store

    /** The edit on the store: all of it, or an error and nothing. */
    method UpdateIncident(id: IncidentId, p: Payload, c: Caller, now: int,
                          trim: string -> string) returns (r: Result<(), Error>)
      modifies this
      ensures match Update(old(store), id, p, c, now, trim)
              case Ok(s) => r == Ok(()) && store == s
              case Err(e) => r == Err(e) && store == old(store)
    {
      if id !in store.rows { return Err(NoSuchIncident); }
      var tx := store;
      var fields, lines := ReconcileFields(tx, id, p, c, now, trim);
      if fields.Err? { return Err(fields.error); }
      tx := tx.(rows := tx.rows[id := fields.value]);
      var done, more := ReconcileLists(tx, id, p, c.author);
      if done.Err? { return Err(done.error); }
      tx, lines := done.value, lines + more;
      if |lines| > 0 {
        tx := Journal(tx, Entry(OnIncident(id), c.author, Changes(lines), true));
      } else {
        assert tx.journal + multiset{} == tx.journal;
      }
      tx := WriteEntries(tx, OnIncident(id), c.author, p.entries);
      store := tx;
      r := Ok(());
    }

    method CreateNewIncident(event: int, p: Payload, c: Caller, now: int,
                             trim: string -> string) returns (r: Result<int, Error>)
      modifies this
      ensures exists n ::
                && IsNext(IncidentNumbers(old(store), event), n)
                && store == CreateIncident(old(store), IncidentId(event, n), p, c, now, trim).store
                && r == (match CreateIncident(old(store), IncidentId(event, n), p, c, now, trim).error
                         case None => Ok(n)
                         case Some(e) => Err(e))
    {
      var n := NextNumber(IncidentNumbers(store, event));
      ghost var before := store;
      store := WithFreshRow(store, IncidentId(event, n), c.author, now);
      var edited := UpdateIncident(IncidentId(event, n), p, c, now, trim);
      assert store == CreateIncident(before, IncidentId(event, n), p, c, now, trim).store;
      r := if edited.Ok? then Ok(n) else Err(edited.error);
    }

    /** Only a link that differs is written, with an entry on the report and on the incident it joins or leaves. */
    method ReconcileLink(event: int, number: int, previous: Option<int>, desired: Option<int>, author: int)
      returns (r: Result<(), Error>)
      requires (event, number) in store.reports && store.reports[(event, number)] == previous
      modifies this
      ensures match ReconcileReportLink(old(store), event, number, desired, author)
              case Ok(s) => r == Ok(()) && store == s
              case Err(e) => r == Err(e) && store == old(store)
    {
      if desired.None? { return Ok(()); }
      var target := if desired.value > 0 then desired else None;
      if target == previous { return Ok(()); }
      if target.Some? && IncidentId(event, target.value) !in store.rows { return Err(UnknownReportTarget); }
      var onReport := if target.Some? then AttachedTo(target.value) else DetachedFrom(previous.value);
      var incident := if target.Some? then target else previous;
      var line := if target.Some? then ReportsAdded({number}) else ReportsRemoved({number});
      var linked := store.(reports := store.reports[(event, number) := target]);
      linked := Journal(linked, Entry(OnReport(event, number), author, onReport, true));
      store := Journal(linked, Entry(OnIncident(IncidentId(event, incident.value)), author, Changes([line]), true));
      r := Ok(());
    }

    method EditReport(event: int, number: int, q: ReportRequest, author: int, rights: Rights)
      returns (r: Result<(), Error>)
      modifies this
      ensures var o := UpdateReport(old(store), event, number, q, author, rights);
              store == o.store && r == (if o.error.None? then Ok(()) else Err(o.error.value))
    {
      var k := (event, number);
      if k !in store.reports { return Err(NoSuchReport); }
      if !rights.mayEdit { return Err(NotReportsEditor); }
      var stored := store.reports[k];
      var link := ReconcileLink(event, number, stored, q.incident, author);
      if link.Err? { return link; }
      var addsEntry := HasEntry(q);
      if q.summary.None? && !addsEntry { return Ok(()); }
      if q.summary.Some? && !rights.maySummarise { return Err(ReportForbidden); }
      if addsEntry && !rights.mayAdd { return Err(ReportForbidden); }
      var tx := store;
      if q.summary.Some? {
        tx := Journal(tx, Entry(OnReport(event, number), author, SummaryTo(q.summary.value), true));
      }
      tx := tx.(reports := tx.reports[k := stored]);
      tx := WriteEntries(tx, OnReport(event, number), author, q.entries);
      store := tx;
      r := Ok(());
    }
  }
}

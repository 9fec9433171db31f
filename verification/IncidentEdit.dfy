/**
 What one edit of an incident does as a whole (incident.go 402-851).
 */
module IncidentEdit {
  import opened Prelude
  import opened Incident
  import opened IncidentLists

  predicate Accepted(s: Store, id: IncidentId, p: Payload, c: Caller, trim: string -> string)
  {
    && id in s.rows
    && FieldProblem(s, id, s.rows[id], p, c, trim).None?
    && TypesAccepted(s, id, p.typeIds)
    && ReportsAccepted(s, id, p.reports)
    && LinksAccepted(s, id, p.linked)
  }

  /** The entries an accepted edit writes. */
  function NewEntries(s: Store, id: IncidentId, p: Payload, c: Caller, now: int,
                      trim: string -> string): multiset<Entry>
    requires id in s.rows
  {
    ReportEntries(s.reports, id, p.reports, c.author) +
    LinkListEntries(s.links, id, p.linked, c.author) +
    SystemEntry(id, c.author, AllChanges(s, id, s.rows[id], UpdatedRow(s.rows[id], p, now, trim), p)) +
    WrittenEntries(OnIncident(id), c.author, p.entries)
  }

  /** The store after an accepted edit: every table, outright. */
  function Edited(s: Store, id: IncidentId, p: Payload, c: Caller, now: int, trim: string -> string): Store
    requires id in s.rows
  {
    s.(rows := s.rows[id := UpdatedRow(s.rows[id], p, now, trim)],
       types := TypesAfter(s.types, id, p.typeIds),
       reports := ReferenceAfter(s.reports, id, p.reports),
       visits := ReferenceAfter(s.visits, id, p.visits),
       links := LinksAfter(s.links, id, p.linked),
       journal := s.journal + NewEntries(s, id, p, c, now, trim))
  }

  lemma UpdateClosed(s: Store, id: IncidentId, p: Payload, c: Caller, now: int, trim: string -> string)
    requires LinksOk(s)
    ensures Update(s, id, p, c, now, trim).Ok? <==> Accepted(s, id, p, c, trim)
    ensures Update(s, id, p, c, now, trim).Ok? ==>
              Update(s, id, p, c, now, trim).value == Edited(s, id, p, c, now, trim)
  {
    if id in s.rows && FieldProblem(s, id, s.rows[id], p, c, trim).None? {
      var row' := UpdatedRow(s.rows[id], p, now, trim);
      var s1 := s.(rows := s.rows[id := row']);
      assert s1.rows.Keys == s.rows.Keys;
      WithTypesClosed(s1, id, p.typeIds);
      if TypesAccepted(s, id, p.typeIds) {
        var s2 := WithTypes(s1, id, p.typeIds).value;
        WithReportsClosed(s2, id, p.reports, c.author);
        if ReportsAccepted(s, id, p.reports) {
          var s3 := WithReports(s2, id, p.reports, c.author).value;
          WithVisitsClosed(s3, id, p.visits);
          var s4 := WithVisits(s3, id, p.visits);
          assert LinksOk(s4);
          WithLinksClosed(s4, id, p.linked, c.author);
          assert LinksAccepted(s4, id, p.linked) <==> LinksAccepted(s, id, p.linked);
        }
      }
    }
  }

  /** Which refusal the caller sees: fields first, then types, reports and links. */
  lemma UpdateRefusal(s: Store, id: IncidentId, p: Payload, c: Caller, now: int, trim: string -> string)
    requires LinksOk(s) && Update(s, id, p, c, now, trim).Err?
    ensures var e := Update(s, id, p, c, now, trim).error;
            if id !in s.rows then e == NoSuchIncident
            else if FieldProblem(s, id, s.rows[id], p, c, trim).Some?
              then Some(e) == FieldProblem(s, id, s.rows[id], p, c, trim)
            else if !TypesAccepted(s, id, p.typeIds) then e == TypeAttachFailed
            else if !ReportsAccepted(s, id, p.reports) then e == ReportJournalFailed
            else !LinksAccepted(s, id, p.linked) && (e == LinkRejected || e == LinkBackFailed)
  {
    UpdateClosed(s, id, p, c, now, trim);
    if id in s.rows && FieldProblem(s, id, s.rows[id], p, c, trim).None? {
      var s1 := s.(rows := s.rows[id := UpdatedRow(s.rows[id], p, now, trim)]);
      WithTypesClosed(s1, id, p.typeIds);
      if p.typeIds.Some? { AttachTypesError(s1, id, Subtract(p.typeIds.value, TypesOf(s1.types, id))); }
      if TypesAccepted(s, id, p.typeIds) {
        var s2 := WithTypes(s1, id, p.typeIds).value;
        WithReportsClosed(s2, id, p.reports, c.author);
        if p.reports.Some? {
          AttachReportsError(s2, id, Subtract(p.reports.value, Referring(s2.reports, id)), c.author);
        }
        if ReportsAccepted(s, id, p.reports) {
          var s4 := WithVisits(WithReports(s2, id, p.reports, c.author).value, id, p.visits);
          if p.linked.Some? { LinkAllError(s4, id, Subtract(p.linked.value, LinksOf(s4.links, id)), c.author); }
        }
      }
    }
  }

  // The lists afterwards.

  lemma TypesAfterAre(types: set<(IncidentId, int)>, id: IncidentId, want: seq<int>)
    ensures TypesOf(TypesAfter(types, id, Some(want)), id) == ToSet(want)
    ensures forall other :: other != id ==> TypesOf(TypesAfter(types, id, Some(want)), other) == TypesOf(types, other)
  {
    var after := TypesAfter(types, id, Some(want));
    forall pair: (IncidentId, int)
      ensures pair in after <==> (pair in types && pair.0 != id) || (pair.0 == id && pair.1 in want)
    {
      TypePairsIn(id, want, pair);
    }
    forall other, t
      ensures t in TypesOf(after, other) <==> if other == id then t in want else t in TypesOf(types, other) {
      TypesOfIn(after, other);
      TypesOfIn(types, other);
    }
  }

  lemma ReferencesAfterAre(m: map<(int, int), Option<int>>, id: IncidentId, want: seq<int>)
    ensures Referring(ReferenceAfter(m, id, Some(want)), id) == set n | n in want && (id.event, n) in m
    ensures (forall n :: n in want ==> (id.event, n) in m) ==>
              Referring(ReferenceAfter(m, id, Some(want)), id) == ToSet(want)
  {
    var after := ReferenceAfter(m, id, Some(want));
    ReferringIn(after, id);
    forall n ensures n in Referring(after, id) <==> n in want && (id.event, n) in m {}
    if forall n :: n in want ==> (id.event, n) in m {
      forall n ensures n in Referring(after, id) <==> n in ToSet(want) {}
    }
  }

  lemma LinksAfterAre(links: set<(IncidentId, IncidentId)>, id: IncidentId, want: seq<IncidentId>)
    requires id !in want
    ensures LinksOf(LinksAfter(links, id, Some(want)), id) == ToSet(want)
    ensures forall other :: id in LinksOf(LinksAfter(links, id, Some(want)), other) <==> other in want
    ensures forall a, b :: a != id && b != id ==> ((a, b) in LinksAfter(links, id, Some(want)) <==> (a, b) in links)
  {
    var after := LinksAfter(links, id, Some(want));
    forall pair: (IncidentId, IncidentId)
      ensures pair in after <==>
              (pair in links && pair.0 != id && pair.1 != id)
              || (pair.0 == id && pair.1 in want) || (pair.1 == id && pair.0 in want)
    {
      PairsIn(id, want, pair);
    }
    forall o ensures o in LinksOf(after, id) <==> o in want { LinksOfIn(after, id); }
    forall other ensures id in LinksOf(after, other) <==> other in want { LinksOfIn(after, other); }
  }

  lemma LinksNeverSelf(s: Store, id: IncidentId, want: Option<seq<IncidentId>>)
    requires LinksOk(s) && LinksAccepted(s, id, want)
    ensures want.Some? ==> id !in want.value
  {
    LinksOfIn(s.links, id);
  }

  lemma LinksAreMutual(s: Store, id: IncidentId)
    requires LinksOk(s)
    ensures forall other :: id in LinksOf(s.links, other) <==> other in LinksOf(s.links, id)
  {
    forall other ensures id in LinksOf(s.links, other) <==> other in LinksOf(s.links, id) {
      LinksOfIn(s.links, id);
      LinksOfIn(s.links, other);
      assert (id, other) in s.links <==> (other, id) in s.links;
    }
  }

  /** Each list present in an accepted edit is afterwards the requested one; an absent one is untouched. */
  lemma ListsEqualRequested(s: Store, id: IncidentId, p: Payload, c: Caller, now: int, trim: string -> string,
                            s': Store)
    requires LinksOk(s) && Update(s, id, p, c, now, trim) == Ok(s')
    ensures TypesOf(s'.types, id) == if p.typeIds.Some? then ToSet(p.typeIds.value) else TypesOf(s.types, id)
    ensures Referring(s'.reports, id) == if p.reports.Some? then ToSet(p.reports.value) else Referring(s.reports, id)
    ensures Referring(s'.visits, id) ==
            if p.visits.Some? then set n | n in p.visits.value && (id.event, n) in s.visits else Referring(s.visits, id)
    ensures LinksOf(s'.links, id) == if p.linked.Some? then ToSet(p.linked.value) else LinksOf(s.links, id)
  {
    UpdateClosed(s, id, p, c, now, trim);
    LinksNeverSelf(s, id, p.linked);
    if p.typeIds.Some? { TypesAfterAre(s.types, id, p.typeIds.value); }
    if p.reports.Some? { ReferencesAfterAre(s.reports, id, p.reports.value); }
    if p.visits.Some? { ReferencesAfterAre(s.visits, id, p.visits.value); }
    if p.linked.Some? { LinksAfterAre(s.links, id, p.linked.value); }
  }

  /**
   Other incidents keep their types and their links among themselves; they link back to this one
   exactly as it links to them.
   */
  lemma OthersKeepTheirs(s: Store, id: IncidentId, p: Payload, c: Caller, now: int, trim: string -> string, s': Store)
    requires LinksOk(s) && Update(s, id, p, c, now, trim) == Ok(s')
    ensures forall other :: other != id ==> TypesOf(s'.types, other) == TypesOf(s.types, other)
    ensures forall a, b :: a != id && b != id ==> ((a, b) in s'.links <==> (a, b) in s.links)
    ensures forall other :: id in LinksOf(s'.links, other) <==> other in LinksOf(s'.links, id)
    ensures forall other :: other != id && other in s.rows ==> other in s'.rows && s'.rows[other] == s.rows[other]
  {
    UpdateClosed(s, id, p, c, now, trim);
    LinksNeverSelf(s, id, p.linked);
    if p.typeIds.Some? { TypesAfterAre(s.types, id, p.typeIds.value); }
    if p.linked.Some? { LinksAfterAre(s.links, id, p.linked.value); } else { LinksAreMutual(s, id); }
  }

  /** A report or visit that is not asked for, or is another event's, keeps its incident unless it was this one. */
  lemma OthersKeepTheirReferences(s: Store, id: IncidentId, p: Payload, c: Caller, now: int, trim: string -> string,
                                  s': Store, k: (int, int))
    requires LinksOk(s) && Update(s, id, p, c, now, trim) == Ok(s')
    ensures s'.reports.Keys == s.reports.Keys && s'.visits.Keys == s.visits.Keys
    ensures k in s.reports && s'.reports[k] != s.reports[k] ==>
              && k.0 == id.event && p.reports.Some?
              && s'.reports[k] == (if k.1 in p.reports.value then Some(id.number) else None)
              && (k.1 !in p.reports.value ==> s.reports[k] == Some(id.number))
    ensures k in s.visits && s'.visits[k] != s.visits[k] ==>
              && k.0 == id.event && p.visits.Some?
              && s'.visits[k] == (if k.1 in p.visits.value then Some(id.number) else None)
              && (k.1 !in p.visits.value ==> s.visits[k] == Some(id.number))
  {
    UpdateClosed(s, id, p, c, now, trim);
  }

  /** An incident is never linked to itself, and no new link or type may be asked for twice. */
  lemma RefusedLists(s: Store, id: IncidentId, p: Payload, c: Caller, now: int, trim: string -> string)
    requires LinksOk(s)
    requires || (p.linked.Some? && id in p.linked.value)
             || (p.linked.Some? && !NoDuplicates(Subtract(p.linked.value, LinksOf(s.links, id))))
             || (p.typeIds.Some? && !NoDuplicates(Subtract(p.typeIds.value, TypesOf(s.types, id))))
    ensures Update(s, id, p, c, now, trim).Err?
  {
    UpdateClosed(s, id, p, c, now, trim);
    if Accepted(s, id, p, c, trim) { LinksNeverSelf(s, id, p.linked); }
  }

  // The change lines.

  lemma FieldChangesExactly(row: Row, p: Payload, now: int, trim: string -> string)
    ensures FieldChanges(row, UpdatedRow(row, p, now, trim)) == [] <==> UpdatedRow(row, p, now, trim) == row
  {
  }

  lemma ListChangesExactly<T>(want: Option<seq<T>>, have: set<T>, added: set<T> -> Change, removed: set<T> -> Change)
    ensures ListChanges(want, have, added, removed) == [] <==> want.None? || ToSet(want.value) == have
  {
    if want.Some? {
      var w := ToSet(want.value);
      assert w - have == {} && have - w == {} <==> w == have by {
        assert forall x :: x in w && x !in have ==> x in w - have;
        assert forall x :: x in have && x !in w ==> x in have - w;
      }
    }
  }

  lemma TypesUnchanged(types: set<(IncidentId, int)>, id: IncidentId, want: seq<int>)
    ensures TypesAfter(types, id, Some(want)) == types <==> ToSet(want) == TypesOf(types, id)
  {
    TypesAfterAre(types, id, want);
    if ToSet(want) == TypesOf(types, id) {
      forall pair: (IncidentId, int) ensures pair in TypesAfter(types, id, Some(want)) <==> pair in types {
        TypePairsIn(id, want, pair);
        TypesOfIn(types, id);
        assert pair.1 in want <==> pair.1 in ToSet(want);
        assert pair.0 == id ==> pair == (id, pair.1);
      }
    }
  }

  lemma ReferencesUnchanged(m: map<(int, int), Option<int>>, id: IncidentId, want: seq<int>)
    requires forall n :: n in want ==> (id.event, n) in m
    ensures ReferenceAfter(m, id, Some(want)) == m <==> ToSet(want) == Referring(m, id)
  {
    ReferencesAfterAre(m, id, want);
    ReferringIn(m, id);
    if ToSet(want) == Referring(m, id) {
      forall k | k in m ensures ReferenceAfter(m, id, Some(want))[k] == m[k] {
        assert k.1 in want <==> k.1 in ToSet(want);
        assert k.0 == id.event ==> k == (id.event, k.1);
      }
    }
  }

  lemma LinksUnchanged(s: Store, id: IncidentId, want: seq<IncidentId>)
    requires LinksOk(s) && id !in want
    ensures LinksAfter(s.links, id, Some(want)) == s.links <==> ToSet(want) == LinksOf(s.links, id)
  {
    LinksAfterAre(s.links, id, want);
    if ToSet(want) == LinksOf(s.links, id) {
      LinksOfIn(s.links, id);
      forall pair: (IncidentId, IncidentId) ensures pair in LinksAfter(s.links, id, Some(want)) <==> pair in s.links {
        PairsIn(id, want, pair);
        assert pair in s.links <==> (pair.1, pair.0) in s.links;
        assert forall o :: o in want <==> o in ToSet(want);
        assert pair == (pair.0, pair.1);
      }
    }
  }

  lemma NoLines(a: seq<Change>, b: seq<Change>, c: seq<Change>, d: seq<Change>, e: seq<Change>)
    ensures a + (b + c + d + e) == [] <==> a == [] && b == [] && c == [] && d == [] && e == []
  {
  }

  /** Which lists agree with the stored ones already. */
  predicate ListsAgree(s: Store, id: IncidentId, p: Payload)
  {
    && (p.typeIds.Some? ==> ToSet(p.typeIds.value) == TypesOf(s.types, id))
    && (p.reports.Some? ==> ToSet(p.reports.value) == Referring(s.reports, id))
    && (p.visits.Some? ==> ToSet(p.visits.value) == Referring(s.visits, id))
    && (p.linked.Some? ==> ToSet(p.linked.value) == LinksOf(s.links, id))
  }

  lemma NoChangesExactly(s: Store, id: IncidentId, p: Payload, now: int, trim: string -> string)
    requires id in s.rows
    ensures var row := s.rows[id];
            var row' := UpdatedRow(row, p, now, trim);
            AllChanges(s, id, row, row', p) == [] <==> row' == row && ListsAgree(s, id, p)
  {
    var row := s.rows[id];
    var row' := UpdatedRow(row, p, now, trim);
    FieldChangesExactly(row, p, now, trim);
    ListChangesExactly(p.typeIds, TypesOf(s.types, id), t => TypesAdded(t), t => TypesRemoved(t));
    ListChangesExactly(p.reports, Referring(s.reports, id), n => ReportsAdded(n), n => ReportsRemoved(n));
    ListChangesExactly(p.visits, Referring(s.visits, id), n => VisitsAdded(n), n => VisitsRemoved(n));
    ListChangesExactly(p.linked, LinksOf(s.links, id), l => LinksAdded(l), l => LinksRemoved(l));
    NoLines(FieldChanges(row, row'), TypeLines(s, id, p.typeIds), ReportLines(s, id, p.reports),
            VisitLines(s, id, p.visits), LinkLines(s, id, p.linked));
  }

  predicate VisitsExist(s: Store, id: IncidentId, p: Payload)
  {
    p.visits.Some? ==> forall n :: n in p.visits.value ==> (id.event, n) in s.visits
  }

  lemma TablesUnchangedExactly(s: Store, id: IncidentId, p: Payload)
    requires LinksOk(s) && id in s.rows
    requires ReportsAccepted(s, id, p.reports) && VisitsExist(s, id, p) && LinksAccepted(s, id, p.linked)
    ensures ListsAgree(s, id, p) <==>
            && TypesAfter(s.types, id, p.typeIds) == s.types
            && ReferenceAfter(s.reports, id, p.reports) == s.reports
            && ReferenceAfter(s.visits, id, p.visits) == s.visits
            && LinksAfter(s.links, id, p.linked) == s.links
  {
    LinksNeverSelf(s, id, p.linked);
    if p.typeIds.Some? { TypesUnchanged(s.types, id, p.typeIds.value); }
    if p.reports.Some? { ReferencesUnchanged(s.reports, id, p.reports.value); }
    if p.visits.Some? { ReferencesUnchanged(s.visits, id, p.visits.value); }
    if p.linked.Some? { LinksUnchanged(s, id, p.linked.value); }
  }

  /** The "what changed" entry is written exactly when something other than the journal changes. */
  lemma ChangesAreHonest(s: Store, id: IncidentId, p: Payload, c: Caller, now: int, trim: string -> string, s': Store)
    requires LinksOk(s) && VisitsExist(s, id, p) && Update(s, id, p, c, now, trim) == Ok(s')
    ensures AllChanges(s, id, s.rows[id], UpdatedRow(s.rows[id], p, now, trim), p) == []
            <==> s'.(journal := s.journal) == s
  {
    UpdateClosed(s, id, p, c, now, trim);
    NoChangesExactly(s, id, p, now, trim);
    TablesUnchangedExactly(s, id, p);
    var row' := UpdatedRow(s.rows[id], p, now, trim);
    assert s.rows[id := row'] == s.rows <==> row' == s.rows[id] by {
      assert s.rows[id := row'][id] == row';
    }
  }

  // Doing it again.

  predicate NothingWritten(p: Payload)
  {
    forall t :: t in p.entries ==> t == ""
  }

  lemma {:induction false} NoEntriesWritten(place: Place, author: int, texts: seq<string>)
    requires forall t :: t in texts ==> t == ""
    ensures WrittenEntries(place, author, texts) == multiset{}
  {
    if texts != [] {
      var init, last := texts[..|texts| - 1], texts[|texts| - 1];
      assert texts == init + [last];
      assert last in texts && forall t :: t in init ==> t in texts;
      NoEntriesWritten(place, author, init);
    }
  }

  lemma RowSettled(row: Row, p: Payload, now: int, later: int, trim: string -> string)
    ensures var row' := UpdatedRow(row, p, now, trim); UpdatedRow(row', p, later, trim) == row'
  {
  }

  lemma LinksStayOk(s: Store, id: IncidentId, p: Payload, c: Caller, now: int, trim: string -> string, s': Store)
    requires LinksOk(s) && Update(s, id, p, c, now, trim) == Ok(s')
    ensures LinksOk(s')
  {
    UpdateClosed(s, id, p, c, now, trim);
    LinksNeverSelf(s, id, p.linked);
    if p.linked.Some? {
      forall pair | pair in s'.links
        ensures (pair.1, pair.0) in s'.links && pair.0 != pair.1 && pair.0 in s'.rows && pair.1 in s'.rows
      {
        PairsIn(id, p.linked.value, pair);
        PairsIn(id, p.linked.value, (pair.1, pair.0));
        LinksOfIn(s.links, id);
      }
    }
  }

  lemma NothingMissing<T>(want: seq<T>, have: set<T>)
    requires ToSet(want) == have
    ensures Subtract(want, have) == [] && have - ToSet(want) == {}
  {
    var add := Subtract(want, have);
    if |add| > 0 { SubtractIn(want, have, add[0]); }
    forall x ensures x !in have - ToSet(want) {}
  }

  /**
   A request whose lists agree with the stored ones is accepted as far as the lists go, and writes no
   entry elsewhere.
   */
  lemma AgreementIsAccepted(s: Store, id: IncidentId, p: Payload, author: int)
    requires p.typeIds.Some? ==> ToSet(p.typeIds.value) == TypesOf(s.types, id)
    requires p.reports.Some? ==> ToSet(p.reports.value) == Referring(s.reports, id)
    requires p.linked.Some? ==> ToSet(p.linked.value) == LinksOf(s.links, id)
    ensures TypesAccepted(s, id, p.typeIds) && ReportsAccepted(s, id, p.reports) && LinksAccepted(s, id, p.linked)
    ensures ReportEntries(s.reports, id, p.reports, author) == multiset{}
    ensures LinkListEntries(s.links, id, p.linked, author) == multiset{}
  {
    if p.typeIds.Some? {
      NothingMissing(p.typeIds.value, TypesOf(s.types, id));
      assert forall t :: t in p.typeIds.value ==> t in ToSet(p.typeIds.value);
    }
    if p.reports.Some? {
      NothingMissing(p.reports.value, Referring(s.reports, id));
      ReferringIn(s.reports, id);
      assert forall n :: n in p.reports.value ==> n in ToSet(p.reports.value);
    }
    if p.linked.Some? {
      NothingMissing(p.linked.value, LinksOf(s.links, id));
      assert forall o :: o in p.linked.value ==> o in ToSet(p.linked.value);
    }
  }

  lemma FieldsAcceptedAgain(s: Store, s': Store, id: IncidentId, p: Payload, c: Caller, now: int,
                            trim: string -> string)
    requires id in s.rows && FieldProblem(s, id, s.rows[id], p, c, trim).None?
    requires s'.outcomes == s.outcomes && s'.areas == s.areas
    ensures FieldProblem(s', id, UpdatedRow(s.rows[id], p, now, trim), p, c, trim).None?
  {
  }

  lemma ReferencesSettled(m: map<(int, int), Option<int>>, id: IncidentId, want: Option<seq<int>>)
    ensures ReferenceAfter(ReferenceAfter(m, id, want), id, want) == ReferenceAfter(m, id, want)
  {
  }

  lemma AgainIsAccepted(s: Store, id: IncidentId, p: Payload, c: Caller, now: int, trim: string -> string, s': Store)
    requires LinksOk(s) && Update(s, id, p, c, now, trim) == Ok(s')
    ensures LinksOk(s') && Accepted(s', id, p, c, trim)
    ensures ReportEntries(s'.reports, id, p.reports, c.author) == multiset{}
    ensures LinkListEntries(s'.links, id, p.linked, c.author) == multiset{}
  {
    UpdateClosed(s, id, p, c, now, trim);
    LinksStayOk(s, id, p, c, now, trim, s');
    ListsEqualRequested(s, id, p, c, now, trim, s');
    AgreementIsAccepted(s', id, p, c.author);
    FieldsAcceptedAgain(s, s', id, p, c, now, trim);
  }

  lemma TablesSettled(s: Store, id: IncidentId, p: Payload, c: Caller, now: int, trim: string -> string, s': Store)
    requires LinksOk(s) && Update(s, id, p, c, now, trim) == Ok(s')
    ensures TypesAfter(s'.types, id, p.typeIds) == s'.types
    ensures ReferenceAfter(s'.reports, id, p.reports) == s'.reports
    ensures ReferenceAfter(s'.visits, id, p.visits) == s'.visits
    ensures LinksAfter(s'.links, id, p.linked) == s'.links
  {
    UpdateClosed(s, id, p, c, now, trim);
    ListsEqualRequested(s, id, p, c, now, trim, s');
    LinksStayOk(s, id, p, c, now, trim, s');
    LinksNeverSelf(s, id, p.linked);
    if p.typeIds.Some? { TypesUnchanged(s'.types, id, p.typeIds.value); }
    ReferencesSettled(s.reports, id, p.reports);
    ReferencesSettled(s.visits, id, p.visits);
    if p.linked.Some? { LinksUnchanged(s', id, p.linked.value); }
  }

  /** What repeating a request does: nothing but the entries it asks for, and a change line for visits still missing. */
  lemma Again(s: Store, id: IncidentId, p: Payload, c: Caller, now: int, later: int, trim: string -> string, s': Store)
    requires LinksOk(s) && Update(s, id, p, c, now, trim) == Ok(s')
    ensures Update(s', id, p, c, later, trim).Ok?
    ensures var lines := AllChanges(s', id, s'.rows[id], s'.rows[id], p);
            Update(s', id, p, c, later, trim).value ==
            s'.(journal := s'.journal + (SystemEntry(id, c.author, lines) +
                                         WrittenEntries(OnIncident(id), c.author, p.entries)))
  {
    UpdateClosed(s, id, p, c, now, trim);
    AgainIsAccepted(s, id, p, c, now, trim, s');
    UpdateClosed(s', id, p, c, later, trim);
    TablesSettled(s, id, p, c, now, trim, s');
    RowSettled(s.rows[id], p, now, later, trim);
    assert s'.rows[id := s'.rows[id]] == s'.rows;
    var lines := AllChanges(s', id, s'.rows[id], s'.rows[id], p);
    assert NewEntries(s', id, p, c, later, trim) ==
           SystemEntry(id, c.author, lines) + WrittenEntries(OnIncident(id), c.author, p.entries);
  }

  lemma FoundAllExactly(m: map<(int, int), Option<int>>, event: int, want: seq<int>)
    ensures (set n | n in want && (event, n) in m) == ToSet(want) <==> forall n :: n in want ==> (event, n) in m
  {
    var found := set n | n in want && (event, n) in m;
    if forall n :: n in want ==> (event, n) in m {
      assert forall n :: n in found <==> n in ToSet(want);
    } else {
      var n :| n in want && (event, n) !in m;
      assert n in ToSet(want) && n !in found;
    }
  }

  lemma AgreesAfterwards(s: Store, id: IncidentId, p: Payload, c: Caller, now: int, trim: string -> string, s': Store)
    requires LinksOk(s) && Update(s, id, p, c, now, trim) == Ok(s')
    ensures ListsAgree(s', id, p) <==> VisitsExist(s, id, p)
  {
    ListsEqualRequested(s, id, p, c, now, trim, s');
    if p.visits.Some? { FoundAllExactly(s.visits, id.event, p.visits.value); }
  }

  /**
   Repeating a request without journal entries leaves the store exactly as it is, except when it
   names a visit that does not exist: then every repetition reports the visit as added once more.
   */
  lemma IdempotentExactly(s: Store, id: IncidentId, p: Payload, c: Caller, now: int, later: int,
                          trim: string -> string, s': Store)
    requires LinksOk(s) && NothingWritten(p) && Update(s, id, p, c, now, trim) == Ok(s')
    ensures Update(s', id, p, c, later, trim) == Ok(s') <==> VisitsExist(s, id, p)
  {
    Again(s, id, p, c, now, later, trim, s');
    UpdateClosed(s, id, p, c, now, trim);
    AgreesAfterwards(s, id, p, c, now, trim, s');
    NoChangesExactly(s', id, p, later, trim);
    RowSettled(s.rows[id], p, now, later, trim);
    NoEntriesWritten(OnIncident(id), c.author, p.entries);
    var lines := AllChanges(s', id, s'.rows[id], s'.rows[id], p);
    var more := SystemEntry(id, c.author, lines) + WrittenEntries(OnIncident(id), c.author, p.entries);
    if lines == [] {
      assert s'.journal + more == s'.journal;
    } else {
      assert |s'.journal + more| == |s'.journal| + 1;
    }
  }

  /**
   No request that the server accepts names visits: the message has no such list. For these,
   repeating a request without journal entries always leaves the store exactly as it is.
   */
  lemma RequestsAreIdempotent(s: Store, id: IncidentId, p: Payload, c: Caller, now: int, later: int,
                              trim: string -> string)
    requires LinksOk(s) && p.visits.None? && NothingWritten(p)
    ensures var r := Update(s, id, p, c, now, trim); r.Ok? ==> Update(r.value, id, p, c, later, trim) == r
  {
    var r := Update(s, id, p, c, now, trim);
    if r.Ok? { IdempotentExactly(s, id, p, c, now, later, trim, r.value); }
  }

  const EMPTY_PAYLOAD := Payload(None, 0, "", None, None, None, None, None, None, None, None, None, false, None, [])

  /** The edit alone, on one incident and no visits, with a payload that names visit 5. */
  lemma MissingVisitIsReportedAgain(trim: string -> string)
    ensures var id := IncidentId(1, 1);
            var row := Row(3, Open, None, 0, 0, None, None, None, None, None, false, Some(1));
            var s := Store(map[id := row], {}, map[], map[], {}, multiset{}, {}, {}, {});
            var p, c := EMPTY_PAYLOAD.(visits := Some([5])), Caller(1, false);
            var first := Update(s, id, p, c, 10, trim);
            first.Ok? && Update(first.value, id, p, c, 20, trim) != first
  {
    var id := IncidentId(1, 1);
    var row := Row(3, Open, None, 0, 0, None, None, None, None, None, false, Some(1));
    var s := Store(map[id := row], {}, map[], map[], {}, multiset{}, {}, {}, {});
    var p, c := EMPTY_PAYLOAD.(visits := Some([5])), Caller(1, false);
    UpdateClosed(s, id, p, c, 10, trim);
    assert 5 in p.visits.value && (id.event, 5) !in s.visits;
    IdempotentExactly(s, id, p, c, 10, 20, trim, Update(s, id, p, c, 10, trim).value);
  }

  // Payloads that only append to the journal.

  predicate IsJournalOnly(p: Payload)
  {
    && |p.entries| > 0 && p.state == "" && p.priority == 0 && p.outcome.None? && p.started.None? && p.summary.None?
    && p.isPrivate.None? && p.areaSlug.None? && p.description.None? && p.booth.None? && p.typeIds.None?
    && p.reports.None? && p.visits.None? && !p.peoplePresent && p.linked.None?
  }

  /** Such a payload is always accepted, by any caller, and does nothing but write its entries. */
  lemma JournalOnlyAppends(s: Store, id: IncidentId, p: Payload, c: Caller, now: int, trim: string -> string)
    requires LinksOk(s) && IsJournalOnly(p) && id in s.rows
    ensures Update(s, id, p, c, now, trim) ==
              Ok(s.(journal := s.journal + WrittenEntries(OnIncident(id), c.author, p.entries)))
  {
    UpdateClosed(s, id, p, c, now, trim);
    assert s.rows[id := s.rows[id]] == s.rows;
    NoChangesExactly(s, id, p, now, trim);
    assert NewEntries(s, id, p, c, now, trim) == WrittenEntries(OnIncident(id), c.author, p.entries);
  }

  /** Every nonempty text is written as often as it was sent, in that place and in the caller's name. */
  lemma {:induction false} WrittenAreTheTexts(place: Place, author: int, texts: seq<string>, text: string)
    ensures WrittenEntries(place, author, texts)[Entry(place, author, Written(text), false)] ==
            if text != "" then multiset(texts)[text] else 0
  {
    if texts != [] {
      var init, last := texts[..|texts| - 1], texts[|texts| - 1];
      WrittenAreTheTexts(place, author, init, text);
      assert texts == init + [last];
      assert multiset(texts)[text] == multiset(init)[text] + if last == text then 1 else 0;
      var e := Entry(place, author, Written(text), false);
      assert Entry(place, author, Written(last), false) == e <==> last == text;
    }
  }

  lemma {:induction false} OnlyTextsAreWritten(place: Place, author: int, texts: seq<string>, e: Entry)
    ensures e in WrittenEntries(place, author, texts) ==> e.text.Written? && e == Entry(place, author, e.text, false)
  {
    if texts != [] { OnlyTextsAreWritten(place, author, texts[..|texts| - 1], e); }
  }

  // The invariant.

  lemma RowStaysOk(s: Store, id: IncidentId, p: Payload, c: Caller, now: int, trim: string -> string)
    requires id in s.rows && RowOk(s, id, s.rows[id]) && FieldProblem(s, id, s.rows[id], p, c, trim).None?
    ensures RowOk(s, id, UpdatedRow(s.rows[id], p, now, trim))
  {
  }

  lemma TypesStayOk(s: Store, id: IncidentId, want: Option<seq<int>>)
    requires id in s.rows && TypesAccepted(s, id, want)
    requires forall pair :: pair in s.types ==> pair.0 in s.rows && pair.1 in s.knownTypes
    ensures forall pair :: pair in TypesAfter(s.types, id, want) ==> pair.0 in s.rows && pair.1 in s.knownTypes
  {
    TypesOfIn(s.types, id);
    forall pair | pair in TypesAfter(s.types, id, want) ensures pair.0 in s.rows && pair.1 in s.knownTypes {
      if want.Some? && pair !in s.types {
        TypePairsIn(id, want.value, pair);
        var t := pair.1;
        assert pair == (id, t) && t in want.value && t !in TypesOf(s.types, id);
      }
    }
  }

  lemma ReferencesStayOk(m: map<(int, int), Option<int>>, rows: map<IncidentId, Row>, id: IncidentId,
                         want: Option<seq<int>>)
    requires id in rows && RefersTo(m, rows)
    ensures RefersTo(ReferenceAfter(m, id, want), rows)
  {
    var after := ReferenceAfter(m, id, want);
    forall k | k in after && after[k].Some? ensures IncidentId(k.0, after[k].value) in rows {
      assert after[k] == m[k] || IncidentId(k.0, after[k].value) == id;
    }
  }

  /** An accepted edit keeps everything that holds of every store. */
  lemma UpdateKeepsInv(s: Store, id: IncidentId, p: Payload, c: Caller, now: int, trim: string -> string, s': Store)
    requires Inv(s) && Update(s, id, p, c, now, trim) == Ok(s')
    ensures Inv(s') && s'.rows.Keys == s.rows.Keys
  {
    UpdateClosed(s, id, p, c, now, trim);
    LinksStayOk(s, id, p, c, now, trim, s');
    RowStaysOk(s, id, p, c, now, trim);
    TypesStayOk(s, id, p.typeIds);
    ReferencesStayOk(s.reports, s.rows, id, p.reports);
    ReferencesStayOk(s.visits, s.rows, id, p.visits);
    assert s'.rows.Keys == s.rows.Keys;
  }
}

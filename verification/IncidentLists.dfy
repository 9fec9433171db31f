/**
 What the list loops of an incident edit amount to (incident.go 599-823): each list either fails as
 a whole, exactly when one of the additions is refused, or ends up as the requested one.
 */
module IncidentLists {
  import opened Prelude
  import opened Incident

  lemma {:induction false} SubtractIn<T>(want: seq<T>, have: set<T>, x: T)
    ensures x in Subtract(want, have) <==> x in want && x !in have
  {
    if want != [] {
      SubtractIn(want[..|want| - 1], have, x);
      assert want == want[..|want| - 1] + [want[|want| - 1]];
    }
  }

  lemma SubtractMembers<T>(want: seq<T>, have: set<T>)
    ensures forall x :: x in Subtract(want, have) <==> x in want && x !in have
  {
    forall x ensures x in Subtract(want, have) <==> x in want && x !in have { SubtractIn(want, have, x); }
  }

  lemma NoDuplicatesSplit<T>(s: seq<T>)
    requires s != []
    ensures NoDuplicates(s) <==> NoDuplicates(s[..|s| - 1]) && s[|s| - 1] !in s[..|s| - 1]
  {
    var init := s[..|s| - 1];
    assert s == init + [s[|s| - 1]];
    assert forall i :: 0 <= i < |init| ==> init[i] == s[i];
    if NoDuplicates(s) {
      assert NoDuplicates(init);
    }
  }

  // Types.

  predicate TypeAttachable(s: Store, id: IncidentId, t: int)
  {
    t in s.knownTypes && (id, t) !in s.types
  }

  /** The pairs that attaching these types one by one adds. */
  function TypePairs(id: IncidentId, add: seq<int>): set<(IncidentId, int)>
  {
    if add == [] then {} else TypePairs(id, add[..|add| - 1]) + {(id, add[|add| - 1])}
  }

  lemma {:induction false} TypePairsIn(id: IncidentId, add: seq<int>, pair: (IncidentId, int))
    ensures pair in TypePairs(id, add) <==> pair.0 == id && pair.1 in add
  {
    if add != [] {
      TypePairsIn(id, add[..|add| - 1], pair);
      assert add == add[..|add| - 1] + [add[|add| - 1]];
    }
  }

  predicate AllAttachable(s: Store, id: IncidentId, add: seq<int>)
  {
    NoDuplicates(add) && forall t :: t in add ==> TypeAttachable(s, id, t)
  }

  lemma AttachableStep(s: Store, id: IncidentId, add: seq<int>)
    requires add != []
    ensures var init, last := add[..|add| - 1], add[|add| - 1];
            AllAttachable(s, id, add) <==>
            AllAttachable(s, id, init) && TypeAttachable(s.(types := s.types + TypePairs(id, init)), id, last)
  {
    var init, last := add[..|add| - 1], add[|add| - 1];
    NoDuplicatesSplit(add);
    assert forall t :: t in add <==> t in init || t == last by { assert add == init + [last]; }
    TypePairsIn(id, init, (id, last));
  }

  lemma {:induction false} AttachTypesClosed(s: Store, id: IncidentId, add: seq<int>)
    ensures AttachTypes(s, id, add).Ok? <==> AllAttachable(s, id, add)
    ensures AttachTypes(s, id, add).Ok? ==> AttachTypes(s, id, add).value == s.(types := s.types + TypePairs(id, add))
  {
    if add == [] {
      assert s.types + TypePairs(id, add) == s.types;
    } else {
      var init, last := add[..|add| - 1], add[|add| - 1];
      AttachTypesClosed(s, id, init);
      AttachableStep(s, id, add);
      assert s.types + TypePairs(id, add) == s.types + TypePairs(id, init) + {(id, last)};
    }
  }

  /** The pairs of other incidents, and this incident with each wanted type. */
  function TypesAfter(types: set<(IncidentId, int)>, id: IncidentId, want: Option<seq<int>>): set<(IncidentId, int)>
  {
    if want.None? then types
    else (set pair | pair in types && pair.0 != id) + TypePairs(id, want.value)
  }

  predicate TypesAccepted(s: Store, id: IncidentId, want: Option<seq<int>>)
  {
    want.Some? ==>
      && NoDuplicates(Subtract(want.value, TypesOf(s.types, id)))
      && forall t :: t in want.value && t !in TypesOf(s.types, id) ==> t in s.knownTypes
  }

  lemma TypesOfIn(types: set<(IncidentId, int)>, id: IncidentId)
    ensures forall t :: t in TypesOf(types, id) <==> (id, t) in types
  {
  }

  lemma TypesReconciled(s: Store, id: IncidentId, want: seq<int>)
    ensures var have := TypesOf(s.types, id);
            WithoutTypes(s.types + TypePairs(id, Subtract(want, have)), id, have - ToSet(want)) ==
            TypesAfter(s.types, id, Some(want))
  {
    var have := TypesOf(s.types, id);
    TypesOfIn(s.types, id);
    SubtractMembers(want, have);
    var left := WithoutTypes(s.types + TypePairs(id, Subtract(want, have)), id, have - ToSet(want));
    var right := TypesAfter(s.types, id, Some(want));
    forall pair: (IncidentId, int) ensures pair in left <==> pair in right {
      TypePairsIn(id, Subtract(want, have), pair);
      TypePairsIn(id, want, pair);
      assert pair in right <==> (pair in s.types && pair.0 != id) || (pair.0 == id && pair.1 in want);
    }
  }

  lemma WithTypesClosed(s: Store, id: IncidentId, want: Option<seq<int>>)
    ensures WithTypes(s, id, want).Ok? <==> TypesAccepted(s, id, want)
    ensures WithTypes(s, id, want).Ok? ==> WithTypes(s, id, want).value == s.(types := TypesAfter(s.types, id, want))
  {
    if want.Some? {
      var have := TypesOf(s.types, id);
      var add := Subtract(want.value, have);
      SubtractMembers(want.value, have);
      TypesOfIn(s.types, id);
      AttachTypesClosed(s, id, add);
      TypesReconciled(s, id, want.value);
    }
  }

  // Reports and visits.

  lemma {:induction false} MarkedAt(m: map<(int, int), Option<int>>, id: IncidentId, add: seq<int>, k: (int, int))
    ensures k in Marked(m, id, add) <==> k in m
    ensures k in m ==> Marked(m, id, add)[k] == if k.0 == id.event && k.1 in add then Some(id.number) else m[k]
  {
    if add != [] {
      MarkedAt(m, id, add[..|add| - 1], k);
      assert add == add[..|add| - 1] + [add[|add| - 1]];
    }
  }

  /** Exactly the wanted ones that exist refer to the incident; nothing else changes. */
  function ReferenceAfter(m: map<(int, int), Option<int>>, id: IncidentId, want: Option<seq<int>>): map<(int,
                          int), Option<int>>
  {
    if want.None? then m
    else map k | k in m ::
           if k.0 == id.event && k.1 in want.value then Some(id.number)
           else if k.0 == id.event && m[k] == Some(id.number) then None
           else m[k]
  }

  lemma ReferringIn(m: map<(int, int), Option<int>>, id: IncidentId)
    ensures forall n :: n in Referring(m, id) <==> (id.event, n) in m && m[(id.event, n)] == Some(id.number)
  {
    forall n ensures n in Referring(m, id) <==> (id.event, n) in m && m[(id.event, n)] == Some(id.number) {
      if (id.event, n) in m && m[(id.event, n)] == Some(id.number) {
        assert (id.event, n).1 in Referring(m, id);
      }
    }
  }

  lemma ReferencesReconciled(m: map<(int, int), Option<int>>, id: IncidentId, want: seq<int>)
    ensures var have := Referring(m, id);
            Detached(Marked(m, id, Subtract(want, have)), id, have - ToSet(want)) == ReferenceAfter(m, id, Some(want))
  {
    var have := Referring(m, id);
    ReferringIn(m, id);
    SubtractMembers(want, have);
    var marked := Marked(m, id, Subtract(want, have));
    var left, right := Detached(marked, id, have - ToSet(want)), ReferenceAfter(m, id, Some(want));
    forall k: (int, int) ensures (k in left <==> k in right) && (k in left ==> left[k] == right[k]) {
      MarkedAt(m, id, Subtract(want, have), k);
    }
  }

  function AttachEntries(id: IncidentId, add: seq<int>, author: int): multiset<Entry>
  {
    if add == [] then multiset{}
    else
      AttachEntries(id, add[..|add| - 1], author) +
      multiset{Entry(OnReport(id.event, add[|add| - 1]), author, AttachedTo(id.number), true)}
  }

  function AfterAttaching(s: Store, id: IncidentId, add: seq<int>, author: int): Store
  {
    s.(reports := Marked(s.reports, id, add), journal := s.journal + AttachEntries(id, add, author))
  }

  lemma AttachReportStep(s: Store, id: IncidentId, add: seq<int>, author: int)
    requires add != []
    ensures var before, last := AfterAttaching(s, id, add[..|add| - 1], author), add[|add| - 1];
            if (id.event, last) in s.reports
            then AttachReport(before, id, last, author) == Ok(AfterAttaching(s, id, add, author))
            else AttachReport(before, id, last, author).Err?
  {
    var init, last := add[..|add| - 1], add[|add| - 1];
    MarkedAt(s.reports, id, init, (id.event, last));
    var e := Entry(OnReport(id.event, last), author, AttachedTo(id.number), true);
    assert s.journal + AttachEntries(id, add, author) == s.journal + AttachEntries(id, init, author) + multiset{e};
  }

  predicate AllReportsExist(s: Store, id: IncidentId, add: seq<int>)
  {
    forall n :: n in add ==> (id.event, n) in s.reports
  }

  lemma {:induction false} AttachReportsClosed(s: Store, id: IncidentId, add: seq<int>, author: int)
    ensures AttachReports(s, id, add, author).Ok? <==> AllReportsExist(s, id, add)
    ensures AttachReports(s, id, add, author).Ok? ==>
              AttachReports(s, id, add, author).value == AfterAttaching(s, id, add, author)
  {
    if add == [] {
      assert s.journal + AttachEntries(id, add, author) == s.journal;
    } else {
      var init, last := add[..|add| - 1], add[|add| - 1];
      AttachReportsClosed(s, id, init, author);
      AttachReportStep(s, id, add, author);
      assert AllReportsExist(s, id, add) <==> AllReportsExist(s, id, init) && (id.event, last) in s.reports by {
        assert forall n :: n in add <==> n in init || n == last by { assert add == init + [last]; }
      }
    }
  }

  predicate ReportsAccepted(s: Store, id: IncidentId, want: Option<seq<int>>)
  {
    want.Some? ==> forall n :: n in want.value ==> (id.event, n) in s.reports
  }

  function ReportEntries(reports: map<(int, int), Option<int>>, id: IncidentId, want: Option<seq<int>>,
                         author: int): multiset<Entry>
  {
    if want.None? then multiset{}
    else
      AttachEntries(id, Subtract(want.value, Referring(reports, id)), author) +
      DetachEntries(id, Referring(reports, id) - ToSet(want.value), author)
  }

  lemma WithReportsClosed(s: Store, id: IncidentId, want: Option<seq<int>>, author: int)
    ensures WithReports(s, id, want, author).Ok? <==> ReportsAccepted(s, id, want)
    ensures WithReports(s, id, want, author).Ok? ==>
              WithReports(s, id, want, author).value ==
              s.(reports := ReferenceAfter(s.reports, id, want),
                 journal := s.journal + ReportEntries(s.reports, id, want, author))
  {
    if want.None? {
      assert s.journal + multiset{} == s.journal;
    } else {
      var have := Referring(s.reports, id);
      var add := Subtract(want.value, have);
      ReferringIn(s.reports, id);
      SubtractMembers(want.value, have);
      AttachReportsClosed(s, id, add, author);
      ReferencesReconciled(s.reports, id, want.value);
      var attached, sub := AttachEntries(id, add, author), DetachEntries(id, have - ToSet(want.value), author);
      assert s.journal + attached + sub == s.journal + (attached + sub);
    }
  }

  lemma WithVisitsClosed(s: Store, id: IncidentId, want: Option<seq<int>>)
    ensures WithVisits(s, id, want) == s.(visits := ReferenceAfter(s.visits, id, want))
  {
    if want.Some? {
      ReferencesReconciled(s.visits, id, want.value);
    }
  }

  // Links.

  predicate Linkable(s: Store, id: IncidentId, other: IncidentId)
  {
    other in s.rows && other != id && (id, other) !in s.links && (other, id) !in s.links
  }

  function LinkEntries(id: IncidentId, add: seq<IncidentId>, author: int): multiset<Entry>
  {
    if add == [] then multiset{}
    else
      LinkEntries(id, add[..|add| - 1], author) +
      multiset{Entry(OnIncident(add[|add| - 1]), author, LinkedTo(id), true)}
  }

  function Pairs(id: IncidentId, others: seq<IncidentId>): set<(IncidentId, IncidentId)>
  {
    if others == [] then {}
    else Pairs(id, others[..|others| - 1]) + {(id, others[|others| - 1]), (others[|others| - 1], id)}
  }

  lemma {:induction false} PairsIn(id: IncidentId, others: seq<IncidentId>, pair: (IncidentId, IncidentId))
    ensures pair in Pairs(id, others) <==> (pair.0 == id && pair.1 in others) || (pair.1 == id && pair.0 in others)
  {
    if others != [] {
      PairsIn(id, others[..|others| - 1], pair);
      assert others == others[..|others| - 1] + [others[|others| - 1]];
    }
  }

  predicate AllLinkable(s: Store, id: IncidentId, add: seq<IncidentId>)
  {
    NoDuplicates(add) && forall o :: o in add ==> Linkable(s, id, o)
  }

  function AfterLinking(s: Store, id: IncidentId, add: seq<IncidentId>, author: int): Store
  {
    s.(links := s.links + Pairs(id, add), journal := s.journal + LinkEntries(id, add, author))
  }

  lemma LinkableStep(s: Store, id: IncidentId, add: seq<IncidentId>, author: int)
    requires add != []
    ensures var init, last := add[..|add| - 1], add[|add| - 1];
            AllLinkable(s, id, add) <==>
            AllLinkable(s, id, init) && Linkable(AfterLinking(s, id, init, author), id, last)
  {
    var init, last := add[..|add| - 1], add[|add| - 1];
    NoDuplicatesSplit(add);
    assert forall o :: o in add <==> o in init || o == last by { assert add == init + [last]; }
    PairsIn(id, init, (id, last));
    PairsIn(id, init, (last, id));
  }

  lemma LinkStep(s: Store, id: IncidentId, add: seq<IncidentId>, author: int)
    requires add != []
    ensures var before, last := AfterLinking(s, id, add[..|add| - 1], author), add[|add| - 1];
            && (Link(before, id, last, author).Ok? <==> Linkable(before, id, last))
            && (Linkable(before, id, last) ==> Link(before, id, last, author).value == AfterLinking(s, id, add, author))
  {
    var before, last := AfterLinking(s, id, add[..|add| - 1], author), add[|add| - 1];
    assert before.links + {(id, last), (last, id)} == AfterLinking(s, id, add, author).links;
    assert before.journal + multiset{Entry(OnIncident(last), author, LinkedTo(id), true)} ==
           AfterLinking(s, id, add, author).journal;
  }

  lemma {:induction false} LinkAllClosed(s: Store, id: IncidentId, add: seq<IncidentId>, author: int)
    ensures LinkAll(s, id, add, author).Ok? <==> AllLinkable(s, id, add)
    ensures LinkAll(s, id, add, author).Ok? ==> LinkAll(s, id, add, author).value == AfterLinking(s, id, add, author)
  {
    if add == [] {
      assert s.links + Pairs(id, add) == s.links && s.journal + LinkEntries(id, add, author) == s.journal;
    } else {
      LinkAllClosed(s, id, add[..|add| - 1], author);
      LinkableStep(s, id, add, author);
      LinkStep(s, id, add, author);
    }
  }

  /** The links of other incidents among themselves, and this incident with each wanted one, both ways. */
  function LinksAfter(links: set<(IncidentId, IncidentId)>, id: IncidentId,
                      want: Option<seq<IncidentId>>): set<(IncidentId, IncidentId)>
  {
    if want.None? then links
    else (set pair | pair in links && pair.0 != id && pair.1 != id) + Pairs(id, want.value)
  }

  predicate LinksAccepted(s: Store, id: IncidentId, want: Option<seq<IncidentId>>)
  {
    want.Some? ==>
      && NoDuplicates(Subtract(want.value, LinksOf(s.links, id)))
      && forall o :: o in want.value && o !in LinksOf(s.links, id) ==> o in s.rows && o != id
  }

  function LinkListEntries(links: set<(IncidentId, IncidentId)>, id: IncidentId, want: Option<seq<IncidentId>>,
                           author: int): multiset<Entry>
  {
    if want.None? then multiset{}
    else
      LinkEntries(id, Subtract(want.value, LinksOf(links, id)), author) +
      UnlinkEntries(id, LinksOf(links, id) - ToSet(want.value), author)
  }

  lemma LinksOfIn(links: set<(IncidentId, IncidentId)>, id: IncidentId)
    ensures forall o :: o in LinksOf(links, id) <==> (id, o) in links
  {
  }

  lemma LinksReconciled(s: Store, id: IncidentId, want: seq<IncidentId>)
    requires LinksOk(s)
    ensures var have := LinksOf(s.links, id);
            Unlinked(s.links + Pairs(id, Subtract(want, have)), id, have - ToSet(want)) ==
            LinksAfter(s.links, id, Some(want))
  {
    var have := LinksOf(s.links, id);
    LinksOfIn(s.links, id);
    SubtractMembers(want, have);
    var left := Unlinked(s.links + Pairs(id, Subtract(want, have)), id, have - ToSet(want));
    var right := LinksAfter(s.links, id, Some(want));
    forall pair: (IncidentId, IncidentId) ensures pair in left <==> pair in right {
      PairsIn(id, Subtract(want, have), pair);
      PairsIn(id, want, pair);
      assert pair in s.links <==> (pair.1, pair.0) in s.links;
    }
  }

  lemma NewLinksAccepted(s: Store, id: IncidentId, want: seq<IncidentId>)
    requires LinksOk(s)
    ensures AllLinkable(s, id, Subtract(want, LinksOf(s.links, id))) <==> LinksAccepted(s, id, Some(want))
  {
    var have := LinksOf(s.links, id);
    SubtractMembers(want, have);
    LinksOfIn(s.links, id);
    assert forall o :: o !in have ==> (id, o) !in s.links && (o, id) !in s.links;
  }

  lemma WithLinksClosed(s: Store, id: IncidentId, want: Option<seq<IncidentId>>, author: int)
    requires LinksOk(s)
    ensures WithLinks(s, id, want, author).Ok? <==> LinksAccepted(s, id, want)
    ensures WithLinks(s, id, want, author).Ok? ==>
              WithLinks(s, id, want, author).value ==
              s.(links := LinksAfter(s.links, id, want),
                 journal := s.journal + LinkListEntries(s.links, id, want, author))
  {
    if want.None? {
      assert s.journal + multiset{} == s.journal;
    } else {
      var have := LinksOf(s.links, id);
      var add := Subtract(want.value, have);
      NewLinksAccepted(s, id, want.value);
      LinkAllClosed(s, id, add, author);
      LinksReconciled(s, id, want.value);
      var linked, sub := LinkEntries(id, add, author), UnlinkEntries(id, have - ToSet(want.value), author);
      assert s.journal + linked + sub == s.journal + (linked + sub);
    }
  }

  // How the loops fail.

  lemma {:induction false} AttachTypesError(s: Store, id: IncidentId, add: seq<int>)
    ensures AttachTypes(s, id, add).Err? ==> AttachTypes(s, id, add).error == TypeAttachFailed
  {
    if add != [] { AttachTypesError(s, id, add[..|add| - 1]); }
  }

  lemma {:induction false} AttachReportsError(s: Store, id: IncidentId, add: seq<int>, author: int)
    ensures AttachReports(s, id, add, author).Err? ==> AttachReports(s, id, add, author).error == ReportJournalFailed
  {
    if add != [] { AttachReportsError(s, id, add[..|add| - 1], author); }
  }

  lemma {:induction false} LinkAllError(s: Store, id: IncidentId, add: seq<IncidentId>, author: int)
    ensures LinkAll(s, id, add, author).Err? ==> LinkAll(s, id, add, author).error in {LinkRejected, LinkBackFailed}
  {
    if add != [] { LinkAllError(s, id, add[..|add| - 1], author); }
  }
}

/**
 How a new event gets its areas (go/store/areas.go): the first one a flat canonical list, every later
 one a copy of another event's rows, inserted one by one under the table's keys, in one transaction.
 */
module AreaSeed {
  import opened Prelude
  import opened Area

  /** An insert fails on a slug that is taken and on a parent that is not there; a row may be its own parent. */
  function Insert(dest: seq<Area>, a: Area): Result<seq<Area>, Error>
  {
    if HasSlug(dest, a.slug) then Err(StoreFailed)
    else if a.parent.Some? && a.parent.value != a.slug && !HasSlug(dest, a.parent.value) then Err(StoreFailed)
    else Ok(dest + [a])
  }

  function InsertAll(dest: seq<Area>, rows: seq<Area>): Result<seq<Area>, Error>
  {
    if rows == [] then Ok(dest)
    else
      var dest' :- InsertAll(dest, rows[..|rows| - 1]);
      Insert(dest', rows[|rows| - 1])
  }

  predicate Top(a: Area) { a.parent.None? }

  predicate Nested(a: Area) { a.parent.Some? }

  /** Top-level rows first, then the others, each in the order the rows were read. */
  function Copied(rows: seq<Area>): Result<seq<Area>, Error>
  {
    var tops :- InsertAll([], Filter(rows, Top));
    InsertAll(tops, Filter(rows, Nested))
  }

  lemma InsertOneMore(dest: seq<Area>, rows: seq<Area>, a: Area)
    ensures InsertAll(dest, rows + [a]) ==
            match InsertAll(dest, rows) case Ok(dest') => Insert(dest', a) case Err(e) => Err(e)
  {
    assert (rows + [a])[..|rows|] == rows;
  }

  lemma FilterOneMore(rows: seq<Area>, m: nat, keep: Area -> bool)
    requires m < |rows|
    ensures Filter(rows[..m + 1], keep) == Filter(rows[..m], keep) + (if keep(rows[m]) then [rows[m]] else [])
  {
    assert rows[..m + 1][..m] == rows[..m];
  }

  lemma {:induction false} InsertAllValue(dest: seq<Area>, rows: seq<Area>)
    ensures InsertAll(dest, rows).Ok? ==> InsertAll(dest, rows).value == dest + rows
  {
    if rows != [] {
      var init, last := rows[..|rows| - 1], rows[|rows| - 1];
      InsertAllValue(dest, init);
      ConcatAssoc(dest, init, [last]);
      assert rows == init + [last];
    }
  }

  lemma HasSlugConcat(a: seq<Area>, b: seq<Area>, slug: string)
    ensures HasSlug(a + b, slug) <==> HasSlug(a, slug) || HasSlug(b, slug)
  {
    HasSlugIn(a, slug);
    HasSlugIn(b, slug);
    HasSlugIn(a + b, slug);
  }

  lemma {:induction false} FilterKeeps(rows: seq<Area>, keep: Area -> bool, a: Area)
    ensures a in Filter(rows, keep) <==> a in rows && keep(a)
  {
    if rows != [] {
      FilterKeeps(rows[..|rows| - 1], keep, a);
      assert rows == rows[..|rows| - 1] + [rows[|rows| - 1]];
    }
  }

  lemma FilterHas(rows: seq<Area>, keep: Area -> bool, slug: string)
    ensures HasSlug(Filter(rows, keep), slug) <==> exists j :: 0 <= j < |rows| && rows[j].slug == slug && keep(rows[j])
  {
    var kept := Filter(rows, keep);
    HasSlugIn(kept, slug);
    forall a ensures a in kept <==> a in rows && keep(a) { FilterKeeps(rows, keep, a); }
    if j :| 0 <= j < |rows| && rows[j].slug == slug && keep(rows[j]) {
      assert rows[j] in kept;
    }
  }

  /** A top-level row finds its slug free among the top-level rows before it. */
  predicate TopFits(rows: seq<Area>, i: nat)
    requires i < |rows|
  {
    Top(rows[i]) ==> !HasSlug(Filter(rows[..i], Top), rows[i].slug)
  }

  lemma TopsFit(rows: seq<Area>, m: nat)
    requires UniqueSlugs(rows) && m < |rows|
    ensures TopFits(rows, m)
  {
    FilterHas(rows[..m], Top, rows[m].slug);
    forall j | 0 <= j < m ensures rows[..m][j].slug != rows[m].slug { assert Slugs(rows)[j] != Slugs(rows)[m]; }
  }

  lemma {:induction false} TopsGoIn(rows: seq<Area>, m: nat)
    requires m <= |rows| && forall i :: 0 <= i < m ==> TopFits(rows, i)
    ensures InsertAll([], Filter(rows[..m], Top)) == Ok(Filter(rows[..m], Top))
  {
    if m > 0 {
      var tops := Filter(rows[..m - 1], Top);
      TopsGoIn(rows, m - 1);
      FilterOneMore(rows, m - 1, Top);
      if Top(rows[m - 1]) {
        assert TopFits(rows, m - 1);
        InsertOneMore([], tops, rows[m - 1]);
      } else {
        assert tops + [] == tops;
      }
    }
  }

  /** Row `j` is in the copy by the time nested row `m` is inserted. */
  predicate InsertedBefore(rows: seq<Area>, j: nat, m: nat)
    requires j < |rows|
  {
    Top(rows[j]) || j < m
  }

  /** The parent of row `i` goes in before it: it is top-level, or nested and read earlier. */
  ghost predicate ParentFirst(rows: seq<Area>, i: nat)
    requires i < |rows|
  {
    rows[i].parent.Some? ==>
      exists j :: 0 <= j < |rows| && rows[j].slug == rows[i].parent.value && InsertedBefore(rows, j, i)
  }

  lemma SlugsBefore(rows: seq<Area>, m: nat, slug: string)
    requires m <= |rows|
    ensures HasSlug(Filter(rows, Top) + Filter(rows[..m], Nested), slug) <==>
            exists j :: 0 <= j < |rows| && rows[j].slug == slug && InsertedBefore(rows, j, m)
  {
    HasSlugConcat(Filter(rows, Top), Filter(rows[..m], Nested), slug);
    FilterHas(rows, Top, slug);
    FilterHas(rows[..m], Nested, slug);
    forall j | 0 <= j < m ensures rows[..m][j] == rows[j] {}
    if j :| 0 <= j < |rows| && rows[j].slug == slug && InsertedBefore(rows, j, m) {
      if !Top(rows[j]) { assert rows[..m][j].slug == slug && Nested(rows[..m][j]); }
    }
  }

  lemma NotOwnParent(rows: seq<Area>, i: nat)
    requires Acyclic(rows) && i < |rows|
    ensures rows[i].parent != Some(rows[i].slug)
  {
    var rank :| Ranked(rows, rank);
  }

  /** When the insert of nested row `m` goes through, after the top-level ones and the nested ones before it. */
  lemma NestedGoesIn(rows: seq<Area>, m: nat)
    requires UniqueSlugs(rows) && m < |rows| && Nested(rows[m]) && rows[m].parent != Some(rows[m].slug)
    ensures Insert(Filter(rows, Top) + Filter(rows[..m], Nested), rows[m]).Ok? <==> ParentFirst(rows, m)
  {
    SlugsBefore(rows, m, rows[m].slug);
    SlugsBefore(rows, m, rows[m].parent.value);
    forall j | 0 <= j < |rows| && rows[j].slug == rows[m].slug ensures j == m { SlugsIdentify(rows, j, m); }
  }

  ghost predicate ParentsFirst(rows: seq<Area>, m: nat)
    requires m <= |rows|
  {
    forall i :: 0 <= i < m ==> ParentFirst(rows, i)
  }

  lemma OneMoreParent(rows: seq<Area>, m: nat)
    requires m < |rows|
    ensures ParentsFirst(rows, m + 1) <==> ParentsFirst(rows, m) && ParentFirst(rows, m)
    ensures Top(rows[m]) ==> ParentFirst(rows, m)
  {
  }

  ghost predicate NestedFits(rows: seq<Area>, i: nat)
    requires i < |rows|
  {
    Nested(rows[i]) ==>
      (Insert(Filter(rows, Top) + Filter(rows[..i], Nested), rows[i]).Ok? <==> ParentFirst(rows, i))
  }

  lemma {:induction false} NestedGoIn(rows: seq<Area>, m: nat)
    requires m <= |rows| && forall i :: 0 <= i < m ==> NestedFits(rows, i)
    ensures InsertAll(Filter(rows, Top), Filter(rows[..m], Nested)).Ok? <==> ParentsFirst(rows, m)
  {
    if m > 0 {
      var tops, nested := Filter(rows, Top), Filter(rows[..m - 1], Nested);
      NestedGoIn(rows, m - 1);
      InsertAllValue(tops, nested);
      FilterOneMore(rows, m - 1, Nested);
      OneMoreParent(rows, m - 1);
      assert NestedFits(rows, m - 1);
      if Nested(rows[m - 1]) {
        InsertOneMore(tops, nested, rows[m - 1]);
      } else {
        assert nested + [] == nested;
      }
    }
  }

  lemma AllFit(rows: seq<Area>)
    requires UniqueSlugs(rows) && Acyclic(rows)
    ensures forall i :: 0 <= i < |rows| ==> TopFits(rows, i) && NestedFits(rows, i)
  {
    forall i | 0 <= i < |rows| ensures TopFits(rows, i) && NestedFits(rows, i) {
      TopsFit(rows, i);
      NotOwnParent(rows, i);
      if Nested(rows[i]) { NestedGoesIn(rows, i); }
    }
  }

  lemma CopyGoesIn(rows: seq<Area>)
    requires forall i :: 0 <= i < |rows| ==> TopFits(rows, i) && NestedFits(rows, i)
    ensures Copied(rows).Ok? <==> ParentsFirst(rows, |rows|)
    ensures Copied(rows).Ok? ==> Copied(rows).value == Filter(rows, Top) + Filter(rows, Nested)
  {
    assert rows[..|rows|] == rows;
    TopsGoIn(rows, |rows|);
    NestedGoIn(rows, |rows|);
    InsertAllValue(Filter(rows, Top), Filter(rows, Nested));
  }

  /** The copy of a sound event goes through exactly when every nested row's parent is inserted before it. */
  lemma CopySucceedsExactly(rows: seq<Area>)
    requires UniqueSlugs(rows) && Acyclic(rows)
    ensures Copied(rows).Ok? <==> ParentsFirst(rows, |rows|)
    ensures Copied(rows).Ok? ==> Copied(rows).value == Filter(rows, Top) + Filter(rows, Nested)
  {
    AllFit(rows);
    CopyGoesIn(rows);
  }

  /** At one level of nesting every parent is top-level, so the two passes always suffice. */
  lemma OneLevelCopies(rows: seq<Area>)
    requires UniqueSlugs(rows) && ParentsExist(rows) && Acyclic(rows) && OneLevel(rows)
    ensures Copied(rows).Ok?
  {
    CopySucceedsExactly(rows);
    forall i | 0 <= i < |rows| && rows[i].parent.Some? ensures ParentFirst(rows, i) {
      var j := IndexOf(rows, rows[i].parent.value);
      assert rows[i].parent == Some(rows[j].slug) && InsertedBefore(rows, j, i);
    }
  }

  lemma {:induction false} InsertAllUnique(dest: seq<Area>, rows: seq<Area>)
    requires UniqueSlugs(dest) && InsertAll(dest, rows).Ok?
    ensures UniqueSlugs(InsertAll(dest, rows).value)
  {
    if rows != [] {
      var init := rows[..|rows| - 1];
      InsertAllUnique(dest, init);
      var d, d' := InsertAll(dest, init).value, InsertAll(dest, rows).value;
      forall i, j | 0 <= i < j < |d'| ensures Slugs(d')[i] != Slugs(d')[j] {
        if j < |d| { assert Slugs(d)[i] != Slugs(d)[j]; }
      }
    }
  }

  /** Soundness does not depend on the order of the rows. */
  lemma SameRowsSameForest(rows: seq<Area>, rows': seq<Area>)
    requires ParentsExist(rows) && Acyclic(rows) && forall a :: a in rows <==> a in rows'
    ensures ParentsExist(rows') && Acyclic(rows') && (OneLevel(rows) ==> OneLevel(rows'))
  {
    forall slug ensures HasSlug(rows, slug) <==> HasSlug(rows', slug) {
      HasSlugIn(rows, slug);
      HasSlugIn(rows', slug);
    }
    forall i | 0 <= i < |rows'| ensures exists j :: 0 <= j < |rows| && rows[j] == rows'[i] {
      assert rows'[i] in rows;
    }
    var rank :| Ranked(rows, rank);
    assert Ranked(rows', rank);
  }

  /** A copy that goes through has exactly the rows of the original, and is as sound, and as flat. */
  lemma CopyIsSound(rows: seq<Area>)
    requires UniqueSlugs(rows) && ParentsExist(rows) && Acyclic(rows) && Copied(rows).Ok?
    ensures Sound(Event(Copied(rows).value, map[])) && (OneLevel(rows) ==> OneLevel(Copied(rows).value))
    ensures forall a :: a in Copied(rows).value <==> a in rows
  {
    var copy := Copied(rows).value;
    CopySucceedsExactly(rows);
    forall a ensures a in copy <==> a in rows {
      FilterKeeps(rows, Top, a);
      FilterKeeps(rows, Nested, a);
    }
    InsertAllUnique([], Filter(rows, Top));
    InsertAllUnique(InsertAll([], Filter(rows, Top)).value, Filter(rows, Nested));
    SameRowsSameForest(rows, copy);
  }

  /** A flat list with distinct slugs, such as the canonical one, starts an event soundly and at one level. */
  lemma FlatIsSound(rows: seq<Area>)
    requires UniqueSlugs(rows) && forall i :: 0 <= i < |rows| ==> Top(rows[i])
    ensures Sound(Event(rows, map[])) && OneLevel(rows)
  {
    var rank := map s | s in Slugs(rows) :: 0;
    forall i | 0 <= i < |rows| ensures rows[i].slug in rank { assert Slugs(rows)[i] in Slugs(rows); }
    assert Ranked(rows, rank);
  }

  /** Two levels, read with the lower nested row first. */
  function NestedTwice(): seq<Area>
  {
    [Area("a", "A", Some("b"), 0, true, None), Area("b", "B", Some("c"), 1, true, None),
     Area("c", "C", None, 2, true, None)]
  }

  lemma NestedTwiceIsSound()
    ensures Sound(Event(NestedTwice(), map[]))
  {
    var rows := NestedTwice();
    assert "a"[0] != "b"[0] && "b"[0] != "c"[0] && "a"[0] != "c"[0];
    var rank: map<string, nat> := map["c" := 0, "b" := 1, "a" := 2];
    assert rows[1].slug == "b" && rows[2].slug == "c";
    assert HasSlug(rows, "b") && HasSlug(rows, "c");
    assert Ranked(rows, rank);
  }

  /** A sound event, and the next one cannot be given its areas. */
  lemma NestedTwiceCannotBeCopied()
    ensures Copied(NestedTwice()).Err?
  {
    var rows := NestedTwice();
    NestedTwiceIsSound();
    CopySucceedsExactly(rows);
    assert "a"[0] != "b"[0] && "b"[0] != "c"[0];
    assert forall j :: 0 <= j < 3 && rows[j].slug == "b" ==> j == 1;
    assert rows[0].parent.Some? && !ParentFirst(rows, 0);
  }

  /** The copy as the program makes it: one pass for the top-level rows, one for the others. */
  method CopyAreas(rows: seq<Area>) returns (r: Result<seq<Area>, Error>)
    ensures r == Copied(rows)
  {
    var dest: seq<Area> := [];
    for i := 0 to |rows|
      invariant InsertAll([], Filter(rows[..i], Top)) == Ok(dest)
    {
      FilterOneMore(rows, i, Top);
      if rows[i].parent.None? {
        InsertOneMore([], Filter(rows[..i], Top), rows[i]);
        var inserted := Insert(dest, rows[i]);
        if inserted.Err? {
          Stops([], rows, Top, i + 1);
          return inserted;
        }
        dest := inserted.value;
      } else {
        assert Filter(rows[..i], Top) + [] == Filter(rows[..i], Top);
      }
    }
    assert rows[..|rows|] == rows;
    ghost var tops := dest;
    for i := 0 to |rows|
      invariant InsertAll(tops, Filter(rows[..i], Nested)) == Ok(dest)
    {
      FilterOneMore(rows, i, Nested);
      if rows[i].parent.Some? {
        InsertOneMore(tops, Filter(rows[..i], Nested), rows[i]);
        var inserted := Insert(dest, rows[i]);
        if inserted.Err? {
          Stops(tops, rows, Nested, i + 1);
          return inserted;
        }
        dest := inserted.value;
      } else {
        assert Filter(rows[..i], Nested) + [] == Filter(rows[..i], Nested);
      }
    }
    r := Ok(dest);
  }

  /** The first failing insert decides. */
  lemma {:induction false} Stops(dest: seq<Area>, rows: seq<Area>, keep: Area -> bool, m: nat)
    requires m <= |rows| && InsertAll(dest, Filter(rows[..m], keep)).Err?
    ensures InsertAll(dest, Filter(rows, keep)) == InsertAll(dest, Filter(rows[..m], keep))
    decreases |rows| - m
  {
    if m == |rows| {
      assert rows[..m] == rows;
    } else {
      FilterOneMore(rows, m, keep);
      if keep(rows[m]) {
        InsertOneMore(dest, Filter(rows[..m], keep), rows[m]);
      } else {
        assert Filter(rows[..m], keep) + [] == Filter(rows[..m], keep);
      }
      Stops(dest, rows, keep, m + 1);
    }
  }

  // Creating an event.

  /** The areas of every event, in the order they are read. */
  type Events = map<int, seq<Area>>

  /** The latest event that has areas, if any has. */
  ghost predicate IsSource(events: Events, source: Option<int>)
  {
    if source.None? then forall id :: id in events ==> events[id] == []
    else
      && source.value in events && events[source.value] != []
      && forall id :: id in events && events[id] != [] ==> id <= source.value
  }

  /** The areas a new event is given: those of the source, or the canonical ones for the first event with any. */
  function StartingAreas(events: Events, source: Option<int>, canonical: seq<Area>): Result<seq<Area>, Error>
    requires source.Some? ==> source.value in events
  {
    if source.None? then InsertAll([], canonical) else Copied(events[source.value])
  }

  /** The event's row is written first; giving it its areas is a transaction of its own, after that. */
  function CreateEvent(events: Events, id: int, isGroup: bool, source: Option<int>, canonical: seq<Area>)
    : (Events, Option<Error>)
    requires source.Some? ==> source.value in events
  {
    if isGroup then (events[id := []], None)
    else
      match StartingAreas(events, source, canonical)
      case Ok(areas) => (events[id := areas], None)
      case Err(e) => (events[id := []], Some(e))
  }

  ghost predicate AreasSound(areas: seq<Area>)
  {
    Sound(Event(areas, map[]))
  }

  ghost predicate EventsSound(events: Events)
  {
    forall id :: id in events ==> AreasSound(events[id])
  }

  lemma SourceSound(events: Events, id: int)
    requires EventsSound(events) && id in events
    ensures AreasSound(events[id])
  {
  }

  lemma StartingAreasSound(events: Events, source: Option<int>, canonical: seq<Area>)
    requires IsSource(events, source) && EventsSound(events)
    requires UniqueSlugs(canonical) && forall i :: 0 <= i < |canonical| ==> Top(canonical[i])
    ensures var r := StartingAreas(events, source, canonical);
            && (r.Ok? <==> (source.Some? ==> ParentsFirst(events[source.value], |events[source.value]|)))
            && (r.Ok? ==> AreasSound(r.value))
  {
    if source.Some? {
      SourceSound(events, source.value);
      CopySucceedsExactly(events[source.value]);
      if Copied(events[source.value]).Ok? { CopyIsSound(events[source.value]); }
    } else {
      FlatGoesIn(canonical);
      FlatIsSound(canonical);
    }
  }

  lemma NoAreasSound()
    ensures AreasSound([])
  {
    assert Ranked([], map[]);
  }

  /**
   Creating an event is refused exactly when it is no group and inherits areas of which some nested row
   is read before its nested parent; the new event is there all the same, without areas. Every event
   stays sound.
   */
  lemma CreateEventRefusedExactly(events: Events, id: int, isGroup: bool, source: Option<int>, canonical: seq<Area>)
    requires id !in events && IsSource(events, source) && EventsSound(events)
    requires UniqueSlugs(canonical) && forall i :: 0 <= i < |canonical| ==> Top(canonical[i])
    ensures var r := CreateEvent(events, id, isGroup, source, canonical);
            && (r.1.Some? <==>
                !isGroup && source.Some? && !ParentsFirst(events[source.value], |events[source.value]|))
            && (r.1.Some? ==> r.0 == events[id := []])
            && EventsSound(r.0)
  {
    StartingAreasSound(events, source, canonical);
    NoAreasSound();
  }

  lemma FlatGoesIn(rows: seq<Area>)
    requires UniqueSlugs(rows) && forall i :: 0 <= i < |rows| ==> Top(rows[i])
    ensures InsertAll([], rows) == Ok(rows)
  {
    forall i | 0 <= i < |rows| ensures TopFits(rows, i) { TopsFit(rows, i); }
    TopsGoIn(rows, |rows|);
    assert rows[..|rows|] == rows;
    AllKept(rows);
  }

  lemma {:induction false} AllKept(rows: seq<Area>)
    requires forall i :: 0 <= i < |rows| ==> Top(rows[i])
    ensures Filter(rows, Top) == rows
  {
    if rows != [] { AllKept(rows[..|rows| - 1]); }
  }
}

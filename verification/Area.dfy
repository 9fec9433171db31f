/**
 The area service (go/internal/area/connect.go, area.go): one event's areas, a forest by their parent
 slugs, and the incidents located in them. Requests are handled one after another.
 */
module Area {
  import opened Prelude
  import opened Slug
  import Tx

  /** Character data that Go takes from the Unicode tables. */
  datatype Unicode = Unicode(lower: char -> char, isSpace: char -> bool)

  datatype Area = Area(
    slug: string, name: string, parent: Option<string>, sortOrder: int, approved: bool, proposedBy: Option<int>)

  /** One event: its AREA rows, and for each incident number the slug of its location, if any. */
  datatype Event = Event(areas: seq<Area>, incidents: map<int, Option<string>>)

  datatype Request = Request(slug: string, name: Option<string>, parent: Option<string>, sortOrder: Option<int>)

  datatype Error =
    | NameRequired
    | BlankName
    | OwnParent
    | NoSuchParent
    | TooDeep
    | NoSuchArea
    | CanonicalRequired
    | SelfDuplicate
    | NoSuchCanonical
    | HasSubAreas
    | UnknownArea
    | StoreFailed

  // Reading the rows.

  function Slugs(areas: seq<Area>): (s: seq<string>)
    ensures |s| == |areas| && forall i :: 0 <= i < |s| ==> s[i] == areas[i].slug
  {
    seq(|areas|, i requires 0 <= i < |areas| => areas[i].slug)
  }

  predicate HasSlug(areas: seq<Area>, slug: string)
  {
    exists i :: 0 <= i < |areas| && areas[i].slug == slug
  }

  /** The first row with this slug, or -1. */
  function IndexOf(areas: seq<Area>, slug: string): (i: int)
    ensures -1 <= i < |areas|
    ensures i >= 0 <==> HasSlug(areas, slug)
    ensures i >= 0 ==> areas[i].slug == slug && forall j :: 0 <= j < i ==> areas[j].slug != slug
  {
    if areas == [] then -1
    else
      var i := IndexOf(areas[..|areas| - 1], slug);
      if i >= 0 then i
      else
        assert !HasSlug(areas[..|areas| - 1], slug);
        assert forall j :: 0 <= j < |areas| - 1 ==> areas[j] == areas[..|areas| - 1][j];
        if areas[|areas| - 1].slug == slug then |areas| - 1 else -1
  }

  predicate HasChildren(areas: seq<Area>, slug: string)
  {
    exists i :: 0 <= i < |areas| && areas[i].parent == Some(slug)
  }

  function Trim(u: Unicode, s: string): string
  {
    if s == "" then ""
    else if u.isSpace(s[0]) then Trim(u, s[1..])
    else if u.isSpace(s[|s| - 1]) then Trim(u, s[..|s| - 1])
    else s
  }

  // The operations.

  function ValidateParent(areas: seq<Area>, parent: Option<string>, self: string): Result<Option<string>, Error>
  {
    if parent.None? || parent.value == "" then Ok(None)
    else if parent.value == self then Err(OwnParent)
    else
      var i := IndexOf(areas, parent.value);
      if i < 0 then Err(NoSuchParent)
      else if areas[i].parent.Some? then Err(TooDeep)
      else Ok(parent)
  }

  function AfterCreate(u: Unicode, e: Event, req: Request, proposer: Option<int>, storeOk: bool): Result<(Event,
                       string), Error>
  {
    if req.name.None? || Trim(u, req.name.value) == "" then Err(NameRequired)
    else
      var parent := ValidateParent(e.areas, req.parent, "");
      if parent.Err? then Err(parent.error)
      else if !storeOk then Err(StoreFailed)
      else
        var slug := UniqueSlug(req.name.value, Slugs(e.areas), u.lower);
        var row := Area(slug, Trim(u, req.name.value), parent.value,
                        if req.sortOrder.Some? then req.sortOrder.value else 0, proposer.None?, proposer);
        Ok((e.(areas := e.areas + [row]), slug))
  }

  function AfterUpdate(u: Unicode, e: Event, req: Request, storeOk: bool): Result<Event, Error>
  {
    var i := IndexOf(e.areas, req.slug);
    if i < 0 then Err(NoSuchArea)
    else if req.name.Some? && Trim(u, req.name.value) == "" then Err(BlankName)
    else
      var row := e.areas[i];
      var parent := if req.parent.Some? then ValidateParent(e.areas, req.parent, req.slug) else Ok(row.parent);
      if parent.Err? then Err(parent.error)
      else if !storeOk then Err(StoreFailed)
      else
        Ok(e.(areas := e.areas[i := row.(
                                 name := if req.name.Some? then Trim(u, req.name.value) else row.name,
                                 parent := parent.value,
                                 sortOrder := if req.sortOrder.Some? then req.sortOrder.value else row.sortOrder)]))
  }

  function AfterApprove(e: Event, slug: string, storeOk: bool): Result<Event, Error>
  {
    var i := IndexOf(e.areas, slug);
    if i < 0 then Err(NoSuchArea)
    else if !storeOk then Err(StoreFailed)
    else Ok(e.(areas := e.areas[i := e.areas[i].(approved := true)]))
  }

  function CheckDuplicate(e: Event, dup: string, canon: string): Option<Error>
  {
    if canon == "" then Some(CanonicalRequired)
    else if canon == dup then Some(SelfDuplicate)
    else if IndexOf(e.areas, dup) < 0 then Some(NoSuchArea)
    else if IndexOf(e.areas, canon) < 0 then Some(NoSuchCanonical)
    else if HasChildren(e.areas, dup) then Some(HasSubAreas)
    else None
  }

  function RepointIncidents(e: Event, from: string, to: string): Event
  {
    e.(incidents := map n | n in e.incidents :: if e.incidents[n] == Some(from) then Some(to) else e.incidents[n])
  }

  function DeleteArea(e: Event, slug: string): Event
  {
    e.(areas := Filter(e.areas, (a: Area) => a.slug != slug))
  }

  function Merged(e: Event, dup: string, canon: string): Event
  {
    DeleteArea(RepointIncidents(e, dup, canon), dup)
  }

  /** The location part of an incident edit: "" clears, anything else must name an area of the event. */
  function AfterPlace(u: Unicode, e: Event, number: int, place: string): Result<Event, Error>
  {
    if number !in e.incidents then Err(StoreFailed)
    else
      var slug := Trim(u, place);
      if slug == "" then Ok(e.(incidents := e.incidents[number := None]))
      else if e.incidents[number] != Some(slug) && IndexOf(e.areas, slug) < 0 then Err(UnknownArea)
      else Ok(e.(incidents := e.incidents[number := Some(slug)]))
  }

  // Soundness of the forest.

  predicate UniqueSlugs(areas: seq<Area>)
  {
    NoDuplicates(Slugs(areas))
  }

  ghost predicate ParentsExist(areas: seq<Area>)
  {
    forall i :: 0 <= i < |areas| && areas[i].parent.Some? ==> HasSlug(areas, areas[i].parent.value)
  }

  /** A rank that strictly decreases from every area to its parent. */
  ghost predicate Ranked(areas: seq<Area>, rank: map<string, nat>)
  {
    forall i :: 0 <= i < |areas| ==>
                  && areas[i].slug in rank
                  && (areas[i].parent.Some? ==>
                        areas[i].parent.value in rank && rank[areas[i].parent.value] < rank[areas[i].slug])
  }

  ghost predicate Acyclic(areas: seq<Area>)
  {
    exists rank :: Ranked(areas, rank)
  }

  ghost predicate LocationsExist(e: Event)
  {
    forall n :: n in e.incidents && e.incidents[n].Some? ==> HasSlug(e.areas, e.incidents[n].value)
  }

  ghost predicate Sound(e: Event)
  {
    && UniqueSlugs(e.areas)
    && ParentsExist(e.areas)
    && Acyclic(e.areas)
    && LocationsExist(e)
  }

  /** The area `n` parent links above `slug`; `None` past the top. */
  function Ancestor(areas: seq<Area>, slug: string, n: nat): Option<string>
    decreases n
  {
    if n == 0 then Some(slug)
    else
      var i := IndexOf(areas, slug);
      if i < 0 || areas[i].parent.None? then None else Ancestor(areas, areas[i].parent.value, n - 1)
  }

  lemma {:induction false} AncestorsDescend(areas: seq<Area>, rank: map<string, nat>, slug: string, n: nat)
    requires Ranked(areas, rank) && ParentsExist(areas) && HasSlug(areas, slug)
    requires Ancestor(areas, slug, n).Some?
    ensures HasSlug(areas, Ancestor(areas, slug, n).value)
    ensures slug in rank && Ancestor(areas, slug, n).value in rank
    ensures rank[Ancestor(areas, slug, n).value] + n <= rank[slug]
    decreases n
  {
    if n > 0 {
      var i := IndexOf(areas, slug);
      AncestorsDescend(areas, rank, areas[i].parent.value, n - 1);
    }
  }

  /** In a sound event no area is its own ancestor, and climbing from any area ends at a top-level one. */
  lemma SoundForestHasNoCycle(e: Event, slug: string, n: nat)
    requires Sound(e) && HasSlug(e.areas, slug)
    ensures Ancestor(e.areas, slug, n) == Some(slug) ==> n == 0
    ensures exists top :: Ancestor(e.areas, slug, top) == None
  {
    var rank :| Ranked(e.areas, rank);
    if Ancestor(e.areas, slug, n).Some? {
      AncestorsDescend(e.areas, rank, slug, n);
    }
    if Ancestor(e.areas, slug, rank[slug] + 1).Some? {
      AncestorsDescend(e.areas, rank, slug, rank[slug] + 1);
    }
  }

  // Every operation keeps it.

  lemma CreateKeepsSound(u: Unicode, e: Event, req: Request, proposer: Option<int>, storeOk: bool)
    requires Sound(e) && AfterCreate(u, e, req, proposer, storeOk).Ok?
    ensures Sound(AfterCreate(u, e, req, proposer, storeOk).value.0)
    ensures !HasSlug(e.areas, AfterCreate(u, e, req, proposer, storeOk).value.1)
    ensures IsSlug(AfterCreate(u, e, req, proposer, storeOk).value.1)
  {
    var (e', slug) := AfterCreate(u, e, req, proposer, storeOk).value;
    var taken := Slugs(e.areas);
    UniqueSlugIsSlug(req.name.value, taken, u.lower);
    assert slug !in taken;
    assert forall i :: 0 <= i < |taken| ==> taken[i] in taken;
    AppendArea(e.areas, e'.areas[|e.areas|]);
  }

  lemma AppendArea(areas: seq<Area>, row: Area)
    requires UniqueSlugs(areas) && ParentsExist(areas) && Acyclic(areas)
    requires !HasSlug(areas, row.slug) && (row.parent.Some? ==> HasSlug(areas, row.parent.value))
    ensures var areas' := areas + [row];
            && UniqueSlugs(areas') && ParentsExist(areas') && Acyclic(areas')
            && (forall s :: HasSlug(areas, s) ==> HasSlug(areas', s))
  {
    var areas' := areas + [row];
    KeepSlugs(areas, areas');
    assert Slugs(areas') == Slugs(areas) + [row.slug];
    var rank :| Ranked(areas, rank);
    if row.parent.Some? {
      assert areas[IndexOf(areas, row.parent.value)].slug in rank;
    }
    var rank' := rank[row.slug := if row.parent.Some? then rank[row.parent.value] + 1 else 0];
    forall i | 0 <= i < |areas|
      ensures areas[i].slug != row.slug && areas[i].parent != Some(row.slug)
    {
      if areas[i].parent.Some? { assert HasSlug(areas, areas[i].parent.value); }
    }
    assert Ranked(areas', rank');
  }

  /** Rows keep their places and slugs; later rows may be new. */
  lemma KeepSlugs(areas: seq<Area>, areas': seq<Area>)
    requires |areas| <= |areas'| && forall i :: 0 <= i < |areas| ==> areas'[i].slug == areas[i].slug
    ensures forall s :: HasSlug(areas, s) ==> HasSlug(areas', s)
  {
    forall s | HasSlug(areas, s) ensures HasSlug(areas', s) {
      var i :| 0 <= i < |areas| && areas[i].slug == s;
      assert areas'[i].slug == s;
    }
  }

  lemma UpdateKeepsSound(u: Unicode, e: Event, req: Request, storeOk: bool)
    requires Sound(e) && AfterUpdate(u, e, req, storeOk).Ok?
    ensures Sound(AfterUpdate(u, e, req, storeOk).value)
  {
    var e' := AfterUpdate(u, e, req, storeOk).value;
    var i := IndexOf(e.areas, req.slug);
    var rank :| Ranked(e.areas, rank);
    KeepSlugs(e.areas, e'.areas);
    assert Slugs(e'.areas) == Slugs(e.areas);
    if e'.areas[i].parent == e.areas[i].parent || e'.areas[i].parent.None? {
      assert Ranked(e'.areas, rank);
    } else {
      var top := e'.areas[i].parent.value;
      Reranked(e.areas, e'.areas, rank, i, top);
    }
    forall j | 0 <= j < |e'.areas| && e'.areas[j].parent.Some? ensures HasSlug(e'.areas, e'.areas[j].parent.value) {
      if j != i { assert e'.areas[j].parent == e.areas[j].parent; }
    }
  }

  /** Hanging an area below another top-level one: rank that one 0 and everything else one higher. */
  lemma Reranked(areas: seq<Area>, areas': seq<Area>, rank: map<string, nat>, i: nat, top: string)
    requires UniqueSlugs(areas) && Ranked(areas, rank)
    requires i < |areas| == |areas'| && areas[i].slug != top
    requires HasSlug(areas, top) && areas[IndexOf(areas, top)].parent.None?
    requires areas'[i].slug == areas[i].slug && areas'[i].parent == Some(top)
    requires forall j :: 0 <= j < |areas| && j != i ==> areas'[j] == areas[j]
    ensures Acyclic(areas')
  {
    var rank' := map s | s in rank :: if s == top then 0 else rank[s] + 1;
    var t := IndexOf(areas, top);
    forall j | 0 <= j < |areas'|
      ensures areas'[j].slug in rank'
      ensures areas'[j].parent.Some? ==>
                areas'[j].parent.value in rank' && rank'[areas'[j].parent.value] < rank'[areas'[j].slug]
    {
      assert areas[j].slug in rank;
      if areas[j].slug == top {
        assert Slugs(areas)[j] == Slugs(areas)[t];
      }
    }
    assert Ranked(areas', rank');
  }

  lemma ApproveKeepsSound(e: Event, slug: string, storeOk: bool)
    requires Sound(e) && AfterApprove(e, slug, storeOk).Ok?
    ensures Sound(AfterApprove(e, slug, storeOk).value)
  {
    var e' := AfterApprove(e, slug, storeOk).value;
    var rank :| Ranked(e.areas, rank);
    KeepSlugs(e.areas, e'.areas);
    assert Slugs(e'.areas) == Slugs(e.areas);
    assert Ranked(e'.areas, rank);
    forall j | 0 <= j < |e'.areas| && e'.areas[j].parent.Some? ensures HasSlug(e'.areas, e'.areas[j].parent.value) {
      assert e'.areas[j].parent == e.areas[j].parent;
    }
  }

  lemma PlaceKeepsSound(u: Unicode, e: Event, number: int, place: string)
    requires Sound(e) && AfterPlace(u, e, number, place).Ok?
    ensures Sound(AfterPlace(u, e, number, place).value)
  {
  }

  // Deleting rows.

  lemma {:induction false} FilterAreas(areas: seq<Area>, keep: Area -> bool)
    requires UniqueSlugs(areas)
    ensures UniqueSlugs(Filter(areas, keep))
    ensures forall a :: a in Filter(areas, keep) <==> a in areas && keep(a)
  {
    if areas != [] {
      var init, last := areas[..|areas| - 1], areas[|areas| - 1];
      forall i, j | 0 <= i < j < |init| ensures Slugs(init)[i] != Slugs(init)[j] {
        assert Slugs(areas)[i] != Slugs(areas)[j];
      }
      FilterAreas(init, keep);
      assert areas == init + [last];
      forall a | a in init ensures a.slug != last.slug {
        var i :| 0 <= i < |init| && init[i] == a;
        assert Slugs(areas)[i] != Slugs(areas)[|areas| - 1];
      }
      assert forall a :: a in Filter(init, keep) ==> a in init;
    }
  }

  lemma HasSlugIn(areas: seq<Area>, slug: string)
    ensures HasSlug(areas, slug) <==> exists a :: a in areas && a.slug == slug
  {
    if HasSlug(areas, slug) {
      assert areas[IndexOf(areas, slug)] in areas;
    }
  }

  /** Deleting a row that nothing points to leaves the rest of the forest as it was. */
  lemma DeleteLeaf(areas: seq<Area>, slug: string)
    requires UniqueSlugs(areas) && ParentsExist(areas) && Acyclic(areas) && !HasChildren(areas, slug)
    ensures var areas' := Filter(areas, (a: Area) => a.slug != slug);
            && UniqueSlugs(areas') && ParentsExist(areas') && Acyclic(areas')
            && (forall a :: a in areas' <==> a in areas && a.slug != slug)
            && (forall s :: HasSlug(areas', s) <==> s != slug && HasSlug(areas, s))
  {
    var areas' := Filter(areas, (a: Area) => a.slug != slug);
    FilterAreas(areas, (a: Area) => a.slug != slug);
    forall s ensures HasSlug(areas', s) <==> s != slug && HasSlug(areas, s) {
      HasSlugIn(areas, s);
      HasSlugIn(areas', s);
    }
    var rank :| Ranked(areas, rank);
    forall i | 0 <= i < |areas'|
      ensures exists j :: 0 <= j < |areas| && areas[j] == areas'[i]
    {
      assert areas'[i] in areas;
    }
    assert Ranked(areas', rank);
    forall i | 0 <= i < |areas'| && areas'[i].parent.Some? ensures HasSlug(areas', areas'[i].parent.value) {
      var j :| 0 <= j < |areas| && areas[j] == areas'[i];
      assert areas[j].parent != Some(slug);
    }
  }

  /**
   A merge moves exactly the duplicate's incidents to the canonical area, loses and adds none, removes
   exactly the duplicate's row, and leaves a sound event.
   */
  lemma MergeMovesExactly(e: Event, dup: string, canon: string)
    requires Sound(e) && CheckDuplicate(e, dup, canon).None?
    ensures var e' := Merged(e, dup, canon);
            && Sound(e')
            && |e'.incidents| == |e.incidents|
            && (forall n :: n in e.incidents ==>
                  n in e'.incidents && e'.incidents[n] ==
                    if e.incidents[n] == Some(dup) then Some(canon) else e.incidents[n])
            && (forall a :: a in e'.areas <==> a in e.areas && a.slug != dup)
            && !HasSlug(e'.areas, dup) && HasSlug(e'.areas, canon)
  {
    var e' := Merged(e, dup, canon);
    DeleteLeaf(e.areas, dup);
    assert e'.incidents.Keys == e.incidents.Keys;
    assert |e'.incidents| == |e'.incidents.Keys|;
  }

  // One level of nesting: what the validation intends, and when it fails.

  predicate OneLevel(areas: seq<Area>)
  {
    forall i, j :: 0 <= i < |areas| && 0 <= j < |areas| && areas[i].parent == Some(areas[j].slug) ==>
                     areas[j].parent.None?
  }

  /**
   An update keeps the nesting one level deep exactly when it does not hang an area that has
   sub-areas below another one; the code does not test for that.
   */
  lemma UpdateKeepsOneLevelExactly(u: Unicode, e: Event, req: Request, storeOk: bool)
    requires Sound(e) && OneLevel(e.areas) && AfterUpdate(u, e, req, storeOk).Ok?
    ensures OneLevel(AfterUpdate(u, e, req, storeOk).value.areas)
            <==> !(req.parent.Some? && req.parent.value != "" && HasChildren(e.areas, req.slug))
  {
    var areas, areas' := e.areas, AfterUpdate(u, e, req, storeOk).value.areas;
    var k := IndexOf(areas, req.slug);
    forall i, j | 0 <= i < |areas| && 0 <= j < |areas| && areas[i].slug == areas[j].slug ensures i == j {
      assert Slugs(areas)[i] == Slugs(areas)[j];
    }
    if req.parent.Some? && req.parent.value != "" {
      if HasChildren(areas, req.slug) {
        var c :| 0 <= c < |areas| && areas[c].parent == Some(req.slug);
        var p := IndexOf(areas, req.parent.value);
        assert areas'[c].parent.Some? && areas'[k].parent.Some?;
        if c != k {
          assert areas'[c].parent == Some(areas'[k].slug);
        }
      } else {
        var p := IndexOf(areas, req.parent.value);
        forall i, j | 0 <= i < |areas'| && 0 <= j < |areas'| && areas'[i].parent == Some(areas'[j].slug)
          ensures areas'[j].parent.None?
        {
          assert areas'[j].slug == areas[j].slug;
          if i != k { assert areas[i].parent == Some(areas[j].slug); }
        }
      }
    } else {
      forall i, j | 0 <= i < |areas'| && 0 <= j < |areas'| && areas'[i].parent == Some(areas'[j].slug)
        ensures areas'[j].parent.None?
      {
        assert areas'[j].slug == areas[j].slug;
        assert areas[i].parent == Some(areas[j].slug);
      }
    }
  }

  /** Two top-level areas `x` and `y`, and `z` below `y`. */
  function ThreeAreas(x: string, y: string, z: string): seq<Area>
  {
    [Area(x, x, None, 0, true, None), Area(y, y, None, 0, true, None), Area(z, z, Some(y), 0, true, None)]
  }

  lemma ThreeAreasSound(x: string, y: string, z: string)
    requires x != y && y != z && x != z
    ensures Sound(Event(ThreeAreas(x, y, z), map[])) && OneLevel(ThreeAreas(x, y, z))
  {
    var areas := ThreeAreas(x, y, z);
    assert areas[1].slug == y;
    assert HasSlug(areas, y);
    var rank: map<string, nat> := map[x := 0, y := 0, z := 1];
    assert Ranked(areas, rank);
  }

  /** Three areas, one below another; moving the upper one below the third makes two levels. */
  lemma NestingCanDeepen(u: Unicode)
    ensures exists e, req ::
              && Sound(e) && OneLevel(e.areas) && AfterUpdate(u, e, req, true).Ok?
              && !OneLevel(AfterUpdate(u, e, req, true).value.areas)
  {
    assert "a"[0] == 'a' && "b"[0] == 'b' && "c"[0] == 'c';
    DeepenBySecond(u, "a", "b", "c");
  }

  lemma DeepenBySecond(u: Unicode, x: string, y: string, z: string)
    requires x != y && y != z && x != z && x != ""
    ensures var e, req := Event(ThreeAreas(x, y, z), map[]), Request(y, None, Some(x), None);
            && Sound(e) && OneLevel(e.areas) && AfterUpdate(u, e, req, true).Ok?
            && !OneLevel(AfterUpdate(u, e, req, true).value.areas)
  {
    var areas, req := ThreeAreas(x, y, z), Request(y, None, Some(x), None);
    ThreeAreasSound(x, y, z);
    assert areas[0].slug == x && areas[1].slug == y && areas[2].parent == Some(y);
    assert HasSlug(areas, x) && HasSlug(areas, y) && HasChildren(areas, y);
    UpdateKeepsOneLevelExactly(u, Event(areas, map[]), req, true);
  }

  // Runs.

  datatype Op =
    | Create(req: Request, proposer: Option<int>, storeOk: bool)
    | Update(req: Request, storeOk: bool)
    | Approve(slug: string, storeOk: bool)
    | MarkDuplicate(dup: string, canon: string, committed: bool)
    | Place(number: int, place: string)
    | NewIncident(number: int)

  /** A rejected request, or a merge whose transaction fails, changes nothing. */
  function Step(u: Unicode, e: Event, op: Op): Event
  {
    match op
    case Create(req, proposer, storeOk) =>
      (var r := AfterCreate(u, e, req, proposer, storeOk); if r.Ok? then r.value.0 else e)
    case Update(req, storeOk) => (var r := AfterUpdate(u, e, req, storeOk); if r.Ok? then r.value else e)
    case Approve(slug, storeOk) => (var r := AfterApprove(e, slug, storeOk); if r.Ok? then r.value else e)
    case MarkDuplicate(dup, canon, committed) =>
      if CheckDuplicate(e, dup, canon).None? && committed then Merged(e, dup, canon) else e
    case Place(number, place) => (var r := AfterPlace(u, e, number, place); if r.Ok? then r.value else e)
    case NewIncident(number) => if number in e.incidents then e else e.(incidents := e.incidents[number := None])
  }

  function Run(u: Unicode, e: Event, ops: seq<Op>): Event
  {
    if ops == [] then e else Step(u, Run(u, e, ops[..|ops| - 1]), ops[|ops| - 1])
  }

  /** An accepted update that hangs an area with sub-areas below another one. */
  ghost predicate Deepens(u: Unicode, e: Event, op: Op)
  {
    && op.Update? && AfterUpdate(u, e, op.req, op.storeOk).Ok?
    && op.req.parent.Some? && op.req.parent.value != "" && HasChildren(e.areas, op.req.slug)
  }

  lemma SlugsIdentify(areas: seq<Area>, i: nat, j: nat)
    requires UniqueSlugs(areas) && i < |areas| && j < |areas| && areas[i].slug == areas[j].slug
    ensures i == j
  {
    assert Slugs(areas)[i] == Slugs(areas)[j];
  }

  lemma CreateKeepsOneLevel(u: Unicode, e: Event, req: Request, proposer: Option<int>, storeOk: bool)
    requires Sound(e) && OneLevel(e.areas) && AfterCreate(u, e, req, proposer, storeOk).Ok?
    ensures OneLevel(AfterCreate(u, e, req, proposer, storeOk).value.0.areas)
  {
    var areas, areas' := e.areas, AfterCreate(u, e, req, proposer, storeOk).value.0.areas;
    CreateKeepsSound(u, e, req, proposer, storeOk);
    var row := areas'[|areas|];
    forall i, j | 0 <= i < |areas'| && 0 <= j < |areas'| && areas'[i].parent == Some(areas'[j].slug)
      ensures areas'[j].parent.None?
    {
      if i < |areas| {
        assert HasSlug(areas, areas[i].parent.value);
      } else {
        var p := IndexOf(areas, row.parent.value);
        assert areas[p].parent.None? && areas'[p] == areas[p];
        SlugsIdentify(areas', j, p);
      }
    }
  }

  lemma ApproveKeepsOneLevel(e: Event, slug: string, storeOk: bool)
    requires OneLevel(e.areas) && AfterApprove(e, slug, storeOk).Ok?
    ensures OneLevel(AfterApprove(e, slug, storeOk).value.areas)
  {
    var areas, areas' := e.areas, AfterApprove(e, slug, storeOk).value.areas;
    forall i, j | 0 <= i < |areas'| && 0 <= j < |areas'| && areas'[i].parent == Some(areas'[j].slug)
      ensures areas'[j].parent.None?
    {
      assert areas[i].parent == Some(areas[j].slug);
    }
  }

  lemma MergeKeepsOneLevel(e: Event, dup: string, canon: string)
    requires Sound(e) && OneLevel(e.areas) && CheckDuplicate(e, dup, canon).None?
    ensures OneLevel(Merged(e, dup, canon).areas)
  {
    var areas, areas' := e.areas, Merged(e, dup, canon).areas;
    MergeMovesExactly(e, dup, canon);
    forall i, j | 0 <= i < |areas'| && 0 <= j < |areas'| && areas'[i].parent == Some(areas'[j].slug)
      ensures areas'[j].parent.None?
    {
      assert areas'[i] in areas && areas'[j] in areas;
    }
  }

  /** Of all the operations, only such an update breaks the one level, and it always does. */
  lemma StepKeepsOneLevelExactly(u: Unicode, e: Event, op: Op)
    requires Sound(e) && OneLevel(e.areas)
    ensures OneLevel(Step(u, e, op).areas) <==> !Deepens(u, e, op)
  {
    match op {
      case Create(req, proposer, storeOk) =>
        if AfterCreate(u, e, req, proposer, storeOk).Ok? { CreateKeepsOneLevel(u, e, req, proposer, storeOk); }
      case Update(req, storeOk) =>
        if AfterUpdate(u, e, req, storeOk).Ok? { UpdateKeepsOneLevelExactly(u, e, req, storeOk); }
      case Approve(slug, storeOk) =>
        if AfterApprove(e, slug, storeOk).Ok? { ApproveKeepsOneLevel(e, slug, storeOk); }
      case MarkDuplicate(dup, canon, _) =>
        if CheckDuplicate(e, dup, canon).None? { MergeKeepsOneLevel(e, dup, canon); }
      case Place(_, _) =>
      case NewIncident(_) =>
    }
  }

  ghost predicate StaysOneLevel(u: Unicode, e: Event, ops: seq<Op>)
  {
    AllPrefixes(ops, (p: seq<Op>) => OneLevel(Run(u, e, p).areas))
  }

  ghost predicate NeverDeepens(u: Unicode, e: Event, ops: seq<Op>)
  {
    AllSteps(ops, (p: seq<Op>, op: Op) => !Deepens(u, Run(u, e, p), op))
  }

  /** A run stays at one level all the way exactly when it starts there and none of its steps is such an update. */
  lemma {:induction false} RunKeepsOneLevelExactly(u: Unicode, e: Event, ops: seq<Op>)
    requires Sound(e)
    ensures StaysOneLevel(u, e, ops) <==> OneLevel(e.areas) && NeverDeepens(u, e, ops)
  {
    if ops == [] {
      assert ops[..0] == [];
    } else {
      var init := ops[..|ops| - 1];
      RunKeepsOneLevelExactly(u, e, init);
      RunKeepsSound(u, e, init);
      AllPrefixesSplit(ops, (p: seq<Op>) => OneLevel(Run(u, e, p).areas));
      AllStepsSplit(ops, (p: seq<Op>, op: Op) => !Deepens(u, Run(u, e, p), op));
      if StaysOneLevel(u, e, init) {
        assert init[..|init|] == init;
        StepKeepsOneLevelExactly(u, Run(u, e, init), ops[|ops| - 1]);
      }
    }
  }

  lemma StepKeepsSound(u: Unicode, e: Event, op: Op)
    requires Sound(e)
    ensures Sound(Step(u, e, op))
  {
    match op {
      case Create(req, proposer, storeOk) =>
        if AfterCreate(u, e, req, proposer, storeOk).Ok? { CreateKeepsSound(u, e, req, proposer, storeOk); }
      case Update(req, storeOk) =>
        if AfterUpdate(u, e, req, storeOk).Ok? { UpdateKeepsSound(u, e, req, storeOk); }
      case Approve(slug, storeOk) =>
        if AfterApprove(e, slug, storeOk).Ok? { ApproveKeepsSound(e, slug, storeOk); }
      case MarkDuplicate(dup, canon, committed) =>
        if CheckDuplicate(e, dup, canon).None? { MergeMovesExactly(e, dup, canon); }
      case Place(number, place) =>
        if AfterPlace(u, e, number, place).Ok? { PlaceKeepsSound(u, e, number, place); }
      case NewIncident(number) =>
    }
  }

  /**
   Over every run from a sound event, slugs stay unique, parents exist, parent links are acyclic and
   locations exist. How an event starts out sound is in AreaSeed.
   */
  lemma {:induction false} RunKeepsSound(u: Unicode, e: Event, ops: seq<Op>)
    requires Sound(e)
    ensures Sound(Run(u, e, ops))
  {
    if ops != [] {
      RunKeepsSound(u, e, ops[..|ops| - 1]);
      StepKeepsSound(u, Run(u, e, ops[..|ops| - 1]), ops[|ops| - 1]);
    }
  }

  // The service as the program runs it.

  /** Where one attempt of the merge transaction fails, if it does. */
  datatype MergeAttempt = MergeAttempt(
    cancelled: bool, beginError: Option<Tx.DbError>,
    repointError: Option<Tx.DbError>, deleteError: Option<Tx.DbError>, commitError: Option<Tx.DbError>)

  function MergeBody(e: Event, dup: string, canon: string, a: MergeAttempt): Tx.TxResult<Event>
  {
    if a.repointError.Some? then Tx.Broke(Tx.Wrapped(a.repointError.value))
    else
      var moved := RepointIncidents(e, dup, canon);
      if a.deleteError.Some? then Tx.Broke(Tx.Wrapped(a.deleteError.value)) else Tx.Worked(DeleteArea(moved, dup))
  }

  function MergeScript(attempts: seq<MergeAttempt>, dup: string, canon: string): (s: seq<Tx.Attempt<Event>>)
    ensures |s| == |attempts|
  {
    seq(|attempts|, i requires 0 <= i < |attempts| =>
      var a := attempts[i];
      Tx.Attempt(a.cancelled, (e: Event) => e, a.beginError, (e: Event) => MergeBody(e, dup, canon, a), a.commitError))
  }

  /** What one attempt at the merge, if it is reached, ends with. */
  function MergeError(a: MergeAttempt): Option<Tx.DbError>
  {
    if a.beginError.Some? then a.beginError
    else if a.repointError.Some? then Some(Tx.Wrapped(a.repointError.value))
    else if a.deleteError.Some? then Some(Tx.Wrapped(a.deleteError.value))
    else a.commitError
  }

  /** Attempt `n` commits: it is not cancelled, nothing fails in it, and those before it failed transiently. */
  ghost predicate CommitsAt(attempts: seq<MergeAttempt>, n: nat)
    requires n < |attempts|
  {
    && !(n > 0 && attempts[n].cancelled) && MergeError(attempts[n]).None?
    && forall m :: 0 <= m < n ==>
                     && !(m > 0 && attempts[m].cancelled) && attempts[m].beginError.None?
                     && MergeError(attempts[m]).Some? && Tx.Retryable(MergeError(attempts[m]).value)
  }

  lemma CommitsAsScripted(e: Event, attempts: seq<MergeAttempt>, dup: string, canon: string, n: nat)
    requires n < |attempts|
    ensures Tx.CommitsAt(e, MergeScript(attempts, dup, canon), n) <==> CommitsAt(attempts, n)
  {
    var script := MergeScript(attempts, dup, canon);
    forall m: nat | m <= n
      ensures Tx.ErrorOf(e, script, m) == MergeError(attempts[m])
      ensures Tx.RetriedAfter(e, script, m) <==>
              && !(m > 0 && attempts[m].cancelled) && attempts[m].beginError.None?
              && MergeError(attempts[m]).Some? && Tx.Retryable(MergeError(attempts[m]).value)
    {
      assert script[m].body(Tx.OthersUpTo(e, script, m + 1))
             == MergeBody(Tx.OthersUpTo(e, script, m + 1), dup, canon, attempts[m]);
    }
  }

  lemma {:induction false} NobodyElseWrites(e: Event, attempts: seq<MergeAttempt>, dup: string, canon: string, n: nat)
    requires n <= |attempts|
    ensures Tx.OthersUpTo(e, MergeScript(attempts, dup, canon), n) == e
  {
    if n > 0 {
      NobodyElseWrites(e, attempts, dup, canon, n - 1);
    }
  }

  class Service {
    const u: Unicode
    var event: Event

    constructor (u: Unicode, event: Event)
      ensures this.u == u && this.event == event
    {
      this.u, this.event := u, event;
    }

    method CreateArea(req: Request, isAreaAdmin: bool, proposerID: int, storeOk: bool) returns (r: Result<string,
                      Error>)
      modifies this
      ensures var spec := AfterCreate(u, old(event), req, if isAreaAdmin then None else Some(proposerID), storeOk);
              match spec
              case Ok((e', slug)) => event == e' && r == Ok(slug)
              case Err(error) => event == old(event) && r == Err(error)
    {
      if req.name.None? || Trim(u, req.name.value) == "" {
        return Err(NameRequired);
      }
      var taken: seq<string> := [];
      for i := 0 to |event.areas|
        invariant taken == Slugs(event.areas)[..i]
      {
        taken := taken + [event.areas[i].slug];
      }
      assert taken == Slugs(event.areas);
      var parent := ValidateParent(event.areas, req.parent, "");
      if parent.Err? {
        return Err(parent.error);
      }
      var proposedBy := None;
      if !isAreaAdmin {
        proposedBy := Some(proposerID);
      }
      var slug := FindUniqueSlug(req.name.value, taken, u.lower);
      if !storeOk {
        return Err(StoreFailed);
      }
      var sortOrder := if req.sortOrder.Some? then req.sortOrder.value else 0;
      var row := Area.Area(slug, Trim(u, req.name.value), parent.value, sortOrder, isAreaAdmin, proposedBy);
      event := event.(areas := event.areas + [row]);
      return Ok(slug);
    }

    method UpdateArea(req: Request, storeOk: bool) returns (r: Result<(), Error>)
      modifies this
      ensures match AfterUpdate(u, old(event), req, storeOk)
              case Ok(e') => event == e' && r.Ok?
              case Err(error) => event == old(event) && r == Err(error)
    {
      var i := IndexOf(event.areas, req.slug);
      if i < 0 {
        return Err(NoSuchArea);
      }
      var row := event.areas[i];
      var name := row.name;
      if req.name.Some? {
        if Trim(u, req.name.value) == "" {
          return Err(BlankName);
        }
        name := Trim(u, req.name.value);
      }
      var parent := row.parent;
      if req.parent.Some? {
        var validated := ValidateParent(event.areas, req.parent, req.slug);
        if validated.Err? {
          return Err(validated.error);
        }
        parent := validated.value;
      }
      var sortOrder := row.sortOrder;
      if req.sortOrder.Some? {
        sortOrder := req.sortOrder.value;
      }
      if !storeOk {
        return Err(StoreFailed);
      }
      event := event.(areas := event.areas[i := row.(name := name, parent := parent, sortOrder := sortOrder)]);
      return Ok(());
    }

    /**
     Either the whole merge is in the store or none of it; never a repoint without its delete. It is
     there exactly when the request is sound and one of the four attempts is reached and commits.
     */
    method MarkAreaDuplicate(dup: string, canon: string, attempts: seq<MergeAttempt>) returns (r: Result<(), Error>)
      requires |attempts| == Tx.MAX_TX_ATTEMPTS
      modifies this
      ensures r.Ok? ==> CheckDuplicate(old(event), dup, canon).None? && event == Merged(old(event), dup, canon)
      ensures r.Err? ==> event == old(event)
      ensures CheckDuplicate(old(event), dup, canon).None? ==>
                (r.Ok? <==> exists n: nat :: n < |attempts| && CommitsAt(attempts, n))
      ensures CheckDuplicate(old(event), dup, canon).Some? ==> r == Err(CheckDuplicate(old(event), dup, canon).value)
    {
      var problem := CheckDuplicate(event, dup, canon);
      if problem.Some? {
        return Err(problem.value);
      }
      var script := MergeScript(attempts, dup, canon);
      var after, err, made := Tx.RunInTx(event, script);
      NobodyElseWrites(event, attempts, dup, canon, made);
      NobodyElseWrites(event, attempts, dup, canon, made - 1);
      forall n: nat | n < |attempts| ensures Tx.CommitsAt(event, script, n) <==> CommitsAt(attempts, n) {
        CommitsAsScripted(event, attempts, dup, canon, n);
      }
      event := after;
      return if err.None? then Ok(()) else Err(StoreFailed);
    }
  }
}

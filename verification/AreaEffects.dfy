/**
 What the area operations store and refuse, field by field, told from the stored rows and the request
 (go/internal/area/connect.go 187-339, area.go 45-62).
 */
module AreaEffects {
  import opened Prelude
  import opened Area
  import Slug

  predicate AllSpaces(u: Unicode, s: string)
  {
    forall i :: 0 <= i < |s| ==> u.isSpace(s[i])
  }

  lemma SpacesConcat(u: Unicode, a: string, b: string)
    requires AllSpaces(u, a) && AllSpaces(u, b)
    ensures AllSpaces(u, a + b)
  {
  }

  /** Trimming takes only spaces off the two ends. */
  lemma {:induction false} TrimTakesSpaces(u: Unicode, s: string) returns (front: string, back: string)
    ensures s == front + Trim(u, s) + back && AllSpaces(u, front) && AllSpaces(u, back)
  {
    front, back := "", "";
    if s != "" && u.isSpace(s[0]) {
      var rest;
      rest, back := TrimTakesSpaces(u, s[1..]);
      front := [s[0]] + rest;
      SpacesConcat(u, [s[0]], rest);
      assert s == [s[0]] + s[1..];
    } else if s != "" && u.isSpace(s[|s| - 1]) {
      var rest;
      front, rest := TrimTakesSpaces(u, s[..|s| - 1]);
      back := rest + [s[|s| - 1]];
      SpacesConcat(u, rest, [s[|s| - 1]]);
      assert s == s[..|s| - 1] + [s[|s| - 1]];
    }
  }

  /** It leaves none there. */
  lemma {:induction false} TrimLeavesNoSpace(u: Unicode, s: string)
    ensures Trim(u, s) != "" ==> !u.isSpace(Trim(u, s)[0]) && !u.isSpace(Trim(u, s)[|Trim(u, s)| - 1])
  {
    if s != "" && u.isSpace(s[0]) {
      TrimLeavesNoSpace(u, s[1..]);
    } else if s != "" && u.isSpace(s[|s| - 1]) {
      TrimLeavesNoSpace(u, s[..|s| - 1]);
    }
  }

  predicate IsTopLevel(areas: seq<Area>, slug: string)
  {
    exists i :: 0 <= i < |areas| && areas[i].slug == slug && areas[i].parent.None?
  }

  /** A parent is refused when it is the area itself, does not exist, or has a parent; "" means none. */
  lemma ParentRefusedExactly(areas: seq<Area>, parent: Option<string>, self: string)
    requires UniqueSlugs(areas)
    ensures ValidateParent(areas, parent, self) ==
            if parent.None? || parent.value == "" then Ok(None)
            else if parent.value == self then Err(OwnParent)
            else if !HasSlug(areas, parent.value) then Err(NoSuchParent)
            else if !IsTopLevel(areas, parent.value) then Err(TooDeep)
            else Ok(parent)
  {
    if parent.Some? && HasSlug(areas, parent.value) {
      var i := IndexOf(areas, parent.value);
      forall j | 0 <= j < |areas| && areas[j].slug == parent.value ensures j == i { SlugsIdentify(areas, j, i); }
    }
  }

  function WantedParent(parent: Option<string>): Option<string>
  {
    if parent == Some("") then None else parent
  }

  /**
   A new area has a free slug made of its name, the trimmed name, the parent and order asked for, and is
   approved unless it is a proposal.
   */
  lemma CreateStoresRequest(u: Unicode, e: Event, req: Request, proposer: Option<int>, storeOk: bool)
    requires AfterCreate(u, e, req, proposer, storeOk).Ok?
    ensures var (e', slug) := AfterCreate(u, e, req, proposer, storeOk).value;
            && e'.incidents == e.incidents && |e'.areas| == |e.areas| + 1 && e'.areas[..|e.areas|] == e.areas
            && var a := e'.areas[|e.areas|];
               && req.name.Some? && a.name == Trim(u, req.name.value) && a.slug == slug
               && Slug.IsUniqueSlug(slug, Slug.Slugify(req.name.value, u.lower), Slugs(e.areas))
               && a.parent == WantedParent(req.parent)
               && (req.sortOrder.Some? ==> a.sortOrder == req.sortOrder.value)
               && (req.sortOrder.None? ==> a.sortOrder == 0)
               && a.proposedBy == proposer && (a.approved <==> proposer.None?)
  {
  }

  lemma CreateRefusedExactly(u: Unicode, e: Event, req: Request, proposer: Option<int>, storeOk: bool)
    requires UniqueSlugs(e.areas)
    ensures var r, parent := AfterCreate(u, e, req, proposer, storeOk), WantedParent(req.parent);
            if req.name.None? || Trim(u, req.name.value) == "" then r == Err(NameRequired)
            else if parent.Some? && !HasSlug(e.areas, parent.value) then r == Err(NoSuchParent)
            else if parent.Some? && !IsTopLevel(e.areas, parent.value) then r == Err(TooDeep)
            else if !storeOk then r == Err(StoreFailed)
            else r.Ok?
  {
    ParentRefusedExactly(e.areas, req.parent, "");
  }

  /** An update changes the one row named, and in it only the fields that are present. */
  lemma UpdateStoresRequest(u: Unicode, e: Event, req: Request, storeOk: bool)
    requires AfterUpdate(u, e, req, storeOk).Ok?
    ensures var e', i := AfterUpdate(u, e, req, storeOk).value, IndexOf(e.areas, req.slug);
            && e'.incidents == e.incidents && |e'.areas| == |e.areas| && 0 <= i < |e.areas|
            && (forall j :: 0 <= j < |e.areas| && j != i ==> e'.areas[j] == e.areas[j])
            && var a, a' := e.areas[i], e'.areas[i];
               && a.slug == req.slug == a'.slug && a'.approved == a.approved && a'.proposedBy == a.proposedBy
               && (req.name.None? ==> a'.name == a.name)
               && (req.name.Some? ==> a'.name == Trim(u, req.name.value) != "")
               && (req.parent.None? ==> a'.parent == a.parent)
               && (req.parent.Some? ==> a'.parent == WantedParent(req.parent))
               && (req.sortOrder.None? ==> a'.sortOrder == a.sortOrder)
               && (req.sortOrder.Some? ==> a'.sortOrder == req.sortOrder.value)
  {
  }

  lemma UpdateRefusedExactly(u: Unicode, e: Event, req: Request, storeOk: bool)
    requires UniqueSlugs(e.areas)
    ensures var r, parent := AfterUpdate(u, e, req, storeOk), WantedParent(req.parent);
            if !HasSlug(e.areas, req.slug) then r == Err(NoSuchArea)
            else if req.name.Some? && Trim(u, req.name.value) == "" then r == Err(BlankName)
            else if parent == Some(req.slug) && req.slug != "" then r == Err(OwnParent)
            else if parent.Some? && !HasSlug(e.areas, parent.value) then r == Err(NoSuchParent)
            else if parent.Some? && !IsTopLevel(e.areas, parent.value) then r == Err(TooDeep)
            else if !storeOk then r == Err(StoreFailed)
            else r.Ok?
  {
    ParentRefusedExactly(e.areas, req.parent, req.slug);
  }

  /** Approving approves that row and changes nothing else; the proposer is kept. */
  lemma ApproveApproves(e: Event, slug: string, storeOk: bool)
    ensures var r, i := AfterApprove(e, slug, storeOk), IndexOf(e.areas, slug);
            if !HasSlug(e.areas, slug) then r == Err(NoSuchArea)
            else if !storeOk then r == Err(StoreFailed)
            else
              && r.Ok? && r.value.incidents == e.incidents && |r.value.areas| == |e.areas| && 0 <= i < |e.areas|
              && (forall j :: 0 <= j < |e.areas| && j != i ==> r.value.areas[j] == e.areas[j])
              && r.value.areas[i].approved && r.value.areas[i].(approved := e.areas[i].approved) == e.areas[i]
  {
  }

  /** Which merges are refused, and in which order. */
  lemma MergeRefusedExactly(e: Event, dup: string, canon: string)
    ensures CheckDuplicate(e, dup, canon) ==
            if canon == "" then Some(CanonicalRequired)
            else if canon == dup then Some(SelfDuplicate)
            else if !HasSlug(e.areas, dup) then Some(NoSuchArea)
            else if !HasSlug(e.areas, canon) then Some(NoSuchCanonical)
            else if exists i :: 0 <= i < |e.areas| && e.areas[i].parent == Some(dup) then Some(HasSubAreas)
            else None
  {
  }

  /** Placing an incident stores the trimmed slug, or clears the place, and moves no other incident. */
  lemma PlaceStoresRequest(u: Unicode, e: Event, number: int, place: string)
    requires number in e.incidents
    ensures var r, slug := AfterPlace(u, e, number, place), Trim(u, place);
            if slug != "" && e.incidents[number] != Some(slug) && !HasSlug(e.areas, slug) then r == Err(UnknownArea)
            else
              && r.Ok? && r.value.areas == e.areas
              && r.value.incidents == e.incidents[number := if slug == "" then None else Some(slug)]
  {
  }
}

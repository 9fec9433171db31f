/**
 How the two views of an incident's location fit together: the area service works on one event's
 forest and its incidents' places (Area), the incident store holds the same places as a column
 (Incident). A store shows an event when both agree on the area slugs and on every place.
 */
module IncidentAreas {
  import opened Prelude
  import opened Incident
  import opened IncidentEdit
  import opened IncidentRuns
  import Area

  ghost predicate ShowsEvent(s: Store, event: int, e: Area.Event)
  {
    && (forall slug :: (event, slug) in s.areas <==> Area.HasSlug(e.areas, slug))
    && (forall n :: n in e.incidents <==> IncidentId(event, n) in s.rows)
    && (forall n :: n in e.incidents ==> e.incidents[n] == s.rows[IncidentId(event, n)].areaSlug)
  }

  /** A merge in the area service is the merge of the incident runs. */
  lemma MergeIsMerge(s: Store, event: int, e: Area.Event, dup: string, canon: string, trim: string -> string)
    requires ShowsEvent(s, event, e) && Area.Sound(e) && Area.CheckDuplicate(e, dup, canon).None?
    ensures Allowed(s, MergeArea(event, dup, canon))
    ensures ShowsEvent(Apply(s, MergeArea(event, dup, canon), trim), event, Area.Merged(e, dup, canon))
  {
    var e', s' := Area.Merged(e, dup, canon), Apply(s, MergeArea(event, dup, canon), trim);
    Area.MergeMovesExactly(e, dup, canon);
    assert Area.HasSlug(e.areas, dup) && Area.HasSlug(e.areas, canon);
    forall slug ensures (event, slug) in s'.areas <==> Area.HasSlug(e'.areas, slug) {
      Area.HasSlugIn(e.areas, slug);
      Area.HasSlugIn(e'.areas, slug);
    }
  }

  /** The location part of an accepted edit is the area service's placing; any other field leaves the place alone. */
  lemma EditPlaces(s: Store, event: int, e: Area.Event, u: Area.Unicode, n: int, p: Payload, c: Caller, now: int,
                   s': Store)
    requires ShowsEvent(s, event, e) && LinksOk(s)
    requires Update(s, IncidentId(event, n), p, c, now, text => Area.Trim(u, text)) == Ok(s')
    ensures if p.areaSlug.None? then ShowsEvent(s', event, e)
            else
              var placed := Area.AfterPlace(u, e, n, p.areaSlug.value);
              placed.Ok? && ShowsEvent(s', event, placed.value)
  {
    UpdateClosed(s, IncidentId(event, n), p, c, now, text => Area.Trim(u, text));
    if p.areaSlug.Some? {
      var slug := Area.Trim(u, p.areaSlug.value);
      assert slug != "" && e.incidents[n] != Some(slug) ==> (event, slug) in s.areas;
    }
  }
}

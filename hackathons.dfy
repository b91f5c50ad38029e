/**
 * The hackathon record and the list filter shared by the `useHackathons` hook,
 * the Dashboard page and the Index page: keep the records whose status equals
 * the status selector (unless it is "all"), whose date equals the date selector
 * (unless it is empty), and one of whose searchable text fields contains the
 * lower-cased search term (unless it is empty).
 */
module Hackathons {
  import opened Outcomes
  import opened Seqs
  import opened Strings

  /**
   * A dynamically typed scalar as JavaScript holds it. Ids fetched from the
   * back end are strings, while the Index page gives a locally created record
   * the number `length + 1`; strict equality never equates the two kinds.
   */
  datatype Value = Str(s: string) | Num(n: int)

  /** One hackathon listing, with the optional metadata the search can look at. */
  datatype Hackathon = Hackathon(
    id: Value,
    name: string,
    date: string,
    location: string,
    maxParticipants: Value,
    currentParticipants: int,
    description: string,
    status: Option<string>,
    collegeName: Option<string>,
    technologies: Option<seq<string>>)

  /** The three filter selectors: `selectedStatus`, `selectedDate`, `searchTerm`. */
  datatype Criteria = Criteria(status: string, date: string, term: string)

  /** The selectors' initial values, under which nothing is filtered out. */
  function NoCriteria(): Criteria {
    Criteria("all", "", "")
  }

  /**
   * Which fields the search term is looked for in: the Dashboard and Index pages
   * search name, description and location; the hook also searches the college
   * name and the technology tags.
   */
  datatype SearchFields = Basic | Extended

  /** Some technology tag, lower-cased, contains `t`. */
  predicate SomeTagIncludes(tags: seq<string>, t: string) {
    exists i | 0 <= i < |tags| :: Includes(Lower(tags[i]), t)
  }

  /** The search predicate, with `t` already lower-cased. */
  predicate Matches(h: Hackathon, t: string, fields: SearchFields) {
    Includes(Lower(h.name), t)
    || Includes(Lower(h.description), t)
    || Includes(Lower(h.location), t)
    || (fields == Extended
        && ((h.collegeName.Some? && h.collegeName.value != "" && Includes(Lower(h.collegeName.value), t))
            || (h.technologies.Some? && SomeTagIncludes(h.technologies.value, t))))
  }

  function HasStatus(status: string): Hackathon -> bool {
    (h: Hackathon) => h.status == Some(status)
  }

  function OnDate(date: string): Hackathon -> bool {
    (h: Hackathon) => h.date == date
  }

  function MatchesTerm(t: string, fields: SearchFields): Hackathon -> bool {
    (h: Hackathon) => Matches(h, t, fields)
  }

  /**
   * The filter effect: start from the whole collection and apply the status,
   * date and search filters in that order, each only when its selector is active.
   */
  function Filter(coll: seq<Hackathon>, crit: Criteria, fields: SearchFields): (r: seq<Hackathon>)
    ensures |r| <= |coll|
    ensures forall h :: h in r ==> h in coll && Passes(h, crit, fields)
  {
    var byStatus := if crit.status != "all" then Keep(coll, HasStatus(crit.status)) else coll;
    var byDate := if crit.date != "" then Keep(byStatus, OnDate(crit.date)) else byStatus;
    if crit.term != "" then Keep(byDate, MatchesTerm(Lower(crit.term), fields)) else byDate
  }

  /** Reference definition: a record is visible when it passes every active selector. */
  predicate Passes(h: Hackathon, crit: Criteria, fields: SearchFields) {
    (crit.status == "all" || h.status == Some(crit.status))
    && (crit.date == "" || h.date == crit.date)
    && (crit.term == "" || Matches(h, Lower(crit.term), fields))
  }

  function PassesAll(crit: Criteria, fields: SearchFields): Hackathon -> bool {
    (h: Hackathon) => Passes(h, crit, fields)
  }

  /** The staged filter is a single filter by the reference predicate. */
  lemma FilterIsKeepPasses(coll: seq<Hackathon>, crit: Criteria, fields: SearchFields)
    ensures Filter(coll, crit, fields) == Keep(coll, PassesAll(crit, fields))
  {
    var st := if crit.status != "all" then HasStatus(crit.status) else (h: Hackathon) => true;
    var dt := if crit.date != "" then OnDate(crit.date) else (h: Hackathon) => true;
    var tm := if crit.term != "" then MatchesTerm(Lower(crit.term), fields) else (h: Hackathon) => true;
    var stDt := (h: Hackathon) => st(h) && dt(h);
    var byStatus := Keep(coll, st);
    var byDate := Keep(byStatus, dt);
    if crit.status == "all" { KeepAllKept(coll, st); }
    if crit.date == "" { KeepAllKept(byStatus, dt); }
    if crit.term == "" { KeepAllKept(byDate, tm); }
    assert Filter(coll, crit, fields) == Keep(byDate, tm);
    KeepThenKeep(coll, st, dt, stDt);
    KeepThenKeep(coll, stDt, tm, PassesAll(crit, fields));
  }

  /** No record is invented and the relative order of the collection is kept. */
  lemma FilterSubseq(coll: seq<Hackathon>, crit: Criteria, fields: SearchFields)
    ensures IsSubseq(Filter(coll, crit, fields), coll)
  {
    FilterIsKeepPasses(coll, crit, fields);
    KeepSubseq(coll, PassesAll(crit, fields));
  }

  /** A record is visible exactly when it is in the collection and passes every active selector. */
  lemma FilterMembership(coll: seq<Hackathon>, crit: Criteria, fields: SearchFields, h: Hackathon)
    ensures h in Filter(coll, crit, fields) <==> h in coll && Passes(h, crit, fields)
  {
    FilterIsKeepPasses(coll, crit, fields);
  }

  /**
   * Soundness, criterion by criterion: a visible record has the selected status,
   * the selected date as an exact string, and the lower-cased term inside one of
   * its searched fields, lower-cased.
   */
  lemma FilterSound(coll: seq<Hackathon>, crit: Criteria, fields: SearchFields, h: Hackathon)
    requires h in Filter(coll, crit, fields)
    ensures h in coll
    ensures crit.status != "all" ==> h.status == Some(crit.status)
    ensures crit.date != "" ==> h.date == crit.date
    ensures crit.term != "" && fields == Basic ==>
      Includes(Lower(h.name), Lower(crit.term))
      || Includes(Lower(h.description), Lower(crit.term))
      || Includes(Lower(h.location), Lower(crit.term))
    ensures crit.term != "" && fields == Extended ==> Matches(h, Lower(crit.term), Extended)
  {
    FilterMembership(coll, crit, fields, h);
  }

  /** Completeness: every record of the collection that passes every active selector is visible. */
  lemma FilterComplete(coll: seq<Hackathon>, crit: Criteria, fields: SearchFields, h: Hackathon)
    requires h in coll && Passes(h, crit, fields)
    ensures h in Filter(coll, crit, fields)
  {
    FilterMembership(coll, crit, fields, h);
  }

  /** With status "all", no date and no search term, the whole collection is visible. */
  lemma FilterNoCriteria(coll: seq<Hackathon>, fields: SearchFields)
    ensures Filter(coll, NoCriteria(), fields) == coll
  {
  }

  /** Filtering the visible list again with the same selectors changes nothing. */
  lemma FilterIdempotent(coll: seq<Hackathon>, crit: Criteria, fields: SearchFields)
    ensures Filter(Filter(coll, crit, fields), crit, fields) == Filter(coll, crit, fields)
  {
    FilterIsKeepPasses(coll, crit, fields);
    FilterIsKeepPasses(Filter(coll, crit, fields), crit, fields);
    KeepIdempotent(coll, PassesAll(crit, fields));
  }

  /** Filtering a collection with one more record at the end shows that record at the end, if it passes. */
  lemma FilterAppend(coll: seq<Hackathon>, h: Hackathon, crit: Criteria, fields: SearchFields)
    ensures Filter(coll + [h], crit, fields)
         == Filter(coll, crit, fields) + (if Passes(h, crit, fields) then [h] else [])
  {
    FilterIsKeepPasses(coll + [h], crit, fields);
    FilterIsKeepPasses(coll, crit, fields);
    KeepAppend(coll, [h], PassesAll(crit, fields));
    assert Keep([h], PassesAll(crit, fields)) == if Passes(h, crit, fields) then [h] else [];
  }

  /** Whatever the basic search shows, the extended search shows too, in the same order. */
  lemma BasicWithinExtended(coll: seq<Hackathon>, crit: Criteria)
    ensures IsSubseq(Filter(coll, crit, Basic), Filter(coll, crit, Extended))
  {
    FilterIsKeepPasses(coll, crit, Basic);
    FilterIsKeepPasses(coll, crit, Extended);
    KeepMonotone(coll, PassesAll(crit, Basic), PassesAll(crit, Extended));
  }

  function NotId(id: Value): Hackathon -> bool {
    (h: Hackathon) => h.id != id
  }

  /** `list.filter(h => h.id !== id)`. */
  function RemoveId(coll: seq<Hackathon>, id: Value): (r: seq<Hackathon>)
    ensures forall h :: h in r <==> h in coll && h.id != id
  {
    Keep(coll, NotId(id))
  }

  /**
   * Removal by id drops exactly the records with that id (all of them, since ids
   * are not guaranteed unique) and keeps every other record, in order.
   */
  lemma RemoveIdSpec(coll: seq<Hackathon>, id: Value, h: Hackathon)
    ensures IsSubseq(RemoveId(coll, id), coll)
    ensures multiset(RemoveId(coll, id))[h] == if h.id != id then multiset(coll)[h] else 0
  {
    KeepSubseq(coll, NotId(id));
    KeepMultiset(coll, NotId(id), h);
  }

  /** Removing by id from the collection and then filtering gives the old visible list minus that id. */
  lemma FilterRemoveId(coll: seq<Hackathon>, crit: Criteria, fields: SearchFields, id: Value)
    ensures Filter(RemoveId(coll, id), crit, fields) == RemoveId(Filter(coll, crit, fields), id)
  {
    FilterIsKeepPasses(RemoveId(coll, id), crit, fields);
    FilterIsKeepPasses(coll, crit, fields);
    KeepCommutes(coll, NotId(id), PassesAll(crit, fields));
  }
}

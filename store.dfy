/**
 * The list state of the `useHackathons` hook, the Dashboard page and the Index
 * page: the authoritative collection (`hackathons`), the visible subset
 * (`filteredHackathons`), the loading flag, the filter selectors and the page's
 * create form. Each gateway call's outcome is a parameter; the filter effect
 * that React re-runs when the collection or a selector changes is an explicit
 * recomputation at the end of each operation.
 */
module ListState {
  import opened Outcomes
  import opened Seqs
  import opened Hackathons

  /** The five-field create form of the Dashboard and Index pages (`newHackathon`). */
  datatype BasicForm = BasicForm(name: string, date: string, location: string, maxParticipants: string, description: string)

  function EmptyBasicForm(): BasicForm {
    BasicForm("", "", "", "", "")
  }

  /** The row the Dashboard page sends to the `hackathons` table. */
  datatype InsertRow = InsertRow(name: string, date: string, location: string, maxParticipants: string, description: string, createdBy: string)

  /** The record the Index page appends locally to a collection of `count` records. */
  function LocalRecord(form: BasicForm, count: nat): Hackathon {
    Hackathon(Num(count + 1), form.name, form.date, form.location, Str(form.maxParticipants), 0,
              form.description, Some("upcoming"), None, None)
  }

  /** The two records the Index page seeds its collection with. */
  function SeedRecords(): seq<Hackathon> {
    [ Hackathon(Str("1"), "AI Innovation Challenge", "2025-02-15", "Online", Num(200), 150,
                "Join us for an exciting hackathon focused on artificial intelligence and machine learning innovations.",
                Some("upcoming"), None, None),
      Hackathon(Str("2"), "Blockchain Summit 2025", "2025-01-30", "Mumbai", Num(100), 90,
                "Build the future of Web3 with innovative blockchain solutions.",
                Some("ongoing"), None, None) ]
  }

  class HackathonList {
    var hackathons: seq<Hackathon>
    var filteredHackathons: seq<Hackathon>
    var loading: bool
    var criteria: Criteria
    var draft: BasicForm
    const fields: SearchFields

    /** The visible list is the filter of the collection under the current selectors. */
    ghost predicate Valid()
      reads this
    {
      filteredHackathons == Filter(hackathons, criteria, fields)
    }

    /** Initial state: both lists empty, loading, no selector active, empty form. */
    constructor (fields: SearchFields)
      ensures Valid()
      ensures hackathons == [] && filteredHackathons == [] && loading
      ensures criteria == NoCriteria() && draft == EmptyBasicForm() && this.fields == fields
    {
      hackathons := [];
      filteredHackathons := [];
      loading := true;
      criteria := NoCriteria();
      draft := EmptyBasicForm();
      this.fields := fields;
    }

    /** The filter effect. */
    method Refilter()
      modifies this`filteredHackathons
      ensures Valid()
    {
      filteredHackathons := Filter(hackathons, criteria, fields);
    }

    /** `setSelectedStatus`, `setSelectedDate`, `setSearchTerm`, each followed by the filter effect. */
    method SetCriteria(crit: Criteria)
      modifies this`criteria, this`filteredHackathons
      ensures Valid() && criteria == crit
      ensures filteredHackathons == Filter(hackathons, crit, fields)
    {
      criteria := crit;
      Refilter();
    }

    /** `draft` edits from the form inputs. */
    method EditDraft(form: BasicForm)
      modifies this`draft
      ensures draft == form
    {
      draft := form;
    }

    /**
     * `fetchHackathons` of the hook: a successful query replaces both lists with
     * the returned records; a failed one leaves them as they were; loading ends
     * either way.
     */
    method FetchAll(result: Outcome<seq<Hackathon>>)
      requires Valid()
      modifies this`hackathons, this`filteredHackathons, this`loading
      ensures Valid() && !loading
      ensures result.Ok? ==> hackathons == result.value && filteredHackathons == Filter(result.value, criteria, fields)
      ensures result.Fail? ==> hackathons == old(hackathons) && filteredHackathons == old(filteredHackathons)
    {
      if result.Ok? {
        hackathons := result.value;
        filteredHackathons := result.value;
        Refilter();
      }
      loading := false;
    }

    /**
     * `fetchHackathons` of the Dashboard page: on success both lists become the
     * returned rows, `null` counting as no rows; on error both stay; loading ends
     * either way.
     */
    method FetchRows(result: Outcome<Option<seq<Hackathon>>>)
      requires Valid()
      modifies this`hackathons, this`filteredHackathons, this`loading
      ensures Valid() && !loading
      ensures result.Ok? ==> hackathons == result.value.GetOr([])
      ensures result.Fail? ==> hackathons == old(hackathons) && filteredHackathons == old(filteredHackathons)
    {
      if result.Ok? {
        var rows := result.value.GetOr([]);
        hackathons := rows;
        filteredHackathons := rows;
        Refilter();
      }
      loading := false;
    }

    /**
     * `handleDeleteHackathon` of the hook: `findByIdAndDelete` returning a
     * document removes that id from both lists; returning nothing ("not found")
     * or failing leaves both lists unchanged.
     */
    method DeleteFound(id: Value, result: Outcome<Option<Hackathon>>)
      requires Valid()
      modifies this`hackathons, this`filteredHackathons
      ensures Valid()
      ensures result.Ok? && result.value.Some? ==>
        hackathons == RemoveId(old(hackathons), id) && filteredHackathons == RemoveId(old(filteredHackathons), id)
      ensures !(result.Ok? && result.value.Some?) ==>
        hackathons == old(hackathons) && filteredHackathons == old(filteredHackathons)
    {
      if result.Ok? && result.value.Some? {
        FilterRemoveId(hackathons, criteria, fields, id);
        hackathons := RemoveId(hackathons, id);
        filteredHackathons := RemoveId(filteredHackathons, id);
        Refilter();
      }
    }

    /**
     * `handleDeleteHackathon` of the Dashboard page: a successful delete removes
     * every record with that id from the collection and the visible list follows;
     * an error leaves both unchanged.
     */
    method DeleteRow(id: Value, result: Outcome<()>)
      requires Valid()
      modifies this`hackathons, this`filteredHackathons
      ensures Valid()
      ensures result.Ok? ==>
        hackathons == RemoveId(old(hackathons), id) && filteredHackathons == RemoveId(old(filteredHackathons), id)
      ensures result.Fail? ==> hackathons == old(hackathons) && filteredHackathons == old(filteredHackathons)
    {
      if result.Ok? {
        FilterRemoveId(hackathons, criteria, fields, id);
        hackathons := RemoveId(hackathons, id);
        Refilter();
      }
    }

    /** `handleDeleteHackathon` of the Index page: a purely local removal by id. */
    method DeleteLocal(id: Value)
      requires Valid()
      modifies this`hackathons, this`filteredHackathons
      ensures Valid()
      ensures hackathons == RemoveId(old(hackathons), id)
      ensures filteredHackathons == RemoveId(old(filteredHackathons), id)
    {
      FilterRemoveId(hackathons, criteria, fields, id);
      hackathons := RemoveId(hackathons, id);
      Refilter();
    }

    /** The Index page's seeding timer: the two sample records, and loading ends. */
    method Seed()
      modifies this`hackathons, this`filteredHackathons, this`loading
      ensures Valid() && !loading
      ensures hackathons == SeedRecords()
    {
      hackathons := SeedRecords();
      loading := false;
      Refilter();
    }

    /**
     * `handleFormSubmit` of the Index page: append one record built from the form,
     * with id `length + 1`, no participants and status "upcoming"; earlier records
     * stay as they were and the record shows at the end of the visible list if it
     * passes the selectors. The form is not reset.
     */
    method AppendLocal()
      requires Valid()
      modifies this`hackathons, this`filteredHackathons
      ensures Valid() && draft == old(draft)
      ensures |hackathons| == |old(hackathons)| + 1
      ensures hackathons[..|old(hackathons)|] == old(hackathons)
      ensures var r := hackathons[|old(hackathons)|];
        r.id == Num(|old(hackathons)| + 1) && r.currentParticipants == 0 && r.status == Some("upcoming")
        && r.name == draft.name && r.date == draft.date && r.location == draft.location
        && r.maxParticipants == Str(draft.maxParticipants) && r.description == draft.description
      ensures var r := hackathons[|old(hackathons)|];
        filteredHackathons == old(filteredHackathons) + (if Passes(r, criteria, fields) then [r] else [])
    {
      var r := LocalRecord(draft, |hackathons|);
      FilterAppend(hackathons, r, criteria, fields);
      hackathons := hackathons + [r];
      Refilter();
    }

    /**
     * `handleFormSubmit` of the Dashboard page. Without a signed-in user nothing
     * is sent. Otherwise one row is inserted; if that fails nothing changes;
     * if it succeeds the collection is replaced by the refetched rows (`null`,
     * which is also what a failed refetch gives, counting as none) and the form
     * is reset.
     */
    method InsertThenRefetch(user: Option<string>, insert: Outcome<()>, refetched: Option<seq<Hackathon>>)
      returns (sent: Option<InsertRow>)
      requires Valid()
      modifies this`hackathons, this`filteredHackathons, this`draft
      ensures Valid()
      ensures sent.Some? <==> user.Some?
      ensures user.Some? ==> sent.value == InsertRow(old(draft).name, old(draft).date, old(draft).location,
                                                      old(draft).maxParticipants, old(draft).description, user.value)
      ensures user.Some? && insert.Ok? ==> hackathons == refetched.GetOr([]) && draft == EmptyBasicForm()
      ensures !(user.Some? && insert.Ok?) ==>
        hackathons == old(hackathons) && filteredHackathons == old(filteredHackathons) && draft == old(draft)
    {
      if user.None? {
        return None;
      }
      sent := Some(InsertRow(draft.name, draft.date, draft.location, draft.maxParticipants, draft.description, user.value));
      if insert.Fail? {
        return;
      }
      hackathons := refetched.GetOr([]);
      Refilter();
      draft := EmptyBasicForm();
    }
  }
}

/** What the Index page's seeded collection shows under particular selectors, and its local ids. */
module IndexScenarios {
  import opened Outcomes
  import opened Seqs
  import opened Strings
  import opened Hackathons
  import opened ListState

  /** Status "ongoing" leaves only the record with id "2". */
  lemma SeedOngoing()
    ensures Filter(SeedRecords(), Criteria("ongoing", "", ""), Basic) == [SeedRecords()[1]]
    ensures SeedRecords()[1].id == Str("2")
  {
    var s := SeedRecords();
    assert Keep(s, HasStatus("ongoing")) == Keep(s[1..], HasStatus("ongoing"));
    assert s[1..][1..] == [];
  }

  /**
   * Search "chain" keeps the record with id "2", whose name "Blockchain Summit
   * 2025" contains it in the middle of a word; the record with id "1" is shown
   * only if one of its own fields contains "chain".
   */
  lemma SeedChain()
    ensures Filter(SeedRecords(), Criteria("all", "", "chain"), Basic)
         == (if Matches(SeedRecords()[0], "chain", Basic) then [SeedRecords()[0]] else []) + [SeedRecords()[1]]
    ensures SeedRecords()[1].id == Str("2")
  {
    var s := SeedRecords();
    assert Lower("chain") == "chain";
    SummitMatchesChain();
    KeepPair(s, MatchesTerm("chain", Basic));
  }

  /** "Blockchain Summit 2025", lower-cased, holds "chain" at index 5. */
  lemma SummitMatchesChain()
    ensures Matches(SeedRecords()[1], "chain", Basic)
  {
    var name := Lower(SeedRecords()[1].name);
    assert name[5..10] == "chain";
    assert OccursAt(name, "chain", 5);
  }

  /**
   * Ids of locally created records are not unique: create one record, delete the
   * seeded record "1", create another, and both created records have id 3.
   */
  lemma LocalIdsCanRepeat(form: BasicForm)
    ensures var first := SeedRecords() + [LocalRecord(form, 2)];
      var afterDelete := RemoveId(first, Str("1"));
      var second := afterDelete + [LocalRecord(form, |afterDelete|)];
      |second| == 3 && second[1].id == Num(3) && second[2].id == Num(3)
  {
    var first := SeedRecords() + [LocalRecord(form, 2)];
    var p := NotId(Str("1"));
    assert Keep(first, p) == Keep(first[1..], p);
    KeepPair(first[1..], p);
  }
}

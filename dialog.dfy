/**
 * The create form of `AddHackathonDialog`: its validation, the parsing of the
 * comma-separated technologies field, and the submit handler that inserts the
 * row and resets the form.
 */
module AddHackathon {
  import opened Outcomes
  import opened Seqs
  import opened Strings

  /** The form state `newHackathon`: every input is held as text. */
  datatype NewHackathon = NewHackathon(
    name: string,
    date: string,
    location: string,
    maxParticipants: string,
    description: string,
    collegeName: string,
    coordinatorName: string,
    coordinatorEmail: string,
    coordinatorPhone: string,
    skillLevel: string,
    teamSizeMin: string,
    teamSizeMax: string,
    registrationDeadline: string,
    prizePool: string,
    technologies: string)

  /** The form's initial and reset state. */
  function DefaultForm(): NewHackathon {
    NewHackathon("", "", "", "", "", "", "", "", "", "All Levels", "1", "4", "", "", "")
  }

  /** The keys of `NewHackathon` that `validateForm` looks at. */
  datatype Field =
    | Name | Date | Location | MaxParticipants | Description
    | CollegeName | CoordinatorName | CoordinatorEmail | CoordinatorPhone
    | RegistrationDeadline

  /** `requiredFields`, in its order. */
  const RequiredFields: seq<Field> := [
    Name, Date, Location, MaxParticipants, Description,
    CollegeName, CoordinatorName, CoordinatorEmail, CoordinatorPhone,
    RegistrationDeadline]

  /** `newHackathon[field]`. */
  function FieldValue(f: NewHackathon, key: Field): string {
    match key
    case Name => f.name
    case Date => f.date
    case Location => f.location
    case MaxParticipants => f.maxParticipants
    case Description => f.description
    case CollegeName => f.collegeName
    case CoordinatorName => f.coordinatorName
    case CoordinatorEmail => f.coordinatorEmail
    case CoordinatorPhone => f.coordinatorPhone
    case RegistrationDeadline => f.registrationDeadline
  }

  /** Every key is a required one. */
  lemma RequiredCovers(key: Field)
    ensures key in RequiredFields
  {
    match key
    case Name => assert RequiredFields[0] == key;
    case Date => assert RequiredFields[1] == key;
    case Location => assert RequiredFields[2] == key;
    case MaxParticipants => assert RequiredFields[3] == key;
    case Description => assert RequiredFields[4] == key;
    case CollegeName => assert RequiredFields[5] == key;
    case CoordinatorName => assert RequiredFields[6] == key;
    case CoordinatorEmail => assert RequiredFields[7] == key;
    case CoordinatorPhone => assert RequiredFields[8] == key;
    case RegistrationDeadline => assert RequiredFields[9] == key;
  }

  function IsBlankIn(f: NewHackathon): Field -> bool {
    key => FieldValue(f, key) == ""
  }

  /** All ten required fields are filled in. */
  predicate RequiredPresent(f: NewHackathon) {
    f.name != "" && f.date != "" && f.location != "" && f.maxParticipants != ""
    && f.description != "" && f.collegeName != "" && f.coordinatorName != ""
    && f.coordinatorEmail != "" && f.coordinatorPhone != "" && f.registrationDeadline != ""
  }

  /** `missingFields`: the required keys whose value is empty, in the listed order. */
  function Missing(f: NewHackathon): seq<Field> {
    Keep(RequiredFields, IsBlankIn(f))
  }

  lemma MissingSpec(f: NewHackathon)
    ensures IsSubseq(Missing(f), RequiredFields)
    ensures forall key :: key in Missing(f) <==> FieldValue(f, key) == ""
    ensures Missing(f) == [] <==> RequiredPresent(f)
  {
    KeepSubseq(RequiredFields, IsBlankIn(f));
    MissingMembers(f);
    PresentIff(f);
    if Missing(f) != [] {
      assert Missing(f)[0] in Missing(f);
    }
  }

  lemma MissingMembers(f: NewHackathon)
    ensures forall key :: key in Missing(f) <==> FieldValue(f, key) == ""
  {
    forall key ensures key in RequiredFields { RequiredCovers(key); }
  }

  /** `RequiredPresent` says that no key's value is empty. */
  lemma PresentIff(f: NewHackathon)
    ensures RequiredPresent(f) <==> forall key :: FieldValue(f, key) != ""
  {
    if RequiredPresent(f) {
      forall key ensures FieldValue(f, key) != "" {
        match key
        case Name =>
        case Date =>
        case Location =>
        case MaxParticipants =>
        case Description =>
        case CollegeName =>
        case CoordinatorName =>
        case CoordinatorEmail =>
        case CoordinatorPhone =>
        case RegistrationDeadline =>
      }
    } else {
      var key :=
        if f.name == "" then Name
        else if f.date == "" then Date
        else if f.location == "" then Location
        else if f.maxParticipants == "" then MaxParticipants
        else if f.description == "" then Description
        else if f.collegeName == "" then CollegeName
        else if f.coordinatorName == "" then CoordinatorName
        else if f.coordinatorEmail == "" then CoordinatorEmail
        else if f.coordinatorPhone == "" then CoordinatorPhone
        else RegistrationDeadline;
      assert FieldValue(f, key) == "";
    }
  }

  /** Which of `validateForm`'s three exits is taken, with the missing keys it reports. */
  datatype Verdict = MissingFields(keys: seq<Field>) | InvalidEmail | Accepted

  /**
   * `validateForm`: report the empty required fields, in the listed order, if
   * there are any; otherwise reject a coordinator email without "@"; otherwise
   * accept.
   */
  function Validate(f: NewHackathon): (v: Verdict)
    ensures v.MissingFields? <==> !RequiredPresent(f)
    ensures v.MissingFields? ==>
      && v.keys != []
      && IsSubseq(v.keys, RequiredFields)
      && forall key :: key in v.keys <==> FieldValue(f, key) == ""
    ensures v.InvalidEmail? <==> RequiredPresent(f) && '@' !in f.coordinatorEmail
    ensures v.Accepted? <==> RequiredPresent(f) && '@' in f.coordinatorEmail
  {
    MissingSpec(f);
    IncludesChar(f.coordinatorEmail, '@');
    var missing := Missing(f);
    if |missing| > 0 then MissingFields(missing)
    else if !Includes(f.coordinatorEmail, "@") then InvalidEmail
    else Accepted
  }

  /** `validateForm()`'s boolean result. */
  function ValidateForm(f: NewHackathon): (ok: bool)
    ensures ok <==> RequiredPresent(f) && '@' in f.coordinatorEmail
  {
    Validate(f).Accepted?
  }

  /** Skill level, team sizes, prize pool and technologies never affect validation. */
  lemma OptionalFieldsIgnored(f: NewHackathon, skillLevel: string, teamSizeMin: string, teamSizeMax: string,
                              prizePool: string, technologies: string)
    ensures Validate(f.(skillLevel := skillLevel, teamSizeMin := teamSizeMin, teamSizeMax := teamSizeMax,
                        prizePool := prizePool, technologies := technologies)) == Validate(f)
  {
    var g := f.(skillLevel := skillLevel, teamSizeMin := teamSizeMin, teamSizeMax := teamSizeMax,
                prizePool := prizePool, technologies := technologies);
    forall key ensures IsBlankIn(g)(key) == IsBlankIn(f)(key) {
      match key
      case Name =>
      case Date =>
      case Location =>
      case MaxParticipants =>
      case Description =>
      case CollegeName =>
      case CoordinatorName =>
      case CoordinatorEmail =>
      case CoordinatorPhone =>
      case RegistrationDeadline =>
    }
    KeepSamePredicate(RequiredFields, IsBlankIn(g), IsBlankIn(f));
    assert Missing(g) == Missing(f);
  }

  /** The freshly reset form is rejected, reporting every required field as missing. */
  lemma DefaultFormRejected()
    ensures Validate(DefaultForm()) == MissingFields(RequiredFields)
  {
    var f := DefaultForm();
    forall key ensures IsBlankIn(f)(key) {
      match key
      case Name =>
      case Date =>
      case Location =>
      case MaxParticipants =>
      case Description =>
      case CollegeName =>
      case CoordinatorName =>
      case CoordinatorEmail =>
      case CoordinatorPhone =>
      case RegistrationDeadline =>
    }
    KeepAllKept(RequiredFields, IsBlankIn(f));
    assert Missing(f) == RequiredFields;
  }

  function Nonempty(): string -> bool {
    s => s != ""
  }

  /** A well-formed tag: non-empty, no white space at either end, no comma. */
  predicate IsTag(tag: string) {
    tag != "" && !IsSpace(tag[0]) && !IsSpace(tag[|tag| - 1]) && ',' !in tag
  }

  /** Trimming a comma-free piece gives the empty string or a tag. */
  lemma TrimmedPiece(piece: string)
    requires ',' !in piece
    ensures Trim(piece) == "" || IsTag(Trim(piece))
  {
    TrimSpec(piece);
    TrimMembers(piece);
  }

  /** Every trimmed piece of the text is either empty or a tag. */
  lemma TrimmedPieces(text: string)
    ensures forall tag :: tag in Map(Split(text, ','), Trim) ==> tag == "" || IsTag(tag)
  {
    var pieces := Split(text, ',');
    var trimmed := Map(pieces, Trim);
    SplitPieces(text, ',');
    forall tag | tag in trimmed ensures tag == "" || IsTag(tag) {
      var i :| 0 <= i < |trimmed| && trimmed[i] == tag;
      assert pieces[i] in pieces;
      TrimmedPiece(pieces[i]);
    }
  }

  /** `technologies.split(",").map(t => t.trim()).filter(t => t)`. */
  function ParseTechnologies(text: string): (tags: seq<string>)
    ensures forall tag :: tag in tags ==> IsTag(tag)
    ensures |tags| <= multiset(text)[','] + 1
    ensures text == "" ==> tags == []
  {
    TrimmedPieces(text);
    SplitPieces(text, ',');
    Keep(Map(Split(text, ','), Trim), Nonempty())
  }

  /** The tags are the non-empty trimmed pieces, in the left-to-right order of the pieces. */
  lemma ParseKeepsOrder(text: string, tag: string)
    ensures IsSubseq(ParseTechnologies(text), Map(Split(text, ','), Trim))
    ensures multiset(ParseTechnologies(text))[tag]
         == if tag != "" then multiset(Map(Split(text, ','), Trim))[tag] else 0
  {
    KeepSubseq(Map(Split(text, ','), Trim), Nonempty());
    KeepMultiset(Map(Split(text, ','), Trim), Nonempty(), tag);
  }

  /** Trimming leaves every tag as it is. */
  lemma TrimTags(tags: seq<string>)
    requires forall tag :: tag in tags ==> IsTag(tag)
    ensures Map(tags, Trim) == tags
  {
    forall i | 0 <= i < |tags| ensures Trim(tags[i]) == tags[i] {
      assert tags[i] in tags;
      TrimNoOp(tags[i]);
    }
  }

  /** Parsing tags joined with commas gives those tags. */
  lemma ParseJoined(tags: seq<string>)
    requires forall tag :: tag in tags ==> IsTag(tag)
    ensures ParseTechnologies(Join(tags, ',')) == tags
  {
    if tags == [] {
      assert Join(tags, ',') == "";
    } else {
      SplitJoin(tags, ',');
      TrimTags(tags);
      KeepAllKept(tags, Nonempty());
    }
  }

  /** Parsing the tags joined back with commas gives the same tags. */
  lemma ParseJoinParse(text: string)
    ensures ParseTechnologies(Join(ParseTechnologies(text), ',')) == ParseTechnologies(text)
  {
    ParseJoined(ParseTechnologies(text));
  }

  /** The row sent to the `hackathons` table; numeric fields stay as text. */
  datatype InsertPayload = InsertPayload(
    name: string,
    date: string,
    location: string,
    maxParticipants: string,
    description: string,
    createdBy: string,
    collegeName: string,
    coordinatorName: string,
    coordinatorEmail: string,
    coordinatorPhone: string,
    skillLevel: string,
    teamSizeMin: string,
    teamSizeMax: string,
    registrationDeadline: string,
    prizePool: string,
    technologies: seq<string>)

  function Payload(f: NewHackathon, user: string): (p: InsertPayload)
    ensures p.createdBy == user
    ensures forall tag :: tag in p.technologies ==> IsTag(tag)
  {
    InsertPayload(f.name, f.date, f.location, f.maxParticipants, f.description, user,
                  f.collegeName, f.coordinatorName, f.coordinatorEmail, f.coordinatorPhone,
                  f.skillLevel, f.teamSizeMin, f.teamSizeMax, f.registrationDeadline, f.prizePool,
                  ParseTechnologies(f.technologies))
  }

  class AddHackathonDialog {
    var newHackathon: NewHackathon

    constructor ()
      ensures newHackathon == DefaultForm()
    {
      newHackathon := DefaultForm();
    }

    /** An input's `onChange`. */
    method Edit(f: NewHackathon)
      modifies this
      ensures newHackathon == f
    {
      newHackathon := f;
    }

    /**
     * `handleFormSubmit`: an invalid form sends nothing and changes nothing; with
     * no signed-in user nothing is sent either; otherwise the row is sent, and
     * only when the insert succeeds is the parent told (`onHackathonAdded`) and
     * the form reset to its defaults.
     */
    method HandleFormSubmit(user: Option<string>, insert: Outcome<()>) returns (sent: Option<InsertPayload>, added: bool)
      modifies this
      ensures sent.Some? <==> ValidateForm(old(newHackathon)) && user.Some?
      ensures sent.Some? ==> sent.value == Payload(old(newHackathon), user.value)
      ensures added <==> sent.Some? && insert.Ok?
      ensures newHackathon == if added then DefaultForm() else old(newHackathon)
    {
      sent, added := None, false;
      if !ValidateForm(newHackathon) {
        return;
      }
      if user.None? {
        return;
      }
      sent := Some(Payload(newHackathon, user.value));
      if insert.Fail? {
        return;
      }
      added := true;
      newHackathon := DefaultForm();
    }
  }
}

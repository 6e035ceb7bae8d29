/** The two Django models of the event tracker, their managers' write paths and
    the database that holds them (backend/events/models.py).

    Instants are integers (say, microseconds since the epoch); `timezone.now()`
    is always a parameter `now`. A stored password is held as the raw string it
    was set from: hashing is not modelled, so checking a password is equality. */
module Models {
  import opened Wrappers
  import opened Text
  import opened Uuids

  type Time = int
  type UserId = nat
  type EventId = nat

  const TITLE_MAX_LENGTH: nat := 200
  const TITLE_MIN_LENGTH: nat := 3
  const LOCATION_MIN_LENGTH: nat := 5

  /** What `set_password` leaves on the user: an unusable password (for None) or one that checks. */
  datatype Credential = Unusable | UsablePassword(raw: string)

  datatype User = User(
    id: UserId,
    email: string,
    firstName: string,
    lastName: string,
    credential: Credential,
    isStaff: bool,
    isSuperuser: bool,
    isActive: bool)

  datatype Event = Event(
    id: EventId,
    title: string,
    dateTime: Time,
    location: string,
    description: Option<string>,
    shareId: Option<Uuid>,
    owner: UserId,
    createdAt: Time,
    updatedAt: Time)

  /** The event fields that validation speaks about. */
  datatype EventField = Title | DateTime | Location | Description | ShareId

  /** One validation failure, as the message a field gets. */
  datatype FieldError =
    | Required        // "This field is required."
    | Blank           // "This field may not be blank." / "cannot be blank"
    | TooLong(limit: nat)
    | TooShort(limit: nat)
    | NullCharacter   // "Null characters are not allowed."
    | EmptyAfterTrim  // "... cannot be empty (after trimming whitespace)."
    | InPast          // "Event date and time cannot be in the past."
    | NotUnique       // a unique field or constraint is violated
    | EmailInUse      // "A user with this email address already exists."
    | Mismatch        // "Password confirmation does not match."
    | PasswordRejected

  datatype ModelError = ModelError(field: EventField, error: FieldError)

  // ---------------------------------------------------------------- users

  /** The `**extra_fields` create_user and create_superuser accept; None is "not passed". */
  datatype ExtraFields = ExtraFields(isStaff: Option<bool>, isSuperuser: Option<bool>, isActive: Option<bool>)

  datatype CreateUserError =
    | EmailIsRequired
    | FirstNameIsRequired
    | LastNameIsRequired
    | SuperuserMustBeStaff
    | SuperuserMustBeSuperuser
    | DuplicateEmail  // the IntegrityError of the unique_lower_email constraint

  /** The email `User.save` stores: lower-cased and trimmed when non-empty. */
  function NormalizeEmail(email: string): (r: string)
    ensures |r| <= |email|
    ensures r == "" <==> AllSpace(email)
  {
    StripEmptyIff(Lower(email));
    LowerKeepsAllSpace(email);
    if email != "" then Strip(Lower(email)) else email
  }

  /** Lowering never turns an all-whitespace string into another kind. */
  lemma LowerKeepsAllSpace(s: string)
    ensures AllSpace(Lower(s)) <==> AllSpace(s)
  {
    forall i | 0 <= i < |s|
      ensures IsSpace(Lower(s)[i]) <==> IsSpace(s[i])
    {
      LowerCharKeepsSpace(s[i]);
    }
  }

  /** A name `User.save` stores: trimmed when non-empty. */
  function NormalizeName(name: string): (r: string)
    ensures |r| <= |name| && Unpadded(r)
    ensures r == "" <==> AllSpace(name)
  {
    StripEmptyIff(name);
    if name != "" then Strip(name) else name
  }

  /** The normal form of an email is trimmed and lower-case. */
  lemma NormalizedEmailShape(email: string)
    ensures Unpadded(NormalizeEmail(email))
    ensures Lower(NormalizeEmail(email)) == NormalizeEmail(email)
  {
    StripShape(Lower(email));
    StripLowerCommute(Lower(email));
    LowerIdempotent(email);
    StripLowerCommute(email);
    LowerIdempotent(Strip(email));
  }

  /** Saving a user twice stores what saving once stores. */
  lemma SaveNormalisationIdempotent(email: string, name: string)
    ensures NormalizeEmail(NormalizeEmail(email)) == NormalizeEmail(email)
    ensures NormalizeName(NormalizeName(name)) == NormalizeName(name)
  {
    var e := NormalizeEmail(email);
    NormalizedEmailShape(email);
    StripOfUnpadded(e);
    StripIdempotent(name);
  }

  /** What create_user computes (`email.strip().lower()`) is already what
      `User.save` would store, so the save that follows changes nothing. */
  lemma ManagerEmailIsSaved(email: string)
    ensures NormalizeEmail(Lower(Strip(email))) == Lower(Strip(email))
  {
    var e := Lower(Strip(email));
    StripShape(email);
    StripLowerCommute(email);
    LowerIdempotent(Strip(email));
    if e != "" {
      StripLowerCommute(e);
      StripIdempotent(Lower(email));
      LowerIdempotent(email);
    }
  }

  /** The email create_user stores: `email.strip().lower()`. It is already in
      the form `User.save` leaves, so the save that follows changes nothing. */
  function ManagerEmail(email: string): (r: string)
    ensures NormalizeEmail(r) == r && Lower(r) == r
  {
    ManagerEmailIsSaved(email);
    LowerIdempotent(Strip(email));
    Lower(Strip(email))
  }

  /** create_user's email normalisation is idempotent. */
  lemma ManagerEmailIdempotent(email: string)
    ensures ManagerEmail(ManagerEmail(email)) == ManagerEmail(email)
  {
    var x := Lower(Strip(email));
    StripLowerCommute(Strip(email));
    StripIdempotent(email);
    LowerIdempotent(Strip(email));
    assert Strip(x) == x;
  }

  /** A trimmed name is what `User.save` leaves. */
  lemma TrimmedNameIsSaved(name: string)
    ensures NormalizeName(Strip(name)) == Strip(name)
  {
    StripIdempotent(name);
  }

  /** `get_full_name`: first and last name joined by a space, trimmed. */
  function FullName(u: User): (r: string)
    ensures Unpadded(r) && |r| <= |u.firstName| + 1 + |u.lastName|
  {
    StripIsUnpadded(u.firstName + " " + u.lastName);
    Strip(u.firstName + " " + u.lastName)
  }

  /** For trimmed, non-empty names the full name is exactly "first last". */
  lemma FullNameOfTrimmedNames(u: User)
    requires u.firstName != "" && u.lastName != ""
    requires Unpadded(u.firstName) && Unpadded(u.lastName)
    ensures FullName(u) == u.firstName + " " + u.lastName
  {
    var s := u.firstName + " " + u.lastName;
    assert s[0] == u.firstName[0] && s[|s| - 1] == u.lastName[|u.lastName| - 1];
    StripOfUnpadded(s);
  }

  /** With no last name the separating space is trimmed away. */
  lemma FullNameWithoutLastName(u: User)
    requires u.lastName == "" && Unpadded(u.firstName)
    ensures FullName(u) == u.firstName
  {
    var s := u.firstName + " " + u.lastName;
    assert s[..|s| - 1] == u.firstName;
    StripRightOfUnpadded(u.firstName);
    if u.firstName != "" {
      StripLeftOfUnpadded(s);
      assert StripLeft(s) == s;
    } else {
      assert s == " ";
      assert StripLeft(s) == StripLeft(s[1..]);
    }
  }

  /** create_superuser's defaults and checks on `is_staff` and `is_superuser`. */
  function SuperuserExtras(extra: ExtraFields): (r: Result<ExtraFields, CreateUserError>)
    ensures r.Ok? <==> extra.isStaff != Some(false) && extra.isSuperuser != Some(false)
    ensures r.Ok? ==> r.value == extra.(isStaff := Some(true), isSuperuser := Some(true))
    ensures extra.isStaff == Some(false) ==> r == Err(SuperuserMustBeStaff)
    ensures extra.isStaff != Some(false) && extra.isSuperuser == Some(false) ==> r == Err(SuperuserMustBeSuperuser)
  {
    var staff := if extra.isStaff.Some? then extra.isStaff.value else true;
    var superuser := if extra.isSuperuser.Some? then extra.isSuperuser.value else true;
    if !staff then Err(SuperuserMustBeStaff)
    else if !superuser then Err(SuperuserMustBeSuperuser)
    else Ok(extra.(isStaff := Some(staff), isSuperuser := Some(superuser)))
  }

  /** An in-memory User instance, as far as `User.save` touches it. */
  class UserInstance {
    var email: string
    var firstName: string
    var lastName: string

    constructor (email: string, firstName: string, lastName: string)
      ensures this.email == email && this.firstName == firstName && this.lastName == lastName
    {
      this.email := email;
      this.firstName := firstName;
      this.lastName := lastName;
    }

    /** The normalisation `User.save` performs before it writes the row; the
        write itself is done by the caller (Database.CreateUser). */
    method Save()
      modifies this
      ensures email == NormalizeEmail(old(email))
      ensures firstName == NormalizeName(old(firstName))
      ensures lastName == NormalizeName(old(lastName))
    {
      if email != "" {
        email := Strip(Lower(email));
      }
      if firstName != "" {
        firstName := Strip(firstName);
      }
      if lastName != "" {
        lastName := Strip(lastName);
      }
    }
  }

  /** The instance `create_user` builds from the manager's normalised email
      and the trimmed names, after `User.save` has normalised it again: the
      second normalisation changes nothing. */
  method SaveNewUser(email: string, firstName: string, lastName: string)
    returns (savedEmail: string, savedFirst: string, savedLast: string)
    ensures savedEmail == ManagerEmail(email) && savedFirst == Strip(firstName) && savedLast == Strip(lastName)
  {
    var instance := new UserInstance(ManagerEmail(email), Strip(firstName), Strip(lastName));
    TrimmedNameIsSaved(firstName);
    TrimmedNameIsSaved(lastName);
    instance.Save();
    savedEmail, savedFirst, savedLast := instance.email, instance.firstName, instance.lastName;
  }

  // ---------------------------------------------------------------- events

  /** `Event.is_upcoming`: strictly after `now`. */
  predicate IsUpcoming(e: Event, now: Time): (r: bool)
    ensures e.dateTime == now ==> !r
  {
    e.dateTime > now
  }

  /** `Event.is_past`: strictly before `now` (the `date_time and` guard always
      holds, since the column is not nullable). */
  predicate IsPast(e: Event, now: Time): (r: bool)
    ensures r ==> !IsUpcoming(e, now)
    ensures e.dateTime == now ==> !r
  {
    e.dateTime < now
  }

  /** An event is never both upcoming and past; one exactly at `now` is neither,
      any other is exactly one of the two. */
  lemma UpcomingPastExclusive(e: Event, now: Time)
    ensures !(IsUpcoming(e, now) && IsPast(e, now))
    ensures e.dateTime == now <==> !IsUpcoming(e, now) && !IsPast(e, now)
  {
  }

  /** The title column's own validators: not blank, at most 200, at least 3 characters. */
  function TitleValidators(title: string): (r: Option<FieldError>)
    ensures r.None? <==> TITLE_MIN_LENGTH <= |title| <= TITLE_MAX_LENGTH
  {
    if title == "" then Some(Blank)
    else if |title| > TITLE_MAX_LENGTH then Some(TooLong(TITLE_MAX_LENGTH))
    else if |title| < TITLE_MIN_LENGTH then Some(TooShort(TITLE_MIN_LENGTH))
    else None
  }

  /** The location column's own validators: not blank, at least 5 characters. */
  function LocationValidators(location: string): (r: Option<FieldError>)
    ensures r.None? <==> LOCATION_MIN_LENGTH <= |location|
  {
    if location == "" then Some(Blank)
    else if |location| < LOCATION_MIN_LENGTH then Some(TooShort(LOCATION_MIN_LENGTH))
    else None
  }

  function ErrorList(field: EventField, e: Option<FieldError>): seq<ModelError>
  {
    if e.Some? then [ModelError(field, e.value)] else []
  }

  /** Django's clean_fields() on an event: every column validated as it stands. */
  function FieldErrors(title: string, location: string): (r: seq<ModelError>)
    ensures r == [] <==> TITLE_MIN_LENGTH <= |title| <= TITLE_MAX_LENGTH && LOCATION_MIN_LENGTH <= |location|
    ensures forall me :: me in r ==> me.field == Title || me.field == Location
  {
    ErrorList(Title, TitleValidators(title)) + ErrorList(Location, LocationValidators(location))
  }

  /** The verdict of `Event.clean`: a title or a location that is non-empty
      but only whitespace is refused, then a new event (no primary key) dated
      before `now` is refused. */
  function CleanVerdict(title: string, location: string, dateTime: Time, isNew: bool, now: Time): (r: Option<ModelError>)
    ensures r.None? <==> !(title != "" && AllSpace(title)) && !(location != "" && AllSpace(location))
                         && !(isNew && dateTime < now)
  {
    StripEmptyIff(title);
    StripEmptyIff(location);
    if title != "" && Strip(title) == "" then Some(ModelError(Title, EmptyAfterTrim))
    else if location != "" && Strip(location) == "" then Some(ModelError(Location, EmptyAfterTrim))
    else if isNew && dateTime < now then Some(ModelError(DateTime, InPast))
    else None
  }

  /** clean() refuses a title exactly when it is non-empty and all whitespace. */
  lemma CleanRefusesWhitespaceTitle(title: string, location: string, dateTime: Time, isNew: bool, now: Time)
    ensures CleanVerdict(title, location, dateTime, isNew, now) == Some(ModelError(Title, EmptyAfterTrim))
            <==> title != "" && AllSpace(title)
  {
    StripEmptyIff(title);
  }

  /** clean() refuses on the date only for a new event, and then exactly when
      the date is before `now` (and title and location passed). */
  lemma CleanDateOnlyForNew(title: string, location: string, dateTime: Time, isNew: bool, now: Time)
    ensures !isNew ==> CleanVerdict(title, location, dateTime, isNew, now) != Some(ModelError(DateTime, InPast))
    ensures isNew && !(title != "" && AllSpace(title)) && !(location != "" && AllSpace(location)) ==>
              (CleanVerdict(title, location, dateTime, isNew, now) == Some(ModelError(DateTime, InPast)) <==> dateTime < now)
  {
    StripEmptyIff(title);
    StripEmptyIff(location);
  }

  /** `full_clean()` as models.py has it: clean_fields() checks the columns as
      they stand, and only then does clean() trim them. */
  function FullCleanAsWritten(title: string, location: string, dateTime: Time, isNew: bool, now: Time)
    : (r: Result<(string, string), seq<ModelError>>)
    ensures r.Ok? <==> CleanVerdict(title, location, dateTime, isNew, now).None? && FieldErrors(title, location) == []
    ensures r.Ok? ==> r.value == (Strip(title), Strip(location))
  {
    var v := CleanVerdict(title, location, dateTime, isNew, now);
    var errs := FieldErrors(title, location) + (if v.Some? then [v.value] else []);
    if errs == [] then Ok((Strip(title), Strip(location))) else Err(errs)
  }

  /** As written, a padded title passes the length check and is stored shorter
      than the column's minimum. */
  lemma FullCleanAsWrittenStoresShortTitle()
    ensures FullCleanAsWritten("  a  ", "Annex", 0, false, 0) == Ok(("a", "Annex"))
    ensures TitleValidators("a") == Some(TooShort(TITLE_MIN_LENGTH))
  {
    ShortTitleCleans();
    ShortTitlePassesColumns();
  }

  lemma ShortTitleCleans()
    ensures CleanVerdict("  a  ", "Annex", 0, false, 0) == None
    ensures Strip("  a  ") == "a" && Strip("Annex") == "Annex"
  {
    PaddedTitleStrips();
    PlainLocationStrips();
  }

  lemma PlainLocationStrips()
    ensures Strip("Annex") == "Annex"
  {
    StripOfUnpadded("Annex");
  }

  lemma ShortTitlePassesColumns()
    ensures FieldErrors("  a  ", "Annex") == []
  {
  }

  lemma PaddedTitleStrips()
    ensures Strip("  a  ") == "a"
  {
    PaddedTitleStripsLeft();
    PaddedTitleStripsRight();
  }

  lemma PaddedTitleStripsLeft()
    ensures StripLeft("  a  ") == "a  "
  {
    var t := "  a  ";
    assert t[1..] == " a  " && t[1..][1..] == "a  ";
    StripLeftOfUnpadded("a  ");
  }

  lemma PaddedTitleStripsRight()
    ensures StripRight("a  ") == "a"
  {
    var u := "a  ";
    assert u[..2] == "a " && u[..2][..1] == "a";
    StripRightOfUnpadded("a");
  }

  /** `full_clean()` with the trimming done before the column validators run:
      what is stored always meets the columns' own validators. */
  function FullClean(title: string, location: string, dateTime: Time, isNew: bool, now: Time)
    : (r: Result<(string, string), seq<ModelError>>)
    ensures r.Ok? ==> r.value == (Strip(title), Strip(location))
    ensures r.Ok? ==> TitleValidators(r.value.0).None? && LocationValidators(r.value.1).None?
    ensures r.Ok? <==> CleanVerdict(title, location, dateTime, isNew, now).None?
                       && FieldErrors(Strip(title), Strip(location)) == []
  {
    var v := CleanVerdict(title, location, dateTime, isNew, now);
    var errs := FieldErrors(Strip(title), Strip(location)) + (if v.Some? then [v.value] else []);
    if errs == [] then Ok((Strip(title), Strip(location))) else Err(errs)
  }

  /** On input that is already trimmed the two orders agree. */
  lemma FullCleanAgreesOnTrimmedInput(title: string, location: string, dateTime: Time, isNew: bool, now: Time)
    requires Unpadded(title) && Unpadded(location)
    ensures FullClean(title, location, dateTime, isNew, now) == FullCleanAsWritten(title, location, dateTime, isNew, now)
  {
    StripOfUnpadded(title);
    StripOfUnpadded(location);
  }

  /** What a stored event row satisfies: its title and location are trimmed and
      meet their columns' validators. */
  predicate StoredValid(e: Event)
  {
    Unpadded(e.title) && Unpadded(e.location)
    && TitleValidators(e.title).None? && LocationValidators(e.location).None?
  }

  /** A stored row passes full_clean() again unchanged, whatever `now` is, once it
      has a primary key. */
  lemma StoredRowPassesFullClean(e: Event, now: Time)
    requires StoredValid(e)
    ensures FullClean(e.title, e.location, e.dateTime, false, now) == Ok((e.title, e.location))
  {
    StripOfUnpadded(e.title);
    StripOfUnpadded(e.location);
    var v := CleanVerdict(e.title, e.location, e.dateTime, false, now);
    assert v == None;
    assert TitleValidators(e.title) == None && LocationValidators(e.location) == None;
    var errs := FieldErrors(e.title, e.location);
    assert errs == [];
  }

  /** An in-memory Event instance; `pk` is None until it is first saved. */
  class EventInstance {
    var pk: Option<EventId>
    var title: string
    var dateTime: Time
    var location: string
    var description: Option<string>
    var shareId: Option<Uuid>
    var owner: UserId
    var createdAt: Time
    var updatedAt: Time

    /** `Event(**fields)`: a new instance with no primary key. */
    constructor New(title: string, dateTime: Time, location: string, description: Option<string>, owner: UserId)
      ensures pk.None? && this.title == title && this.dateTime == dateTime && this.location == location
      ensures this.description == description && this.owner == owner && shareId.None?
    {
      pk := None;
      this.title := title;
      this.dateTime := dateTime;
      this.location := location;
      this.description := description;
      this.owner := owner;
      shareId := None;
      createdAt := 0;
      updatedAt := 0;
    }

    /** An instance loaded from a stored row. */
    constructor Load(e: Event)
      ensures pk == Some(e.id) && Row(e.id) == e
    {
      pk := Some(e.id);
      title := e.title;
      dateTime := e.dateTime;
      location := e.location;
      description := e.description;
      shareId := e.shareId;
      owner := e.owner;
      createdAt := e.createdAt;
      updatedAt := e.updatedAt;
    }

    /** The row this instance would be stored as under primary key `id`. */
    function Row(id: EventId): Event
      reads this
    {
      Event(id, title, dateTime, location, description, shareId, owner, createdAt, updatedAt)
    }

    /** `Event.clean`: trims title and location in place, refusing one that
        trims to nothing, then refuses a new event dated in the past. A refused
        title is left trimmed (to the empty string) and the location untouched. */
    method Clean(now: Time) returns (err: Option<ModelError>)
      modifies this`title, this`location
      ensures err == CleanVerdict(old(title), old(location), dateTime, pk.None?, now)
      ensures title == Strip(old(title))
      ensures location == if err == Some(ModelError(Title, EmptyAfterTrim)) then old(location) else Strip(old(location))
    {
      if title != "" {
        title := Strip(title);
        if title == "" {
          return Some(ModelError(Title, EmptyAfterTrim));
        }
      }
      if location != "" {
        location := Strip(location);
        if location == "" {
          return Some(ModelError(Location, EmptyAfterTrim));
        }
      }
      if pk.None? && dateTime < now {
        return Some(ModelError(DateTime, InPast));
      }
      return None;
    }

    /** `full_clean()` as models.py runs it: clean_fields() checks the columns
        as they stand, then clean() trims them; the empty error list means the
        instance may be written. */
    method FullCleanInPlace(now: Time) returns (errs: seq<ModelError>)
      modifies this`title, this`location
      ensures (errs == []) == FullCleanAsWritten(old(title), old(location), dateTime, pk.None?, now).Ok?
      ensures errs == [] ==> (title, location) == FullCleanAsWritten(old(title), old(location), dateTime, pk.None?, now).value
      ensures title == Strip(old(title))
      ensures location == old(location) || location == Strip(old(location))
      ensures Unpadded(old(title)) && Unpadded(old(location)) ==> title == old(title) && location == old(location)
    {
      if Unpadded(title) && Unpadded(location) {
        StripOfUnpadded(title);
        StripOfUnpadded(location);
      }
      var fieldErrs := FieldErrors(title, location);
      var err := Clean(now);
      errs := fieldErrs + (if err.Some? then [err.value] else []);
    }
  }

  // ---------------------------------------------------------------- database

  /** The content of the two tables, as a value. */
  datatype Tables = Tables(
    users: map<UserId, User>,
    events: map<EventId, Event>,
    nextUserId: nat,
    nextEventId: nat)

  /** Every event row is filed under its own id. */
  predicate KeysAreIds(events: map<EventId, Event>)
  {
    forall k :: k in events ==> events[k].id == k
  }

  /** Every event row is filed under its own id, and every id is below the
      next one to be handed out. */
  predicate EventsIndexed(t: Tables)
  {
    KeysAreIds(t.events) && forall k :: k in t.events ==> k < t.nextEventId
  }

  /** Every event's owner is a stored user. */
  predicate OwnersStored(t: Tables)
  {
    forall k :: k in t.events ==> t.events[k].owner in t.users
  }

  /** What the schema guarantees of the tables: ids are keys, emails are unique
      ignoring case (unique_lower_email), every event has an existing owner and
      passed full_clean(), share ids are unique. */
  ghost predicate TablesValid(t: Tables)
  {
    && (forall k :: k in t.users ==> t.users[k].id == k && k < t.nextUserId)
    && (forall a, b :: a in t.users && b in t.users && a != b ==> Lower(t.users[a].email) != Lower(t.users[b].email))
    && EventsIndexed(t)
    && OwnersStored(t)
    && (forall k :: k in t.events ==> StoredValid(t.events[k]))
    && (forall a, b :: a in t.events && b in t.events && a != b && t.events[a].shareId.Some? ==>
          t.events[a].shareId != t.events[b].shareId)
  }

  /** True when a stored user has this email, ignoring case (the lookup
      `email__iexact` and the unique_lower_email constraint both make). */
  predicate EmailTaken(users: map<UserId, User>, email: string)
  {
    exists k :: k in users && Lower(users[k].email) == Lower(email)
  }

  /** Adding a user under the next fresh id, with an email no stored user has
      (ignoring case), keeps the tables valid. */
  lemma InsertUserKeepsValid(t: Tables, user: User)
    requires TablesValid(t)
    requires user.id == t.nextUserId
    requires !EmailTaken(t.users, user.email)
    ensures TablesValid(t.(users := t.users[user.id := user], nextUserId := t.nextUserId + 1))
  {
  }

  /** True when no stored event carries share id u. */
  predicate ShareIdFree(events: map<EventId, Event>, u: Uuid)
  {
    forall k :: k in events ==> events[k].shareId != Some(u)
  }

  /** Inserting an event under the next fresh id, owned by a stored user,
      having passed full_clean() and not yet shared, keeps the tables valid. */
  lemma InsertEventKeepsValid(t: Tables, e: Event)
    requires TablesValid(t)
    requires e.id == t.nextEventId && e.owner in t.users && StoredValid(e) && e.shareId.None?
    ensures TablesValid(t.(events := t.events[e.id := e], nextEventId := t.nextEventId + 1))
  {
  }

  /** Rewriting a stored event under its own id keeps the tables valid when
      the owner is stored, the row passed full_clean(), and the share id is
      either the old one or one no event carries. */
  lemma ReplaceEventKeepsValid(t: Tables, e: Event)
    requires TablesValid(t)
    requires e.id in t.events && e.owner in t.users && StoredValid(e)
    requires e.shareId == t.events[e.id].shareId || (e.shareId.Some? && ShareIdFree(t.events, e.shareId.value))
    ensures TablesValid(t.(events := t.events[e.id := e]))
  {
  }

  /** Deleting an event keeps the tables valid. */
  lemma RemoveEventKeepsValid(t: Tables, id: EventId)
    requires TablesValid(t)
    ensures TablesValid(t.(events := t.events - {id}))
  {
  }

  /** The database: the users table, the events table and their id counters. */
  class Database {
    var users: map<UserId, User>
    var events: map<EventId, Event>
    var nextUserId: nat
    var nextEventId: nat

    function Snapshot(): Tables
      reads this
    {
      Tables(users, events, nextUserId, nextEventId)
    }

    ghost predicate Valid()
      reads this
    {
      TablesValid(Snapshot())
    }

    constructor ()
      ensures Valid() && Snapshot() == Tables(map[], map[], 0, 0)
    {
      users := map[];
      events := map[];
      nextUserId := 0;
      nextEventId := 0;
    }

    /** `UserManager.create_user`: email and both names must be non-empty; the
        email is trimmed and lower-cased, the names trimmed, the password set,
        and the row inserted unless its email clashes, ignoring case, with a
        stored one. */
    method CreateUser(email: string, firstName: string, lastName: string, password: Option<string>, extra: ExtraFields)
      returns (r: Result<UserId, CreateUserError>)
      requires Valid()
      modifies this
      ensures Valid()
      ensures email == "" ==> r == Err(EmailIsRequired)
      ensures email != "" && firstName == "" ==> r == Err(FirstNameIsRequired)
      ensures email != "" && firstName != "" && lastName == "" ==> r == Err(LastNameIsRequired)
      ensures email != "" && firstName != "" && lastName != "" ==>
                (r == Err(DuplicateEmail) <==> EmailTaken(old(users), ManagerEmail(email)))
      ensures (email != "" && firstName != "" && lastName != "" && !EmailTaken(old(users), ManagerEmail(email))) ==> r.Ok?
      ensures r.Err? ==> Snapshot() == old(Snapshot())
      ensures r.Ok? ==>
                && r.value == old(nextUserId)
                && users == old(users)[r.value := User(r.value, ManagerEmail(email), Strip(firstName), Strip(lastName),
                                                       if password.Some? then UsablePassword(password.value) else Unusable,
                                                       extra.isStaff == Some(true), extra.isSuperuser == Some(true),
                                                       extra.isActive != Some(false))]
                && nextUserId == old(nextUserId) + 1
                && events == old(events) && nextEventId == old(nextEventId)
    {
      if email == "" {
        return Err(EmailIsRequired);
      }
      if firstName == "" {
        return Err(FirstNameIsRequired);
      }
      if lastName == "" {
        return Err(LastNameIsRequired);
      }
      var savedEmail, savedFirst, savedLast := SaveNewUser(email, firstName, lastName);
      if EmailTaken(users, savedEmail) {
        return Err(DuplicateEmail);
      }
      var id := nextUserId;
      var credential := if password.Some? then UsablePassword(password.value) else Unusable;
      var user := User(id, savedEmail, savedFirst, savedLast, credential,
                       extra.isStaff == Some(true), extra.isSuperuser == Some(true), extra.isActive != Some(false));
      InsertUserKeepsValid(Snapshot(), user);
      users := users[id := user];
      nextUserId := nextUserId + 1;
      r := Ok(id);
    }

    /** `UserManager.create_superuser`: both staff flags default to true and
        must be true; then as create_user. */
    method CreateSuperuser(email: string, firstName: string, lastName: string, password: Option<string>, extra: ExtraFields)
      returns (r: Result<UserId, CreateUserError>)
      requires Valid()
      modifies this
      ensures Valid()
      ensures SuperuserExtras(extra).Err? ==> r == Err(SuperuserExtras(extra).error) && Snapshot() == old(Snapshot())
      ensures r.Err? ==> Snapshot() == old(Snapshot())
      ensures r.Ok? ==> r.value in users && users[r.value].isStaff && users[r.value].isSuperuser
                        && users == old(users)[r.value := users[r.value]]
      ensures r.Ok? ==> r.value == old(nextUserId) && r.value !in old(users) && nextUserId == old(nextUserId) + 1
                        && events == old(events) && nextEventId == old(nextEventId)
    {
      var checked := SuperuserExtras(extra);
      if checked.Err? {
        return Err(checked.error);
      }
      r := CreateUser(email, firstName, lastName, password, checked.value);
    }
  }
}

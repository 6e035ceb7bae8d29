/** The DRF serializers of backend/events/serializers.py: how a submitted
    field is parsed (DRF's CharField: required, whitespace trimmed, blank
    refused, length limits), the `validate_*` hooks, the cross-field checks and
    the output projections. A submitted payload gives each field as an
    Option: None is "the key is absent". */
module Serializers {
  import opened Wrappers
  import opened Text
  import opened Models

  const EMAIL_MAX_LENGTH: nat := 254
  const NAME_MAX_LENGTH: nat := 150
  const PASSWORD_MIN_LENGTH: nat := 8

  /** U+0000, which DRF's ProhibitNullCharactersValidator refuses in every
      CharField. */
  const NULL: char := '\0'

  /** DRF's CharField with `trim_whitespace` on and blank values refused:
      absent is Required, nothing but whitespace is Blank, then the length
      validators and the null-character validator run on the trimmed value.
      A `minLength` of 0 is "no minimum". */
  function CharField(v: Option<string>, maxLength: Option<nat>, minLength: nat): (r: Result<string, FieldError>)
    ensures r.Ok? <==> v.Some? && Strip(v.value) != "" && minLength <= |Strip(v.value)|
                       && (maxLength.Some? ==> |Strip(v.value)| <= maxLength.value)
                       && NULL !in Strip(v.value)
    ensures r.Ok? ==> r.value == Strip(v.value) && Unpadded(r.value) && r.value != ""
    ensures v.None? ==> r == Err(Required)
    ensures v.Some? && AllSpace(v.value) ==> r == Err(Blank)
  {
    if v.None? then Err(Required)
    else
      var t := Strip(v.value);
      StripIsUnpadded(v.value);
      StripEmptyIff(v.value);
      if t == "" then Err(Blank)
      else if maxLength.Some? && |t| > maxLength.value then Err(TooLong(maxLength.value))
      else if |t| < minLength then Err(TooShort(minLength))
      else if NULL in t then Err(NullCharacter)
      else Ok(t)
  }

  /** Parsing is idempotent: a parsed value parses to itself. */
  lemma CharFieldIdempotent(v: Option<string>, maxLength: Option<nat>, minLength: nat)
    requires CharField(v, maxLength, minLength).Ok?
    ensures CharField(Some(CharField(v, maxLength, minLength).value), maxLength, minLength) == CharField(v, maxLength, minLength)
  {
    StripIdempotent(v.value);
  }

  // ------------------------------------------------------------ events

  /** `EventSerializer.validate_title`: the trimmed title, refused when empty
      or shorter than 3 characters. */
  function ValidateTitle(value: string): (r: Result<string, FieldError>)
    ensures r.Ok? <==> TITLE_MIN_LENGTH <= |Strip(value)|
    ensures r.Ok? ==> r.value == Strip(value)
    ensures AllSpace(value) ==> r == Err(Blank)
  {
    StripEmptyIff(value);
    var title := Strip(value);
    if title == "" then Err(Blank)
    else if |title| < TITLE_MIN_LENGTH then Err(TooShort(TITLE_MIN_LENGTH))
    else Ok(title)
  }

  /** `EventSerializer.validate_location`: the trimmed location, refused when
      empty or shorter than 5 characters. */
  function ValidateLocation(value: string): (r: Result<string, FieldError>)
    ensures r.Ok? <==> LOCATION_MIN_LENGTH <= |Strip(value)|
    ensures r.Ok? ==> r.value == Strip(value)
    ensures AllSpace(value) ==> r == Err(Blank)
  {
    StripEmptyIff(value);
    var location := Strip(value);
    if location == "" then Err(Blank)
    else if |location| < LOCATION_MIN_LENGTH then Err(TooShort(LOCATION_MIN_LENGTH))
    else Ok(location)
  }

  /** Validating a validated title or location again changes nothing. */
  lemma ValidateTitleLocationIdempotent(title: string, location: string)
    ensures ValidateTitle(title).Ok? ==> ValidateTitle(ValidateTitle(title).value) == ValidateTitle(title)
    ensures ValidateLocation(location).Ok? ==> ValidateLocation(ValidateLocation(location).value) == ValidateLocation(location)
  {
    StripIdempotent(title);
    StripIdempotent(location);
  }

  /** `EventSerializer.validate_date_time`: a new event (no instance) may not
      be dated before `now`; an update accepts any date. */
  function ValidateDateTime(value: Time, hasInstance: bool, now: Time): (r: Result<Time, FieldError>)
    ensures r.Ok? <==> hasInstance || value >= now
    ensures r.Ok? ==> r.value == value
    ensures r.Err? ==> r.error == InPast
  {
    if !hasInstance && value < now then Err(InPast) else Ok(value)
  }

  /** A submitted event; `owner` stands for a `user` key in the body, which the
      serializer declares read-only. `description` is Some(None) for null. */
  datatype EventPayload = EventPayload(
    title: Option<string>,
    dateTime: Option<Time>,
    location: Option<string>,
    description: Option<Option<string>>,
    owner: Option<UserId>)

  /** `validated_data` of the event serializer: only the fields that were
      submitted (all of them unless the update is partial). */
  datatype EventData = EventData(
    title: Option<string>,
    dateTime: Option<Time>,
    location: Option<string>,
    description: Option<Option<string>>)

  /** The title as the serializer takes it: the model-derived CharField
      (max 200, MinLengthValidator(3)), then validate_title. Absent on a
      partial update is skipped. */
  function TitleInput(v: Option<string>, partial: bool): (r: Result<Option<string>, FieldError>)
    ensures r.Ok? <==> (v.None? && partial) || (v.Some? && TITLE_MIN_LENGTH <= |Strip(v.value)| <= TITLE_MAX_LENGTH
                                                   && NULL !in Strip(v.value))
    ensures r.Ok? ==> (r.value.Some? <==> v.Some?) && (r.value.Some? ==> r.value.value == Strip(v.value))
    ensures v.None? && !partial ==> r == Err(Required)
    ensures v.Some? && AllSpace(v.value) ==> r == Err(Blank)
  {
    if v.None? && partial then Ok(None)
    else
      match CharField(v, Some(TITLE_MAX_LENGTH), TITLE_MIN_LENGTH)
      case Err(e) => Err(e)
      case Ok(f) =>
        StripIdempotent(v.value);
        match ValidateTitle(f)
        case Err(e) => Err(e)
        case Ok(t) => Ok(Some(t))
  }

  /** The location: CharField with MinLengthValidator(5), then validate_location. */
  function LocationInput(v: Option<string>, partial: bool): (r: Result<Option<string>, FieldError>)
    ensures r.Ok? <==> (v.None? && partial) || (v.Some? && LOCATION_MIN_LENGTH <= |Strip(v.value)| && NULL !in Strip(v.value))
    ensures r.Ok? ==> (r.value.Some? <==> v.Some?) && (r.value.Some? ==> r.value.value == Strip(v.value))
    ensures v.None? && !partial ==> r == Err(Required)
  {
    if v.None? && partial then Ok(None)
    else
      match CharField(v, None, LOCATION_MIN_LENGTH)
      case Err(e) => Err(e)
      case Ok(f) =>
        StripIdempotent(v.value);
        match ValidateLocation(f)
        case Err(e) => Err(e)
        case Ok(l) => Ok(Some(l))
  }

  function DateTimeInput(v: Option<Time>, partial: bool, hasInstance: bool, now: Time): (r: Result<Option<Time>, FieldError>)
    ensures r.Ok? <==> (v.None? && partial) || (v.Some? && (hasInstance || v.value >= now))
    ensures r.Ok? ==> r.value == v
    ensures v.Some? && !hasInstance && v.value < now ==> r == Err(InPast)
  {
    if v.None? then (if partial then Ok(None) else Err(Required))
    else
      match ValidateDateTime(v.value, hasInstance, now)
      case Err(e) => Err(e)
      case Ok(d) => Ok(Some(d))
  }

  /** The description: the CharField the model's TextField yields, optional,
      nullable and blank-allowed. A string is trimmed and, like every
      CharField, refused when it holds U+0000. */
  function DescriptionInput(v: Option<Option<string>>): (r: Result<Option<Option<string>>, FieldError>)
    ensures r.Ok? <==> !(v.Some? && v.value.Some? && NULL in Strip(v.value.value))
    ensures r.Ok? ==> (r.value.Some? <==> v.Some?) && (v.Some? ==> (r.value.value.Some? <==> v.value.Some?))
    ensures r.Ok? && v.Some? && v.value.Some? ==> r.value.value.value == Strip(v.value.value)
    ensures r.Err? ==> r.error == NullCharacter
  {
    if v.Some? && v.value.Some? then
      var t := Strip(v.value.value);
      if NULL in t then Err(NullCharacter) else Ok(Some(Some(t)))
    else Ok(v)
  }

  /** The serializer's `errors`: one entry per refused field. */
  function EventErrors(title: Result<Option<string>, FieldError>, dateTime: Result<Option<Time>, FieldError>,
                       location: Result<Option<string>, FieldError>,
                       description: Result<Option<Option<string>>, FieldError>): (m: map<EventField, FieldError>)
    ensures m == map[] <==> title.Ok? && dateTime.Ok? && location.Ok? && description.Ok?
    ensures title.Err? ==> Title in m && m[Title] == title.error
    ensures dateTime.Err? ==> DateTime in m && m[DateTime] == dateTime.error
    ensures location.Err? ==> Location in m && m[Location] == location.error
    ensures description.Err? ==> Description in m && m[Description] == description.error
    ensures (Title in m <==> title.Err?) && (DateTime in m <==> dateTime.Err?)
    ensures (Location in m <==> location.Err?) && (Description in m <==> description.Err?)
    ensures m.Keys <= {Title, DateTime, Location, Description}
  {
    var m1 := if title.Err? then map[Title := title.error] else map[];
    var m2 := if dateTime.Err? then m1[DateTime := dateTime.error] else m1;
    var m3 := if location.Err? then m2[Location := location.error] else m2;
    var m4 := if description.Err? then m3[Description := description.error] else m3;
    assert title.Err? ==> Title in m4;
    var empty: map<EventField, FieldError> := map[];
    assert Title !in empty && DateTime !in empty && Location !in empty && Description !in empty;
    m4
  }

  /** When a submitted event is accepted, stated independently of how the
      serializer reaches its verdict. */
  predicate EventPayloadValid(p: EventPayload, hasInstance: bool, partial: bool, now: Time)
  {
    && (p.title.None? ==> partial)
    && (p.title.Some? ==> TITLE_MIN_LENGTH <= |Strip(p.title.value)| <= TITLE_MAX_LENGTH && NULL !in Strip(p.title.value))
    && (p.location.None? ==> partial)
    && (p.location.Some? ==> LOCATION_MIN_LENGTH <= |Strip(p.location.value)| && NULL !in Strip(p.location.value))
    && (p.dateTime.None? ==> partial)
    && (p.dateTime.Some? && !hasInstance ==> p.dateTime.value >= now)
    && (p.description.Some? && p.description.value.Some? ==> NULL !in Strip(p.description.value.value))
  }

  /** `EventSerializer(data=..., partial=...).is_valid()`: a field error per
      refused field, or the validated data. */
  function ValidateEvent(p: EventPayload, hasInstance: bool, partial: bool, now: Time)
    : (r: Result<EventData, map<EventField, FieldError>>)
    ensures r.Ok? <==> EventPayloadValid(p, hasInstance, partial, now)
    ensures r.Ok? ==> r.value.dateTime == p.dateTime
                      && (r.value.title.Some? <==> p.title.Some?)
                      && (r.value.title.Some? ==> r.value.title.value == Strip(p.title.value))
                      && (r.value.location.Some? <==> p.location.Some?)
                      && (r.value.location.Some? ==> r.value.location.value == Strip(p.location.value))
                      && r.value.description == DescriptionInput(p.description).value
    ensures r.Err? ==> r.error != map[]
    ensures !partial && p.title.None? ==> r.Err? && Title in r.error && r.error[Title] == Required
    ensures p.title.Some? && AllSpace(p.title.value) ==> r.Err? && Title in r.error && r.error[Title] == Blank
    ensures p.dateTime.Some? && !hasInstance && p.dateTime.value < now ==>
              r.Err? && DateTime in r.error && r.error[DateTime] == InPast
    ensures p.description.Some? && p.description.value.Some? && NULL in Strip(p.description.value.value) ==>
              r.Err? && Description in r.error && r.error[Description] == NullCharacter
    ensures r.Err? ==> r.error == EventErrors(TitleInput(p.title, partial), DateTimeInput(p.dateTime, partial, hasInstance, now),
                                              LocationInput(p.location, partial), DescriptionInput(p.description))
  {
    var title := TitleInput(p.title, partial);
    var dateTime := DateTimeInput(p.dateTime, partial, hasInstance, now);
    var location := LocationInput(p.location, partial);
    var description := DescriptionInput(p.description);
    var errors := EventErrors(title, dateTime, location, description);
    if errors == map[] then
      Ok(EventData(title.value, dateTime.value, location.value, description.value))
    else Err(errors)
  }

  /** The title and location the serializer accepts already satisfy the
      model: the checks validate_title and validate_location repeat never
      refuse what the column-derived field accepted, and full_clean() on the
      resulting instance stores exactly the validated values. */
  lemma ValidatedEventPassesFullClean(p: EventPayload, now: Time)
    requires ValidateEvent(p, false, false, now).Ok?
    ensures var d := ValidateEvent(p, false, false, now).value;
            FullClean(d.title.value, d.location.value, d.dateTime.value, true, now)
              == Ok((d.title.value, d.location.value))
  {
    assert EventPayloadValid(p, false, false, now);
    var d := ValidateEvent(p, false, false, now).value;
    StripShape(p.title.value);
    StripShape(p.location.value);
    StripIdempotent(p.title.value);
    StripIdempotent(p.location.value);
    StripOfUnpadded(d.title.value);
    StripOfUnpadded(d.location.value);
    assert CleanVerdict(d.title.value, d.location.value, d.dateTime.value, true, now) == None;
    assert FieldErrors(d.title.value, d.location.value) == [];
  }

  /** `EventSerializer.create`: the owner is set to the requesting user, then
      `Event.objects.create(**validated_data)` builds the instance, whose
      `save()` runs full_clean() and inserts the row under the next id. */
  method CreateValidatedEvent(db: Database, d: EventData, owner: UserId, now: Time) returns (e: Event)
    requires db.Valid() && owner in db.users
    requires d.title.Some? && d.dateTime.Some? && d.location.Some?
    requires FullClean(d.title.value, d.location.value, d.dateTime.value, true, now) == Ok((d.title.value, d.location.value))
    modifies db
    ensures db.Valid()
    ensures e == Event(old(db.nextEventId), d.title.value, d.dateTime.value, d.location.value,
                       if d.description.Some? then d.description.value else None, None, owner, now, now)
    ensures db.events == old(db.events)[e.id := e] && db.nextEventId == old(db.nextEventId) + 1
    ensures db.users == old(db.users) && db.nextUserId == old(db.nextUserId)
  {
    e := CleanNewEvent(d, owner, db.nextEventId, now);
    InsertEventKeepsValid(db.Snapshot(), e);
    db.events := db.events[e.id := e];
    db.nextEventId := db.nextEventId + 1;
  }

  /** A new instance built from the validated data, passed through
      full_clean() and given its primary key and timestamps on insert. */
  method CleanNewEvent(d: EventData, owner: UserId, id: EventId, now: Time) returns (e: Event)
    requires d.title.Some? && d.dateTime.Some? && d.location.Some?
    requires FullClean(d.title.value, d.location.value, d.dateTime.value, true, now) == Ok((d.title.value, d.location.value))
    ensures StoredValid(e)
    ensures e == Event(id, d.title.value, d.dateTime.value, d.location.value,
                       if d.description.Some? then d.description.value else None, None, owner, now, now)
  {
    var description := if d.description.Some? then d.description.value else None;
    StripIsUnpadded(d.title.value);
    StripIsUnpadded(d.location.value);
    FullCleanAgreesOnTrimmedInput(d.title.value, d.location.value, d.dateTime.value, true, now);
    var instance := new EventInstance.New(d.title.value, d.dateTime.value, d.location.value, description, owner);
    var errs := instance.FullCleanInPlace(now);
    assert errs == [];
    instance.pk := Some(id);
    instance.createdAt := now;
    instance.updatedAt := now;
    e := instance.Row(id);
  }

  /** `ModelSerializer.update`: each validated attribute replaces the
      instance's; the others are kept. */
  function ApplyUpdate(e: Event, d: EventData): (r: Event)
    ensures r.id == e.id && r.owner == e.owner && r.shareId == e.shareId
    ensures r.createdAt == e.createdAt && r.updatedAt == e.updatedAt
    ensures d == EventData(None, None, None, None) ==> r == e
  {
    e.(title := if d.title.Some? then d.title.value else e.title,
       dateTime := if d.dateTime.Some? then d.dateTime.value else e.dateTime,
       location := if d.location.Some? then d.location.value else e.location,
       description := if d.description.Some? then d.description.value else e.description)
  }

  /** The attribute loop of `ModelSerializer.update`: each validated attribute
      is set on the instance (which is saved afterwards). */
  method SetValidatedAttributes(instance: EventInstance, d: EventData, id: EventId)
    modifies instance
    ensures instance.pk == old(instance.pk)
    ensures instance.Row(id) == ApplyUpdate(old(instance.Row(id)), d)
  {
    if d.title.Some? {
      instance.title := d.title.value;
    }
    if d.dateTime.Some? {
      instance.dateTime := d.dateTime.value;
    }
    if d.location.Some? {
      instance.location := d.location.value;
    }
    if d.description.Some? {
      instance.description := d.description.value;
    }
  }

  /** What the serializer accepts for an update, applied to a stored row,
      gives a row that passes full_clean() again with the values unchanged. */
  lemma ValidatedUpdatePassesFullClean(e: Event, p: EventPayload, partial: bool, now: Time)
    requires StoredValid(e)
    requires ValidateEvent(p, true, partial, now).Ok?
    ensures StoredValid(ApplyUpdate(e, ValidateEvent(p, true, partial, now).value))
  {
    if p.title.Some? {
      StripShape(p.title.value);
    }
    if p.location.Some? {
      StripShape(p.location.value);
    }
  }

  /** The `user` key of a submitted event has no effect on validation. */
  lemma ValidateEventIgnoresOwner(p: EventPayload, owner: Option<UserId>, hasInstance: bool, partial: bool, now: Time)
    ensures ValidateEvent(p.(owner := owner), hasInstance, partial, now) == ValidateEvent(p, hasInstance, partial, now)
  {
  }

  // ------------------------------------------------------------ registration

  datatype RegistrationField = EmailField | FirstNameField | LastNameField | PasswordField | PasswordConfirmField

  datatype RegistrationPayload = RegistrationPayload(
    email: Option<string>,
    firstName: Option<string>,
    lastName: Option<string>,
    password: Option<string>,
    passwordConfirm: Option<string>)

  /** True when a stored user has exactly this email (DRF's UniqueValidator
      for the model's `unique=True`). */
  predicate EmailStored(users: map<UserId, User>, email: string)
  {
    exists k :: k in users && users[k].email == email
  }

  /** The email field: the model-derived EmailField (max 254, then the exact
      UniqueValidator), then `validate_email`, which refuses a case-insensitive
      match and returns the value lower-cased and trimmed. */
  function EmailInput(users: map<UserId, User>, v: Option<string>): (r: Result<string, FieldError>)
    ensures r.Ok? <==> CharField(v, Some(EMAIL_MAX_LENGTH), 0).Ok? && !EmailTaken(users, Strip(v.value))
    ensures r.Ok? ==> r.value == Lower(Strip(v.value)) && !EmailTaken(users, r.value)
    ensures CharField(v, Some(EMAIL_MAX_LENGTH), 0).Ok? && EmailTaken(users, Strip(v.value)) ==>
              r == Err(NotUnique) || r == Err(EmailInUse)
  {
    var f := CharField(v, Some(EMAIL_MAX_LENGTH), 0);
    if f.Err? then Err(f.error)
    else if EmailStored(users, f.value) then
      assert EmailTaken(users, f.value);
      Err(NotUnique)
    else if EmailTaken(users, f.value) then Err(EmailInUse)
    else
      EmailOfTrimmed(f.value);
      assert !EmailTaken(users, Lower(f.value));
      Ok(Strip(Lower(f.value)))
  }

  /** On a trimmed value, lower-then-strip is just lower, and lowering twice
      is lowering once. */
  lemma EmailOfTrimmed(v: string)
    requires Unpadded(v)
    ensures Strip(Lower(v)) == Lower(v) && Lower(Lower(v)) == Lower(v)
  {
    StripLowerCommute(v);
    StripOfUnpadded(v);
    LowerIdempotent(v);
  }

  /** A first or last name: a required CharField of at most 150 characters. */
  function NameInput(v: Option<string>): (r: Result<string, FieldError>)
    ensures r.Ok? <==> v.Some? && Strip(v.value) != "" && |Strip(v.value)| <= NAME_MAX_LENGTH && NULL !in Strip(v.value)
    ensures r.Ok? ==> r.value == Strip(v.value) && Unpadded(r.value)
    ensures v.None? ==> r == Err(Required)
    ensures v.Some? && AllSpace(v.value) ==> r == Err(Blank)
  {
    CharField(v, Some(NAME_MAX_LENGTH), 1)
  }

  /** The password field (min_length 8), then `validate_password`, which asks
      Django's password validators (the caller-supplied `passwordAccepted`). */
  function PasswordInput(v: Option<string>, passwordAccepted: string -> bool): (r: Result<string, FieldError>)
    ensures r.Ok? <==> CharField(v, None, PASSWORD_MIN_LENGTH).Ok? && passwordAccepted(Strip(v.value))
    ensures r.Ok? ==> r.value == Strip(v.value) && |r.value| >= PASSWORD_MIN_LENGTH
    ensures CharField(v, None, PASSWORD_MIN_LENGTH).Ok? && !passwordAccepted(Strip(v.value)) ==> r == Err(PasswordRejected)
  {
    var f := CharField(v, None, PASSWORD_MIN_LENGTH);
    if f.Err? then f
    else if !passwordAccepted(f.value) then Err(PasswordRejected)
    else f
  }

  /** The registration serializer's `errors`: one entry per refused field. */
  function RegistrationErrors(email: Result<string, FieldError>, first: Result<string, FieldError>,
                              last: Result<string, FieldError>, password: Result<string, FieldError>,
                              confirm: Result<string, FieldError>): (m: map<RegistrationField, FieldError>)
    ensures m == map[] <==> email.Ok? && first.Ok? && last.Ok? && password.Ok? && confirm.Ok?
    ensures (EmailField in m <==> email.Err?) && (email.Err? ==> m[EmailField] == email.error)
    ensures (FirstNameField in m <==> first.Err?) && (first.Err? ==> m[FirstNameField] == first.error)
    ensures (LastNameField in m <==> last.Err?) && (last.Err? ==> m[LastNameField] == last.error)
    ensures (PasswordField in m <==> password.Err?) && (password.Err? ==> m[PasswordField] == password.error)
    ensures (PasswordConfirmField in m <==> confirm.Err?) && (confirm.Err? ==> m[PasswordConfirmField] == confirm.error)
  {
    var m1 := if email.Err? then map[EmailField := email.error] else map[];
    var m2 := if first.Err? then m1[FirstNameField := first.error] else m1;
    var m3 := if last.Err? then m2[LastNameField := last.error] else m2;
    var m4 := if password.Err? then m3[PasswordField := password.error] else m3;
    var m5 := if confirm.Err? then m4[PasswordConfirmField := confirm.error] else m4;
    assert email.Err? ==> EmailField in m5;
    assert first.Err? ==> FirstNameField in m5;
    assert last.Err? ==> LastNameField in m5;
    assert password.Err? ==> PasswordField in m5;
    assert confirm.Err? ==> PasswordConfirmField in m5;
    var empty: map<RegistrationField, FieldError> := map[];
    assert EmailField !in empty && FirstNameField !in empty && LastNameField !in empty;
    assert PasswordField !in empty && PasswordConfirmField !in empty;
    m5
  }

  /** When a registration is accepted, stated independently. */
  predicate RegistrationValid(users: map<UserId, User>, p: RegistrationPayload, passwordAccepted: string -> bool)
  {
    && p.email.Some? && Strip(p.email.value) != "" && |Strip(p.email.value)| <= EMAIL_MAX_LENGTH
    && NULL !in Strip(p.email.value) && !EmailTaken(users, Strip(p.email.value))
    && p.firstName.Some? && Strip(p.firstName.value) != "" && |Strip(p.firstName.value)| <= NAME_MAX_LENGTH
    && NULL !in Strip(p.firstName.value)
    && p.lastName.Some? && Strip(p.lastName.value) != "" && |Strip(p.lastName.value)| <= NAME_MAX_LENGTH
    && NULL !in Strip(p.lastName.value)
    && p.password.Some? && |Strip(p.password.value)| >= PASSWORD_MIN_LENGTH && NULL !in Strip(p.password.value)
    && passwordAccepted(Strip(p.password.value))
    && p.passwordConfirm.Some? && Strip(p.passwordConfirm.value) == Strip(p.password.value)
  }

  /** `UserRegistrationSerializer(data=...).is_valid()`: the field errors, else
      validate()'s confirmation check, else the validated data (all five keys). */
  function ValidateRegistration(users: map<UserId, User>, p: RegistrationPayload, passwordAccepted: string -> bool)
    : (r: Result<map<RegistrationField, string>, map<RegistrationField, FieldError>>)
    ensures r.Ok? <==> RegistrationValid(users, p, passwordAccepted)
    ensures r.Ok? ==>
              && r.value.Keys == {EmailField, FirstNameField, LastNameField, PasswordField, PasswordConfirmField}
              && r.value[EmailField] == Lower(Strip(p.email.value))
              && !EmailTaken(users, r.value[EmailField])
              && r.value[FirstNameField] == Strip(p.firstName.value)
              && r.value[LastNameField] == Strip(p.lastName.value)
              && r.value[PasswordField] == r.value[PasswordConfirmField] == Strip(p.password.value)
              && |r.value[PasswordField]| >= PASSWORD_MIN_LENGTH
    ensures p.email.None? ==> r.Err? && EmailField in r.error && r.error[EmailField] == Required
    ensures p.password.Some? && |Strip(p.password.value)| < PASSWORD_MIN_LENGTH ==> r.Err? && PasswordField in r.error
    ensures r.Err? ==> r.error != map[]
    ensures var errors := RegistrationErrors(EmailInput(users, p.email), NameInput(p.firstName), NameInput(p.lastName),
                                             PasswordInput(p.password, passwordAccepted), CharField(p.passwordConfirm, None, 0));
            && (errors != map[] ==> r == Err(errors))
            && (errors == map[] && r.Err? ==> r.error == map[PasswordConfirmField := Mismatch])
  {
    var email := EmailInput(users, p.email);
    var first := NameInput(p.firstName);
    var last := NameInput(p.lastName);
    var password := PasswordInput(p.password, passwordAccepted);
    var confirm := CharField(p.passwordConfirm, None, 0);
    RegistrationFieldsOk(users, p, passwordAccepted);
    var errors := RegistrationErrors(email, first, last, password, confirm);
    if errors != map[] then Err(errors)
    else if password.value != confirm.value then
      assert PasswordConfirmField in map[PasswordConfirmField := Mismatch];
      Err(map[PasswordConfirmField := Mismatch])
    else
      var m := map[EmailField := email.value, FirstNameField := first.value, LastNameField := last.value,
                   PasswordField := password.value, PasswordConfirmField := confirm.value];
      assert m.Keys == {EmailField, FirstNameField, LastNameField, PasswordField, PasswordConfirmField};
      Ok(m)
  }

  /** Every registration field parses exactly when the predicate's
      per-field conditions hold. */
  lemma RegistrationFieldsOk(users: map<UserId, User>, p: RegistrationPayload, passwordAccepted: string -> bool)
    ensures RegistrationValid(users, p, passwordAccepted) <==>
              && EmailInput(users, p.email).Ok? && NameInput(p.firstName).Ok? && NameInput(p.lastName).Ok?
              && PasswordInput(p.password, passwordAccepted).Ok? && CharField(p.passwordConfirm, None, 0).Ok?
              && Strip(p.passwordConfirm.value) == Strip(p.password.value)
  {
  }

  /** A confirmation that differs from the password is refused with exactly
      the one error on `password_confirm`, once every field on its own passed. */
  lemma MismatchedConfirmation(users: map<UserId, User>, p: RegistrationPayload, passwordAccepted: string -> bool)
    requires RegistrationValid(users, p.(passwordConfirm := p.password), passwordAccepted)
    requires p.passwordConfirm.Some? && Strip(p.passwordConfirm.value) != "" && NULL !in Strip(p.passwordConfirm.value)
    requires Strip(p.passwordConfirm.value) != Strip(p.password.value)
    ensures ValidateRegistration(users, p, passwordAccepted) == Err(map[PasswordConfirmField := Mismatch])
  {
    assert CharField(p.passwordConfirm, None, 0).Ok?;
  }

  /** `UserRegistrationSerializer.create`: drops `password_confirm` from the
      validated data and passes the rest to create_user (no extra fields). */
  method CreateRegisteredUser(db: Database, validated: map<RegistrationField, string>)
    returns (r: Result<UserId, CreateUserError>)
    requires db.Valid()
    requires validated.Keys == {EmailField, FirstNameField, LastNameField, PasswordField, PasswordConfirmField}
    modifies db
    ensures db.Valid()
    ensures (&& validated[EmailField] != "" && validated[FirstNameField] != "" && validated[LastNameField] != ""
             && !EmailTaken(old(db.users), ManagerEmail(validated[EmailField]))) ==> r.Ok?
    ensures r.Err? ==> db.Snapshot() == old(db.Snapshot())
    ensures r.Ok? ==>
              && r.value == old(db.nextUserId)
              && db.users == old(db.users)[r.value := User(r.value, ManagerEmail(validated[EmailField]),
                                                         Strip(validated[FirstNameField]), Strip(validated[LastNameField]),
                                                         UsablePassword(validated[PasswordField]), false, false, true)]
              && db.nextUserId == old(db.nextUserId) + 1
              && db.events == old(db.events) && db.nextEventId == old(db.nextEventId)
  {
    var kwargs := validated - {PasswordConfirmField};
    r := db.CreateUser(kwargs[EmailField], kwargs[FirstNameField], kwargs[LastNameField],
                       Some(kwargs[PasswordField]), ExtraFields(None, None, None));
  }

  // ------------------------------------------------------------ login

  datatype LoginField = LoginEmail | LoginPassword

  datatype LoginError =
    | LoginFieldErrors(errors: map<LoginField, FieldError>)
    | BothRequired        // "Both email and password are required."
    | InvalidCredentials  // "Invalid email or password."
    | AccountDisabled     // "User account is disabled."

  /** The default ModelBackend's user lookup: the user whose email equals the
      given one exactly (the highest id below n, if several). */
  function FindUserByEmail(users: map<UserId, User>, email: string, n: nat): (r: Option<UserId>)
    ensures r.Some? ==> r.value in users && users[r.value].email == email && r.value < n
    ensures r.None? ==> forall k :: k in users && k < n ==> users[k].email != email
  {
    if n == 0 then None
    else if n - 1 in users && users[n - 1].email == email then Some(n - 1)
    else FindUserByEmail(users, email, n - 1)
  }

  /** `authenticate(username=email, password=...)` with the ModelBackend: the
      matching user, when the password checks and the account is active
      (inactive users are refused by the backend itself). */
  function Authenticate(t: Tables, email: string, password: string): (r: Option<UserId>)
    ensures r.Some? ==> r.value in t.users && t.users[r.value].email == email
                        && t.users[r.value].credential == UsablePassword(password) && t.users[r.value].isActive
  {
    var k := FindUserByEmail(t.users, email, t.nextUserId);
    if k.Some? && t.users[k.value].credential == UsablePassword(password) && t.users[k.value].isActive then k
    else None
  }

  /** `LoginSerializer(data=...).is_valid()`: both fields are parsed as
      CharFields, then validate() lower-cases the email and authenticates. */
  function Login(t: Tables, email: Option<string>, password: Option<string>): (r: Result<UserId, LoginError>)
    ensures r.Ok? ==> email.Some? && password.Some? && r.value in t.users && t.users[r.value].isActive
                      && t.users[r.value].email == Lower(Strip(email.value))
                      && t.users[r.value].credential == UsablePassword(Strip(password.value))
                      && Strip(email.value) != "" && Strip(password.value) != ""
    ensures email.None? || password.None? ==> r.Err? && r.error.LoginFieldErrors?
    ensures email.Some? && Strip(email.value) == "" ==> r.Err? && r.error.LoginFieldErrors?
    ensures password.Some? && Strip(password.value) == "" ==> r.Err? && r.error.LoginFieldErrors?
  {
    match (CharField(email, None, 0), CharField(password, None, 0))
    case (Err(e), Err(pe)) => Err(LoginFieldErrors(map[LoginEmail := e, LoginPassword := pe]))
    case (Err(e), Ok(_)) => Err(LoginFieldErrors(map[LoginEmail := e]))
    case (Ok(_), Err(pe)) => Err(LoginFieldErrors(map[LoginPassword := pe]))
    case (Ok(e), Ok(pw)) =>
      StripOfUnpadded(e);
      var normalized := Lower(Strip(e));
      if normalized == "" || pw == "" then Err(BothRequired)
      else
        match Authenticate(t, normalized, pw)
        case None => Err(InvalidCredentials)
        case Some(user) => if !t.users[user].isActive then Err(AccountDisabled) else Ok(user)
  }

  /** The "both required" and "account disabled" answers of validate() are
      never given: the fields already refuse blanks, and the backend already
      refuses an inactive user as invalid credentials. */
  lemma LoginUnreachableErrors(t: Tables, email: Option<string>, password: Option<string>)
    ensures Login(t, email, password) != Err(BothRequired)
    ensures Login(t, email, password) != Err(AccountDisabled)
  {
    var e := CharField(email, None, 0);
    if e.Ok? {
      StripOfUnpadded(e.value);
      assert |Lower(Strip(e.value))| == |e.value| > 0;
    }
  }

  /** A stored, active user logs in with any email that lower-cases and trims
      to theirs and with the password they set (as the field trims it). */
  lemma StoredUserCanLogIn(t: Tables, k: UserId, email: string, password: string)
    requires TablesValid(t)
    requires k in t.users && t.users[k].isActive
    requires t.users[k].email == Lower(Strip(email)) && Strip(email) != "" && NULL !in Strip(email)
    requires t.users[k].credential == UsablePassword(Strip(password)) && Strip(password) != "" && NULL !in Strip(password)
    ensures Login(t, Some(email), Some(password)) == Ok(k)
  {
    var f := FindUserByEmail(t.users, Lower(Strip(email)), t.nextUserId);
    assert f.Some?;
    assert f.value == k;
  }

  /** Login fails when no active user has that email and password. */
  lemma LoginNeedsMatchingUser(t: Tables, email: string, password: string)
    requires forall k :: k in t.users ==> !(t.users[k].email == Lower(Strip(email))
                                            && t.users[k].credential == UsablePassword(Strip(password))
                                            && t.users[k].isActive)
    ensures Login(t, Some(email), Some(password)).Err?
  {
  }

  // ------------------------------------------------------------ output

  /** UserProfileSerializer (without `date_joined`). */
  datatype Profile = Profile(id: UserId, email: string, firstName: string, lastName: string, fullName: string)

  /** EventListSerializer's row. */
  datatype EventRow = EventRow(id: EventId, title: string, dateTime: Time, location: string,
                               isUpcoming: bool, isPast: bool, createdAt: Time)

  /** PublicEventSerializer's fields: no owner identity beyond the organiser's name. */
  datatype PublicEvent = PublicEvent(id: EventId, title: string, dateTime: Time, location: string,
                                     description: Option<string>, organizerName: string)

  function ProfileOf(u: User): (r: Profile)
    ensures r.id == u.id && r.email == u.email && Unpadded(r.fullName)
  {
    Profile(u.id, u.email, u.firstName, u.lastName, FullName(u))
  }

  function RowOf(e: Event, now: Time): (r: EventRow)
    ensures r.id == e.id && r.createdAt == e.createdAt
    ensures !(r.isUpcoming && r.isPast)
    ensures r.dateTime == now ==> !r.isUpcoming && !r.isPast
  {
    EventRow(e.id, e.title, e.dateTime, e.location, IsUpcoming(e, now), IsPast(e, now), e.createdAt)
  }

  function Rows(s: seq<Event>, now: Time): (r: seq<EventRow>)
    ensures |r| == |s|
    ensures forall i :: 0 <= i < |s| ==> r[i] == RowOf(s[i], now)
  {
    seq(|s|, i requires 0 <= i < |s| => RowOf(s[i], now))
  }

  function PublicView(e: Event, owner: User): (r: PublicEvent)
    ensures Unpadded(r.organizerName)
  {
    PublicEvent(e.id, e.title, e.dateTime, e.location, e.description, FullName(owner))
  }

  /** The public view reveals nothing but its six fields: events that agree on
      them, with organisers of the same full name, look the same, whatever
      their owners' emails, their share ids and their timestamps. */
  lemma PublicViewRevealsOnlyItsFields(e1: Event, u1: User, e2: Event, u2: User)
    requires e1.id == e2.id && e1.title == e2.title && e1.dateTime == e2.dateTime
    requires e1.location == e2.location && e1.description == e2.description
    requires FullName(u1) == FullName(u2)
    ensures PublicView(e1, u1) == PublicView(e2, u2)
  {
  }
}

# eventhive: a verified model of the event tracker's core

eventhive is a small Django / Django REST Framework service. Users register with an email
address, log in, and keep a private calendar of events. Each event has a title, a date, a
location and an optional description. A user can publish an event through a share link that
anyone can open. This project models the two parts of that service that carry its
guarantees, and proves properties of the model in Dafny:

* **The owner-scoped event store.** The tables are a users map and an events map, each with
  its id counter; they live in a `Database` class whose methods change them.
  - Every event endpoint works on the requester's own events, so another user's event is
    *not found*.
  - Writes also pass the `IsOwnerOrReadOnly` permission.
  - A share id is assigned at most once. The public lookup by share id ignores ownership.
  - The dashboard counts a user's events before and after a supplied `now`.
* **Validation and normalisation.** These are the model-level and serializer-level rules:
  - event titles and locations are trimmed and have minimum lengths;
  - a new event may not be dated in the past;
  - emails are lower-cased and trimmed, and unique ignoring case;
  - the registration password and its confirmation must match;
  - the names are required;
  - create_superuser enforces its two flags;
  - login authenticates with the default model backend.

Modules, one per source file, plus three of shared vocabulary:

| file | module | what it holds |
|---|---|---|
| wrappers.dfy | Wrappers | `Option`, `Result` |
| text.dfy | Text | Python's `str.strip()` (all `str.isspace()` characters) and ASCII `str.lower()`, with their algebra |
| uuid.dfy | Uuids | share ids: the `str(uuid)` text form, and the parse `uuid.UUID(hex=...)` applies to a path segment, with `int(..., 16)`'s grammar |
| models.dfy | Models | the `User` and `Event` rows, `User.save`, `Event.clean`, `full_clean()`, the in-memory instances, the `Database` class and its invariant |
| queries.dfy | Queries | the event manager's filters and orderings as first-order data, selection in id order, a stable insertion sort, counts |
| serializers.dfy | Serializers | DRF field parsing, the `validate_*` hooks, registration, login, event create/update, the output projections |
| views.dfy | Views | permission, `get_queryset`, `get_object`, the list/upcoming/past views, the share link and its public lookup, the dashboard, the write endpoints, registration |

Conventions:
- Instants are integers.
- `timezone.now()` is a parameter `now`, and `uuid.uuid4()` is a parameter `newShareId`.
- Password hashing is not modelled: a stored credential is the raw password, and checking
  it is equality.
- Django's password validators are a caller-supplied predicate `passwordAccepted`.
- A request body is a record of `Option` fields, where `None` means that key is absent.
- Read-only endpoints are functions of a `Tables` value, which is a snapshot of the
  database. Endpoints that write are methods that modify the `Database`. Each writing
  method states the whole new state and keeps the table invariant `Database.Valid()`.

The table invariant (`Models.TablesValid`) holds, for all tables:
- keys match ids and are below the counters;
- emails are unique ignoring case (`unique_lower_email`);
- every event's owner exists;
- every stored event is trimmed and meets its column validators;
- share ids are unique.

Where the application's documentation and its code differ, the model follows the code:
- `EventViewSet.create` overrides `ModelViewSet.create` and never calls `perform_create`.
  The owner is set by `EventSerializer.create` instead (`Views.CreateEvent`).
- `LoginSerializer.validate` can never answer "both required" or "account disabled"
  (`Serializers.LoginUnreachableErrors`).
  - DRF's CharField refuses blank fields first.
  - Django's `ModelBackend` refuses an inactive user as invalid credentials.
- `save(update_fields=['share_id'])` writes only the share id, so generating a link does
  not touch `updated_at`.
- `Event.save` re-raises under the name `ValidationError`, which models.py never imports.
  There, a failed `full_clean()` becomes a `NameError` instead. Either way the API answers
  500, which is how `generate_share_link` reports a clashing share id (`Views.GenerateShareLink`).

## Model

| member | source | states |
|---|---|---|
| Text.StripLeft | backend/events/models.py:159 | no longer than the input; the first kept character is not whitespace; what was cut off is all whitespace |
| Text.StripLeftSuffix | backend/events/models.py:159 | what the left strip keeps is a suffix of the input |
| Text.StripRight | backend/events/models.py:159 | the result is a prefix of the input; its last character is not whitespace; what was cut off is all whitespace |
| Text.Lower | backend/events/models.py:159 | same length as the input; each character is its ASCII lower-case |
| Text.Strip | backend/events/models.py:157-165 | `str.strip()`: never longer than its input, with no whitespace at either end; StripShape and StripEmptyIff say what is removed |
| Text.StripShape | backend/events/models.py:317-318 | `strip()` returns a contiguous piece of its input with no whitespace at either end; everything cut off on either side is whitespace |
| Text.StripIsUnpadded | backend/events/models.py:317-318 | what `strip()` returns has no whitespace at either end |
| Text.StripLeftOfUnpadded | backend/events/models.py:159 | the left strip leaves a string that starts with a non-space character unchanged |
| Text.StripRightOfUnpadded | backend/events/models.py:159 | the right strip leaves a string that ends with a non-space character unchanged |
| Text.StripOfUnpadded | backend/events/models.py:162-165 | `strip()` leaves a string with no surrounding whitespace unchanged |
| Text.StripIdempotent | backend/events/models.py:162-165 | stripping twice equals stripping once |
| Text.StripEmptyIff | backend/events/models.py:317-322 | `strip()` gives the empty string if and only if the input is all whitespace |
| Text.LowerCharIdempotent | backend/events/models.py:159 | lower-casing a character twice equals doing it once |
| Text.LowerIdempotent | backend/events/models.py:159 | `lower()` twice equals `lower()` once |
| Text.LowerCharKeepsSpace | backend/events/models.py:159 | lower-casing neither creates nor removes whitespace |
| Text.StripLeftLower | backend/events/models.py:159 | the left strip and `lower()` commute |
| Text.StripRightLower | backend/events/models.py:159 | the right strip and `lower()` commute |
| Text.StripLowerCommute | backend/events/models.py:38 | `x.strip().lower() == x.lower().strip()`: the manager's order and `User.save`'s order agree |
| Uuids.Hex | backend/events/views.py:198 | exactly k characters, each a hex digit, never a hyphen or a brace |
| Uuids.HexValue | backend/events/views.py:276 | the value of a run of ASCII hex digits of either case, the digit reading inside `int(..., 16)`: a value exactly when every character is such a digit, with as many hex digits as the string |
| Uuids.HexRoundTrip | backend/events/views.py:198 | reading back the k hex digits of n gives n |
| Uuids.DropChar | backend/events/views.py:276 | `replace(c, '')` never lengthens the string |
| Uuids.DropCharKeeps | backend/events/views.py:276 | removing one character keeps every other character of the string |
| Uuids.RemoveAll | backend/events/views.py:276 | `str.replace(pat, '')` never lengthens its input; RemoveAllLeading, RemoveAllAbsent and RemoveAllKeeps say what it removes and keeps |
| Uuids.RemoveAllAbsent | backend/events/views.py:276 | `replace('urn:', '')` and `replace('uuid:', '')` leave text alone that lacks some character of the pattern |
| Uuids.RemoveAllLeading | backend/events/views.py:276 | a leading `urn:` or `uuid:` is removed |
| Uuids.RemoveAllKeeps | backend/events/views.py:276 | removing a pattern keeps every character the pattern does not hold |
| Uuids.TrimIntSpace | backend/events/views.py:276 | what `int()` skips around the number is gone from both ends, and nothing longer is made |
| Uuids.IntHex | backend/events/views.py:276 | `int(..., 16)`: a number only from text that is not blank once the skipped whitespace is gone, and a negative one only after a `-` sign; IntHexOfDigits and IntHexRejects give its value and its refusals |
| Uuids.StripBraces | backend/events/views.py:276 | removing the braces never lengthens the string |
| Uuids.Format | backend/events/views.py:198 | the text form of a share id is 36 characters long |
| Uuids.FormatHasNoBraces | backend/events/views.py:198 | the text form starts and ends with a hex digit, so the brace strip leaves it alone |
| Uuids.FormatDigits | backend/events/views.py:198 | dropping the hyphens of the 8-4-4-4-12 form leaves the 32 hex digits |
| Uuids.Parse | backend/events/views.py:276 | `uuid.UUID(hex=...)` after `urn:`/`uuid:` removal, the brace strip and the hyphen drop: a UUID only when that text has 32 characters and `int(..., 16)` reads it |
| Uuids.IntHexOfDigits | backend/events/views.py:276 | `int(..., 16)` reads k plain hex digits of n as n |
| Uuids.IntHexRejects | backend/events/views.py:276 | `int(..., 16)` refuses text with a character outside its grammar |
| Uuids.FormatParseRoundTrip | backend/events/views.py:198-206 | the share id handed out parses back to the same UUID |
| Uuids.FormatInjective | backend/events/models.py:234-239 | distinct share ids have distinct text forms |
| Uuids.ParseRejectsShort | backend/events/views.py:276 | a segment shorter than 32 characters is never a share id |
| Uuids.ParseUrnForm | backend/events/views.py:276 | the `urn:uuid:` form of a share id names the same UUID |
| Uuids.ParseLenientForms | backend/events/views.py:276 | 31 hex digits after a space or a plus sign, or 30 after `0x`, name the UUID of those digits |
| Uuids.ParseRejectsForeignChar | backend/events/views.py:276 | a segment holding a character that `int()` cannot read and the prefix, brace and hyphen removals cannot take away is, in the model, never a share id |
| Models.NormalizeEmail | backend/events/models.py:157-159 | the email `User.save` stores is never longer, and is empty exactly when the input was all whitespace; NormalizedEmailShape gives its shape |
| Models.NormalizeName | backend/events/models.py:161-165 | a name `User.save` stores is never longer and has no surrounding whitespace, and it is empty exactly when the input was all whitespace |
| Models.LowerKeepsAllSpace | backend/events/models.py:157-159 | lower-casing keeps a string all whitespace exactly when it was |
| Models.NormalizedEmailShape | backend/events/models.py:157-159 | the email `User.save` stores is trimmed and lower-case |
| Models.SaveNormalisationIdempotent | backend/events/models.py:157-165 | normalising a normalised email or name again changes nothing |
| Models.ManagerEmailIsSaved | backend/events/models.py:38 | what create_user computes for the email is already the form `User.save` leaves |
| Models.ManagerEmail | backend/events/models.py:38 | the manager's email is a fixed point of `User.save`'s normalisation and already lower-case |
| Models.ManagerEmailIdempotent | backend/events/models.py:38 | normalising the manager's email twice equals normalising it once |
| Models.TrimmedNameIsSaved | backend/events/models.py:43-44 | a trimmed name is what `User.save` leaves |
| Models.FullName | backend/events/models.py:131-138 | `get_full_name` has no whitespace at either end and is at most the two names and a space long |
| Models.FullNameOfTrimmedNames | backend/events/models.py:131-138 | for trimmed non-empty names the full name is exactly "first last" |
| Models.FullNameWithoutLastName | backend/events/models.py:131-138 | with an empty last name the full name is the first name alone |
| Models.SuperuserExtras | backend/events/models.py:57-63 | accepted if and only if neither flag is explicitly false; then both flags are true; otherwise the matching error, with is_staff checked first |
| Models.UserInstance.constructor | backend/events/models.py:41-46 | `self.model(email=..., first_name=..., last_name=...)` holds exactly the given values, before any save |
| Models.UserInstance.Save | backend/events/models.py:157-165 | the email becomes its lower-cased trimmed form and each name its trimmed form, each only when non-empty |
| Models.SaveNewUser | backend/events/models.py:38-50 | the saved instance holds the manager's email and the trimmed names: `User.save`'s second normalisation changes nothing |
| Models.IsUpcoming | backend/events/models.py:286-293 | `is_upcoming` compares strictly: an event dated exactly `now` is not upcoming |
| Models.IsPast | backend/events/models.py:295-302 | `is_past` compares strictly, and a past event is never upcoming; the `date_time and` guard always holds, the column being non-null |
| Models.UpcomingPastExclusive | backend/events/models.py:286-302 | an event is never both upcoming and past; it is neither if and only if it is dated exactly `now` |
| Models.TitleValidators | backend/events/models.py:205-211 | the title column accepts if and only if its length is 3 to 200 |
| Models.LocationValidators | backend/events/models.py:219-224 | the location column accepts if and only if its length is at least 5 |
| Models.CleanVerdict | backend/events/models.py:304-340 | clean() passes exactly when neither title nor location is non-empty and all whitespace, and the event is not a new one dated before `now` |
| Models.CleanRefusesWhitespaceTitle | backend/events/models.py:317-322 | clean() refuses the title if and only if it is non-empty and all whitespace |
| Models.CleanDateOnlyForNew | backend/events/models.py:331-341 | clean() never refuses an existing event on its date; it refuses a new one on its date if and only if it is before `now` |
| Models.FieldErrors | backend/events/models.py:205-224 | `clean_fields()` reports nothing if and only if the title has 3 to 200 characters and the location at least 5, and it reports only those two columns |
| Models.FullCleanAsWritten | backend/events/models.py:343-355 | full_clean() as written accepts if and only if clean() and the column validators accept the untrimmed values, and then stores the trimmed ones (see Findings) |
| Models.FullCleanAsWrittenStoresShortTitle | backend/events/models.py:205-211 | as written, a title of "  a  " is accepted and stored as "a", which its own column refuses |
| Models.FullClean | backend/events/models.py:304-355 | on success the stored values are the trimmed inputs and meet both columns' validators; success if and only if clean() and the columns accept the trimmed values |
| Models.FullCleanAgreesOnTrimmedInput | backend/events/models.py:304-355 | on already-trimmed input, the written order and the corrected order agree |
| Models.StoredRowPassesFullClean | backend/events/models.py:331-341 | a stored row with a primary key passes full_clean() again unchanged, whatever `now` is |
| Models.EventInstance.New | backend/events/models.py:196-258 | a new instance has no primary key and no share id, and holds the given fields |
| Models.EventInstance.Load | backend/events/models.py:196-258 | a loaded instance has the row's id as its primary key and holds exactly the row |
| Models.EventInstance.Clean | backend/events/models.py:304-341 | the verdict is clean()'s; the title is left trimmed; the location is trimmed unless the title was refused first |
| Models.EventInstance.FullCleanInPlace | backend/events/models.py:343-355 | runs clean_fields() on the fields as they stand and then clean(): no errors if and only if `FullCleanAsWritten` accepts, and then the fields are its values; an already-trimmed instance is left unchanged |
| Models.InsertUserKeepsValid | backend/events/models.py:113-120 | inserting a user whose email no stored user has, ignoring case, keeps the table invariant |
| Models.InsertEventKeepsValid | backend/events/models.py:343-355 | inserting a cleaned, unshared event for a stored owner under the next id keeps the invariant |
| Models.ReplaceEventKeepsValid | backend/events/models.py:234-239 | rewriting an event keeps the invariant when the share id is unchanged or carried by no other event |
| Models.RemoveEventKeepsValid | backend/events/models.py:242-247 | deleting an event keeps the invariant |
| Models.Database.constructor | backend/events/models.py:196-258 | the empty database satisfies the invariant |
| Models.Database.CreateUser | backend/events/models.py:25-51 | each empty required field gives its error, in order; a clash of lower-cased emails gives DuplicateEmail, otherwise success; on success exactly one row is added holding the lower-cased trimmed email, the trimmed names and the flags; on failure nothing changes |
| Models.Database.CreateSuperuser | backend/events/models.py:53-65 | a flag explicitly false gives its error with no change; a created superuser has both flags set and is a new row under the next user id, the only row added |
| Queries.Select | backend/events/models.py:187-189 | exactly the stored rows below the counter that match the filter, in strictly increasing id order |
| Queries.Insert | backend/events/models.py:181 | inserting adds exactly that row to the multiset of rows |
| Queries.InsertSorted | backend/events/models.py:181 | inserting into a sorted sequence keeps it sorted |
| Queries.SortBy | backend/events/models.py:264 | the result is sorted by the key and is a permutation of the input |
| Queries.Query | backend/events/models.py:179-193 | exactly the matching rows, each once and no two with the same id, sorted by the ordering |
| Queries.OnceMeansDistinct | backend/events/models.py:179-193 | a queryset holding each row once has no repeated entry |
| Queries.Take | backend/events/views.py:316 | `[:k]` is the first min(k, length) rows |
| Queries.QueryCountIndependentOfOrder | backend/events/views.py:303-313 | the number of rows a query returns does not depend on its ordering |
| Queries.Count | backend/events/views.py:303-313 | the number of matches among n ids is at most n, and 0 when none of them is stored |
| Queries.CountIsSelectLength | backend/events/views.py:303-313 | the aggregate count equals the number of rows the filter selects |
| Queries.WindowsPartition | backend/events/views.py:303-313 | for any owner, the all-time count is the after-now count plus the before-now count plus the at-now count |
| Queries.SelectCountStep | backend/events/views.py:303-313 | scanning one more id adds one row exactly when that row matches |
| Queries.Upcoming | backend/events/models.py:179-181 | exactly the events after `now`, each once, soonest first |
| Queries.Past | backend/events/models.py:183-185 | exactly the events before `now`, each once, most recent first |
| Queries.ForUser | backend/events/models.py:187-189 | exactly that user's events, each once, in the default date order |
| Queries.UpcomingForUser | backend/events/models.py:191-193 | exactly that user's events after `now`, each once, soonest first |
| Queries.UpcomingForUserIsUpcomingOwned | backend/events/models.py:179-193 | a user's upcoming events are exactly the upcoming events they own, and exactly their events that are upcoming |
| Serializers.CharField | backend/events/serializers.py:28-38 | accepts if and only if the key is present and the trimmed value is non-empty, within the limits and free of U+0000; the value is the trimmed input; absent gives Required, all whitespace gives Blank |
| Serializers.CharFieldIdempotent | backend/events/serializers.py:28-38 | a parsed value parses to itself |
| Serializers.ValidateTitle | backend/events/serializers.py:137-148 | accepts if and only if the trimmed title has at least 3 characters, and returns it; all whitespace gives Blank |
| Serializers.ValidateLocation | backend/events/serializers.py:150-161 | accepts if and only if the trimmed location has at least 5 characters, and returns it; all whitespace gives Blank |
| Serializers.ValidateTitleLocationIdempotent | backend/events/serializers.py:137-161 | validating a validated title or location again gives the same answer |
| Serializers.ValidateDateTime | backend/events/serializers.py:125-135 | accepts if and only if there is an instance or the date is not before `now`; the value is unchanged; a refusal is InPast |
| Serializers.TitleInput | backend/events/serializers.py:137-148 | accepts if and only if the title is absent on a partial update, or has 3 to 200 characters and no U+0000 after trimming; gives the trimmed value |
| Serializers.LocationInput | backend/events/serializers.py:150-161 | accepts if and only if the location is absent on a partial update, or has at least 5 characters and no U+0000 after trimming; gives the trimmed value |
| Serializers.DateTimeInput | backend/events/serializers.py:125-135 | accepts if and only if the date is absent on a partial update, or present and allowed by validate_date_time; the value is unchanged |
| Serializers.DescriptionInput | backend/events/models.py:227-231 | the optional, nullable, blank-allowed description CharField: refused with NullCharacter exactly when the trimmed text holds U+0000; otherwise absent and null are kept and a string is trimmed |
| Serializers.EventErrors | backend/events/serializers.py:106-161 | no errors if and only if every field, the description included, passed; each of the four input fields has an entry exactly when it was refused, holding its own error, and no other field has one |
| Serializers.ValidateEvent | backend/events/serializers.py:106-161 | accepts if and only if the independent acceptance predicate holds; validated title and location are the trimmed inputs, the date is unchanged, the description trimmed; a missing required title, a blank title, a past date on create and a description holding U+0000 each give their error; a refusal answers exactly the field errors EventErrors builds from the four inputs |
| Serializers.ValidatedEventPassesFullClean | backend/events/serializers.py:163-167 | what the serializer accepts for a new event passes full_clean() unchanged |
| Serializers.CreateValidatedEvent | backend/events/serializers.py:163-167 | inserts exactly one event under the next id with the validated fields, no share id, the requesting user as owner and both timestamps `now`; users unchanged; invariant kept |
| Serializers.CleanNewEvent | backend/events/serializers.py:163-167 | the new instance after full_clean() is the validated row, trimmed and within its columns' limits |
| Serializers.ApplyUpdate | backend/events/serializers.py:106-123 | the update keeps the id, the owner, the share id and both timestamps; an empty update keeps the row |
| Serializers.SetValidatedAttributes | backend/events/serializers.py:106-123 | the instance becomes the stored row with exactly the submitted fields replaced |
| Serializers.ValidatedUpdatePassesFullClean | backend/events/serializers.py:106-161 | a stored row updated with what the serializer accepts still meets the columns and is trimmed |
| Serializers.ValidateEventIgnoresOwner | backend/events/serializers.py:123 | a `user` key in the body has no effect on validation |
| Serializers.EmailInput | backend/events/serializers.py:58-64 | accepts if and only if the field parses and no user has that email ignoring case; returns it lower-cased and trimmed; a clash gives NotUnique or EmailInUse |
| Serializers.PasswordInput | backend/events/serializers.py:28-33 | accepted if and only if the field parses with at least 8 characters and the password validators accept the trimmed value, which is returned; a rejection by the validators is PasswordRejected |
| Serializers.NameInput | backend/events/serializers.py:42-55 | a required name field: accepted if and only if present, not blank, at most 150 characters and free of U+0000 after trimming; the value is the trimmed input; absent gives Required, all whitespace gives Blank |
| Serializers.RegistrationErrors | backend/events/serializers.py:21-72 | no errors if and only if every field passed; each of the five fields has an entry exactly when it was refused, holding its own error |
| Serializers.ValidateRegistration | backend/events/serializers.py:21-80 | accepts if and only if the independent registration predicate holds; then the data is the normalised fields and the password is at least 8 characters; a missing email or a short password is refused on that field; a refusal answers exactly the per-field errors RegistrationErrors builds when some field failed, and otherwise only the Mismatch on `password_confirm` |
| Serializers.MismatchedConfirmation | backend/events/serializers.py:74-80 | when only the confirmation differs, the one error is on `password_confirm` |
| Serializers.CreateRegisteredUser | backend/events/serializers.py:82-89 | create_user receives the four fields without `password_confirm`; with non-empty fields and an unused email exactly the new ordinary, active user is added |
| Serializers.FindUserByEmail | backend/events/serializers.py:223 | finds a stored user with exactly that email, or there is none |
| Serializers.Authenticate | backend/events/serializers.py:223 | a result is a stored, active user with that email and that password |
| Serializers.Login | backend/events/serializers.py:212-235 | success means non-blank fields and an active stored user whose email is the lower-cased trimmed input and whose password matches; a missing or blank field is a field error |
| Serializers.LoginUnreachableErrors | backend/events/serializers.py:217-232 | the "both required" and "account disabled" answers are never given |
| Serializers.StoredUserCanLogIn | backend/events/serializers.py:212-235 | an active user logs in with their email in any case or padding, and with their password, when neither holds U+0000 |
| Serializers.LoginNeedsMatchingUser | backend/events/serializers.py:223-227 | without an active user with that email and password, login fails |
| Serializers.ProfileOf | backend/events/serializers.py:92-103 | `UserProfileSerializer` keeps the user's id and email, and its `full_name` has no surrounding whitespace |
| Serializers.PublicView | backend/events/serializers.py:188-199 | the organiser's name in the public view has no surrounding whitespace |
| Serializers.RowOf | backend/events/serializers.py:170-185 | an `EventListSerializer` row keeps the event's id and creation time; it is never flagged both upcoming and past, and an event dated `now` is flagged neither |
| Serializers.Rows | backend/events/serializers.py:170-185 | one list row per event, in the same order |
| Serializers.PublicViewRevealsOnlyItsFields | backend/events/serializers.py:188-199 | the public view depends only on its six fields: owner email, share id and timestamps are not revealed |
| Views.HasObjectPermission | backend/events/views.py:38-44 | safe methods are always allowed; any other method is allowed if and only if the requester owns the event |
| Views.GetQueryset | backend/events/views.py:137-144 | exactly the requester's events, each once, by date |
| Views.ScopedObjectsAlwaysPermitted | backend/events/views.py:130 | the object permission never refuses an event of the scoped set |
| Views.GetObject | backend/events/views.py:130-144 | anonymous gives Unauthenticated; otherwise found if and only if the requester owns that event, else NotFound; Forbidden is never given |
| Views.GetObjectInScope | backend/events/views.py:137-144 | what get_object() finds is in the scoped set |
| Views.ScopedRows | backend/events/views.py:157-183 | exactly the requester's events in the window, as list rows, in the ordering, as many as their count, no event listed twice |
| Views.List | backend/events/views.py:137-155 | authenticated only; exactly the requester's events, as list rows, by date, each once, as many as their count |
| Views.UpcomingView | backend/events/views.py:157-169 | authenticated only; exactly the requester's events after `now`, flagged upcoming, soonest first, each once, as many as their count |
| Views.UpcomingRowsFlagged | backend/events/views.py:157-169 | every row of the upcoming window is dated after `now`, flagged upcoming and not past |
| Views.PastView | backend/events/views.py:171-183 | authenticated only; exactly the requester's events before `now`, flagged past, most recent first, each once, as many as their count |
| Views.FindByShare | backend/events/views.py:276 | finds an event carrying that share id, or there is none |
| Views.PublicEventDetail | backend/events/views.py:266-286 | success if and only if the segment parses and some event carries that share id, then that event's public view; otherwise NotFound |
| Views.ShareLinkResolves | backend/events/views.py:205-206 | the link of a shared event leads to that event, whoever follows it |
| Views.RecentEvents | backend/events/views.py:316 | min(5, count) of the requester's events, as their rows, newest first by creation, no event twice; none left out is newer than one kept |
| Views.RecentCount | backend/events/views.py:316 | the `[:5]` slice of the newest-first queryset holds min(5, count) rows |
| Views.RecentMembers | backend/events/views.py:316 | that slice holds rows of the requester's events, newest first, and none of theirs left out is newer |
| Views.NewestFirstPrefix | backend/events/views.py:316 | the first k rows of a newest-first list are rows of it, newest first, and none left out is newer |
| Views.RecentAreNewest | backend/events/views.py:316 | an event that did not make the first rows is no newer than any of them |
| Views.DashboardStats | backend/events/views.py:289-323 | authenticated only; total is the scoped set's size and equals upcoming plus past plus those at `now`; upcoming and past are the sizes of those views; recent is exactly `Views.RecentEvents`: the min(5, total) newest of the requester's events, as their rows, with none left out newer |
| Views.DashboardEventsAtNow | backend/events/views.py:300-313 | upcoming plus past never exceeds total; the difference is exactly the number of events dated `now` |
| Views.CreateEvent | backend/events/views.py:219-232 | anonymous gives Unauthenticated; success if and only if the payload is valid, else the serializer's errors with no change; the new event is the trimmed payload (a description holding U+0000 is refused) owned by the requester, whatever the body says, under the next id; invariant kept |
| Views.UpdateEvent | backend/events/views.py:234-249 | get_object()'s error is passed on; otherwise success if and only if the payload is valid for an update (a description holding U+0000 is not), an invalid one answering 400 with the serializer's errors; exactly the one row changes: the submitted fields, trimmed, and `updated_at`; invariant kept |
| Views.SaveUpdate | backend/events/views.py:244 | the stored row is rewritten with the update applied and `updated_at` set; nothing else changes |
| Views.CleanUpdated | backend/events/views.py:244 | full_clean() passes the updated instance unchanged and `updated_at` is stamped |
| Views.DestroyEvent | backend/events/views.py:251-263 | get_object()'s error is passed on with no change; otherwise exactly the target is removed, every other event is kept, and the message names its title |
| Views.GenerateShareLink | backend/events/views.py:185-213 | an event already shared answers its share id with no change; otherwise a free fresh id is set on that event alone, and a used one answers 500 with no change; the answered id resolves through the public lookup to the event |
| Views.SaveShareId | backend/events/views.py:196-203 | saved if and only if no event carries the fresh id; only that event's share id column is written |
| Views.CleanWithShareId | backend/events/views.py:198-199 | full_clean() passes the stored row with the fresh share id unchanged |
| Views.RegisterUser | backend/events/views.py:72-100 | success if and only if the registration is valid, else the serializer's errors with no change; the new user holds the lower-cased trimmed email, the trimmed names and the password; the answer is their profile; they can log in at once with what they registered |

## Left out

- JWT issuance and refresh (`RefreshToken.for_user`, `CustomTokenObtainPairView`'s response): the simplejwt library is not part of this model; login ends at the authenticated user.
- `user_profile` and `health_check`: they hold no logic beyond `UserProfileSerializer` (modelled as `ProfileOf`) and a constant answer.
- Password hashing: `set_password` stores the raw password and `check_password` is equality; `validate_password` is the parameter `passwordAccepted`.
- ORM and DRF plumbing: `select_related`, indexes, the filter, search and ordering backends (`filterset_fields`, `search_fields`, `ordering_fields` query parameters), pagination, and `build_absolute_uri` (the share answer is the share id text, not the URL).
- Rows with equal sort keys keep ascending id order (a stable sort over an id-ordered scan); the database promises no particular order for ties.
- Time: `timezone.now()` is one `now` per request, although the source calls it several times; DRF's DateTimeField parsing and time zones are not modelled, instants being integers.
- `uuid.uuid4()` is the parameter `newShareId`; its randomness is not modelled, and a collision is modelled as the 500 answer.
- Text.Lower: `str.lower()` is modelled on ASCII letters only; Unicode case mapping is not.
- Email: the format check of `EmailField` is not modelled, only its 254-character limit.
- Uuids.Parse: `int(..., 16)` also reads every non-ASCII Unicode decimal digit (a fullwidth `１` as 1); the model refuses them, so Views.PublicEventDetail answers NotFound to a share id written with such digits, which the source resolves. The rest of `int()`'s grammar (surrounding whitespace, a sign, `0x`, underscores) and the removal of `urn:` and `uuid:` anywhere in the segment are modelled; integer input to `uuid.UUID` does not arise for a path segment.
- Uuids.HexValue: reads ASCII hex digits only; the non-ASCII decimal digits that `int()` also reads are not modelled (see Uuids.Parse).
- Serializers.CharField: DRF's ProhibitSurrogateCharactersValidator is not modelled, because a Dafny string cannot hold a lone surrogate.
- Field errors: DRF may report several messages for one field; the model keeps the first.
- `UserProfileSerializer.date_joined` and `User.Meta.ordering` are not modelled.
- `perform_create`: `create` overrides it, so it is never reached; its effect is part of `Views.CreateEvent`.
- Views.RegisterUser: the 500 answer `RegistrationFailed` is unreachable in the model. The only failure of create_user after validation is a duplicate email, which validation has already refused; concurrent registrations are not modelled.
- Concurrency and transactions: all operations are sequential.
- Database ids come from counters that never reuse a deleted id.
- Rows written outside the modelled endpoints (a direct ORM save, the admin, a migration) are assumed to meet the table invariant, which every writing method requires. The model cannot hold a row that breaks it. An example is the title `"a"` that `Models.FullCleanAsWrittenStoresShortTitle` shows an ORM save can store. On such a row the source's update and share-link paths answer 500, because `clean_fields()` refuses the stored title; that answer is not modelled.
- `runproject.py`, `forms.py`, `admin.py` and the URL configurations are not part of this model (process launching, widgets and routing).
- Models.Database.CreateSuperuser: states the two flags, that the new row is filed under the next user id, which no row held, and that nothing else changes; the row's other fields are not restated here, being those `Models.Database.CreateUser` states.

## Findings

| source | as written | input that shows it | evidently intended | confidence | as-written member | corrected member |
|---|---|---|---|---|---|---|
| backend/events/models.py:343-355 | `save()` calls `full_clean()`, which runs the column validators (`MinLengthValidator(3)` on the title, line 209) on the untrimmed value before `clean()` trims it (lines 317-318) | an event saved through the ORM with title `"  a  "` and location `"Annex"`: five characters pass the length check, and `"a"` is stored | the stored title meets its own column's minimum length, so trimming happens before the validators | not executed | Models.FullCleanAsWrittenStoresShortTitle | Models.FullClean |

`Models.EventInstance.FullCleanInPlace` runs the order as written. Every save the API performs hands it values the serializer has already trimmed, where the two orders agree (`Models.FullCleanAgreesOnTrimmedInput`, invoked at each call site), so the rows the API stores meet the corrected contract of `Models.FullClean`.

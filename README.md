# django-guest-urls: guest links and the usage argument, in Dafny

This project models the two pieces of logic at the heart of django-guest-urls.

- **The guest link** (`GuestUrl`). A link proxies a source URL. It may carry a use limit (`max_uses`; any negative value means unlimited, and the default is -1) and an optional expiry instant.
  - `has_expired`, `is_valid` and `can_be_used` classify a link.
  - `save` stamps `created_at` once and `last_updated_at` on every save.
  - `process_request` checks, in order, that the request is a GET, that the link has not expired and that its use limit is not reached. Only then does it call the view behind the link, count the use and save.
  - The manager's `create_guest_url` builds a link with the field defaults and saves it unless told not to.
- **The `guest_url` template filter**. It turns a source URL and one free-text usage argument into a new, saved link:
  - the argument is split on commas;
  - pieces that are empty before stripping are dropped, and the rest are stripped;
  - three or more arguments are refused;
  - each argument is read first as an integer (the use limit), then as a date (the expiry), and is otherwise refused.

Modules:

- `Wrappers` (wrappers.dfy): `Option` and `Result`. They stand in for Python's `None` and for raised exceptions.
- `Instants` (instants.dfy): the `Instant` type and its units.
- `Models` (models.dfy): `GuestUrl` is a class whose methods update its fields. The clock is never read: each operation that reads `now()` takes the reading as a parameter. The view is a function from request to response. A save is modelled by its timestamps and a count of saves.
- `PyBuiltins` (builtins.dfy): the Python built-ins the filter relies on.
  - `str.split`;
  - `str.strip`, with Python 3's whitespace set (the built-ins follow Python 3's `str`);
  - `int()` on strings: surrounding whitespace, an optional sign, ASCII digits.
- `IsoDates` (iso_dates.dfy): a restricted date recogniser. It accepts `YYYY-MM-DD` and `YYYY-MM-DD HH:MM`, checks the proleptic Gregorian calendar and reads the time in a fixed UTC offset.
- `GuestUrlTags` (guest_url_tags.dfy): the filter.
  - The date recogniser (`try_parse_date`) is a parameter of type `string -> Option<Instant>`.
  - `ParseUsage` is the pure specification of what the filter does with its argument.
  - `ReadArguments` and `GuestUrlFilter` are the imperative loop and the filter, proved against `ParseUsage`.
  - The scenarios of the template-filter tests are proved with `IsoDates` read in UTC, the time zone of the test settings.

An instant is an integer number of microseconds since 1970-01-01T00:00 UTC, the resolution of Python's `datetime`, so a clock reading 30 seconds past an expiry instant is already past it.

Two behaviours of the code are worth noting:

- The code drops a piece when it is empty *before* stripping. A blank piece such as `" "` therefore survives as the argument `""` and is refused as unparseable (`BlankPieceRefused`). It is not dropped.
- The code accepts any integer as a use limit. `"-5"` sets `max_uses` to -5, which `is_valid` treats as unlimited like -1. Nothing keeps `max_uses` to -1 or a non-negative value.

## Model

| member | source | states |
|---|---|---|
| Models.GuestUrl.constructor | django-guest-urls/guest_urls/models.py:77-84 | a new link has the given URL, expiry and limit, no uses, no timestamps and no save |
| Models.GuestUrl.HasExpired | django-guest-urls/guest_urls/models.py:95-97 | never expired without an expiry; not expired while the clock is at or before the expiry instant, the instant itself included; expired once the clock is strictly past it |
| Models.GuestUrl.IsValid | django-guest-urls/guest_urls/models.py:99-102 | any negative limit means valid whatever the count; a count below the limit means valid; a non-negative limit already reached means invalid |
| Models.GuestUrl.CanBeUsed | django-guest-urls/guest_urls/models.py:104-107 | usable exactly when the limit is negative or not reached, and there is no expiry or the clock is not past it |
| Models.GuestUrl.Save | django-guest-urls/guest_urls/models.py:113-119 | `createdAt` is set only when unset; `lastUpdatedAt` is always the new reading; one more save; with a non-decreasing clock, created never follows last-updated |
| Models.GuestUrl.ProcessRequest | django-guest-urls/guest_urls/models.py:135-160 | a non-GET is refused first, then an expired link (even an exhausted one), then an invalid one; it succeeds iff GET and usable; a failure leaves the record unchanged; a success returns the view's response, counts exactly one use and saves |
| Models.CreateGuestUrl | django-guest-urls/guest_urls/models.py:38-60 | a fresh link with the given URL, expiry and limit and no uses, saved once at `now` exactly when `save` is set |
| Models.LinkWorks | django-guest-urls/test_app/tests.py:20-31 | a new saved link has no uses; one GET returns the view's response and leaves the count at 1 |
| Models.SingleUseLink | django-guest-urls/guest_urls/models.py:151-158 | a single-use link serves one GET and refuses the next as invalid |
| Models.ExhaustAfterN | django-guest-urls/guest_urls/models.py:151-158 | a link limited to `n` uses serves exactly `n` GETs, at any clock readings, and refuses the next as invalid |
| Models.ExpiryScenarios | django-guest-urls/guest_urls/models.py:151-154 | a link is served at its expiry instant; one microsecond later it is refused as expired, even when also used up |
| PyBuiltins.Split | django-guest-urls/guest_urls/templatetags/guest_url_tags.py:69 | `str.split` on one separator always gives at least one piece; `JoinSplit`, `SplitJoin` and `SplitPiecesAreFree` characterise it |
| PyBuiltins.Strip | django-guest-urls/guest_urls/templatetags/guest_url_tags.py:69 | `str.strip`; `StripSpec`, `StripIdempotent` and `StripUnchanged` characterise it |
| PyBuiltins.ParseInt | django-guest-urls/guest_urls/templatetags/guest_url_tags.py:78 | `int()` on a string; `ParseIntAccepts` says exactly what it accepts and `ParseIntOfStr` that it reads back every integer |
| PyBuiltins.SplitPiecesAreFree | django-guest-urls/guest_urls/templatetags/guest_url_tags.py:69 | no piece of a split contains the separator |
| PyBuiltins.JoinSplit | django-guest-urls/guest_urls/templatetags/guest_url_tags.py:69 | joining the pieces of a split gives back the string |
| PyBuiltins.SplitJoin | django-guest-urls/guest_urls/templatetags/guest_url_tags.py:69 | splitting a join of separator-free pieces gives back the pieces, empty ones included |
| PyBuiltins.StripSpec | django-guest-urls/guest_urls/templatetags/guest_url_tags.py:69 | a stripped string is a slice of the original with only whitespace cut on either side, and neither starts nor ends with whitespace |
| PyBuiltins.StripIdempotent | django-guest-urls/guest_urls/templatetags/guest_url_tags.py:69 | stripping twice strips nothing more |
| PyBuiltins.StripUnchanged | django-guest-urls/guest_urls/templatetags/guest_url_tags.py:69 | a non-empty string with no whitespace at either end strips to itself |
| PyBuiltins.ParseIntAccepts | django-guest-urls/guest_urls/templatetags/guest_url_tags.py:76-81 | `int` accepts a string exactly when, stripped, it is a sign or digit followed by digits, with at least one digit |
| PyBuiltins.ParseIntOfStr | django-guest-urls/guest_urls/templatetags/guest_url_tags.py:76-81 | `int` reads back every integer as `str` writes it |
| IsoDates.ParseIsoDate | django-guest-urls/guest_urls/templatetags/guest_url_tags.py:13-33 | only a well-formed `YYYY-MM-DD[ HH:MM]` string names an instant; `DateIsMidnight`, `DatesAreNotIntegers` and the month-end lemma characterise it |
| IsoDates.MonthEndIsFollowedByFirstOfNextMonth | django-guest-urls/guest_urls/templatetags/guest_url_tags.py:13-33 | the day numbering has no gap or overlap at month and year ends, leap Februaries included |
| IsoDates.DaysFromCivilOfJuly12th2014 | django-guest-urls/guest_urls/templatetags/guest_url_tags.py:13-33 | 2014-07-12 is day 16263 after 1970-01-01 |
| IsoDates.DateIsMidnight | django-guest-urls/guest_urls/templatetags/guest_url_tags.py:13-33 | a date alone names the same instant as that date at 00:00 |
| IsoDates.DatesAreNotIntegers | django-guest-urls/guest_urls/templatetags/guest_url_tags.py:76-91 | nothing the recogniser accepts is an integer, so trying integers first never hides a date |
| GuestUrlTags.UsageText | django-guest-urls/guest_urls/templatetags/guest_url_tags.py:69 | `usage or ""`: no argument reads as the empty text; `NoUsageScenarios` states the result |
| GuestUrlTags.Kept | django-guest-urls/guest_urls/templatetags/guest_url_tags.py:69 | the comprehension's filter and map, keeping pieces non-empty before stripping, stripped; `ArgumentsOfJoin` and `BlankPieceRefused` characterise it |
| GuestUrlTags.Arguments | django-guest-urls/guest_urls/templatetags/guest_url_tags.py:69 | the argument list; `ArgumentsOfJoin`, `ArgumentsOfPiece`, `ArgumentsOfPair` and `ArgumentsOfGappedPair` characterise it |
| GuestUrlTags.ApplyArgument | django-guest-urls/guest_urls/templatetags/guest_url_tags.py:76-94 | one turn of the loop succeeds exactly when the argument is an integer or a date, changes at most one of limit and expiry, and otherwise refuses that very argument |
| GuestUrlTags.ApplyArguments | django-guest-urls/guest_urls/templatetags/guest_url_tags.py:74-94 | a refusal always names one of the arguments; `ApplyArgumentsSucceedsIff` and `ApplyArgumentsRefusesFirst` characterise it |
| GuestUrlTags.ParseUsage | django-guest-urls/guest_urls/templatetags/guest_url_tags.py:69-94 | no argument and the empty argument give the defaults: unlimited use, no expiry |
| GuestUrlTags.ReadArguments | django-guest-urls/guest_urls/templatetags/guest_url_tags.py:74-94 | the loop leaves the link's limit and expiry as `ParseUsage`'s fold says, or reports the argument the fold refuses |
| GuestUrlTags.GuestUrlFilter | django-guest-urls/guest_urls/templatetags/guest_url_tags.py:69-96 | the filter refuses exactly what `ParseUsage` refuses, with the same error; on too many arguments it builds no link, and on an unparseable one the link it built is left unsaved (no save, no timestamps); otherwise it returns a fresh link for the URL, with `ParseUsage`'s limit and expiry, no uses, saved once |
| GuestUrlTags.ArgumentsOfJoin | django-guest-urls/guest_urls/templatetags/guest_url_tags.py:69 | an argument written as comma-free pieces joined by commas is read as exactly its non-empty pieces, stripped, in order |
| GuestUrlTags.ArgumentsOfPiece | django-guest-urls/guest_urls/templatetags/guest_url_tags.py:69 | one comma-free piece is read as one argument, stripped |
| GuestUrlTags.ArgumentsOfPair | django-guest-urls/guest_urls/templatetags/guest_url_tags.py:69 | two pieces are read as two arguments, stripped, in order |
| GuestUrlTags.ArgumentsOfGappedPair | django-guest-urls/guest_urls/templatetags/guest_url_tags.py:69 | an empty piece between two pieces is dropped |
| GuestUrlTags.EmptyPiecesDropped | django-guest-urls/guest_urls/templatetags/guest_url_tags.py:69-70 | "1,,2" is read as the two arguments "1" and "2" |
| GuestUrlTags.ThreeArgumentsRefused | django-guest-urls/guest_urls/templatetags/guest_url_tags.py:69-70 | three arguments are refused, whatever the date recogniser |
| GuestUrlTags.BlankPieceRefused | django-guest-urls/guest_urls/templatetags/guest_url_tags.py:69-94 | a blank piece survives as the empty argument and is refused as unparseable |
| GuestUrlTags.ApplyArgumentsSucceedsIff | django-guest-urls/guest_urls/templatetags/guest_url_tags.py:74-94 | the loop succeeds exactly when every argument is an integer or a date |
| GuestUrlTags.ApplyArgumentsRefusesFirst | django-guest-urls/guest_urls/templatetags/guest_url_tags.py:74-94 | a refusal names the first argument that is neither, and every argument before it is one or the other |
| GuestUrlTags.ParseUsageSucceedsIff | django-guest-urls/guest_urls/templatetags/guest_url_tags.py:69-94 | the argument is accepted exactly when there are at most two arguments and each is an integer or a date |
| GuestUrlTags.SinglePiece | django-guest-urls/guest_urls/templatetags/guest_url_tags.py:74-94 | one argument: an integer sets only the limit, whatever the date recogniser says; otherwise a date sets only the expiry; otherwise it is refused |
| GuestUrlTags.TwoPieces | django-guest-urls/guest_urls/templatetags/guest_url_tags.py:74-94 | two arguments are applied in order, the second to the result of the first |
| GuestUrlTags.IntegerAndDateCommute | django-guest-urls/guest_urls/templatetags/guest_url_tags.py:74-91 | one integer and one date give the same limit and expiry in either order |
| GuestUrlTags.LastIntegerWins | django-guest-urls/guest_urls/templatetags/guest_url_tags.py:76-81 | of two integers, the later is the limit, and there is no expiry |
| GuestUrlTags.LastDateWins | django-guest-urls/guest_urls/templatetags/guest_url_tags.py:83-91 | of two dates, the later is the expiry, and the limit stays unlimited |
| GuestUrlTags.NoUsageScenarios | django-guest-urls/guest_urls/tests/test_templatetags.py:23-29 | no argument and "" give unlimited use and no expiry |
| GuestUrlTags.SingleUseScenario | django-guest-urls/guest_urls/tests/test_templatetags.py:31-33 | "1" gives one use and no expiry |
| GuestUrlTags.HundredUsesScenario | django-guest-urls/guest_urls/tests/test_templatetags.py:35-37 | "100" gives a hundred uses and no expiry |
| GuestUrlTags.YearLikeIntegerScenario | django-guest-urls/guest_urls/templatetags/guest_url_tags.py:76-81 | "2014" is 2014 uses, never a year, whatever the date recogniser |
| GuestUrlTags.ExpiryDateScenario | django-guest-urls/guest_urls/tests/test_templatetags.py:39-41 | "2014-07-12" expires at midnight UTC that day, with unlimited use |
| GuestUrlTags.ExpiryTimeScenario | django-guest-urls/guest_urls/tests/test_templatetags.py:39-42 | "2014-07-12 09:00" expires nine hours later, with unlimited use |
| GuestUrlTags.UsesThenExpiryArguments | django-guest-urls/guest_urls/tests/test_templatetags.py:46 | "1, 2014-07-12" is read as "1" and "2014-07-12" |
| GuestUrlTags.ExpiryThenUsesArguments | django-guest-urls/guest_urls/tests/test_templatetags.py:47 | "2014-07-12, 1" is read as "2014-07-12" and "1" |
| GuestUrlTags.UsesThenExpiryScenario | django-guest-urls/guest_urls/tests/test_templatetags.py:44-46 | "1, 2014-07-12" gives one use expiring at midnight UTC on 2014-07-12 |
| GuestUrlTags.ExpiryThenUsesScenario | django-guest-urls/guest_urls/tests/test_templatetags.py:44-47 | "2014-07-12, 1" gives the same link |
| GuestUrlTags.EmptyPieceScenario | django-guest-urls/guest_urls/templatetags/guest_url_tags.py:69-81 | "1,,2" is accepted as two integers, and the later one, 2, is the limit |
| GuestUrlTags.TooManyScenario | django-guest-urls/guest_urls/tests/test_templatetags.py:49-51 | "1,2,3" is refused as too many arguments |
| GuestUrlTags.WordScenario | django-guest-urls/guest_urls/tests/test_templatetags.py:53-55 | "foobar" is refused as unparseable |
| GuestUrlTags.IntervalScenario | django-guest-urls/guest_urls/templatetags/guest_url_tags.py:51-57 | "1 day", a documented but unimplemented relative interval, is refused as unparseable |

## Left out

- Database persistence (the ORM's `save`, `objects.get`, `delete`). A save is its timestamps plus a save counter.
- The link's UUID, `get_absolute_url`, `reverse` and the URL routes. These are the framework's routing. The filter returns the saved link itself, not its reversed URL.
- `resolve` and the views behind a source URL, including a URL that does not resolve. The resolved view is a total function passed in as `handler`. The positional and keyword arguments it receives from the route are part of that function.
- An exception raised by the view. If the view raised, the source would neither count the use nor save; the model's handler always returns.
- The system clock (`now()`). Each reading is a parameter. `ProcessRequest` takes two: the expiry check's and the save's.
- Django's `DateTimeField.to_python` and the time-zone handling of `try_parse_date`. The filter takes any date recogniser. `IsoDates` is a restricted stand-in: two ISO formats, no seconds or fractions, a fixed UTC offset, no daylight-saving time or named zones.
- Python 2's byte strings. `Strip`, `IsSpace` and `ParseInt` follow Python 3's `str`; under Python 2 a byte string's `strip()` cuts only ASCII whitespace, and `unicode.strip()` also cuts U+180E.
- `int()` on non-ASCII digits and Python 3's underscores between digits. The model reads ASCII digits only.
- Running Python with `-O`, which removes the GET check and the argument-count check (both are `assert` statements). The model always performs them.
- The message texts of the exceptions. The refusals carry the argument (or the whole usage text) they name.
- GuestUrlFilter: on a refusal the source has already written some arguments into the unsaved link it then discards. The contract says that link is never saved, but not which of its fields were written.
- Concurrent dispatches of one link. `used_to_date` is read and written without locking.
- Logging, `__repr__`, the settings module and the HTTP request and response objects. A request is its verb and path.

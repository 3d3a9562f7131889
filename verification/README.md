# URL shortener registry — a Dafny model

This project models the core of a URL shortener written in C# on ASP.NET Core
and Entity Framework Core. The core is the short-link registry and the pure
pieces around it:

- the Base62 short-code generator;
- the two URL validators: one for creating a link, one for redirecting to it;
- the registry operations over the `ShortUrls` table: create, look up by code
  or by id, list newest first, delete with an owner/admin check, count a click;
- the `ShortUrlCreationResult` type;
- the mapping of entities to DTOs and view models, including the public short
  link `baseUrl + "/r/" + code`;
- the decision logic of the MVC controller's `Redirect`, `CreateShortUrl` and
  `Delete` actions, and of the API controller's `CreateAsync` and `DeleteAsync`
  actions.

The store is an immutable `Registry.Store`: the table's rows in insertion
order, the next value of the identity column, and the user table that
`CreatedById` points into. Every operation is a pure
function that returns its answer together with the store it leaves behind
(`Registry.Step`). `Registry.Valid` is the table's invariant: ids are positive,
and ids, short codes and original URLs are each pairwise distinct (the primary
key and the two unique indexes). Every operation that writes is proved to
preserve it.

Inputs the code does not compute itself are parameters:

- the .NET URI library (`Uri.TryCreate`, `Uri.Scheme`, `Uri.EscapeUriString`)
  is a `UrlValidation.UriLibrary` value whose functions are left uninterpreted;
- the outcomes of `Random.Next(62)` are `draws`;
- the successive outputs of the generator that the retry loop tries are
  `candidates`;
- `DateTime.UtcNow` is an integer timestamp `now`;
- the signed-in user (`UserManager.GetUserAsync`), admin-role membership and
  model-binding validity are the inputs `user`, `isAdmin` and `modelStateValid`.

Files: `wrappers.dfy` (Option/Result), `short_code.dfy`, `url_validation.dfy`,
`short_url.dfy`, `click_counter.dfy`, `creation_result.dfy`, `registry.dfy`,
`listing.dfy`, `mapping.dfy`, `api_controller.dfy`, `mvc_controller.dfy` and
`scenarios.dfy` (properties across several calls).

Where the service interface and the callers disagree, the model follows the
callers. `Services/IUrlShortenerService.cs` and the service return a nullable
`ShortUrl`. The API controller and the newer tests expect a
`ShortUrlCreationResult`. In `Registry.CreateShortUrl` the null return for an
invalid URL becomes `InvalidUrl` and the null return for a duplicate becomes
`Duplicate`. The MVC controller keeps its own way of telling the two failures
apart: it searches the full listing for the URL.

Three facts about the code that a reader might not expect:

- redirect validity does not check the scheme;
- the retry loop for a free short code has no cap and no exhaustion error;
- nothing guards the click counter against concurrent updates.

## Model

| member | source | states |
|---|---|---|
| ShortCodes.GenerateShortCode | Services/UrlShortenerService.cs:109-121 | the code has exactly 6 characters, all from the 62-symbol alphabet, and position i is `Base62Chars[draws[i]]` |
| ShortCodes.AlphabetIsAlphanumeric | Services/UrlShortenerService.cs:10 | a character is in the alphabet exactly when it is an ASCII digit, upper-case letter or lower-case letter |
| ShortCodes.AlphabetLayout | Services/UrlShortenerService.cs:10 | the alphabet literal has 62 symbols: first 0-9, then A-Z, then a-z, with no gaps |
| ShortCodes.AlphabetIndex | Services/UrlShortenerService.cs:10 | every alphanumeric character has a position below 62 in the alphabet |
| ShortCodes.ShortCodeFitsColumn | Models/ShortUrl.cs:13-15 | a generated code is non-empty and fits the 10-character ShortCode column |
| UrlValidation.IsValidUrl | Services/UrlShortenerService.cs:123-166 | accepted exactly when the URL is not blank, parses as absolute, has scheme http or https, does not make the escape call throw, and has no character above 127 |
| UrlValidation.IsValidNonAsciiInUrl | Services/UrlShortenerService.cs:168-173 | no non-ASCII character is ever admitted |
| UrlValidation.ScanChars | Services/UrlShortenerService.cs:151-158 | the character loop succeeds exactly when every remaining character is at most 127 or admitted by the exception predicate |
| UrlValidation.IsUrlValidForRedirect | Services/UrlShortenerService.cs:175-205 | accepted exactly when the URL is not blank, parses as absolute and is all ASCII; the scheme is not checked |
| UrlValidation.CreationValidImpliesRedirectValid | Services/UrlShortenerService.cs:123-205 | a URL accepted at creation is also accepted for redirect |
| UrlValidation.RedirectValidDoesNotImplyCreationValid | Services/UrlShortenerService.cs:136-140 | the converse fails: an absolute ftp URL passes the redirect check but not creation |
| UrlValidation.NonAsciiRejected | Services/UrlShortenerService.cs:151-158 | one character above 127 makes both validators reject, whatever the URI library says |
| Models.NewShortUrl | Models/ShortUrl.cs:5-25 | a newly constructed entity has ClickCount 0, Id 0 and no loaded creator, and carries the given url, code, creator id and date |
| Models.WithOneMoreClick | Services/UrlShortenerService.cs:104 | a click raises ClickCount by exactly one and leaves every other field unchanged |
| ClickCounter.IncrementAsWritten | Services/UrlShortenerService.cs:104 | the C# `int` increment adds one below 2^31-1 and wraps to -2^31 at the maximum |
| ClickCounter.IncrementAsWrittenWraps | Services/UrlShortenerService.cs:104 | the click after the 2^31-1st makes the stored count negative and smaller than before |
| ClickCounter.IncrementIntended | Models/ShortUrl.cs:24 | the intended counter is unbounded and each click adds exactly one |
| ClickCounter.IncrementAgreesBelowMax | Services/UrlShortenerService.cs:104 | below the wrap point the written and the intended increments agree |
| CreationResults.FactoryProperties | Models/Results/ShortUrlCreationResult.cs:31-38 | Success sets Succeeded, Error None, the entity and its URL; InvalidUrl and Duplicate set Succeeded false, no entity, their error code and the submitted URL |
| CreationResults.ResultConsistency | Models/Results/ShortUrlCreationResult.cs:14-38 | for every result, Succeeded holds exactly when Error is None, which holds exactly when ShortUrl is non-null; each error code fixes the factory that built the result |
| Registry.FirstIndex | Services/UrlShortenerService.cs:58-60 | the scan returns the first position satisfying the predicate, or none when no position does |
| Registry.UniqueIndexes | Data/ApplicationDbContext.cs:23-24 | in a valid store two positions with the same code, the same URL or the same id are the same position |
| Registry.EntryDeterminedByKeys | Data/ApplicationDbContext.cs:23-24 | in a valid store an entry's code, URL or id identifies it among all stored entries |
| Registry.EmptyStore | Data/ApplicationDbContext.cs:14 | the empty link table satisfies the key and index constraints, next to any user table |
| Registry.IncludeCreator | Data/ApplicationDbContext.cs:25-27 | a row read with `Include(u => u.CreatedBy)` differs from the stored row only in CreatedBy, which is the user row that CreatedById names |
| Registry.GetByShortCode | Services/UrlShortenerService.cs:56-61 | returns an entry exactly when some entry holds the code; the entry returned holds the code, is a stored row with its creator loaded and, in a valid store, comes from the only row that holds the code |
| Registry.GetById | Services/UrlShortenerService.cs:90-95 | returns an entry exactly when some entry has the id; the entry returned has the id, is a stored row with its creator loaded and, in a valid store, comes from the only row with the id |
| Registry.FirstFreeCode | Services/UrlShortenerService.cs:36-40 | the retry loop ends with a code no entry holds, and every candidate tried before it was taken |
| Registry.CreateShortUrl | Services/UrlShortenerService.cs:18-54 | invalid URL gives InvalidUrl and duplicate gives Duplicate, in that order, both with the store unchanged; otherwise exactly one entry is appended with the given URL and user, ClickCount 0, the next id and a fresh generated code; the invariant is preserved |
| Registry.AppendFreshKeepsValid | Data/ApplicationDbContext.cs:23-24 | appending an entry with a new code, a new URL and the next id keeps the unique indexes and the key |
| Registry.DeleteUrl | Services/UrlShortenerService.cs:71-88 | false with the store unchanged for an unknown id or a caller who is neither admin nor owner; otherwise true and exactly that entry is removed, everything else kept |
| Registry.RemoveKeepsValid | Services/UrlShortenerService.cs:85-86 | removing one entry keeps the invariant and leaves exactly the entries with a different id |
| Registry.IncrementClickCount | Services/UrlShortenerService.cs:97-107 | the entry holding the code gains exactly one click and nothing else changes; an unknown code changes nothing |
| Listing.InsertNewestFirst | Services/UrlShortenerService.cs:67 | inserting into a newest-first list keeps it newest first and adds exactly the one entry |
| Listing.SortNewestFirst | Services/UrlShortenerService.cs:67 | the result is a permutation of the input ordered by CreatedDate, newest first |
| Listing.LoadedEntries | Services/UrlShortenerService.cs:65-66 | one entry per stored row, in table order, each with its creator loaded |
| Listing.GetAllUrls | Services/UrlShortenerService.cs:63-69 | returns every stored row with its creator loaded and nothing else, each as often as it is stored, newest first |
| Mapping.CodeFromShortUrl | Extensions/ShortUrlMappingExtensions.cs:21 | a string parses as a short link exactly when it starts with `baseUrl + "/r/"` |
| Mapping.ShortUrlFor | Extensions/ShortUrlMappingExtensions.cs:21 | the short link is `baseUrl + "/r/"` followed by the code |
| Mapping.ShortUrlRoundTrip | Extensions/ShortUrlMappingExtensions.cs:21 | stripping `baseUrl + "/r/"` from a short link gives back its code |
| Mapping.ShortUrlParsedIsBuilt | Extensions/ShortUrlMappingExtensions.cs:37 | every string that parses as a short link is the link built from its code |
| Mapping.ShortUrlInjective | Extensions/ShortUrlMappingExtensions.cs:21 | under one base URL, distinct codes give distinct short links |
| Mapping.CreatorName | Extensions/ShortUrlMappingExtensions.cs:22 | the creator's user name when both the creator and the name are present, else "" |
| Mapping.ToSummaryDto | Extensions/ShortUrlMappingExtensions.cs:9-26 | a null entity is rejected; otherwise Id, OriginalUrl, ShortCode, ClickCount and the date are copied, the short link parses back to the code, and CreatedBy is the override if given, else the creator's name |
| Mapping.ToDetailsViewModel | Extensions/ShortUrlMappingExtensions.cs:28-43 | a null entity is rejected; otherwise the fields are copied, the short link parses back to the code, and CreatedBy is the creator's name |
| ShortUrlsApi.StatusCode | Controllers/Api/ShortUrlsApiController.cs:45-95 | every result except Forbid carries an HTTP status between 200 and 599 |
| ShortUrlsApi.FailureResponse | Controllers/Api/ShortUrlsApiController.cs:57-62 | InvalidUrlFormat maps to 400, DuplicateUrl to 409, anything else to 500 |
| ShortUrlsApi.Create | Controllers/Api/ShortUrlsApiController.cs:41-68 | an invalid model gives ValidationProblem and no user gives Unauthorized, neither touching the store; then BadRequest exactly for an invalid URL and Conflict exactly for a stored one; 500 never happens; on Ok the store is exactly the one the service's creation leaves, its new row holds the URL and the user, and the summary carries that row's code, URL, id, the creation time, count 0 and the user's name as creator, "" when the user has none |
| ShortUrlsApi.Delete | Controllers/Api/ShortUrlsApiController.cs:73-96 | no user gives Unauthorized and an unknown id gives NotFound, both before any permission decision; NoContent exactly when the caller may delete, with the entry gone; Forbid exactly when not, with the store unchanged |
| ShortUrlsApi.ListPayload | Controllers/Api/ShortUrlsApiController.cs:30-36 | one summary per stored entry, newest first, each with the entry's id, code, URL, creation date and count, its short link, and CreatedBy the creator's user name from the user table, "" when the creator or the name is missing |
| ShortUrlController.Redirect | Controllers/ShortUrlController.cs:125-158 | an unknown code gives NotFound; a stored URL failing the redirect check gives the InvalidUrl view with code and id; both leave the store unchanged; otherwise a redirect to the stored URL, with exactly that entry's count raised by one; the user table, the next id and the number of entries never change |
| ShortUrlController.ExplainByListing | Controllers/ShortUrlController.cs:53-66 | a failed creation is reported as "already exists" exactly when the URL is in the listing, otherwise as "invalid" |
| ShortUrlController.ExplainByError | Controllers/ShortUrlController.cs:53-66 | the corrected explanation: "already exists" exactly for DuplicateUrl, otherwise "invalid" |
| ShortUrlController.CreateShortUrlWith | Controllers/ShortUrlController.cs:38-84 | a blank URL or invalid model fails before the service, and a missing user fails next, both with the store unchanged; a link is created exactly for a valid, new URL; the store is then exactly the one the service's creation leaves, its new row holds the URL and the user, and the payload carries that row's id, code and URL, the `/r/` link, the creation time, the user's name or "" and count 0 |
| ShortUrlController.CreateShortUrl | Controllers/ShortUrlController.cs:53-66 | as written: "already exists" exactly when the URL is stored; "invalid" exactly when it is neither stored nor valid |
| ShortUrlController.CreateShortUrlByError | Controllers/ShortUrlController.cs:53-66 | corrected: "already exists" exactly when the service answers Duplicate, "invalid" exactly when it answers InvalidUrl |
| ShortUrlController.MessageTextInjective | Controllers/ShortUrlController.cs:42-101 | the five JSON failure texts are pairwise different, so each failure can be told apart by its text |
| ShortUrlController.Delete | Controllers/ShortUrlController.cs:88-105 | no user fails with the store unchanged; otherwise the admin flag is passed through, success is reported exactly when the service returns true, and the store is the service's |
| Scenarios.CreateTwiceGivesDuplicate | UrlShortener.Tests/UrlShortenerServiceTests.cs:49-67 | creating the same valid URL twice gives Success then Duplicate, the second call leaves the store alone, and exactly one entry holds the URL |
| Scenarios.CreatedLinkIsFound | UrlShortener.Tests/UrlShortenerServiceTests.cs:69-91 | a created link is found again by its code and by its id, with its creator loaded from the user table |
| Scenarios.CreatedLinkListedWithCreator | Services/UrlShortenerService.cs:63-69 | a link created by a known user appears in the API listing with that user's name as CreatedBy |
| Scenarios.DeletedLinkIsGone | UrlShortener.Tests/UrlShortenerServiceTests.cs:104-176 | after a successful delete the id is not found; after a refused one the lookup is unchanged |
| Scenarios.IncrementSeenByLookup | UrlShortener.Tests/UrlShortenerServiceTests.cs:178-201 | a lookup after the increment sees the count one higher and every other field as before |
| Scenarios.RedirectCountsOnce | Controllers/ShortUrlController.cs:127-148 | one request for a stored, redirect-valid link in a valid store redirects to its URL, keeps the invariant and the length, and raises exactly that entry's count by one |
| Scenarios.ClicksAccumulate | Controllers/ShortUrlController.cs:144 | k requests for a stored, redirect-valid link add exactly k clicks to it and keep the invariant |
| Scenarios.FreshLinkRedirects | Controllers/ShortUrlController.cs:127-148 | a freshly created link redirects to its URL and its count becomes 1 |
| Scenarios.NonAsciiStoredUrlIsNotRedirected | Controllers/ShortUrlController.cs:133-142 | a stored URL with a character above 127 gives the InvalidUrl view and the store, counters included, is unchanged |
| Scenarios.ListingExplanationAgreesOnCleanStore | Controllers/ShortUrlController.cs:53-66 | when every stored URL would pass creation validation, the listing search gives the same reply as the service's error |
| Scenarios.ListingExplanationMisreportsStoredInvalidUrl | Controllers/ShortUrlController.cs:53-66 | a stored non-ASCII URL submitted again is invalid to the service, yet the controller says "already exists" |

## Left out

- Entity Framework Core, `SaveChangesAsync` and async/await: the link table is an in-memory sequence and the user table a map from user id to user. `Include(u => u.CreatedBy)` is `Registry.IncludeCreator`.
- The foreign key from `CreatedById` to the user table (Data/ApplicationDbContext.cs:25-28) is not enforced. A row whose creator is missing reads with no creator. Creating a link for an unknown user id succeeds in the model; the database would reject the insert. The user table itself is managed by ASP.NET Identity and never changes here.
- SQL Server collation: string comparisons (code and URL lookups, the unique indexes) are modelled as exact equality. A case-insensitive database collation, the usual SQL Server default, would make `abc123` and `ABC123` collide. That is not modelled.
- Models.WithOneMoreClick: every click the registry and the redirect count is added to an unbounded counter, not to the C# `int` of Services/UrlShortenerService.cs:104, because that `int` wraps after 2^31-1 clicks (see Findings). The wrapping increment is modelled separately as `ClickCounter.IncrementAsWritten`.
- Concurrency: the non-atomic read-modify-write of `ClickCount` and concurrent creates racing past the existence checks. The operations are modelled as if they run one at a time.
- `Registry.CreateShortUrl`: the unbounded retry loop is modelled by its outcome. `candidates` are the generator's successive outputs, and the precondition says a free code occurs among them. Runs where the loop never ends are not modelled.
- Randomness: the distribution of codes (uniform over 62^6) is not stated. Only the shape of each code and its construction from the draws are.
- Uri parsing and escaping: `Uri.TryCreate`, `Uri.Scheme` and `Uri.EscapeUriString` are foreign code, uninterpreted here. `IsUrlValidForRedirect` can in principle catch an exception from the parser; `TryCreate` does not throw, so that path is not modelled.
- Characters: C# strings are UTF-16 code units and Dafny's are Unicode scalar values. A character outside the BMP is two code units above 127 in C# and one character above 127 here, so the ASCII checks agree.
- Null strings: request and entity strings are non-null in the model. The `[Required]` annotations guarantee this in the source.
- Date formatting: `CreatedDate.ToString("yyyy-MM-dd HH:mm:ss")` is not modelled. DTOs carry the timestamp itself.
- `[Url]`, `[Required]` and `[MaxLength(2048)]` request validation is framework code. It enters only as `modelStateValid`.
- `Forbid()`: the cookie authentication handler decides what the client sees, so `ShortUrlsApi.StatusCode` gives it no status.
- `Redirect`: the `InvalidOperationException` catch around `base.Redirect` depends on framework behaviour and is left out.
- `Index` and `Info` of the MVC controller render views of data that `Listing.GetAllUrls` and `Registry.GetById` already model.
- Identity, authentication, startup, data seeding, the About page, the plain view-model and login classes, and the React client, including its own `canDelete`: outside the registry.

## Findings

| source | as written | input that shows it | evidently intended | confidence | as-written member | corrected member |
|---|---|---|---|---|---|---|
| Services/UrlShortenerService.cs:104 | `url.ClickCount++` on a C# `int` in an unchecked context wraps from 2147483647 to -2147483648 | an entry whose ClickCount is 2147483647 is redirected once more | a click count that never decreases and is never negative | low (needs 2^31 clicks), not executed | ClickCounter.IncrementAsWrittenWraps | ClickCounter.IncrementIntended |
| Controllers/ShortUrlController.cs:53-66 | a failed creation is explained by searching the listing for the URL, not by the service's error | the store holds `http://é.com` (written before the current validation, or by another writer) and the same URL is submitted again: the service answers InvalidUrlFormat, the reply says "This URL already exists." | the reply follows the service's error, as the API controller's does | low, not executed | Scenarios.ListingExplanationMisreportsStoredInvalidUrl | ShortUrlController.CreateShortUrlByError |

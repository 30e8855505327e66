# ArtGalleryAppBINB core, modelled in Dafny

ArtGalleryAppBINB is an iOS client for the Art Institute of Chicago public API. It exists in
two variants that live side by side in the repository, and this model keeps them apart.

- **UIKit variant.**
  - The `Endpoint` enum and `APIClient`, which send a GET and map every failure to a `NetworkError`.
  - The snake_case `JSONDecoder` and `ArtworkDTO`, which `ArtworkRepository` turns into `Artwork` values.
  - The paginated, searchable and year-filterable list screen (`ArtworkListViewModel`).
  - The year filter sheet (`FilterViewController`).
  - A two-tier image cache: memory, plus disk files named by a hash of the key.
  - An image downloader that shares one in-flight task per URL and lets callers cancel it.
- **SwiftUI variant.**
  - `ArtworkAPIService`, which writes its request URLs as literal text with a percent-encoded search query.
  - Its own list screen.
  - An `ImageService` that tries the image CDN first and then the official IIIF origin.
  - The HTML-to-plain-text cleaner used on artwork descriptions.

Each Swift file of the core is one Dafny module, named after it: `Endpoints`, `ApiClient`,
`NetworkErrors`, `ArtworkDto`, `ArtworkRepository`, `DomainModels`, `PresentationArtworkList`,
`FilterForm`, `ImageCache`, `ImageDownloader` (UIKit), and `ArtworkApiService`, `CoreModels`,
`FeaturesArtworkList`, `ImageService`, `HtmlParser` (SwiftUI).

Several small modules model platform behaviour the core relies on:

- `Decimal`: `"\(n)"` and `Int(_:)` for 64-bit `Int`.
- `Text`: `contains`, `components(separatedBy:)`, `joined` and `replacingOccurrences`.
- `UrlEncoding`: `addingPercentEncoding` and `removingPercentEncoding` per section 2.1 of RFC 3986, with the UTF-8 of section 3 of RFC 3629.
- `JsonKeys`: the decoder's `convertFromSnakeCase` key strategy.
- `ResponseDecoding`: how that strategy meets the declared `CodingKeys`.
- `Media` and `Http`: bytes, images, responses and thrown system errors.
- `Wrappers`: `Option` and `Result`.

Every async call, together with the reply it awaits, is one atomic step. Both view models and
the downloader are main-actor isolated. The platform's foreign calls are parameters of the model:

- `URL(string:)` is a predicate `parses`.
- A `URLSession` round trip is an outcome value: the error it threw, or its body and response.
- `JSONDecoder.decode`, `UIImage(data:)` and `jpegData` are functions from bytes to an optional value.
- `String.hashValue` is a function from the key to a 64-bit `Int`.
- Success or failure of a file write or directory removal is a `bool`.

## Model

| member | source | states |
|---|---|---|
| Decimal.IntToString | ArtGalleryAppBINB/Data/Network/Endpoint.swift:36-37 | Swift's `"\(n)"` is non-empty, starts with `-` exactly for negative numbers, and has only digits after the first character |
| Decimal.NatToString | ArtGalleryAppBINB/Common/Utilities/ImageCache.swift:66-70 | the decimal text of a magnitude is non-empty, all digits, and starts with `0` only for zero |
| Decimal.ParseInt | ArtGalleryAppBINB/Presentation/FilterView/FilterViewController.swift:95-96 | `Int(text)` succeeds only on non-empty text whose characters after the first are all digits, and a text starting with `-` never reads as positive |
| Decimal.DigitsValueOfNatToString | ArtGalleryAppBINB/Common/Utilities/ImageCache.swift:66-70 | the digits printed for a natural number read back as that number |
| Decimal.ParseIntRoundTrip | ArtGalleryAppBINB/Presentation/FilterView/FilterViewController.swift:85-96 | for every 64-bit `Int`, `Int("\(n)")` is `n` |
| Decimal.IntToStringInjective | ArtGalleryAppBINB/Core/Utilities/Errors/APIError.swift:18-19 | distinct integers print as distinct texts |
| Text.ContainsMeansOccurs | ArtGalleryAppBINB/Core/Services/Network/ImageService.swift:96-97 | `contains(pat)` holds exactly when `pat` occurs at some index |
| Text.BeforeFirstSpec | ArtGalleryAppBINB/Domain/Models/Artwork.swift:41-43 | the first component is a prefix without the separator; when it is shorter than the text, the separator follows it |
| Text.Split | ArtGalleryAppBINB/Domain/Models/Artwork.swift:42 | `components(separatedBy:)` yields at least one piece, and no piece holds the separator |
| Text.SplitJoin | ArtGalleryAppBINB/Core/Services/Network/ArtworkAPIService.swift:11 | splitting a joined list of separator-free pieces gives back the pieces |
| Text.ReplaceAll | ArtGalleryAppBINB/Features/ArtworkDetail/ViewModels/HTMLParser.swift:18-22 | replacing a pattern with text no longer than it never makes the text longer, and a non-empty result starts with the text's first character or the replacement's |
| Text.ReplaceAllMatch | ArtGalleryAppBINB/Features/ArtworkDetail/ViewModels/HTMLParser.swift:18-22 | an occurrence at the front becomes the replacement, and the scan resumes right after the occurrence |
| Text.ReplaceAllSkip | ArtGalleryAppBINB/Features/ArtworkDetail/ViewModels/HTMLParser.swift:18-22 | text in which the pattern cannot start is copied unchanged, and the scan goes on after it |
| Text.ReplaceAllNoMatchHere | ArtGalleryAppBINB/Features/ArtworkDetail/ViewModels/HTMLParser.swift:18-22 | where no occurrence starts at the front, the first character is copied and the scan resumes at the next one |
| Text.ReplaceAllMismatch | ArtGalleryAppBINB/Features/ArtworkDetail/ViewModels/HTMLParser.swift:18-22 | the pattern's first character followed by anything but its second is copied, and the scan resumes at the next character |
| Text.ReplaceAllNearMiss | ArtGalleryAppBINB/Features/ArtworkDetail/ViewModels/HTMLParser.swift:18-22 | a near miss of the pattern (right first character, wrong second, no other start) is copied whole |
| Text.ReplaceAllAbsent | ArtGalleryAppBINB/Features/ArtworkDetail/ViewModels/HTMLParser.swift:18-22 | text without the pattern is left unchanged |
| Text.ReplaceAllRemovesChar | ArtGalleryAppBINB/Features/ArtworkDetail/ViewModels/HTMLParser.swift:18-22 | after replacing a one-character pattern with text that lacks it, the character is gone |
| UrlEncoding.Utf8 | ArtGalleryAppBINB/Core/Services/Network/ArtworkAPIService.swift:17 | a character encodes as 1 to 4 bytes; it is a single byte equal to its code exactly when it is ASCII |
| UrlEncoding.PercentByte | ArtGalleryAppBINB/Core/Services/Network/ArtworkAPIService.swift:17 | an escape is `%` and two hex digits whose value is the byte |
| UrlEncoding.PercentEncode | ArtGalleryAppBINB/Core/Services/Network/ArtworkAPIService.swift:17 | every character of the encoding is allowed, `%` or a hex digit |
| UrlEncoding.EncodingOmits | ArtGalleryAppBINB/Core/Services/Network/ArtworkAPIService.swift:17 | a character outside the allowed set that is neither `%` nor a hex digit never appears in the encoding |
| UrlEncoding.EncodingKeeps | ArtGalleryAppBINB/Core/Services/Network/ArtworkAPIService.swift:17 | an allowed character is in the encoding exactly when it is in the text |
| UrlEncoding.EncodeAppend | ArtGalleryAppBINB/Core/Services/Network/ArtworkAPIService.swift:17 | encoding distributes over concatenation |
| UrlEncoding.EncodingCutsAt | ArtGalleryAppBINB/Core/Services/Network/ArtworkAPIService.swift:17-18 | cutting at the first allowed separator and encoding gives the same as encoding and cutting, and the result is strictly shorter |
| UrlEncoding.DecodeEncode | ArtGalleryAppBINB/Core/Services/Network/ArtworkAPIService.swift:17 | with `%` escaped, percent-decoding the encoding of an ASCII text gives the text back |
| HtmlParser.DecodeEntities | ArtGalleryAppBINB/Features/ArtworkDetail/ViewModels/HTMLParser.swift:18-22 | the five entity replacements never lengthen the text |
| HtmlParser.DecodeEntity | ArtGalleryAppBINB/Features/ArtworkDetail/ViewModels/HTMLParser.swift:18-22 | `&nbsp;`, `&lt;`, `&gt;` and `&quot;` each become their character; the text before is kept and decoding continues after |
| HtmlParser.DecodeAmpersand | ArtGalleryAppBINB/Features/ArtworkDetail/ViewModels/HTMLParser.swift:19 | `&amp;` becomes `&` when what follows cannot complete one of the later entities |
| HtmlParser.AmpersandDecodedTwice | ArtGalleryAppBINB/Features/ArtworkDetail/ViewModels/HTMLParser.swift:19-22 | because `&amp;` is replaced before `&lt;`, `&gt;` and `&quot;`, the escaped forms `&amp;lt;`, `&amp;gt;` and `&amp;quot;` decode all the way to `<`, `>` and `"` |
| HtmlParser.LoneAmpersandFrom | ArtGalleryAppBINB/Features/ArtworkDetail/ViewModels/HTMLParser.swift:18-22 | an `&` followed by none of the entities' second letters survives every remaining pass |
| HtmlParser.DecodeLoneAmpersand | ArtGalleryAppBINB/Features/ArtworkDetail/ViewModels/HTMLParser.swift:18-22 | a lone `&`, as in "Tom & Jerry", is kept and the text after it is decoded on its own |
| HtmlParser.DecodeEntitiesAbsent | ArtGalleryAppBINB/Features/ArtworkDetail/ViewModels/HTMLParser.swift:18-22 | text holding none of the five entities is unchanged |
| HtmlParser.TagFreeHasNoTags | ArtGalleryAppBINB/Features/ArtworkDetail/ViewModels/HTMLParser.swift:25 | text in the tag-free shape offers the pattern `<[^>]+>` no match |
| HtmlParser.StripTags | ArtGalleryAppBINB/Features/ArtworkDetail/ViewModels/HTMLParser.swift:25 | removing `<[^>]+>` matches leaves no match, adds no character, and keeps a leading non-`<` character |
| HtmlParser.StripTagsNoAngle | ArtGalleryAppBINB/Features/ArtworkDetail/ViewModels/HTMLParser.swift:25 | text without `<` is unchanged by tag removal |
| HtmlParser.StripTagsKeepsText | ArtGalleryAppBINB/Features/ArtworkDetail/ViewModels/HTMLParser.swift:24-25 | text before the first `<` is kept, and tag removal continues after it |
| HtmlParser.StripTagsDropsTag | ArtGalleryAppBINB/Features/ArtworkDetail/ViewModels/HTMLParser.swift:24-25 | a complete tag `<…>` at the front disappears and nothing else changes |
| HtmlParser.StripTagsRemovesTag | ArtGalleryAppBINB/Features/ArtworkDetail/ViewModels/HTMLParser.swift:24-25 | text, a tag, more text: the text is kept, the tag removed, and the rest is stripped in turn |
| HtmlParser.StripTagsKeepsUnclosed | ArtGalleryAppBINB/Features/ArtworkDetail/ViewModels/HTMLParser.swift:25 | a `<` with no `>` after it is not a tag and stays |
| HtmlParser.PatternSpaceIsTrimmable | ArtGalleryAppBINB/Features/ArtworkDetail/ViewModels/HTMLParser.swift:28-29 | a character matches `\s` (ICU's White_Space set) exactly when `whitespacesAndNewlines` trims it |
| HtmlParser.SkipSpaces | ArtGalleryAppBINB/Features/ArtworkDetail/ViewModels/HTMLParser.swift:28 | a run of whitespace is consumed whole: the rest is a suffix starting with non-whitespace |
| HtmlParser.CollapseSpaces | ArtGalleryAppBINB/Features/ArtworkDetail/ViewModels/HTMLParser.swift:28 | replacing `\s+` with one space leaves only single plain spaces, adds no other character, and never lengthens the text |
| HtmlParser.CollapseSpacesKeepsTagFree | ArtGalleryAppBINB/Features/ArtworkDetail/ViewModels/HTMLParser.swift:25-28 | collapsing whitespace cannot create a tag in text that had none |
| HtmlParser.CollapseSpacesIdentity | ArtGalleryAppBINB/Features/ArtworkDetail/ViewModels/HTMLParser.swift:28 | collapsing is the identity on text already collapsed |
| HtmlParser.CollapseSpacesKeepsWord | ArtGalleryAppBINB/Features/ArtworkDetail/ViewModels/HTMLParser.swift:28 | a stretch with no whitespace is kept as it is, and collapsing continues after it |
| HtmlParser.CollapseSpacesRun | ArtGalleryAppBINB/Features/ArtworkDetail/ViewModels/HTMLParser.swift:28 | a whole run of whitespace, however long and of whatever kinds, becomes one plain space |
| HtmlParser.TrimStart | ArtGalleryAppBINB/Features/ArtworkDetail/ViewModels/HTMLParser.swift:29 | the dropped head is all trimmable and what remains starts with a non-trimmable character |
| HtmlParser.TrimEnd | ArtGalleryAppBINB/Features/ArtworkDetail/ViewModels/HTMLParser.swift:29 | the dropped tail is all trimmable and what remains ends with a non-trimmable character |
| HtmlParser.Trim | ArtGalleryAppBINB/Features/ArtworkDetail/ViewModels/HTMLParser.swift:29 | trimming leaves no trimmable character at either end and never lengthens the text |
| HtmlParser.TrimKeepsShape | ArtGalleryAppBINB/Features/ArtworkDetail/ViewModels/HTMLParser.swift:25-29 | trimming keeps collapsed spacing and tag-freedom |
| HtmlParser.TrimIdentity | ArtGalleryAppBINB/Features/ArtworkDetail/ViewModels/HTMLParser.swift:29 | already-trimmed text is unchanged |
| HtmlParser.TrimDropsEnds | ArtGalleryAppBINB/Features/ArtworkDetail/ViewModels/HTMLParser.swift:29 | trimming removes exactly the whitespace around already-trimmed text |
| HtmlParser.HtmlToAttributedString | ArtGalleryAppBINB/Features/ArtworkDetail/ViewModels/HTMLParser.swift:13-32 | the result is no longer than the input, trimmed, single-spaced and has no tag match |
| HtmlParser.HtmlToPlainText | ArtGalleryAppBINB/Features/ArtworkDetail/ViewModels/HTMLParser.swift:35-37 | the plain text has the same guarantees as the attributed result |
| HtmlParser.PlainTextUnchanged | ArtGalleryAppBINB/Features/ArtworkDetail/ViewModels/HTMLParser.swift:13-37 | clean text (no entities, no `<`, single spaces, trimmed ends) passes through unchanged |
| HtmlParser.ElementTextKept | ArtGalleryAppBINB/Features/ArtworkDetail/ViewModels/HTMLParser.swift:13-37 | the text of one element, as in `<p>` + w + `</p>`, comes out as exactly w when w is clean (no `&`, no `<`, single spaces, trimmed) |
| ImageCache.DiskName | ArtGalleryAppBINB/Common/Utilities/ImageCache.swift:66-70 | a key's file name is a non-empty run of decimal digits |
| ImageCache.DiskNameShared | ArtGalleryAppBINB/Common/Utilities/ImageCache.swift:66-70 | two keys share a file name exactly when their hash values have the same magnitude |
| ImageCache.GetImage | ArtGalleryAppBINB/Common/Utilities/ImageCache.swift:28-44 | memory is tried first; on a memory miss, a decodable disk file is returned and copied into memory; a full miss returns nil and changes nothing; the disk is never written |
| ImageCache.SetImage | ArtGalleryAppBINB/Common/Utilities/ImageCache.swift:46-55 | memory always takes the image; the disk file is written only when JPEG encoding exists and the write succeeds; no other file changes |
| ImageCache.ClearCache | ArtGalleryAppBINB/Common/Utilities/ImageCache.swift:57-61 | memory is emptied; the disk is emptied when the removal succeeds and kept when it fails |
| ImageCache.Evict | ArtGalleryAppBINB/Common/Utilities/ImageCache.swift:18-19 | the cache evicting by itself drops exactly the chosen memory entries and leaves the disk alone |
| ImageCache.GetAfterSet | ArtGalleryAppBINB/Common/Utilities/ImageCache.swift:28-55 | right after `setImage`, `getImage` returns that image from memory |
| ImageCache.GetAfterClear | ArtGalleryAppBINB/Common/Utilities/ImageCache.swift:28-61 | after a successful clear every key misses |
| ImageCache.DiskHitAfterEviction | ArtGalleryAppBINB/Common/Utilities/ImageCache.swift:28-55 | an evicted image comes back from its disk file and is promoted into memory again |
| ImageCache.SharedFileLastWriteWins | ArtGalleryAppBINB/Common/Utilities/ImageCache.swift:46-70 | keys whose hashes have equal magnitude overwrite each other's file, so a disk read for the first key yields the second key's image |
| ImageDownloader.InitialValid | ArtGalleryAppBINB/Common/Utilities/ImageDownloader.swift:14 | the empty registry satisfies the downloader invariant |
| ImageDownloader.DownloadImage | ArtGalleryAppBINB/Common/Utilities/ImageDownloader.swift:24-61 | a cache hit is served without touching the registry; on a miss the caller joins the registered task exactly when one exists, and otherwise a fresh task is started and registered under the URL; only a started task advances the task counter |
| ImageDownloader.StartedTaskIsFresh | ArtGalleryAppBINB/Common/Utilities/ImageDownloader.swift:38-59 | a started task's id is not already running |
| ImageDownloader.DownloadImageKeepsValid | ArtGalleryAppBINB/Common/Utilities/ImageDownloader.swift:24-61 | a request preserves the invariant |
| ImageDownloader.CancelDownload | ArtGalleryAppBINB/Common/Utilities/ImageDownloader.swift:63-67 | the key leaves the registry, its task is marked cancelled, and other tasks, the cache and the waiting callers are untouched |
| ImageDownloader.CancelDownloadKeepsValid | ArtGalleryAppBINB/Common/Utilities/ImageDownloader.swift:63-67 | a cancel preserves the invariant |
| ImageDownloader.TaskResult | ArtGalleryAppBINB/Common/Utilities/ImageDownloader.swift:40-51 | a task yields an image exactly when the request returned bytes that decode |
| ImageDownloader.Deliver | ArtGalleryAppBINB/Common/Utilities/ImageDownloader.swift:33-60 | every caller waiting on the task gets its value; the others keep waiting on their own tasks |
| ImageDownloader.FinishTask | ArtGalleryAppBINB/Common/Utilities/ImageDownloader.swift:38-57 | a decoded image is cached under the task's key; the registry entry for the key is removed whichever task it names; the task's callers get its value and leave, every other caller keeps waiting on its own task, and task numbering is untouched |
| ImageDownloader.FinishLiveTaskKeepsValid | ArtGalleryAppBINB/Common/Utilities/ImageDownloader.swift:38-57 | a task that was never cancelled finishes without breaking the invariant |
| ImageDownloader.FinishTaskGuarded | ArtGalleryAppBINB/Common/Utilities/ImageDownloader.swift:38-57 | corrected completion: the registry entry is removed only when it still names this task; callers, cache and task numbering are treated as in the plain completion |
| ImageDownloader.FinishTaskGuardedKeepsValid | ArtGalleryAppBINB/Common/Utilities/ImageDownloader.swift:38-57 | the corrected completion preserves the invariant for any running task, cancelled or not |
| ImageDownloader.CompletionPartitionsCallers | ArtGalleryAppBINB/Common/Utilities/ImageDownloader.swift:33-60 | a completion answers exactly the callers of its task: each waiting caller is either handed the value or still waits on the same task, and the guarded completion answers the same callers |
| ImageDownloader.OneLiveTaskPerKey | ArtGalleryAppBINB/Common/Utilities/ImageDownloader.swift:33-59 | in a valid state no URL has two running uncancelled downloads |
| ImageDownloader.SequentialRequestsShareTask | ArtGalleryAppBINB/Common/Utilities/ImageDownloader.swift:33-35 | a second request for a URL that is downloading joins the same task and starts nothing |
| ImageDownloader.StaleCompletionUnregistersNewerTask | ArtGalleryAppBINB/Common/Utilities/ImageDownloader.swift:38-67 | as written, the sequence request, cancel, request, then the first task completing breaks the invariant, and a third request starts a second live download of the URL |
| ImageDownloader.RequestCancelRequest | ArtGalleryAppBINB/Common/Utilities/ImageDownloader.swift:24-67 | request, cancel, request starts two tasks; the second is registered, and the first keeps running under the same key |
| ImageDownloader.GuardedCompletionKeepsNewerTask | ArtGalleryAppBINB/Common/Utilities/ImageDownloader.swift:38-67 | with the corrected completion the same sequence stays valid, and the third request joins the second task |
| ArtworkDto.ToDomain | ArtGalleryAppBINB/Data/DTOs/ArtworkDTO.swift:60-77 | every domain field equals the DTO field of the same name |
| ArtworkDto.ToDomainInjective | ArtGalleryAppBINB/Data/DTOs/ArtworkDTO.swift:60-77 | the conversion loses nothing: distinct DTOs give distinct artworks |
| ArtworkDto.WireNameIsSnakeCase | ArtGalleryAppBINB/Data/DTOs/ArtworkDTO.swift:42-57 | each declared raw value is the snake_case form of its property name |
| ArtworkDto.WireNameInjective | ArtGalleryAppBINB/Data/DTOs/ArtworkDTO.swift:42-57 | no two properties share a JSON key |
| JsonKeys.CaseRoundTrip | ArtGalleryAppBINB/Data/Network/APIClient.swift:44 | upper-casing a lower-cased capital gives the capital back |
| JsonKeys.SnakeCaseNoUpper | ArtGalleryAppBINB/Data/Network/APIClient.swift:44 | a name without capitals is its own snake_case form |
| JsonKeys.SnakeCaseAppend | ArtGalleryAppBINB/Data/Network/APIClient.swift:44 | snake_case conversion distributes over concatenation |
| JsonKeys.SnakeCaseOfCamel | ArtGalleryAppBINB/Data/Network/APIClient.swift:44 | a camelCase word list converts to its underscore-joined lower-case form |
| JsonKeys.FromSnakeCase | ArtGalleryAppBINB/Data/Network/APIClient.swift:44 | a key's leading and trailing runs of `_` survive the conversion unchanged |
| JsonKeys.FromSnakeCaseKeepsPlainKey | ArtGalleryAppBINB/Data/Network/APIClient.swift:44 | a key without `_` converts to itself |
| JsonKeys.FromSnakeCaseOfSnake | ArtGalleryAppBINB/Data/Network/APIClient.swift:44 | a lower-case word followed by `_`-prefixed lower-case words converts to camelCase: the first word as it is, each later word capitalised, the underscores dropped |
| JsonKeys.FromSnakeCaseHasNoJoint | ArtGalleryAppBINB/Data/Network/APIClient.swift:44 | a converted key never has an inner `_` with a non-`_` character on each side; only leading and trailing underscores survive |
| JsonKeys.FromSnakeCaseOfSnakeCase | ArtGalleryAppBINB/Data/Network/APIClient.swift:44 | converting the snake_case form of an underscore-free name that does not start with a capital gives the name back |
| JsonKeys.CapitalisedNameNotRecovered | ArtGalleryAppBINB/Data/Network/APIClient.swift:44 | a name starting with a capital never comes back: its snake_case form starts with `_`, which the conversion keeps |
| JsonKeys.Lookup | ArtGalleryAppBINB/Data/Network/APIClient.swift:43-45 | the decoder finds a member exactly when some member's converted key equals the coding key, and the value found belongs to such a member |
| JsonKeys.LookupAt | ArtGalleryAppBINB/Data/Network/APIClient.swift:43-45 | the first member whose converted key matches is the one found |
| JsonKeys.SnakeCodingKeyNeverFound | ArtGalleryAppBINB/Data/Network/APIClient.swift:44 | under the conversion, a coding key with an inner `_` between two non-`_` characters matches no member of any object |
| JsonKeys.CamelCodingKeyFound | ArtGalleryAppBINB/Data/Network/APIClient.swift:44 | under the conversion, an underscore-free coding key that does not start with a capital finds a member whenever the object has one under its snake_case name |
| ResponseDecoding.DecodePagination | ArtGalleryAppBINB/Domain/Models/PaginatedResponse.swift:15-28 | a pagination decodes exactly when all five keys are found, with the values found |
| ResponseDecoding.PaginationNeverDecodesAsWritten | ArtGalleryAppBINB/Domain/Models/PaginatedResponse.swift:22-28 | as written, no JSON object decodes as a `Pagination` |
| ResponseDecoding.PaginationWireNameIsSnakeCase | ArtGalleryAppBINB/Domain/Models/PaginatedResponse.swift:22-28 | each key the API sends is the snake_case form of the property name |
| ResponseDecoding.PaginationKeyConverts | ArtGalleryAppBINB/Domain/Models/PaginatedResponse.swift:22-28 | converting each API key gives the property name |
| ResponseDecoding.TwoWordKeyConverts | ArtGalleryAppBINB/Domain/Models/PaginatedResponse.swift:26-27 | two lower-case words joined by `_`, as `total_pages` and `current_page`, convert to their camelCase join |
| ResponseDecoding.PaginationLookup | ArtGalleryAppBINB/Domain/Models/PaginatedResponse.swift:15-28 | with the property names as coding keys, each field finds its own member of the API's object |
| ResponseDecoding.PaginationDecodesCorrected | ArtGalleryAppBINB/Domain/Models/PaginatedResponse.swift:15-28 | with the property names as coding keys, every pagination the API sends decodes to itself |
| ResponseDecoding.RenamedKeyHasJoint | ArtGalleryAppBINB/Data/DTOs/ArtworkDTO.swift:42-57 | every renamed raw value has an inner `_` between two letters |
| ResponseDecoding.RenamedFieldNeverFound | ArtGalleryAppBINB/Data/DTOs/ArtworkDTO.swift:42-57 | as written, every renamed optional DTO property is never found, so it always decodes as nil |
| ResponseDecoding.FieldFoundCorrected | ArtGalleryAppBINB/Data/DTOs/ArtworkDTO.swift:42-57 | with the property names as coding keys, every member the API sends is found |
| DomainModels.IiifImageUrl | ArtGalleryAppBINB/Domain/Models/Artwork.swift:26-39 | an image URL exists exactly when there is an image id and `URL(string:)` accepts the IIIF text built from it |
| DomainModels.ImageUrlsDifferOnlyInSize | ArtGalleryAppBINB/Domain/Models/Artwork.swift:26-39 | two IIIF URLs for one image id are equal exactly when their size segments are |
| DomainModels.ArtistName | ArtGalleryAppBINB/Domain/Models/Artwork.swift:41-43 | the artist name is the first line of `artistDisplay` (a newline-free prefix ended by a newline or the text's end), or "Unknown Artist" |
| DomainModels.YearDisplay | ArtGalleryAppBINB/Domain/Models/Artwork.swift:45-47 | the date text, or "Unknown Date" without one |
| Endpoints.Path | ArtGalleryAppBINB/Data/Network/Endpoint.swift:20-29 | every path starts with `/artworks`; the list and search paths are exactly that; the artist search path is `/artworks/search`; the detail path is `/artworks/` followed by text that reads back as the id |
| Endpoints.QueryItems | ArtGalleryAppBINB/Data/Network/Endpoint.swift:31-56 | `fields` is always the last item and appears nowhere else |
| Endpoints.ItemValue | ArtGalleryAppBINB/Data/Network/Endpoint.swift:31-56 | an item name has no value exactly when no item has it; a value found belongs to an item of that name |
| Endpoints.QueryItemsCarryArguments | ArtGalleryAppBINB/Data/Network/Endpoint.swift:31-56 | the page, limit and query of each endpoint read back from its items; endpoints without them carry none |
| Endpoints.SearchItemsCarryArguments | ArtGalleryAppBINB/Data/Network/Endpoint.swift:40-44 | the search items carry the query as it is, and the page and limit as text that reads back |
| NetworkErrors.ErrorDescription | ArtGalleryAppBINB/Data/Network/NetworkError.swift:19-36 | every error has a description; an unknown error shows the underlying one, and a server error is framed as "Server error (…)" |
| NetworkErrors.ServerErrorDescriptionNamesCode | ArtGalleryAppBINB/Data/Network/NetworkError.swift:27-28 | a server error reads "Server error (", the code, ")", and the code reads back from between the brackets |
| NetworkErrors.FixedDescriptionsDistinct | ArtGalleryAppBINB/Data/Network/NetworkError.swift:19-36 | errors without a payload have pairwise distinct descriptions |
| NetworkErrors.RecoverySuggestion | ArtGalleryAppBINB/Data/Network/NetworkError.swift:38-49 | every error has a recovery suggestion |
| NetworkErrors.RecoverySuggestionClasses | ArtGalleryAppBINB/Data/Network/NetworkError.swift:38-49 | each of the four suggestions is given for exactly its class of errors |
| ApiClient.RequestFor | ArtGalleryAppBINB/Data/Network/APIClient.swift:29-31 | the request is a GET to the URL with a JSON content type |
| ApiClient.Inner | ArtGalleryAppBINB/Data/Network/APIClient.swift:33-59 | a thrown transport error escapes unchanged; success exactly for an HTTP 2xx response whose body decodes |
| ApiClient.Rethrow | ArtGalleryAppBINB/Data/Network/APIClient.swift:61-74 | the client's own errors pass through; lost connections and time-outs are classified; anything else is unknown |
| ApiClient.Request | ArtGalleryAppBINB/Data/Network/APIClient.swift:24-75 | no URL gives `invalidURL` and sends nothing; otherwise the request is sent, and success means a 2xx HTTP response whose body decodes to the value |
| ApiClient.RequestFailures | ArtGalleryAppBINB/Data/Network/APIClient.swift:33-74 | how each failure surfaces: non-2xx status, undecodable body, non-HTTP response, time-out, offline, other error |
| ApiClient.RequestErrorRange | ArtGalleryAppBINB/Data/Network/APIClient.swift:24-75 | `noData` never occurs; `invalidURL` occurs exactly without a URL; a server error never carries a 2xx code |
| ArtworkRepository.MapToDomain | ArtGalleryAppBINB/Data/Repositories/ArtworkRepository.swift:19 | the map keeps the length and converts each element in place |
| ArtworkRepository.FetchArtworks | ArtGalleryAppBINB/Data/Repositories/ArtworkRepository.swift:17-21 | asks for the `artworks` endpoint; a failure propagates; a success keeps the pagination and converts the items |
| ArtworkRepository.SearchArtworks | ArtGalleryAppBINB/Data/Repositories/ArtworkRepository.swift:23-27 | asks for the search endpoint; a failure propagates; a success keeps the pagination and converts the items |
| ArtworkRepository.FetchArtworkDetail | ArtGalleryAppBINB/Data/Repositories/ArtworkRepository.swift:29-32 | asks for the detail endpoint and returns the converted artwork, or the failure |
| ArtworkRepository.WithoutId | ArtGalleryAppBINB/Data/Repositories/ArtworkRepository.swift:38 | the filter keeps exactly the artworks with another id and drops one element per artwork with that id |
| ArtworkRepository.WithoutIdKeepsOrder | ArtGalleryAppBINB/Data/Repositories/ArtworkRepository.swift:38 | the survivors keep their original order |
| ArtworkRepository.FetchArtworksByArtist | ArtGalleryAppBINB/Data/Repositories/ArtworkRepository.swift:34-40 | asks for the artist search; a success is the converted list without the excluded id |
| ArtworkRepository.ArtistWorksExcludeCurrent | ArtGalleryAppBINB/Data/Repositories/ArtworkRepository.swift:34-40 | the artist list holds no excluded id, every other work, nothing else, in order |
| PresentationArtworkList.HandleError | ArtGalleryAppBINB/Presentation/ArtworkList/ArtworkListViewModel.swift:194-200 | a network error shows its description; anything else shows the generic message |
| PresentationArtworkList.LoadArtworks | ArtGalleryAppBINB/Presentation/ArtworkList/ArtworkListViewModel.swift:35-62 | guarded by not loading, more pages and no search; asks for the current page; page 1 replaces and later pages append; the page advances and paging follows the reply; a failure only sets the message; search and filter state are never touched |
| PresentationArtworkList.ResetPagination | ArtGalleryAppBINB/Presentation/ArtworkList/ArtworkListViewModel.swift:160-166 | back to page 1 of an empty list with more pages to come; search and filter state untouched |
| PresentationArtworkList.SearchArtworks | ArtGalleryAppBINB/Presentation/ArtworkList/ArtworkListViewModel.swift:64-107 | an empty query leaves search mode and, unless a load is in flight, reloads page 1 of the plain list (in flight, it only empties the list and asks for nothing); any other query asks for page 1 of the search; a success shows its items, sets paging from the reply and shows the no-match message exactly when it is empty; a failure keeps the shown items and sets the error's message; the loaded list and the filter are kept |
| PresentationArtworkList.InYears | ArtGalleryAppBINB/Presentation/ArtworkList/ArtworkListViewModel.swift:115-120 | the filter keeps each artwork whose start year is known and inside the range, as often as it occurs, and nothing else |
| PresentationArtworkList.InYearsKeepsOrder | ArtGalleryAppBINB/Presentation/ArtworkList/ArtworkListViewModel.swift:115-120 | the kept artworks stay in their original order |
| PresentationArtworkList.FilterByYearRange | ArtGalleryAppBINB/Presentation/ArtworkList/ArtworkListViewModel.swift:109-126 | without a search the shown list is the loaded list filtered by year; an empty result sets the message; the loaded list and paging are untouched |
| PresentationArtworkList.ClearFilter | ArtGalleryAppBINB/Presentation/ArtworkList/ArtworkListViewModel.swift:128-133 | the filter is off and every loaded artwork is shown again |
| PresentationArtworkList.ClearUndoesFilter | ArtGalleryAppBINB/Presentation/ArtworkList/ArtworkListViewModel.swift:109-133 | filtering and then clearing equals clearing alone |
| PresentationArtworkList.FilterIdempotent | ArtGalleryAppBINB/Presentation/ArtworkList/ArtworkListViewModel.swift:109-126 | filtering twice by one range equals filtering once |
| PresentationArtworkList.Refresh | ArtGalleryAppBINB/Presentation/ArtworkList/ArtworkListViewModel.swift:135-142 | search and filter are cleared and page 1 is requested unless a load is in flight |
| PresentationArtworkList.RefreshIsEmptySearchWithoutFilter | ArtGalleryAppBINB/Presentation/ArtworkList/ArtworkListViewModel.swift:135-142 | `refresh()` is the same step as clearing the search once the year filter is dropped |
| PresentationArtworkList.SearchThenMoreResults | ArtGalleryAppBINB/Presentation/ArtworkList/ArtworkListViewModel.swift:168-192 | after a search that reports more pages, loading more asks for page 2 of the same query and appends its items |
| PresentationArtworkList.FirstIndexOfId | ArtGalleryAppBINB/Presentation/ArtworkList/ArtworkListViewModel.swift:145 | the index found is the first with that id; none exactly when no artwork has it |
| PresentationArtworkList.LoadMoreSearchResults | ArtGalleryAppBINB/Presentation/ArtworkList/ArtworkListViewModel.swift:168-192 | guarded by not loading, more pages and a non-empty query; asks for the page after the current one, appends its items, clears the message and leaves the loaded list alone; a failure only sets the message; search and filter state are never touched |
| PresentationArtworkList.LoadMoreIfNeeded | ArtGalleryAppBINB/Presentation/ArtworkList/ArtworkListViewModel.swift:144-157 | near the end it loads more search results while searching and more list pages otherwise |
| PresentationArtworkList.LoadMoreRequestsIff | ArtGalleryAppBINB/Presentation/ArtworkList/ArtworkListViewModel.swift:144-192 | a request goes out exactly when the item is first found among the last five shown, nothing is loading, more pages exist, and searching agrees with a non-empty query |
| PresentationArtworkList.LoadKeepsFullList | ArtGalleryAppBINB/Presentation/ArtworkList/ArtworkListViewModel.swift:45-51 | while the shown list is the loaded list, loading keeps it so |
| FilterForm.ApplyFilterTapped | ArtGalleryAppBINB/Presentation/FilterView/FilterViewController.swift:94-110 | the no-year alert appears exactly when neither field parses, the order alert exactly when both parse in the wrong order; otherwise the parsed years are applied |
| FilterForm.ClearFilterTapped | ArtGalleryAppBINB/Presentation/FilterView/FilterViewController.swift:112-115 | clearing needs no validation and always clears |
| FilterForm.PopulateCurrentFilters | ArtGalleryAppBINB/Presentation/FilterView/FilterViewController.swift:85-92 | each current year written into its field reads back as that year; unset years leave their field alone |
| FilterForm.ReapplyCurrentFilter | ArtGalleryAppBINB/Presentation/FilterView/FilterViewController.swift:85-110 | reopening the sheet on a filter and tapping Apply applies the same filter |
| FilterForm.EqualYearsAccepted | ArtGalleryAppBINB/Presentation/FilterView/FilterViewController.swift:103-108 | equal start and end years are accepted |
| CoreModels.ErrorDescription | ArtGalleryAppBINB/Core/Utilities/Errors/APIError.swift:10-23 | every error has a description; a network error is prefixed "Network error: " before the underlying text; a server error is framed as "Server error (Code: …)" |
| CoreModels.ServerErrorDescriptionNamesCode | ArtGalleryAppBINB/Core/Utilities/Errors/APIError.swift:18-19 | the status code reads back from a server error's description |
| CoreModels.DescriptionsDistinguishErrors | ArtGalleryAppBINB/Core/Utilities/Errors/APIError.swift:18-19 | server errors with different codes have different descriptions |
| ArtworkApiService.ParamValue | ArtGalleryAppBINB/Core/Services/Network/ArtworkAPIService.swift:11-42 | a name has no value exactly when no parameter starts with `name=`; otherwise the value is the rest of the first parameter that does |
| ArtworkApiService.JoinedParams | ArtGalleryAppBINB/Core/Services/Network/ArtworkAPIService.swift:11-42 | a URL whose query is an `&`-join of `&`-free parameters has exactly those parameters and the path before `?` |
| ArtworkApiService.FetchArtworksParams | ArtGalleryAppBINB/Core/Services/Network/ArtworkAPIService.swift:10-13 | the list request sends exactly page, limit and fields, in that order, to `/artworks` |
| ArtworkApiService.FetchArtworksDefaults | ArtGalleryAppBINB/Core/Services/Network/ArtworkAPIService.swift:10 | the defaults are page 1, 20 per page |
| ArtworkApiService.SearchArtworksParams | ArtGalleryAppBINB/Core/Services/Network/ArtworkAPIService.swift:16-20 | when the encoded query has no `&`, the search sends exactly q, limit and fields to `/artworks/search`, with q equal to the encoded query (or the raw one when encoding fails) |
| ArtworkApiService.FilterArtworksByYearParams | ArtGalleryAppBINB/Core/Services/Network/ArtworkAPIService.swift:23-26 | the year filter sends exactly the two `date_start` bounds, the limit (100 by default) and the fields |
| ArtworkApiService.FetchArtworkDetailParts | ArtGalleryAppBINB/Core/Services/Network/ArtworkAPIService.swift:29-38 | the detail path ends in the id, which reads back, and the only parameter is the detail fields |
| ArtworkApiService.FetchArtworksByArtistParams | ArtGalleryAppBINB/Core/Services/Network/ArtworkAPIService.swift:41-44 | the artist request sends exactly the artist id term, the limit and the fields |
| ArtworkApiService.AmpersandExample | ArtGalleryAppBINB/Core/Services/Network/ArtworkAPIService.swift:16-18 | as written, a search for `a&b` sends `q=a` |
| ArtworkApiService.AmpersandCutsSearchQuery | ArtGalleryAppBINB/Core/Services/Network/ArtworkAPIService.swift:16-18 | as written, a query holding `&` sends as q only the encoding of the part before its first `&`, which differs from the whole query's encoding |
| ArtworkApiService.SearchCorrectedKeepsQuery | ArtGalleryAppBINB/Core/Services/Network/ArtworkAPIService.swift:16-18 | with `&` escaped, every query gives exactly three parameters, and q is the whole encoded query |
| ArtworkApiService.SearchCorrectedDecodesBack | ArtGalleryAppBINB/Core/Services/Network/ArtworkAPIService.swift:16-18 | the corrected q percent-decodes back to an ASCII query |
| ArtworkApiService.PerformRequest | ArtGalleryAppBINB/Core/Services/Network/ArtworkAPIService.swift:47-73 | every outcome is classified: `invalidURL` exactly when the URL does not parse, `networkError` carrying a thrown error, `noData` for a non-HTTP response, `serverError` carrying a non-2xx status, `decodingError` for an undecodable 2xx body, and otherwise success with the decoded value |
| ArtworkApiService.ClassifiedIsUnique | ArtGalleryAppBINB/Core/Services/Network/ArtworkAPIService.swift:47-73 | the classification admits one result per request, so it fixes what each call returns |
| ArtworkApiService.FetchArtworks | ArtGalleryAppBINB/Core/Services/Network/ArtworkAPIService.swift:10-13 | classified as `performRequest` classifies this call's URL: `invalidURL` exactly when it does not parse, each failure its own error, and success exactly for a decodable 2xx body, with the decoded value |
| ArtworkApiService.SearchArtworks | ArtGalleryAppBINB/Core/Services/Network/ArtworkAPIService.swift:16-20 | classified as `performRequest` classifies this call's URL: `invalidURL` exactly when it does not parse, each failure its own error, and success exactly for a decodable 2xx body, with the decoded value |
| ArtworkApiService.FilterArtworksByYear | ArtGalleryAppBINB/Core/Services/Network/ArtworkAPIService.swift:23-26 | classified as `performRequest` classifies this call's URL: `invalidURL` exactly when it does not parse, each failure its own error, and success exactly for a decodable 2xx body, with the decoded value |
| ArtworkApiService.FetchArtworkDetail | ArtGalleryAppBINB/Core/Services/Network/ArtworkAPIService.swift:29-38 | classified as `performRequest` classifies the detail URL, with success exactly for a 2xx body that decodes, giving its `data` |
| ArtworkApiService.FetchArtworksByArtist | ArtGalleryAppBINB/Core/Services/Network/ArtworkAPIService.swift:41-44 | classified as `performRequest` classifies this call's URL: `invalidURL` exactly when it does not parse, each failure its own error, and success exactly for a decodable 2xx body, with the decoded value |
| FeaturesArtworkList.HandleError | ArtGalleryAppBINB/Features/ArtworkList/ViewModels/ArtworkListViewModel.swift:74-79 | the message is the error's description and never the "Unknown error" fallback |
| FeaturesArtworkList.LoadArtworks | ArtGalleryAppBINB/Features/ArtworkList/ViewModels/ArtworkListViewModel.swift:14-30 | guarded by not loading and more pages; asks for the current page; appends its items; more pages exactly while the page asked for is below the total; a failure only sets the message |
| FeaturesArtworkList.SearchArtworks | ArtGalleryAppBINB/Features/ArtworkList/ViewModels/ArtworkListViewModel.swift:33-48 | page 1; a success shows the results and ends paging; a failure leaves an empty list and the message |
| FeaturesArtworkList.FilterByYear | ArtGalleryAppBINB/Features/ArtworkList/ViewModels/ArtworkListViewModel.swift:51-65 | like a search, but the page counter is kept |
| FeaturesArtworkList.Reset | ArtGalleryAppBINB/Features/ArtworkList/ViewModels/ArtworkListViewModel.swift:67-72 | an empty first page with more to come and no message; a load in flight keeps its flag |
| FeaturesArtworkList.ResetIsInitial | ArtGalleryAppBINB/Features/ArtworkList/ViewModels/ArtworkListViewModel.swift:5-9 | with nothing loading, a reset gives the initial state |
| FeaturesArtworkList.RetryRequestsSamePage | ArtGalleryAppBINB/Features/ArtworkList/ViewModels/ArtworkListViewModel.swift:14-30 | after a failed load the next load asks for the same page |
| FeaturesArtworkList.ResultsStopPaging | ArtGalleryAppBINB/Features/ArtworkList/ViewModels/ArtworkListViewModel.swift:33-65 | after a successful search or filter, a load does nothing |
| FeaturesArtworkList.FailedFilterResumesAtOldPage | ArtGalleryAppBINB/Features/ArtworkList/ViewModels/ArtworkListViewModel.swift:51-65 | a failed filter empties the list but the next load asks for the old page |
| FeaturesArtworkList.LoadsFetchConsecutivePages | ArtGalleryAppBINB/Features/ArtworkList/ViewModels/ArtworkListViewModel.swift:14-30 | while the API reports more pages, successive loads ask for consecutive pages, and the list is the pages' items in arrival order |
| ImageService.DownloadImage | ArtGalleryAppBINB/Core/Services/Network/ImageService.swift:73-109 | an unparseable URL fails with `invalidURL`; a thrown error passes through; success exactly for a 2xx HTTP response not labelled HTML whose body decodes |
| ImageService.LoadImage | ArtGalleryAppBINB/Core/Services/Network/ImageService.swift:21-49 | at most two requests; a success caches the image under the key; a failure leaves the cache alone |
| ImageService.DownloadFullResolutionImage | ArtGalleryAppBINB/Core/Services/Network/ImageService.swift:52-71 | success exactly for a 2xx HTTP answer from the 1686-wide CDN URL, returning its raw bytes; other statuses give `downloadFailed` |
| ImageService.ClearCache | ArtGalleryAppBINB/Core/Services/Network/ImageService.swift:111-113 | no key remains |
| ImageService.LoadImageCacheHit | ArtGalleryAppBINB/Core/Services/Network/ImageService.swift:23-27 | a cached image is returned with no request and no cache change |
| ImageService.LoadImageCdnFirst | ArtGalleryAppBINB/Core/Services/Network/ImageService.swift:31-38 | on a miss the CDN is asked first, and its success ends the load without asking the official origin |
| ImageService.LoadImageFallback | ArtGalleryAppBINB/Core/Services/Network/ImageService.swift:39-48 | when the CDN fails, the outcome is the official origin's outcome |
| ImageService.CdnAndOfficialDiffer | ArtGalleryAppBINB/Core/Utilities/Constants.swift:5-6 | the CDN and official URLs of an image never coincide |
| ImageService.CacheKeyInjective | ArtGalleryAppBINB/Core/Services/Network/ImageService.swift:23 | distinct image id and size pairs get distinct cache keys |
| ImageService.CdnOutageFallsBackToOfficial | ArtGalleryAppBINB/Core/Services/Network/ImageService.swift:31-48 | a CDN 503 and an official 200 with decodable bytes yield that image, cached, after exactly those two requests |
| ImageService.HtmlBodyRefused | ArtGalleryAppBINB/Core/Services/Network/ImageService.swift:95-100 | a 200 labelled `text/html` is refused even when its body would decode |
| ImageService.LoadAfterClearMisses | ArtGalleryAppBINB/Core/Services/Network/ImageService.swift:111-113 | after clearing, a load goes to the network |

## Left out

- UI: views, view controllers, layout, alerts' presentation, navigation, and SwiftUI and UIKit glue code. The filter sheet's outcome records which alert text would be shown.
- The debounce of the UIKit search (a 0.5 s sleep and cancellation of the previous search task) is not modelled as time. A search step is the debounced search that was not cancelled. Because there is no clock, the "cancelled after the reply" early return is not modelled.
- Task interleaving inside one view-model call is not modelled: a call and the reply it awaits are one atomic step. The `isLoading` guard is therefore checked atomically, and concurrent overlapping loads are out of scope.
- `NSCache` eviction policy (count and cost limits) is an arbitrary removal of keys (`ImageCache.Evict`). The SwiftUI `ImageService` cache is a plain map without eviction.
- File-system errors other than "write failed" and "removal failed" are left out, as are the directory's creation and JPEG compression quality. `jpegData` is an opaque function.
- `ImageCache.DiskName`: `abs(hashValue)` traps on `Int.min`. The model requires the hash to differ from it (`HashIsAbsSafe`) instead of modelling the crash.
- `URL(string:)`, `URLComponents`, `JSONDecoder` and `UIImage(data:)` are parameters. The model does not say which texts they accept, except for the key strategy of the UIKit decoder (`JsonKeys`, `ResponseDecoding`).
- `Endpoints.Url`: how `URLComponents` percent-encodes query items is not modelled. The URL is an opaque builder's result over the path and items.
- Duplicate JSON keys are modelled as "the first member wins". Foundation's behaviour for duplicates is not specified.
- `currentPage + 1` overflowing `Int` traps in Swift. The model's page counters are unbounded integers.
- `FeaturesArtworkList.HandleError`: the branch for a non-`APIError` error is not modelled, because `ArtworkAPIService` throws only `APIError`.
- `ArtworkApiService.PerformRequest`: a failure the decoder reports as something other than a `DecodingError` is folded into `decodingError`.
- `DomainModels.ArtistName`: `components(separatedBy: "\n")` splits on the string `"\n"`. The model treats it as the single character, which is what the literal is.
- `UrlEncoding.DecodeEncode`: the percent-decoding round trip is proved only for ASCII text. Decoding multi-byte UTF-8 escapes back into one character is not modelled.
- `ArtworkApiService.SearchCorrectedDecodesBack`: for the same reason, it is stated only for ASCII queries.
- How the server reads `+` in a query (as a space, by form-encoding convention) is not modelled. `+` is an allowed character and is sent unchanged.
- `HtmlParser`: `\s` is ICU's White_Space property and `whitespacesAndNewlines` is the same set. Both are written out as character lists, with the Unicode category Zs as the explicit list of its 17 code points.
- `Text.ReplaceAll`: its own contract gives only length and first-character facts. What a replacement does to the text is stated one step at a time: `ReplaceAllMatch` (an occurrence at the front) and `ReplaceAllNoMatchHere` (none at the front) between them cover every non-empty input. `ReplaceAllSkip`, `ReplaceAllMismatch` and `ReplaceAllNearMiss` are the same steps taken over several characters at once.
- `HtmlParser.DecodeEntities`: its own contract is a length bound. Each entity's decoding is stated by `DecodeEntity`, `DecodeAmpersand` and `AmpersandDecodedTwice`. `DecodeAmpersand` leaves out `&amp;` followed by `l`, `g` or `q`, because whether those decode twice depends on the letters after them; `AmpersandDecodedTwice` covers the three cases that do. A lone `&` is stated by `DecodeLoneAmpersand` when the next character is not `n`, `a`, `l`, `g` or `q`. An `&` before one of those letters that starts no entity is covered only by `DecodeEntitiesAbsent`, for text holding no entity at all.
- `HtmlParser.StripTags`: its own contract gives shape and origin only. Keeping the text between tags is stated by `StripTagsKeepsText`, `StripTagsDropsTag`, `StripTagsRemovesTag` and `StripTagsKeepsUnclosed`.
- `HtmlParser.CollapseSpaces`: its own contract gives shape only. Keeping words and shrinking each whitespace run to one space are stated by `CollapseSpacesKeepsWord` and `CollapseSpacesRun`.
- `HtmlParser.HtmlToAttributedString`: its own contract gives shape only. Keeping the text is stated by `ElementTextKept` for one element around clean text and by `PlainTextUnchanged` for clean text alone. For other markup the model's definitions give the result, but no lemma states it in closed form.
- `JsonKeys.FromSnakeCase`: case mapping is ASCII only. Foundation's `lowercased()` and `capitalized` also map non-ASCII letters, and `capitalized` starts a new word after whitespace inside a component; neither occurs in the API's keys. The contract itself states that the leading and trailing `_` runs are kept. The middle of the key is stated by `FromSnakeCaseKeepsPlainKey`, `FromSnakeCaseOfSnake` and `FromSnakeCaseHasNoJoint`.
- `JsonKeys.FromSnakeCaseOfSnakeCase`: names that start with a capital are excluded, because the conversion does not give them back (`CapitalisedNameNotRecovered`).
- `JsonKeys.CamelCodingKeyFound`: for the same reason, coding keys that start with a capital are excluded.
- Printing and logging (`print`) are left out.

## Findings

| source | as written | input that shows it | evidently intended | confidence | as-written member | corrected member |
|---|---|---|---|---|---|---|
| ArtGalleryAppBINB/Common/Utilities/ImageDownloader.swift:43-66 | a finishing task removes `activeTasks[cacheKey]` whatever task that entry now names | request a URL, cancel it, request it again, then let the first (cancelled) task finish; a third request for the URL starts a second live download | a completion only unregisters its own task | medium, not executed | ImageDownloader.FinishTask, ImageDownloader.StaleCompletionUnregistersNewerTask | ImageDownloader.FinishTaskGuarded, ImageDownloader.GuardedCompletionKeepsNewerTask |
| ArtGalleryAppBINB/Data/Network/APIClient.swift:43-45 | the decoder converts JSON keys from snake_case, and the `CodingKeys` of `Pagination` (PaginatedResponse.swift lines 22-28) and `ArtworkDTO` (ArtworkDTO.swift lines 42-57) also declare snake_case raw values, so no converted key ever equals `total_pages` or `artist_display` | any list response: `{"total_pages": 5, …}` converts to `totalPages`, which the key `total_pages` never matches, so `Pagination` fails to decode and every list request fails with `decodingError` | either the conversion or the snake_case raw values, not both | high, not executed | ResponseDecoding.DecodePaginationAsWritten, ResponseDecoding.PaginationNeverDecodesAsWritten, ResponseDecoding.RenamedFieldNeverFound | ResponseDecoding.DecodePaginationCorrected, ResponseDecoding.PaginationDecodesCorrected, ResponseDecoding.FieldFoundCorrected |
| ArtGalleryAppBINB/Core/Services/Network/ArtworkAPIService.swift:17-18 | `.urlQueryAllowed` does not escape `&`, so a query holding `&` ends the `q` parameter early | query `a&b` sends `q=a`, followed by a stray parameter `b` | the whole query is the value of `q` | high, not executed | ArtworkApiService.AmpersandExample, ArtworkApiService.AmpersandCutsSearchQuery | ArtworkApiService.SearchArtworksUrlCorrected, ArtworkApiService.SearchCorrectedKeepsQuery |

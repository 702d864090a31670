# Contact search widget — Dafny model

This project models the logic of the contact-lookup widget in `src/ContactSearch.tsx`. The widget takes an email address and asks a remote CRM service for a matching contact. It shows the first contact found, or a "not found" message, and it keeps a short list of recent successful searches in durable storage. The model has five modules:

- `Wrappers`: the `Option` type, used for the nullable values (`error`, `contact`, the image source).
- `ProfilePicture`: the profile-picture source resolver (`getProfilePictureSrc`). It sorts a raw picture value into one of three cases: a remote http(s) URL, returned unchanged; a long base64 payload, wrapped into a `data:` URI whose MIME type is guessed from the payload's first characters; or nothing.
- `RecentSearches`: the recent-list update that runs after a successful search (`MAX_RECENT = 3`, most recent first, no repeats of the query), and the list's initial value read from storage.
- `Contacts`: the contact record as the card reads it, with the display fallbacks (`'No Name'`, `'N/A'`, phone and city lines left out when not non-empty strings) and the guard in front of the picture resolver.
- `SearchController`: class `Controller`, which holds the component's state fields (`email`, `loading`, `error`, `contact`, `recent`, `storage`). It has `Search`, which is `handleSearch`, and `OnResponse`, which is the service's completion callback.

Services the model cannot see are parameters. JSON parsing is a function `string -> Parsed`, where `Parsed` is `ParseFailed | NotArray | Array(items)`. JSON serialisation is a function `seq<string> -> string`. Storage is a `map<string, string>`. The remote call is recorded as a `Request` appended to `pending`, and the response is an explicit call to `OnResponse(k, data)` for pending request `k`.

The record's fields have no declared types, so a field is typed as `Field = Missing | Text(s) | Other(truthy, rendered)`. This makes JavaScript truthiness, `typeof … === 'string'` and `String(v)` explicit.

In three places the code behaves differently from what one might expect; the model follows the code:

- While `loading`, only the input and the main button are disabled. The recent-search buttons stay enabled, so several requests can be pending at once. `pending` is therefore a sequence, and responses may arrive in any order (`SearchController.OverlappingSearches`).
- The fields are independent flags, not one sum-typed state. A successful response does not clear `error`, and an empty response does not clear `contact`. With overlapping requests, a contact and the not-found message can be on screen together.
- Initialisation keeps any parsed array and does not check that its elements are strings. The stored list may therefore be longer than 3 or hold duplicates. Searching an entry already in the list never makes it longer (`UpdateRecentNeverLengthens`, for any stored list). The length stays exactly the same only when the query occurs once and the list has at most 3 entries (`UpdateRecentMovesToFront`). With the query stored twice the list shrinks: `UpdateRecentCollapsesDuplicates` shows `[a, a]` becoming `[a]`.

## Model

| member | source | states |
|---|---|---|
| `ProfilePicture.SniffMime` | src/ContactSearch.tsx:35-37 | the MIME type is `image/png` exactly when the payload starts with `iVBOR`, and `image/jpeg` in every other case (the `/9j` prefix and unknown prefixes alike) |
| `ProfilePicture.Classify` | src/ContactSearch.tsx:31-41 | the outcome is a remote URL exactly for an http(s) prefix; an inline image exactly for a non-URL of over 100 characters, carrying the sniffed MIME type; no image exactly for the empty value or a non-URL of at most 100 characters |
| `ProfilePicture.ProfilePictureSrc` | src/ContactSearch.tsx:31-41 | a source is produced only for a non-empty value |
| `ProfilePicture.NoSourceIff` | src/ContactSearch.tsx:32-34 | the result is null if and only if the value is empty, or it is not an http(s) URL and is at most 100 characters long |
| `ProfilePicture.UnchangedIffRemoteUrl` | src/ContactSearch.tsx:33 | the value is returned unchanged if and only if it starts with `http://` or `https://`, whatever its length, because the URL test comes before the length test |
| `ProfilePicture.InlinePayload` | src/ContactSearch.tsx:34-38 | a non-URL value of over 100 characters becomes `data:image/png;base64,<value>` when it starts with `iVBOR`, and `data:image/jpeg;base64,<value>` otherwise |
| `ProfilePicture.DataUriShape` | src/ContactSearch.tsx:38 | a produced data URI ends with the original value, and has the PNG header exactly when the value starts with `iVBOR` (the JPEG header otherwise) |
| `ProfilePicture.DataUriHeader` | src/ContactSearch.tsx:38 | a `data:<mime>;base64,<payload>` string ends with the payload and starts with the PNG header exactly when the MIME type is PNG, with the JPEG header otherwise |
| `ProfilePicture.Boundaries` | src/ContactSearch.tsx:31-41 | worked cases: empty gives null, a short URL is returned unchanged, `"short"` gives null, length 100 gives null, length 101 gives a JPEG data URI, a 150-character `iVBOR…` value gives a PNG data URI, a 150-character `/9j…` value gives a JPEG data URI, a 128-character URL is returned unchanged |
| `RecentSearches.Without` | src/ContactSearch.tsx:64 | the filter removes every occurrence of the query and keeps every other entry with its multiplicity, never grows the list, and changes nothing when the query is absent; `WithoutIsSubsequence` adds that the order is kept |
| `RecentSearches.WithoutIsSubsequence` | src/ContactSearch.tsx:64 | the filtered list keeps the remaining entries in their original order (a subsequence of the input) |
| `RecentSearches.Take` | src/ContactSearch.tsx:64 | `.slice(0, n)` gives a prefix of the list with `n` entries, or the whole list when it is shorter |
| `RecentSearches.UpdateRecent` | src/ContactSearch.tsx:64 | the new list holds 1 to 3 entries, the query is at index 0 and nowhere else, and every other entry comes from the previous list; the entries after the query are the most recent ones of the filtered previous list (a prefix of it), so truncation drops the oldest; its length is one more than the filtered list, capped at 3 |
| `RecentSearches.UpdateRecentKeepsOrder` | src/ContactSearch.tsx:64 | the query occurs exactly once, and the remaining entries are a subsequence of the previous list, in their old order |
| `RecentSearches.UpdateRecentEvictsOnlyWhenFull` | src/ContactSearch.tsx:64 | an old entry other than the query is dropped only when the new list is full (3 entries) |
| `RecentSearches.UpdateRecentDistinct` | src/ContactSearch.tsx:64 | a previous list without duplicates gives a new list without duplicates |
| `RecentSearches.UpdateRecentMovesToFront` | src/ContactSearch.tsx:64 | searching an entry held once in a list of at most 3 entries moves it to the front, leaves the others (repeats included) in order, and keeps the length |
| `RecentSearches.UpdateRecentNeverLengthens` | src/ContactSearch.tsx:64 | searching an entry already in the list, whatever its length or duplicates, never makes the list longer |
| `RecentSearches.UpdateRecentKeepsOtherRepeats` | src/ContactSearch.tsx:64 | worked case: `[b, b, q]` searched with `q` becomes `[q, b, b]` |
| `RecentSearches.UpdateRecentDropsOldest` | src/ContactSearch.tsx:64 | worked case: a full `[a, b, c]` searched with `d` becomes `[d, a, b]` |
| `RecentSearches.UpdateRecentCollapsesDuplicates` | src/ContactSearch.tsx:64 | a stored list with the query twice shrinks: `[a, a]` becomes `[a]` |
| `RecentSearches.UpdateRecentIdempotent` | src/ContactSearch.tsx:64 | repeating the same successful search leaves the list as it is |
| `RecentSearches.InitRecent` | src/ContactSearch.tsx:18-29 | a non-empty initial list is exactly the parsed array stored under `recentSearches`; a non-empty stored value that parses to an array yields that array; an absent key, an empty value, a parse failure or a non-array all yield `[]` |
| `RecentSearches.InitAfterPersist` | src/ContactSearch.tsx:19-23 | writing a list with an encoder that the parser inverts, then initialising again, gives back the same list |
| `Contacts.DisplayName` | src/ContactSearch.tsx:131-133 | the name shown is `FileAs` if truthy, else `FullName` if truthy, else `No Name`; with string or absent fields it is never empty |
| `Contacts.DisplayEmail` | src/ContactSearch.tsx:134-136 | the email shown is `Email1Address` if truthy, else `N/A`; with a string or absent field it is never empty |
| `Contacts.OptionalLine` | src/ContactSearch.tsx:137-146 | the phone line (`PhoneLine`, field `TelephoneNumber1Normalized`, line 137) and the city line (`CityLine`, field `BusinessAddressCity`, line 142) are each shown, with the field's text, if and only if the field is a non-empty string |
| `Contacts.PictureSrc` | src/ContactSearch.tsx:75-77 | the resolver is consulted only for a non-empty string picture field; any other value shows the placeholder |
| `SearchController.ResolveQuery` | src/ContactSearch.tsx:44-45 | a non-empty explicit argument is used, otherwise the input field; the query is empty exactly when both are empty |
| `SearchController.Controller.SearchButtonEnabled` | src/ContactSearch.tsx:112 | an enabled search button implies an enabled input and a non-empty query from the input field; when not loading, the button is disabled only for an empty input |
| `SearchController.Controller.constructor` | src/ContactSearch.tsx:13-29 | empty input, not loading, no error, no contact, nothing pending, and the recent list initialised from storage |
| `SearchController.Controller.SetEmail` | src/ContactSearch.tsx:87 | typing changes the input field and nothing else |
| `SearchController.Controller.Search` | src/ContactSearch.tsx:43-56 | an empty resolved query changes nothing; otherwise loading is set, error and contact are cleared, and one `SearchContacts` request for the query with profile pictures is added; the input, recent list and storage are untouched; clicking the enabled search button always issues a request; a started search disables the input and the search button (`InputEnabled`, `SearchButtonEnabled`, the guards at lines 89 and 112) |
| `SearchController.Controller.OnResponse` | src/ContactSearch.tsx:57-71 | loading ends and the request is no longer pending; a non-empty result shows its first contact, puts the recent list through the update rule, stores its encoding under `recentSearches` and leaves `error` as it was; an empty result sets the not-found message and leaves the contact, recent list and storage unchanged; after any response the input is enabled again, and the search button is enabled exactly when the input is non-empty |

## Left out

- JSX rendering, CSS and React hook mechanics (src/ContactSearch.tsx:79-151). Only the state fields, their transitions and the values the card displays are modelled.
- `connection.callMethod` (src/ContactSearch.tsx:51-57) is a foreign transport client. The model records the request and makes the callback an explicit method. Transport failures, and a callback that never comes, are not modelled.
- `JSON.parse`, `JSON.stringify` and `localStorage` are abstract parameters and a map. `JSON.parse` throwing is the `ParseFailed` case.
- The element type of a parsed array. The source casts it to `string[]` without checking, so the model takes the parsed array to hold strings. Non-string elements are not modelled.
- The regular expression engine. `/^https?:\/\//` is modelled as a case-sensitive prefix test.
- String length. JavaScript counts UTF-16 code units, while the model counts Dafny characters. The two differ only for characters outside the Basic Multilingual Plane.
- React's functional state updater and its possible double call in strict mode. The update happens once, on the latest recent list.
- SetEmail, Search: the model lets them run while `loading`, although the source disables the input and the main button then (src/ContactSearch.tsx:89,112). The model therefore admits more call sequences than the page allows; `InputEnabled` and `SearchButtonEnabled` state the guards without enforcing them.
- The component's `ContactSearch.css` and the types in `./eWayAPI/ContactsResponse` are not part of this model.

# franzkafka — a verified model of the blogging core

franzkafka is a small writing and publishing app: a writer connects the
browser to a Supabase project (a hosted Postgres with `profiles` and `posts`
tables), signs in, writes a post in the editor, saves it, and manages the
saved posts on a dashboard. This project models the logic behind those
screens and proves what it guarantees:

- **Connection configuration** (`SupabaseConfig`, `SupabaseBrowser`): how a
  url and public key are cleaned up and accepted, that a configuration saved
  in local storage wins over the environment's, and the per-configuration
  client cache, whose key `url::key` can make two different configurations
  share one client.
- **Usernames** (`Username`, `EnsureProfile`): deriving a username from an
  e-mail address, normalising a typed username, and creating a missing
  profile row with one retry under a suffixed name when the first is taken.
- **Text metrics** (`Text`): stripping HTML, counting words and turning a
  word count into reading minutes.
- **Screens** (`ProfileSettings`, `Editor`, `Dashboard`): the profile
  settings form, the editor's draft handling, slug generation and save, and
  the dashboard's fetch, delete, share and legacy-draft fix. Each screen's
  state is a class whose handlers are methods proved equal to a function of
  the old state; the properties are lemmas about those functions.
- **Shared pieces**: the JavaScript string operations the code relies on
  (`JsText`: `trim` with JavaScript's white-space set, `toLowerCase`,
  `replace(/\s+/g, …)`, `slice`, `split('@')[0]`), `JSON.stringify` of flat
  string objects (`Json`), `localStorage` (`Storage`), and the two tables
  with the unique-username constraint (`Backend`).

Everything the code cannot decide for itself is a parameter: the error (if
any) each backend call reports, the current time `now`, the random suffix of
the second username candidate, whether a connection resolves, the user's
answer to a confirmation dialog, `JSON.parse` and the protocol `new URL`
reports.

Four behaviours of the code as written are stated as lemmas rather than
corrected: `normalizeUrl` is not idempotent for a url ending in white space
followed by '/' (`NormalizeUrlNotIdempotent`); two configurations can share
a client cache key (`CacheKeyNotInjective`); the editor's save creates a
missing profile with the raw local part of the e-mail address, which need
not be a valid username (`SaveUsernameUnchecked`); and `ensureProfile`'s
retry name, the suggestion followed by '-' and a random suffix, exceeds the
24-character limit when the suggestion is 24 characters long
(`RetryCandidateTooLong`). Only the first `ensureProfile` candidate is
always a valid username.

## Model

| member | source | states |
|---|---|---|
| JsText.TrimStartSpec | src/lib/supabase-config.ts:9 | the part `trim` removes at the front is all white space and what remains starts with a non-space character |
| JsText.TrimEndSpec | src/lib/supabase-config.ts:9 | the part removed at the back is all white space and what remains ends with a non-space character |
| JsText.TrimSplits | src/lib/text.ts:8 | a string is its leading white space, its trimmed text and its trailing white space, in that order |
| JsText.TrimRemovesOnlySpace | src/lib/text.ts:8 | both cut-off ends consist of white space only |
| JsText.TrimEdges | src/lib/text.ts:8 | a trimmed string is empty or starts and ends with a non-space character |
| JsText.TrimIdentity | src/lib/username.ts:13 | a string without white space at either end is its own trim |
| JsText.TrimIdempotent | src/lib/username.ts:13 | trimming twice is trimming once |
| JsText.LowerChar | src/lib/username.ts:4 | lower-casing one character yields one or two characters, so a lower-cased string can grow |
| JsText.LowerConcat | src/lib/username.ts:4 | lower-casing distributes over concatenation |
| JsText.LowerOfSpace | src/lib/username.ts:13 | lower-cased white space stays white space |
| JsText.LowerIdentity | src/app/yaz/page.tsx:18 | a string whose characters each lower-case to themselves is its own lower case |
| JsText.ReplaceSpaceRunsSpec | src/lib/text.ts:7 | replacing white-space runs yields the empty string only for the empty input, starts with `repl` when the input starts with white space and with the input's first character otherwise, puts at every position `repl` or a non-space character drawn from the input, and leaves no white space next to white space |
| JsText.ReplaceSpaceRunsOneRun | src/lib/text.ts:7 | one white-space run after white-space-free text becomes exactly one `repl`, the text before it is kept unchanged, and replacement continues after the run |
| JsText.ReplaceSpaceRunsKeepsText | src/lib/text.ts:7 | with a white-space replacement such as ' ', the non-space characters of the result are exactly those of the input, in the same order |
| JsText.TrimStartAfterSpace | src/lib/text.ts:7 | the regex `\s+` is greedy: a run followed by a non-space character is consumed whole |
| JsText.ReplaceSpaceRunsIdentity | src/app/yaz/page.tsx:25 | a string without white space is unchanged |
| JsText.BeforeFirst | src/lib/username.ts:2 | `split(c)[0]` is a prefix free of `c`, followed in the input by `c` unless it is the whole input |
| JsText.BeforeFirstSeparator | src/lib/username.ts:2 | `split(c)[0]` of `a`, `c`, `b` with no `c` in `a` is `a` |
| JsText.NatToString | src/lib/username.ts:9 | a timestamp prints as a non-empty string of decimal digits |
| Seqs.FilterConcat | src/lib/text.ts:16 | filtering distributes over concatenation |
| Seqs.FilterMembership | src/app/dashboard/page.tsx:59 | an element survives a filter exactly when it was present and satisfies the predicate |
| Seqs.FilterAll | src/app/yaz/page.tsx:26 | filtering a sequence whose elements all pass returns it unchanged |
| Seqs.FilterNone | src/app/yaz/page.tsx:26 | filtering a sequence whose elements all fail returns the empty sequence |
| Seqs.Map | src/app/dashboard/page.tsx:155 | mapping keeps the length and applies the function at every position |
| Json.StringifyObject | src/lib/supabase-config.ts:51 | the text of an object is non-empty and opens with '{' |
| Storage.LocalStorage.GetItem | src/lib/supabase-config.ts:38 | reading a key gives its stored value, and null for a missing key |
| Storage.LocalStorage.SetItem | src/lib/supabase-config.ts:51 | writing a key changes that key only |
| Storage.LocalStorage.RemoveItem | src/lib/supabase-config.ts:56 | removing a key deletes it and keeps every other key |
| SupabaseConfig.StripTrailingSlashes | src/lib/supabase-config.ts:9 | removing `/+$` cuts a suffix made only of '/', and what remains does not end in '/' |
| SupabaseConfig.NormalizeUrl | src/lib/supabase-config.ts:8-10 | a normalised url is empty or starts with a non-space character and does not end in '/' |
| SupabaseConfig.NormalizeUrlStable | src/lib/supabase-config.ts:8-10 | normalising twice equals normalising once when the first result does not end in white space |
| SupabaseConfig.NormalizeUrlNotIdempotent | src/lib/supabase-config.ts:8-10 | "a /" normalises to "a ", which normalises further to "a" |
| SupabaseConfig.CleanUrlIsNormal | src/lib/supabase-config.ts:8-10 | a url without edge white space or a trailing '/' is already normal |
| SupabaseConfig.ParseConfig | src/lib/supabase-config.ts:12-26 | parsing throws exactly when both fields are truthy and one is not a string; every accepted configuration has a non-empty url that starts without white space, does not end in '/' and has an http or https protocol, and a non-empty trimmed key |
| SupabaseConfig.ParseConfigAccepts | src/lib/supabase-config.ts:12-26 | a configuration is accepted exactly when both fields are strings, the normalised url and trimmed key are non-empty, and the protocol is http or https; the result is the normalised url and the trimmed key |
| SupabaseConfig.ParseConfigCanThrow | src/lib/supabase-config.ts:13-15 | a truthy non-string url makes `parseConfig` throw, while inputs built from strings or undefined never do |
| SupabaseConfig.ParseAcceptsNormal | src/lib/supabase-config.ts:12-26 | an already-normal configuration with an http or https url is returned unchanged |
| SupabaseConfig.ParseRoundTrip | src/lib/supabase-config.ts:12-26 | every accepted configuration whose url does not end in white space is accepted again unchanged |
| SupabaseConfig.Validated | src/lib/supabase-config.ts:49-50 | the save path only ever keeps acceptable configurations |
| SupabaseConfig.EnvConfig | src/lib/supabase-config.ts:28-33 | the environment's configuration is acceptable when present, and missing exactly when parsing the two variables returns null |
| SupabaseConfig.StoredIn | src/lib/supabase-config.ts:35-45 | a stored configuration is acceptable when present, and missing without a window, with an absent or empty entry, or when the stored text parses to anything but an object (malformed JSON, null, another value) |
| SupabaseConfig.StoredWrongShape | src/lib/supabase-config.ts:37-44 | a stored object whose `url` or `anonKey` is not a string gives null, whether `parseConfig` rejects it or its `.trim()` throws and is caught |
| SupabaseConfig.StoredConfig | src/lib/supabase-config.ts:35-45 | defines `getStoredSupabaseConfig` over the page's local storage; its properties are those of `StoredIn` |
| SupabaseConfig.ResolveConfig | src/lib/supabase-config.ts:59-61 | defines `resolveSupabaseConfig` over local storage and the environment; its properties are those of `ResolveIn` |
| SupabaseConfig.ResolveIn | src/lib/supabase-config.ts:59-61 | a stored configuration wins, otherwise the environment's applies |
| SupabaseConfig.StoredRoundTrip | src/lib/supabase-config.ts:35-52 | a configuration written by the save path is read back, and it is the one resolved |
| SupabaseConfig.ResolveAfterClear | src/lib/supabase-config.ts:54-61 | after the entry is cleared nothing is stored, and resolution falls back to the environment |
| SupabaseConfig.SaveConfig | src/lib/supabase-config.ts:47-52 | without a window nothing happens; an invalid configuration throws and stores nothing; a valid one is stored as its JSON text under the storage key and then reads back |
| SupabaseConfig.ClearConfig | src/lib/supabase-config.ts:54-57 | the storage key is removed, other keys are kept, and no stored configuration remains |
| SupabaseBrowser.CacheKey | src/lib/supabase-browser.ts:13 | the key is the url, two separator characters, then the key, so both parts can be read back by position |
| SupabaseBrowser.CacheKeyNotInjective | src/lib/supabase-browser.ts:13-15 | two different configurations can have the same cache key |
| SupabaseBrowser.CacheKeyInjective | src/lib/supabase-browser.ts:13 | keys identify configurations when no url contains "::" and no public key starts with ':' |
| SupabaseBrowser.SeparatorClash | src/lib/supabase-browser.ts:13 | any key collision needs a url containing "::" or a public key starting with ':' |
| SupabaseBrowser.ClientCache.GetClient | src/lib/supabase-browser.ts:7-20 | no configuration throws and leaves the cache alone; a cached key returns the cached client; a new key creates a fresh client for that configuration and caches it; no entry is ever replaced |
| SupabaseBrowser.ClientCache.GetClientTwice | src/lib/supabase-browser.ts:7-20 | two calls in a row return the same client, and fail exactly when no configuration resolves |
| AuthError.JoinAppend | src/lib/auth-error.ts:16 | joining one more part appends the separator and that part |
| AuthError.MessageOf | src/lib/auth-error.ts:10 | a non-empty message of the error is used; a missing or empty one is replaced by the fallback |
| AuthError.Formatted | src/lib/auth-error.ts:8-17 | defines the formatted text in closed form: the message, then ` \| status=…` when a status is present, then ` \| code=…` when the code is non-empty; `FormatAuthError` is proved equal to it |
| AuthError.FormatAuthError | src/lib/auth-error.ts:8-17 | the parts pushed and then joined are the message, then `status=…` when a status is present, then `code=…` when the code is non-empty |
| AuthError.FormattedStartsWithMessage | src/lib/auth-error.ts:10-16 | the text starts with the message, which is the fallback when the error has no message or an empty one |
| AuthError.FormattedWithoutInput | src/lib/auth-error.ts:9-10 | with no error object the text is the fallback |
| AuthError.FormattedMessageOnly | src/lib/auth-error.ts:13-16 | without a status and a non-empty code the text is the message alone |
| AuthError.FormattedAll | src/lib/auth-error.ts:11-16 | with all three fields the text is `message \| status=… \| code=…` |
| Text.FindFolded | src/lib/text.ts:4-5 | case-insensitive search returns the first match at or after the start position, or reports that none exists |
| Text.RemoveBlocks | src/lib/text.ts:4-5 | removing `<style>` and `<script>` blocks never lengthens the text |
| Text.RemoveBlocksIdentity | src/lib/text.ts:4-5 | text without an opening tag is unchanged |
| Text.ReplaceTags | src/lib/text.ts:6 | replacing tags by a space never lengthens the text; what it replaces is stated by ReplaceTagsOneTag |
| Text.ReplaceTagsOneTag | src/lib/text.ts:6 | a tag `<t>` with non-empty, '>'-free `t`, after text without '<', becomes exactly one space; the text before it is kept and replacement continues after the '>' |
| Text.ReplaceTagsNoNewGt | src/lib/text.ts:6 | tag replacement introduces no '>' |
| Text.ReplaceTagsTagFree | src/lib/text.ts:6 | after replacement no '<' is followed later by a '>', except as the empty pair `<>` |
| Text.ReplaceTagsIdentity | src/lib/text.ts:6 | text that is already tag-free is unchanged |
| Text.TrimNoDoubleSpace | src/lib/text.ts:7-8 | trimming keeps a text free of adjacent white space |
| Text.TagFreeSlice | src/lib/text.ts:6 | a contiguous part of tag-free text is tag-free |
| Text.ReplaceSpaceRunsTagFree | src/lib/text.ts:6-7 | collapsing white-space runs to a space keeps a text tag-free |
| Text.TrimTagFree | src/lib/text.ts:6-8 | trimming keeps a text tag-free |
| Text.StripHtml | src/lib/text.ts:1-9 | stripped text has no white space at either end, no two white-space characters side by side, and no `<[^>]+>` match left |
| Text.TrimKeepsText | src/lib/text.ts:8 | trimming removes white space only: the other characters are kept in order |
| Text.StripHtmlKeepsText | src/lib/text.ts:1-9 | the non-space characters of the stripped text are exactly those left after block removal and tag replacement, in order |
| Text.SplitOnSpace | src/lib/text.ts:15 | defines `split(/\s+/)`: the longest white-space-free prefix, then the split of what follows its white-space run; it never returns an empty list |
| Text.CountWords | src/lib/text.ts:11-18 | defines `countWords`: 0 for empty text, else the number of non-empty pieces of the split of the trimmed text; `CountWordsIsRuns` gives its meaning |
| Text.Runs | src/lib/text.ts:11-18 | defines the independent reference count: the number of maximal runs of non-white-space characters |
| Text.ReadingTime | src/lib/text.ts:20-23 | defines `max(1, Math.round(words / 200))` over the reals; `ReadingTimeClosedForm` gives its integer form |
| Text.TakeWhileNotSpace | src/lib/text.ts:15 | the first word is the longest white-space-free prefix |
| Text.RunStartsAfterSpace | src/lib/text.ts:15 | leading white space adds no word |
| Text.RunStartsTrailingSpace | src/lib/text.ts:14 | trailing white space adds no word |
| Text.RunStartsOfSpace | src/lib/text.ts:12-17 | white space alone holds no word |
| Text.RunStartsWord | src/lib/text.ts:15 | a non-space prefix counts as one word, when it starts a word |
| Text.SplitCountsRuns | src/lib/text.ts:15-17 | splitting on white-space runs and dropping empty pieces leaves one piece per maximal run of non-space characters |
| Text.RunsOfTrim | src/lib/text.ts:14 | trimming does not change the number of runs |
| Text.CountWordsIsRuns | src/lib/text.ts:11-18 | the word count equals the number of maximal runs of non-space characters |
| Text.CountWordsOfSpace | src/lib/text.ts:12-17 | empty or all-white-space text counts zero words |
| Text.RoundedMinutes | src/lib/text.ts:22 | rounding words/200 to the nearest integer (halves up) equals (words + 100) div 200 |
| Text.ReadingTimeClosedForm | src/lib/text.ts:20-23 | reading time is at least one minute, otherwise words/200 rounded |
| Text.ReadingTimeMonotone | src/lib/text.ts:20-23 | more words never mean fewer minutes |
| Username.KeepUsernameChars | src/lib/username.ts:5 | only `[a-z0-9_-]` characters remain |
| Username.LocalPart | src/lib/username.ts:2 | the raw part is never empty, because `user` replaces an empty one |
| Username.Cleaned | src/lib/username.ts:3-6 | the cleaned part has at most 24 characters, all from `[a-z0-9_-]` |
| Username.FallbackUsername | src/lib/username.ts:9 | the fallback `user-` plus the last six digits of the timestamp has 6 to 11 username characters |
| Username.UsernameFromEmail | src/lib/username.ts:1-10 | the derived username always has 3 to 24 characters from `[a-z0-9_-]`; its value is stated by UsernameKeepsValidLocalPart, UsernameShortLocalPart, UsernameWithoutLocalPart and LongLocalPartFillsLimit |
| Username.CleanUsernameChars | src/lib/username.ts:3-5 | text made of `[a-z0-9_-]` contains no '@' and is its own lower-cased, filtered form |
| Username.UsernameKeepsValidLocalPart | src/lib/username.ts:2-8 | a local part that is already a valid username is the suggestion, whatever the domain |
| Username.UsernameShortLocalPart | src/lib/username.ts:2-9 | a local part of one or two characters cleans to fewer than three, so the suggestion is `user-` followed by the last six digits of the timestamp |
| Username.LongLocalPartFillsLimit | src/lib/username.ts:1-10 | a local part of at least 24 username characters gives a suggestion of exactly 24 characters |
| Username.BeforeFirstAbsent | src/lib/username.ts:2 | `split('@')[0]` of a string without '@' is the string |
| Username.UsernameIgnoresDomain | src/lib/username.ts:1-10 | the domain has no influence on the username |
| Username.UsernameWithoutLocalPart | src/lib/username.ts:2-8 | a missing address, or one with nothing before the '@', gives `user` |
| Username.NormalizeUsername | src/lib/username.ts:12-14 | a normalised username holds only `[a-z0-9_-]` characters and no white space |
| Username.NormalizeKeepsUsernames | src/lib/username.ts:12-14 | a string of username characters is its own normal form |
| Username.NormalizeUsernameIdempotent | src/lib/username.ts:12-14 | normalising twice is normalising once |
| Username.CleanConcat | src/lib/username.ts:13 | lower-casing and filtering distribute over concatenation |
| Username.CleanOfSpace | src/lib/username.ts:13 | white space is removed entirely |
| Username.NormalizeIgnoresTrim | src/lib/username.ts:13 | the trim is redundant: the filter drops white space anyway |
| Username.CleanNoLonger | src/lib/username.ts:13 | lower-casing and filtering never lengthen a string, although lower-casing alone can |
| Username.NormalizeNoLonger | src/lib/username.ts:12-14 | normalising never lengthens a string |
| Backend.InsertProfileError | src/lib/ensureProfile.ts:23-26 | an insert succeeds exactly when no fault occurs, the id is new and no other row holds the username; a duplicate fails with code 23505 |
| Backend.UpdateProfileError | src/app/settings/profile/page.tsx:51-62 | an update succeeds exactly when no fault occurs and the id is missing or no other row holds the username |
| Backend.InsertKeepsProfilesWellFormed | src/lib/ensureProfile.ts:23-26 | a successful insert keeps rows keyed by their ids and usernames unique |
| Backend.UpdateKeepsProfilesWellFormed | src/app/settings/profile/page.tsx:51-58 | a successful update keeps rows keyed by their ids and usernames unique |
| Backend.Database.SelectProfile | src/lib/ensureProfile.ts:6-10 | a lookup reports the fault, or returns the row with that id or null |
| Backend.Database.InsertProfile | src/lib/ensureProfile.ts:23-26 | the insert adds the row exactly when it reports no error, and keeps usernames unique |
| Backend.Database.UpdateProfile | src/app/settings/profile/page.tsx:51-58 | the update rewrites the username and bio of the matching row exactly when it reports no error |
| Backend.Database.InsertPost | src/app/yaz/page.tsx:107-117 | a successful insert appends the post with the next id; a failed one changes nothing |
| Backend.Database.DeletePost | src/app/dashboard/page.tsx:103-106 | a successful delete removes every row with that id |
| Backend.Database.PublishLegacyDrafts | src/app/dashboard/page.tsx:146-150 | the update marks the author's unpublished rows published and private, and leaves every other row alone |
| EnsureProfile.Candidates | src/lib/ensureProfile.ts:19-20 | there are two candidates: a valid username and that username followed by '-' and the suffix |
| EnsureProfile.RetryCandidateTooLong | src/lib/ensureProfile.ts:19-20 | for a local part of 24 or more username characters the retry name has 25 characters plus the suffix, so it is not a valid username |
| EnsureProfile.Attempt | src/lib/ensureProfile.ts:22-45 | defines the insert loop from a given candidate on: success ends with the re-read row, 23505 moves to the next candidate, any other error or the end of the list ends with null |
| EnsureProfile.Ensured | src/lib/ensureProfile.ts:5-46 | defines `ensureProfile`: a failed lookup gives null, an existing row is returned, otherwise the candidates are tried |
| EnsureProfile.EnsureProfile | src/lib/ensureProfile.ts:5-46 | the loop over the candidates produces the outcome the retry rule defines, and keeps usernames unique |
| EnsureProfile.AttemptShape | src/lib/ensureProfile.ts:22-45 | trying candidates adds at most one row, for one of the candidates, and returns only the row stored under the user's id |
| EnsureProfile.EnsuredShape | src/lib/ensureProfile.ts:5-46 | the table is unchanged or gains the user's row under the base or the suffixed name; a returned profile is that row |
| EnsureProfile.EnsuredWithoutInsert | src/lib/ensureProfile.ts:12-17 | a failed lookup returns null and an existing row is returned as is; no insert happens in either case |
| EnsureProfile.EnsuredStopsOnOtherError | src/lib/ensureProfile.ts:38-42 | an insert error other than 23505 ends with null and makes no second attempt |
| EnsureProfile.EnsuredRetriesOnConflict | src/lib/ensureProfile.ts:22-44 | a taken base name leads to a single attempt with the suffixed name |
| EnsureProfile.EnsuredBothTaken | src/lib/ensureProfile.ts:22-45 | when both names are taken the result is null and the table is unchanged |
| EnsureProfile.EnsuredCreates | src/lib/ensureProfile.ts:28-35 | a free base name is inserted, and the re-read returns the new row |
| EnsureProfile.EnsuredKeepsWellFormed | src/lib/ensureProfile.ts:5-46 | usernames stay unique whatever the backend reports |
| EnsureProfile.EnsuredIdempotent | src/lib/ensureProfile.ts:17 | once a profile exists, calling again returns it and changes nothing |
| ProfileSettings.ValidateUsername | src/app/settings/profile/page.tsx:30-36 | the result is empty exactly when the normalised username has 3 to 24 characters; shorter gives the too-short message, longer the too-long one, and the character-set message can never occur |
| ProfileSettings.ValidateNormalized | src/app/settings/profile/page.tsx:42-43 | validating the normalised name is the same as validating the raw one |
| ProfileSettings.InitialUsername | src/app/settings/profile/page.tsx:21-28 | the form starts from the stored username when it is non-empty, and from the suggestion derived from the e-mail address in every other case (no profile, no username, an empty one) |
| ProfileSettings.SuggestionValidates | src/app/settings/profile/page.tsx:21 | the suggested username always passes validation |
| ProfileSettings.InitialUsernameValidates | src/app/settings/profile/page.tsx:21-26 | without a profile the form starts with a username that passes validation |
| ProfileSettings.BioColumn | src/app/settings/profile/page.tsx:55 | an empty bio is stored as null |
| ProfileSettings.UpdateErrorMessage | src/app/settings/profile/page.tsx:60-66 | code 23505 shows the taken message, every other error the save-failed message |
| ProfileSettings.Saved | src/app/settings/profile/page.tsx:38-74 | defines `handleSave` on the form and the table: no user does nothing; an invalid name shows its message; without a connection the client getter throws with saving set; otherwise the update's error is shown or the row is written and the page goes to the dashboard |
| ProfileSettings.SaveWithoutUser | src/app/settings/profile/page.tsx:39 | with no user, saving changes nothing |
| ProfileSettings.SaveRejectsInvalid | src/app/settings/profile/page.tsx:42-47 | an invalid name shows its validation message and writes nothing |
| ProfileSettings.SaveReportsUpdateError | src/app/settings/profile/page.tsx:60-69 | a failed update writes nothing, stops saving and shows the message for its error code |
| ProfileSettings.SaveWritesNormalized | src/app/settings/profile/page.tsx:49-73 | a successful save stores the normalised, valid username and the bio in the user's row only, then goes to the dashboard |
| ProfileSettings.SaveKeepsWellFormed | src/app/settings/profile/page.tsx:38-74 | saving keeps usernames unique |
| ProfileSettings.ProfileSettingsForm.Load | src/app/settings/profile/page.tsx:23-28 | with a user, the form is filled from the profile or the suggestion; without one it stays as it was |
| ProfileSettings.ProfileSettingsForm.HandleSave | src/app/settings/profile/page.tsx:38-74 | the handler's effect on the form and the table is the save rule above, and it leaves posts alone |
| Editor.SlugBody | src/app/yaz/page.tsx:17-27 | the slug text has at most 50 characters, all from `[a-z0-9-]` |
| Editor.GenerateSlug | src/app/yaz/page.tsx:16-28 | a slug is non-empty, uses only `[a-z0-9-]`, and is at most 50 characters long or the `yazi-` fallback |
| Editor.SlugFromFolded | src/app/yaz/page.tsx:16-28 | a title whose folded lower case is already a short slug has exactly that slug |
| Editor.SlugOfSlug | src/app/yaz/page.tsx:16-28 | a slug of at most 50 characters is its own slug |
| Editor.GenerateSlugStable | src/app/yaz/page.tsx:16-28 | slugging a slug again changes nothing, unless the first slug came from the fallback |
| Editor.SlugCharsNotSpace | src/app/yaz/page.tsx:25 | slug characters are not white space |
| Editor.SlugCharsLower | src/app/yaz/page.tsx:18 | each slug character lower-cases to itself |
| Editor.SlugCharsUnfolded | src/app/yaz/page.tsx:19-24 | the Turkish folding leaves slug characters alone |
| Editor.SlugCharsFixed | src/app/yaz/page.tsx:18-24 | lower-casing and folding leave slug text unchanged |
| Editor.SpaceFixed | src/app/yaz/page.tsx:18-24 | lower-casing and folding leave white space unchanged |
| Editor.FoldConcat | src/app/yaz/page.tsx:18-24 | lower-casing and folding distribute over concatenation |
| Editor.JoinedSlugChars | src/app/yaz/page.tsx:25-26 | two slug words joined by '-' consist of slug characters |
| Editor.JoinedIsSlug | src/app/yaz/page.tsx:26 | two slug words joined by '-' pass the `[^a-z0-9-]` filter whole |
| Editor.GenerateSlugJoinsWords | src/app/yaz/page.tsx:16-28 | a title of two slug words separated by any white-space run slugs to the words joined by a single '-', when that fits in 50 characters |
| Editor.GenerateSlugFallback | src/app/yaz/page.tsx:27 | a title of punctuation alone gets `yazi-` and the timestamp |
| Editor.UntitledLower | src/app/yaz/page.tsx:18 | the title `baslıksız` is already lower case |
| Editor.UntitledFolded | src/app/yaz/page.tsx:19-24 | folding `baslıksız` spells `basliksiz` |
| Editor.UntitledSlug | src/app/yaz/page.tsx:113 | an untitled post's slug text is `basliksiz` |
| Editor.DraftWritten | src/app/yaz/page.tsx:56-65 | defines the draft effect: a non-empty title or content is stored as the draft's JSON text, otherwise storage is unchanged |
| Editor.DraftLoaded | src/app/yaz/page.tsx:40-53 | defines the mount effect: a non-empty stored draft is parsed, and a parse that throws gives nothing |
| Editor.DraftJson | src/app/yaz/page.tsx:58-63 | the stored draft text is never empty, so it is always found again |
| Editor.DraftRoundTrip | src/app/yaz/page.tsx:40-65 | a draft written on change is loaded back on the next visit |
| Editor.EmptyDraftNotWritten | src/app/yaz/page.tsx:57 | an empty title and body store nothing |
| Editor.SaveUsername | src/app/yaz/page.tsx:98 | the profile name the save creates is never empty, and is the whole address when it holds no '@' |
| Editor.SaveUsernameUnchecked | src/app/yaz/page.tsx:97-105 | an address whose local part holds a non-username character creates a profile with that raw local part, which is not a valid username |
| Editor.NewPost | src/app/yaz/page.tsx:107-117 | defines the inserted row: the title or `Untitled`, the content, the slug of the title (or of `baslıksız`) followed by '-' and the timestamp, the page's visibility, published |
| Editor.PostSaved | src/app/yaz/page.tsx:71-127 | defines `savePost`: no connection goes to the connect page, no user opens the sign-in dialog, a failed lookup stops, otherwise `Published` applies |
| Editor.Published | src/app/yaz/page.tsx:97-126 | defines the rest of the save: a missing profile is inserted (its error ignored), then a failed post insert stops saving, and a successful one appends the post, drops the draft and goes to the dashboard |
| Editor.SaveGuards | src/app/yaz/page.tsx:72-79 | without a connection the page goes to the connect screen; without a user it opens the sign-in dialog; nothing is stored in either case |
| Editor.SaveLookupFailure | src/app/yaz/page.tsx:91-95 | a failed profile lookup stops the save and changes nothing else |
| Editor.SaveInsertFailure | src/app/yaz/page.tsx:97-123 | a failed post insert keeps the draft and the posts, stops saving, and at most adds the missing profile |
| Editor.SaveSucceeds | src/app/yaz/page.tsx:107-126 | a successful save appends exactly one published post with the page's content and visibility, the title or `Untitled`, and the timestamped slug; it drops the draft, keeps other stored keys, and goes to the dashboard |
| Editor.UntitledPostSlug | src/app/yaz/page.tsx:111-113 | an untitled post is slugged `basliksiz-` and the timestamp |
| Editor.SaveAppends | src/app/yaz/page.tsx:107-117 | a successful save appends only the new post |
| Editor.SaveUntitledSlug | src/app/yaz/page.tsx:111-113 | a saved untitled post has the slug `basliksiz-` and the timestamp |
| Editor.SaveKeepsWellFormed | src/app/yaz/page.tsx:97-105 | the save keeps usernames unique, because the table refuses duplicates |
| Editor.Metrics | src/app/yaz/page.tsx:67-69 | the editor's word count is the number of runs of the stripped text, and the reading time is at least one minute |
| Editor.WritePage.LoadDraft | src/app/yaz/page.tsx:40-53 | a stored draft that parses sets the title and content; otherwise the page is unchanged |
| Editor.WritePage.PersistDraft | src/app/yaz/page.tsx:56-65 | a non-empty title or content is stored as the draft; otherwise storage is unchanged |
| Editor.WritePage.SavePost | src/app/yaz/page.tsx:71-127 | the handler's effect on the page, both tables and storage is the save rule above, and keeps usernames unique |
| Editor.WritePage.Publish | src/app/yaz/page.tsx:97-126 | once the lookup has answered, the profile and post inserts have the effect the save rule gives them |
| Editor.WritePage.SaveShortcut | src/app/yaz/page.tsx:129-139 | Ctrl/Cmd+S saves unless a save is in progress, in which case nothing happens |
| Dashboard.StatusLabel | src/app/dashboard/page.tsx:24-27 | `Legacy Draft` exactly for unpublished posts, `Open` exactly for published public ones, `Private` exactly for the other published ones |
| Dashboard.LegacyDrafts | src/app/dashboard/page.tsx:59 | every listed legacy draft is unpublished |
| Dashboard.LegacyDraftsExactly | src/app/dashboard/page.tsx:59 | a post is listed exactly when it is on the page and unpublished |
| Dashboard.WithoutPost | src/app/dashboard/page.tsx:109 | no remaining post has the deleted id |
| Dashboard.WithoutPostExactly | src/app/dashboard/page.tsx:109 | a post remains exactly when it was on the page with another id |
| Dashboard.WithoutAbsentPost | src/app/dashboard/page.tsx:109 | deleting an id that is not on the page changes nothing |
| Dashboard.MarkPublished | src/app/dashboard/page.tsx:155 | every post comes out published; published ones are unchanged and legacy drafts become private |
| Dashboard.FixLeavesNoLegacyDrafts | src/app/dashboard/page.tsx:155 | after the fix no legacy draft is left on the page |
| Dashboard.FixMatchesTable | src/app/dashboard/page.tsx:146-155 | the page's update of the user's posts is the one the table makes |
| Dashboard.ShareDecision | src/app/dashboard/page.tsx:121-137 | the share card opens exactly for a user with a username and a published public post; without a username the page goes to the profile settings |
| Dashboard.ShareNeedsPublished | src/app/dashboard/page.tsx:127-130 | an unpublished post shows the save-first alert |
| Dashboard.NewestFirst | src/app/dashboard/page.tsx:46 | newest first reverses insertion order |
| Dashboard.NewestFirstMembership | src/app/dashboard/page.tsx:46 | reordering keeps exactly the same posts |
| Dashboard.UserPosts | src/app/dashboard/page.tsx:42-46 | defines the fetch query: the table's rows of the author, newest first |
| Dashboard.UserPostsExactly | src/app/dashboard/page.tsx:42-46 | the fetch lists exactly the user's posts |
| Dashboard.DashboardPage.FetchPosts | src/app/dashboard/page.tsx:37-57 | with a user and a connection, the page lists the user's posts newest first, keeps the old list on error, and stops loading; without a user nothing changes, and without a connection the client getter throws and the page stays loading |
| Dashboard.DashboardPage.HandleDelete | src/app/dashboard/page.tsx:99-111 | a confirmed, successful delete removes the post from the table and the page; an unconfirmed one, a thrown client getter or a failed delete keeps both |
| Dashboard.DashboardPage.HandleShare | src/app/dashboard/page.tsx:121-137 | the page goes to settings, alerts, or opens the share card as the share decision says |
| Dashboard.DashboardPage.FixAllLegacyDrafts | src/app/dashboard/page.tsx:139-158 | with a user, legacy drafts and a confirmation, a successful update publishes them privately in the table and on the page and clears the fixing flag; a thrown client getter leaves the flag set and nothing changed; without user, drafts or confirmation nothing changes |
| Dashboard.DashboardPage.HandleNewPost | src/app/dashboard/page.tsx:61-92 | the profile is ensured first; with a profile and a successful insert an untitled, empty, private, published post with slug `post-` and the timestamp is appended under the next id, the id counter advances, and the editor opens on that id; otherwise (no user, a thrown client getter, no profile, a failed insert) no post is added and the counter is kept |

## Left out

- Rendering, routing internals, icons, styling and the share card image: only the handlers' effects on page state are modelled.
- The sign-out handler and `formatDate` of the dashboard: they call into the auth provider and the `tr-TR` date formatter, which are not part of this model.
- `refreshProfile` after a profile save: it re-reads the row through the auth provider, which is not part of this model.
- Console logging in every handler: it has no effect on state.
- The `updated_at` column written by the profile save and the `avatar_url` and `inserted_at` columns: the model's rows hold only the columns the core reads or writes for its decisions.
- Ordering by `inserted_at` is modelled as reverse insertion order, since rows are appended as they are inserted.
- Post visibility is a three-valued enumeration; the table's free-text column could hold other strings.
- `Date.now()` is one parameter `now` per handler call, although `savePost` reads the clock up to three times.
- `Math.random()` for the second username candidate is the parameter `suffix`; its length and alphabet are not constrained.
- JavaScript numbers are unbounded integers in the model; reading time divides them as reals before rounding.
- JsText.Lower: models `toLowerCase` for ASCII, the Turkish capitals, dotted capital I and the Kelvin sign, and leaves every other character unchanged; every caller filters to ASCII afterwards.
- Json.StringifyObject: writes flat objects of string fields only; the draft's and the configuration's other field types are not modelled.
- `JSON.parse` of a draft and of a stored configuration is a parameter; for the configuration the model assumes only that it inverts `JSON.stringify`.
- `new URL(…)` is a parameter reporting the protocol or a throw.
- `getSupabaseBrowserClient` throwing in the handlers is modelled by a `connected` flag (profile settings and the dashboard's fetch, delete, legacy-draft fix and new-post handlers) or the page's `hasConnection` flag (editor); the auth provider that computes `hasConnection` is not part of this model.
- Asynchronous interleaving of handlers and React's batched state updates: each handler runs to completion on the state it starts from.
- `ensureProfile` is modelled with its two-argument signature; the auth provider's one-argument call is not part of this model.

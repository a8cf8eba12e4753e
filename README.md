# cplay: the request logic of a Classplus video player, in Dafny

cplay is a small Flask application (`app.py`) with five jobs:

- It signs Classplus HLS stream URLs (`/get/cp`).
- It plays a stream and remembers it in a "recently played" JSON file (`/player`).
- It shows that list (`/` and `/recent`).
- It accepts uploaded `.txt` playlists (`/upload_playlist`).
- It renders those playlists (`/playlist/<filename>`).

This project models the decisions those handlers make and proves properties of them.

The modules follow the program:

| module | what it models |
|---|---|
| `Wrappers` | `Option` |
| `Text` | the Python string operations the handlers rely on: `strip` with Python's whitespace set (as its leading and trailing halves), `in`, `endswith`, `split` on one character, ASCII `lower`, and the first-occurrence index behind `split(":", 1)` |
| `Seqs` | list comprehensions with a condition, and slices `[:n]` |
| `Classifier` | `CLASSPLUS_DOMAINS` and `is_classplus_url` |
| `Signing` | `SIGNING_APIS` and the fallback loop `sign_with_public_apis` |
| `Recency` | the recency entries, `EMOJIS`, `save_to_recent` (a `RecentStore` class whose `file` field is the stored list) and the emoji backfill loop of the list pages |
| `Playlist` | the `.txt` filters and the line parser of `show_playlist` |
| `Routes` | the handlers themselves: `get_cp`, `player`, `home`, `recent`, `upload_playlist`, `show_playlist` |

Everything outside the program is a parameter, and a handler is modelled with its inputs already extracted:

- Query parameters arrive as `Option<string>`; `None` means the parameter is missing.
- Base64url decoding is a parameter: `decode: string -> Option<string>`, where `None` means decoding or UTF-8 failed.
- The Classplus token signer is `token: string -> Option<string>`.
- One HTTP call to a public signer, with its JSON decoding, is `fetch: (api, url) -> Option<Reply>`.
- Python's per-process `hash` is `hash: string -> int`.
- `secure_filename` is `sanitize: string -> string`.
- The result of reading a playlist file is a `ReadResult`: its lines, or the error.

The loops of the source are methods with loop invariants, each proved equal to a specification function:

- `SignWithPublicApis` is proved against `FirstSigned`.
- `Backfill` is proved against `Backfilled`.
- `ParsePlaylist` is proved against `ParsedLines`.

The properties are proved about those functions. `save_to_recent` mutates the recency file, so it is a method on `RecentStore`. `Player` calls that method.

## Model

| member | source | states |
|---|---|---|
| Classifier.IsClassplusUrl | app.py:32-33 | a URL is accepted exactly when some configured domain occurs in it as a substring and it ends with ".m3u8" |
| Classifier.AnyDomainIn | app.py:33 | the in-order scan of `any(...)` is true exactly when some listed domain occurs in the URL |
| Classifier.WhitelistSimplified | app.py:12-18 | the five-domain whitelist accepts the same URLs as "classplusapp.com", "cdn-wl-assets.classplus.co" and "cpvod.testbook.com" alone |
| Classifier.PublicAssetWhitelisted | app.py:129-133 | for a URL on the public-asset domain, only the ".m3u8" suffix decides the whitelist test |
| Classifier.ForeignHostAccepted | app.py:33 | any URL `pre + "classplusapp.com" + post + ".m3u8"` passes, whatever host `pre` names, because the test is a substring test |
| Classifier.WrongSuffixRefused | app.py:33 | every URL that does not end in ".m3u8" is refused, whatever domain it names |
| Signing.FirstSigned | app.py:46-56 | `None` exactly when no API's reply is accepted; otherwise the URL of the first accepted reply in list order, with no earlier API accepted |
| Signing.Accepted | app.py:52 | a reply counts when it arrived, its status is truthy and its URL is a non-empty string (a definition; FirstSigned and GetCpFallback state its use) |
| Signing.SignWithPublicApis | app.py:46-56 | the loop with its early return yields `FirstSigned`, and a returned URL is never empty |
| Recency.EmojiIndex | app.py:74 | `hash(url) % 12` is a valid index into the 12 emoji for every hash value, negative ones included |
| Recency.Loaded | app.py:61-68 | a missing or unreadable file loads as the empty list, a readable one as its contents (a definition used by SaveToRecent, Home and Recent) |
| Recency.WithoutUrl | app.py:71 | the filtered list is no longer than the stored one and holds no entry with the recorded URL |
| Recency.Recorded | app.py:70-76 | the list written back holds between 1 and 20 entries, the new entry with its emoji first |
| Recency.EmojiFor | app.py:74 | the emoji given to a URL is one of `EMOJIS` |
| Recency.RecordedShape | app.py:70-76 | after recording: between 1 and 20 entries; the new entry with its emoji comes first; no other entry has its URL; the rest are the old entries with other URLs, in order, cut to 19 |
| Recency.RecordedFresh | app.py:70-76 | recording a URL that is not stored, into a list under the bound, just prepends the entry |
| Recency.WithoutUrlUnique | app.py:71 | dropping one URL keeps the URLs of a list distinct |
| Recency.RecordedUnique | app.py:70-76 | a list with distinct URLs still has distinct URLs after a recording |
| Recency.RecordedRemovable | app.py:71-76 | dropping the recorded URL from the result leaves the old entries with other URLs, cut to 19 |
| Recency.RecordedTwice | app.py:58-79 | recording one URL twice is the same as recording it once with the later title |
| Recency.WithEmoji | app.py:93-94 | an entry keeps its title and URL, always carries an emoji afterwards, and is unchanged when it already had one |
| Recency.Backfilled | app.py:92-94 | the backfilled list has one entry per stored entry (pointwise facts in Backfill) |
| Recency.Backfill | app.py:92-94 | the backfill loop keeps length, titles and URLs, keeps stored emoji and fills each missing one from its URL |
| Recency.BackfilledAppend | app.py:92-94 | backfilling works entry by entry over concatenated lists |
| Recency.BackfillWithoutUrl | app.py:91-94 | backfilling commutes with dropping a URL |
| Recency.BackfillRecorded | app.py:70-94 | the pages show the same list whether the emoji of older entries were filled in before or after a recording |
| Recency.BackfillTake | app.py:85-94 | slicing then backfilling (the home page) equals backfilling then slicing |
| Recency.RecentStore.constructor | app.py:24 | the store starts with the given file contents |
| Recency.RecentStore.SaveToRecent | app.py:58-79 | the new file is the recording applied to the loaded list (empty when the file is missing or unreadable), with the bound, the front entry and distinct URLs preserved |
| Playlist.IsPlaylistName | app.py:97 | `f.endswith(".txt")`, the test of the listings and of the upload at app.py:112 and 169 (a definition; PlaylistNames and UploadAcceptsTxt state its use) |
| Playlist.PlaylistNames | app.py:97 | every listed playlist name ends in ".txt" and comes from the directory listing, which it never lengthens |
| Playlist.HasSeparator | app.py:183 | `":" in line`, the lines the parser keeps (a definition; ParsedSingleLine and ParseLineSplits state its use) |
| Playlist.ParseLine | app.py:184-185 | the entry for one kept line (a definition; ParseLineSplits and ParseFormatLine state what it is) |
| Playlist.ParsedLines | app.py:182-185 | the entries of a file (a definition; ParsePlaylist, ParsedLinesAppend and ParsedSingleLine state what it is) |
| Playlist.StripWithin | app.py:184 | stripping cannot introduce a character |
| Playlist.SplitsAtUnique | app.py:184 | a string splits at its first ':' in only one way |
| Playlist.ParseLineHalves | app.py:184-185 | a kept line, stripped, is a raw title, ':' and a raw URL, and the entry holds both halves stripped |
| Playlist.ParseLineSplits | app.py:183-185 | a kept line splits at its first ':' into halves whose strips form the entry; the title never contains ':' |
| Playlist.ParsedLinesAppend | app.py:182-185 | parsing works line by line: the entries of a concatenation are the concatenation of the entries |
| Playlist.ParsedSingleLine | app.py:183-185 | a line without ':' yields no entry; a line with one yields exactly its parse |
| Playlist.ParsePlaylist | app.py:179-185 | the loop over the file's lines yields `ParsedLines` of those lines |
| Playlist.StripFormatLine | app.py:184 | stripping a written line `title:url\n` with trimmed halves removes only the newline |
| Playlist.SplitJoinedHalves | app.py:184 | splitting `t + ":" + u` at its first ':' gives back `t` and `u` when `t` has no ':' |
| Playlist.ParseFormatLine | app.py:183-185 | parsing inverts writing a line, for halves without surrounding whitespace and a title without ':' |
| Playlist.ParsedFormatted | app.py:182-185 | a file of one well-formed line yields exactly its entry |
| Playlist.ParsedThreeLines | app.py:182-185 | a three-line file yields the entries of each line in order |
| Playlist.ParsedSkipsMalformed | app.py:182-185 | two well-formed lines around a line without ':' yield exactly the two entries |
| Text.Lower | app.py:118 | the lowered string has the same length; each ASCII capital becomes its lower-case letter (code point + 32) and every other character is kept |
| Text.IsSpace | app.py:184 | the 29 code points Python's `str.isspace` accepts, which `strip` removes (a definition; TrimStartCuts, TrimEndCuts and StripCuts state its use) |
| Text.TrimStart | app.py:184 | the leading half of `strip` yields a suffix that is empty or starts with a non-whitespace character |
| Text.TrimStartCuts | app.py:184 | what the leading half of `strip` removes is all whitespace |
| Text.TrimEnd | app.py:184 | the trailing half of `strip` yields a prefix that is empty or ends with a non-whitespace character |
| Text.TrimEndCuts | app.py:184 | what the trailing half of `strip` removes is all whitespace |
| Text.Strip | app.py:184-185 | `strip` yields a string that neither starts nor ends with whitespace |
| Text.StripCuts | app.py:184-185 | `strip` removes an all-whitespace prefix and an all-whitespace suffix, nothing else |
| Text.StripKeeps | app.py:183-184 | a non-whitespace character of the line survives `strip`, so a kept line still has its ':' |
| Text.StripTrimmed | app.py:185 | `strip` leaves a string without surrounding whitespace unchanged |
| Text.StripLine | app.py:182-184 | stripping a line read with its newline gives back the line's trimmed text |
| Text.StripIdempotent | app.py:184-185 | stripping twice is stripping once |
| Text.IndexOf | app.py:184 | the index `split(":", 1)` cuts at holds the separator, and no earlier position does |
| Text.IndexOfFirst | app.py:184 | a position holding the separator with none before it is that index |
| Text.Split | app.py:160 | `split("/")` yields at least one part, and no part contains '/' |
| Text.SplitCount | app.py:160-161 | a split has two or more parts exactly when the separator occurs |
| Text.SplitFirst | app.py:160 | splitting at a first separator peels off the part before it |
| Text.SplitAtFirst | app.py:160 | a string with a separator is that part, the separator and the rest, and splits accordingly |
| Text.JoinSplit | app.py:160 | joining the parts of a split gives back the string |
| Text.SplitJoin | app.py:160 | splitting what was joined gives back the parts |
| Text.SegmentAtShift | app.py:161 | a segment before the last separator keeps that role when text is prepended |
| Text.SegmentAtOnly | app.py:161 | with a single separator, the part before it is the segment |
| Text.SplitSecondToLast | app.py:160-161 | `parts[-2]` is the text between the last two '/' (from the start when there is one '/') |
| Text.Contains | app.py:33 | Python's `needle in s`: the needle occurs at some offset (a definition; also used at app.py:132 and 183; ContainsJoined and ContainsTransitive state its properties) |
| Text.EndsWith | app.py:33 | Python's `endswith`: the string's last characters are the suffix (a definition; also used at app.py:97, 112 and 169; EndsWithJoined states its properties) |
| Text.ContainsJoined | app.py:33 | a string contains every piece it is built from |
| Text.EndsWithJoined | app.py:33 | a string ends with the piece it ends in |
| Text.ContainsTransitive | app.py:33 | what a contained string contains, the outer one contains |
| Seqs.Filter | app.py:71 | a filtered list is no longer than the input, and holds only input elements that pass |
| Seqs.FilterComplete | app.py:71 | every input element that passes is kept |
| Seqs.FilterAppend | app.py:71 | filtering works element by element over concatenated lists |
| Seqs.FilterKeepsAll | app.py:71 | a filter every element passes changes nothing |
| Seqs.MapAll | app.py:185 | mapping keeps the length and applies the function pointwise |
| Seqs.MapAllAppend | app.py:185 | mapping works element by element over concatenated lists |
| Seqs.Take | app.py:76 | `[:n]` has `min(n, len)` elements and is a prefix of the list |
| Routes.Blank | app.py:120 | `not value` for a query parameter: missing or empty (a definition used by GetCp, PlayerRequest and DerivedTitle) |
| Routes.FlagSet | app.py:118 | only a value of four characters can set the flag, so a missing parameter (default "false") never does |
| Routes.FlagSetExactly | app.py:118 | the flag is set if and only if the parameter is "true" in any mix of upper and lower case |
| Routes.Truthy | app.py:136 | `if signed:` and `if fallback_signed:` (app.py:140) on an optional string: present and non-empty (a definition; GetCpTokenFirst and GetCpFallback state its use) |
| Routes.Target | app.py:123-127 | the URL `get_cp` goes on with: the raw parameter, or its decoding with "==" padding when the flag is set (a definition; GetCpBadPayload and GetCpSound state its use) |
| Routes.GetCp | app.py:116-143 | a URL the endpoint returns is never empty |
| Routes.GetCpNoUrl | app.py:120-121 | a missing or empty `url` is answered "No URL provided" |
| Routes.GetCpBadPayload | app.py:123-127 | with `encrypted=true`, a payload that does not decode is answered "Invalid encrypted URL" |
| Routes.GetCpUnsupported | app.py:129-130 | a target outside the whitelist is refused before any signer is asked |
| Routes.GetCpPublicAsset | app.py:132-133 | a whitelisted public-asset URL is returned unchanged, whatever the signers would say |
| Routes.GetCpTokenFirst | app.py:135-137 | otherwise a non-empty token-signer answer is returned, whatever the fallbacks say |
| Routes.GetCpFallback | app.py:139-143 | when the token signer fails, the answer is the first accepted fallback reply, and "Failed to sign the video URL." exactly when none is accepted |
| Routes.GetCpSound | app.py:116-143 | every error is one of the four messages; every returned URL is the whitelisted target itself (public asset) or a signer's answer for that target |
| Routes.DerivedTitle | app.py:159-161 | the title `player` records (a definition; DerivedTitleSpec states what it is) |
| Routes.DerivedTitleSpec | app.py:159-161 | a given non-empty title is kept; without one, a URL without '/' gives "Untitled Video" and any other URL gives its second-to-last '/'-segment |
| Routes.PlayerUrl | app.py:154-157 | the URL `player` uses: decoded when the flag is set and decoding succeeds, the raw parameter otherwise (a definition; PlayerFallsBackToRaw states the fallback) |
| Routes.PlayerRequest | app.py:151-163 | `player` records something exactly when the URL is not blank, and what it records is stripped on both ends |
| Routes.PlayerFallsBackToRaw | app.py:154-157 | a payload that does not decode is an error for `/get/cp` but is played and recorded raw by `/player` |
| Routes.Player | app.py:145-164 | a blank URL changes nothing; otherwise the stripped title and URL are recorded into the store as `save_to_recent` does |
| Routes.Home | app.py:83-98 | the home page shows the first ten stored entries with emoji filled in and the first ten ".txt" names of the listing |
| Routes.Recent | app.py:101-113 | the recent page shows every stored entry with emoji filled in and every ".txt" name of the listing |
| Routes.HomeIsPrefixOfRecent | app.py:85-110 | the home page's videos are the first ten of the recent page's |
| Routes.UploadPlaylist | app.py:168-174 | a redirect only for a file name ending in ".txt"; every refusal is 400 "Only .txt files are allowed" |
| Routes.UploadAcceptsTxt | app.py:167-174 | an upload is accepted exactly when a file is given whose name ends in ".txt"; anything else gets 400 "Only .txt files are allowed" |
| Routes.ShowPlaylist | app.py:177-189 | a readable file gives its parsed entries; a read error gives 500 with "Error reading playlist: " and the error text |

## Left out

- HTTP, routing, templates and redirects: a handler's result is a datatype naming the template data, the redirect target or the status and body.
- `sign_with_classplus_token` (app.py:35-44) makes an HTTP call with a fixed token. It is the parameter `token`. Its exception path is a `None` answer.
- The requests and JSON decoding inside `sign_with_public_apis` are the parameter `fetch`. This includes `requests.utils.quote` of the URL and the exception path where `fetch` gives `None`.
- Base64url decoding and UTF-8 decoding: the parameter `decode`.
- Python's `hash`: the parameter `hash`. It is randomised per process, so emoji can differ between runs of the program.
- File I/O of the recency file: it is the `file` field of `RecentStore`. A missing or unreadable file is `None`.
- The JSON shape of the recency file is assumed to be a list of objects with string "title" and "url". Other shapes are not modelled:
  - A top level that cannot be sliced falls into the `try` of `home` (app.py:85-89) and gives an empty page there.
  - An item that is not an object with a "url" key makes the source raise outside any `try`. This happens at `item["url"]` in `save_to_recent` (app.py:71), and at the emoji test and assignment in `home` and `recent` (app.py:93-94, 109-110).
- Writing the recency file is not modelled as failing. The source does not catch a write error there either.
- Directory listing (`os.listdir`) is the parameter `listing`. `os.makedirs` and the `PORT` start-up code are I/O.
- The upload's `file.save` and `os.path.join` are not modelled: the upload handler only decides between the redirect and the 400. `secure_filename` is the parameter `sanitize`.
- Reading a playlist file is a `ReadResult`: the lines as Python's line iterator yields them, or the error text. How a file is cut into lines, and what an error message says, are not modelled.
- Routes.FlagSet lowers with ASCII case mapping only. Non-ASCII characters whose Python lowercase is an ASCII letter are not modelled. Such a character still could not make the value equal "true".
- Concurrency: two requests recording at once can lose an update in the source. The model's store is used by one request at a time.
- Recency.RecentStore.SaveToRecent: the source writes the list with `indent=2`. The model stores the list value, not its JSON text.

## Notes

- One asymmetry is kept because the code has it: a payload that fails to decode is an error for `/get/cp` but silently falls back to the raw parameter in `/player` (Routes.PlayerFallsBackToRaw).

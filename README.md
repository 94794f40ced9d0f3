# Search history store of the weather lookup tool

This project models, in Dafny, the `Busquedas` class of a command-line tool
that looks up a place with a geocoding service, shows its weather, and keeps
a deduplicated, most-recent-first history of the places chosen, saved to
`./db/database.json`.

What is modelled:

- the history (`historial`) as a field of the class `Busqueda.Busquedas`,
  updated by `AgregarHistorial` (lower-case the term, do nothing if that exact
  string is present, otherwise put it at index 0 and save) and by `LeerDB`;
- the database file as the field `db` of a shared `Busqueda.Disk` object,
  holding `Missing`, `Unparsable` or `Stored(list)`; `GuardarDB` overwrites it,
  `LeerDB` and the constructor read it, so a second store built on the same
  disk reloads what the first one saved;
- the display form `historialCapitalizado` (split each entry on single
  spaces, upper-case the first character of each piece that is not blank,
  turn blank pieces into `""`, join with single spaces) as pure functions in
  `Historial`, over `split(' ')` / `join(' ')` defined in `Text`;
- the projection inside `ciudad` of a geocoding response onto place
  candidates (`id`, `nombre`, `lng = center[0]`, `lat = center[1]`), with every
  failure giving the empty list.

Files: `wrappers.dfy` (Option), `text.dfy` (case mapping, ECMAScript white
space, split and join), `historial.dfy` (insertion rule, capitalisation and
their lemmas), `busqueda.dfy` (the classes and the geocoding projection).

Two behaviours of the code worth noting:

- A history file that cannot be read or parsed keeps the history that was
  there before the read (at construction that is `[]`), rather than emptying it.
- Only pieces that are empty or white space only become `""` in the display
  form; a piece such as `"123"` that does not start with a letter is kept as it
  is.

Case mapping (`toLocaleLowerCase`, `toUpperCase`) is approximated by ASCII
case mapping on each character. The white space test behind `trim()` uses the
full ECMAScript WhiteSpace and LineTerminator set.

## Model

| member | source | states |
|---|---|---|
| Busqueda.Busquedas.constructor | Models/busqueda.js:9-14 | a new store starts from `[]` and then holds the stored list if the file holds one and can be read, `[]` otherwise; the file is untouched |
| Busqueda.Busquedas.AgregarHistorial | Models/busqueda.js:96-106 | the history becomes `Inserted(old, lugar)`: unchanged and nothing saved when `lower(lugar)` is present; otherwise `[lower(lugar)] + old` and the file then holds exactly the new history unless the write fails; no duplicates are introduced |
| Busqueda.Busquedas.GuardarDB | Models/busqueda.js:109-118 | the file holds the current history after a successful write, is unchanged after a failed one, and the history is never changed |
| Busqueda.Busquedas.LeerDB | Models/busqueda.js:121-133 | three outcomes: missing file or failed read/parse keep the history, a readable stored list replaces it |
| Busqueda.ReloadAfterSave | Models/busqueda.js:109-133 | saving and then constructing a new store on the same file reproduces an equal history |
| Busqueda.MadridThenParis | Models/busqueda.js:96-106 | with no file, adding "Madrid" then "Paris" leaves `["paris", "madrid"]` in memory and in the file |
| Busqueda.Busquedas.HistorialCapitalizado | Models/busqueda.js:17-32 | the display list has one entry per history entry, and entry i splits into the capitalised pieces of history entry i; the history is only read |
| Historial.Inserted | Models/busqueda.js:96-106 | the lower-cased term is in the result, the result is the old history or one longer, the old history is its suffix in its original order, and its elements are exactly the old ones plus the term |
| Historial.InsertedPresent | Models/busqueda.js:98-100 | a term already present in lower case leaves the history unchanged |
| Historial.InsertedNew | Models/busqueda.js:103 | a new term makes the history one longer with the term at index 0 followed by the old history |
| Historial.InsertedKeepsDistinct | Models/busqueda.js:96-106 | a history without duplicates stays without duplicates |
| Historial.InsertedKeepsLower | Models/busqueda.js:98-103 | if every entry is lower case, every entry still is after an insertion |
| Historial.InsertedCaseVariant | Models/busqueda.js:98-100 | adding a term that differs from the last added one only in case changes nothing |
| Historial.InsertedTwiceOnce | Models/busqueda.js:96-106 | adding the same term twice to a duplicate-free history leaves it present and the history duplicate-free |
| Historial.InsertedMostRecentFirst | Models/busqueda.js:103 | adding "Madrid" then "Paris" to `[]` gives `["paris", "madrid"]` |
| Historial.CapitalizeWord | Models/busqueda.js:22-28 | a piece becomes `""` exactly when it is blank (trims to nothing); otherwise it keeps its length and tail and only its first character is upper-cased; it never gains a space |
| Historial.CapitalizeWords | Models/busqueda.js:22-28 | `palabras.map(...)` gives one piece per piece, and no piece contains a space if none did |
| Historial.CapitalizeEntry | Models/busqueda.js:18-31 | the displayed entry has exactly as many spaces as the stored one, so it splits into as many pieces |
| Historial.LowerWordsCapitalized | Models/busqueda.js:19-30 | lower-casing the capitalised pieces of a lower-case entry without white-space-only pieces gives its pieces back |
| Historial.CapitalizeHistory | Models/busqueda.js:18-31 | the display list has the history's length and entry i is derived from history entry i only, piece by piece |
| Historial.SplitCapitalized | Models/busqueda.js:19-30 | a displayed entry splits into exactly as many pieces as the stored entry, piece k being piece k capitalised |
| Historial.CapitalizeEntryIdempotent | Models/busqueda.js:19-30 | capitalising a displayed entry again changes nothing |
| Historial.CapitalizeWordIdempotent | Models/busqueda.js:24-27 | capitalising a capitalised piece again changes nothing |
| Historial.CapitalizeLetterWord | Models/busqueda.js:25 | a piece starting with a lower-case letter gets that letter upper-cased and keeps its tail |
| Historial.LowerCapitalizedWord | Models/busqueda.js:24-27 | lower-casing the display form of a lower-case piece that is not white space only gives the piece back |
| Historial.CapitalizeEntryLowersBack | Models/busqueda.js:17-32 | for a lower-case entry with no white-space-only piece, lower-casing its display form gives the entry back |
| Historial.CapitalizeNewYork | Models/busqueda.js:19-30 | "new york" is displayed as "New York" |
| Historial.CapitalizeDoubleSpace | Models/busqueda.js:19-30 | "san  jose" is displayed as "San  Jose": the empty piece between the two spaces is kept in place |
| Historial.SplitLower | Models/busqueda.js:19 | lower-casing an entry and then splitting it gives the lower-cased pieces |
| Historial.LowerJoin | Models/busqueda.js:30 | lower-casing a joined entry equals joining the lower-cased pieces |
| Text.Join | Models/busqueda.js:30 | `join(' ')` of no pieces is `""`; otherwise the result starts with the first piece, followed by a space when more pieces come |
| Text.Lower | Models/busqueda.js:98 | a capital ASCII letter becomes a lower-case letter, every other character is unchanged, no capital is left, and spaces stay spaces |
| Text.LowerStr | Models/busqueda.js:103 | `toLocaleLowerCase` keeps the length and the position of every space |
| Text.Upper | Models/busqueda.js:25 | a lower-case ASCII letter becomes the capital that lower-cases back to it, every other character is unchanged, and white space stays white space |
| Text.IsJsWhitespace | Models/busqueda.js:24 | the characters `trim` removes, none of them an ASCII letter |
| Text.TrimStart | Models/busqueda.js:24 | only the leading white space is removed: the result is a suffix, every character cut off before it is white space, it is empty or starts with a non-white-space character, and it is empty exactly when the piece is all white space |
| Text.TrimEnd | Models/busqueda.js:24 | only the trailing white space is removed: the result is a prefix, every character cut off after it is white space, it is empty or ends with a non-white-space character, and it is empty exactly when the piece is all white space |
| Text.Trim | Models/busqueda.js:24 | `p.trim()` is empty exactly when every character of `p` is white space |
| Text.IsBlank | Models/busqueda.js:24 | `p.trim().length == 0` holds exactly for the pieces made of white space only, `""` included |
| Text.IndexOf | Models/busqueda.js:19 | the position found holds the separator and no earlier position does |
| Text.IndexOfFirst | Models/busqueda.js:19 | the first occurrence is the only position `IndexOf` can return |
| Text.Split | Models/busqueda.js:19 | `split(' ')` gives at least one piece and no piece contains a space |
| Text.JoinSplit | Models/busqueda.js:19-30 | joining the pieces of a split with single spaces gives the original entry back |
| Text.SplitJoin | Models/busqueda.js:19-30 | splitting a join of space-free pieces gives the pieces back |
| Text.SplitCons | Models/busqueda.js:19 | the pieces of `a + " " + b`, with `a` space-free, are `a` followed by the pieces of `b` |
| Text.SplitCount | Models/busqueda.js:19 | an entry splits into one more piece than it has spaces |
| Busqueda.At | Models/busqueda.js:65-66 | `center[i]` is defined exactly when `i` is within the array, and is then its element `i` |
| Busqueda.ToLugar | Models/busqueda.js:62-67 | the candidate literal takes `id` and `place_name`; `lng` and `lat` are `center[0]` and `center[1]`, each `undefined` when `center` is too short |
| Busqueda.Disk.constructor | Models/busqueda.js:10 | the database file at `dbPath` holds the given content (`Missing`, `Unparsable` or a stored list), the value `guardarDB` writes (line 114) and `leerDB` reads (lines 123-128) |
| Busqueda.ProjectAll | Models/busqueda.js:62-67 | the projection succeeds exactly when every feature has a `center`, and then keeps length and order, taking `id`, `place_name`, `center[0]`, `center[1]` |
| Busqueda.Ciudad | Models/busqueda.js:53-72 | a failed request, a response without `features` or a feature without `center` gives `[]`; otherwise one candidate per feature, in order, each built from its own feature |

## Left out

- The HTTP requests to the geocoding and weather services (`ciudad`'s request, `climaLugar`): network I/O. `Ciudad` takes the response as a parameter, `None` standing for any thrown error; the query string only shapes the request URL and is not a parameter.
- Every geocoding feature is assumed to carry an `id` and a `place_name`: a feature without `place_name` would give a candidate whose name is `undefined`, which the caller then passes on to `agregarHistorial` (where the default parameter turns it into `''`); that case is not modelled.
- `climaLugar`'s result (description and temperatures): floating-point values copied from the response and displayed.
- The `paramsMapbox` and `paramsWeather` getters: constant request parameters with no logic.
- JSON encoding and decoding and the `fs` calls: the file is abstracted to the list it holds; a stored JSON document whose `historial` field is missing or not a list of strings is not modelled (the source would then set the history to that value as it is).
- Busqueda.Busquedas.GuardarDB: a failed write is modelled as leaving the file unchanged; a write that fails after truncating the file is not modelled.
- Console logging of the caught errors: output only.
- Locale-specific and full Unicode case mapping, including upper-case forms longer than one character: ASCII case mapping is used instead; characters are Unicode scalar values, not UTF-16 code units.
- The interactive menu, prompts and rendering (the console helpers and the two entry-point scripts): orchestration of prompts, network calls and output around the store.

# Elden Ring co-op installer: locating the game through Steam's libraries

This project models, in Dafny, how the installer finds the game's install
directory (`src/installer.py`):

- **The library locator** (`parse_vdf_library_folders`). It reads Steam's
  `libraryfolders.vdf` manifest and extracts, with one `re.findall`, the
  library root of every entry of the form `"<digits>" { "path" "<root>"`.
  A missing or unreadable manifest yields no libraries.
- **The game path resolver** (`find_game_path`). It parses the manifest,
  gives up at once when there are no libraries, and otherwise probes
  `<root>\steamapps\common\ELDEN RING` for each library in manifest order.
  It returns the first candidate that exists, or nothing.

Files:

- `wrappers.dfy`: the `Option` type.
- `library_folders.dfy` (module `LibraryFolders`): the regular expression
  as a deterministic scanner.
  - `MatchAt` tries the pattern at one position, in stages that mirror the
    pattern's pieces.
  - `ScanFrom` is `findall`'s left-to-right loop.
  - `PatternAt` reads the pattern declaratively: the text at a position is
    `"key"`, blanks, `{`, blanks, `"path"`, blanks, `"value"`.
  - `LeftmostMatches` says what a `findall` result is: sound, ordered,
    non-overlapping, and leaving no occurrence uncovered.
  - The lemmas prove the scanner equal to both readings.
- `game_path.dfy` (module `GamePath`): Windows path joining, the candidate
  path, and the resolver.
  - The resolver returns a `Resolution`: the path found, plus the list of
    paths whose existence it asked about.
  - Whether a path exists is a parameter, `pathExists`.
- `scenario.dfy` (module `Scenario`): a two-library manifest, worked through
  from the manifest text to the resolved game path.

Library roots are returned exactly as the manifest spells them. VDF writes a
backslash inside a quoted string as `\\`, and the source does not undo that
escape. So for the entry `"path" "E:\\SteamLib2"` the resolved path is
`E:\\SteamLib2\steamapps\common\ELDEN RING`: the backslash after the drive is
doubled, and the separators added by `os.path.join` are single. A reading in
which the resolver returns `E:\SteamLib2\steamapps\common\ELDEN RING` would
need an unescaping step that the code does not have. The model follows the
code (`Scenario.SampleGamePath`). Windows treats the doubled separator as a
single one, so both spellings name the same directory.

## Model

| member | source | states |
|---|---|---|
| LibraryFolders.SkipWhile | src/installer.py:15 | A greedy `\d`, `\s` or `[^"]` repetition from `i` ends at `j`. Every character in between is in the class, and the character at `j` is not (or the text ends). |
| LibraryFolders.MatchAt | src/installer.py:15 | A match of the pattern at `i` starts at `i` and ends inside the text. Its captured value is non-empty and contains no `"`. |
| LibraryFolders.MatchAtSound | src/installer.py:15 | Whatever the scanner reports at `i` is an occurrence of the pattern there: digits in quotes, blanks, `{`, blanks, `"path"`, blanks, then the value in quotes. |
| LibraryFolders.MatchAtComplete | src/installer.py:15 | Every occurrence of the pattern at `i` is exactly what the scanner reports there: same value, same end. So the pattern matches in at most one way at a position. |
| LibraryFolders.ScanFrom | src/installer.py:14-15 | The `findall` loop's matches lie inside the text and are in increasing order without overlapping. Every captured value is non-empty and quote-free. |
| LibraryFolders.ScanFromSound | src/installer.py:14-15 | Every match `findall` reports is an occurrence of the pattern. |
| LibraryFolders.ScanFromCovers | src/installer.py:14-15 | Every occurrence of the pattern at or after the start position lies inside some reported match. |
| LibraryFolders.ScanFromContributes | src/installer.py:14-15 | An occurrence that does not start strictly inside another reported match is itself reported, with its value and end. |
| LibraryFolders.ScanFromIsLeftmost | src/installer.py:14-15 | The scan meets the declarative description of a `findall` result: sound, ordered, non-overlapping, and covering every occurrence. |
| LibraryFolders.LeftmostMatchesUnique | src/installer.py:14-15 | Any list of matches meeting that description is the scan itself, so the description fixes the result. |
| LibraryFolders.ScanSkipsQuoteless | src/installer.py:14-15 | A stretch of text without `"` contributes no match. |
| LibraryFolders.ParseLibraryFolders | src/installer.py:6-26 | A missing or unreadable manifest gives no libraries. Every library path returned is non-empty and contains no `"`. |
| LibraryFolders.ParseLibraryFoldersIsFindAll | src/installer.py:14-19 | The library list is the captured values of the `findall` result, verbatim and in order. |
| LibraryFolders.ParseLibraryFoldersSound | src/installer.py:14-19 | Each returned path is the value of an occurrence of the pattern in the manifest. |
| LibraryFolders.NoPathKeyNoLibraries | src/installer.py:14-19 | A manifest in which `"path"` never occurs gives no libraries. |
| LibraryFolders.QuotelessNoLibraries | src/installer.py:14-19 | A manifest without any `"` gives no libraries. |
| LibraryFolders.EntryMatches | src/installer.py:15 | A well-formed entry is matched where it starts, and the match captures its path. |
| LibraryFolders.EntryStep | src/installer.py:14-19 | Scanning a well-formed entry reports its path and resumes after the entry's trailing text. |
| LibraryFolders.EntriesScan | src/installer.py:14-19 | Scanning from the start of a run of well-formed entries yields their paths, all of them, in order. |
| LibraryFolders.ManifestOfEntries | src/installer.py:6-26 | A manifest made of N well-formed entries gives exactly their N paths, in the order written. |
| GamePath.Join | src/installer.py:42-43 | Joining a plain name keeps the directory as a prefix and the name as a suffix. A single `\` goes between them unless the directory is empty, ends in `\` or `/`, or is a bare drive such as `D:`; in those cases nothing is inserted. |
| GamePath.CandidateIsJoin | src/installer.py:42-43 | The candidate path is the three-part join of the library with `steamapps`, `common` and `ELDEN RING`. It starts with the library root. |
| GamePath.Probe | src/installer.py:41-48 | The search probes the candidates of the libraries in order. Every candidate probed before the last one was missing. A result is the last probe and exists. No result means every library was probed and none held the game. |
| GamePath.FindGamePath | src/installer.py:36-48 | An empty library list gives no result and no probes. A result exists exactly when some library holds the game, and it is the candidate of the first such library. |
| GamePath.FindGamePathFromManifest | src/installer.py:29-48 | A missing or unreadable manifest gives no result, with nothing probed. |
| GamePath.FirstHitWins | src/installer.py:41-45 | If library `k` is the first that holds the game, the result is its candidate, after probing exactly libraries `0` to `k`. |
| GamePath.LibrariesAfterHitIgnored | src/installer.py:41-45 | Libraries listed after the first hit change neither the result nor the probes. |
| GamePath.ProbeAfterHit | src/installer.py:41-45 | The same as `LibrariesAfterHitIgnored`, for the probing loop. |
| GamePath.LibrariesWithoutGameSkipped | src/installer.py:41-48 | Libraries none of which hold the game only add their probes, in order, in front of the search of the libraries that follow. |
| Scenario.SampleLibraries | src/installer.py:6-26 | The manifest `"1" { "path" "D:\\SteamLib" } "2" { "path" "E:\\SteamLib2" }` gives the two roots in order, with backslashes still doubled. |
| Scenario.SampleCandidates | src/installer.py:42-44 | In the sample, the `E:` library's candidate is `E:\\SteamLib2\steamapps\common\ELDEN RING`, and it is the only one that exists. |
| Scenario.SampleGamePath | src/installer.py:29-48 | With only the `E:` candidate on disk, the resolver probes `D:` and then `E:` and returns the `E:` candidate. |

## Left out

- File I/O: the manifest's content is an `Option<string>`. `None` stands
  for every failure the source catches: a missing file, an unreadable file,
  or text that is not UTF-8. Python's newline translation on reading is
  assumed to have already happened.
- The messages printed on a read failure, the `logging` calls, and `main`.
  They do not affect any returned value.
- The fixed Steam root `C:\Program Files (x86)\Steam` and the manifest path
  built from it. The model starts from the manifest's content.
- `\d` and `\s` are ASCII only. `\d` is `0`-`9`. `\s` is space, tab,
  newline, carriage return, form feed and vertical tab. Python's `re` also
  accepts other Unicode digits and spaces.
- `os.path.exists` is the parameter `pathExists`: the file system's answer
  at the moment of the call. Permissions, links and races are not modelled.
- GamePath.Join: covers the Windows join rules only for the cases these
  paths meet: a plain name after a root that is empty, ends in a separator,
  is a bare drive, or is anything else. UNC and device-path roots are
  assumed to behave like the last case.
- Real manifests are outside `ManifestOfEntries`: it needs the text to
  start directly with the first entry and quote-free text between entries,
  while Steam opens the file with a quoted `"libraryfolders" {` header and
  writes other quoted keys (such as `label` or `apps`) inside each entry.
  The general lemmas (`ParseLibraryFoldersIsFindAll` with
  `ScanFromIsLeftmost`) cover such manifests.

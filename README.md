# WoWS mod installer: target selection, copy and error reporting

This project models the Rust installer of WoWS-Mod-Installer (`src/main.rs`).
It proves properties of that model. The installer reads `gameDir` and `modsDir` from `pref.json`.
It lists `<gameDir>/bin` and ranks the entries by file name.
It takes the last entry as the newest game version.
Then it copies the contents of `modsDir` into `<gameDir>/bin/<newest>/res_mods`, overwriting files.
The first error ends the run, and its message is printed.

Everything is modelled as pure functions over the program's inputs:

- `NameOrder`: the order of file names, insertion sort as the model of the stable `sorted_by_key`, and the greatest name.
- `Paths`: `PathBuf::join` for one relative component, on Unix and on Windows (the bare-drive `C:` case included), and the `<gameDir>/bin/<name>/res_mods` layout.
- `DebugFormat`: the `{:?}` rendering of the directory named in the NotFound message.
- `Errors`: the `Error` enum and its `Display`.
- `Config`: `conf["gameDir"].as_str()` and `conf["modsDir"].as_str()` with their error order.
- `Locate`: collecting the listing, choosing the newest entry, the NotFound error and the target path.
- `Overlay`: what the copy leaves in `res_mods` under the options the installer passes.
- `Installer`: `main_impl` end to end.

File names compare one code point at a time, with a proper prefix first.
That is not version order: `"0.10.0"` sorts before `"0.9.0"`, and the model keeps this.
The comment at src/main.rs:67 calls it a sort "by version number".
Entries are not filtered to directories, so a plain file in `bin` can be chosen.

The code also fixes these points:

- there are four kinds of error: `IoError`, `JsonError`, `ConfKeyMissing` and `CopyError`. An unreadable `bin` and an empty `bin` are both `IoError`s, the latter with kind NotFound;
- one failed entry read fails the whole lookup;
- exactly one target is selected.

## Model

| member | source | states |
|---|---|---|
| NameOrder.NameLe | src/main.rs:67 | the file-name order, by code point, which is UTF-8 byte order for valid names: a prefix sorts no later than its extensions, and a proper extension never sorts before its prefix |
| NameOrder.NameLeIsLexicographic | src/main.rs:67 | the ranking order is exactly lexicographic order: a prefix comes first, otherwise the first differing character decides |
| NameOrder.NameLeTotal | src/main.rs:67 | any two names are comparable |
| NameOrder.NameLeTransitive | src/main.rs:67 | the ranking order is transitive |
| NameOrder.NameLeAntisymmetric | src/main.rs:67 | two names that rank each at most the other are equal, so equal rank means the same name |
| NameOrder.SortNames | src/main.rs:67 | sorting by file name gives an ascending permutation of the names |
| NameOrder.MaxName | src/main.rs:67-68 | the reference selection: a listed name that no listed name sorts after |
| NameOrder.Insert | src/main.rs:67 | inserting a name into an ascending sequence gives an ascending sequence holding exactly the old names and the new one |
| NameOrder.GreatestIsUnique | src/main.rs:67-68 | two listings with the same names have the same greatest name, so the greatest is unique |
| NameOrder.LastOfSortedIsGreatest | src/main.rs:67-68 | the last element of an ascending sequence is one of its names and no name sorts after it |
| NameOrder.LastOfSortedIsMax | src/main.rs:67-68 | the last element after sorting is the greatest name |
| NameOrder.MaxNameIgnoresOrder | src/main.rs:64-68 | the greatest name depends only on which names are listed, not on their order or repeats |
| NameOrder.NotVersionOrder | src/main.rs:67 | "0.10.0" sorts before "0.9.0"; among 0.9.0, 0.10.0 and 1.0.0 the choice is 1.0.0, and between the first two it is 0.9.0 |
| Paths.Join | src/main.rs:63 | join keeps the base as a prefix and the name as a suffix, with exactly one separator between them when the base is non-empty, does not end in a separator and is not a bare drive |
| Paths.JoinFinalComponent | src/main.rs:75-76 | the file name of a joined path is the name that was joined |
| Paths.ResModsDirLayout | src/main.rs:63-76 | the target written from `<gameDir>`: `<gameDir>` + SEP + `bin` + SEP + name + SEP + `res_mods` when `<gameDir>` needs a separator, and `<gameDir>` + `bin` + SEP + ... otherwise |
| Paths.ResModsDirInjective | src/main.rs:75-76 | different entry names give different targets |
| Paths.BinDir | src/main.rs:63 | `<gameDir>/bin` starts with `<gameDir>` and its file name is `bin` |
| Paths.ResModsDir | src/main.rs:75-76 | the target starts with `<gameDir>/bin` and its file name is `res_mods` |
| Paths.ResModsDirShape | src/main.rs:75-76 | the target is `<bin>` SEP name SEP `res_mods` |
| Paths.ExampleUnixLayout | src/main.rs:63-76 | `/wows` and `13.1` give `/wows/bin/13.1/res_mods` |
| Paths.ExampleWindowsBareDrive | src/main.rs:63-76 | on Windows `C:` and `13.1` give `C:bin\13.1\res_mods` |
| DebugFormat.Hex | src/main.rs:72 | `\u{..}` digits are lower-case hexadecimal with no leading zero, one digit exactly below 16, and read back to the number |
| DebugFormat.EscapeChar | src/main.rs:72 | an escaped character is itself exactly when it needs no backslash, and never begins with a bare quote |
| DebugFormat.EscapeDebug | src/main.rs:72 | escaping never shortens the text, and leaves it unchanged exactly when no character needs a backslash |
| DebugFormat.DebugQuoted | src/main.rs:72 | the rendering is the escaped text between double quotes, and it reads back to the directory (with UnquoteDebugQuoted) |
| DebugFormat.UnescapeEscapeDebug | src/main.rs:72 | the escaped text of the bin directory reads back to the directory |
| DebugFormat.UnquoteDebugQuoted | src/main.rs:72 | the quoted `{:?}` rendering reads back to the directory |
| DebugFormat.DebugQuotedInjective | src/main.rs:72 | different directories are never rendered alike in the NotFound message |
| DebugFormat.ExampleWindowsPath | src/main.rs:72 | `C:\bin` renders as `"C:\\bin"` |
| Errors.Render | src/main.rs:31-41 | a message starts with `IO Error: `, `Json Error: `, `Key missing in pref.json: "` or `Copy Error: ` exactly when the error is of that variant |
| Errors.ParseRender | src/main.rs:34-39 | the variant and payload can be read back from every rendered message |
| Errors.RenderInjective | src/main.rs:34-39 | two errors render alike only if they have the same variant and payload |
| Errors.ExampleMissingKey | src/main.rs:37 | a missing `gameDir` renders as `Key missing in pref.json: "gameDir"` |
| Config.Index | src/main.rs:53-58 | `conf[key]` is the member's value when the document is an object with that key, and null otherwise |
| Config.AsStr | src/main.rs:53-58 | `.as_str()` gives a value exactly for a JSON string, and that value is the string |
| Config.StringField | src/main.rs:53-56 | a key yields its value exactly when the config is an object whose member there is a string, and otherwise `ConfKeyMissing(key)` |
| Config.ReadSettings | src/main.rs:53-60 | succeeds exactly when both keys hold strings. A bad `gameDir` gives `ConfKeyMissing("gameDir")` whatever `modsDir` holds. `ConfKeyMissing("modsDir")` arises exactly when `gameDir` is good and `modsDir` is not |
| Config.ReadSettingsReadsTwoKeys | src/main.rs:53-60 | only the members `gameDir` and `modsDir` are looked at |
| Config.ExampleNumberIsNotAPath | src/main.rs:53-60 | a non-string `gameDir`, a missing `modsDir` and a non-object document give the expected key errors |
| Locate.CollectEntries | src/main.rs:64-65 | collecting gives all names in order exactly when every entry was read; otherwise it gives the error of the first failed entry |
| Locate.Newest | src/main.rs:67-74 | the last of the sorted names is absent exactly for an empty listing, and otherwise the greatest name |
| Locate.LocateTarget | src/main.rs:62-76 | succeeds exactly for a readable, fully read, non-empty listing, with target `ResModsDir(gameDir, MaxName(names))`. An unreadable `bin` or the first failed entry gives that I/O error. An empty listing gives NotFound with `"<bin>" does not contain any version directory` |
| Locate.NotFoundMessage | src/main.rs:70-73 | the message ends in ` does not contain any version directory`, and what comes before reads back to `<bin>` |
| Locate.LocateIgnoresListingOrder | src/main.rs:64-68 | two listings with the same names give the same target, whatever their order |
| Locate.LocatedTargetIsGreatestEntry | src/main.rs:63-76 | the chosen name is one of the entries, no entry sorts after it, and the target is `<bin>` SEP name SEP `res_mods` |
| Locate.GreatestOfThree | src/main.rs:67-68 | of 1.0.0, 1.2.0 and 1.1.0 the greatest name is 1.2.0 |
| Locate.ExampleNewestOfThree | src/main.rs:67-68 | entries 1.0.0, 1.2.0, 1.1.0 give the 1.2.0 target |
| Overlay.CopyContents | src/main.rs:80-87 | afterwards the destination holds the union of both trees, each source file's bytes at its own relative path, and the other destination files unchanged |
| Overlay.CopyContentsIdempotent | src/main.rs:80-87 | copying twice with an unchanged source equals copying once |
| Overlay.CopyContentsDoesNotNest | src/main.rs:84 | no file appears under the source directory's own name unless it was already there |
| Overlay.CopyContentsKeepsDestination | src/main.rs:80-87 | no destination file is deleted, and one the source lacks keeps its bytes |
| Overlay.ExampleMerge | src/main.rs:80-87 | `a.txt` and `b/c.txt` copied over `d.txt` and an older `a.txt` give all three files, with the new `a.txt` |
| Installer.LoadSettings | src/main.rs:51-60 | a read failure is an `IoError`, a parse failure a `JsonError`, otherwise the settings are read from the document |
| Installer.Target | src/main.rs:62-76 | locating succeeds exactly for a readable, fully read, non-empty `bin`, and then gives the greatest entry's `res_mods` |
| Installer.MainImpl | src/main.rs:50-95 | the run succeeds exactly when the settings load, the target is located and the copy does not fail. Otherwise the first failing step decides the error: a config error unchanged, then the lookup error, then `CopyError`. A success holds the mods directory, the located target and the target's files after the copy |
| Installer.MainImplInstalls | src/main.rs:50-95 | a success means both settings were read, `bin` was fully listed and non-empty, and the copy did not fail. The target is then the greatest entry's `res_mods`, every mods file is there with its bytes, and no earlier file was lost |
| Installer.EmptyBinStopsBeforeCopy | src/main.rs:69-87 | an empty `bin` ends the run with NotFound before the copy. The printed message is `IO Error: "<bin>" does not contain any version directory`, and the quoted path reads back to `<bin>` |
| Installer.NotFoundRendered | src/main.rs:35-73 | the NotFound error prints as `IO Error: "<bin>" does not contain any version directory`, with `<bin>` in `{:?}` form |
| Installer.BadGameDirReportedFirst | src/main.rs:53-56 | a bad `gameDir` ends the run with `Key missing in pref.json: "gameDir"`, whatever else holds |
| Installer.EntryFailureStopsRun | src/main.rs:64-65 | the first failed entry read ends the run with that entry's error |
| Installer.SecondRunChangesNothing | src/main.rs:80-87 | a second run, over a target holding what the first run left and an unchanged mods directory, gives the same result |

## Left out

- Reading `pref.json` and parsing JSON are not modelled. Their outcome is an input: a read error, a parse error, or the parsed value. The `json` crate's handling of duplicate keys is not modelled.
- `read_dir` is not modelled. Its answer for each directory is an input. Every name it returns is assumed to be a single path component, which is what a file system returns. Names that are not valid Unicode are not modelled.
- `fs_extra::dir::copy`'s traversal is not modelled. The copy's failure is an input (`CopyError`), and the partial writes before a failure are not modelled. Empty directories, clashes between a file and a directory, and symbolic links are not modelled either.
- The trees of different directories are independent inputs. So a `modsDir` that contains the target, or lies inside it, is not modelled.
- The wrapped `io::Error`, `json::Error` and `fs_extra::error::Error` are modelled only by the text they display. `io::ErrorKind` is reduced to NotFound and one other kind.
- Console output (src/main.rs:79, 89-92) is not modelled. Neither is `main`'s call of `exit_with_msg` with exit code 1, nor the keypress wait and `process::exit` (src/main.rs:44-48, 97-109). These are terminal and process I/O.
- DebugFormat.EscapeChar: every non-ASCII character is treated as printable. Rust also writes non-printable and grapheme-extending Unicode characters as `\u{...}`, which needs the Unicode tables.
- Paths.Join: only joins of one relative component are modelled, because the installer performs no other joins. Windows verbatim (`\\?\`) and UNC prefixes on `gameDir` are not told apart from other paths.
- The `index.js` variant of the installer is not modelled. It filters to directories and sorts numerically in descending order, and it is a separate program.
- Selecting every version directory and collecting failures per target are not modelled. The Rust code selects exactly one target.

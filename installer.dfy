/**
 * `main_impl` (src/main.rs:50-95) as one function of what it reads from the
 * outside: the outcome of reading and parsing `pref.json`, the answer of
 * `read_dir` for each directory, the files under each directory, and whether
 * the copy fails. Each `?` returns the first error; nothing after it runs.
 */
module Installer {
  import opened Wrappers
  import opened Errors
  import opened Config
  import opened Paths
  import opened NameOrder
  import opened DebugFormat
  import opened Locate
  import opened Overlay

  /** `fs::read_to_string(CONF_PATH_STR)` followed by `json::parse` (src/main.rs:51). */
  datatype ConfLoad = ReadFailed(failure: IoFailure) | ParseFailed(message: string) | Parsed(conf: Json)

  /** What was copied where, and the destination's files afterwards. */
  datatype Installed = Installed(modsDir: string, resModsDir: string, resMods: Tree)

  /** The settings, once `pref.json` was read and parsed (src/main.rs:51-60). */
  function LoadSettings(load: ConfLoad): (r: Result<Settings, Error>)
    ensures load.ReadFailed? ==> r == Err(IoError(load.failure))
    ensures load.ParseFailed? ==> r == Err(JsonError(load.message))
    ensures load.Parsed? ==> r == ReadSettings(load.conf)
  {
    match load
    case ReadFailed(f) => Err(IoError(f))
    case ParseFailed(m) => Err(JsonError(m))
    case Parsed(conf) => ReadSettings(conf)
  }

  /** The target `main_impl` locates once the settings are known (src/main.rs:62-76). */
  function Target(p: Platform, readDir: string -> Listing, settings: Settings): (r: Result<string, Error>)
    requires forall d :: WellFormedListing(p, readDir(d))
    ensures var listing := readDir(BinDir(p, settings.gameDir));
      r.Ok? <==> listing.Listed? && AllRead(listing.entries) && |listing.entries| > 0
    ensures var listing := readDir(BinDir(p, settings.gameDir));
      r.Ok? ==>
        && IsFileName(p, MaxName(Names(listing.entries)))
        && r.value == ResModsDir(p, settings.gameDir, MaxName(Names(listing.entries)))
  {
    LocateTarget(p, settings.gameDir, readDir(BinDir(p, settings.gameDir)))
  }

  /**
   * `main_impl`: load the settings, locate the target, copy the mods
   * directory's contents into it. The first step that fails decides the error.
   */
  function MainImpl(
    p: Platform,
    load: ConfLoad,
    readDir: string -> Listing,
    files: string -> Tree,
    copyFault: Option<string>
  ): (r: Result<Installed, Error>)
    requires forall d :: WellFormedListing(p, readDir(d))
    ensures LoadSettings(load).Err? ==> r == Err(LoadSettings(load).error)
    ensures LoadSettings(load).Ok? && Target(p, readDir, LoadSettings(load).value).Err? ==>
      r == Err(Target(p, readDir, LoadSettings(load).value).error)
    ensures LoadSettings(load).Ok? && Target(p, readDir, LoadSettings(load).value).Ok? && copyFault.Some? ==>
      r == Err(CopyError(copyFault.value))
    ensures r.Ok? <==>
      LoadSettings(load).Ok? && Target(p, readDir, LoadSettings(load).value).Ok? && copyFault.None?
    ensures r.Ok? ==>
      && r.value.modsDir == LoadSettings(load).value.modsDir
      && r.value.resModsDir == Target(p, readDir, LoadSettings(load).value).value
      && r.value.resMods == CopyContents(files(r.value.modsDir), files(r.value.resModsDir))
  {
    match LoadSettings(load)
    case Err(e) => Err(e)
    case Ok(settings) =>
      match Target(p, readDir, settings)
      case Err(e) => Err(e)
      case Ok(target) =>
        match copyFault
        case Some(m) => Err(CopyError(m))
        case None => Ok(Installed(settings.modsDir, target, CopyContents(files(settings.modsDir), files(target))))
  }

  /**
   * A successful run read both settings, listed a non-empty `bin` in full,
   * and copied into the greatest entry's `res_mods`: every mods file is there
   * with its bytes, and no file the target held before is lost.
   */
  lemma MainImplInstalls(
    p: Platform, load: ConfLoad, readDir: string -> Listing, files: string -> Tree, copyFault: Option<string>
  )
    requires forall d :: WellFormedListing(p, readDir(d))
    requires MainImpl(p, load, readDir, files, copyFault).Ok?
    ensures var r := MainImpl(p, load, readDir, files, copyFault).value;
      var settings := LoadSettings(load).value;
      var listing := readDir(BinDir(p, settings.gameDir));
      && LoadSettings(load).Ok?
      && listing.Listed? && AllRead(listing.entries) && |listing.entries| > 0
      && copyFault.None?
      && r.modsDir == settings.modsDir
      && IsFileName(p, MaxName(Names(listing.entries)))
      && r.resModsDir == ResModsDir(p, settings.gameDir, MaxName(Names(listing.entries)))
      && (forall rel :: rel in files(r.modsDir) ==> rel in r.resMods && r.resMods[rel] == files(r.modsDir)[rel])
      && (forall rel :: rel in files(r.resModsDir) ==> rel in r.resMods)
  {
    var r := MainImpl(p, load, readDir, files, copyFault).value;
    var settings := LoadSettings(load).value;
    assert Target(p, readDir, settings).Ok?;
    assert r.resMods == CopyContents(files(r.modsDir), files(r.resModsDir));
  }

  /**
   * An empty `bin` ends the run before any copy with the NotFound error, and
   * the printed message names the directory in `{:?}` form, from which the
   * directory can be read back.
   */
  lemma EmptyBinStopsBeforeCopy(
    p: Platform, conf: Json, readDir: string -> Listing, files: string -> Tree, copyFault: Option<string>
  )
    requires forall d :: WellFormedListing(p, readDir(d))
    requires ReadSettings(conf).Ok?
    requires readDir(BinDir(p, ReadSettings(conf).value.gameDir)) == Listed([])
    ensures var bin := BinDir(p, ReadSettings(conf).value.gameDir);
      && MainImpl(p, Parsed(conf), readDir, files, copyFault)
           == Err(IoError(IoFailure(NotFound, NotFoundMessage(bin))))
      && Render(MainImpl(p, Parsed(conf), readDir, files, copyFault).error)
           == "IO Error: " + DebugQuoted(bin) + " does not contain any version directory"
      && Unquote(DebugQuoted(bin)) == Some(bin)
  {
    var bin := BinDir(p, ReadSettings(conf).value.gameDir);
    assert Target(p, readDir, ReadSettings(conf).value) == Err(IoError(IoFailure(NotFound, NotFoundMessage(bin))));
    NotFoundRendered(bin);
    UnquoteDebugQuoted(bin);
  }

  /** The printed form of the NotFound error. */
  lemma NotFoundRendered(bin: string)
    ensures Render(IoError(IoFailure(NotFound, NotFoundMessage(bin))))
      == "IO Error: " + DebugQuoted(bin) + " does not contain any version directory"
  {
    assert IoPrefix == "IO Error: ";
  }

  /**
   * A `gameDir` that is missing or not a string is reported as such, whatever
   * `modsDir` holds and whatever is on disk.
   */
  lemma BadGameDirReportedFirst(
    p: Platform, conf: Json, readDir: string -> Listing, files: string -> Tree, copyFault: Option<string>
  )
    requires forall d :: WellFormedListing(p, readDir(d))
    requires !HasString(conf, "gameDir")
    ensures MainImpl(p, Parsed(conf), readDir, files, copyFault) == Err(ConfKeyMissing("gameDir"))
    ensures Render(MainImpl(p, Parsed(conf), readDir, files, copyFault).error)
      == "Key missing in pref.json: \"gameDir\""
  {
    assert MainImpl(p, Parsed(conf), readDir, files, copyFault) == Err(ConfKeyMissing("gameDir"));
    ExampleMissingKey();
  }

  /** A failed entry read fails the run with that entry's error; no target is produced. */
  lemma EntryFailureStopsRun(
    p: Platform, conf: Json, readDir: string -> Listing, files: string -> Tree, copyFault: Option<string>, i: nat
  )
    requires forall d :: WellFormedListing(p, readDir(d))
    requires ReadSettings(conf).Ok?
    requires readDir(BinDir(p, ReadSettings(conf).value.gameDir)).Listed?
    requires FirstFailure(readDir(BinDir(p, ReadSettings(conf).value.gameDir)).entries, i)
    ensures MainImpl(p, Parsed(conf), readDir, files, copyFault)
      == Err(IoError(readDir(BinDir(p, ReadSettings(conf).value.gameDir)).entries[i].failure))
  {
  }

  /**
   * Running the installer again, on a file system where the target holds what
   * the first run left and the mods directory is unchanged, leaves the target
   * as it was.
   */
  lemma SecondRunChangesNothing(
    p: Platform, load: ConfLoad, readDir: string -> Listing, files: string -> Tree, after: string -> Tree
  )
    requires forall d :: WellFormedListing(p, readDir(d))
    requires MainImpl(p, load, readDir, files, None).Ok?
    requires var first := MainImpl(p, load, readDir, files, None).value;
      after(first.resModsDir) == first.resMods && after(first.modsDir) == files(first.modsDir)
    ensures MainImpl(p, load, readDir, after, None) == MainImpl(p, load, readDir, files, None)
  {
    var first := MainImpl(p, load, readDir, files, None).value;
    CopyContentsIdempotent(files(first.modsDir), files(first.resModsDir));
  }
}

/**
 * Locating the copy target (src/main.rs:62-76): list `<gameDir>/bin`, fail on
 * the first entry that could not be read, rank the entries by file name, take
 * the last one, and append `res_mods` to its path. Every entry counts, whether
 * it is a directory or a plain file.
 */
module Locate {
  import opened Wrappers
  import opened Errors
  import opened Paths
  import opened NameOrder
  import opened DebugFormat

  /** One item of the `read_dir` iterator: an entry's file name, or the error reading it. */
  datatype EntryRead = Entry(name: string) | EntryFailed(failure: IoFailure)

  /** `fs::read_dir(&bin_dir)`: the directory could not be opened, or its items in listing order. */
  datatype Listing = ListFailed(failure: IoFailure) | Listed(entries: seq<EntryRead>)

  /** What a file system can answer: every name it lists is a single path component. */
  predicate WellFormedListing(p: Platform, l: Listing)
  {
    l.Listed? ==> forall i :: 0 <= i < |l.entries| && l.entries[i].Entry? ==> IsFileName(p, l.entries[i].name)
  }

  predicate AllRead(es: seq<EntryRead>)
  {
    forall i :: 0 <= i < |es| ==> es[i].Entry?
  }

  /** The names of a listing whose entries were all read. */
  function Names(es: seq<EntryRead>): (r: seq<string>)
    requires AllRead(es)
    ensures |r| == |es| && forall i :: 0 <= i < |es| ==> r[i] == es[i].name
  {
    if es == [] then [] else [es[0].name] + Names(es[1..])
  }

  /** `i` is the first entry that failed. */
  predicate FirstFailure(es: seq<EntryRead>, i: int)
  {
    0 <= i < |es| && es[i].EntryFailed? && forall j :: 0 <= j < i ==> es[j].Entry?
  }

  /**
   * `.collect::<Result<Vec<_>, _>>()` (src/main.rs:65): all the names, or the
   * error of the first entry that failed.
   */
  function CollectEntries(es: seq<EntryRead>): (r: Result<seq<string>, IoFailure>)
    ensures r.Ok? <==> AllRead(es)
    ensures r.Ok? ==> r.value == Names(es)
    ensures r.Err? ==> exists i :: FirstFailure(es, i) && r.error == es[i].failure
  {
    if es == [] then Ok([])
    else
      match es[0]
      case EntryFailed(f) =>
        assert FirstFailure(es, 0);
        Err(f)
      case Entry(n) =>
        match CollectEntries(es[1..])
        case Err(f) =>
          var i :| FirstFailure(es[1..], i) && f == es[1..][i].failure;
          assert FirstFailure(es, i + 1);
          Err(f)
        case Ok(ns) => Ok([n] + ns)
  }

  /** A listing has at most one first failure. */
  lemma FirstFailureIsUnique(es: seq<EntryRead>, i: int, j: int)
    requires FirstFailure(es, i) && FirstFailure(es, j)
    ensures i == j
  {
  }

  /**
   * `.sorted_by_key(|d| d.file_name()).last()` (src/main.rs:67-68): nothing for
   * an empty listing, otherwise the greatest name.
   */
  function Newest(names: seq<string>): (r: Option<string>)
    ensures r.None? <==> names == []
    ensures r.Some? ==> IsGreatest(r.value, names)
  {
    if names == [] then None
    else
      LastOfSortedIsMax(names);
      Some(SortNames(names)[|names| - 1])
  }

  const NotFoundSuffix: string := " does not contain any version directory"

  /**
   * The message of the NotFound error (src/main.rs:70-73): the `{:?}`
   * rendering of `bin`, which reads back to `bin`, then the fixed suffix.
   */
  function NotFoundMessage(bin: string): (r: string)
    ensures |r| > |NotFoundSuffix| && r[|r| - |NotFoundSuffix|..] == NotFoundSuffix
    ensures Unquote(r[..|r| - |NotFoundSuffix|]) == Some(bin)
  {
    UnquoteDebugQuoted(bin);
    var r := DebugQuoted(bin) + NotFoundSuffix;
    assert r[..|r| - |NotFoundSuffix|] == DebugQuoted(bin);
    r
  }

  /** Every name a well-formed, fully read listing yields is a file name. */
  lemma NamesAreFileNames(p: Platform, es: seq<EntryRead>)
    requires WellFormedListing(p, Listed(es)) && AllRead(es)
    ensures forall x :: x in Names(es) ==> IsFileName(p, x)
  {
    forall x | x in Names(es) ensures IsFileName(p, x) {
      var j :| 0 <= j < |Names(es)| && Names(es)[j] == x;
    }
  }

  /**
   * The target directory, given the answer of `read_dir` for
   * `<gameDir>/bin`: `<gameDir>/bin/<greatest name>/res_mods`, or the error.
   */
  function LocateTarget(p: Platform, gameDir: string, listing: Listing): (r: Result<string, Error>)
    requires WellFormedListing(p, listing)
    ensures r.Ok? <==> listing.Listed? && AllRead(listing.entries) && |listing.entries| > 0
    ensures r.Ok? ==>
      && IsFileName(p, MaxName(Names(listing.entries)))
      && r.value == ResModsDir(p, gameDir, MaxName(Names(listing.entries)))
    ensures listing.ListFailed? ==> r == Err(IoError(listing.failure))
    ensures forall i :: listing.Listed? && FirstFailure(listing.entries, i) ==>
      r == Err(IoError(listing.entries[i].failure))
    ensures listing == Listed([]) ==>
      r == Err(IoError(IoFailure(NotFound, NotFoundMessage(BinDir(p, gameDir)))))
  {
    match listing
    case ListFailed(f) => Err(IoError(f))
    case Listed(es) =>
      match CollectEntries(es)
      case Err(f) =>
        forall i | FirstFailure(es, i) ensures f == es[i].failure {
          var k :| FirstFailure(es, k) && f == es[k].failure;
          FirstFailureIsUnique(es, i, k);
        }
        Err(IoError(f))
      case Ok(names) =>
        match Newest(names)
        case None => Err(IoError(IoFailure(NotFound, NotFoundMessage(BinDir(p, gameDir)))))
        case Some(n) =>
          GreatestIsUnique(n, names, MaxName(names), names);
          NamesAreFileNames(p, es);
          Ok(ResModsDir(p, gameDir, n))
  }

  /**
   * The target depends on which names `bin` holds, not on the order in which
   * `read_dir` yields them.
   */
  lemma LocateIgnoresListingOrder(p: Platform, gameDir: string, es1: seq<EntryRead>, es2: seq<EntryRead>)
    requires WellFormedListing(p, Listed(es1)) && WellFormedListing(p, Listed(es2))
    requires AllRead(es1) && AllRead(es2)
    requires forall x :: x in Names(es1) <==> x in Names(es2)
    ensures LocateTarget(p, gameDir, Listed(es1)) == LocateTarget(p, gameDir, Listed(es2))
  {
    var n1, n2 := Names(es1), Names(es2);
    if |n1| > 0 {
      MaxNameIgnoresOrder(n1, n2);
    }
  }

  /**
   * The chosen name is one of the listed entries and no entry sorts after it;
   * the target is `<gameDir>/bin/<name>/res_mods`, character for character.
   */
  lemma LocatedTargetIsGreatestEntry(p: Platform, gameDir: string, es: seq<EntryRead>)
    requires WellFormedListing(p, Listed(es))
    requires LocateTarget(p, gameDir, Listed(es)).Ok?
    ensures exists i :: 0 <= i < |es| && es[i] == Entry(MaxName(Names(es)))
    ensures forall j :: 0 <= j < |es| ==> NameLe(es[j].name, MaxName(Names(es)))
    ensures LocateTarget(p, gameDir, Listed(es)).value
      == BinDir(p, gameDir) + [MainSeparator(p)] + MaxName(Names(es)) + [MainSeparator(p)] + "res_mods"
  {
    var names := Names(es);
    var m := MaxName(names);
    var i :| 0 <= i < |names| && names[i] == m;
    assert es[i] == Entry(m);
    forall j | 0 <= j < |es| ensures NameLe(es[j].name, m) {
      assert names[j] in names;
    }
    ResModsDirShape(p, gameDir, m);
  }

  /** Of 1.0.0, 1.2.0 and 1.1.0, the greatest name is 1.2.0. */
  lemma GreatestOfThree()
    ensures MaxName(["1.0.0", "1.2.0", "1.1.0"]) == "1.2.0"
  {
    var names := ["1.0.0", "1.2.0", "1.1.0"];
    assert "1.0.0"[1..] == ".0.0" && "1.2.0"[1..] == ".2.0" && "1.1.0"[1..] == ".1.0";
    assert ".0.0"[1..] == "0.0" && ".2.0"[1..] == "2.0" && ".1.0"[1..] == "1.0";
    assert NameLe("1.0.0", "1.2.0") && NameLe("1.1.0", "1.2.0");
    NameLeReflexive("1.2.0");
    assert IsGreatest("1.2.0", names);
    GreatestIsUnique("1.2.0", names, MaxName(names), names);
  }

  /** The three versions 1.0.0, 1.2.0 and 1.1.0, listed in that order, give the 1.2.0 target. */
  lemma ExampleNewestOfThree(p: Platform, gameDir: string)
    requires WellFormedListing(p, Listed([Entry("1.0.0"), Entry("1.2.0"), Entry("1.1.0")]))
    ensures LocateTarget(p, gameDir, Listed([Entry("1.0.0"), Entry("1.2.0"), Entry("1.1.0")]))
      == Ok(ResModsDir(p, gameDir, "1.2.0"))
  {
    var es := [Entry("1.0.0"), Entry("1.2.0"), Entry("1.1.0")];
    assert Names(es) == ["1.0.0", "1.2.0", "1.1.0"];
    GreatestOfThree();
  }
}

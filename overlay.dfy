/**
 * The copy step (src/main.rs:80-87) as its options define it. A directory's
 * files are a map from the path relative to that directory (a sequence of
 * components) to the file's bytes. With `overwrite: true` and
 * `skip_exist: false` every source file replaces what the destination had at
 * the same place; with `content_only: true` the source directory's own name is
 * not put in front of the relative paths; files only in the destination stay.
 */
module Overlay {

  newtype byte = x: int | 0 <= x < 256

  type Bytes = seq<byte>

  /** A path below a directory, one component per element. */
  type RelPath = seq<string>

  /** The files under a directory, by relative path. */
  type Tree = map<RelPath, Bytes>

  /**
   * The destination's files after copying `src` into it with the options of
   * src/main.rs:80-86: `overwrite: true`, `skip_exist: false`,
   * `copy_inside: true`, `content_only: true`.
   */
  function CopyContents(src: Tree, dst: Tree): (r: Tree)
    ensures r.Keys == src.Keys + dst.Keys
    ensures forall rel :: rel in src ==> r[rel] == src[rel]
    ensures forall rel :: rel in dst && rel !in src ==> r[rel] == dst[rel]
  {
    dst + src
  }

  /** Copying again with an unchanged source changes nothing more. */
  lemma CopyContentsIdempotent(src: Tree, dst: Tree)
    ensures CopyContents(src, CopyContents(src, dst)) == CopyContents(src, dst)
  {
    var once := CopyContents(src, dst);
    var twice := CopyContents(src, once);
    assert forall rel :: rel in twice ==> twice[rel] == once[rel];
  }

  /**
   * Nothing lands under the source directory's own name: a path
   * `<name>/<rel>` exists afterwards only where the source or the destination
   * already had it.
   */
  lemma CopyContentsDoesNotNest(name: string, src: Tree, dst: Tree)
    ensures forall rel :: [name] + rel in CopyContents(src, dst) ==> [name] + rel in src || [name] + rel in dst
  {
  }

  /** The copy never deletes: every destination file is still there, with its old bytes unless the source has it. */
  lemma CopyContentsKeepsDestination(src: Tree, dst: Tree, rel: RelPath)
    requires rel in dst
    ensures rel in CopyContents(src, dst)
    ensures rel !in src ==> CopyContents(src, dst)[rel] == dst[rel]
  {
  }

  /**
   * A source holding `a.txt` and `b/c.txt`, copied into a destination holding
   * `d.txt` and an older `a.txt`: all three files are there, and `a.txt` has
   * the source's bytes.
   */
  lemma ExampleMerge(before: Bytes, a: Bytes, c: Bytes, d: Bytes)
    requires before != a
    ensures var r := CopyContents(map[["a.txt"] := a, ["b", "c.txt"] := c], map[["d.txt"] := d, ["a.txt"] := before]);
      && r.Keys == {["a.txt"], ["b", "c.txt"], ["d.txt"]}
      && r[["a.txt"]] == a && r[["b", "c.txt"]] == c && r[["d.txt"]] == d
  {
    assert ["a.txt"] != ["d.txt"] by { assert ["a.txt"][0] != ["d.txt"][0]; }
  }
}

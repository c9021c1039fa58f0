/**
 * Path construction as the installer does it with `PathBuf::join`
 * (src/main.rs:63, 75-76): `<gameDir>/bin`, then the chosen entry's path
 * `<gameDir>/bin/<name>` (a directory entry's path is the listed directory
 * joined with the entry's file name), then `<gameDir>/bin/<name>/res_mods`.
 * Paths are strings; only joins of a single relative component are modelled,
 * which is all the installer performs.
 */
module Paths {

  /** Separator conventions differ between the two platforms the tool builds for. */
  datatype Platform = Unix | Windows

  /** Unix separates with '/' only; Windows accepts both '/' and '\'. */
  predicate IsSeparator(p: Platform, c: char)
  {
    c == '/' || (p == Windows && c == '\\')
  }

  /** The separator `join` inserts. */
  function MainSeparator(p: Platform): (c: char)
    ensures IsSeparator(p, c)
  {
    if p == Windows then '\\' else '/'
  }

  predicate IsAsciiLetter(c: char)
  {
    ('a' <= c <= 'z') || ('A' <= c <= 'Z')
  }

  /** `s` starts with a Windows drive prefix such as `C:`. */
  predicate HasDrivePrefix(p: Platform, s: string)
  {
    p == Windows && |s| >= 2 && IsAsciiLetter(s[0]) && s[1] == ':'
  }

  /** `s` is a drive prefix and nothing else, like `C:`. */
  predicate IsBareDrive(p: Platform, s: string)
  {
    HasDrivePrefix(p, s) && |s| == 2
  }

  /**
   * A single path component that a directory listing can return: not empty,
   * not `.` or `..`, without separators, and on Windows without `:`, which
   * Windows file names cannot contain.
   */
  predicate IsFileName(p: Platform, n: string)
  {
    && n != [] && n != "." && n != ".."
    && (forall i :: 0 <= i < |n| ==> !IsSeparator(p, n[i]))
    && (p == Windows ==> forall i :: 0 <= i < |n| ==> n[i] != ':')
  }

  /**
   * `PathBuf::push` adds a separator unless the base is empty, already ends
   * with a separator, or (on Windows) is a bare drive like `C:`.
   */
  predicate NeedsSeparator(p: Platform, base: string)
  {
    |base| > 0 && !IsSeparator(p, base[|base| - 1]) && !IsBareDrive(p, base)
  }

  /** `base.join(name)` for a relative single-component `name`. */
  function Join(p: Platform, base: string, name: string): (r: string)
    requires IsFileName(p, name)
    ensures |base| + |name| <= |r| <= |base| + |name| + 1
    ensures r[..|base|] == base && r[|r| - |name|..] == name
    ensures |r| == |base| + |name| + 1 <==> NeedsSeparator(p, base)
    ensures NeedsSeparator(p, base) ==> r[|base|] == MainSeparator(p)
  {
    if NeedsSeparator(p, base) then base + [MainSeparator(p)] + name else base + name
  }

  /** The characters after the last separator of `s`. */
  function AfterLastSeparator(p: Platform, s: string): string
  {
    if s == [] then []
    else if IsSeparator(p, s[|s| - 1]) then []
    else AfterLastSeparator(p, s[..|s| - 1]) + [s[|s| - 1]]
  }

  /** `s` without its drive prefix. */
  function StripDrive(p: Platform, s: string): string
  {
    if HasDrivePrefix(p, s) then s[2..] else s
  }

  /**
   * The last component of a path that ends in a normal component: what
   * `Path::file_name` returns for it.
   */
  function FinalComponent(p: Platform, s: string): string
  {
    AfterLastSeparator(p, StripDrive(p, s))
  }

  lemma {:induction false} AfterLastSeparatorOfSuffix(p: Platform, pre: string, name: string)
    requires pre == [] || IsSeparator(p, pre[|pre| - 1])
    requires forall i :: 0 <= i < |name| ==> !IsSeparator(p, name[i])
    ensures AfterLastSeparator(p, pre + name) == name
    decreases |name|
  {
    if name == [] {
      assert pre + name == pre;
    } else {
      var init := name[..|name| - 1];
      assert (pre + name)[..|pre + name| - 1] == pre + init;
      AfterLastSeparatorOfSuffix(p, pre, init);
      assert name == init + [name[|name| - 1]];
    }
  }

  lemma StripDriveAppend(p: Platform, pre: string, suffix: string)
    requires |pre| >= 2
    ensures StripDrive(p, pre + suffix) == StripDrive(p, pre) + suffix
  {
    if HasDrivePrefix(p, pre) {
      assert (pre + suffix)[2..] == pre[2..] + suffix;
    }
  }

  /** Joining a file name onto a path and taking the path's file name gives the name back. */
  lemma JoinFinalComponent(p: Platform, base: string, name: string)
    requires IsFileName(p, name)
    ensures FinalComponent(p, Join(p, base, name)) == name
  {
    var s := MainSeparator(p);
    if NeedsSeparator(p, base) {
      var r := base + [s] + name;
      assert Join(p, base, name) == r;
      if |base| >= 2 {
        StripDriveAppend(p, base, [s] + name);
        assert r == base + ([s] + name);
        assert StripDrive(p, r) == (StripDrive(p, base) + [s]) + name;
        AfterLastSeparatorOfSuffix(p, StripDrive(p, base) + [s], name);
      } else {
        assert !HasDrivePrefix(p, r) by { assert r[1] == s; }
        AfterLastSeparatorOfSuffix(p, base + [s], name);
      }
    } else {
      var r := base + name;
      assert Join(p, base, name) == r;
      if IsBareDrive(p, base) {
        assert StripDrive(p, r) == [] + name;
        AfterLastSeparatorOfSuffix(p, [], name);
      } else if |base| >= 2 {
        StripDriveAppend(p, base, name);
        AfterLastSeparatorOfSuffix(p, StripDrive(p, base), name);
      } else {
        assert !HasDrivePrefix(p, r) by {
          if p == Windows && |r| >= 2 { assert r[1] == name[1 - |base|]; }
        }
        AfterLastSeparatorOfSuffix(p, base, name);
      }
    }
  }

  /** `<gameDir>/bin` (src/main.rs:63). */
  function BinDir(p: Platform, gameDir: string): (r: string)
    ensures gameDir <= r
    ensures FinalComponent(p, r) == "bin"
  {
    JoinFinalComponent(p, gameDir, "bin");
    Join(p, gameDir, "bin")
  }

  /** `<gameDir>/bin/<name>/res_mods`: the chosen entry's path joined with `res_mods` (src/main.rs:75-76). */
  function ResModsDir(p: Platform, gameDir: string, name: string): (r: string)
    requires IsFileName(p, name)
    ensures BinDir(p, gameDir) <= r
    ensures FinalComponent(p, r) == "res_mods"
  {
    var bin := BinDir(p, gameDir);
    var ver := Join(p, bin, name);
    JoinFinalComponent(p, ver, "res_mods");
    var r := Join(p, ver, "res_mods");
    assert r[..|bin|] == r[..|ver|][..|bin|] == ver[..|bin|];
    r
  }

  /** The target is `<bin>` SEP `<name>` SEP `res_mods`. */
  lemma ResModsDirShape(p: Platform, gameDir: string, name: string)
    requires IsFileName(p, name)
    ensures ResModsDir(p, gameDir, name)
      == BinDir(p, gameDir) + [MainSeparator(p)] + name + [MainSeparator(p)] + "res_mods"
  {
    var s := MainSeparator(p);
    var bin := BinDir(p, gameDir);
    assert bin[|bin| - 1] == 'n';
    var ver := Join(p, bin, name);
    assert ver == bin + [s] + name;
    assert ver[|ver| - 1] == name[|name| - 1];
  }

  /**
   * The target written out from `<gameDir>`: `<gameDir>` SEP `bin` SEP
   * `<name>` SEP `res_mods` whenever `<gameDir>` is non-empty and ends in a
   * normal component, and without the first separator otherwise.
   */
  lemma ResModsDirLayout(p: Platform, gameDir: string, name: string)
    requires IsFileName(p, name)
    ensures NeedsSeparator(p, gameDir) ==>
      ResModsDir(p, gameDir, name)
      == gameDir + [MainSeparator(p)] + "bin" + [MainSeparator(p)] + name + [MainSeparator(p)] + "res_mods"
    ensures !NeedsSeparator(p, gameDir) ==>
      ResModsDir(p, gameDir, name)
      == gameDir + "bin" + [MainSeparator(p)] + name + [MainSeparator(p)] + "res_mods"
  {
    ResModsDirShape(p, gameDir, name);
  }

  /** Different version entries give different targets. */
  lemma ResModsDirInjective(p: Platform, gameDir: string, n1: string, n2: string)
    requires IsFileName(p, n1) && IsFileName(p, n2)
    requires ResModsDir(p, gameDir, n1) == ResModsDir(p, gameDir, n2)
    ensures n1 == n2
  {
    ResModsDirShape(p, gameDir, n1);
    ResModsDirShape(p, gameDir, n2);
    SameFrameSameMiddle(BinDir(p, gameDir), MainSeparator(p), n1, n2, "res_mods");
  }

  /** Equal texts `x` SEP `a` SEP `y` and `x` SEP `b` SEP `y` have the same middle. */
  lemma SameFrameSameMiddle(x: string, s: char, a: string, b: string, y: string)
    requires x + [s] + a + [s] + y == x + [s] + b + [s] + y
    ensures a == b
  {
    var t := x + [s] + a + [s] + y;
    assert |a| == |b|;
    assert t[|x| + 1..|x| + 1 + |a|] == a;
    assert (x + [s] + b + [s] + y)[|x| + 1..|x| + 1 + |b|] == b;
  }

  lemma ExampleUnixLayout()
    ensures ResModsDir(Unix, "/wows", "13.1") == "/wows/bin/13.1/res_mods"
  {
    assert NeedsSeparator(Unix, "/wows");
    assert BinDir(Unix, "/wows") == "/wows/bin";
    ResModsDirShape(Unix, "/wows", "13.1");
  }

  lemma ExampleWindowsBareDrive()
    ensures ResModsDir(Windows, "C:", "13.1") == "C:bin\\13.1\\res_mods"
  {
    assert IsBareDrive(Windows, "C:");
    assert BinDir(Windows, "C:") == "C:bin";
    ResModsDirShape(Windows, "C:", "13.1");
  }
}

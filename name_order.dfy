/**
 * The order in which the installer ranks the entries of `<gameDir>/bin`
 * (src/main.rs:67-68): entries are sorted by their file name and the last one
 * is taken. File names compare as plain strings, one code point after the
 * other, with a proper prefix first; for valid Unicode this is the byte order
 * of their UTF-8 encoding. It is not a version order: "0.10.0" sorts before
 * "0.9.0".
 */
module NameOrder {

  /**
   * `a` sorts no later than `b`: the first differing character decides, and a
   * proper prefix sorts first.
   */
  predicate NameLe(a: string, b: string)
    ensures a <= b ==> NameLe(a, b)
    ensures b <= a && a != b ==> !NameLe(a, b)
  {
    if |a| == 0 then true
    else if |b| == 0 then false
    else if a[0] != b[0] then a[0] < b[0]
    else NameLe(a[1..], b[1..])
  }

  /** The textbook definition of lexicographic order, for comparison with NameLe. */
  ghost predicate Lexicographic(a: string, b: string)
  {
    || (|a| <= |b| && a == b[..|a|])
    || exists k :: 0 <= k < |a| && k < |b| && a[..k] == b[..k] && a[k] < b[k]
  }

  lemma {:induction false} NameLeIsLexicographic(a: string, b: string)
    ensures NameLe(a, b) <==> Lexicographic(a, b)
    decreases |a|
  {
    if |a| == 0 {
    } else if |b| == 0 {
    } else if a[0] != b[0] {
      if a[0] < b[0] {
        assert a[..0] == b[..0];
      }
    } else {
      NameLeIsLexicographic(a[1..], b[1..]);
      if Lexicographic(a[1..], b[1..]) {
        if |a[1..]| <= |b[1..]| && a[1..] == b[1..][..|a[1..]|] {
          assert a == [a[0]] + a[1..];
          assert b[..|a|] == [b[0]] + b[1..][..|a| - 1];
        } else {
          var k :| 0 <= k < |a[1..]| && k < |b[1..]| && a[1..][..k] == b[1..][..k] && a[1..][k] < b[1..][k];
          assert a[..k + 1] == [a[0]] + a[1..][..k];
          assert b[..k + 1] == [b[0]] + b[1..][..k];
        }
      }
      if Lexicographic(a, b) {
        if |a| <= |b| && a == b[..|a|] {
          assert a[1..] == b[1..][..|a[1..]|];
        } else {
          var k :| 0 <= k < |a| && k < |b| && a[..k] == b[..k] && a[k] < b[k];
          assert k != 0;
          assert a[1..][..k - 1] == a[..k][1..];
          assert b[1..][..k - 1] == b[..k][1..];
          assert a[1..][k - 1] < b[1..][k - 1];
        }
      }
    }
  }

  lemma {:induction false} NameLeReflexive(a: string)
    ensures NameLe(a, a)
    decreases |a|
  {
    if |a| > 0 {
      NameLeReflexive(a[1..]);
    }
  }

  lemma {:induction false} NameLeAntisymmetric(a: string, b: string)
    requires NameLe(a, b) && NameLe(b, a)
    ensures a == b
    decreases |a|
  {
    if |a| > 0 && |b| > 0 {
      NameLeAntisymmetric(a[1..], b[1..]);
      assert a == [a[0]] + a[1..];
      assert b == [b[0]] + b[1..];
    }
  }

  lemma {:induction false} NameLeTransitive(a: string, b: string, c: string)
    requires NameLe(a, b) && NameLe(b, c)
    ensures NameLe(a, c)
    decreases |a|
  {
    if |a| > 0 && |b| > 0 && |c| > 0 && a[0] == b[0] && b[0] == c[0] {
      NameLeTransitive(a[1..], b[1..], c[1..]);
    }
  }

  lemma {:induction false} NameLeTotal(a: string, b: string)
    ensures NameLe(a, b) || NameLe(b, a)
    decreases |a|
  {
    if |a| > 0 && |b| > 0 && a[0] == b[0] {
      NameLeTotal(a[1..], b[1..]);
    }
  }

  ghost predicate Sorted(s: seq<string>)
  {
    forall i, j :: 0 <= i < j < |s| ==> NameLe(s[i], s[j])
  }

  /** `m` is the greatest of `names`: one of them, and no earlier in the order than any. */
  ghost predicate IsGreatest(m: string, names: seq<string>)
  {
    m in names && forall x :: x in names ==> NameLe(x, m)
  }

  /** Inserts `x` into the sorted `s`, ahead of the names it does not follow. */
  function Insert(x: string, s: seq<string>): (r: seq<string>)
    requires Sorted(s)
    ensures Sorted(r)
    ensures multiset(r) == multiset(s) + multiset{x}
  {
    if s == [] then [x]
    else if NameLe(x, s[0]) then
      BelowHeadBelowAll(x, s);
      ConsSorted(x, s);
      [x] + s
    else
      NameLeTotal(x, s[0]);
      var rest := Insert(x, s[1..]);
      assert s == [s[0]] + s[1..];
      HeadBelowRest(s, x, rest);
      ConsSorted(s[0], rest);
      [s[0]] + rest
  }

  /** A name at most the head of a sorted sequence is at most all of it. */
  lemma BelowHeadBelowAll(x: string, s: seq<string>)
    requires Sorted(s) && |s| > 0 && NameLe(x, s[0])
    ensures forall y :: y in s ==> NameLe(x, y)
  {
    forall y | y in s ensures NameLe(x, y) {
      var k :| 0 <= k < |s| && s[k] == y;
      if k > 0 { NameLeTransitive(x, s[0], y); }
    }
  }

  /** Putting a name at most every element in front of a sorted sequence keeps it sorted. */
  lemma ConsSorted(x: string, s: seq<string>)
    requires Sorted(s) && forall y :: y in s ==> NameLe(x, y)
    ensures Sorted([x] + s)
  {
    var t := [x] + s;
    forall i, j | 0 <= i < j < |t| ensures NameLe(t[i], t[j]) {
      if i == 0 { assert t[j] == s[j - 1]; } else { assert t[i] == s[i - 1] && t[j] == s[j - 1]; }
    }
  }

  /** The head of a sorted sequence is at most every element of its tail with one larger name added. */
  lemma HeadBelowRest(s: seq<string>, x: string, rest: seq<string>)
    requires Sorted(s) && |s| > 0 && NameLe(s[0], x)
    requires multiset(rest) == multiset(s[1..]) + multiset{x}
    ensures forall y :: y in rest ==> NameLe(s[0], y)
  {
    forall y | y in rest ensures NameLe(s[0], y) {
      assert y in multiset(rest);
      if y != x {
        assert y in multiset(s[1..]);
        var k :| 0 <= k < |s[1..]| && s[1..][k] == y;
        assert s[k + 1] == y;
      }
    }
  }

  /**
   * The entries ranked by name, as `sorted_by_key(|d| d.file_name())` leaves
   * them (src/main.rs:67): ascending and a permutation of the input.
   */
  function SortNames(s: seq<string>): (r: seq<string>)
    ensures Sorted(r)
    ensures multiset(r) == multiset(s)
  {
    if s == [] then []
    else
      assert s == [s[0]] + s[1..];
      Insert(s[0], SortNames(s[1..]))
  }

  /** The greatest of a non-empty sequence of names, found without sorting. */
  function MaxName(s: seq<string>): (m: string)
    requires |s| > 0
    ensures IsGreatest(m, s)
  {
    if |s| == 1 then
      NameLeReflexive(s[0]);
      assert s == [s[0]];
      s[0]
    else
      var rest := MaxName(s[1..]);
      NameLeTotal(rest, s[0]);
      assert s == [s[0]] + s[1..];
      if NameLe(rest, s[0]) then
        assert forall x :: x in s[1..] ==> NameLe(x, s[0]) by {
          forall x | x in s[1..] ensures NameLe(x, s[0]) {
            NameLeTransitive(x, rest, s[0]);
          }
        }
        NameLeReflexive(s[0]);
        s[0]
      else
        rest
  }

  /**
   * Two listings of the same names have the same greatest element: names in a
   * directory are unique, and so is their maximum.
   */
  lemma GreatestIsUnique(m1: string, names1: seq<string>, m2: string, names2: seq<string>)
    requires forall x :: x in names1 <==> x in names2
    requires IsGreatest(m1, names1) && IsGreatest(m2, names2)
    ensures m1 == m2
  {
    NameLeAntisymmetric(m1, m2);
  }

  /** The last element of a sorted sequence is its greatest element. */
  lemma LastOfSortedIsGreatest(t: seq<string>)
    requires |t| > 0 && Sorted(t)
    ensures IsGreatest(t[|t| - 1], t)
  {
    forall x | x in t ensures NameLe(x, t[|t| - 1]) {
      var i :| 0 <= i < |t| && t[i] == x;
      if i == |t| - 1 { NameLeReflexive(x); }
    }
  }

  /** The last element of a sorted permutation of `s` is the greatest of `s`. */
  lemma LastOfSortedPermutation(s: seq<string>, t: seq<string>, m: string)
    requires |s| > 0 && Sorted(t) && multiset(t) == multiset(s)
    requires IsGreatest(m, s)
    ensures |t| == |s| && t[|t| - 1] == m
  {
    assert |t| == |s| by { assert |multiset(t)| == |multiset(s)|; }
    var last := t[|t| - 1];
    assert last in s by { assert last in multiset(t); }
    assert m in t by { assert m in multiset(s); }
    LastOfSortedIsGreatest(t);
    NameLeAntisymmetric(last, m);
  }

  /**
   * Taking the last of the sorted names (src/main.rs:67-68) gives the
   * greatest name.
   */
  lemma LastOfSortedIsMax(s: seq<string>)
    requires |s| > 0
    ensures |SortNames(s)| == |s|
    ensures SortNames(s)[|s| - 1] == MaxName(s)
  {
    LastOfSortedPermutation(s, SortNames(s), MaxName(s));
  }

  /**
   * The greatest name depends only on which names there are, not on the order
   * in which the directory listing produced them or on repeats.
   */
  lemma MaxNameIgnoresOrder(s1: seq<string>, s2: seq<string>)
    requires |s1| > 0
    requires forall x :: x in s1 <==> x in s2
    ensures |s2| > 0 && MaxName(s1) == MaxName(s2)
  {
    assert s1[0] in s2;
    GreatestIsUnique(MaxName(s1), s1, MaxName(s2), s2);
  }

  /** Why "0.10.0" is never picked over "0.9.0": the third characters, '1' < '9', decide. */
  lemma NotVersionOrder()
    ensures NameLe("0.10.0", "0.9.0") && !NameLe("0.9.0", "0.10.0")
    ensures MaxName(["0.9.0", "0.10.0", "1.0.0"]) == "1.0.0"
    ensures MaxName(["0.9.0", "0.10.0"]) == "0.9.0"
  {
    assert "0.10.0"[1..] == ".10.0";
    assert "0.9.0"[1..] == ".9.0";
    assert ".10.0"[1..] == "10.0";
    assert ".9.0"[1..] == "9.0";
    var s := ["0.9.0", "0.10.0", "1.0.0"];
    assert s[1..] == ["0.10.0", "1.0.0"];
    assert s[1..][1..] == ["1.0.0"];
    assert ["0.9.0", "0.10.0"][1..] == ["0.10.0"];
  }
}

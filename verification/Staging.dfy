/**
 * Staging runfiles: one scan over entries sorted by name and a slash, with one remembered parent,
 * finds the entries no directory alias covers.
 */
module Staging {
  import opened Wrappers

  /** Byte order. */
  predicate AtMost(a: string, b: string) {
    a == "" || (b != "" && (a[0] < b[0] || (a[0] == b[0] && AtMost(a[1..], b[1..]))))
  }

  function KeyOf(name: string): string {
    name + "/"
  }

  /** A directory entry above another. */
  predicate Above(a: string, name: string) {
    KeyOf(a) <= name
  }

  /** Names in the order they are sorted in: that of their text and a slash. */
  ghost predicate Sorted(paths: seq<string>) {
    forall i, j {:trigger Ordered(paths, i, j)} :: 0 <= i < j < |paths| ==> Ordered(paths, i, j)
  }

  predicate Ordered(paths: seq<string>, i: nat, j: nat)
    requires i < |paths| && j < |paths|
  {
    paths[i] != paths[j] && AtMost(KeyOf(paths[i]), KeyOf(paths[j]))
  }

  /** Between a prefix and what it begins, every text begins so. */
  lemma {:induction false} Between(p: string, b: string, c: string)
    requires p <= c && AtMost(p, b) && AtMost(b, c)
    ensures p <= b
  {
    if p != "" {
      assert p[1..] <= c[1..] && p[0] == c[0];
      Between(p[1..], b[1..], c[1..]);
      assert p == [p[0]] + p[1..] && b == [b[0]] + b[1..];
    }
  }

  lemma {:induction false} LongerIsLater(p: string, c: string)
    requires p <= c && AtMost(c, p)
    ensures p == c
  {
    if c != "" {
      assert p != "" && p[1..] <= c[1..];
      LongerIsLater(p[1..], c[1..]);
      assert p == [p[0]] + p[1..] && c == [c[0]] + c[1..];
    }
  }

  lemma AboveIsEarlier(paths: seq<string>, m: nat, i: nat)
    requires Sorted(paths) && m < |paths| && i < |paths| && Above(paths[m], paths[i])
    ensures m < i
  {
    assert KeyOf(paths[m]) <= KeyOf(paths[i]);
    if i < m {
      assert Ordered(paths, i, m);
      LongerIsLater(KeyOf(paths[m]), KeyOf(paths[i]));
    }
  }

  /** Always true: asserting it of a value unfolds what is stated below for that value, and nothing else does. */
  ghost predicate Asks(name: string) {
    true
  }

  /** Below another entry, for whoever asks. */
  ghost predicate Covered(paths: seq<string>, name: string) {
    forall n {:trigger Asks(n)} :: n == name ==> exists a :: a in paths && Above(a, n)
  }

  lemma CoveredBy(paths: seq<string>, name: string) returns (m: nat)
    requires Covered(paths, name)
    ensures m < |paths| && Above(paths[m], name)
  {
    assert Asks(name);
    var a :| a in paths && Above(a, name);
    m :| m < |paths| && paths[m] == a;
  }

  /** The topmost entry above a covered one: the first of them, which nothing covers. */
  lemma FirstAbove(paths: seq<string>, i: nat) returns (m: nat)
    requires Sorted(paths) && i < |paths| && Covered(paths, paths[i])
    ensures m < i && Above(paths[m], paths[i]) && !Covered(paths, paths[m])
  {
    m := CoveredBy(paths, paths[i]);
    AboveIsEarlier(paths, m, i);
    while Covered(paths, paths[m])
      invariant m < i && Above(paths[m], paths[i])
      decreases m
    {
      var n := CoveredBy(paths, paths[m]);
      AboveIsEarlier(paths, n, m);
      m := n;
    }
  }

  /** Whatever is sorted between a directory and an entry below it is below the directory too. */
  lemma BelowTogether(paths: seq<string>, m: nat, j: nat, i: nat)
    requires Sorted(paths) && m < j < i < |paths| && Above(paths[m], paths[i])
    ensures Above(paths[m], paths[j])
  {
    assert Ordered(paths, m, j) && Ordered(paths, j, i);
    assert KeyOf(paths[m]) <= KeyOf(paths[i]);
    Between(KeyOf(paths[m]), KeyOf(paths[j]), KeyOf(paths[i]));
    PrefixKeys(paths[m], paths[j]);
  }

  lemma PrefixKeys(a: string, b: string)
    requires KeyOf(a) <= KeyOf(b)
    ensures a == b || Above(a, b)
  {
    if |a| < |b| {
      assert KeyOf(a) == KeyOf(b)[..|a| + 1] == b[..|a| + 1];
    } else {
      assert a == KeyOf(a)[..|a|] && b == KeyOf(b)[..|b|];
    }
  }

  lemma AboveBoth(a: string, b: string, name: string)
    requires Above(a, name) && Above(b, name) && |a| <= |b|
    ensures a == b || Above(a, b)
  {
    assert KeyOf(a) == name[..|a| + 1] && KeyOf(b) == name[..|b| + 1];
    PrefixKeys(a, b);
  }

  /** After the last entry kept, an entry is covered exactly when that one is above it. */
  lemma RememberedParent(paths: seq<string>, last: nat, i: nat)
    requires Sorted(paths) && last < i < |paths| && !Covered(paths, paths[last])
    requires forall j :: last < j < i ==> Covered(paths, paths[j])
    ensures Covered(paths, paths[i]) <==> Above(paths[last], paths[i])
  {
    if Covered(paths, paths[i]) {
      var m := FirstAbove(paths, i);
      assert paths[m] in paths;
      if m < last {
        BelowTogether(paths, m, last, i);
      }
    }
  }

  lemma NoneRemembered(paths: seq<string>, i: nat)
    requires Sorted(paths) && i < |paths| && forall j :: 0 <= j < i ==> Covered(paths, paths[j])
    ensures !Covered(paths, paths[i]) && i == 0
  {
    if i > 0 {
      var m := FirstAbove(paths, 0);
    }
    if Covered(paths, paths[i]) {
      var m := FirstAbove(paths, i);
    }
  }

  // ---- Staging ----

  datatype Placement = Link(target: string) | EmptyFile

  function Placed(target: string): Placement {
    if target != "" then Link(target) else EmptyFile
  }

  /**
   * Writes every entry no other entry is a directory above. What is written is an antichain, so no
   * write goes through an alias another one made, and every entry left out is below one written.
   */
  method Stage(entries: map<string, string>, paths: seq<string>) returns (tree: map<string, Placement>)
    requires Sorted(paths) && forall n :: n in paths <==> n in entries
    ensures forall n :: n in tree <==> n in entries && !Covered(paths, n)
    ensures forall n :: n in tree ==> tree[n] == Placed(entries[n])
    ensures forall a, n :: a in tree && n in tree ==> !Above(a, n)
    ensures forall n :: n in entries && n !in tree ==> exists a :: a in tree && Above(a, n)
  {
    tree := map[];
    var parent := "";
    ghost var last := -1;
    for i := 0 to |paths|
      invariant -1 <= last < i && parent == (if last < 0 then "" else KeyOf(paths[last]))
      invariant last >= 0 ==> !Covered(paths, paths[last])
      invariant forall j :: last < j < i ==> Covered(paths, paths[j])
      invariant forall n :: n in tree <==> n in paths[..i] && !Covered(paths, n)
      invariant forall n :: n in tree ==> n in entries && tree[n] == Placed(entries[n])
    {
      var name := paths[i];
      assert paths[..i + 1] == paths[..i] + [name];
      if last >= 0 {
        RememberedParent(paths, last, i);
      } else {
        NoneRemembered(paths, i);
      }
      if parent != "" && parent <= name {
        continue;
      }
      tree := tree[name := Placed(entries[name])];
      parent := KeyOf(name);
      last := i;
    }
    assert paths[..|paths|] == paths;
    forall n | n in entries && n !in tree
      ensures exists a :: a in tree && Above(a, n)
    {
      var i :| 0 <= i < |paths| && paths[i] == n;
      var m := FirstAbove(paths, i);
      assert paths[m] in paths;
    }
  }

  /** Whether an entry below another is the same file the one above it leads to. */
  datatype Overlap = Overlap(above: string, name: string)

  /** Rejects entries that disagree with the directory entry above them, or that are modules below one. */
  method ValidateOverlaps(paths: seq<string>, agree: set<Overlap>, modules: set<string>) returns (ok: bool)
    requires Sorted(paths) && "" !in paths
    ensures ok <==> forall a, n :: a in paths && n in paths && Above(a, n) && !Covered(paths, a) ==>
        Overlap(a, n) in agree && n !in modules
  {
    var parent := "";
    ghost var last := -1;
    for i := 0 to |paths|
      invariant -1 <= last < i && parent == (if last < 0 then "" else paths[last])
      invariant last >= 0 ==> !Covered(paths, paths[last])
      invariant forall j :: last < j < i ==> Covered(paths, paths[j])
      invariant forall a, n :: a in paths && n in paths[..i] && Above(a, n) && !Covered(paths, a) ==>
          Overlap(a, n) in agree && n !in modules
    {
      var name := paths[i];
      assert paths[..i + 1] == paths[..i] + [name];
      assert name in paths;
      if last >= 0 {
        assert paths[last] in paths;
        RememberedParent(paths, last, i);
      } else {
        NoneRemembered(paths, i);
      }
      if parent == "" || !(parent + "/" <= name) {
        parent := name;
        last := i;
        continue;
      }
      TopmostIsUnique(paths, paths[last], name);
      if Overlap(parent, name) !in agree || name in modules {
        return false;
      }
    }
    assert paths[..|paths|] == paths;
    return true;
  }

  /** Directories above one entry are above one another, so only one of them is uncovered. */
  lemma TopmostIsUnique(paths: seq<string>, a: string, name: string)
    requires a in paths && Above(a, name) && !Covered(paths, a)
    ensures forall b :: b in paths && Above(b, name) && !Covered(paths, b) ==> b == a
  {
    forall b | b in paths && Above(b, name) && !Covered(paths, b)
      ensures b == a
    {
      if |a| <= |b| {
        AboveBoth(a, b, name);
      } else {
        AboveBoth(b, a, name);
      }
    }
  }
}

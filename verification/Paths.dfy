/** POSIX paths as Python's `PurePosixPath` takes them apart. */
module Paths {
  import opened Wrappers

  type Path = seq<string>

  // `"/".join(parts)`
  function Join(parts: Path): string {
    if parts == [] then ""
    else if |parts| == 1 then parts[0]
    else Join(parts[..|parts| - 1]) + "/" + parts[|parts| - 1]
  }

  // `s.split("/")`
  function Split(s: string): (parts: Path)
    ensures parts != []
  {
    if s == "" then [""]
    else
      var parts := Split(s[..|s| - 1]);
      var last := |parts| - 1;
      if s[|s| - 1] == '/' then parts + [""] else parts[last := parts[last] + [s[|s| - 1]]]
  }

  // The parts of a path: empty ones and single dots are dropped.
  function Kept(parts: Path): Path {
    if parts == [] then []
    else
      var last := parts[|parts| - 1];
      Kept(parts[..|parts| - 1]) + if last == "" || last == "." then [] else [last]
  }

  function Parts(s: string): Path {
    Kept(Split(s))
  }

  function AsPosix(parts: Path): string {
    if parts == [] then "." else Join(parts)
  }

  // A relative path without parent references; `None` is refused.
  function SafeMember(s: string): Option<string> {
    if (s != "" && s[0] == '/') || ".." in Parts(s) then None else Some(AsPosix(Parts(s)))
  }

  // What a directory can list.
  predicate ValidName(name: string) {
    name != "" && name != "." && name != ".." && '/' !in name
  }

  ghost predicate ValidPath(p: Path) {
    forall i :: 0 <= i < |p| ==> ValidName(p[i])
  }

  lemma {:induction false} SplitName(s: string, name: string)
    requires '/' !in name
    ensures var parts := Split(s); Split(s + name) == parts[|parts| - 1 := parts[|parts| - 1] + name]
  {
    var parts := Split(s);
    if name == "" {
      assert s + name == s;
      assert parts[|parts| - 1] + name == parts[|parts| - 1];
    } else {
      var shorter, c := name[..|name| - 1], name[|name| - 1];
      SplitName(s, shorter);
      assert (s + name)[..|s + name| - 1] == s + shorter;
      assert c in name;
      assert parts[|parts| - 1] + shorter + [c] == parts[|parts| - 1] + name;
    }
  }

  lemma {:induction false} SplitJoin(parts: Path)
    requires parts != [] && ValidPath(parts)
    ensures Split(Join(parts)) == parts
  {
    var last := parts[|parts| - 1];
    if |parts| == 1 {
      SplitName("", last);
      assert "" + last == last;
    } else {
      var earlier := parts[..|parts| - 1];
      SplitJoin(earlier);
      var prefix := Join(earlier) + "/";
      assert prefix[..|prefix| - 1] == Join(earlier);
      SplitName(prefix, last);
      assert "" + last == last;
    }
  }

  lemma {:induction false} KeptAll(parts: Path)
    requires ValidPath(parts)
    ensures Kept(parts) == parts
  {
    if parts != [] { KeptAll(parts[..|parts| - 1]); }
  }

  /** Joining a path of valid names and taking it apart again gives the path back. */
  lemma PartsJoin(parts: Path)
    requires parts != [] && ValidPath(parts)
    ensures Parts(Join(parts)) == parts
  {
    SplitJoin(parts);
    KeptAll(parts);
  }

  /** So different paths of valid names have different texts. */
  lemma JoinInjective(p: Path, q: Path)
    requires p != [] && q != [] && ValidPath(p) && ValidPath(q)
    ensures Join(p) == Join(q) <==> p == q
  {
    PartsJoin(p);
    PartsJoin(q);
  }

  lemma {:induction false} JoinStart(parts: Path)
    requires parts != []
    ensures parts[0] <= Join(parts)
    ensures |parts| > 1 ==> parts[0] + "/" <= Join(parts)
  {
    if |parts| > 1 {
      var earlier := parts[..|parts| - 1];
      JoinStart(earlier);
      assert Join(parts) == Join(earlier) + ("/" + parts[|parts| - 1]);
    }
  }

  // A path below a directory: the text is the directory's, a slash and the rest.
  lemma {:induction false} JoinBelow(p: Path, q: Path)
    requires p != [] && q != []
    ensures Join(p + q) == Join(p) + "/" + Join(q)
  {
    if |q| == 1 {
      assert (p + q)[..|p|] == p;
    } else {
      var earlier, last := q[..|q| - 1], q[|q| - 1];
      JoinBelow(p, earlier);
      assert (p + q)[..|p + q| - 1] == p + earlier;
      assert Join(p) + "/" + Join(earlier) + "/" + last == Join(p) + "/" + (Join(earlier) + "/" + last);
    }
  }

  lemma SafeMemberJoin(parts: Path)
    requires parts != [] && ValidPath(parts)
    ensures SafeMember(Join(parts)) == Some(Join(parts))
  {
    PartsJoin(parts);
    JoinStart(parts);
  }

  lemma {:induction false} JoinContains(parts: Path, c: char)
    requires c != '/'
    ensures c in Join(parts) <==> exists i :: 0 <= i < |parts| && c in parts[i]
  {
    if |parts| > 1 {
      var earlier := parts[..|parts| - 1];
      JoinContains(earlier, c);
      forall i | 0 <= i < |parts| && c in parts[i]
        ensures c in Join(parts)
      {
        if i < |earlier| { assert c in earlier[i]; }
      }
      if c in Join(earlier) {
        var i :| 0 <= i < |earlier| && c in earlier[i];
        assert c in parts[i];
      }
      assert c in Join(parts) <==> c in Join(earlier) || c in parts[|parts| - 1];
    }
  }

  // Two paths that part ways: neither is the other or lies below it.
  ghost predicate Apart(p: Path, q: Path) {
    exists i :: 0 <= i < |p| && i < |q| && p[i] != q[i]
  }

  lemma ApartBelow(prefix: Path, p: Path, q: Path)
    requires Apart(p, q)
    ensures Apart(prefix + p, prefix + q)
  {
    var i :| 0 <= i < |p| && i < |q| && p[i] != q[i];
    assert (prefix + p)[|prefix| + i] != (prefix + q)[|prefix| + i];
  }
}

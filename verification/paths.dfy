/** The part of `pathlib` the ingestion code relies on: joining a directory
    and a file name with `/`, and rendering the result with `str`. */
module Paths {

  /** What `str(Path(dir) / name)` puts in front of `name`: nothing for the
      current directory, the directory itself when it already ends in a
      separator (the root `/`), otherwise the directory and one `/`. */
  function DirPrefix(dir: string): string {
    if dir == "" || dir == "." then ""
    else if dir[|dir| - 1] == '/' then dir
    else dir + "/"
  }

  /** `p` is `name` placed in `dir`: for the current directory `name` alone;
      otherwise `p` starts with `dir`, ends with `name`, has a `/` right before
      `name`, and adds at most that one separator, none when `dir` already
      ends in one. */
  predicate JoinedAs(p: string, dir: string, name: string) {
    && |p| >= |name| && p[|p| - |name|..] == name
    && (dir == "" || dir == "." ==> |p| == |name|)
    && (dir != "" && dir != "." ==>
          && |dir| + |name| <= |p| <= |dir| + |name| + 1
          && p[..|dir|] == dir
          && p[|p| - |name| - 1] == '/'
          && (dir[|dir| - 1] == '/' ==> |p| == |dir| + |name|))
  }

  /** `str(Path(dir) / name)`. */
  function Join(dir: string, name: string): (p: string)
    ensures JoinedAs(p, dir, name)
  {
    DirPrefix(dir) + name
  }

  /** `JoinedAs` pins the path down: two paths joined from the same directory
      and name are equal. */
  lemma {:induction false} JoinedAsUnique(p: string, q: string, dir: string, name: string)
    requires JoinedAs(p, dir, name) && JoinedAs(q, dir, name)
    ensures p == q
  {
    if dir == "" || dir == "." {
      assert p == p[|p| - |name|..] && q == q[|q| - |name|..];
    } else {
      SingleSeparator(p, dir, name);
      SingleSeparator(q, dir, name);
      assert |p| == |q|;
      forall k | 0 <= k < |p|
        ensures p[k] == q[k]
      {
        if k < |dir| {
          assert p[k] == p[..|dir|][k] && q[k] == q[..|dir|][k];
        } else if k >= |p| - |name| {
          assert p[k] == p[|p| - |name|..][k - (|p| - |name|)];
          assert q[k] == q[|q| - |name|..][k - (|q| - |name|)];
        }
      }
    }
  }

  /** Outside the current directory the length of a joined path is fixed:
      one separator is added exactly when `dir` does not end in one. */
  lemma SingleSeparator(p: string, dir: string, name: string)
    requires JoinedAs(p, dir, name) && dir != "" && dir != "."
    ensures |p| == if dir[|dir| - 1] == '/' then |dir| + |name| else |dir| + |name| + 1
  {
    if dir[|dir| - 1] != '/' && |p| == |dir| + |name| {
      assert false;
    }
  }

  /** Within one directory, different names give different paths. */
  lemma JoinInjective(dir: string, a: string, b: string)
    ensures Join(dir, a) == Join(dir, b) ==> a == b
  {
    if Join(dir, a) == Join(dir, b) {
      var pre := DirPrefix(dir);
      assert a == Join(dir, a)[|pre|..];
      assert b == Join(dir, b)[|pre|..];
    }
  }
}

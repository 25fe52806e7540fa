/** The two POSIX path operations the converter uses: `os.path.join` with
    two arguments and `os.path.basename`. */
module PyPath {

  /** `os.path.join(a, b)`: an absolute `b` replaces `a`; otherwise a '/' is
      put between them unless `a` is empty or already ends in one. */
  function Join(a: string, b: string): string {
    if |b| > 0 && b[0] == '/' then b
    else if a == [] || a[|a| - 1] == '/' then a + b
    else a + "/" + b
  }

  /** `os.path.basename(p)`: what follows the last '/'. */
  function Basename(p: string): (r: string)
    ensures |r| <= |p| && r == p[|p| - |r|..]
    ensures '/' !in r
    ensures |r| < |p| ==> p[|p| - |r| - 1] == '/'
  {
    if p == [] then []
    else if p[|p| - 1] == '/' then []
    else
      var front := p[..|p| - 1];
      var r := Basename(front);
      assert p == front + [p[|p| - 1]];
      r + [p[|p| - 1]]
  }

  /** The base name of a directory joined with a name free of '/' is that
      name: `main` builds paths with `join` and `process_station_file` takes
      the name back with `basename`. */
  lemma BasenameOfJoin(dir: string, name: string)
    requires '/' !in name
    ensures Basename(Join(dir, name)) == name
  {
    var x := if dir == [] || dir[|dir| - 1] == '/' then dir else dir + "/";
    assert Join(dir, name) == x + name;
    BasenameAfterSlash(x, name);
  }

  /** A last character other than '/' extends the base name. */
  lemma BasenameSnoc(front: string, c: char)
    requires c != '/'
    ensures Basename(front + [c]) == Basename(front) + [c]
  {
    var p := front + [c];
    assert p[|p| - 1] == c && p[..|p| - 1] == front;
  }

  lemma {:induction false} BasenameAfterSlash(x: string, name: string)
    requires x == [] || x[|x| - 1] == '/'
    requires '/' !in name
    ensures Basename(x + name) == name
    decreases |name|
  {
    if name == [] {
      assert x + name == x;
    } else {
      var front, c := name[..|name| - 1], name[|name| - 1];
      assert name == front + [c] && c in name;
      assert x + name == (x + front) + [c];
      BasenameSnoc(x + front, c);
      BasenameAfterSlash(x, front);
    }
  }
}

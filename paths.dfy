/** `path.resolve(currentDir, projectName)` with POSIX separators: the project directory as a list of
    path components below the file-system root. */
module Paths {

  /** A component of a normalised absolute path. */
  predicate IsNormalComponent(c: string)
  {
    c != "" && c != "." && c != ".." && '/' !in c
  }

  predicate IsNormalPath(p: seq<string>)
  {
    forall i :: 0 <= i < |p| ==> IsNormalComponent(p[i])
  }

  /** `p.split("/")`: the pieces between single separators, empty pieces kept. */
  function SplitOnSlash(p: string): (r: seq<string>)
    ensures |r| >= 1
    ensures forall i :: 0 <= i < |r| ==> '/' !in r[i]
    ensures '/' !in p ==> r == [p]
  {
    if p == [] then [[]]
    else if p[0] == '/' then [[]] + SplitOnSlash(p[1..])
    else
      var rest := SplitOnSlash(p[1..]);
      var r := [[p[0]] + rest[0]] + rest[1..];
      assert forall i :: 0 < i < |rest| ==> r[i] == rest[i];
      assert '/' !in p ==> '/' !in p[1..] && rest == [p[1..]] && r == [[p[0]] + p[1..]] && [p[0]] + p[1..] == p;
      r
  }

  /** Apply path components to a directory left to right: empty pieces and `.` stay, `..` goes up
      (never above the root), anything else goes down. */
  function Normalize(dir: seq<string>, pieces: seq<string>): (r: seq<string>)
    requires forall i :: 0 <= i < |pieces| ==> '/' !in pieces[i]
    ensures IsNormalPath(dir) ==> IsNormalPath(r)
    decreases |pieces|
  {
    if pieces == [] then dir
    else
      var next :=
        if pieces[0] == "" || pieces[0] == "." then dir
        else if pieces[0] == ".." then (if dir == [] then [] else dir[..|dir| - 1])
        else dir + [pieces[0]];
      Normalize(next, pieces[1..])
  }

  /** `path.resolve(cwd, p)`: an absolute `p` starts again from the root, a relative one from `cwd`. */
  function Resolve(cwd: seq<string>, p: string): (r: seq<string>)
    ensures IsNormalPath(cwd) ==> IsNormalPath(r)
  {
    Normalize(if |p| > 0 && p[0] == '/' then [] else cwd, SplitOnSlash(p))
  }

  /** A name that is one plain component resolves to a directory directly inside `cwd`. */
  lemma {:induction false} ResolveComponent(cwd: seq<string>, name: string)
    requires IsNormalComponent(name)
    ensures Resolve(cwd, name) == cwd + [name]
  {
    assert SplitOnSlash(name) == [name];
    assert name[0] != '/' by { assert name[0] in name; }
    assert [name][1..] == [];
    assert Normalize(cwd, [name]) == Normalize(cwd + [name], []);
  }
}

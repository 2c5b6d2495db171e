/**
 * The two `os.path` operations the crawlers and cleaners use on POSIX
 * paths: `join` and `splitext`.
 */
module Paths {
  import opened Outcomes
  import opened Strings

  /** `os.path.join(a, b)`: an absolute `b` replaces `a`; otherwise a `/` is put between them unless `a` is empty or ends in one. */
  function PathJoin(a: string, b: string): string {
    if |b| > 0 && b[0] == '/' then b
    else if a == "" || a[|a| - 1] == '/' then a + b
    else a + "/" + b
  }

  /** Joining a relative name and then adding an extension is joining the extended name. */
  lemma JoinExtension(a: string, b: string, ext: string)
    requires |b| > 0 && b[0] != '/'
    ensures PathJoin(a, b + ext) == PathJoin(a, b) + ext
  {
    assert (b + ext)[0] == b[0];
  }

  /**
   * `os.path.splitext(p)`: the extension starts at the last `.` of the last
   * path component, unless everything before that `.` in the component is
   * dots (so `.bashrc` has no extension).
   */
  function Splitext(p: string): (r: (string, string))
    ensures r.0 + r.1 == p
    ensures r.1 != "" ==> r.1[0] == '.' && '.' !in r.1[1..] && '/' !in r.1
    ensures r.1 != "" ==> exists i :: 0 <= i < |r.0| && r.0[i] != '.' && '/' !in r.0[i..]
    ensures r.1 == "" ==> forall i, d :: 0 <= i < d < |p| && p[i] != '.' && p[d] == '.' && '/' !in p[d..] ==> '/' in p[i..d]
  {
    var sep: int := match LastIndexOfChar(p, '/') case Some(i) => i case None => -1;
    assert forall j :: sep < j < |p| ==> p[j] != '/';
    match LastIndexOfChar(p, '.')
    case None => (p, "")
    case Some(dot) =>
      if dot > sep && exists k :: sep < k < dot && p[k] != '.' then
        ExtensionFacts(p, sep, dot);
        (p[..dot], p[dot..])
      else
        NoExtensionFacts(p, sep, dot);
        (p, "")
  }

  /** The parts `splitext` cuts at a last `.` after the last `/`, with a non-dot between them. */
  lemma ExtensionFacts(p: string, sep: int, dot: nat)
    requires -1 <= sep < dot < |p| && p[dot] == '.'
    requires forall j :: sep < j < |p| ==> p[j] != '/'
    requires forall j :: dot < j < |p| ==> p[j] != '.'
    requires exists k :: sep < k < dot && p[k] != '.'
    ensures '.' !in p[dot..][1..] && '/' !in p[dot..]
    ensures exists i :: 0 <= i < |p[..dot]| && p[..dot][i] != '.' && '/' !in p[..dot][i..]
  {
    var k :| sep < k < dot && p[k] != '.';
    assert p[..dot][k] == p[k];
    assert p[..dot][k..] == p[k..dot];
  }

  /** When the last `.` is not such a cut, no `.` of the last component has a non-dot before it in that component. */
  lemma NoExtensionFacts(p: string, sep: int, dot: nat)
    requires -1 <= sep < |p| && (sep >= 0 ==> p[sep] == '/')
    requires dot < |p| && p[dot] == '.'
    requires forall j :: dot < j < |p| ==> p[j] != '.'
    requires !(dot > sep && exists k :: sep < k < dot && p[k] != '.')
    ensures forall i, d :: 0 <= i < d < |p| && p[i] != '.' && p[d] == '.' && '/' !in p[d..] ==> '/' in p[i..d]
  {
    forall i, d | 0 <= i < d < |p| && p[i] != '.' && p[d] == '.' && '/' !in p[d..]
      ensures '/' in p[i..d]
    {
      if i <= sep {
        assert p[i..d][sep - i] == '/';
      }
    }
  }

  /** The last `c` is at `i` when nothing after `i` is `c`. */
  lemma {:induction false} LastIndexIs(s: string, c: char, i: nat)
    requires i < |s| && s[i] == c
    requires forall j :: i < j < |s| ==> s[j] != c
    ensures LastIndexOfChar(s, c) == Some(i)
    decreases |s|
  {
    if i < |s| - 1 {
      LastIndexIs(s[..|s| - 1], c, i);
    }
  }

  /** `splitext` of `dir/stem.ext`, for a component `stem` without dots or slashes and an extension without either. */
  lemma SplitextOf(dir: string, stem: string, ext: string)
    requires |stem| > 0 && '.' !in stem && '/' !in stem && '.' !in ext && '/' !in ext
    ensures Splitext(dir + "/" + stem + "." + ext) == (dir + "/" + stem, "." + ext)
  {
    var p := dir + "/" + stem + "." + ext;
    var dot := |dir| + 1 + |stem|;
    assert p[|dir|] == '/' && p[dot] == '.';
    assert forall j :: |dir| < j < dot ==> p[j] == stem[j - |dir| - 1];
    assert forall j :: dot < j < |p| ==> p[j] == ext[j - dot - 1];
    LastIndexIs(p, '/', |dir|);
    LastIndexIs(p, '.', dot);
    assert p[|dir| + 1] == stem[0] && stem[0] != '.';
    assert |dir| < |dir| + 1 < dot && p[|dir| + 1] != '.';
    assert p[..dot] == dir + "/" + stem;
    assert p[dot..] == "." + ext;
  }
}

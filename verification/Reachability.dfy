/**
 * Which package files the measured test tiers can execute: a worklist closure over imports, whose
 * frontier may be emptied in any order.
 */
module Reachability {

  /** A tree of sources: the file each module name resolves to, and the modules each file imports. */
  datatype Repo = Repo(fileOf: map<string, string>, imports: map<string, set<string>>) {
    function ImportsOf(name: string): set<string> {
      if name in fileOf && fileOf[name] in imports then imports[fileOf[name]] else {}
    }
  }

  /** Contains the tests' imports, and the imports of every module in it. */
  ghost predicate Closed(r: Repo, seeds: set<string>, s: set<string>) {
    seeds <= s && forall m :: m in s ==> r.ImportsOf(m) <= s
  }

  ghost predicate LeastClosed(r: Repo, seeds: set<string>, s: set<string>) {
    Closed(r, seeds, s) && forall t :: Closed(r, seeds, t) ==> s <= t
  }

  /** Every module the search could ever meet. */
  ghost function Universe(r: Repo, seeds: set<string>): set<string> {
    seeds + set f, m | f in r.imports && m in r.imports[f] :: m
  }

  /** An import chain from a test: each module imports the next, the first being a test's own import. */
  ghost predicate ImportChain(r: Repo, seeds: set<string>, path: seq<string>) {
    path != [] && path[0] in seeds && forall i :: 0 <= i < |path| - 1 ==> path[i + 1] in r.ImportsOf(path[i])
  }

  lemma {:induction false} ChainStaysInside(r: Repo, seeds: set<string>, s: set<string>, path: seq<string>)
    requires Closed(r, seeds, s) && ImportChain(r, seeds, path)
    ensures path[|path| - 1] in s
  {
    var n := |path| - 1;
    if n > 0 {
      ChainStaysInside(r, seeds, s, path[..n]);
      assert path[n - 1 + 1] in r.ImportsOf(path[n - 1]);
    }
  }

  ghost predicate Reaches(r: Repo, seeds: set<string>, m: string) {
    exists path :: ImportChain(r, seeds, path) && path[|path| - 1] == m
  }

  lemma ReachesOn(r: Repo, seeds: set<string>, x: string, y: string)
    requires Reaches(r, seeds, x) && y in r.ImportsOf(x)
    ensures Reaches(r, seeds, y)
  {
    var path :| ImportChain(r, seeds, path) && path[|path| - 1] == x;
    assert ImportChain(r, seeds, path + [y]) && (path + [y])[|path + [y]| - 1] == y;
  }

  /** What is reached is closed, so the least closed set holds nothing else. */
  lemma ReachedIsClosed(r: Repo, seeds: set<string>, s: set<string>)
    requires Closed(r, seeds, s)
    ensures Closed(r, seeds, set x | x in s && Reaches(r, seeds, x))
  {
    forall x | x in seeds ensures Reaches(r, seeds, x) {
      assert ImportChain(r, seeds, [x]) && [x][|[x]| - 1] == x;
    }
    forall x, y | x in s && Reaches(r, seeds, x) && y in r.ImportsOf(x) ensures Reaches(r, seeds, y) {
      ReachesOn(r, seeds, x, y);
    }
  }

  /** The least closed set is what import chains from the tests reach, through cycles or not. */
  lemma LeastClosedIsReachable(r: Repo, seeds: set<string>, s: set<string>, m: string)
    requires LeastClosed(r, seeds, s)
    ensures m in s <==> Reaches(r, seeds, m)
  {
    ReachedIsClosed(r, seeds, s);
    if Reaches(r, seeds, m) {
      var path :| ImportChain(r, seeds, path) && path[|path| - 1] == m;
      ChainStaysInside(r, seeds, s, path);
    }
  }

  /** The files some modules resolve to. */
  function FilesOf(r: Repo, modules: set<string>): set<string> {
    set m | m in modules && m in r.fileOf :: r.fileOf[m]
  }

  /** Whatever order modules are popped in, cycles or not, the result is the files of the least closed set. */
  method ReachableFromMeasuredTiers(r: Repo, seeds: set<string>) returns (reached: set<string>)
    ensures exists modules :: LeastClosed(r, seeds, modules) && reached == FilesOf(r, modules)
    ensures forall f :: f in reached <==> exists m :: Reaches(r, seeds, m) && m in r.fileOf && r.fileOf[m] == f
  {
    var frontier, seen: set<string> := seeds, {};
    reached := {};
    while frontier != {}
      invariant frontier <= Universe(r, seeds) && seen <= Universe(r, seeds)
      invariant seeds <= seen + frontier
      invariant forall m :: m in seen ==> r.ImportsOf(m) <= seen + frontier
      invariant forall t :: Closed(r, seeds, t) ==> seen + frontier <= t
      invariant reached == FilesOf(r, seen)
      decreases Universe(r, seeds) - seen, frontier
    {
      var m :| m in frontier;
      frontier := frontier - {m};
      if m !in seen {
        seen := seen + {m};
        if m in r.fileOf {
          reached := reached + {r.fileOf[m]};
          frontier := frontier + (r.ImportsOf(m) - seen);
        }
      }
    }
    assert LeastClosed(r, seeds, seen);
    forall m ensures m in seen <==> Reaches(r, seeds, m) {
      LeastClosedIsReachable(r, seeds, seen, m);
    }
  }
}

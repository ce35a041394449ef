/**
 * The assertion gate's search: does a test prove something, directly or through same-file helpers?
 * The search remembers verdicts across tests and refuses to re-enter a function it is still
 * visiting, so it always ends; the module says exactly when its verdicts can be trusted.
 */
module ProofSearch {

  /** One function of the file: whether it holds a proof itself, and the helpers it calls, in order. */
  datatype Fn = Fn(direct: bool, calls: seq<nat>)

  type Graph = seq<Fn>

  ghost predicate Valid(g: Graph) {
    forall n, i :: 0 <= n < |g| && 0 <= i < |g[n].calls| ==> g[n].calls[i] < |g|
  }

  type Memo = map<nat, bool>

  ghost function Below(k: nat): (s: set<nat>)
    ensures forall n: nat :: n in s <==> n < k
  {
    if k == 0 then {} else Below(k - 1) + {k - 1}
  }

  ghost function All(g: Graph): set<nat> {
    Below(|g|)
  }

  // --- the search as a function of the memo and the visiting set ---

  ghost function Proves(g: Graph, n: nat, memo: Memo, visiting: set<nat>): (bool, Memo)
    requires Valid(g) && n < |g|
    decreases All(g) - visiting, 0
  {
    if n in memo then (memo[n], memo)
    else if n in visiting then (false, memo)
    else if g[n].direct then (true, memo[n := true])
    else
      assert n in All(g) - visiting;
      var (found, learned) := AnyProves(g, g[n].calls, memo, visiting + {n});
      (found, learned[n := found])
  }

  ghost function AnyProves(g: Graph, calls: seq<nat>, memo: Memo, visiting: set<nat>): (bool, Memo)
    requires Valid(g) && forall i :: 0 <= i < |calls| ==> calls[i] < |g|
    decreases All(g) - visiting, |calls| + 1
  {
    if calls == [] then (false, memo)
    else
      var (found, learned) := Proves(g, calls[0], memo, visiting);
      if found then (true, learned) else AnyProves(g, calls[1..], learned, visiting)
  }

  /** The verdicts on some tests of one file, the memo carried from each to the next. */
  ghost function Verdicts(g: Graph, tests: seq<nat>, memo: Memo): (v: seq<bool>)
    requires Valid(g) && forall i :: 0 <= i < |tests| ==> tests[i] < |g|
    ensures |v| == |tests|
  {
    if tests == [] then []
    else
      var (found, learned) := Proves(g, tests[0], memo, {});
      [found] + Verdicts(g, tests[1..], learned)
  }

  class Gate {
    const g: Graph
    var memo: Memo
    var visiting: set<nat>

    constructor (g: Graph)
      ensures this.g == g && memo == map[] && visiting == {}
    {
      this.g, memo, visiting := g, map[], {};
    }

    method ProvesSomething(n: nat) returns (hasProof: bool)
      requires Valid(g) && n < |g|
      modifies this
      ensures (hasProof, memo) == Proves(g, n, old(memo), old(visiting)) && visiting == old(visiting)
      decreases All(g) - visiting
    {
      if n in memo {
        return memo[n];
      }
      if n in visiting {
        return false;
      }
      ghost var memo0, visiting0 := memo, visiting;
      assert n in All(g) - visiting;
      visiting := visiting + {n};
      hasProof := g[n].direct;
      if !hasProof {
        var calls := g[n].calls;
        var i := 0;
        while i < |calls| && !hasProof
          invariant 0 <= i <= |calls| && visiting == visiting0 + {n}
          invariant !hasProof ==>
                      AnyProves(g, calls, memo0, visiting) == AnyProves(g, calls[i..], memo, visiting)
          invariant hasProof ==> AnyProves(g, calls, memo0, visiting) == (true, memo)
        {
          assert calls[i..][0] == calls[i] && calls[i..][1..] == calls[i + 1..];
          hasProof := ProvesSomething(calls[i]);
          i := i + 1;
        }
        assert !hasProof ==> calls[i..] == [];
      }
      visiting := visiting - {n};
      assert visiting == visiting0;
      memo := memo[n := hasProof];
    }
  }

  /** The tests the gate reports: those whose verdict is false. */
  method RawViolations(g: Graph, tests: seq<nat>) returns (reported: seq<nat>)
    requires Valid(g) && forall i :: 0 <= i < |tests| ==> tests[i] < |g|
    ensures forall n :: n in reported <==>
              exists i :: 0 <= i < |tests| && tests[i] == n && !Verdicts(g, tests, map[])[i]
  {
    var gate := new Gate(g);
    reported := [];
    ghost var verdicts := Verdicts(g, tests, map[]);
    var i := 0;
    while i < |tests|
      invariant 0 <= i <= |tests| && gate.g == g && gate.visiting == {} && fresh(gate)
      invariant verdicts[i..] == Verdicts(g, tests[i..], gate.memo)
      invariant forall n :: n in reported <==> exists k :: 0 <= k < i && tests[k] == n && !verdicts[k]
    {
      assert tests[i..][0] == tests[i] && tests[i..][1..] == tests[i + 1..];
      assert verdicts[i..][0] == verdicts[i] && verdicts[i..][1..] == verdicts[i + 1..];
      var proves := gate.ProvesSomething(tests[i]);
      ghost var before := reported;
      if !proves {
        reported := reported + [tests[i]];
      }
      forall n ensures n in reported <==> exists k :: 0 <= k < i + 1 && tests[k] == n && !verdicts[k] {
        if k :| 0 <= k < i + 1 && tests[k] == n && !verdicts[k] {
          assert k < i ==> n in before;
        }
      }
      i := i + 1;
    }
  }

  // --- what a verdict should mean ---

  /** A helper chain: each function calls the next, and the last holds a proof itself. */
  ghost predicate Chain(g: Graph, path: seq<nat>) {
    && path != [] && (forall i :: 0 <= i < |path| ==> path[i] < |g|)
    && (forall i :: 0 <= i < |path| - 1 ==> path[i + 1] in g[path[i]].calls)
    && g[path[|path| - 1]].direct
  }

  ghost predicate Avoids(path: seq<nat>, v: set<nat>) {
    forall i :: 0 <= i < |path| ==> path[i] !in v
  }

  ghost predicate ChainAvoiding(g: Graph, n: nat, v: set<nat>) {
    exists path :: Chain(g, path) && path[0] == n && Avoids(path, v)
  }

  ghost predicate HasChain(g: Graph, n: nat) {
    ChainAvoiding(g, n, {})
  }

  ghost predicate TrueSound(g: Graph, memo: Memo) {
    forall k :: k in memo && memo[k] ==> HasChain(g, k)
  }

  /** A function remembered as proving nothing has no chain that keeps clear of `v`. */
  ghost predicate FalseCut(g: Graph, memo: Memo, v: set<nat>) {
    forall k :: k in memo && !memo[k] ==> !ChainAvoiding(g, k, v)
  }

  ghost predicate Exact(g: Graph, memo: Memo) {
    forall k :: k in memo ==> memo[k] == HasChain(g, k)
  }

  lemma ChainSuffix(g: Graph, path: seq<nat>, i: nat)
    requires Chain(g, path) && i < |path|
    ensures Chain(g, path[i..])
  {
    assert path[i..][|path| - i - 1] == path[|path| - 1];
    forall j | 0 <= j < |path[i..]| - 1 ensures path[i..][j + 1] in g[path[i..][j]].calls {
      assert path[i + j + 1] in g[path[i + j]].calls;
    }
  }

  lemma ChainCons(g: Graph, n: nat, path: seq<nat>)
    requires n < |g| && Chain(g, path) && path[0] in g[n].calls
    ensures Chain(g, [n] + path)
  {
    var p := [n] + path;
    forall i | 0 <= i < |p| - 1 ensures p[i + 1] in g[p[i]].calls {
      assert i > 0 ==> path[i] in g[path[i - 1]].calls;
    }
  }

  lemma CallHasChain(g: Graph, n: nat, c: nat, v: set<nat>)
    requires n < |g| && n !in v && c in g[n].calls && ChainAvoiding(g, c, v)
    ensures ChainAvoiding(g, n, v)
  {
    var path :| Chain(g, path) && path[0] == c && Avoids(path, v);
    ChainCons(g, n, path);
    assert Avoids([n] + path, v) && ([n] + path)[0] == n;
  }

  lemma {:induction false} LastIndex(path: seq<nat>, n: nat) returns (i: nat)
    requires n in path
    ensures i < |path| && path[i] == n && forall j :: i < j < |path| ==> path[j] != n
  {
    var m := |path| - 1;
    if path[m] == n {
      i := m;
    } else {
      i := LastIndex(path[..m], n);
    }
  }

  /** If no call of `n` has a chain clear of `v` and `n`, then `n` has no chain clear of `v`. */
  lemma CutNode(g: Graph, n: nat, v: set<nat>)
    requires n < |g| && !g[n].direct
    requires forall c :: c in g[n].calls ==> !ChainAvoiding(g, c, v + {n})
    ensures !ChainAvoiding(g, n, v)
  {
    forall path | Chain(g, path) && path[0] == n ensures !Avoids(path, v) {
      if Avoids(path, v) {
        var i := LastIndex(path, n);
        ChainSuffix(g, path, i + 1);
        assert Avoids(path[i + 1..], v + {n});
        assert ChainAvoiding(g, path[i + 1], v + {n});
      }
    }
  }

  /** A chain clear of `v` either keeps clear of `n` too or passes through `n`. */
  lemma ThroughNode(g: Graph, k: nat, n: nat, v: set<nat>)
    requires ChainAvoiding(g, k, v)
    ensures ChainAvoiding(g, k, v + {n}) || ChainAvoiding(g, n, v)
  {
    var path :| Chain(g, path) && path[0] == k && Avoids(path, v);
    if i :| 0 <= i < |path| && path[i] == n {
      ChainSuffix(g, path, i);
      assert Avoids(path[i..], v) && path[i..][0] == n;
    } else {
      assert Avoids(path, v + {n});
    }
  }

  /** Leaving `n` behind: what was cut off by `v` and `n` is cut off by `v` alone once `n` is. */
  lemma CutMemo(g: Graph, memo: Memo, n: nat, v: set<nat>)
    requires FalseCut(g, memo, v + {n}) && !ChainAvoiding(g, n, v)
    ensures FalseCut(g, memo[n := false], v)
  {
    forall k | ChainAvoiding(g, k, v) ensures ChainAvoiding(g, k, v + {n}) {
      ThroughNode(g, k, n, v);
    }
  }

  lemma CutGrows(g: Graph, memo: Memo, v: set<nat>, w: set<nat>)
    requires FalseCut(g, memo, v) && v <= w
    ensures FalseCut(g, memo, w)
  {
    forall k | k in memo && !memo[k] ensures !ChainAvoiding(g, k, w) {
      if path :| Chain(g, path) && path[0] == k && Avoids(path, w) {
        assert Avoids(path, v);
      }
    }
  }

  /** Whatever else is remembered, a true verdict has a chain. */
  lemma {:induction false} ProvesSound(g: Graph, n: nat, memo: Memo, v: set<nat>)
    requires Valid(g) && n < |g| && TrueSound(g, memo)
    ensures var (found, learned) := Proves(g, n, memo, v); TrueSound(g, learned) && (found ==> HasChain(g, n))
    decreases All(g) - v, 0
  {
    if n in memo || n in v {
    } else if g[n].direct {
      assert Chain(g, [n]) && Avoids([n], {});
    } else {
      assert n in All(g) - v;
      AnyProvesSound(g, g[n].calls, memo, v + {n});
      if AnyProves(g, g[n].calls, memo, v + {n}).0 {
        var c :| c in g[n].calls && HasChain(g, c);
        CallHasChain(g, n, c, {});
      }
    }
  }

  lemma {:induction false} AnyProvesSound(g: Graph, calls: seq<nat>, memo: Memo, v: set<nat>)
    requires Valid(g) && (forall i :: 0 <= i < |calls| ==> calls[i] < |g|) && TrueSound(g, memo)
    ensures var (found, learned) := AnyProves(g, calls, memo, v);
            TrueSound(g, learned) && (found ==> exists c :: c in calls && HasChain(g, c))
    decreases All(g) - v, |calls| + 1
  {
    if calls != [] {
      ProvesSound(g, calls[0], memo, v);
      var (found, learned) := Proves(g, calls[0], memo, v);
      if found {
        assert calls[0] in calls;
      } else {
        AnyProvesSound(g, calls[1..], learned, v);
        assert calls == [calls[0]] + calls[1..];
      }
    }
  }

  /** A false verdict rules out every chain that keeps clear of the functions still being visited. */
  lemma {:induction false} ProvesCut(g: Graph, n: nat, memo: Memo, v: set<nat>)
    requires Valid(g) && n < |g| && FalseCut(g, memo, v)
    ensures var (found, learned) := Proves(g, n, memo, v);
            !found ==> !ChainAvoiding(g, n, v) && FalseCut(g, learned, v)
    decreases All(g) - v, 0
  {
    if n !in memo && n !in v && !g[n].direct {
      assert n in All(g) - v;
      CutGrows(g, memo, v, v + {n});
      AnyProvesCut(g, g[n].calls, memo, v + {n});
      var (found, learned) := AnyProves(g, g[n].calls, memo, v + {n});
      if !found {
        CutNode(g, n, v);
        CutMemo(g, learned, n, v);
      }
    }
  }

  lemma {:induction false} AnyProvesCut(g: Graph, calls: seq<nat>, memo: Memo, v: set<nat>)
    requires Valid(g) && (forall i :: 0 <= i < |calls| ==> calls[i] < |g|) && FalseCut(g, memo, v)
    ensures var (found, learned) := AnyProves(g, calls, memo, v);
            !found ==> (forall c :: c in calls ==> !ChainAvoiding(g, c, v)) && FalseCut(g, learned, v)
    decreases All(g) - v, |calls| + 1
  {
    if calls != [] {
      ProvesCut(g, calls[0], memo, v);
      var (found, learned) := Proves(g, calls[0], memo, v);
      if !found {
        AnyProvesCut(g, calls[1..], learned, v);
        assert calls == [calls[0]] + calls[1..];
      }
    }
  }

  /** A query with nothing remembered is true exactly when a same-file chain to a proof exists. */
  lemma FreshQueryExact(g: Graph, n: nat)
    requires Valid(g) && n < |g|
    ensures Proves(g, n, map[], {}).0 <==> HasChain(g, n)
  {
    ProvesSound(g, n, map[], {});
    ProvesCut(g, n, map[], {});
  }

  /** Across all the tests of a file, a true verdict always has a chain, cycles or not. */
  lemma {:induction false} TrueVerdictsSound(g: Graph, tests: seq<nat>, memo: Memo)
    requires Valid(g) && (forall i :: 0 <= i < |tests| ==> tests[i] < |g|) && TrueSound(g, memo)
    ensures forall i :: 0 <= i < |tests| && Verdicts(g, tests, memo)[i] ==> HasChain(g, tests[i])
  {
    if tests != [] {
      ProvesSound(g, tests[0], memo, {});
      TrueVerdictsSound(g, tests[1..], Proves(g, tests[0], memo, {}).1);
    }
  }

  // --- when the shared memo keeps every verdict exact ---

  /** A path of distinct functions without a proof of their own, each calling the next. */
  ghost predicate StackPath(g: Graph, stack: seq<nat>) {
    && (forall i :: 0 <= i < |stack| ==> stack[i] < |g| && !g[stack[i]].direct)
    && (forall i :: 0 <= i < |stack| - 1 ==> stack[i + 1] in g[stack[i]].calls)
    && (forall i, j :: 0 <= i < j < |stack| ==> stack[i] != stack[j])
  }

  ghost function Members(s: seq<nat>): set<nat> {
    set x | x in s
  }

  /**
   * A call path that seals off its last function: that function has a chain to a proof, but every
   * one of its chains comes back through the functions above it on the path.
   */
  ghost predicate TrapAt(g: Graph, stack: seq<nat>, b: nat) {
    StackPath(g, stack + [b]) && HasChain(g, b) && !ChainAvoiding(g, b, Members(stack))
  }

  /** Such a path starts at one of the roots, the functions the gate is asked about. */
  ghost predicate Trapped(g: Graph, roots: set<nat>) {
    exists stack: seq<nat>, b: nat :: TrapAt(g, stack, b) && (stack + [b])[0] in roots
  }

  /** A root whose every chain passes through a function that some root's call path seals off. */
  ghost predicate Exposed(g: Graph, roots: set<nat>) {
    exists stack: seq<nat>, b: nat, t: nat ::
      TrapAt(g, stack, b) && (stack + [b])[0] in roots && DependsOn(g, t, b) && t in roots
  }

  ghost predicate DependsOn(g: Graph, t: nat, b: nat) {
    HasChain(g, t) && !ChainAvoiding(g, t, {b})
  }

  lemma PushStack(g: Graph, stack: seq<nat>, n: nat, c: nat)
    requires Valid(g) && n < |g| && StackPath(g, stack + [n])
    requires c in g[n].calls && c !in stack + [n] && !g[c].direct
    ensures StackPath(g, stack + [n] + [c])
  {
    var s, t := stack + [n], stack + [n] + [c];
    forall i | 0 <= i < |t| - 1 ensures t[i + 1] in g[t[i]].calls {
      assert i < |s| - 1 ==> s[i + 1] in g[s[i]].calls;
    }
  }

  /** Without a trap, an exact memory stays exact through a search from any reachable stack. */
  lemma {:induction false} ProvesExact(g: Graph, roots: set<nat>, n: nat, memo: Memo, stack: seq<nat>)
    requires Valid(g) && n < |g| && !Trapped(g, roots) && Exact(g, memo) && (stack + [n])[0] in roots
    requires n !in stack && !g[n].direct ==> StackPath(g, stack + [n])
    ensures var (found, learned) := Proves(g, n, memo, Members(stack));
            Exact(g, learned) && (n !in stack ==> found == HasChain(g, n))
    decreases All(g) - Members(stack), 0
  {
    var v := Members(stack);
    if n in memo || n in v {
    } else if g[n].direct {
      assert Chain(g, [n]) && Avoids([n], {});
    } else {
      assert n in All(g) - v;
      assert Members(stack + [n]) == v + {n};
      AnyProvesExact(g, roots, g[n].calls, memo, stack, n);
      ExactIsCut(g, memo, v);
      ProvesSound(g, n, memo, v);
      ProvesCut(g, n, memo, v);
      assert !Proves(g, n, memo, v).0 ==> !HasChain(g, n) by {
        assert !TrapAt(g, stack, n);
      }
    }
  }

  lemma ExactIsCut(g: Graph, memo: Memo, v: set<nat>)
    requires Exact(g, memo)
    ensures FalseCut(g, memo, v) && TrueSound(g, memo)
  {
    assert FalseCut(g, memo, {});
    CutGrows(g, memo, {}, v);
  }

  lemma {:induction false} AnyProvesExact(g: Graph, roots: set<nat>, calls: seq<nat>, memo: Memo, stack: seq<nat>,
                                          n: nat)
    requires Valid(g) && (forall i :: 0 <= i < |calls| ==> calls[i] < |g|) && Exact(g, memo)
    requires !Trapped(g, roots) && (stack + [n])[0] in roots
    requires n < |g| && StackPath(g, stack + [n]) && forall c :: c in calls ==> c in g[n].calls
    ensures Exact(g, AnyProves(g, calls, memo, Members(stack + [n])).1)
    decreases All(g) - Members(stack + [n]), |calls| + 1
  {
    if calls != [] {
      if calls[0] !in stack + [n] && !g[calls[0]].direct {
        PushStack(g, stack, n, calls[0]);
      }
      assert (stack + [n] + [calls[0]])[0] == (stack + [n])[0];
      ProvesExact(g, roots, calls[0], memo, stack + [n]);
      var (found, learned) := Proves(g, calls[0], memo, Members(stack + [n]));
      if !found {
        AnyProvesExact(g, roots, calls[1..], learned, stack, n);
      }
    }
  }

  lemma {:induction false} NoTrapVerdictsExact(g: Graph, roots: set<nat>, tests: seq<nat>, memo: Memo)
    requires Valid(g) && (forall i :: 0 <= i < |tests| ==> tests[i] < |g| && tests[i] in roots)
    requires !Trapped(g, roots) && Exact(g, memo)
    ensures forall i :: 0 <= i < |tests| ==> Verdicts(g, tests, memo)[i] == HasChain(g, tests[i])
  {
    if tests != [] {
      assert [] + [tests[0]] == [tests[0]];
      assert Members([]) == {};
      ProvesExact(g, roots, tests[0], memo, []);
      NoTrapVerdictsExact(g, roots, tests[1..], Proves(g, tests[0], memo, {}).1);
    }
  }

  // --- and when some order of the calls makes it lie ---

  /** The same functions with the same calls, met in some other order. */
  ghost predicate Reorders(g: Graph, h: Graph) {
    |h| == |g| && forall n :: 0 <= n < |g| ==>
                    h[n].direct == g[n].direct && multiset(h[n].calls) == multiset(g[n].calls)
  }

  /** Whatever order the calls are met in and whichever roots are asked, every verdict is exact. */
  ghost predicate ExactInEveryOrder(g: Graph, roots: set<nat>) {
    forall h, tests: seq<nat> :: Reorders(g, h) && Valid(h) && (forall i :: 0 <= i < |tests| ==> tests[i] < |h| && tests[i] in roots) ==>
      forall i :: 0 <= i < |tests| ==> Verdicts(h, tests, map[])[i] == HasChain(h, tests[i])
  }

  lemma SameCalls(g: Graph, h: Graph, n: nat, c: nat)
    requires Reorders(g, h) && n < |g|
    ensures c in h[n].calls <==> c in g[n].calls
  {
    assert c in h[n].calls <==> c in multiset(h[n].calls);
    assert c in g[n].calls <==> c in multiset(g[n].calls);
  }

  lemma SameChains(g: Graph, h: Graph, n: nat, v: set<nat>)
    requires Reorders(g, h)
    ensures ChainAvoiding(g, n, v) <==> ChainAvoiding(h, n, v)
  {
    forall path ensures Chain(g, path) <==> Chain(h, path) {
      forall i | 0 <= i < |path| - 1 && path[i] < |g| ensures path[i + 1] in h[path[i]].calls <==> path[i + 1] in g[path[i]].calls {
        SameCalls(g, h, path[i], path[i + 1]);
      }
    }
  }

  lemma SameTraps(g: Graph, h: Graph, stack: seq<nat>, b: nat)
    requires Reorders(g, h)
    ensures TrapAt(g, stack, b) <==> TrapAt(h, stack, b)
  {
    SameChains(g, h, b, {});
    SameChains(g, h, b, Members(stack));
    var t := stack + [b];
    forall i | 0 <= i < |t| - 1 && t[i] < |g| ensures t[i + 1] in h[t[i]].calls <==> t[i + 1] in g[t[i]].calls {
      SameCalls(g, h, t[i], t[i + 1]);
    }
  }

  lemma {:induction false} ProvesRemembers(g: Graph, n: nat, memo: Memo, v: set<nat>)
    requires Valid(g) && n < |g|
    ensures forall k :: k in memo ==> k in Proves(g, n, memo, v).1 && Proves(g, n, memo, v).1[k] == memo[k]
    decreases All(g) - v, 0
  {
    if n !in memo && n !in v && !g[n].direct {
      assert n in All(g) - v;
      AnyProvesRemembers(g, g[n].calls, memo, v + {n});
    }
  }

  lemma {:induction false} AnyProvesRemembers(g: Graph, calls: seq<nat>, memo: Memo, v: set<nat>)
    requires Valid(g) && forall i :: 0 <= i < |calls| ==> calls[i] < |g|
    ensures forall k :: k in memo ==> k in AnyProves(g, calls, memo, v).1 && AnyProves(g, calls, memo, v).1[k] == memo[k]
    decreases All(g) - v, |calls| + 1
  {
    if calls != [] {
      ProvesRemembers(g, calls[0], memo, v);
      var (found, learned) := Proves(g, calls[0], memo, v);
      if !found {
        AnyProvesRemembers(g, calls[1..], learned, v);
      }
    }
  }

  ghost predicate NoTrue(memo: Memo) {
    forall k :: k in memo ==> !memo[k]
  }

  /** With no success remembered, a success was found without stepping on the visiting functions. */
  lemma {:induction false} ProvesAvoids(g: Graph, n: nat, memo: Memo, v: set<nat>)
    requires Valid(g) && n < |g| && NoTrue(memo)
    ensures var (found, learned) := Proves(g, n, memo, v);
            (found ==> ChainAvoiding(g, n, v)) && (!found ==> NoTrue(learned))
    decreases All(g) - v, 0
  {
    if n in memo || n in v {
    } else if g[n].direct {
      assert Chain(g, [n]) && Avoids([n], v);
    } else {
      assert n in All(g) - v;
      AnyProvesAvoids(g, g[n].calls, memo, v + {n});
      if AnyProves(g, g[n].calls, memo, v + {n}).0 {
        var c :| c in g[n].calls && ChainAvoiding(g, c, v + {n});
        var path :| Chain(g, path) && path[0] == c && Avoids(path, v + {n});
        ChainCons(g, n, path);
        assert Avoids([n] + path, v) && ([n] + path)[0] == n;
      }
    }
  }

  lemma {:induction false} AnyProvesAvoids(g: Graph, calls: seq<nat>, memo: Memo, v: set<nat>)
    requires Valid(g) && (forall i :: 0 <= i < |calls| ==> calls[i] < |g|) && NoTrue(memo)
    ensures var (found, learned) := AnyProves(g, calls, memo, v);
            (found ==> exists c :: c in calls && ChainAvoiding(g, c, v)) && (!found ==> NoTrue(learned))
    decreases All(g) - v, |calls| + 1
  {
    if calls != [] {
      ProvesAvoids(g, calls[0], memo, v);
      var (found, learned) := Proves(g, calls[0], memo, v);
      if found {
        assert calls[0] in calls;
      } else {
        AnyProvesAvoids(g, calls[1..], learned, v);
        assert calls == [calls[0]] + calls[1..];
      }
    }
  }

  /** What is remembered as proving something does so without `b`. */
  ghost predicate TrueWithout(g: Graph, memo: Memo, b: nat) {
    forall k :: k in memo && memo[k] ==> ChainAvoiding(g, k, {b})
  }

  /** Once `b` is remembered as proving nothing, every success was found without it. */
  lemma {:induction false} ProvesWithout(g: Graph, n: nat, memo: Memo, v: set<nat>, b: nat)
    requires Valid(g) && n < |g| && b in memo && !memo[b] && TrueWithout(g, memo, b)
    ensures var (found, learned) := Proves(g, n, memo, v);
            TrueWithout(g, learned, b) && (found ==> ChainAvoiding(g, n, {b}))
    decreases All(g) - v, 0
  {
    if n in memo || n in v {
    } else if g[n].direct {
      assert Chain(g, [n]) && Avoids([n], {b});
    } else {
      assert n in All(g) - v;
      AnyProvesWithout(g, g[n].calls, memo, v + {n}, b);
      if AnyProves(g, g[n].calls, memo, v + {n}).0 {
        var c :| c in g[n].calls && ChainAvoiding(g, c, {b});
        CallHasChain(g, n, c, {b});
      }
    }
  }

  lemma {:induction false} AnyProvesWithout(g: Graph, calls: seq<nat>, memo: Memo, v: set<nat>, b: nat)
    requires Valid(g) && forall i :: 0 <= i < |calls| ==> calls[i] < |g|
    requires b in memo && !memo[b] && TrueWithout(g, memo, b)
    ensures var (found, learned) := AnyProves(g, calls, memo, v);
            TrueWithout(g, learned, b) && (found ==> exists c :: c in calls && ChainAvoiding(g, c, {b}))
    decreases All(g) - v, |calls| + 1
  {
    if calls != [] {
      ProvesWithout(g, calls[0], memo, v, b);
      ProvesRemembers(g, calls[0], memo, v);
      var (found, learned) := Proves(g, calls[0], memo, v);
      if found {
        assert calls[0] in calls;
      } else {
        AnyProvesWithout(g, calls[1..], learned, v, b);
        assert calls == [calls[0]] + calls[1..];
      }
    }
  }

  /** Each function on the path meets its successor first. */
  ghost predicate Leads(g: Graph, t: seq<nat>) {
    forall i :: 0 <= i < |t| - 1 ==> t[i] < |g| && g[t[i]].calls != [] && g[t[i]].calls[0] == t[i + 1]
  }

  ghost function Fronted(calls: seq<nat>, x: nat): (r: seq<nat>)
    requires x in calls
    ensures r != [] && r[0] == x && multiset(r) == multiset(calls)
  {
    var i :| 0 <= i < |calls| && calls[i] == x;
    assert calls == calls[..i] + [x] + calls[i + 1..];
    [x] + calls[..i] + calls[i + 1..]
  }

  lemma FrontOne(g: Graph, h: Graph, n: nat, c: nat) returns (h': Graph)
    requires Valid(g) && Reorders(g, h) && Valid(h) && n < |g| && c in g[n].calls
    ensures Reorders(g, h') && Valid(h') && h'[n].calls != [] && h'[n].calls[0] == c
    ensures forall m :: 0 <= m < |g| && m != n ==> h'[m] == h[m]
  {
    var front := Fronted(g[n].calls, c);
    h' := h[n := Fn(g[n].direct, front)];
    forall i | 0 <= i < |front| ensures front[i] < |h| {
      assert front[i] in multiset(front);
      assert front[i] in g[n].calls;
    }
  }

  lemma StackTail(g: Graph, t: seq<nat>)
    requires StackPath(g, t) && t != []
    ensures StackPath(g, t[1..])
  {
    var r := t[1..];
    forall i | 0 <= i < |r| - 1 ensures r[i + 1] in g[r[i]].calls {
      assert t[i + 1 + 1] in g[t[i + 1]].calls;
    }
  }

  /** Some order of the calls makes the search walk a given path first. */
  lemma {:induction false} LeadAlong(g: Graph, t: seq<nat>) returns (h: Graph)
    requires Valid(g) && StackPath(g, t)
    ensures Reorders(g, h) && Valid(h) && Leads(h, t)
  {
    if |t| <= 1 {
      h := g;
    } else {
      StackTail(g, t);
      var rest := LeadAlong(g, t[1..]);
      assert t[0 + 1] in g[t[0]].calls;
      h := FrontOne(g, rest, t[0], t[1]);
      forall i | 0 < i < |t| - 1 ensures h[t[i]].calls != [] && h[t[i]].calls[0] == t[i + 1] {
        assert t[1..][i - 1] == t[i] && t[1..][i] == t[i + 1];
      }
    }
  }

  /**
   * Walking into the trap, the search remembers its last function as proving nothing, and every
   * success it reports or remembers on the way back was found without that function.
   */
  lemma {:induction false} WalkRemembersFalse(g: Graph, stack: seq<nat>, b: nat, i: nat)
    requires Valid(g) && TrapAt(g, stack, b) && Leads(g, stack + [b]) && i <= |stack|
    ensures var n := (stack + [b])[i];
            var (found, learned) := Proves(g, n, map[], Members(stack[..i]));
            && b in learned && !learned[b] && TrueWithout(g, learned, b)
            && (found ==> ChainAvoiding(g, n, {b}))
    decreases |stack| - i
  {
    var t := stack + [b];
    var v := Members(stack[..i]);
    if i == |stack| {
      assert stack[..i] == stack;
      ProvesAvoids(g, b, map[], v);
      assert b !in v by {
        assert forall j :: 0 <= j < |stack| ==> t[j] == stack[j] && t[j] != t[|stack|];
      }
    } else {
      WalkRemembersFalse(g, stack, b, i + 1);
      var n := t[i];
      assert n == stack[i] && stack[..i + 1] == stack[..i] + [n] && Members(stack[..i + 1]) == v + {n};
      assert n !in v by {
        assert forall j :: 0 <= j < i ==> stack[j] == t[j] && t[j] != t[i];
      }
      assert t[i] != t[|stack|];
      WalkBack(g, n, v, b);
    }
  }

  /** One step back out of the trap, with its last function already remembered. */
  lemma WalkBack(g: Graph, n: nat, v: set<nat>, b: nat)
    requires Valid(g) && n < |g| && n != b && n !in v && !g[n].direct && g[n].calls != []
    requires var (found, learned) := Proves(g, g[n].calls[0], map[], v + {n});
             && b in learned && !learned[b] && TrueWithout(g, learned, b)
             && (found ==> ChainAvoiding(g, g[n].calls[0], {b}))
    ensures var (found, learned) := Proves(g, n, map[], v);
            && b in learned && !learned[b] && TrueWithout(g, learned, b)
            && (found ==> ChainAvoiding(g, n, {b}))
  {
    var calls := g[n].calls;
    var (found, learned) := Proves(g, calls[0], map[], v + {n});
    if found {
      CallHasChain(g, n, calls[0], {b});
    } else {
      AnyProvesRemembers(g, calls[1..], learned, v + {n});
      AnyProvesWithout(g, calls[1..], learned, v + {n}, b);
      if AnyProves(g, calls[1..], learned, v + {n}).0 {
        var c :| c in calls[1..] && ChainAvoiding(g, c, {b});
        CallHasChain(g, n, c, {b});
      }
    }
  }

  /** Such a root yields an order of the calls, and two queries, on which the gate is wrong. */
  lemma TrapLies(g: Graph, roots: set<nat>, stack: seq<nat>, b: nat, t: nat)
    requires Valid(g) && TrapAt(g, stack, b) && (stack + [b])[0] in roots && DependsOn(g, t, b) && t in roots
    ensures !ExactInEveryOrder(g, roots)
  {
    var h := LeadAlong(g, stack + [b]);
    SameTraps(g, h, stack, b);
    SameChains(g, h, t, {});
    SameChains(g, h, t, {b});
    WalkRemembersFalse(h, stack, b, 0);
    assert Members(stack[..0]) == {};
    var first := (stack + [b])[0];
    var tests := [first, t];
    var learned := Proves(h, first, map[], {}).1;
    ProvesWithout(h, t, learned, {}, b);
    assert tests[1..] == [t] && tests[1..][1..] == [];
    assert Verdicts(h, tests, map[])[1] == Verdicts(h, [t], learned)[0] == false;
    assert HasChain(h, tests[1]);
  }

  /**
   * Asked about the roots alone, the gate is right in every order when no trap starts at a root; a
   * trap that starts at a root and that some root cannot do without makes it wrong in some order.
   */
  lemma ExactForRoots(g: Graph, roots: set<nat>)
    requires Valid(g)
    ensures !Trapped(g, roots) ==> ExactInEveryOrder(g, roots)
    ensures Exposed(g, roots) ==> !ExactInEveryOrder(g, roots)
  {
    if Exposed(g, roots) {
      var stack: seq<nat>, b: nat, t: nat :|
        TrapAt(g, stack, b) && (stack + [b])[0] in roots && DependsOn(g, t, b) && t in roots;
      TrapLies(g, roots, stack, b, t);
    }
    if !Trapped(g, roots) {
      forall h, tests: seq<nat> | Reorders(g, h) && Valid(h) && (forall i :: 0 <= i < |tests| ==> tests[i] < |h| && tests[i] in roots)
        ensures forall i :: 0 <= i < |tests| ==> Verdicts(h, tests, map[])[i] == HasChain(h, tests[i])
      {
        forall stack: seq<nat>, b: nat | (stack + [b])[0] in roots ensures !TrapAt(h, stack, b) {
          SameTraps(g, h, stack, b);
        }
        NoTrapVerdictsExact(h, roots, tests, map[]);
      }
    }
  }

  /**
   * The gate is right about every function of every file with these functions and calls, in whatever
   * order the calls are met and the functions asked, exactly when no call path seals off its last
   * function.
   */
  lemma ExactIffNoTrap(g: Graph)
    requires Valid(g)
    ensures ExactInEveryOrder(g, All(g)) <==> !Trapped(g, All(g))
  {
    ExactForRoots(g, All(g));
    if Trapped(g, All(g)) {
      var stack: seq<nat>, b: nat :| TrapAt(g, stack, b) && (stack + [b])[0] in All(g);
      assert (stack + [b])[|stack|] == b;
      assert b in All(g) && DependsOn(g, b, b);
    }
  }

  /** `rank` falls along every call, so the helper graph has no cycle. */
  ghost predicate Acyclic(g: Graph, rank: nat -> nat) {
    forall n, c :: 0 <= n < |g| && c in g[n].calls ==> rank(c) < rank(n)
  }

  lemma {:induction false} RankFalls(g: Graph, path: seq<nat>, i: nat, j: nat, rank: nat -> nat)
    requires Acyclic(g, rank) && i <= j < |path| && forall k :: 0 <= k < |path| ==> path[k] < |g|
    requires forall k :: 0 <= k < |path| - 1 ==> path[k + 1] in g[path[k]].calls
    ensures rank(path[j]) <= rank(path[i]) && (i < j ==> rank(path[j]) < rank(path[i]))
    decreases j
  {
    if i < j {
      RankFalls(g, path, i, j - 1, rank);
      assert path[j - 1 + 1] in g[path[j - 1]].calls;
    }
  }

  /** On an acyclic helper graph every verdict is exact, shared memo and all. */
  lemma AcyclicIsExact(g: Graph, rank: nat -> nat)
    requires Valid(g) && Acyclic(g, rank)
    ensures ExactInEveryOrder(g, All(g))
  {
    forall stack: seq<nat>, b: nat ensures !TrapAt(g, stack, b) {
      if StackPath(g, stack + [b]) && HasChain(g, b) {
        var path :| Chain(g, path) && path[0] == b && Avoids(path, {});
        forall i | 0 <= i < |path| ensures path[i] !in Members(stack) {
          RankFalls(g, path, 0, i, rank);
          forall j | 0 <= j < |stack| ensures stack[j] != path[i] {
            RankFalls(g, stack + [b], j, |stack|, rank);
          }
        }
        assert Avoids(path, Members(stack));
      }
    }
    ExactIffNoTrap(g);
  }

  /**
   * Such files exist: a test reaches a proof through a helper that first calls a helper calling it
   * back. The first test passes; the second, which enters by the inner helper, is reported although
   * it has a chain.
   */
  const TWO_TESTS: Graph := [Fn(false, [1]), Fn(false, [2, 3]), Fn(false, [1]), Fn(true, []), Fn(false, [2])]

  /** The first test passes, and leaves a False for function 2, which was cut at function 1. */
  lemma FirstTestPasses()
    ensures Valid(TWO_TESTS)
    ensures Proves(TWO_TESTS, 0, map[], {}) == (true, map[2 := false, 3 := true, 1 := true, 0 := true])
  {
    var g := TWO_TESTS;
    var m2, m3: Memo := map[2 := false], map[2 := false, 3 := true];
    InnerHelperIsCut();
    assert {0} + {1} == {0, 1} && {} + {0} == {0};
    assert [2, 3][1..] == [3];
    assert Proves(g, 3, m2, {0, 1}) == (true, m3);
    assert AnyProves(g, [3], m2, {0, 1}) == (true, m3);
    assert AnyProves(g, [2, 3], map[], {0, 1}) == (true, m3);
    assert Proves(g, 1, map[], {0}) == (true, m3[1 := true]);
    assert AnyProves(g, [1], map[], {0}) == (true, m3[1 := true]);
  }

  lemma InnerHelperIsCut()
    ensures Valid(TWO_TESTS)
    ensures Proves(TWO_TESTS, 2, map[], {0, 1}) == (false, map[2 := false])
  {
    var g := TWO_TESTS;
    assert {0, 1} + {2} == {0, 1, 2};
    assert AnyProves(g, [1], map[], {0, 1, 2}) == (false, map[]) by {
      assert Proves(g, 1, map[], {0, 1, 2}) == (false, map[]);
      assert [1][1..] == [] && AnyProves(g, [], map[], {0, 1, 2}) == (false, map[]);
    }
  }

  /** Remembering that False is enough to report the second test. */
  lemma SecondTestFails(memo: Memo)
    requires 4 !in memo && 2 in memo && !memo[2]
    ensures Valid(TWO_TESTS)
    ensures !Proves(TWO_TESTS, 4, memo, {}).0
  {
    var g := TWO_TESTS;
    assert {} + {4} == {4};
    assert Proves(g, 2, memo, {4}) == (false, memo);
    assert [2][1..] == [] && AnyProves(g, [2], memo, {4}) == (false, memo);
  }

  lemma SharedMemoCanLie()
    ensures Valid(TWO_TESTS) && HasChain(TWO_TESTS, 4)
    ensures Verdicts(TWO_TESTS, [0, 4], map[]) == [true, false]
  {
    var g := TWO_TESTS;
    assert Chain(g, [4, 2, 1, 3]) && Avoids([4, 2, 1, 3], {}) && [4, 2, 1, 3][0] == 4;
    FirstTestPasses();
    var memo := Proves(g, 0, map[], {}).1;
    SecondTestFails(memo);
    assert [0, 4][1..] == [4] && [4][1..] == [];
    assert Verdicts(g, [4], memo) == [false] + Verdicts(g, [], Proves(g, 4, memo, {}).1);
  }
}

/** Cycles in the jump graph, found by an iterative depth-first search from every chain. */
module JumpCycles {
  import opened Ordering

  type Graph = map<string, seq<string>>

  function Succ(g: Graph, v: string): seq<string> {
    if v in g then g[v] else []
  }

  // --- what the search is about -------------------------------------------

  /** Neighbours in the list are joined by jumps. */
  predicate Linked(g: Graph, w: seq<string>) {
    forall i, j {:trigger w[i], w[j]} :: 0 <= i < |w| && j == i + 1 && j < |w| ==> w[j] in Succ(g, w[i])
  }

  ghost predicate Walk(g: Graph, w: seq<string>) {
    w != [] && Linked(g, w)
  }

  /** Some walk of at least one jump leads from the chain back to itself. */
  ghost predicate OnCycle(g: Graph, v: string) {
    exists w :: |w| > 1 && Walk(g, w) && w[0] == v && w[|w| - 1] == v
  }

  predicate Distinct(c: seq<string>) {
    forall i, j :: 0 <= i < j < |c| ==> c[i] != c[j]
  }

  /** A simple cycle: distinct chains, each jumping to the next and the last to the first. */
  predicate SimpleCycle(g: Graph, c: seq<string>) {
    && c != [] && Distinct(c)
    && Linked(g, c)
    && c[0] in Succ(g, c[|c| - 1])
  }

  predicate StartsLeast(c: seq<string>) {
    c != [] && forall i :: 0 < i < |c| ==> !Less(c[i], c[0])
  }

  // --- canonical rotation -------------------------------------------------

  /** Position of the first occurrence of the least element. */
  function LeastIndex(c: seq<string>): (k: nat)
    requires c != []
    ensures k < |c| && forall i :: 0 <= i < |c| ==> !Less(c[i], c[k])
  {
    if |c| == 1 then Irreflexive(c[0]); 0
    else
      var k := 1 + LeastIndex(c[1..]);
      assert forall i :: 0 < i < |c| ==> c[i] == c[1..][i - 1];
      if Less(c[k], c[0]) then LeastAbove(c[k], c[0]); k
      else LeastBelow(c, k); 0
  }

  lemma LeastAbove(a: string, b: string)
    requires Less(a, b)
    ensures !Less(b, a) && !Less(a, a)
  {
    Irreflexive(a);
    if Less(b, a) { Transitive(a, b, a); }
  }

  lemma LeastBelow(c: seq<string>, k: nat)
    requires 0 < k < |c| && !Less(c[k], c[0])
    requires forall i :: 0 < i < |c| ==> !Less(c[i], c[k])
    ensures forall i :: 0 <= i < |c| ==> !Less(c[i], c[0])
  {
    Irreflexive(c[0]);
    forall i | 0 < i < |c| ensures !Less(c[i], c[0]) {
      Total(c[k], c[0]);
      if Less(c[i], c[0]) && Less(c[0], c[k]) { Transitive(c[i], c[0], c[k]); }
    }
  }

  function Rotate(c: seq<string>, k: nat): seq<string>
    requires k <= |c|
  {
    c[k..] + c[..k]
  }

  function CanonicalCycle(c: seq<string>): seq<string>
    requires c != []
  {
    Rotate(c, LeastIndex(c))
  }

  lemma RotateAt(c: seq<string>, k: nat, i: nat)
    requires k < |c| && i < |c|
    ensures |Rotate(c, k)| == |c|
    ensures Rotate(c, k)[i] == c[if i + k < |c| then i + k else i + k - |c|]
  {
  }

  lemma RotateMembers(c: seq<string>, k: nat)
    requires k < |c|
    ensures forall v :: v in Rotate(c, k) <==> v in c
  {
    assert c == c[..k] + c[k..];
  }

  lemma RotateDistinct(c: seq<string>, k: nat)
    requires Distinct(c) && k < |c|
    ensures Distinct(Rotate(c, k))
  {
    forall i, j | 0 <= i < j < |c| ensures Rotate(c, k)[i] != Rotate(c, k)[j] {
      RotateAt(c, k, i);
      RotateAt(c, k, j);
    }
  }

  /** Rotating keeps a simple cycle one. */
  lemma RotateKeepsCycle(g: Graph, c: seq<string>, k: nat)
    requires SimpleCycle(g, c) && k < |c|
    ensures SimpleCycle(g, Rotate(c, k))
  {
    var r := Rotate(c, k);
    RotateDistinct(c, k);
    forall i, j | 0 <= i < |r| && j == i + 1 && j < |r| ensures r[j] in Succ(g, r[i]) {
      RotateAt(c, k, i);
      RotateAt(c, k, j);
    }
    RotateAt(c, k, 0);
    RotateAt(c, k, |c| - 1);
  }

  lemma CanonicalIsCycle(g: Graph, c: seq<string>)
    requires SimpleCycle(g, c)
    ensures SimpleCycle(g, CanonicalCycle(c)) && StartsLeast(CanonicalCycle(c))
    ensures forall v :: v in CanonicalCycle(c) <==> v in c
  {
    var k := LeastIndex(c);
    RotateKeepsCycle(g, c, k);
    RotateMembers(c, k);
    forall i | 0 < i < |c| ensures !Less(CanonicalCycle(c)[i], CanonicalCycle(c)[0]) {
      RotateAt(c, k, i);
      RotateAt(c, k, 0);
    }
  }

  /** All rotations of one cycle canonicalise to the same tuple, so a loop is reported once. */
  lemma RotationsAgree(c: seq<string>, k: nat)
    requires c != [] && Distinct(c) && k < |c|
    ensures Rotate(c, k) != [] && CanonicalCycle(Rotate(c, k)) == CanonicalCycle(c)
  {
    var r := Rotate(c, k);
    var m, j := LeastIndex(c), LeastIndex(r);
    RotateAt(c, k, j);
    var at := if j + k < |c| then j + k else j + k - |c|;
    var back := if m >= k then m - k else m - k + |c|;
    RotateAt(c, k, back);
    assert r[back] == c[m] && r[j] == c[at];
    Total(c[at], c[m]);
    assert at == m;
    forall i | 0 <= i < |c| ensures CanonicalCycle(r)[i] == CanonicalCycle(c)[i] {
      RotateAt(c, m, i);
      RotateAt(r, j, i);
      RotateAt(c, k, if i + j < |c| then i + j else i + j - |c|);
    }
  }

  // --- the search -----------------------------------------------------------

  function Elements(s: seq<string>): set<string> {
    set v | v in s
  }

  /** Every chain the graph mentions. */
  function Chains(g: Graph): set<string> {
    g.Keys + set v, u | v in g && u in g[v] :: u
  }

  /** Jumps never lead out of the set. */
  predicate Closed(g: Graph, all: set<string>) {
    forall v, k :: v in all && 0 <= k < |Succ(g, v)| ==> Succ(g, v)[k] in all
  }

  lemma ChainsClosed(g: Graph)
    ensures Closed(g, Chains(g))
  {
    forall v, k | v in Chains(g) && 0 <= k < |Succ(g, v)| ensures Succ(g, v)[k] in Chains(g) {
      assert v in g && Succ(g, v)[k] in g[v];
    }
  }

  /** One visit per chain of the set plus one look at each of its jumps. */
  ghost function Cost(g: Graph, s: set<string>): nat {
    if s == {} then 0 else var v :| v in s; 1 + |Succ(g, v)| + Cost(g, s - {v})
  }

  lemma {:induction false} CostAdd(g: Graph, s: set<string>, v: string)
    requires v !in s
    ensures Cost(g, s + {v}) == Cost(g, s) + 1 + |Succ(g, v)|
  {
    var t := s + {v};
    var x :| x in t && Cost(g, t) == 1 + |Succ(g, x)| + Cost(g, t - {x});
    if x == v {
      assert t - {v} == s;
    } else {
      assert t - {x} == (s - {x}) + {v};
      CostAdd(g, s - {x}, v);
      CostAdd(g, s - {x}, x);
      assert (s - {x}) + {x} == s;
    }
  }

  /** Work still open: for each chain on the path, its jumps not yet looked at and the return from it. */
  function Open(g: Graph, path: seq<string>, next: seq<nat>): int
    requires |path| == |next|
  {
    if path == [] then 0
    else
      var top := |path| - 1;
      1 + |Succ(g, path[top])| - next[top] + Open(g, path[..top], next[..top])
  }

  /** Reported loops are genuine, simple and canonical. */
  predicate Sound(g: Graph, cycles: set<seq<string>>) {
    forall c :: c in cycles ==> SimpleCycle(g, c) && StartsLeast(c)
  }

  predicate Reported(cycles: set<seq<string>>, v: string) {
    exists c :: c in cycles && v in c
  }

  /** A jump that was looked at led to a visited chain; one back to the start was reported. */
  predicate SeenOne(visited: set<string>, cycles: set<seq<string>>, start: string, u: string) {
    u in visited && (u == start ==> Reported(cycles, start))
  }

  predicate SeenFirst(visited: set<string>, cycles: set<seq<string>>, start: string, jumps: seq<string>, n: nat)
    requires n <= |jumps|
  {
    forall k :: 0 <= k < n ==> SeenOne(visited, cycles, start, jumps[k])
  }

  predicate Seen(visited: set<string>, cycles: set<seq<string>>, start: string, jumps: seq<string>) {
    SeenFirst(visited, cycles, start, jumps, |jumps|)
  }

  /** The path is a simple walk from the start, each of its chains visited. */
  predicate PathOK(g: Graph, start: string, path: seq<string>, visited: set<string>) {
    && Distinct(path) && (path != [] ==> path[0] == start)
    && Linked(g, path)
    && forall v :: v in path ==> v in visited
  }

  /** Each open iterator stands at some jump of its chain; those before it were seen. */
  predicate IteratorsOK(g: Graph, start: string, path: seq<string>, next: seq<nat>,
                        visited: set<string>, cycles: set<seq<string>>) {
    && |path| == |next|
    && forall i :: 0 <= i < |path| ==>
         next[i] <= |Succ(g, path[i])| && SeenFirst(visited, cycles, start, Succ(g, path[i]), next[i])
  }

  /** Chains that were left again had all their jumps seen. */
  predicate FinishedOK(g: Graph, start: string, path: seq<string>, visited: set<string>, cycles: set<seq<string>>) {
    forall v :: v in visited && v !in path ==> Seen(visited, cycles, start, Succ(g, v))
  }

  lemma SeenGrows(visited: set<string>, cycles: set<seq<string>>, start: string, jumps: seq<string>, n: nat,
                  visited': set<string>, cycles': set<seq<string>>)
    requires n <= |jumps| && SeenFirst(visited, cycles, start, jumps, n) && visited <= visited' && cycles <= cycles'
    ensures SeenFirst(visited', cycles', start, jumps, n)
  {
    assert Reported(cycles, start) ==> Reported(cycles', start);
    forall k | 0 <= k < n ensures SeenOne(visited', cycles', start, jumps[k]) {
      assert SeenOne(visited, cycles, start, jumps[k]);
    }
  }

  lemma IteratorsGrow(g: Graph, start: string, path: seq<string>, next: seq<nat>,
                      visited: set<string>, cycles: set<seq<string>>, visited': set<string>, cycles': set<seq<string>>)
    requires IteratorsOK(g, start, path, next, visited, cycles) && visited <= visited' && cycles <= cycles'
    ensures IteratorsOK(g, start, path, next, visited', cycles')
  {
    forall i | 0 <= i < |path|
      ensures next[i] <= |Succ(g, path[i])| && SeenFirst(visited', cycles', start, Succ(g, path[i]), next[i])
    {
      SeenGrows(visited, cycles, start, Succ(g, path[i]), next[i], visited', cycles');
    }
  }

  /** First position of a chain from a given position on. */
  function IndexFrom(path: seq<string>, v: string, from: nat): (k: nat)
    requires exists i :: from <= i < |path| && path[i] == v
    ensures from <= k < |path| && path[k] == v && forall i :: from <= i < k ==> path[i] != v
    decreases |path| - from
  {
    if path[from] == v then from else IndexFrom(path, v, from + 1)
  }

  function IndexOf(path: seq<string>, v: string): (k: nat)
    requires v in path
    ensures k < |path| && path[k] == v && forall i :: 0 <= i < k ==> path[i] != v
  {
    IndexFrom(path, v, 0)
  }

  /** The path from an open chain on, closed by a jump back to it, is a simple cycle. */
  lemma ClosesCycle(g: Graph, start: string, path: seq<string>, visited: set<string>, v: string)
    requires PathOK(g, start, path, visited) && v in path && v in Succ(g, path[|path| - 1])
    ensures SimpleCycle(g, path[IndexOf(path, v)..])
    ensures v == start ==> start in path[IndexOf(path, v)..]
  {
    assert path[IndexOf(path, v)..][0] == v;
  }

  // --- the state of one search, and its four steps ------------------------

  datatype Search = Search(path: seq<string>, next: seq<nat>, visited: set<string>, cycles: set<seq<string>>) {
    function Top(): nat
      requires path != []
    {
      |path| - 1
    }
  }

  predicate Inv(g: Graph, all: set<string>, start: string, s: Search) {
    && start in s.visited && s.visited <= all
    && PathOK(g, start, s.path, s.visited)
    && IteratorsOK(g, start, s.path, s.next, s.visited, s.cycles)
    && FinishedOK(g, start, s.path, s.visited, s.cycles)
  }

  /** The jump the top iterator offers. */
  predicate Offers(g: Graph, s: Search, v: string) {
    && s.path != [] && |s.path| == |s.next|
    && s.next[s.Top()] < |Succ(g, s.path[s.Top()])| && Succ(g, s.path[s.Top()])[s.next[s.Top()]] == v
  }

  /** The iterators after the top one has yielded a jump. */
  function Advanced(next: seq<nat>): seq<nat>
    requires next != []
  {
    next[|next| - 1 := next[|next| - 1] + 1]
  }

  lemma InvStarts(g: Graph, all: set<string>, start: string, known: set<seq<string>>)
    requires start in all
    ensures Inv(g, all, start, Search([start], [0], {start}, known))
    ensures Open(g, [start], [0]) == Cost(g, {start})
  {
    CostAdd(g, {}, start);
    assert {} + {start} == {start};
    assert [start][..0] == [];
  }

  lemma PathShrinks(g: Graph, start: string, path: seq<string>, visited: set<string>)
    requires PathOK(g, start, path, visited) && path != []
    ensures PathOK(g, start, path[..|path| - 1], visited)
    ensures Elements(path[..|path| - 1]) == Elements(path) - {path[|path| - 1]}
  {
    assert path == path[..|path| - 1] + [path[|path| - 1]];
  }

  lemma PathExtends(g: Graph, start: string, path: seq<string>, visited: set<string>, v: string)
    requires PathOK(g, start, path, visited) && path != [] && v !in visited && v in Succ(g, path[|path| - 1])
    ensures PathOK(g, start, path + [v], visited + {v})
    ensures Elements(path + [v]) == Elements(path) + {v}
  {
  }

  lemma FinishedGains(g: Graph, start: string, path: seq<string>, visited: set<string>, cycles: set<seq<string>>)
    requires path != [] && FinishedOK(g, start, path, visited, cycles)
    requires Seen(visited, cycles, start, Succ(g, path[|path| - 1]))
    ensures FinishedOK(g, start, path[..|path| - 1], visited, cycles)
  {
    assert path == path[..|path| - 1] + [path[|path| - 1]];
  }

  lemma FinishedGrows(g: Graph, start: string, path: seq<string>, visited: set<string>, cycles: set<seq<string>>,
                      cycles': set<seq<string>>)
    requires FinishedOK(g, start, path, visited, cycles) && cycles <= cycles'
    ensures FinishedOK(g, start, path, visited, cycles')
  {
    forall v | v in visited && v !in path ensures Seen(visited, cycles', start, Succ(g, v)) {
      SeenGrows(visited, cycles, start, Succ(g, v), |Succ(g, v)|, visited, cycles');
    }
  }

  lemma FinishedPushes(g: Graph, start: string, path: seq<string>, visited: set<string>,
                       cycles: set<seq<string>>, v: string)
    requires FinishedOK(g, start, path, visited, cycles)
    ensures FinishedOK(g, start, path + [v], visited + {v}, cycles)
  {
    forall u | u in visited + {v} && u !in path + [v] ensures Seen(visited + {v}, cycles, start, Succ(g, u)) {
      assert u !in path && u in visited;
      SeenGrows(visited, cycles, start, Succ(g, u), |Succ(g, u)|, visited + {v}, cycles);
    }
  }

  /** Advancing the top iterator past a jump that is accounted for. */
  lemma IteratorAdvances(g: Graph, start: string, s: Search, visited: set<string>, cycles: set<seq<string>>, v: string)
    requires IteratorsOK(g, start, s.path, s.next, visited, cycles) && Offers(g, s, v)
    requires SeenOne(visited, cycles, start, v)
    ensures IteratorsOK(g, start, s.path, Advanced(s.next), visited, cycles)
  {
  }

  /** Leaving an exhausted chain. */
  lemma InvPops(g: Graph, all: set<string>, start: string, s: Search)
    requires Inv(g, all, start, s) && s.path != [] && s.next[s.Top()] == |Succ(g, s.path[s.Top()])|
    ensures Inv(g, all, start, s.(path := s.path[..s.Top()], next := s.next[..s.Top()]))
    ensures Elements(s.path[..s.Top()]) == Elements(s.path) - {s.path[s.Top()]}
    ensures Open(g, s.path, s.next) == 1 + Open(g, s.path[..s.Top()], s.next[..s.Top()])
  {
    PathShrinks(g, start, s.path, s.visited);
    FinishedGains(g, start, s.path, s.visited, s.cycles);
  }

  lemma OpenAdvances(g: Graph, path: seq<string>, next: seq<nat>)
    requires |path| == |next| && path != []
    ensures Open(g, path, Advanced(next)) == Open(g, path, next) - 1
  {
    assert Advanced(next)[..|next| - 1] == next[..|next| - 1];
  }

  /** A jump back onto the path: one more cycle is reported. */
  lemma InvLoops(g: Graph, all: set<string>, start: string, s: Search, v: string)
    requires Inv(g, all, start, s) && Offers(g, s, v) && v in s.path
    ensures var c := CanonicalCycle(s.path[IndexOf(s.path, v)..]);
            && Inv(g, all, start, s.(next := Advanced(s.next), cycles := s.cycles + {c}))
            && SimpleCycle(g, c) && StartsLeast(c)
  {
    var loop := s.path[IndexOf(s.path, v)..];
    var cycles := s.cycles + {CanonicalCycle(loop)};
    ClosesCycle(g, start, s.path, s.visited, v);
    CanonicalIsCycle(g, loop);
    LoopRecorded(g, all, start, s, v, CanonicalCycle(loop));
  }

  lemma LoopRecorded(g: Graph, all: set<string>, start: string, s: Search, v: string, c: seq<string>)
    requires Inv(g, all, start, s) && Offers(g, s, v) && v in s.path && (v == start ==> start in c)
    ensures Inv(g, all, start, s.(next := Advanced(s.next), cycles := s.cycles + {c}))
  {
    var cycles := s.cycles + {c};
    assert v == start ==> Reported(cycles, start);
    IteratorsGrow(g, start, s.path, s.next, s.visited, s.cycles, s.visited, cycles);
    IteratorAdvances(g, start, s, s.visited, cycles, v);
    FinishedGrows(g, start, s.path, s.visited, s.cycles, cycles);
  }

  /** A jump to a chain that was visited and left again. */
  lemma InvSkips(g: Graph, all: set<string>, start: string, s: Search, v: string)
    requires Inv(g, all, start, s) && Offers(g, s, v) && v in s.visited && v !in s.path
    ensures Inv(g, all, start, s.(next := Advanced(s.next)))
  {
    assert s.path[0] == start;
    IteratorAdvances(g, start, s, s.visited, s.cycles, v);
  }

  /** A jump to a new chain: the path grows. */
  lemma InvPushes(g: Graph, all: set<string>, start: string, s: Search, v: string)
    requires Inv(g, all, start, s) && Offers(g, s, v) && v !in s.visited && Closed(g, all)
    ensures v in all
    ensures Inv(g, all, start, Search(s.path + [v], Advanced(s.next) + [0], s.visited + {v}, s.cycles))
    ensures Elements(s.path + [v]) == Elements(s.path) + {v}
  {
    var visited := s.visited + {v};
    assert s.path[s.Top()] in s.visited;
    PathExtends(g, start, s.path, s.visited, v);
    IteratorsGrow(g, start, s.path, s.next, s.visited, s.cycles, visited, s.cycles);
    IteratorAdvances(g, start, s, visited, s.cycles, v);
    FinishedPushes(g, start, s.path, s.visited, s.cycles, v);
  }

  lemma OpenPushes(g: Graph, path: seq<string>, next: seq<nat>, v: string)
    requires |path| == |next|
    ensures Open(g, path + [v], next + [0]) == Open(g, path, next) + 1 + |Succ(g, v)|
  {
    assert (path + [v])[..|path|] == path && (next + [0])[..|next|] == next;
  }

  lemma {:induction false} OpenNonNegative(g: Graph, start: string, path: seq<string>, next: seq<nat>)
    requires |path| == |next| && forall i :: 0 <= i < |path| ==> next[i] <= |Succ(g, path[i])|
    ensures Open(g, path, next) >= |path|
  {
    if path != [] { OpenNonNegative(g, start, path[..|path| - 1], next[..|path| - 1]); }
  }

  /** What one turn of the search keeps and what it costs. */
  ghost predicate Progress(g: Graph, all: set<string>, start: string, s: Search, t: Search) {
    && Inv(g, all, start, t)
    && s.cycles <= t.cycles && (Sound(g, s.cycles) ==> Sound(g, t.cycles))
    && |s.path| == |s.next| && |t.path| == |t.next|
    && Open(g, t.path, t.next) + 1 + Cost(g, s.visited) == Open(g, s.path, s.next) + Cost(g, t.visited)
    && (s.visited == t.visited || s.visited < t.visited)
  }

  function Popped(s: Search): Search
    requires s.path != [] && |s.path| == |s.next|
  {
    s.(path := s.path[..s.Top()], next := s.next[..s.Top()])
  }

  function Looped(s: Search, v: string): Search
    requires v in s.path && s.next != []
  {
    s.(next := Advanced(s.next), cycles := s.cycles + {CanonicalCycle(s.path[IndexOf(s.path, v)..])})
  }

  function Skipped(s: Search): Search
    requires s.next != []
  {
    s.(next := Advanced(s.next))
  }

  function Pushed(s: Search, v: string): Search
    requires s.next != []
  {
    Search(s.path + [v], Advanced(s.next) + [0], s.visited + {v}, s.cycles)
  }

  lemma PopProgress(g: Graph, all: set<string>, start: string, s: Search)
    requires Inv(g, all, start, s) && s.path != [] && s.next[s.Top()] == |Succ(g, s.path[s.Top()])|
    ensures Progress(g, all, start, s, Popped(s)) && Elements(Popped(s).path) == Elements(s.path) - {s.path[s.Top()]}
  {
    InvPops(g, all, start, s);
  }

  lemma LoopProgress(g: Graph, all: set<string>, start: string, s: Search, v: string)
    requires Inv(g, all, start, s) && Offers(g, s, v) && v in s.path
    ensures Progress(g, all, start, s, Looped(s, v))
  {
    InvLoops(g, all, start, s, v);
    OpenAdvances(g, s.path, s.next);
    SoundGrows(g, s.cycles, CanonicalCycle(s.path[IndexOf(s.path, v)..]));
  }

  lemma SoundGrows(g: Graph, cycles: set<seq<string>>, c: seq<string>)
    requires SimpleCycle(g, c) && StartsLeast(c)
    ensures Sound(g, cycles) ==> Sound(g, cycles + {c})
  {
  }

  lemma SkipProgress(g: Graph, all: set<string>, start: string, s: Search, v: string)
    requires Inv(g, all, start, s) && Offers(g, s, v) && v in s.visited && v !in s.path
    ensures Progress(g, all, start, s, Skipped(s))
  {
    InvSkips(g, all, start, s, v);
    OpenAdvances(g, s.path, s.next);
  }

  lemma PushProgress(g: Graph, all: set<string>, start: string, s: Search, v: string)
    requires Inv(g, all, start, s) && Offers(g, s, v) && v !in s.visited && Closed(g, all)
    ensures Progress(g, all, start, s, Pushed(s, v)) && Elements(Pushed(s, v).path) == Elements(s.path) + {v}
  {
    InvPushes(g, all, start, s, v);
    OpenAdvances(g, s.path, s.next);
    OpenPushes(g, s.path, Advanced(s.next), v);
    CostAdd(g, s.visited, v);
  }

  /** One turn of the search: an exhausted chain is left, or the next jump is looked at. */
  method Turn(g: Graph, start: string, s: Search, onPath: set<string>, ghost all: set<string>)
    returns (t: Search, onPath': set<string>)
    requires Inv(g, all, start, s) && Closed(g, all) && s.path != [] && onPath == Elements(s.path)
    ensures Progress(g, all, start, s, t) && onPath' == Elements(t.path)
  {
    var top := |s.path| - 1;
    if s.next[top] == |Succ(g, s.path[top])| {
      PopProgress(g, all, start, s);
      return Popped(s), onPath - {s.path[top]};
    }
    var successor := Succ(g, s.path[top])[s.next[top]];
    assert Offers(g, s, successor);
    if successor in onPath {
      LoopProgress(g, all, start, s, successor);
      return Looped(s, successor), onPath;
    }
    if successor in s.visited {
      SkipProgress(g, all, start, s, successor);
      return Skipped(s), onPath;
    }
    PushProgress(g, all, start, s, successor);
    return Pushed(s, successor), onPath + {successor};
  }

  /** Searches from one start chain: one turn per chain reached and per jump out of it. */
  method SearchFrom(g: Graph, start: string, known: set<seq<string>>, ghost all: set<string>)
    returns (cycles: set<seq<string>>, ghost reached: set<string>, ghost steps: nat)
    requires Sound(g, known) && start in all && Closed(g, all)
    ensures known <= cycles && Sound(g, cycles)
    ensures start in reached && reached <= all
    ensures forall v :: v in reached ==> Seen(reached, cycles, start, Succ(g, v))
    ensures steps == Cost(g, reached)
  {
    var s, onPath := Search([start], [0], {start}, known), {start};
    steps := 0;
    InvStarts(g, all, start, known);
    while s.path != []
      invariant known <= s.cycles && Sound(g, s.cycles)
      invariant Inv(g, all, start, s) && onPath == Elements(s.path)
      invariant steps + Open(g, s.path, s.next) == Cost(g, s.visited)
      decreases all - s.visited, Open(g, s.path, s.next)
    {
      OpenNonNegative(g, start, s.path, s.next);
      s, onPath := Turn(g, start, s, onPath, all);
      steps := steps + 1;
    }
    cycles, reached := s.cycles, s.visited;
  }

  // --- all starts -------------------------------------------------------------

  /** What one search has seen covers every walk from its start. */
  lemma {:induction false} WalkStaysSeen(g: Graph, start: string, reached: set<string>,
                                         cycles: set<seq<string>>, w: seq<string>)
    requires forall v :: v in reached ==> Seen(reached, cycles, start, Succ(g, v))
    requires Walk(g, w) && w[0] in reached
    ensures w[|w| - 1] in reached
    ensures |w| > 1 && w[|w| - 1] == start ==> Reported(cycles, start)
  {
    if |w| > 1 {
      var shorter, last := w[..|w| - 1], w[|w| - 2];
      WalkStaysSeen(g, start, reached, cycles, shorter);
      assert w[|w| - 1] in Succ(g, last);
      var k :| 0 <= k < |Succ(g, last)| && Succ(g, last)[k] == w[|w| - 1];
      assert SeenOne(reached, cycles, start, Succ(g, last)[k]);
    }
  }

  lemma {:induction false} CostMonotone(g: Graph, a: set<string>, b: set<string>)
    requires a <= b
    ensures Cost(g, a) <= Cost(g, b)
    decreases b
  {
    if b <= a {
      assert a == b;
    } else {
      var v :| v in b && v !in a;
      assert (b - {v}) + {v} == b;
      CostAdd(g, b - {v}, v);
      CostMonotone(g, a, b - {v});
    }
  }

  lemma SearchCovers(g: Graph, start: string, reached: set<string>, cycles: set<seq<string>>)
    requires start in reached && forall v :: v in reached ==> Seen(reached, cycles, start, Succ(g, v))
    ensures OnCycle(g, start) ==> Reported(cycles, start)
  {
    forall w | |w| > 1 && Walk(g, w) && w[0] == start && w[|w| - 1] == start ensures Reported(cycles, start) {
      WalkStaysSeen(g, start, reached, cycles, w);
    }
  }

  /** Only a chain with jumps of its own lies on a cycle, so the keys are starts enough. */
  lemma CyclesHaveKeys(g: Graph, v: string)
    requires OnCycle(g, v)
    ensures v in g
  {
    var w :| |w| > 1 && Walk(g, w) && w[0] == v && w[|w| - 1] == v;
    assert w[1] in Succ(g, w[0]);
  }

  /**
   * Every reported tuple is a genuine simple cycle in canonical rotation, every chain on any
   * cycle appears in a reported one, and the work is bounded by chains times (chains plus jumps).
   */
  method FindCycles(g: Graph) returns (cycles: set<seq<string>>, ghost steps: nat)
    ensures Sound(g, cycles)
    ensures forall v :: OnCycle(g, v) ==> Reported(cycles, v)
    ensures steps <= |g.Keys| * Cost(g, Chains(g))
  {
    cycles, steps := {}, 0;
    var starts := g.Keys;
    ghost var all := Chains(g);
    ChainsClosed(g);
    while starts != {}
      invariant starts <= g.Keys && Sound(g, cycles)
      invariant forall v :: v in g && v !in starts && OnCycle(g, v) ==> Reported(cycles, v)
      invariant steps + |starts| * Cost(g, all) <= |g.Keys| * Cost(g, all)
    {
      var start :| start in starts;
      ghost var reached, turns;
      ghost var before := cycles;
      cycles, reached, turns := SearchFrom(g, start, cycles, all);
      SearchCovers(g, start, reached, cycles);
      CostMonotone(g, reached, all);
      ReportsKept(before, cycles);
      WorkLeft(starts, start, Cost(g, all));
      steps := steps + turns;
      starts := starts - {start};
    }
    forall v | OnCycle(g, v) ensures Reported(cycles, v) { CyclesHaveKeys(g, v); }
  }

  lemma WorkLeft(starts: set<string>, start: string, cost: nat)
    requires start in starts
    ensures |starts| * cost == |starts - {start}| * cost + cost
  {
    assert |starts - {start}| == |starts| - 1;
  }

  lemma ReportsKept(before: set<seq<string>>, after: set<seq<string>>)
    requires before <= after
    ensures forall v :: Reported(before, v) ==> Reported(after, v)
  {
  }

  /** Each chain of a simple cycle lies on a closed walk. */
  lemma SimpleCycleIsWalk(g: Graph, c: seq<string>, v: string)
    requires SimpleCycle(g, c) && v in c
    ensures OnCycle(g, v)
  {
    var k :| 0 <= k < |c| && c[k] == v;
    var r := Rotate(c, k);
    RotateKeepsCycle(g, c, k);
    RotateAt(c, k, 0);
    var w := r + [v];
    forall i, j | 0 <= i < |w| && j == i + 1 && j < |w| ensures w[j] in Succ(g, w[i]) {
      if j < |r| { assert r[j] in Succ(g, r[i]); }
    }
    assert Walk(g, w);
  }

  /** The report is empty exactly when no chain can jump back to itself. */
  lemma EmptyIffAcyclic(g: Graph, cycles: set<seq<string>>)
    requires Sound(g, cycles) && forall v :: OnCycle(g, v) ==> Reported(cycles, v)
    ensures cycles == {} <==> forall v :: !OnCycle(g, v)
  {
    if c :| c in cycles {
      SimpleCycleIsWalk(g, c, c[0]);
    }
  }

  // --- from jump edges ----------------------------------------------------------

  /** Turns the collected (source, target) edges into adjacency lists and searches them. */
  method FindJumpCycles(edges: set<(string, string)>) returns (g: Graph, cycles: set<seq<string>>)
    ensures forall s, t :: t in Succ(g, s) <==> (s, t) in edges
    ensures Sound(g, cycles) && (forall v :: OnCycle(g, v) ==> Reported(cycles, v))
    ensures cycles == {} <==> forall v :: !OnCycle(g, v)
  {
    g := map[];
    var left := edges;
    while left != {}
      invariant left <= edges
      invariant forall s, t :: t in Succ(g, s) <==> (s, t) in edges - left
    {
      var e :| e in left;
      ghost var g0 := g;
      g := g[e.0 := Succ(g, e.0) + [e.1]];
      left := left - {e};
      forall s, t ensures t in Succ(g, s) <==> (s, t) in edges - left {
        assert t in Succ(g0, s) <==> (s, t) in edges - (left + {e});
      }
    }
    ghost var steps;
    cycles, steps := FindCycles(g);
    EmptyIffAcyclic(g, cycles);
  }
}

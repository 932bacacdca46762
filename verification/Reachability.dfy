/** Which modules the entrypoints reach through imports, and how many source
    lines that covers. */
module Reachability {
  import opened Prefixes
  import opened Splitting

  // ----- the longest known prefix of an imported name -----

  ghost predicate IsDottedPrefix(prefix: string, name: string) {
    prefix == name || (|prefix| < |name| && name[..|prefix|] == prefix && name[|prefix|] == '.')
  }

  /** `known` resolves `name` to its longest non-empty dotted prefix among them. */
  ghost predicate Resolves(name: string, target: string, known: set<string>) {
    && target != "" && target in known && IsDottedPrefix(target, name)
    && forall p :: p in known && IsDottedPrefix(p, name) ==> |p| <= |target|
  }

  lemma ResolutionIsUnique(name: string, a: string, b: string, known: set<string>)
    requires Resolves(name, a, known) && Resolves(name, b, known)
    ensures a == b
  {
    assert name[..|a|] == a && name[..|b|] == b;
  }

  /** `name.rpartition(".")[0]`. */
  function BeforeLastDot(name: string): (head: string)
    ensures '.' !in name ==> head == ""
    ensures '.' in name ==>
      |head| < |name| && name[..|head|] == head && name[|head|] == '.'
      && forall k :: |head| < k < |name| ==> name[k] != '.'
  {
    if name == "" then ""
    else
      var front := name[..|name| - 1];
      assert name == front + [name[|name| - 1]];
      if name[|name| - 1] == '.' then front
      else
        BeforeLastDot(front)
  }

  /** Every dotted prefix of a name, other than the name, is one of what stands
      before its last dot. */
  lemma ShorterPrefixes(prefix: string, name: string)
    requires IsDottedPrefix(prefix, name) && prefix != name
    ensures '.' in name && IsDottedPrefix(prefix, BeforeLastDot(name))
  {
    var head := BeforeLastDot(name);
    assert name[|prefix|] == '.';
    if |prefix| < |head| {
      assert head[..|prefix|] == name[..|prefix|];
    }
  }

  method LongestKnownPrefix(name: string, known: set<string>) returns (candidate: string)
    ensures candidate != "" ==> Resolves(name, candidate, known)
    ensures candidate == "" ==> forall t :: !Resolves(name, t, known)
  {
    candidate := name;
    while candidate != "" && candidate !in known
      invariant candidate == "" || IsDottedPrefix(candidate, name)
      invariant forall p :: p in known && p != "" && IsDottedPrefix(p, name) ==> IsDottedPrefix(p, candidate)
      decreases |candidate|
    {
      forall p | p in known && p != "" && IsDottedPrefix(p, name)
        ensures IsDottedPrefix(p, BeforeLastDot(candidate))
      {
        ShorterPrefixes(p, candidate);
      }
      var shorter := BeforeLastDot(candidate);
      assert shorter != "" ==> IsDottedPrefix(shorter, name) by {
        if shorter != "" && candidate != name {
          assert name[..|shorter|] == candidate[..|shorter|];
        }
      }
      candidate := shorter;
    }
  }

  // ----- the least closed set -----

  type Imports = map<string, set<string>>

  ghost predicate ImportsModule(m: string, t: string, graph: Imports) {
    m in graph && exists name :: name in graph[m] && Resolves(name, t, graph.Keys)
  }

  /** A set of modules that holds the known entrypoints and everything its
      members import. */
  ghost predicate Admits(s: set<string>, entrypoints: seq<string>, graph: Imports) {
    && (forall e :: e in entrypoints && e in graph ==> e in s)
    && (forall m, t :: m in s && ImportsModule(m, t, graph) ==> t in s)
  }

  /** In every admitted set. */
  ghost predicate Forced(m: string, entrypoints: seq<string>, graph: Imports) {
    forall s :: Admits(s, entrypoints, graph) ==> m in s
  }

  lemma ImportsAreForced(m: string, t: string, entrypoints: seq<string>, graph: Imports)
    requires Forced(m, entrypoints, graph) && ImportsModule(m, t, graph)
    ensures Forced(t, entrypoints, graph)
  {
  }

  /** Everything `m` imports has been reached or waits in the queue. */
  ghost predicate Followed(m: string, names: set<string>, graph: Imports, reachable: set<string>, queue: seq<string>) {
    forall name, t :: name in names && Resolves(name, t, graph.Keys) ==> t in reachable || t in queue
  }

  /** What holds between two rounds of the worklist. */
  ghost predicate Underway(reachable: set<string>, queue: seq<string>, entrypoints: seq<string>, graph: Imports) {
    && reachable <= graph.Keys
    && (forall e :: e in entrypoints && e in graph ==> e in reachable || e in queue)
    && (forall m :: m in reachable ==> Followed(m, graph[m], graph, reachable, queue))
    && (forall m :: m in reachable ==> Forced(m, entrypoints, graph))
    && (forall m :: m in queue && m in graph ==> Forced(m, entrypoints, graph))
  }

  lemma FrontIsForced(reachable: set<string>, m: string, rest: seq<string>, entrypoints: seq<string>, graph: Imports)
    requires Underway(reachable, [m] + rest, entrypoints, graph)
    ensures m in graph ==> Forced(m, entrypoints, graph)
    ensures forall q :: q in rest && q in graph ==> Forced(q, entrypoints, graph)
  {
    assert m in [m] + rest && forall q :: q in rest ==> q in [m] + rest;
  }

  lemma FewerLeft(all: set<string>, reachable: set<string>, m: string)
    requires m in all && m !in reachable
    ensures |all - (reachable + {m})| < |all - reachable|
  {
    assert all - (reachable + {m}) == (all - reachable) - {m};
  }

  lemma SkippingGoesOn(reachable: set<string>, m: string, rest: seq<string>, entrypoints: seq<string>, graph: Imports)
    requires Underway(reachable, [m] + rest, entrypoints, graph) && (m in reachable || m !in graph)
    ensures Underway(reachable, rest, entrypoints, graph)
  {
    forall x | x in reachable ensures Followed(x, graph[x], graph, reachable, rest) {
      assert Followed(x, graph[x], graph, reachable, [m] + rest);
    }
    assert forall x :: x in rest ==> x in [m] + rest;
  }

  lemma ReachingGoesOn(reachable: set<string>, m: string, rest: seq<string>, queue: seq<string>, entrypoints: seq<string>,
                       graph: Imports)
    requires Underway(reachable, [m] + rest, entrypoints, graph) && m in graph && rest <= queue
    requires Followed(m, graph[m], graph, reachable + {m}, queue)
    requires forall q :: q in queue && q in graph ==> Forced(q, entrypoints, graph)
    ensures Underway(reachable + {m}, queue, entrypoints, graph)
  {
    assert m in [m] + rest;
    assert forall x :: x in rest ==> x in queue;
    forall x | x in reachable ensures Followed(x, graph[x], graph, reachable + {m}, queue) {
      assert Followed(x, graph[x], graph, reachable, [m] + rest);
    }
  }

  method ReachableModules(entrypoints: seq<string>, graph: Imports) returns (reachable: set<string>)
    ensures reachable <= graph.Keys
    ensures Admits(reachable, entrypoints, graph)
    ensures forall s :: Admits(s, entrypoints, graph) ==> reachable <= s
  {
    reachable := {};
    var queue := entrypoints;
    while queue != []
      invariant Underway(reachable, queue, entrypoints, graph)
      decreases |graph.Keys - reachable|, |queue|
    {
      var m, rest := queue[0], queue[1..];
      assert queue == [m] + rest;
      if m in reachable || m !in graph {
        SkippingGoesOn(reachable, m, rest, entrypoints, graph);
        queue := rest;
        continue;
      }
      FrontIsForced(reachable, m, rest, entrypoints, graph);
      var more := Follow(m, entrypoints, graph, reachable + {m}, rest);
      ReachingGoesOn(reachable, m, rest, more, entrypoints, graph);
      FewerLeft(graph.Keys, reachable, m);
      reachable, queue := reachable + {m}, more;
    }
    EmptyQueueAdmits(reachable, entrypoints, graph);
  }

  lemma EmptyQueueAdmits(reachable: set<string>, entrypoints: seq<string>, graph: Imports)
    requires Underway(reachable, [], entrypoints, graph)
    ensures Admits(reachable, entrypoints, graph)
    ensures forall s :: Admits(s, entrypoints, graph) ==> reachable <= s
  {
    forall m, t | m in reachable && ImportsModule(m, t, graph) ensures t in reachable {
      assert Followed(m, graph[m], graph, reachable, []);
    }
    forall s | Admits(s, entrypoints, graph) ensures reachable <= s {
      assert forall m :: m in reachable ==> Forced(m, entrypoints, graph);
    }
  }

  /** Queues what the module just reached imports, in whatever order its import
      set is walked. */
  method Follow(m: string, ghost entrypoints: seq<string>, graph: Imports, reachable: set<string>, rest: seq<string>)
    returns (queue: seq<string>)
    requires m in graph && Forced(m, entrypoints, graph)
    requires forall q :: q in rest && q in graph ==> Forced(q, entrypoints, graph)
    ensures rest <= queue
    ensures Followed(m, graph[m], graph, reachable, queue)
    ensures forall q :: q in queue && q in graph ==> Forced(q, entrypoints, graph)
  {
    queue := rest;
    var names := graph[m];
    while names != {}
      invariant names <= graph[m]
      invariant rest <= queue
      invariant Followed(m, graph[m] - names, graph, reachable, queue)
      invariant forall q :: q in queue && q in graph ==> Forced(q, entrypoints, graph)
      decreases |names|
    {
      var name :| name in names;
      names := names - {name};
      var candidate := LongestKnownPrefix(name, graph.Keys);
      if candidate != "" {
        assert ImportsModule(m, candidate, graph);
        ImportsAreForced(m, candidate, entrypoints, graph);
      }
      ghost var queued := queue;
      if candidate != "" && candidate !in reachable {
        queue := queue + [candidate];
      }
      forall n, t | n in graph[m] - names && Resolves(n, t, graph.Keys)
        ensures t in reachable || t in queue
      {
        if n == name {
          ResolutionIsUnique(name, t, candidate, graph.Keys);
        } else {
          assert n in graph[m] - (names + {name});
          assert t in reachable || t in queued;
        }
      }
    }
  }

  // ----- reached exactly when a chain of imports leads there -----

  ghost predicate IsChain(chain: seq<string>, entrypoints: seq<string>, graph: Imports) {
    && chain != [] && chain[0] in entrypoints && chain[0] in graph
    && forall k :: 1 <= k < |chain| ==> ImportsModule(chain[k - 1], chain[k], graph)
  }

  ghost predicate HasChain(m: string, entrypoints: seq<string>, graph: Imports) {
    exists chain :: IsChain(chain, entrypoints, graph) && chain[|chain| - 1] == m
  }

  lemma {:induction false} ChainStaysInside(chain: seq<string>, s: set<string>, entrypoints: seq<string>, graph: Imports)
    requires IsChain(chain, entrypoints, graph) && Admits(s, entrypoints, graph)
    ensures chain[|chain| - 1] in s
    decreases |chain|
  {
    if |chain| > 1 {
      var front := chain[..|chain| - 1];
      ChainStaysInside(front, s, entrypoints, graph);
      assert ImportsModule(chain[|chain| - 2], chain[|chain| - 1], graph);
    }
  }

  lemma ChainedModulesAreAdmitted(s: set<string>, entrypoints: seq<string>, graph: Imports)
    requires forall m :: m in s <==> m in graph && HasChain(m, entrypoints, graph)
    ensures Admits(s, entrypoints, graph)
  {
    forall e | e in entrypoints && e in graph ensures e in s {
      assert IsChain([e], entrypoints, graph);
      assert [e][|[e]| - 1] == e;
    }
    forall m, t | m in s && ImportsModule(m, t, graph) ensures t in s {
      var chain :| IsChain(chain, entrypoints, graph) && chain[|chain| - 1] == m;
      var longer := chain + [t];
      assert IsChain(longer, entrypoints, graph);
      assert longer[|longer| - 1] == t;
    }
  }

  /** The least admitted set holds exactly the modules that a chain of imports
      leads to from a known entrypoint. */
  lemma ReachedExactlyByChains(reachable: set<string>, m: string, entrypoints: seq<string>, graph: Imports)
    requires Admits(reachable, entrypoints, graph) && reachable <= graph.Keys
    requires forall s :: Admits(s, entrypoints, graph) ==> reachable <= s
    ensures m in reachable <==> HasChain(m, entrypoints, graph)
  {
    var chained := set x | x in graph.Keys && HasChain(x, entrypoints, graph);
    ChainedModulesAreAdmitted(chained, entrypoints, graph);
    assert reachable <= chained;
    if HasChain(m, entrypoints, graph) {
      var chain :| IsChain(chain, entrypoints, graph) && chain[|chain| - 1] == m;
      ChainStaysInside(chain, reachable, entrypoints, graph);
    }
  }

  // ----- line accounting -----

  datatype Source = Source(name: string, lines: nat)
  datatype Count = Count(total: int, reached: int)

  function TopLevel(name: string): string {
    if '.' in name then Split(name, '.')[1] else name
  }

  /** A group is what stands between the first and the second dot of a name, or the
      whole name where there is no dot. */
  lemma TopLevelIsTheSecondPart(first: string, second: string, rest: string)
    requires '.' !in first && '.' !in second && (rest == "" || rest[0] == '.')
    ensures TopLevel(first) == first
    ensures TopLevel(first + "." + second + rest) == second
  {
    var name := first + "." + second + rest;
    assert name[|first|] == '.';
    assert name == first + ['.'] + (second + rest);
    SplitAtSeparator(first, second + rest, '.');
    if rest == "" {
      assert second + rest == second;
      SplitWithoutSeparator(second, '.');
    } else {
      assert second + rest == second + ['.'] + rest[1..];
      SplitAtSeparator(second, rest[1..], '.');
    }
  }

  function Plus(a: Count, b: Count): Count {
    Count(a.total + b.total, a.reached + b.reached)
  }

  function Own(source: Source, reachable: set<string>): Count {
    Count(source.lines, if source.name in reachable then source.lines else 0)
  }

  function CountIn(groups: map<string, Count>, group: string): Count {
    if group in groups then groups[group] else Count(0, 0)
  }

  /** The counts per group after the sources have been gone through in order. */
  function Tally(sources: seq<Source>, reachable: set<string>): map<string, Count> {
    if sources == [] then map[]
    else
      var tally, last := Tally(sources[..|sources| - 1], reachable), sources[|sources| - 1];
      tally[TopLevel(last.name) := Plus(CountIn(tally, TopLevel(last.name)), Own(last, reachable))]
  }

  function LinesOf(sources: seq<Source>, reachable: set<string>): (c: Count)
    ensures 0 <= c.reached <= c.total
  {
    if sources == [] then Count(0, 0)
    else Plus(LinesOf(sources[..|sources| - 1], reachable), Own(sources[|sources| - 1], reachable))
  }

  lemma OneMore(sources: seq<Source>, source: Source, reachable: set<string>)
    ensures LinesOf(sources + [source], reachable) == Plus(LinesOf(sources, reachable), Own(source, reachable))
    ensures var tally, group := Tally(sources, reachable), TopLevel(source.name);
      Tally(sources + [source], reachable) == tally[group := Plus(CountIn(tally, group), Own(source, reachable))]
  {
    assert (sources + [source])[..|sources|] == sources;
  }

  /** Every source adds its lines to the total, and to the reached ones if it is reachable. */
  lemma LinesAddUp(sources: seq<Source>, source: Source, reachable: set<string>)
    ensures LinesOf([], reachable) == Count(0, 0)
    ensures var before, after := LinesOf(sources, reachable), LinesOf(sources + [source], reachable);
      && after.total == before.total + source.lines
      && (source.name in reachable ==> after.reached == before.reached + source.lines)
      && (source.name !in reachable ==> after.reached == before.reached)
  {
    OneMore(sources, source, reachable);
  }

  lemma OwnIsAdded(count: Count, source: Source, reachable: set<string>)
    ensures Plus(count, Own(source, reachable))
      == Count(count.total + source.lines, count.reached + if source.name in reachable then source.lines else 0)
  {
  }

  /** The step of the counting loop. */
  lemma SourceIsTallied(sources: seq<Source>, source: Source, reachable: set<string>)
    ensures var group, tally, lines := TopLevel(source.name), Tally(sources, reachable), LinesOf(sources, reachable);
      var count, more := CountIn(tally, group), if source.name in reachable then source.lines else 0;
      && Tally(sources + [source], reachable) == tally[group := Count(count.total + source.lines, count.reached + more)]
      && LinesOf(sources + [source], reachable) == Count(lines.total + source.lines, lines.reached + more)
  {
    OneMore(sources, source, reachable);
    OwnIsAdded(CountIn(Tally(sources, reachable), TopLevel(source.name)), source, reachable);
  }

  method CountLines(sources: seq<Source>, reachable: set<string>)
    returns (groups: map<string, Count>, total: int, reached: int, unreachable: int)
    ensures groups == Tally(sources, reachable)
    ensures Count(total, reached) == LinesOf(sources, reachable)
    ensures unreachable == total - reached && 0 <= unreachable
  {
    groups, total, reached := map[], 0, 0;
    ghost var done: seq<Source> := [];
    var i := 0;
    while i < |sources|
      invariant 0 <= i <= |sources|
      invariant done == sources[..i]
      invariant groups == Tally(done, reachable)
      invariant Count(total, reached) == LinesOf(done, reachable)
    {
      var source := sources[i];
      var group := TopLevel(source.name);
      SourceIsTallied(done, source, reachable);
      var count := CountIn(groups, group);
      count := count.(total := count.total + source.lines);
      total := total + source.lines;
      if source.name in reachable {
        count := count.(reached := count.reached + source.lines);
        reached := reached + source.lines;
      }
      groups := groups[group := count];
      PrefixGrows(sources, i);
      done := done + [source];
      i := i + 1;
    }
    WholePrefix(sources);
    unreachable := total - reached;
  }

  /** What a report listing the groups in some order adds up to. */
  function Listed(names: seq<string>, groups: map<string, Count>): Count {
    if names == [] then Count(0, 0) else Plus(CountIn(groups, names[0]), Listed(names[1..], groups))
  }

  ghost predicate Distinct(names: seq<string>) {
    forall j, k :: 0 <= j < k < |names| ==> names[j] != names[k]
  }

  lemma {:induction false} ListingOneMore(names: seq<string>, groups: map<string, Count>, group: string, own: Count)
    requires Distinct(names)
    ensures Listed(names, groups[group := Plus(CountIn(groups, group), own)])
      == if group in names then Plus(Listed(names, groups), own) else Listed(names, groups)
  {
    if names != [] {
      var rest := names[1..];
      assert names == [names[0]] + rest;
      assert Distinct(rest);
      ListingOneMore(rest, groups, group, own);
    }
  }

  lemma {:induction false} ListingNothing(names: seq<string>)
    ensures Listed(names, map[]) == Count(0, 0)
  {
    if names != [] {
      ListingNothing(names[1..]);
    }
  }

  /** A report that lists every group once, in any order, loses and doubles no
      line: the group counts add up to the overall ones. */
  lemma {:induction false} GroupsAddUp(names: seq<string>, sources: seq<Source>, reachable: set<string>)
    requires Distinct(names)
    requires forall k :: 0 <= k < |sources| ==> TopLevel(sources[k].name) in names
    ensures Listed(names, Tally(sources, reachable)) == LinesOf(sources, reachable)
    decreases |sources|
  {
    if sources == [] {
      ListingNothing(names);
    } else {
      var front, last := sources[..|sources| - 1], sources[|sources| - 1];
      GroupsAddUp(names, front, reachable);
      ListingOneMore(names, Tally(front, reachable), TopLevel(last.name), Own(last, reachable));
    }
  }

  function InGroup(sources: seq<Source>, group: string): seq<Source> {
    if sources == [] then []
    else
      InGroup(sources[..|sources| - 1], group)
      + if TopLevel(sources[|sources| - 1].name) == group then [sources[|sources| - 1]] else []
  }

  /** A group's sources are those whose name says so, in order. */
  lemma InGroupAppend(sources: seq<Source>, source: Source, group: string)
    ensures InGroup([], group) == []
    ensures TopLevel(source.name) == group ==> InGroup(sources + [source], group) == InGroup(sources, group) + [source]
    ensures TopLevel(source.name) != group ==> InGroup(sources + [source], group) == InGroup(sources, group)
  {
    assert (sources + [source])[..|sources|] == sources;
  }

  /** Each group counts exactly the sources that belong to it, and is listed
      when there is one. */
  lemma {:induction false} GroupHoldsItsSources(sources: seq<Source>, group: string, reachable: set<string>)
    ensures CountIn(Tally(sources, reachable), group) == LinesOf(InGroup(sources, group), reachable)
    ensures group in Tally(sources, reachable) <==> InGroup(sources, group) != []
  {
    if sources != [] {
      var front, last := sources[..|sources| - 1], sources[|sources| - 1];
      GroupHoldsItsSources(front, group, reachable);
      var others := InGroup(front, group);
      assert others + [] == others;
      OneMore(others, last, reachable);
    }
  }
}

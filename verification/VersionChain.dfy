/** `list_version_chain`: the Mongo worklist and the local fixpoint loop, both shown to return the
    connected component of a document under its supersedes links, sorted by version. */
module VersionChain {
  import opened Prelude

  datatype Node = Node(version: nat, supersedes: Option<string>)

  /** Present rows by document identifier; no identifier is empty (Normalised rows never have one). */
  type Docs = map<string, Node>

  /** `x` supersedes `y`, both present. */
  predicate Link(docs: Docs, x: string, y: string) {
    x in docs && y in docs && docs[x].supersedes == Some(y)
  }

  predicate HasPredecessor(docs: Docs, x: string) {
    x in docs && docs[x].supersedes.Some? && docs[x].supersedes.value in docs
  }

  /** The invariant of the store: a document is one version above the present document it supersedes. */
  ghost predicate Versioned(docs: Docs) {
    forall x, y :: Link(docs, x, y) ==> docs[x].version == docs[y].version + 1
  }

  /** Closed under links in both directions. */
  ghost predicate Closed(docs: Docs, c: set<string>) {
    forall x, y :: Link(docs, x, y) ==> (x in c <==> y in c)
  }

  /** The least set of present documents that holds `d` and is closed under links. */
  ghost predicate Component(docs: Docs, d: string, c: set<string>) {
    && d in c && c <= docs.Keys && Closed(docs, c)
    && forall other: set<string> :: d in other && Closed(docs, other) ==> c <= other
  }

  // ---- Sorting by version ---------------------------------------------------------

  function VersionOf(docs: Docs, x: string): nat {
    if x in docs then docs[x].version else 0
  }

  ghost predicate SortedByVersion(docs: Docs, s: seq<string>) {
    forall i, j :: 0 <= i < j < |s| ==> VersionOf(docs, s[i]) <= VersionOf(docs, s[j])
  }

  /** Stable insertion: after its equals. */
  function Insert(docs: Docs, s: seq<string>, x: string): (r: seq<string>)
    ensures multiset(r) == multiset(s) + multiset{x}
  {
    if s != [] && VersionOf(docs, x) < VersionOf(docs, s[|s| - 1]) then
      assert s == s[..|s| - 1] + [s[|s| - 1]];
      Insert(docs, s[..|s| - 1], x) + [s[|s| - 1]]
    else s + [x]
  }

  lemma {:induction false} InsertSorted(docs: Docs, s: seq<string>, x: string)
    requires SortedByVersion(docs, s)
    ensures SortedByVersion(docs, Insert(docs, s, x))
  {
    if s != [] && VersionOf(docs, x) < VersionOf(docs, s[|s| - 1]) {
      var init, r := s[..|s| - 1], Insert(docs, s[..|s| - 1], x);
      InsertSorted(docs, init, x);
      forall i | 0 <= i < |r| ensures VersionOf(docs, r[i]) <= VersionOf(docs, s[|s| - 1]) {
        assert r[i] in multiset(r);
        if r[i] != x { assert r[i] in multiset(init); assert r[i] in init; }
      }
    }
  }

  /** `sorted(rows, key=version)`. */
  function Sort(docs: Docs, s: seq<string>): (r: seq<string>)
    ensures multiset(r) == multiset(s)
  {
    if s == [] then []
    else
      assert s == s[..|s| - 1] + [s[|s| - 1]];
      Insert(docs, Sort(docs, s[..|s| - 1]), s[|s| - 1])
  }

  lemma {:induction false} SortSorted(docs: Docs, s: seq<string>)
    ensures SortedByVersion(docs, Sort(docs, s))
  {
    if s != [] {
      SortSorted(docs, s[..|s| - 1]);
      InsertSorted(docs, Sort(docs, s[..|s| - 1]), s[|s| - 1]);
    }
  }

  lemma SortElements(docs: Docs, s: seq<string>)
    ensures Elements(Sort(docs, s)) == Elements(s)
    ensures NoRepeats(s) ==> NoRepeats(Sort(docs, s))
    ensures SortedByVersion(docs, Sort(docs, s))
  {
    SortSorted(docs, s);
    var r := Sort(docs, s);
    forall x ensures x in r <==> x in s { assert x in multiset(r) <==> x in multiset(s); }
    NoRepeatsCounted(s);
    NoRepeatsCounted(r);
  }

  lemma AppendNoRepeats(s: seq<string>, x: string)
    requires NoRepeats(s) && x !in s
    ensures NoRepeats(s + [x]) && Elements(s + [x]) == Elements(s) + {x}
  {
  }

  // ---- The Mongo worklist -----------------------------------------------------------

  /** What both walks maintain about the rows collected so far. */
  ghost predicate Collected(docs: Docs, d: string, seen: seq<string>) {
    && NoRepeats(seen) && Elements(seen) <= docs.Keys
    && forall other: set<string> :: d in other && Closed(docs, other) ==> Elements(seen) <= other
  }

  /** Every collected row has its present predecessor collected. */
  ghost predicate ClosedBackward(docs: Docs, seen: seq<string>) {
    forall x, y :: Link(docs, x, y) && x in seen ==> y in seen
  }

  ghost predicate ClosedForward(docs: Docs, seen: seq<string>, done: set<string>) {
    forall x, y :: Link(docs, x, y) && y in done ==> x in seen
  }

  lemma CollectedGrows(docs: Docs, d: string, seen: seq<string>, x: string)
    requires Collected(docs, d, seen) && x in docs && x !in seen
    requires exists y :: y in seen && (Link(docs, x, y) || Link(docs, y, x))
    ensures Collected(docs, d, seen + [x])
  {
    AppendNoRepeats(seen, x);
    var y :| y in seen && (Link(docs, x, y) || Link(docs, y, x));
    forall other: set<string> | d in other && Closed(docs, other) ensures Elements(seen + [x]) <= other {
      assert y in Elements(seen);
    }
  }

  lemma CollectedAll(docs: Docs, d: string, seen: seq<string>)
    requires d in seen && Collected(docs, d, seen) && ClosedBackward(docs, seen)
    requires forall x, y :: Link(docs, x, y) && y in seen ==> x in seen
    ensures Component(docs, d, Elements(seen))
  {
  }

  /** The backward walk: `d` and its present ancestors, one version lower at each step. */
  method WalkBack(docs: Docs, d: string) returns (seen: seq<string>)
    requires Versioned(docs) && d in docs
    ensures seen != [] && seen[0] == d && Collected(docs, d, seen) && ClosedBackward(docs, seen)
  {
    seen := [d];
    var current := d;
    assert Elements(seen) == {d};
    while docs[current].supersedes.Some? && docs[current].supersedes.value in docs
      invariant current in docs && current in seen && seen[0] == d && Collected(docs, d, seen)
      invariant forall x, y :: Link(docs, x, y) && x in seen && x != current ==> y in seen
      invariant forall x :: x in seen ==> x in docs && docs[current].version <= docs[x].version
      decreases docs[current].version
    {
      var previous := docs[current].supersedes.value;
      assert Link(docs, current, previous);
      CollectedGrows(docs, d, seen, previous);
      seen := seen + [previous];
      current := previous;
    }
  }

  /** `find({"supersedes_document_id": id})`, in some order. */
  method Successors(docs: Docs, id: string) returns (rows: seq<string>)
    ensures forall x :: x in rows <==> Link(docs, x, id) || (x in docs && docs[x].supersedes == Some(id))
    ensures NoRepeats(rows)
  {
    rows := [];
    var left := docs.Keys;
    while left != {}
      invariant left <= docs.Keys && NoRepeats(rows)
      invariant forall x :: x in rows <==> x in docs && x !in left && docs[x].supersedes == Some(id)
      decreases left
    {
      var x :| x in left;
      left := left - {x};
      if docs[x].supersedes == Some(id) {
        AppendNoRepeats(rows, x);
        rows := rows + [x];
      }
    }
  }

  /** Adds the rows of `found` that are new, to the chain and to the frontier. */
  method AddNew(docs: Docs, ghost d: string, seen: seq<string>, frontier: seq<string>, found: seq<string>, id: string)
    returns (seen': seq<string>, frontier': seq<string>)
    requires id in seen && Collected(docs, d, seen) && ClosedBackward(docs, seen)
    requires forall x :: x in found ==> Link(docs, x, id)
    ensures Collected(docs, d, seen') && ClosedBackward(docs, seen')
    ensures forall x :: x in seen' <==> x in seen || x in found
    ensures seen <= seen'
    ensures forall x :: x in frontier' <==> x in frontier || (x in found && x !in seen)
  {
    seen', frontier' := seen, frontier;
    var i := 0;
    while i < |found|
      invariant 0 <= i <= |found|
      invariant Collected(docs, d, seen') && ClosedBackward(docs, seen') && seen <= seen'
      invariant forall x :: x in seen' <==> x in seen || x in found[..i]
      invariant forall x :: x in frontier' <==> x in frontier || (x in found[..i] && x !in seen)
    {
      assert found[..i + 1] == found[..i] + [found[i]];
      if found[i] !in seen' {
        assert id in seen' && Link(docs, found[i], id);
        CollectedGrows(docs, d, seen', found[i]);
        seen' := seen' + [found[i]];
        frontier' := frontier' + [found[i]];
      }
      i := i + 1;
    }
  }

  /** An absent identifier still has successors to find; it stands in the graph without a predecessor. */
  const ABSENT: Node := Node(0, None)

  function WithStart(docs: Docs, d: string): Docs {
    if d in docs then docs else docs[d := ABSENT]
  }

  /** The forward walk from everything collected so far. */
  method WalkForward(docs: Docs, d: string, start: seq<string>) returns (seen: seq<string>)
    requires start != [] && start[0] == d && Collected(docs, d, start) && ClosedBackward(docs, start)
    ensures seen != [] && seen[0] == d && NoRepeats(seen) && Component(docs, d, Elements(seen))
  {
    seen := start;
    var frontier := [d] + seen;
    var visited: set<string> := {};
    while frontier != []
      invariant seen != [] && seen[0] == d && Collected(docs, d, seen) && ClosedBackward(docs, seen)
      invariant forall x :: x in frontier ==> x in seen
      invariant forall x :: x in visited ==> x in seen
      invariant forall x :: x in seen ==> x in visited || x in frontier
      invariant ClosedForward(docs, seen, visited)
      decreases docs.Keys - visited, |frontier|
    {
      var id := frontier[|frontier| - 1];
      ghost var before := frontier;
      frontier := frontier[..|frontier| - 1];
      assert before == frontier + [id];
      if id !in visited {
        assert id in Elements(seen);
        visited := visited + {id};
        var found := Successors(docs, id);
        seen, frontier := AddNew(docs, d, seen, frontier, found, id);
      }
    }
    CollectedAll(docs, d, seen);
  }

  /** The Mongo path. The store's invariant is what makes the backward walk end; a document that is
      absent still yields the rows that descend from it. */
  method ListVersionChain(docs: Docs, d: string) returns (chain: seq<string>)
    requires Versioned(docs)
    ensures d in docs ==> Component(docs, d, Elements(chain))
    ensures d !in docs ==> d !in chain && Component(WithStart(docs, d), d, Elements(chain) + {d})
    ensures NoRepeats(chain) && SortedByVersion(docs, chain)
  {
    if d in docs {
      var seen := WalkBack(docs, d);
      seen := WalkForward(docs, d, seen);
      SortElements(docs, seen);
      chain := Sort(docs, seen);
    } else {
      var rows := WithStart(docs, d);
      assert Elements([d]) == {d};
      var seen := WalkForward(rows, d, [d]);
      assert seen == [d] + seen[1..];
      TailWithoutHead(seen);
      SortElements(docs, seen[1..]);
      chain := Sort(docs, seen[1..]);
      assert d in chain <==> d in Elements(chain);
    }
  }

  lemma TailWithoutHead(s: seq<string>)
    requires s != [] && NoRepeats(s)
    ensures NoRepeats(s[1..]) && s[0] !in s[1..] && Elements(s) == Elements(s[1..]) + {s[0]}
  {
    assert s == [s[0]] + s[1..];
  }

  lemma EmptyIfNoMember(s: seq<string>)
    ensures (forall x :: x !in s) ==> s == []
  {
    assert s != [] ==> s[0] in s;
  }

  /** On an absent document the Mongo path agrees with the local one, which returns nothing, exactly
      when no present row supersedes it. */
  lemma PathsAgreeOnAbsent(docs: Docs, d: string, chain: seq<string>)
    requires d !in docs && d !in chain && Component(WithStart(docs, d), d, Elements(chain) + {d})
    ensures chain == [] <==> forall x :: x in docs ==> docs[x].supersedes != Some(d)
  {
    var rows := WithStart(docs, d);
    assert forall x :: x in chain <==> x in Elements(chain);
    if forall x :: x in docs ==> docs[x].supersedes != Some(d) {
      assert Closed(rows, {d});
      assert Elements(chain) + {d} <= {d};
      assert forall x :: x !in chain;
      EmptyIfNoMember(chain);
    } else {
      var x :| x in docs && docs[x].supersedes == Some(d);
      assert Link(rows, x, d);
      assert x in Elements(chain);
    }
  }

  // ---- The local fixpoint loop ---------------------------------------------------------

  /** `_version_chain_local`: sweeps over all rows until none is added. It stops on any store, since the
      backward walk also stops at a row already collected. */
  method VersionChainLocal(docs: Docs, items: seq<string>, d: string) returns (chain: seq<string>)
    requires Elements(items) == docs.Keys
    ensures d !in docs ==> chain == []
    ensures d in docs ==> Component(docs, d, Elements(chain))
    ensures NoRepeats(chain) && SortedByVersion(docs, chain)
  {
    if d !in docs {
      return [];
    }
    var seen := LocalWalkBack(docs, d);
    var added := true;
    while added
      invariant d in seen && Collected(docs, d, seen) && ClosedBackward(docs, seen)
      invariant !added ==> forall x, y :: Link(docs, x, y) && y in seen ==> x in seen
      decreases docs.Keys - Elements(seen), if added then 1 else 0
    {
      seen, added := LocalSweep(docs, items, d, seen);
    }
    CollectedAll(docs, d, seen);
    SortElements(docs, seen);
    chain := Sort(docs, seen);
  }

  method LocalWalkBack(docs: Docs, d: string) returns (seen: seq<string>)
    requires d in docs
    ensures d in seen && Collected(docs, d, seen) && ClosedBackward(docs, seen)
  {
    seen := [d];
    assert Elements(seen) == {d};
    var current := d;
    while docs[current].supersedes.Some? && docs[current].supersedes.value !in seen
      && docs[current].supersedes.value in docs
      invariant current in docs && current in seen && d in seen && Collected(docs, d, seen)
      invariant forall x, y :: Link(docs, x, y) && x in seen && x != current ==> y in seen
      decreases docs.Keys - Elements(seen)
    {
      var previous := docs[current].supersedes.value;
      assert Link(docs, current, previous);
      CollectedGrows(docs, d, seen, previous);
      AppendNoRepeats(seen, previous);
      seen := seen + [previous];
      current := previous;
    }
  }

  method LocalSweep(docs: Docs, items: seq<string>, d: string, start: seq<string>)
      returns (seen: seq<string>, added: bool)
    requires Elements(items) == docs.Keys
    requires d in start && Collected(docs, d, start) && ClosedBackward(docs, start)
    ensures d in seen && Collected(docs, d, seen) && ClosedBackward(docs, seen)
    ensures Elements(start) <= Elements(seen)
    ensures added ==> Elements(start) < Elements(seen)
    ensures !added ==> seen == start && forall x, y :: Link(docs, x, y) && y in seen ==> x in seen
  {
    seen, added := start, false;
    var i := 0;
    while i < |items|
      invariant 0 <= i <= |items|
      invariant d in seen && Collected(docs, d, seen) && ClosedBackward(docs, seen)
      invariant Elements(start) <= Elements(seen)
      invariant added ==> Elements(start) < Elements(seen)
      invariant !added ==> seen == start && forall j :: 0 <= j < i ==>
        forall y :: Link(docs, items[j], y) && y in seen ==> items[j] in seen
    {
      var x := items[i];
      assert x in Elements(items);
      if docs[x].supersedes.Some? && docs[x].supersedes.value in seen && x !in seen {
        var y := docs[x].supersedes.value;
        assert y in Elements(seen);
        assert Link(docs, x, y);
        CollectedGrows(docs, d, seen, x);
        AppendNoRepeats(seen, x);
        assert x !in Elements(seen);
        seen := seen + [x];
        added := true;
      }
      i := i + 1;
    }
    if !added {
      forall x, y | Link(docs, x, y) && y in seen ensures x in seen {
        assert x in Elements(items);
        var j :| 0 <= j < |items| && items[j] == x;
      }
    }
  }

  /** The component is unique, so the two paths return the same set of rows. */
  lemma ComponentUnique(docs: Docs, d: string, a: set<string>, b: set<string>)
    requires Component(docs, d, a) && Component(docs, d, b)
    ensures a == b
  {
  }

  // ---- Versions without branching ---------------------------------------------------------

  /** The oldest present ancestor. */
  ghost function Root(docs: Docs, x: string): string
    requires Versioned(docs) && x in docs
    decreases docs[x].version
  {
    if HasPredecessor(docs, x) then
      assert Link(docs, x, docs[x].supersedes.value);
      Root(docs, docs[x].supersedes.value)
    else x
  }

  /** A family has one root. */
  lemma ComponentHasOneRoot(docs: Docs, d: string, c: set<string>, x: string)
    requires Versioned(docs) && d in docs && Component(docs, d, c) && x in c
    ensures Root(docs, x) == Root(docs, d)
  {
    var same := set y | y in docs && Root(docs, y) == Root(docs, d);
    assert Closed(docs, same);
  }

  ghost predicate Unbranched(docs: Docs, c: set<string>) {
    forall x, y, p :: x in c && y in c && Link(docs, x, p) && Link(docs, y, p) ==> x == y
  }

  lemma {:induction false} VersionsDistinct(docs: Docs, d: string, c: set<string>, x: string, y: string)
    requires Versioned(docs) && d in docs && Component(docs, d, c) && Unbranched(docs, c)
    requires x in c && y in c && docs[x].version == docs[y].version
    ensures x == y
    decreases docs[x].version
  {
    ComponentHasOneRoot(docs, d, c, x);
    ComponentHasOneRoot(docs, d, c, y);
    RootIsLowest(docs, x);
    RootIsLowest(docs, y);
    if HasPredecessor(docs, x) && HasPredecessor(docs, y) {
      var p, q := docs[x].supersedes.value, docs[y].supersedes.value;
      assert Link(docs, x, p) && Link(docs, y, q);
      VersionsDistinct(docs, d, c, p, q);
    }
  }

  lemma {:induction false} RootIsLowest(docs: Docs, x: string)
    requires Versioned(docs) && x in docs
    ensures Root(docs, x) in docs
    ensures if HasPredecessor(docs, x) then docs[Root(docs, x)].version < docs[x].version else Root(docs, x) == x
    decreases docs[x].version
  {
    if HasPredecessor(docs, x) {
      assert Link(docs, x, docs[x].supersedes.value);
      RootIsLowest(docs, docs[x].supersedes.value);
    }
  }

  /** When nothing branches, the sorted chain has consecutive version numbers. */
  lemma UnbranchedVersionsConsecutive(docs: Docs, d: string, chain: seq<string>, i: nat)
    requires Versioned(docs) && d in docs && Component(docs, d, Elements(chain)) && Unbranched(docs, Elements(chain))
    requires NoRepeats(chain) && SortedByVersion(docs, chain) && i + 1 < |chain|
    ensures VersionOf(docs, chain[i + 1]) == VersionOf(docs, chain[i]) + 1
  {
    var c := Elements(chain);
    var x, y := chain[i], chain[i + 1];
    assert x in c && y in c;
    assert x != y;
    if docs[x].version == docs[y].version { VersionsDistinct(docs, d, c, x, y); }
    ComponentHasOneRoot(docs, d, c, x);
    ComponentHasOneRoot(docs, d, c, y);
    RootIsLowest(docs, x);
    RootIsLowest(docs, y);
    var p := docs[y].supersedes.value;
    assert Link(docs, y, p);
    assert p in c;
    var k :| 0 <= k < |chain| && chain[k] == p;
    assert k <= i;
  }

  // ---- Where the paths part ---------------------------------------------------------------

  /** Where `n` steps of the backward walk lead, if it has not ended by then. */
  function StepsBack(docs: Docs, x: string, n: nat): Option<string>
    decreases n
  {
    if x !in docs then None
    else if n == 0 then Some(x)
    else match docs[x].supersedes case None => None case Some(p) => StepsBack(docs, p, n - 1)
  }

  ghost predicate WalkEnds(docs: Docs, x: string) {
    exists n: nat :: StepsBack(docs, x, n).None?
  }

  /** The walk comes to a row that it has been at before. */
  ghost predicate MeetsCycle(docs: Docs, x: string) {
    exists i: nat, j: nat :: i < j && StepsBack(docs, x, i).Some? && StepsBack(docs, x, i) == StepsBack(docs, x, j)
  }

  /** A walk of `m + n` steps goes on for `n` steps from where `m` steps lead. */
  lemma {:induction false} StepsCompose(docs: Docs, x: string, m: nat, n: nat)
    ensures StepsBack(docs, x, m + n) ==
      match StepsBack(docs, x, m) case None => None case Some(p) => StepsBack(docs, p, n)
    ensures StepsBack(docs, x, m + n).Some? ==> StepsBack(docs, x, m).Some?
    decreases m
  {
    if m == 0 {
      assert x !in docs ==> StepsBack(docs, x, n).None?;
    } else if x in docs && docs[x].supersedes.Some? {
      StepsCompose(docs, docs[x].supersedes.value, m - 1, n);
    }
  }

  /** Back at the same row after some steps, the walk goes round for ever. */
  lemma {:induction false} RoundForEver(docs: Docs, x: string, k: nat, n: nat)
    requires k > 0 && StepsBack(docs, x, k) == Some(x)
    ensures StepsBack(docs, x, n).Some?
    decreases n
  {
    if n <= k {
      StepsCompose(docs, x, n, k - n);
    } else {
      StepsCompose(docs, x, k, n - k);
      RoundForEver(docs, x, k, n - k);
    }
  }

  /** The rows of the first `n` steps. */
  ghost function Visited(docs: Docs, x: string, n: nat): set<string> {
    if n == 0 then {}
    else match StepsBack(docs, x, n - 1) case None => Visited(docs, x, n - 1)
      case Some(p) => Visited(docs, x, n - 1) + {p}
  }

  predicate IsAt(docs: Docs, x: string, i: nat, p: string) {
    StepsBack(docs, x, i) == Some(p)
  }

  lemma {:induction false} VisitedHolds(docs: Docs, x: string, n: nat, p: string)
    ensures p in Visited(docs, x, n) <==> exists i: nat :: i < n && IsAt(docs, x, i, p)
  {
    if n > 0 {
      VisitedHolds(docs, x, n - 1, p);
      assert p in Visited(docs, x, n) <==> p in Visited(docs, x, n - 1) || IsAt(docs, x, n - 1, p);
    }
  }

  lemma {:induction false} StepIsPresent(docs: Docs, x: string, n: nat)
    ensures StepsBack(docs, x, n).Some? ==> StepsBack(docs, x, n).value in docs
    decreases n
  {
    if n > 0 && x in docs && docs[x].supersedes.Some? { StepIsPresent(docs, docs[x].supersedes.value, n - 1); }
  }

  /** Without a cycle each step is at a new row. */
  lemma {:induction false} VisitedGrows(docs: Docs, x: string, n: nat)
    requires !MeetsCycle(docs, x) && forall i: nat :: i < n ==> StepsBack(docs, x, i).Some?
    ensures |Visited(docs, x, n)| == n && Visited(docs, x, n) <= docs.Keys
  {
    if n > 0 {
      VisitedGrows(docs, x, n - 1);
      StepIsPresent(docs, x, n - 1);
      var p := StepsBack(docs, x, n - 1).value;
      VisitedHolds(docs, x, n - 1, p);
      assert forall i: nat :: i < n - 1 ==> !IsAt(docs, x, i, p);
    }
  }

  lemma SubsetIsSmaller(a: set<string>, b: set<string>)
    requires a <= b
    ensures |a| <= |b|
  {
    assert b == a + (b - a);
  }

  /** On any store, the backward walk ends if and only if it meets no cycle. */
  lemma WalkEndsIffNoCycle(docs: Docs, x: string)
    ensures WalkEnds(docs, x) <==> !MeetsCycle(docs, x)
  {
    if MeetsCycle(docs, x) {
      var i: nat, j: nat :| i < j && StepsBack(docs, x, i).Some? && StepsBack(docs, x, i) == StepsBack(docs, x, j);
      var p := StepsBack(docs, x, i).value;
      StepsCompose(docs, x, i, j - i);
      forall n: nat ensures StepsBack(docs, x, n).Some? {
        if n < i {
          StepsCompose(docs, x, n, i - n);
        } else {
          RoundForEver(docs, p, j - i, n - i);
          StepsCompose(docs, x, i, n - i);
        }
      }
    } else if !WalkEnds(docs, x) {
      var n := |docs| + 1;
      assert forall i: nat :: StepsBack(docs, x, i).Some?;
      VisitedGrows(docs, x, n);
      SubsetIsSmaller(Visited(docs, x, n), docs.Keys);
      assert false;
    }
  }

  lemma {:induction false} VersionedWalkEnds(docs: Docs, x: string)
    requires Versioned(docs) && x in docs
    ensures WalkEnds(docs, x)
    decreases docs[x].version
  {
    if HasPredecessor(docs, x) {
      var p := docs[x].supersedes.value;
      assert Link(docs, x, p);
      VersionedWalkEnds(docs, p);
      var n: nat :| StepsBack(docs, p, n).None?;
      assert StepsBack(docs, x, n + 1).None?;
    } else {
      assert StepsBack(docs, x, 1).None?;
    }
  }
}

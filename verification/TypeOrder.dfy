/** `topo_order` of `crates/pglite/src/replica/backfill.rs`: user-defined types in an order in
    which each comes after the types it needs. */
module TypeOrder {
  import opened Wrappers
  import PgOutput

  type Oid = PgOutput.U32

  /** The definition itself is carried along. */
  type TypeDef = string

  datatype Item = Item(oid: Oid, deps: seq<Oid>, def: TypeDef)

  /** The position of each oid; of equal oids the last. */
  function IndexOf(items: seq<Item>): (index: map<Oid, nat>)
    ensures forall d | d in index :: index[d] < |items| && items[index[d]].oid == d
    ensures forall i | 0 <= i < |items| :: items[i].oid in index
  {
    if items == [] then map[]
    else
      var n := |items| - 1;
      IndexOf(items[..n])[items[n].oid := n]
  }

  /** Item `i` needs item `j`. */
  predicate Needs(items: seq<Item>, i: nat, j: nat) {
    i < |items| && exists k :: 0 <= k < |items[i].deps| && Points(items, items[i].deps[k], j)
  }

  predicate Points(items: seq<Item>, d: Oid, j: nat) { d in IndexOf(items) && IndexOf(items)[d] == j }

  lemma {:induction false} IndexIsLast(items: seq<Item>, d: Oid)
    ensures d in IndexOf(items) ==> forall k | IndexOf(items)[d] < k < |items| :: items[k].oid != d
  {
    if items == [] {
    } else {
      IndexIsLast(items[..|items| - 1], d);
    }
  }

  /** An item needs the items whose oids it names; of items with one oid, the last. */
  lemma NeedsAreNamed(items: seq<Item>, i: nat, j: nat)
    ensures Needs(items, i, j) <==>
            && i < |items| && j < |items| && items[j].oid in items[i].deps
            && forall k | j < k < |items| :: items[k].oid != items[j].oid
  {
    hide IndexOf;
    if j < |items| {
      IndexIsLast(items, items[j].oid);
    }
    if i < |items| && j < |items| && items[j].oid in items[i].deps {
      var k :| 0 <= k < |items[i].deps| && items[i].deps[k] == items[j].oid;
    }
  }

  /** A walk along needs that comes back to where it started. */
  predicate Cycle(items: seq<Item>, p: seq<nat>) {
    |p| >= 2 && p[0] == p[|p| - 1] && forall i | 0 <= i < |p| - 1 :: Needs(items, p[i], p[i + 1])
  }

  ghost predicate HasCycle(items: seq<Item>) { exists p :: Cycle(items, p) }

  // ---- Orders ----

  predicate Distinct(s: seq<nat>) { forall i, j | 0 <= i < j < |s| :: s[i] != s[j] }

  predicate Bounded(s: seq<nat>, n: nat) { forall i | 0 <= i < |s| :: s[i] < n }

  predicate Permutation(order: seq<nat>, n: nat) {
    |order| == n && Distinct(order) && Bounded(order, n)
  }

  /** Everything the item at a place needs is at an earlier place. */
  ghost predicate NeedsFirst(items: seq<Item>, order: seq<nat>) {
    forall q | 0 <= q < |order| :: forall j: nat | Needs(items, order[q], j) :: j in order[..q]
  }

  lemma Without(s: seq<nat>, i: nat, n: nat)
    requires Distinct(s) && Bounded(s, n) && i < |s| && s[i] == n - 1
    ensures Distinct(s[..i] + s[i + 1..]) && Bounded(s[..i] + s[i + 1..], n - 1)
  {
  }

  lemma {:induction false} DistinctIsShort(s: seq<nat>, n: nat)
    requires Distinct(s) && Bounded(s, n)
    ensures |s| <= n
    decreases n
  {
    if s == [] {
    } else {
      var first := s[0];
      if n == 0 {
        assert false;
      } else if i: nat :| i < |s| && s[i] == n - 1 {
        Without(s, i, n);
        DistinctIsShort(s[..i] + s[i + 1..], n - 1);
      } else {
        DistinctIsShort(s, n - 1);
      }
    }
  }

  lemma {:induction false} PermutationHasAll(order: seq<nat>, n: nat, v: nat)
    requires Permutation(order, n) && v < n
    ensures v in order
  {
    if v !in order {
      DistinctIsShort(order + [v], n);
      assert false;
    }
  }

  /** Along a cycle the places would fall for ever. */
  lemma {:induction false} WalkGoesBack(items: seq<Item>, order: seq<nat>, p: seq<nat>, m: nat, q: nat) returns (r: nat)
    requires NeedsFirst(items, order) && Distinct(order)
    requires m < |p| && forall i | 0 <= i < |p| - 1 :: Needs(items, p[i], p[i + 1])
    requires q < |order| && p[0] == order[q]
    ensures r <= q && order[r] == p[m] && (m > 0 ==> r < q)
  {
    if m == 0 {
      r := q;
    } else {
      r := WalkGoesBack(items, order, p, m - 1, q);
      assert Needs(items, order[r], p[m]);
      var j :| 0 <= j < r && order[j] == p[m];
      r := j;
    }
  }

  lemma OrderedHasNoCycle(items: seq<Item>, order: seq<nat>, p: seq<nat>)
    requires Permutation(order, |items|) && NeedsFirst(items, order)
    ensures !Cycle(items, p)
  {
    if Cycle(items, p) {
      assert Needs(items, p[0], p[1]);
      PermutationHasAll(order, |items|, p[0]);
      var q :| 0 <= q < |order| && order[q] == p[0];
      var r := WalkGoesBack(items, order, p, |p| - 1, q);
      assert false;
    }
  }

  // ---- The search ----

  /** A node under way and the number of its dependencies already looked at. */
  datatype Frame = Frame(node: nat, looked: nat)

  function Nodes(stack: seq<Frame>): (ns: seq<nat>)
    ensures |ns| == |stack| && forall i | 0 <= i < |stack| :: ns[i] == stack[i].node
  {
    seq(|stack|, i requires 0 <= i < |stack| => stack[i].node)
  }

  /** The first `k` dependencies of the node are done. */
  ghost predicate Looked(items: seq<Item>, state: seq<int>, node: nat, k: nat) {
    && node < |items| && k <= |items[node].deps| && |state| == |items|
    && forall m, j: nat | 0 <= m < k && j < |state| && Points(items, items[node].deps[m], j) :: state[j] == 2
  }

  /** The last dependency looked at is the node `to`; those before it are done. */
  ghost predicate Waits(items: seq<Item>, state: seq<int>, f: Frame, to: nat) {
    && f.looked > 0 && Looked(items, state, f.node, f.looked - 1) && f.looked <= |items[f.node].deps|
    && Points(items, items[f.node].deps[f.looked - 1], to)
  }

  /** The nodes under way: the stack is the path being searched, every frame below the top
      waits for the next, and exactly the nodes on it are marked, the top perhaps not yet. */
  ghost predicate GreyPath(items: seq<Item>, state: seq<int>, stack: seq<Frame>) {
    && |state| == |items| && Distinct(Nodes(stack)) && Bounded(Nodes(stack), |items|)
    && (forall i | 0 <= i < |stack| - 1 ::
          Waits(items, state, stack[i], stack[i + 1].node) && state[stack[i].node] == 1)
    && (stack != [] ==>
          var top := stack[|stack| - 1];
          && Looked(items, state, top.node, top.looked)
          && state[top.node] == if top.looked == 0 then 0 else 1)
    && forall v: nat | v < |state| && state[v] == 1 :: v in Nodes(stack)
  }

  ghost predicate BlackOrder(items: seq<Item>, state: seq<int>, order: seq<nat>) {
    && |state| == |items| && Distinct(order) && Bounded(order, |items|) && NeedsFirst(items, order)
    && (forall v | 0 <= v < |state| :: state[v] in {0, 1, 2})
    && forall v | 0 <= v < |state| :: state[v] == 2 <==> v in order
  }

  /** The inner loop: the first dependency at or after `di` that is not done. */
  method Scan(items: seq<Item>, index: map<Oid, nat>, state: array<int>, node: nat, di: nat)
    returns (k: nat, found: Option<nat>, grey: bool)
    requires index == IndexOf(items) && state.Length == |items| && node < |items|
    requires forall v | 0 <= v < |items| :: state[v] in {0, 1, 2}
    requires Looked(items, state[..], node, di)
    ensures Looked(items, state[..], node, di)
    ensures found.None? && !grey ==> k == |items[node].deps| && Looked(items, state[..], node, k)
    ensures found.Some? ==> found.value < |items| && Waits(items, state[..], Frame(node, k), found.value)
    ensures found.Some? ==> state[found.value] == if grey then 1 else 0
    ensures grey ==> found.Some?
  {
    var deps := items[node].deps;
    k, found, grey := di, None, false;
    while k < |deps|
      invariant di <= k <= |deps| && Looked(items, state[..], node, k)
    {
      var dep := deps[k];
      k := k + 1;
      if dep in index {
        var j := index[dep];
        assert Points(items, dep, j);
        if state[j] == 0 {
          return k, Some(j), false;
        }
        if state[j] == 1 {
          return k, Some(j), true;
        }
      }
    }
  }

  /** The path with its top node marked. */
  ghost predicate Open(items: seq<Item>, state: seq<int>, stack: seq<Frame>) {
    && stack != [] && |state| == |items| && Distinct(Nodes(stack)) && Bounded(Nodes(stack), |items|)
    && (forall i | 0 <= i < |stack| - 1 :: Waits(items, state, stack[i], stack[i + 1].node))
    && (forall i | 0 <= i < |stack| :: stack[i].node < |state| && state[stack[i].node] == 1)
    && forall v: nat | v < |state| && state[v] == 1 :: v in Nodes(stack)
  }

  lemma LookedUnmarked(items: seq<Item>, state: seq<int>, node: nat, k: nat, v: nat, mark: int)
    requires Looked(items, state, node, k) && v < |state| && state[v] != 2
    ensures Looked(items, state[v := mark], node, k)
  {
  }

  lemma MarkTop(items: seq<Item>, state: seq<int>, stack: seq<Frame>, order: seq<nat>)
    requires GreyPath(items, state, stack) && BlackOrder(items, state, order) && stack != []
    ensures var top := stack[|stack| - 1];
            && top.node < |state| && Looked(items, state[top.node := 1], top.node, top.looked)
            && Open(items, state[top.node := 1], stack) && BlackOrder(items, state[top.node := 1], order)
  {
  }

  lemma PushKeeps(items: seq<Item>, state: seq<int>, stack: seq<Frame>, k: nat, j: nat)
    requires Open(items, state, stack) && j < |state| && state[j] == 0
    requires Waits(items, state, Frame(stack[|stack| - 1].node, k), j)
    ensures GreyPath(items, state, stack[..|stack| - 1] + [Frame(stack[|stack| - 1].node, k), Frame(j, 0)])
  {
    hide Points;
    var n := |stack| - 1;
    var after := stack[..n] + [Frame(stack[n].node, k), Frame(j, 0)];
    var ns := Nodes(stack);
    assert Nodes(after) == ns + [j];
    assert forall i | 0 <= i <= n :: ns[i] != j;
    assert forall i | 0 <= i <= n :: after[i].node == stack[i].node;
    forall i | 0 <= i < |after| - 1
      ensures Waits(items, state, after[i], after[i + 1].node) && state[after[i].node] == 1
    {
      if i < n {
        assert after[i] == stack[i] && after[i + 1].node == stack[i + 1].node;
      }
    }
    forall v: nat | v < |state| && state[v] == 1
      ensures v in Nodes(after)
    {
      assert v in ns;
    }
  }

  lemma LookedMore(items: seq<Item>, state: seq<int>, node: nat, k: nat, done: nat)
    requires Looked(items, state, node, k) && done < |state|
    ensures Looked(items, state[done := 2], node, k)
    ensures k < |items[node].deps| && Points(items, items[node].deps[k], done) ==>
      Looked(items, state[done := 2], node, k + 1)
  {
  }

  lemma DoneNodeIsLast(items: seq<Item>, state: seq<int>, node: nat, order: seq<nat>)
    requires BlackOrder(items, state, order) && node < |items| && state[node] == 1
    requires Looked(items, state, node, |items[node].deps|)
    ensures BlackOrder(items, state[node := 2], order + [node])
  {
    var after := order + [node];
    forall q | 0 <= q < |after|
      ensures forall j: nat | Needs(items, after[q], j) :: j in after[..q]
    {
      assert after[..q] == order[..q];
      if q < |order| {
        assert after[q] == order[q];
      } else {
        assert order[..q] == order;
        forall j: nat | Needs(items, node, j)
          ensures j in order
        {
          assert state[j] == 2;
        }
      }
    }
  }

  /** A frame below the top still waits for its node when the top is done; if its node was
      the top, all it looked at is done. */
  lemma PopWaits(items: seq<Item>, state: seq<int>, f: Frame, to: nat, done: nat)
    requires Waits(items, state, f, to) && done < |state|
    ensures Waits(items, state[done := 2], f, to)
    ensures to == done ==> Looked(items, state[done := 2], f.node, f.looked)
  {
    LookedMore(items, state, f.node, f.looked - 1, done);
  }

  lemma PopKeeps(items: seq<Item>, state: seq<int>, stack: seq<Frame>)
    requires Open(items, state, stack)
    ensures var node := stack[|stack| - 1].node;
            node < |state| && GreyPath(items, state[node := 2], stack[..|stack| - 1])
  {
    var n := |stack| - 1;
    var node := stack[n].node;
    assert Nodes(stack)[n] == node && node < |state|;
    var after, rest := state[node := 2], stack[..n];
    forall i | 0 <= i < n
      ensures Waits(items, after, rest[i], stack[i + 1].node)
      ensures i == n - 1 ==> Looked(items, after, rest[i].node, rest[i].looked)
    {
      assert Waits(items, state, stack[i], stack[i + 1].node);
      PopWaits(items, state, stack[i], stack[i + 1].node, node);
    }
    PopMarks(state, stack);
    BelowTop(items, after, rest, stack);
  }

  lemma PopMarks(state: seq<int>, stack: seq<Frame>)
    requires stack != [] && Distinct(Nodes(stack)) && Bounded(Nodes(stack), |state|)
    requires forall i | 0 <= i < |stack| :: stack[i].node < |state| && state[stack[i].node] == 1
    requires forall v: nat | v < |state| && state[v] == 1 :: v in Nodes(stack)
    ensures var n := |stack| - 1;
            var node, rest := stack[n].node, stack[..n];
            && node < |state| && Nodes(rest) == Nodes(stack)[..n]
            && (forall i | 0 <= i < n :: rest[i].node < |state| && state[node := 2][rest[i].node] == 1)
            && forall v: nat | v < |state| && state[node := 2][v] == 1 :: v in Nodes(rest)
  {
  }

  lemma BelowTop(items: seq<Item>, after: seq<int>, rest: seq<Frame>, stack: seq<Frame>)
    requires stack != [] && rest == stack[..|stack| - 1] && |after| == |items|
    requires Distinct(Nodes(stack)) && Bounded(Nodes(stack), |items|)
    requires Nodes(rest) == Nodes(stack)[..|rest|]
    requires forall i | 0 <= i < |rest| :: rest[i].node < |after| && after[rest[i].node] == 1
    requires forall i | 0 <= i < |rest| :: Waits(items, after, rest[i], stack[i + 1].node)
    requires rest != [] ==> var f := rest[|rest| - 1]; Looked(items, after, f.node, f.looked)
    requires forall v: nat | v < |after| && after[v] == 1 :: v in Nodes(rest)
    ensures GreyPath(items, after, rest)
  {
    hide Looked;
    hide Points;
    forall i | 0 <= i < |rest| - 1
      ensures Waits(items, after, rest[i], rest[i + 1].node)
    {
      assert rest[i + 1] == stack[i + 1];
    }
    if rest != [] {
      assert Waits(items, after, rest[|rest| - 1], stack[|rest|].node);
    }
  }

  /** A dependency on a node that is under way closes a cycle. */
  lemma GreyGivesCycle(items: seq<Item>, state: seq<int>, stack: seq<Frame>, k: nat, j: nat) returns (p: seq<nat>)
    requires Open(items, state, stack) && j < |state| && state[j] == 1
    requires Waits(items, state, Frame(stack[|stack| - 1].node, k), j)
    ensures Cycle(items, p)
  {
    hide Waits;
    hide Needs;
    hide Open;
    var ns := Nodes(stack);
    var a := GreyIsOn(items, state, stack, j);
    p := ns[a..] + [j];
    forall i | 0 <= i < |p| - 1
      ensures Needs(items, p[i], p[i + 1])
    {
      assert p[i] == ns[a + i];
      if a + i < |ns| - 1 {
        assert p[i + 1] == ns[a + i + 1];
        PathNeeds(items, state, stack, a + i);
      } else {
        WaitsNeeds(items, state, Frame(stack[|stack| - 1].node, k), j);
      }
    }
  }

  lemma GreyIsOn(items: seq<Item>, state: seq<int>, stack: seq<Frame>, j: nat) returns (a: nat)
    requires Open(items, state, stack) && j < |state| && state[j] == 1
    ensures a < |stack| && stack[a].node == j
  {
    hide Waits;
    var ns := Nodes(stack);
    a :| a < |ns| && ns[a] == j;
  }

  lemma PathNeeds(items: seq<Item>, state: seq<int>, stack: seq<Frame>, m: nat)
    requires Open(items, state, stack) && m < |stack| - 1
    ensures Needs(items, stack[m].node, stack[m + 1].node)
  {
  }

  lemma WaitsNeeds(items: seq<Item>, state: seq<int>, f: Frame, to: nat)
    requires Waits(items, state, f, to)
    ensures Needs(items, f.node, to)
  {
  }

  /** The definitions in the order found. */
  function DefsOf(items: seq<Item>, order: seq<nat>): seq<TypeDef>
    requires Bounded(order, |items|)
  {
    seq(|order|, q requires 0 <= q < |order| => items[order[q]].def)
  }

  lemma StartKeeps(items: seq<Item>, state: seq<int>, start: nat)
    requires GreyPath(items, state, []) && start < |items| && state[start] == 0
    ensures GreyPath(items, state, [Frame(start, 0)])
  {
  }

  lemma StackIsShort(items: seq<Item>, state: seq<int>, stack: seq<Frame>, order: seq<nat>)
    requires GreyPath(items, state, stack) && BlackOrder(items, state, order)
    ensures |stack| <= |items| && |order| <= |items|
  {
    DistinctIsShort(Nodes(stack), |items|);
    DistinctIsShort(order, |items|);
  }

  /** The search started at one node has ended: it is done, or the top closes a cycle. */
  method Visit(items: seq<Item>, index: map<Oid, nat>, state: array<int>, start: nat, order: seq<nat>)
    returns (more: seq<nat>, failed: bool)
    requires index == IndexOf(items) && state.Length == |items| && start < |items| && state[start] == 0
    requires GreyPath(items, state[..], []) && BlackOrder(items, state[..], order)
    modifies state
    ensures failed ==> HasCycle(items)
    ensures !failed ==> GreyPath(items, state[..], []) && BlackOrder(items, state[..], more) && state[start] == 2
    ensures !failed ==> forall v | 0 <= v < |items| && old(state[v]) == 2 :: state[v] == 2
  {
    hide IndexOf;
    hide Cycle;
    hide Bounded;
    hide Looked;
    hide Open;
    hide Waits;
    hide NeedsFirst;
    hide Distinct;
    failed := false;
    var stack := [Frame(start, 0)];
    more := order;
    StartKeeps(items, state[..], start);
    StackIsShort(items, state[..], stack, more);
    while stack != []
      invariant GreyPath(items, state[..], stack) && BlackOrder(items, state[..], more)
      invariant if stack == [] then state[start] == 2 else stack[0].node == start
      invariant forall v | 0 <= v < |items| && old(state[v]) == 2 :: state[v] == 2
      invariant |stack| <= |items| && |more| <= |items|
      decreases |items| - |more|, |items| - |stack|
    {
      var Frame(node, di) := stack[|stack| - 1];
      ghost var before := state[..];
      MarkTop(items, before, stack, more);
      if di == 0 {
        state[node] := 1;
      }
      assert state[..] == before[node := 1];
      assert node < |items|;
      var k, next, grey := Scan(items, index, state, node, di);
      if grey {
        ghost var p := GreyGivesCycle(items, state[..], stack, k, next.value);
        return more, true;
      }
      if next.Some? {
        PushKeeps(items, state[..], stack, k, next.value);
        stack := stack[..|stack| - 1] + [Frame(node, k), Frame(next.value, 0)];
      } else {
        ghost var marked := state[..];
        assert marked[node] == 1;
        DoneNodeIsLast(items, marked, node, more);
        PopKeeps(items, marked, stack);
        state[node] := 2;
        assert state[..] == marked[node := 2];
        more := more + [node];
        stack := stack[..|stack| - 1];
      }
      StackIsShort(items, state[..], stack, more);
    }
  }

  lemma AllDone(items: seq<Item>, state: seq<int>, order: seq<nat>)
    requires BlackOrder(items, state, order) && forall v | 0 <= v < |items| :: state[v] == 2
    ensures Permutation(order, |items|)
  {
    DistinctIsShort(order, |items|);
    HasAllIsLong(order, |items|);
  }

  /** Every type once, each after all it needs; refused exactly when the needs have a cycle,
      a type that needs itself included. */
  method TopoOrder(items: seq<Item>) returns (r: Result<seq<TypeDef>>, ghost order: seq<nat>)
    ensures r.Success? ==> Permutation(order, |items|) && NeedsFirst(items, order)
    ensures r.Success? ==>
              |r.value| == |items| && forall q | 0 <= q < |items| :: r.value[q] == items[order[q]].def
    ensures r.Failure? ==> r.error == ReplicaConfig
    ensures r.Failure? <==> HasCycle(items)
  {
    var index := IndexOf(items);
    var n := |items|;
    assert BlackOrder(items, seq(n, _ => 0), []);
    hide NeedsFirst;
    hide Looked;
    hide Cycle;
    var state := new int[n](_ => 0);
    var found: seq<nat> := [];
    for start := 0 to n
      invariant GreyPath(items, state[..], []) && BlackOrder(items, state[..], found)
      invariant forall v | 0 <= v < start :: state[v] == 2
    {
      if state[start] != 0 {
        continue;
      }
      var more, failed := Visit(items, index, state, start, found);
      if failed {
        return Failure(ReplicaConfig), [];
      }
      found := more;
    }
    order := found;
    AllDone(items, state[..], found);
    forall p
      ensures !Cycle(items, p)
    {
      OrderedHasNoCycle(items, found, p);
    }
    r := Success(DefsOf(items, found));
  }

  lemma {:induction false} HasAllIsLong(order: seq<nat>, n: nat)
    requires forall v: nat | v < n :: v in order
    decreases n
    ensures |order| >= n
  {
    if n == 0 {
    } else {
      assert n - 1 in order;
      var i :| 0 <= i < |order| && order[i] == n - 1;
      var rest := order[..i] + order[i + 1..];
      forall v: nat | v < n - 1
        ensures v in rest
      {
        assert v in order;
        var k :| 0 <= k < |order| && order[k] == v;
        if k < i {
          assert rest[k] == v;
        } else {
          assert rest[k - 1] == v;
        }
      }
      HasAllIsLong(rest, n - 1);
    }
  }
}

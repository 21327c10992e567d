/** The minimum priority queue of lib/libutil/src/awoke_queue.c: a binary heap in
    an array whose slot 0 is unused, ordered by integer priority. */
module MinPq {

  datatype Node<T> = Node(prior: int, value: T)

  // ----- The heap on values -----

  function Swapped<T>(s: seq<T>, i: nat, j: nat): (r: seq<T>)
    requires i < |s| && j < |s|
    ensures |r| == |s|
  {
    s[i := s[j]][j := s[i]]
  }

  /** minpq_swim. */
  function Swim<T>(s: seq<Node<T>>, k: nat): (r: seq<Node<T>>)
    requires 1 <= k < |s|
    ensures |r| == |s|
    decreases k
  {
    if k > 1 && s[k / 2].prior > s[k].prior then Swim(Swapped(s, k, k / 2), k / 2) else s
  }

  /** The child of `k` with the smaller priority. */
  function Child<T>(s: seq<Node<T>>, n: nat, k: nat): (j: nat)
    requires 1 <= k && 2 * k <= n < |s|
    ensures k < j <= n && j / 2 == k
  {
    if 2 * k < n && s[2 * k].prior > s[2 * k + 1].prior then 2 * k + 1 else 2 * k
  }

  /** minpq_sink over slots 1 to `n`. */
  function Sink<T>(s: seq<Node<T>>, n: nat, k: nat): (r: seq<Node<T>>)
    requires 1 <= k && n < |s|
    ensures |r| == |s|
    decreases n - k
  {
    if 2 * k <= n then
      var j := Child(s, n, k);
      if s[k].prior > s[j].prior then Sink(Swapped(s, k, j), n, j) else s
    else s
  }

  /** awoke_minpq_insert on the slots. */
  function Inserted<T>(s: seq<Node<T>>, n: nat, node: Node<T>): (r: seq<Node<T>>)
    requires n + 1 < |s|
    ensures |r| == |s|
  {
    Swim(s[n + 1 := node], n + 1)
  }

  /** awoke_minpq_delmin on the slots: the last node over the root, then sinking. */
  function Removed<T>(s: seq<Node<T>>, n: nat): (r: seq<Node<T>>)
    requires 1 <= n < |s|
    ensures |r| == |s|
  {
    Sink(s[1 := s[n]], n - 1, 1)
  }

  /** No slot from 2 to `n` is smaller than its parent. */
  ghost predicate IsHeap<T>(s: seq<Node<T>>, n: nat) {
    n < |s| && forall i :: 2 <= i <= n ==> s[i / 2].prior <= s[i].prior
  }

  /** A heap but for slot `k`, which may be smaller than its parent. */
  ghost predicate Rising<T>(s: seq<Node<T>>, n: nat, k: nat) {
    && 1 <= k <= n < |s|
    && (forall i :: 2 <= i <= n && i != k ==> s[i / 2].prior <= s[i].prior)
    && (k > 1 ==> forall i :: 2 <= i <= n && i / 2 == k ==> s[k / 2].prior <= s[i].prior)
  }

  /** A heap but for slot `k`, which may be larger than its children. */
  ghost predicate Sinking<T>(s: seq<Node<T>>, n: nat, k: nat) {
    && 1 <= k && n < |s|
    && (forall i :: 2 <= i <= n && i / 2 != k ==> s[i / 2].prior <= s[i].prior)
    && (k > 1 && k <= n ==> forall i :: 2 <= i <= n && i / 2 == k ==> s[k / 2].prior <= s[i].prior)
  }

  lemma {:induction false} SwimHeap<T>(s: seq<Node<T>>, n: nat, k: nat)
    requires Rising(s, n, k)
    ensures IsHeap(Swim(s, k), n)
    decreases k
  {
    if k > 1 && s[k / 2].prior > s[k].prior {
      RiseStep(s, n, k);
      SwimHeap(Swapped(s, k, k / 2), n, k / 2);
    }
  }

  lemma RiseStep<T>(s: seq<Node<T>>, n: nat, k: nat)
    requires Rising(s, n, k) && k > 1 && s[k / 2].prior > s[k].prior
    ensures Rising(Swapped(s, k, k / 2), n, k / 2)
  {
    var t, p := Swapped(s, k, k / 2), k / 2;
    forall i | 2 <= i <= n && i != p
      ensures t[i / 2].prior <= t[i].prior
    {
      assert i != k ==> s[i / 2].prior <= s[i].prior;
      assert i / 2 == k ==> s[p].prior <= s[i].prior;
    }
    if p > 1 {
      assert s[p / 2].prior <= s[p].prior;
      forall i | 2 <= i <= n && i / 2 == p
        ensures t[p / 2].prior <= t[i].prior
      {
        assert i != k ==> s[p].prior <= s[i].prior;
      }
    }
  }

  lemma {:induction false} SinkHeap<T>(s: seq<Node<T>>, n: nat, k: nat)
    requires Sinking(s, n, k)
    ensures IsHeap(Sink(s, n, k), n)
    decreases n - k
  {
    if 2 * k <= n {
      var j := Child(s, n, k);
      assert forall i :: 2 <= i <= n && i / 2 == k ==> i == 2 * k || i == 2 * k + 1;
      if s[k].prior > s[j].prior {
        SinkStep(s, n, k);
        SinkHeap(Swapped(s, k, j), n, j);
      }
    }
  }

  lemma SinkStep<T>(s: seq<Node<T>>, n: nat, k: nat)
    requires Sinking(s, n, k) && 2 * k <= n && s[k].prior > s[Child(s, n, k)].prior
    ensures Sinking(Swapped(s, k, Child(s, n, k)), n, Child(s, n, k))
  {
    var j := Child(s, n, k);
    var t := Swapped(s, k, j);
    forall i | 2 <= i <= n && i / 2 != j
      ensures t[i / 2].prior <= t[i].prior
    {
      if i / 2 == k {
        assert i == 2 * k || i == 2 * k + 1;
      } else {
        assert s[i / 2].prior <= s[i].prior;
        assert i == k ==> s[k / 2].prior <= s[j].prior;
      }
    }
    forall i | 2 <= i <= n && i / 2 == j
      ensures t[j / 2].prior <= t[i].prior
    {
      assert s[i / 2].prior <= s[i].prior;
    }
  }

  /** In a heap the root is a minimum. */
  lemma {:induction false} RootLeast<T>(s: seq<Node<T>>, n: nat, i: nat)
    requires IsHeap(s, n) && 1 <= i <= n
    ensures s[1].prior <= s[i].prior
    decreases i
  {
    if i > 1 { RootLeast(s, n, i / 2); }
  }

  // ----- What the heap holds -----

  /** Slots 1 to `n`. */
  ghost function Held<T>(s: seq<Node<T>>, n: nat): multiset<Node<T>>
    requires n < |s|
  {
    multiset(s[1..n + 1])
  }

  lemma SwapHeld<T>(s: seq<Node<T>>, n: nat, i: nat, j: nat)
    requires 1 <= i <= n < |s| && 1 <= j <= n
    ensures Held(Swapped(s, i, j), n) == Held(s, n)
  {
    assert Swapped(s, i, j)[1..n + 1] == Swapped(s[1..n + 1], i - 1, j - 1);
  }

  lemma {:induction false} SwimHeld<T>(s: seq<Node<T>>, n: nat, k: nat)
    requires 1 <= k <= n < |s|
    ensures Held(Swim(s, k), n) == Held(s, n)
    decreases k
  {
    if k > 1 && s[k / 2].prior > s[k].prior {
      SwapHeld(s, n, k, k / 2);
      SwimHeld(Swapped(s, k, k / 2), n, k / 2);
    }
  }

  lemma {:induction false} SinkHeld<T>(s: seq<Node<T>>, n: nat, k: nat)
    requires 1 <= k && n < |s|
    ensures Held(Sink(s, n, k), n) == Held(s, n)
    decreases n - k
  {
    if 2 * k <= n {
      var j := Child(s, n, k);
      if s[k].prior > s[j].prior {
        SwapHeld(s, n, k, j);
        SinkHeld(Swapped(s, k, j), n, j);
      }
    }
  }

  // ----- The queue -----

  class PriorityQueue<T(0)> {
    const nodes: array<Node<T>>
    const capacity: nat
    var count: nat

    ghost predicate Valid()
      reads this, nodes
    {
      nodes.Length == capacity + 1 && count <= capacity && IsHeap(nodes[..], count)
    }

    ghost function Elements(): multiset<Node<T>>
      reads this, nodes
      requires Valid()
    {
      Held(nodes[..], count)
    }

    /** awoke_minpq_init with a fixed capacity and no comparator. */
    constructor (capacity: nat)
      ensures Valid() && fresh(nodes) && this.capacity == capacity && count == 0 && Elements() == multiset{}
    {
      this.capacity := capacity;
      nodes := new Node<T>[capacity + 1];
      count := 0;
    }

    predicate Full()
      reads this
    {
      count == capacity
    }

    predicate Empty()
      reads this
    {
      count == 0
    }

    method SwimUp(start: nat)
      requires nodes.Length == capacity + 1 && 1 <= start <= count <= capacity
      modifies nodes
      ensures nodes[..] == Swim(old(nodes[..]), start)
    {
      var k := start;
      while k > 1 && nodes[k / 2].prior > nodes[k].prior
        invariant 1 <= k <= start
        invariant Swim(nodes[..], k) == Swim(old(nodes[..]), start)
      {
        ghost var before := nodes[..];
        nodes[k], nodes[k / 2] := nodes[k / 2], nodes[k];
        assert nodes[..] == Swapped(before, k, k / 2);
        k := k / 2;
      }
    }

    method SinkDown(start: nat)
      requires nodes.Length == capacity + 1 && 1 <= start && count <= capacity
      modifies nodes
      ensures nodes[..] == Sink(old(nodes[..]), count, start)
    {
      var k := start;
      while 2 * k <= count
        invariant 1 <= k
        invariant Sink(nodes[..], count, k) == Sink(old(nodes[..]), count, start)
        decreases count - k
      {
        var j := 2 * k;
        if j < count && nodes[j].prior > nodes[j + 1].prior { j := j + 1; }
        assert j == Child(nodes[..], count, k);
        if nodes[k].prior <= nodes[j].prior { break; }
        ghost var before := nodes[..];
        nodes[k], nodes[j] := nodes[j], nodes[k];
        assert nodes[..] == Swapped(before, k, j);
        k := j;
      }
    }

    /** awoke_minpq_insert: a full queue refuses the node. */
    method Insert(value: T, prior: int) returns (ok: bool)
      requires Valid()
      modifies this, nodes
      ensures Valid() && ok == (old(count) < capacity)
      ensures ok ==> count == old(count) + 1 && Elements() == old(Elements()) + multiset{Node(prior, value)}
      ensures !ok ==> count == old(count) && nodes[..] == old(nodes[..])
      ensures ok ==> nodes[..] == Inserted(old(nodes[..]), old(count), Node(prior, value))
    {
      if Full() { return false; }
      ghost var before := nodes[..];
      count := count + 1;
      nodes[count] := Node(prior, value);
      ghost var placed := nodes[..];
      assert placed == before[count := Node(prior, value)];
      assert placed[1..count + 1] == before[1..count] + [Node(prior, value)];
      assert Rising(placed, count, count);
      SwimHeap(placed, count, count);
      SwimHeld(placed, count, count);
      SwimUp(count);
      ok := true;
    }

    /** awoke_minpq_delmin: takes a node of least priority, if there is one. */
    method DelMin() returns (ok: bool, node: Node<T>)
      requires Valid()
      modifies this, nodes
      ensures Valid() && ok == (old(count) > 0)
      ensures !ok ==> count == 0 && nodes[..] == old(nodes[..])
      ensures ok ==> node == old(nodes[..])[1] && nodes[..] == Removed(old(nodes[..]), old(count))
      ensures ok ==> count == old(count) - 1 && node in old(Elements())
      ensures ok ==> Elements() == old(Elements()) - multiset{node}
      ensures ok ==> forall other :: other in old(Elements()) ==> node.prior <= other.prior
    {
      if Empty() { return false, nodes[0]; }
      ghost var before := nodes[..];
      ghost var n := count;
      forall other | other in Held(before, n)
        ensures before[1].prior <= other.prior
      {
        var i :| 0 <= i < n && before[1..n + 1][i] == other;
        RootLeast(before, n, i + 1);
      }
      node := nodes[1];
      nodes[1] := nodes[count];
      count := count - 1;
      ghost var moved := nodes[..];
      LastToRoot(before, moved, n);
      SinkHeap(moved, count, 1);
      SinkHeld(moved, count, 1);
      SinkDown(1);
      ok := true;
    }
  }

  // ----- Nodes of one priority -----

  predicate Level<T>(s: seq<Node<T>>, n: nat, prior: int) {
    n < |s| && forall i :: 1 <= i <= n ==> s[i].prior == prior
  }

  /** Among equals nothing swims: a new node goes behind the others. */
  lemma LevelInsert<T>(s: seq<Node<T>>, n: nat, node: Node<T>)
    requires Level(s, n, node.prior) && n + 1 < |s|
    ensures Level(Inserted(s, n, node), n + 1, node.prior)
    ensures Inserted(s, n, node)[1..n + 2] == s[1..n + 1] + [node]
  {
    assert Inserted(s, n, node) == s[n + 1 := node];
  }

  /** Among equals nothing sinks: the last node takes the place of the first. */
  lemma LevelRemove<T>(s: seq<Node<T>>, n: nat, prior: int)
    requires Level(s, n, prior) && n >= 1
    ensures Level(Removed(s, n), n - 1, prior)
    ensures Removed(s, n)[1..n] == if n == 1 then [] else [s[n]] + s[2..n]
  {
    var t := s[1 := s[n]];
    assert Removed(s, n) == t;
  }

  /** Moving the last node over the root removes the root. */
  lemma LastToRoot<T>(before: seq<Node<T>>, moved: seq<Node<T>>, n: nat)
    requires IsHeap(before, n) && n >= 1 && moved == before[1 := before[n]]
    ensures Sinking(moved, n - 1, 1)
    ensures Held(moved, n - 1) == Held(before, n) - multiset{before[1]} && before[1] in Held(before, n)
  {
    RootRemoved(before, moved, n);
    hide Held;
    forall i | 2 <= i <= n - 1 && i / 2 != 1
      ensures moved[i / 2].prior <= moved[i].prior
    {
      assert before[i / 2].prior <= before[i].prior;
    }
  }

  lemma RootRemoved<T>(before: seq<Node<T>>, moved: seq<Node<T>>, n: nat)
    requires 1 <= n < |before| && moved == before[1 := before[n]]
    ensures Held(moved, n - 1) == Held(before, n) - multiset{before[1]} && before[1] in Held(before, n)
  {
    assert before[1..n + 1][0] == before[1];
    if n > 1 {
      var rest := before[2..n];
      assert before[1..n + 1] == [before[1]] + rest + [before[n]];
      assert moved[1..n] == [before[n]] + rest;
    } else {
      assert before[1..2] == [before[1]];
    }
  }
}

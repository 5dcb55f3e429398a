/** Several of the kernel's lists side by side: what one call changes leaves the others alone. */
module ListPool {
  import opened LinkedList

  /** The lists are proper, hold vals, keep their nodes in repr, and share neither their heads nor
      any node. */
  ghost predicate Separate<T(0)>(lists: seq<List<T>>, repr: set<Node<T>>, vals: seq<seq<T>>)
    reads lists, repr
  {
    && |vals| == |lists|
    && (forall i :: 0 <= i < |lists| ==> Within(lists[i], repr) && lists[i].Valid() && lists[i].vals == vals[i])
    && (forall i, j :: 0 <= i < |lists| && 0 <= j < |lists| && i != j ==> Disjoint(lists[i], lists[j]))
  }

  ghost predicate Disjoint<T(0)>(l: List<T>, m: List<T>)
    reads l, m
  {
    l != m && forall n :: n in l.nodes ==> n !in m.nodes
  }

  ghost predicate Within<T(0)>(l: List<T>, repr: set<Node<T>>)
    reads l
  {
    forall n :: n in l.nodes ==> n in repr
  }

  /** The list and its nodes are as they were. */
  twostate predicate Untouched<T(0)>(l: List<T>)
    reads l, l.nodes
  {
    unchanged(l) && forall a :: 0 <= a < |l.nodes| ==> unchanged(l.nodes[a])
  }

  twostate lemma StillValid<T(0)>(l: List<T>)
    requires old(l.Valid()) && Untouched(l)
    ensures l.Valid()
  {
  }

  /** Only list k changed, and it gained no node of another. */
  twostate lemma StillSeparate<T(0)>(lists: seq<List<T>>, new repr: set<Node<T>>, new more: set<Node<T>>,
                                     new vals: seq<seq<T>>, new k: nat)
    requires k < |lists| && repr <= more && Within(lists[k], more) && lists[k].Valid()
    requires old(allocated(repr) && allocated(vals) && Separate(lists, repr, vals))
    requires forall i :: 0 <= i < |lists| && i != k ==> Untouched(lists[i])
    requires forall n :: n in lists[k].nodes ==> n in old(lists[k].nodes) || fresh(n)
    ensures Separate(lists, more, vals[k := lists[k].vals])
  {
    forall i | 0 <= i < |lists| ensures Within(lists[i], more) && lists[i].Valid() {
      if i != k {
        StillValid(lists[i]);
        assert old(Within(lists[i], repr));
      }
    }
    forall i, j | 0 <= i < |lists| && 0 <= j < |lists| && i != j ensures Disjoint(lists[i], lists[j]) {
      assert old(Disjoint(lists[i], lists[j]));
    }
  }

  lemma Outside<T(0)>(lists: seq<List<T>>, repr: set<Node<T>>, vals: seq<seq<T>>, k: nat)
    requires Separate(lists, repr, vals) && k < |lists|
    ensures forall i, a :: 0 <= i < |lists| && i != k && 0 <= a < |lists[i].nodes| ==>
      lists[i].nodes[a] !in lists[k].nodes
    ensures forall i :: 0 <= i < |lists| && i != k ==> lists[i] != lists[k]
  {
    forall i, a | 0 <= i < |lists| && i != k && 0 <= a < |lists[i].nodes| ensures lists[i].nodes[a] !in lists[k].nodes {
      assert Disjoint(lists[i], lists[k]) && lists[i].nodes[a] in lists[i].nodes;
    }
  }

  /** list_push_back on list k. */
  method Push<T(0)>(lists: seq<List<T>>, ghost repr: set<Node<T>>, ghost vals: seq<seq<T>>, k: nat, x: T)
    returns (ghost more: set<Node<T>>)
    requires Separate(lists, repr, vals) && k < |lists|
    modifies lists[k], repr
    ensures repr <= more && fresh(more - repr) && Separate(lists, more, vals[k := vals[k] + [x]])
  {
    Outside(lists, repr, vals, k);
    var node := lists[k].PushBack(x);
    more := repr + {node};
    StillSeparate(lists, repr, more, vals, k);
  }

  /** list_pop_front on list k, which is not empty. */
  method Pop<T(0)>(lists: seq<List<T>>, ghost repr: set<Node<T>>, ghost vals: seq<seq<T>>, k: nat) returns (x: T)
    requires Separate(lists, repr, vals) && k < |lists| && lists[k].head != null
    modifies lists[k], repr
    ensures vals[k] != [] && x == vals[k][0] && Separate(lists, repr, vals[k := vals[k][1..]])
  {
    Outside(lists, repr, vals, k);
    x := lists[k].PopFront();
    StillSeparate(lists, repr, repr, vals, k);
  }

  /** list_create for one more list. */
  method Add<T(0)>(lists: seq<List<T>>, ghost repr: set<Node<T>>, ghost vals: seq<seq<T>>) returns (l: List<T>)
    requires Separate(lists, repr, vals)
    ensures fresh(l) && Separate(lists + [l], repr, vals + [[]])
  {
    l := new List();
    var more := lists + [l];
    forall i | 0 <= i < |more| ensures Within(more[i], repr) && more[i].Valid() {
      assert i < |lists| ==> more[i] == lists[i];
    }
  }

  /** m empty lists. */
  method Make<T(0)>(m: nat) returns (lists: seq<List<T>>)
    ensures |lists| == m && fresh(lists) && Separate(lists, {}, seq(m, _ => []))
  {
    lists := [];
    ghost var vals: seq<seq<T>> := [];
    for i := 0 to m
      invariant |lists| == i && fresh(lists) && vals == seq(i, _ => []) && Separate(lists, {}, vals)
    {
      var l := Add(lists, {}, vals);
      lists, vals := lists + [l], vals + [[]];
    }
  }

  /** head is null exactly in an empty list, and cnt is the number of elements. */
  lemma Heads<T(0)>(lists: seq<List<T>>, repr: set<Node<T>>, vals: seq<seq<T>>)
    requires Separate(lists, repr, vals)
    ensures forall k :: 0 <= k < |lists| ==> (lists[k].head == null <==> vals[k] == []) && lists[k].cnt == |vals[k]|
  {
  }
}

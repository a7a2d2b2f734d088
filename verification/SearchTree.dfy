/** The search tree of samples/dedup/tree.c, keyed by l1num, with the queue of each node as
    its value.  The cached position pmin is never set and is left out. */
module SearchTree {
  import opened Wrappers

  datatype Tree<Q> = Nil | Node(l1num: nat, queue: Q, left: Tree<Q>, right: Tree<Q>)

  function TreeFind<Q>(v: nat, t: Tree<Q>): Option<Q> {
    if t.Nil? then None
    else if v < t.l1num then TreeFind(v, t.left)
    else if v > t.l1num then TreeFind(v, t.right)
    else Some(t.queue)
  }

  // The position found, named by its key.
  function TreeFindMin<Q>(t: Tree<Q>): Option<nat> {
    if t.Nil? then None
    else if t.left.Nil? then Some(t.l1num)
    else TreeFindMin(t.left)
  }

  function TreeInsert<Q>(l1num: nat, queue: Q, t: Tree<Q>): Tree<Q> {
    if t.Nil? then Node(l1num, queue, Nil, Nil)
    else if l1num < t.l1num then t.(left := TreeInsert(l1num, queue, t.left))
    else if l1num > t.l1num then t.(right := TreeInsert(l1num, queue, t.right))
    else t
  }

  // The queue of a node changed through the position of the node.
  function TreePut<Q>(v: nat, queue: Q, t: Tree<Q>): Tree<Q> {
    if t.Nil? then Nil
    else if v < t.l1num then t.(left := TreePut(v, queue, t.left))
    else if v > t.l1num then t.(right := TreePut(v, queue, t.right))
    else t.(queue := queue)
  }

  // The leftmost element of a tree that has one.
  function Leftmost<Q>(t: Tree<Q>): (nat, Q)
    requires t.Node?
  {
    if t.left.Nil? then (t.l1num, t.queue) else Leftmost(t.left)
  }

  function TreeDelete<Q>(v: nat, t: Tree<Q>): Tree<Q>
    decreases t
  {
    if t.Nil? then Nil
    else if v < t.l1num then t.(left := TreeDelete(v, t.left))
    else if v > t.l1num then t.(right := TreeDelete(v, t.right))
    else if t.left.Node? && t.right.Node? then
      var (k, q) := Leftmost(t.right);
      Node(k, q, t.left, TreeDelete(k, t.right))
    else if t.left.Nil? then t.right
    else t.left
  }

  /* ---------- the tree as a map ---------- */

  function ToMap<Q>(t: Tree<Q>): map<nat, Q> {
    if t.Nil? then map[] else Join(ToMap(t.left), t.l1num, t.queue, ToMap(t.right))
  }

  function Join<Q>(l: map<nat, Q>, v: nat, q: Q, r: map<nat, Q>): map<nat, Q> {
    (l + r)[v := q]
  }

  ghost predicate Apart<Q>(l: map<nat, Q>, v: nat, r: map<nat, Q>) {
    (forall k :: k in l ==> k < v) && (forall k :: k in r ==> k > v)
  }

  ghost predicate Sorted<Q>(t: Tree<Q>) {
    t.Node? ==> Sorted(t.left) && Sorted(t.right) && Apart(ToMap(t.left), t.l1num, ToMap(t.right))
  }

  // A change on one side of a node, seen in the whole.
  lemma JoinPut<Q>(l: map<nat, Q>, v: nat, q: Q, r: map<nat, Q>, k: nat, x: Q)
    requires Apart(l, v, r)
    ensures k < v ==> Apart(l[k := x], v, r) && Join(l[k := x], v, q, r) == Join(l, v, q, r)[k := x]
    ensures k > v ==> Apart(l, v, r[k := x]) && Join(l, v, q, r[k := x]) == Join(l, v, q, r)[k := x]
    ensures k == v ==> Join(l, v, x, r) == Join(l, v, q, r)[k := x]
  {
  }

  lemma JoinDelete<Q>(l: map<nat, Q>, v: nat, q: Q, r: map<nat, Q>, k: nat)
    requires Apart(l, v, r)
    ensures k < v ==> Apart(l - {k}, v, r) && Join(l - {k}, v, q, r) == Join(l, v, q, r) - {k}
    ensures k > v ==> Apart(l, v, r - {k}) && Join(l, v, q, r - {k}) == Join(l, v, q, r) - {k}
  {
  }

  // The root replaced by the least element of the right side.
  lemma JoinReplace<Q>(l: map<nat, Q>, v: nat, q: Q, r: map<nat, Q>, k: nat)
    requires Apart(l, v, r) && k in r && forall j :: j in r ==> k <= j
    ensures Apart(l, k, r - {k}) && Join(l, k, r[k], r - {k}) == Join(l, v, q, r) - {v}
  {
  }

  lemma JoinEmpty<Q>(v: nat, q: Q, m: map<nat, Q>)
    ensures v !in m ==> Join(map[], v, q, m) - {v} == m && Join(m, v, q, map[]) - {v} == m
  {
    assert map[] + m == m && m + map[] == m;
  }

  lemma {:induction false} FindIs<Q>(v: nat, t: Tree<Q>)
    requires Sorted(t)
    ensures TreeFind(v, t) == if v in ToMap(t) then Some(ToMap(t)[v]) else None
  {
    if t.Node? {
      FindIs(v, t.left);
      FindIs(v, t.right);
    }
  }

  lemma {:induction false} FindMinIs<Q>(t: Tree<Q>)
    requires Sorted(t)
    ensures TreeFindMin(t) == None <==> ToMap(t) == map[]
    ensures TreeFindMin(t).Some? ==>
      TreeFindMin(t).value in ToMap(t) && forall k :: k in ToMap(t) ==> TreeFindMin(t).value <= k
  {
    if t.Node? {
      assert t.l1num in ToMap(t);
      FindMinIs(t.left);
      assert t.left.Node? ==> t.left.l1num in ToMap(t.left);
    }
  }

  lemma {:induction false} InsertIs<Q>(v: nat, q: Q, t: Tree<Q>)
    requires Sorted(t)
    ensures Sorted(TreeInsert(v, q, t))
    ensures ToMap(TreeInsert(v, q, t)) == if v in ToMap(t) then ToMap(t) else ToMap(t)[v := q]
  {
    if t.Node? {
      JoinPut(ToMap(t.left), t.l1num, t.queue, ToMap(t.right), v, q);
      if v < t.l1num { InsertIs(v, q, t.left); }
      if v > t.l1num { InsertIs(v, q, t.right); }
    } else {
      assert Join(map[], v, q, map[]) == map[][v := q];
    }
  }

  lemma {:induction false} PutIs<Q>(v: nat, q: Q, t: Tree<Q>)
    requires Sorted(t) && v in ToMap(t)
    ensures Sorted(TreePut(v, q, t)) && ToMap(TreePut(v, q, t)) == ToMap(t)[v := q]
  {
    JoinPut(ToMap(t.left), t.l1num, t.queue, ToMap(t.right), v, q);
    if v < t.l1num { PutIs(v, q, t.left); }
    if v > t.l1num { PutIs(v, q, t.right); }
  }

  lemma {:induction false} LeftmostIs<Q>(t: Tree<Q>)
    requires Sorted(t) && t.Node?
    ensures Leftmost(t).0 in ToMap(t) && ToMap(t)[Leftmost(t).0] == Leftmost(t).1
    ensures forall k :: k in ToMap(t) ==> Leftmost(t).0 <= k
  {
    if t.left.Node? {
      LeftmostIs(t.left);
    }
  }

  /** Deletion removes exactly the key. */
  lemma {:induction false} DeleteIs<Q>(v: nat, t: Tree<Q>)
    requires Sorted(t)
    ensures Sorted(TreeDelete(v, t)) && ToMap(TreeDelete(v, t)) == ToMap(t) - {v}
    decreases t
  {
    if t.Node? {
      JoinDelete(ToMap(t.left), t.l1num, t.queue, ToMap(t.right), v);
      if v < t.l1num {
        DeleteIs(v, t.left);
      } else if v > t.l1num {
        DeleteIs(v, t.right);
      } else if t.left.Node? && t.right.Node? {
        LeftmostIs(t.right);
        DeleteIs(Leftmost(t.right).0, t.right);
        JoinReplace(ToMap(t.left), v, t.queue, ToMap(t.right), Leftmost(t.right).0);
      } else {
        JoinEmpty(v, t.queue, if t.left.Nil? then ToMap(t.right) else ToMap(t.left));
      }
    }
  }
}

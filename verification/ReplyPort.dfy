/** The same queue as Exec keeps it: a doubly linked list between two end nodes,
    and the replies set aside chained backwards through their own links.  Each
    method is one critical section of the port's lock. */
module ReplyPort {
  import opened ReplyQueue

  class Node {
    var succ: Node?
    var pred: Node?
  }

  /** Each node points to the next and back. */
  ghost predicate Linked(s: seq<Node>)
    reads s
  {
    forall i :: 0 <= i < |s| - 1 ==> s[i].succ == s[i + 1] && s[i + 1].pred == s[i]
  }

  /** Replies set aside: each points back to the one before. */
  ghost predicate Chained(c: seq<Node>)
    reads c
  {
    (c != [] ==> c[0].pred == null) && forall i :: 0 < i < |c| ==> c[i].pred == c[i - 1]
  }

  function Last(c: seq<Node>): Node? { if c == [] then null else c[|c| - 1] }

  ghost predicate Apart(a: seq<Node>, b: seq<Node>) {
    forall i, j :: 0 <= i < |a| && 0 <= j < |b| ==> a[i] != b[j]
  }

  class Port {
    const first: Node
    const end: Node
    /** The nodes of the list, both ends included. */
    ghost var all: seq<Node>

    ghost predicate Valid()
      reads this, all
    {
      && |all| >= 2 && all[0] == first && all[|all| - 1] == end
      && Distinct(all) && Linked(all) && end.succ == null
    }

    ghost function Queue(): seq<Node>
      requires |all| >= 2
      reads this
    {
      all[1..|all| - 1]
    }

    /** The replies set aside, c, ending in last. */
    ghost predicate Aside(c: seq<Node>, last: Node?)
      reads this, c
    {
      Chained(c) && last == Last(c) && Distinct(c) && Apart(c, all)
    }

    /** The port and the replies set aside are in state w of the drain. */
    ghost predicate Holds(w: Wait<Node>, last: Node?)
      reads this, all, w.deferred
    {
      Valid() && Queue() == w.queue && Aside(w.deferred, last)
    }

    constructor ()
      ensures Valid() && Queue() == [] && fresh(first) && fresh(end)
    {
      var a, b := new Node, new Node;
      first, end, all := a, b, [a, b];
      new;
      first.succ, end.pred, end.succ := end, first, null;
    }

    /** ADDTAIL(). */
    method AddTail(n: Node)
      requires Valid() && Apart([n], all)
      modifies this, n, all
      ensures Valid() && all == old(all)[..|old(all)| - 1] + [n, end]
    {
      ghost var k := |all| - 1;
      assert all[k - 1].succ == all[k] && all[k].pred == all[k - 1];
      var p := end.pred;
      n.succ := end;
      n.pred := p;
      p.succ := n;
      end.pred := n;
      ghost var was := all;
      all := all[..k] + [n, end];
      assert forall i :: 0 <= i < k ==> all[i] == was[i];
      assert [n][0] == n;
    }

    /** pop_message(). */
    method RemoveHead() returns (n: Node?)
      requires Valid()
      modifies this, all
      ensures Valid()
      ensures |old(all)| == 2 ==> n == null && all == old(all)
      ensures |old(all)| != 2 ==> n == old(all)[1] && all == [first] + old(all)[2..]
    {
      assert all[0].succ == all[1];
      assert |all| > 2 ==> all[1].succ == all[2];
      n := first.succ;
      if n.succ == null { return null; }
      n.pred.succ := n.succ;
      n.succ.pred := n.pred;
      ghost var was := all;
      all := [first] + all[2..];
      assert forall i :: 0 < i < |all| ==> all[i] == was[i + 1];
    }

    /** A node put back in front of the list. */
    method PushFront(n: Node)
      requires Valid() && Apart([n], all)
      modifies this, n, all
      ensures Valid() && all == [first, n] + old(all)[1..]
    {
      assert all[0].succ == all[1];
      var head := first.succ;
      n.succ := head;
      n.pred := first;
      head.pred := n;
      first.succ := n;
      ghost var was := all;
      all := [first, n] + all[1..];
      assert forall i :: 1 < i < |all| ==> all[i] == was[i - 1];
      assert [n][0] == n;
    }

    // ----------------------------------------------------------------
    // WaitIO()
    // ----------------------------------------------------------------

    /** PutMsg() of a reply, at any moment of the drain. */
    method Arrives(n: Node, last: Node?, ghost own: Node, ghost w: Wait<Node>)
      requires Holds(w, last) && Enabled(w, own, Arrive(n)) && n != first && n != end
      modifies this, n, all
      ensures Holds(Next(w, own, Arrive(n)), last)
    {
      forall j | 0 <= j < |all| ensures n != all[j] {
        assert 0 < j < |all| - 1 ==> all[j] == w.queue[j - 1];
      }
      AddTail(n);
      assert Queue() == w.queue + [n];
    }

    /** GetMsg() after WaitPort(), and setting the message aside unless it is the
        request's own. */
    method Drain(own: Node, last: Node?, ghost w: Wait<Node>) returns (done: bool, newLast: Node?)
      requires Holds(w, last) && Enabled(w, own, Pop)
      modifies this, all, w.deferred
      ensures Holds(Next(w, own, Pop), newLast)
      ensures done <==> Next(w, own, Pop).phase == Taken
    {
      var m := RemoveHead();
      assert Queue() == w.queue[1..];
      if m == own { return true, last; }
      SetAside(m, last, w.deferred);
      return false, m;
    }

    /** The message joins the chain of those set aside. */
    method SetAside(m: Node, last: Node?, ghost c: seq<Node>)
      requires Valid() && Aside(c, last) && Apart([m], all) && m !in c
      modifies m, c
      ensures Valid() && Aside(c + [m], m)
    {
      assert [m][0] == m;
      m.pred := last;
      if last != null { last.succ := m; }
      assert forall i :: 0 <= i < |c| ==> c[i] != m && c[i].pred == old(c[i].pred);
      assert forall i :: 0 <= i < |c| ==> (c + [m])[i] == c[i];
    }

    /** restore_reply_messages(): from the last set aside to the first, each to the
        front of the list. */
    method RestoreAll(last: Node?, ghost own: Node, ghost w: Wait<Node>)
      requires Holds(w, last) && Enabled(w, own, Restore)
      modifies this, all, w.deferred
      ensures Holds(Next(w, own, Restore), null)
    {
      ghost var c, q := w.deferred, w.queue + [end];
      ghost var k := |c|;
      assert all == [first] + q;
      assert c[..k] == c && c[k..] == [];
      var node := last;
      while node != null
        invariant 0 <= k <= |c| && Valid() && Aside(c[..k], node) && all == [first] + c[k..] + q
        decreases k
      {
        ghost var p := c[..k];
        node := PutBack(node, p);
        k := k - 1;
        Unwound(first, c, k, q);
      }
      assert c[k..] == c;
      Rejoined(first, c, w.queue, end);
    }

    method PutBack(node: Node, ghost c: seq<Node>) returns (previous: Node?)
      requires Valid() && c != [] && Aside(c, node)
      modifies this, all, node
      ensures Valid() && Aside(c[..|c| - 1], previous) && all == [first, node] + old(all)[1..]
    {
      previous := node.pred;
      ghost var p := c[..|c| - 1];
      assert c[|c| - 1] == node && previous == Last(p);
      assert forall i :: 0 <= i < |p| ==> p[i] == c[i] && p[i] != node;
      assert [node][0] == node;
      PushFront(node);
      assert forall i :: 0 <= i < |p| ==> p[i].pred == old(c[i].pred);
    }
  }

  lemma Unwound(first: Node, c: seq<Node>, k: nat, q: seq<Node>)
    requires k < |c|
    ensures c[..k + 1][..|c[..k + 1]| - 1] == c[..k] && Last(c[..k + 1]) == c[k]
    ensures [first, c[k]] + ([first] + c[k + 1..] + q)[1..] == [first] + c[k..] + q
  {
  }

  lemma Rejoined(first: Node, c: seq<Node>, queue: seq<Node>, end: Node)
    ensures |[first] + c + (queue + [end])| == |c| + |queue| + 2
    ensures ([first] + c + (queue + [end]))[1..|c| + |queue| + 1] == c + queue
  {
  }
}

/** The parked-URB list as the source keeps it: nodes linked through `next`, with a head and
    a tail pointer. Its methods do to the nodes what the functions of Endpoint do to a
    sequence, the NULL tail included. */
module PendingList {
  import opened Endpoint

  class Node {
    const urb: Urb
    var next: Node?

    constructor (urb: Urb)
      ensures this.urb == urb && next == null
    {
      this.urb, next := urb, null;
    }
  }

  function Drop<T>(s: seq<T>, i: nat): seq<T>
    requires i < |s|
  {
    s[..i] + s[i + 1..]
  }

  function Last(us: seq<Urb>): Urb
    requires us != []
  {
    us[|us| - 1]
  }

  /** What the walk will leave once it has gone on from position `j`. */
  function Resume(us: seq<Urb>, j: nat, seqnum: nat): seq<Urb>
    requires j <= |us|
  {
    us[..j] + Without(us[j..], seqnum)
  }

  lemma ResumeStep(us: seq<Urb>, j: nat, seqnum: nat)
    requires j < |us|
    ensures us[j].seqnum == seqnum ==> Resume(Drop(us, j), j, seqnum) == Resume(us, j, seqnum)
    ensures us[j].seqnum != seqnum ==> Resume(us, j + 1, seqnum) == Resume(us, j, seqnum)
    ensures j < |us| - 1 ==> Drop(us, j) != [] && Last(Drop(us, j)) == Last(us)
    ensures |Drop(us, j)| == |us| - 1 && (j == |us| - 1 ==> us[j] == Last(us))
  {
    assert us[j..][1..] == us[j + 1..];
    assert Drop(us, j)[j..] == us[j + 1..] && Drop(us, j)[..j] == us[..j];
    assert us[..j + 1] == us[..j] + [us[j]];
  }

  class PendingList {
    var head: Node?
    var tail: Node?
    ghost var spine: seq<Node>
    ghost var urbs: seq<Urb>
    ghost var nodes: set<Node>

    ghost predicate Valid()
      reads this, nodes
    {
      && (forall i :: 0 <= i < |spine| ==> spine[i] in nodes)
      && (head == if spine == [] then null else spine[0])
      && (forall i :: 0 <= i < |spine| - 1 ==> spine[i].next == spine[i + 1])
      && (spine != [] ==> spine[|spine| - 1].next == null)
      && (forall i, j :: 0 <= i < j < |spine| ==> spine[i] != spine[j])
      && (tail != null ==> spine != [] && tail == spine[|spine| - 1])
      && |urbs| == |spine|
      && (forall i :: 0 <= i < |spine| ==> spine[i].urb == urbs[i])
    }

    /** The list as Endpoint sees it. */
    ghost function View(): Ep
      reads this
    {
      Ep([], urbs, tail == null, false)
    }

    constructor ()
      ensures Valid() && View() == FRESH && nodes == {}
    {
      head, tail, spine, urbs, nodes := null, null, [], [], {};
    }

    method ParkUrb(u: Urb)
      requires Valid()
      modifies this, nodes
      ensures Valid() && fresh(nodes - old(nodes))
      ensures View() == Park(old(View()), u)
    {
      var node := new Node(u);
      if tail != null {
        tail.next := node;
        spine, urbs := spine + [node], urbs + [u];
      } else {
        head := node;
        spine, urbs := [node], [u];
      }
      tail := node;
      nodes := nodes + {node};
    }

    method PopHead() returns (u: Urb)
      requires Valid() && head != null
      modifies this
      ensures Valid() && nodes == old(nodes)
      ensures old(View()).pend != [] && u == old(View()).pend[0]
      ensures View() == PopParked(old(View()))
    {
      u := head.urb;
      head := head.next;
      if head == null {
        tail := null;
      }
      spine, urbs := spine[1..], urbs[1..];
    }

    /** Takes node `i` out of the chain; `prev` is the node before it, if any. */
    method Bypass(prev: Node?, cur: Node, ghost i: nat)
      requires Valid() && i < |spine| && cur == spine[i]
      requires prev == if i == 0 then null else spine[i - 1]
      modifies this, prev
      ensures Valid() && nodes == old(nodes) && spine == Drop(old(spine), i) && urbs == Drop(old(urbs), i)
      ensures cur.next == old(cur.next)
      ensures tail == if old(tail) == cur then null else old(tail)
    {
      if prev == null {
        head := cur.next;
      } else {
        prev.next := cur.next;
      }
      if tail == cur {
        tail := null;
      }
      spine, urbs := Drop(spine, i), Drop(urbs, i);
    }

    /** `prev` and `cur` stand at position `j` of the walk. */
    ghost predicate At(prev: Node?, cur: Node?, j: nat)
      reads this
    {
      && j <= |spine|
      && prev == (if j == 0 then null else spine[j - 1])
      && cur == (if j == |spine| then null else spine[j])
    }

    /** One round of the walk, `prev` standing for the pointer-to-pointer of the source. */
    method Visit(prev: Node?, cur: Node, seqnum: nat, ghost j: nat) returns (prev': Node?, next: Node?)
      requires Valid() && At(prev, cur, j)
      modifies this, prev
      ensures Valid() && nodes == old(nodes) && j < |old(urbs)| && cur.urb == old(urbs)[j]
      ensures cur.urb.seqnum == seqnum ==>
        urbs == Drop(old(urbs), j) && At(prev', next, j)
        && tail == if j == |old(urbs)| - 1 then null else old(tail)
      ensures cur.urb.seqnum != seqnum ==>
        urbs == old(urbs) && At(prev', next, j + 1) && tail == old(tail)
    {
      if cur.urb.seqnum == seqnum {
        Bypass(prev, cur, j);
        prev', next := prev, cur.next;
      } else {
        prev', next := cur, cur.next;
      }
    }

    /** What the walk knows at position `j` of a list that started as `all` with tail `was`. */
    ghost predicate Walked(all: seq<Urb>, was: Node?, seqnum: nat, j: nat)
      reads this
    {
      && j <= |urbs| && Resume(urbs, j, seqnum) == Without(all, seqnum)
      && (j < |urbs| ==> all != [] && Last(urbs) == Last(all))
      && (tail == null <==> was == null || (j == |urbs| && all != [] && Last(all).seqnum == seqnum))
    }

    method UnlinkSeqnum(seqnum: nat)
      requires Valid()
      modifies this, nodes
      ensures Valid() && nodes == old(nodes)
      ensures View() == Unlink(old(View()), seqnum)
    {
      ghost var all, was, j := urbs, tail, 0;
      var prev: Node? := null;
      var cur := head;
      while cur != null
        invariant Valid() && nodes == old(nodes) && At(prev, cur, j) && Walked(all, was, seqnum, j)
        decreases |urbs| - j
      {
        ghost var hit;
        prev, cur, hit := Step(prev, cur, seqnum, j, all, was);
        j := if hit then j else j + 1;
      }
    }

    /** One round, and what the walk then knows. */
    method Step(prev: Node?, cur: Node, seqnum: nat, ghost j: nat, ghost all: seq<Urb>, ghost was: Node?)
      returns (prev': Node?, next: Node?, ghost hit: bool)
      requires Valid() && At(prev, cur, j) && Walked(all, was, seqnum, j)
      modifies this, prev
      ensures Valid() && nodes == old(nodes)
      ensures var j' := if hit then j else j + 1; At(prev', next, j') && Walked(all, was, seqnum, j')
      ensures |urbs| == if hit then |old(urbs)| - 1 else |old(urbs)|
    {
      ResumeStep(urbs, j, seqnum);
      hit := urbs[j].seqnum == seqnum;
      prev', next := Visit(prev, cur, seqnum, j);
    }

    /** Detaches the whole list, as a stall does before it drains it. */
    method TakeAll() returns (first: Node?, ghost taken: seq<Node>)
      requires Valid()
      modifies this
      ensures Valid() && nodes == {} && taken == old(spine)
      ensures first == if taken == [] then null else taken[0]
      ensures View() == StallTake(old(View())).(halted := false)
    {
      first, taken := head, spine;
      head, tail, spine, urbs, nodes := null, null, [], [], {};
    }
  }
}

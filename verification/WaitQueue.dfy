/** runtime/chan.go: the doubly linked queue of goroutines waiting on a channel. */
module WaitQueue {

  /** A goroutine as the channel code sees it. */
  class G {
    const id: nat
    var selectDone: bool      // set by whoever wins the race to complete its select
    var param: bool           // g.param is non-nil

    constructor (id: nat)
      ensures this.id == id && !selectDone && !param
    {
      this.id := id;
      selectDone, param := false, false;
    }
  }

  /** The variable a channel operation sends from or receives into. */
  class Cell<V> {
    var v: V
    constructor (v: V)
      ensures this.v == v
    {
      this.v := v;
    }
  }

  /** A goroutine's place in a wait queue. */
  class Sudog<V> {
    const g: G
    const isSelect: bool
    var elem: Cell?<V>
    var next: Sudog?<V>
    var prev: Sudog?<V>

    constructor (g: G, isSelect: bool, elem: Cell?<V>)
      ensures this.g == g && this.isSelect == isSelect && this.elem == elem && next == null && prev == null
    {
      this.g, this.isSelect, this.elem := g, isSelect, elem;
      next, prev := null, null;
    }
  }

  /** A waiter of a select that some other channel has completed already. */
  predicate Stale<V>(n: Sudog<V>)
    reads n.g
  {
    n.isSelect && n.g.selectDone
  }

  class WaitQ<V> {
    var first: Sudog?<V>
    var last: Sudog?<V>
    ghost var nodes: seq<Sudog<V>>

    constructor ()
      ensures Valid() && nodes == []
    {
      first, last, nodes := null, null, [];
    }

    /** The links spell out `nodes`, forwards and backwards. */
    ghost predicate Valid()
      reads this, nodes
    {
      && (forall i, j | 0 <= i < j < |nodes| :: nodes[i] != nodes[j])
      && first == (if nodes == [] then null else nodes[0])
      && last == (if nodes == [] then null else nodes[|nodes| - 1])
      && (forall i {:trigger nodes[i].next} | 0 <= i < |nodes| ::
          nodes[i].next == (if i + 1 < |nodes| then nodes[i + 1] else null))
      && (forall i {:trigger nodes[i].prev} | 0 <= i < |nodes| ::
          nodes[i].prev == (if i > 0 then nodes[i - 1] else null))
    }

    method Enqueue(sgp: Sudog<V>)
      requires Valid() && sgp !in nodes
      modifies this, (set n | n in nodes)`next, sgp`next, sgp`prev
      ensures Valid() && nodes == old(nodes) + [sgp]
    {
      sgp.next := null;
      var x := last;
      if x == null {
        sgp.prev := null;
        first, last := sgp, sgp;
        nodes := nodes + [sgp];
        return;
      }
      assert x == nodes[|nodes| - 1];
      sgp.prev := x;
      x.next := sgp;
      last := sgp;
      nodes := nodes + [sgp];
    }

    /** Takes the first waiter off the list. */
    method Unlink() returns (sgp: Sudog<V>)
      requires Valid() && nodes != []
      modifies this, (set n | n in nodes)`next, (set n | n in nodes)`prev
      ensures Valid() && sgp == old(nodes)[0] && nodes == old(nodes)[1..]
    {
      sgp := first;
      var y := sgp.next;
      if y == null {
        first, last := null, null;
      } else {
        assert y == nodes[1];
        y.prev := null;
        first := y;
        sgp.next := null;
      }
      nodes := nodes[1..];
    }

    /** The dequeue loop: removes waiters up to and including the first whose goroutine can
        still be woken.  `skipped` counts the stale select waiters dropped on the way. */
    method DropStale() returns (r: Sudog?<V>, ghost skipped: nat)
      requires Valid()
      modifies this, (set n | n in nodes)`next, (set n | n in nodes)`prev
      ensures Valid() && skipped <= |old(nodes)|
      ensures forall i | 0 <= i < skipped :: old(Stale(nodes[i]))
      ensures r == null ==> nodes == [] && skipped == |old(nodes)|
      ensures r != null ==> skipped < |old(nodes)| && r == old(nodes)[skipped] && !Stale(r)
      ensures r != null ==> nodes == old(nodes)[skipped + 1..]
    {
      skipped := 0;
      while first != null
        invariant Valid() && skipped <= |old(nodes)| && nodes == old(nodes)[skipped..]
        invariant forall i | 0 <= i < skipped :: old(Stale(nodes[i]))
        modifies this, (set n | n in old(nodes))`next, (set n | n in old(nodes))`prev
        decreases |nodes|
      {
        r := Unlink();
        assert r == old(nodes[skipped]) && Stale(r) == old(Stale(nodes[skipped]));
        if !(r.isSelect && r.g.selectDone) { return; }
        skipped := skipped + 1;
      }
      r := null;
    }

    /** Dequeue: the waiter to wake, with its select claimed for this channel.  A select is won
        only once, and only waiters of selects already won are dropped. */
    method Dequeue() returns (r: Sudog?<V>, ghost skipped: nat)
      requires Valid()
      modifies this, (set n | n in nodes)`next, (set n | n in nodes)`prev, (set n | n in nodes :: n.g)`selectDone
      ensures Valid() && skipped <= |old(nodes)|
      ensures forall i | 0 <= i < skipped :: old(nodes[i]).isSelect && old(nodes[i].g.selectDone)
      ensures r == null ==> nodes == [] && skipped == |old(nodes)|
      ensures r != null ==> skipped < |old(nodes)| && r == old(nodes)[skipped]
      ensures r != null ==> nodes == old(nodes)[skipped + 1..]
      ensures r != null && r.isSelect ==> !old(nodes[skipped].g.selectDone) && r.g.selectDone
      ensures forall g: G {:trigger g.selectDone} | old(allocated(g)) && (r == null || !r.isSelect || g != r.g) ::
                g.selectDone == old(g.selectDone)
    {
      r, skipped := DropStale();
      if r != null && r.isSelect { r.g.selectDone := true; }
    }
  }
}

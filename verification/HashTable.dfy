/** HashTable.c: nodes linked in place, against the buckets and the map of TableValues. */
module HashTable {
  import opened Common
  import opened TableValues

  datatype EError = E_success | E_alloc | E_recreate | E_wrongdata | E_refree | E_WFunctExit | E_RFunctExit

  /** An allocated copy of a key. */
  class Str {
    const text: Key

    constructor (text: Key)
      ensures this.text == text
    {
      this.text := text;
    }
  }

  class Node {
    var key: Str?
    var value: int
    var next: Node?

    /** What calloc returns. */
    constructor ()
      ensures key == null && value == 0 && next == null
    {
      key, value, next := null, 0, null;
    }
  }

  /** ERRNO, the static counter of `new`, and the blocks that have been allocated and not been freed.
      Call number k of `new` fails as `fails` says: in the program, for 18, 19, 21 and 25, and
      whenever there is no memory. */
  class Memory {
    const fails: nat -> bool
    var calls: nat
    var errno: EError
    ghost var live: set<object>

    constructor (fails: nat -> bool)
      ensures live == {} && calls == 0 && this.fails == fails
    {
      this.fails := fails;
      calls, errno, live := 0, E_success, {};
    }

    predicate Fails(k: nat) {
      fails(k)
    }

    method NewNode() returns (n: Node?)
      modifies this`live, this`calls
      ensures calls == old(calls) + 1 && (n == null <==> Fails(old(calls)))
      ensures n == null ==> live == old(live)
      ensures n != null ==> fresh(n) && n.key == null && n.value == 0 && n.next == null && live == old(live) + {n}
    {
      n := null;
      if !Fails(calls) {
        n := new Node();
        live := live + {n};
      }
      calls := calls + 1;
    }

    method NewStr(text: Key) returns (s: Str?)
      modifies this`live, this`calls
      ensures calls == old(calls) + 1 && (s == null <==> Fails(old(calls)))
      ensures s == null ==> live == old(live)
      ensures s != null ==> fresh(s) && s.text == text && live == old(live) + {s}
    {
      s := null;
      if !Fails(calls) {
        s := new Str(text);
        live := live + {s};
      }
      calls := calls + 1;
    }

    /** Both blocks of a new entry, or of a new table, can be allocated, the node with call number k. */
    predicate CanAdd(k: nat) {
      !Fails(k) && !Fails(k + 1)
    }

    /** free, of a block that is live: nothing is freed twice. */
    method Release(ghost o: object)
      requires o in live
      modifies this`live
      ensures live == old(live) - {o}
    {
      live := live - {o};
    }
  }

  /** A node of a chain and its copy of the key. */
  datatype Cell = Cell(node: Node, str: Str)

  /** A Node **: the head of a bucket, or the next field of a node. */
  datatype Slot = Bucket(i: nat) | NextOf(node: Node)

  /** Node number j of a chain, or what follows the chain: null, but for a moment in Ht_Insert. */
  ghost function NodeAt(cs: seq<Cell>, j: nat, end: Node?): Node? {
    if j < |cs| then cs[j].node else end
  }

  ghost function SlotAt(cs: seq<Cell>, i: nat, j: nat): Slot
    requires j <= |cs|
  {
    if j == 0 then Bucket(i) else NextOf(cs[j - 1].node)
  }

  function Without<T>(s: seq<T>, j: nat): seq<T>
    requires j < |s|
  {
    s[..j] + s[j + 1..]
  }

  ghost function NodesOf(cs: seq<Cell>): set<Node> {
    set c | c in cs :: c.node
  }

  /** The blocks a list of cells is made of. */
  ghost function ObjectsOf(cs: seq<Cell>): set<object> {
    (set c | c in cs :: c.node as object) + (set c | c in cs :: c.str as object)
  }

  ghost predicate CellsLive(cs: seq<Cell>, live: set<object>) {
    forall c :: c in cs ==> c.node in live && c.str in live
  }

  ghost predicate ChainsLive(chains: seq<seq<Cell>>, live: set<object>) {
    forall i {:trigger chains[i]} :: 0 <= i < |chains| ==> CellsLive(chains[i], live)
  }

  lemma LiveWithOneMore(chains: seq<seq<Cell>>, live: set<object>, i: nat, c: Cell)
    requires i < |chains| && ChainsLive(chains, live)
    ensures ChainsLive(chains[i := chains[i] + [c]], live + {c.node, c.str})
  {
  }

  /** Neither the node nor the string of c is in the chains. */
  ghost predicate Gone(chains: seq<seq<Cell>>, c: Cell) {
    forall i, d {:trigger d in chains[i]} :: 0 <= i < |chains| && d in chains[i] ==> d.node != c.node && d.str != c.str
  }

  lemma LiveWithOneLess(chains: seq<seq<Cell>>, live: set<object>, i: nat, j: nat)
    requires i < |chains| && j < |chains[i]| && ChainsLive(chains, live)
    requires Gone(chains[i := Without(chains[i], j)], chains[i][j])
    ensures ChainsLive(chains[i := Without(chains[i], j)], live - {chains[i][j].node, chains[i][j].str})
  {
    var chains', live' := chains[i := Without(chains[i], j)], live - {chains[i][j].node, chains[i][j].str};
    forall i', d: Cell | 0 <= i' < |chains'| && d in chains'[i'] ensures d.node in live' && d.str in live' {
      assert d in chains[i'];
      assert CellsLive(chains[i'], live);
    }
  }

  /** Node number j of the chain holds entry j and points to the next. */
  ghost predicate CellOk(cs: seq<Cell>, es: seq<Entry>, j: nat, end: Node?)
    requires j < |cs| == |es|
    reads cs[j].node
  {
    var n := cs[j].node;
    n.key == cs[j].str && cs[j].str.text == es[j].key && n.value == es[j].value && n.next == NodeAt(cs, j + 1, end)
  }

  ghost predicate Linked(head: Node?, cs: seq<Cell>, es: seq<Entry>, end: Node?)
    reads NodesOf(cs)
  {
    && |cs| == |es| && head == NodeAt(cs, 0, end)
    && forall j {:trigger CellOk(cs, es, j, end)} :: 0 <= j < |cs| ==> CellOk(cs, es, j, end)
  }

  /** A chain whose node number j is bypassed is the chain without it. */
  lemma Bypassed(head: Node?, cs: seq<Cell>, es: seq<Entry>, j: nat)
    requires j < |cs| == |es|
    requires forall k {:trigger CellOk(cs, es, k, null)} :: 0 <= k < |cs| && k != j - 1 ==> CellOk(cs, es, k, null)
    requires head == if j == 0 then NodeAt(cs, 1, null) else cs[0].node
    requires j > 0 ==> CellOk(cs[..j], es[..j], j - 1, NodeAt(cs, j + 1, null))
    ensures Linked(head, Without(cs, j), Without(es, j), null)
  {
    var cs', es' := Without(cs, j), Without(es, j);
    forall k | 0 <= k < |cs'| ensures CellOk(cs', es', k, null) {
      if k != j - 1 {
        assert CellOk(cs, es, if k < j then k else k + 1, null);
      }
    }
  }

  lemma FreeOneMore(cs: seq<Cell>, j: nat, live0: set<object>, live: set<object>)
    requires j < |cs| && CellsLive(cs[j..], live)
    requires forall k :: 0 <= k < |cs| && k != j ==> cs[k].node != cs[j].node && cs[k].str != cs[j].str
    ensures cs[j].node in live && cs[j].str in live
    ensures CellsLive(cs[j + 1..], live) && CellsLive(cs[j + 1..], live - ObjectsOf([cs[j]]))
    ensures live == live0 - ObjectsOf(cs[..j]) ==> live - ObjectsOf([cs[j]]) == live0 - ObjectsOf(cs[..j + 1])
  {
    assert cs[j] in cs[j..];
    assert cs[..j + 1] == cs[..j] + [cs[j]];
    forall c | c in cs[j + 1..] ensures c in cs[j..] && c.node != cs[j].node && c.str != cs[j].str {
      var k :| j + 1 <= k < |cs| && cs[k] == c;
      assert cs[j..][k - j] == c;
    }
  }

  /** What is allocated by the time the outer loop of Ht_for_each gets to chain i. */
  ghost predicate WalkedChains(chains: seq<seq<Cell>>, live: set<object>, i: nat, frees: bool, live0: set<object>) {
    && i <= |chains| && ChainsLive(chains[i..], live)
    && live == live0 - if frees then ObjectsOf(Flatten(chains[..i])) else {}
  }

  /** A walk over the table ended as o: the status, the caller's variable and the values are what o
      says, and the nodes that were visited are freed if the callback frees them. */
  ghost predicate Ended<A>(o: Outcome<A>, status: int, acc: A, view: Buckets, chains: seq<seq<Cell>>, frees: bool,
                           live0: set<object>, live: set<object>) {
    && o.visited <= |Flatten(chains)|
    && status == o.status && acc == o.acc && Flatten(view) == o.after
    && live == live0 - if frees then ObjectsOf(Flatten(chains)[..o.visited]) else {}
  }

  lemma EndsHere<A>(o: Outcome<A>, status: int, acc: A, view: Buckets, chains: seq<seq<Cell>>, frees: bool,
                    live0: set<object>, live: set<object>, n: nat)
    requires o == Outcome(status, acc, Flatten(view), n) && n <= |Flatten(chains)|
    requires live == live0 - if frees then ObjectsOf(Flatten(chains)[..n]) else {}
    ensures Ended(o, status, acc, view, chains, frees, live0, live)
  {
  }

  /** A walk over the table that ends in chain i. */
  lemma RoundEnds<A>(view: Buckets, chains: seq<seq<Cell>>, i: nat, f: Callback<A>, frees: bool, acc: A,
                     v0: Buckets, acc0: A, live0: set<object>, live: set<object>)
    requires BucketsWalkedTo(v0, f, acc0, view, i, acc) && i < |v0| == |view| && Walk(view[i], f, acc).status != 0
    requires var n := |Flatten(view[..i])| + Walk(view[i], f, acc).visited;
             n <= |Flatten(chains)| && live == live0 - if frees then ObjectsOf(Flatten(chains)[..n]) else {}
    ensures var o := Walk(view[i], f, acc);
            Ended(Walk(Flatten(v0), f, acc0), o.status, o.acc, view[i := o.after], chains, frees, live0, live)
  {
    var o := Walk(view[i], f, acc);
    BucketWalkGoesOn(v0, f, acc0, view, i, acc);
    EndsHere(Walk(Flatten(v0), f, acc0), o.status, o.acc, view[i := o.after], chains, frees, live0, live, |Flatten(view[..i])| + o.visited);
  }

  lemma WholeSlice<T>(s: seq<T>)
    ensures s[..|s|] == s
  {
  }

  class Table {
    const nodes: array<Node?>
    const size: int
    ghost var chains: seq<seq<Cell>>   // the nodes of each bucket, in order
    ghost var view: Buckets            // what they hold
    ghost var repr: set<Node>

    constructor (size: int)
      requires size > 0
      ensures this.size == size && fresh(nodes) && Shape()
      ensures chains == seq(size, i => []) && view == seq(size, i => []) && repr == {}
    {
      this.size := size;
      nodes := new Node?[size](i => null);
      chains, view, repr := seq(size, i => []), seq(size, i => []), {};
    }

    /** The links are what `chains` says, and they hold what `view` says; chain i0 ends in `end`,
        the others in null. */
    ghost predicate ShapeTo(i0: int, end: Node?)
      reads this, nodes, repr
    {
      && nodes.Length == size == |chains| == |view| && WellFormed(view)
      && (forall i {:trigger chains[i]} :: 0 <= i < size ==>
            NodesOf(chains[i]) <= repr && Linked(nodes[i], chains[i], view[i], if i == i0 then end else null))
    }

    ghost predicate Shape()
      reads this, nodes, repr
    {
      ShapeTo(0, null)
    }

    /** Which chain it is that ends in null does not matter. */
    lemma EndsInNull(i: int, j: int)
      requires ShapeTo(i, null)
      ensures ShapeTo(j, null)
    {
    }

    /** Everything the table is made of is allocated. */
    ghost predicate AllLive(mem: Memory)
      reads this, mem
    {
      && this in mem.live && nodes in mem.live
      && ChainsLive(chains, mem.live)
    }

    ghost predicate Valid(mem: Memory)
      reads this, nodes, repr, mem
    {
      Shape() && AllLive(mem)
    }

    /** No node is in two places. */
    lemma Distinct(i0: int, end: Node?, i: nat, j: nat, i': nat, j': nat)
      requires ShapeTo(i0, end) && i < size && i' < size && j < |chains[i]| && j' < |chains[i']|
      requires chains[i][j].node == chains[i'][j'].node || chains[i][j].str == chains[i'][j'].str
      ensures i == i' && j == j'
    {
      assert CellOk(chains[i], view[i], j, if i == i0 then end else null);
      assert CellOk(chains[i'], view[i'], j', if i' == i0 then end else null);
      assert BucketOk(view[i], i, size) && BucketOk(view[i'], i', size);
    }

    /** find: the slot whose node has the key, or else the slot at the end of the chain. */
    method FindSlot(key: Key, ghost mem: Memory) returns (slot: Slot, curr: Node?)
      requires Valid(mem) && 0 <= Index(key, size) < size
      ensures var i := Index(key, size);
              var j := Position(view[i], key);
              |chains[i]| == |view[i]| && slot == SlotAt(chains[i], i, j) && curr == NodeAt(chains[i], j, null)
    {
      var i := Index(key, size);
      ghost var j := 0;
      ghost var cs, es := chains[i], view[i];
      slot, curr := Bucket(i), nodes[i];
      while curr != null
        invariant j <= |cs| && slot == SlotAt(cs, i, j) && curr == NodeAt(cs, j, null)
        invariant forall k :: 0 <= k < j ==> es[k].key != key
        decreases |cs| - j
      {
        assert CellOk(cs, es, j, null) && cs[j] in chains[i];
        assert curr in mem.live && curr.key in mem.live;
        if curr.key.text == key {
          PositionIsUnique(es, key, j);
          return;
        }
        slot, curr := NextOf(curr), curr.next;
        j := j + 1;
      }
    }

    /** *slot = n */
    method Store(slot: Slot, n: Node?)
      requires slot.Bucket? ==> slot.i < nodes.Length
      modifies nodes, if slot.NextOf? then {slot.node} else {}
      ensures slot.Bucket? ==> nodes[..] == old(nodes[..])[slot.i := n]
      ensures slot.NextOf? ==> nodes[..] == old(nodes[..])
      ensures slot.NextOf? ==> slot.node.next == n && slot.node.key == old(slot.node.key) && slot.node.value == old(slot.node.value)
    {
      match slot
      case Bucket(i) => nodes[i] := n;
      case NextOf(node) => node.next := n;
    }

    /** Writing to the nodes of one chain cannot touch another. */
    lemma Apart(i0: int, end: Node?, i: nat)
      requires ShapeTo(i0, end) && i < size
      ensures forall i' {:trigger chains[i']} :: 0 <= i' < size && i' != i ==> NodesOf(chains[i]) !! NodesOf(chains[i'])
    {
      forall i', n | 0 <= i' < size && i' != i && n in NodesOf(chains[i]) && n in NodesOf(chains[i']) ensures false {
        var j :| 0 <= j < |chains[i]| && chains[i][j].node == n;
        var j' :| 0 <= j' < |chains[i']| && chains[i'][j'].node == n;
        Distinct(i0, end, i, j, i', j');
      }
    }

    lemma ApartInChain(i0: int, end: Node?, i: nat, j: nat)
      requires ShapeTo(i0, end) && i < size && j < |chains[i]|
      ensures forall j' :: 0 <= j' < |chains[i]| && j' != j ==> chains[i][j'].node != chains[i][j].node
    {
      forall j' | 0 <= j' < |chains[i]| && j' != j ensures chains[i][j'].node != chains[i][j].node {
        if chains[i][j'].node == chains[i][j].node {
          Distinct(i0, end, i, j, i, j');
        }
      }
    }

    /** (*curr)->value = value */
    method Overwrite(curr: Node, value: int, ghost i: nat, ghost j: nat)
      requires Shape() && i < size && j < |chains[i]| && curr == chains[i][j].node
      modifies this`view, curr`value
      ensures Shape() && view == old(view)[i := old(view)[i][j := Entry(old(view)[i][j].key, value)]]
    {
      Apart(0, null, i);
      ApartInChain(0, null, i, j);
      ghost var es := view[i];
      ghost var es' := es[j := Entry(es[j].key, value)];
      assert Linked(nodes[i], chains[i], es, null);
      curr.value := value;
      view := view[i := es'];
      assert Linked(nodes[i], chains[i], es', null) by {
        forall j' | 0 <= j' < |chains[i]| ensures CellOk(chains[i], es', j', null) {
          assert old(CellOk(chains[i], es, j', null));
        }
      }
      assert BucketOk(es', i, size);
    }

    /** *slot = n, for the slot at the end of chain i. */
    method SetEnd(slot: Slot, n: Node?, ghost i: nat, ghost end: Node?)
      requires ShapeTo(i, end) && i < size && slot == SlotAt(chains[i], i, |chains[i]|)
      modifies nodes, NodesOf(chains[i])
      ensures ShapeTo(i, n)
    {
      ghost var cs, es := chains[i], view[i];
      Apart(i, end, i);
      assert Linked(nodes[i], cs, es, end);
      if cs != [] {
        ApartInChain(i, end, i, |cs| - 1);
        assert CellOk(cs, es, |cs| - 1, end);
      }
      Store(slot, n);
      forall j | 0 <= j < |cs| ensures CellOk(cs, es, j, n) {
        assert old(CellOk(cs, es, j, end));
      }
    }

    /** The node after the end of chain i becomes part of the chain. */
    ghost method Adopt(i: nat, n: Node, s: Str)
      requires ShapeTo(i, n) && i < size && n !in repr && n.key == s && n.next == null
      requires Index(s.text, size) == i && Position(view[i], s.text) == |view[i]|
      modifies this`chains, this`view, this`repr
      ensures Shape() && repr == old(repr) + {n}
      ensures chains == old(chains)[i := old(chains)[i] + [Cell(n, s)]]
      ensures view == old(view)[i := old(view)[i] + [Entry(s.text, n.value)]]
    {
      var cs, es := chains[i], view[i];
      var cs', es' := cs + [Cell(n, s)], es + [Entry(s.text, n.value)];
      chains, view, repr := chains[i := cs'], view[i := es'], repr + {n};
      forall j | 0 <= j < |cs'| ensures CellOk(cs', es', j, null) {
        assert j < |cs| ==> CellOk(cs, es, j, n);
      }
      assert BucketOk(es', i, size);
    }

    /** (*curr)->key = the copy, (*curr)->value = value: the node is part of the chain. */
    method Fill(n: Node, s: Str, value: int, ghost i: nat)
      requires ShapeTo(i, n) && i < size && n !in repr && n.next == null
      requires Index(s.text, size) == i && Position(view[i], s.text) == |view[i]|
      modifies n, this`chains, this`view, this`repr
      ensures Shape() && repr == old(repr) + {n}
      ensures chains == old(chains)[i := old(chains)[i] + [Cell(n, s)]]
      ensures view == old(view)[i := old(view)[i] + [Entry(s.text, value)]]
    {
      n.key := s;
      n.value := value;
      Adopt(i, n, s);
    }

    /** The part of Ht_Insert after its node has been allocated. Without memory for the key, the
        node is freed and taken off the chain. */
    method AddKey(mem: Memory, slot: Slot, n: Node, key: Key, value: int, ghost i: nat) returns (s: Str?)
      requires ShapeTo(i, n) && i < size && Index(key, size) == i && Position(view[i], key) == |view[i]|
      requires n !in repr && n.next == null && n in mem.live && slot == SlotAt(chains[i], i, |chains[i]|)
      modifies mem`live, mem`calls, this`chains, this`view, this`repr, nodes, n, NodesOf(chains[i])
      ensures Shape() && mem.calls == old(mem.calls) + 1 && (s == null <==> mem.Fails(old(mem.calls)))
      ensures s == null ==>
                repr == old(repr) && chains == old(chains) && view == old(view) && mem.live == old(mem.live) - {n}
      ensures s != null ==>
                && fresh(s) && mem.live == old(mem.live) + {s} && repr == old(repr) + {n}
                && view == old(view)[i := old(view)[i] + [Entry(key, value)]]
                && chains == old(chains)[i := old(chains)[i] + [Cell(n, s)]]
    {
      s := mem.NewStr(key);
      if s == null {
        mem.Release(n);
        SetEnd(slot, null, i, n);
      } else {
        Fill(n, s, value, i);
      }
    }

    /** The part of Ht_Insert that makes a node at the end of a chain; without memory for the node
        or for the key, it leaves everything as it was. */
    method Append(mem: Memory, slot: Slot, key: Key, value: int, ghost i: nat) returns (ok: bool)
      requires Valid(mem) && i < size && Index(key, size) == i && Position(view[i], key) == |view[i]|
      requires slot == SlotAt(chains[i], i, |chains[i]|)
      modifies mem`live, mem`calls, this`chains, this`view, this`repr, nodes, NodesOf(chains[i])
      ensures Valid(mem) && fresh(repr - old(repr))
      ensures ok <==> mem.CanAdd(old(mem.calls))
      ensures mem.calls == old(mem.calls) + if mem.Fails(old(mem.calls)) then 1 else 2
      ensures !ok ==> chains == old(chains) && view == old(view) && mem.live == old(mem.live)
      ensures ok ==> view == old(view)[i := old(view)[i] + [Entry(key, value)]]
      ensures ok ==>
                && |chains[i]| > 0
                && var c := chains[i][|chains[i]| - 1];
                   && chains == old(chains)[i := old(chains)[i] + [c]]
                   && fresh(c.node) && fresh(c.str) && mem.live == old(mem.live) + {c.node, c.str}
    {
      EndsInNull(0, i);
      var n := mem.NewNode();
      SetEnd(slot, n, i, null);
      if n == null {
        EndsInNull(i, 0);
        return false;
      }
      var s := AddKey(mem, slot, n, key, value, i);
      ok := s != null;
      if ok {
        LiveWithOneMore(old(chains), old(mem.live), i, Cell(n, s));
        assert mem.live == old(mem.live) + {n as object, s};
      } else {
        assert mem.live == old(mem.live);
      }
    }

    lemma RemovedIsGone(i: nat, j: nat)
      requires Shape() && i < size && j < |chains[i]|
      ensures Gone(chains[i := Without(chains[i], j)], chains[i][j])
    {
      var chains' := chains[i := Without(chains[i], j)];
      forall i', d: Cell | 0 <= i' < size && d in chains'[i'] ensures d.node != chains[i][j].node && d.str != chains[i][j].str {
        var k :| 0 <= k < |chains'[i']| && chains'[i'][k] == d;
        var k' := if i' == i && k >= j then k + 1 else k;
        assert chains[i'][k'] == d;
        if d.node == chains[i][j].node || d.str == chains[i][j].str {
          Distinct(0, null, i, j, i', k');
        }
      }
    }

    /** *curr = (*curr)->next */
    method Splice(slot: Slot, curr: Node, ghost i: nat, ghost j: nat)
      requires Shape() && i < size && j < |chains[i]| == |view[i]|
      requires slot == SlotAt(chains[i], i, j) && curr == chains[i][j].node
      modifies this`chains, this`view, nodes, NodesOf(chains[i])
      ensures Shape() && chains == old(chains)[i := Without(old(chains)[i], j)]
      ensures view == old(view)[i := Without(old(view)[i], j)]
      ensures curr.key == old(curr.key)
    {
      ghost var cs, es := chains[i], view[i];
      Apart(0, null, i);
      assert Linked(nodes[i], cs, es, null);
      assert CellOk(cs, es, j, null);
      if j > 0 {
        ApartInChain(0, null, i, j - 1);
        assert CellOk(cs, es, j - 1, null);
      }
      Store(slot, curr.next);
      forall k | 0 <= k < |cs| && k != j - 1 ensures CellOk(cs, es, k, null) {
        assert old(CellOk(cs, es, k, null));
      }
      Bypassed(nodes[i], cs, es, j);
      RemovedOk(es, es[j].key, i, size);
      PositionIsUnique(es, es[j].key, j);
      Drop(i, j);
    }

    /** The chain without node j takes the place of chain i. */
    ghost method Drop(i: nat, j: nat)
      requires nodes.Length == size == |chains| == |view| && WellFormed(view)
      requires i < size && j < |chains[i]| == |view[i]|
      requires forall i' {:trigger chains[i']} :: 0 <= i' < size ==> NodesOf(chains[i']) <= repr
      requires forall i' {:trigger chains[i']} :: 0 <= i' < size && i' != i ==> Linked(nodes[i'], chains[i'], view[i'], null)
      requires Linked(nodes[i], Without(chains[i], j), Without(view[i], j), null)
      requires BucketOk(Without(view[i], j), i, size)
      modifies this`chains, this`view
      ensures Shape() && chains == old(chains)[i := Without(old(chains)[i], j)]
      ensures view == old(view)[i := Without(old(view)[i], j)]
    {
      chains, view := chains[i := Without(chains[i], j)], view[i := Without(view[i], j)];
    }

    /** Unlinks the node, and frees its key and itself. */
    method Unlink(mem: Memory, slot: Slot, curr: Node, ghost i: nat, ghost j: nat)
      requires Valid(mem) && i < size && j < |chains[i]| == |view[i]|
      requires slot == SlotAt(chains[i], i, j) && curr == chains[i][j].node
      modifies mem`live, this`chains, this`view, nodes, NodesOf(chains[i])
      ensures Valid(mem) && chains == old(chains)[i := Without(old(chains)[i], j)]
      ensures view == old(view)[i := Without(old(view)[i], j)]
      ensures mem.live == old(mem.live) - {old(chains)[i][j].node, old(chains)[i][j].str}
    {
      RemovedIsGone(i, j);
      LiveWithOneLess(chains, mem.live, i, j);
      assert CellsLive(chains[i], mem.live) && chains[i][j] in chains[i];
      assert Linked(nodes[i], chains[i], view[i], null) && CellOk(chains[i], view[i], j, null);
      Splice(slot, curr, i, j);
      mem.Release(curr.key);
      mem.Release(curr);
      assert mem.live == old(mem.live) - {old(chains)[i][j].node, old(chains)[i][j].str};
    }

    /** The part of Ht_Insert for a key that is there. */
    method Recreate(mem: Memory, curr: Node, key: Key, value: int)
      requires Valid(mem) && 0 <= Index(key, size) < size
      requires var i := Index(key, size);
               var j := Position(view[i], key);
               j < |chains[i]| == |view[i]| && curr == chains[i][j].node
      modifies mem`errno, this`view, curr`value
      ensures Valid(mem) && mem.errno == E_recreate
      ensures Found(old(view), key).Some? && view == Inserted(old(view), key, value)
    {
      InsertedIs(view, key, value);
      Overwrite(curr, value, Index(key, size), Position(view[Index(key, size)], key));
      mem.errno := E_recreate;
    }

    /** The part of Ht_Insert for a key that is not. */
    method Add(mem: Memory, slot: Slot, key: Key, value: int) returns (r: int)
      requires Valid(mem) && 0 <= Index(key, size) < size
      requires var i := Index(key, size);
               Position(view[i], key) == |view[i]| == |chains[i]| && slot == SlotAt(chains[i], i, |chains[i]|)
      modifies mem, this`chains, this`view, this`repr, nodes, repr
      ensures Valid(mem) && fresh(repr - old(repr)) && Found(old(view), key).None?
      ensures r == 0 <==> mem.CanAdd(old(mem.calls))
      ensures mem.calls == old(mem.calls) + if mem.Fails(old(mem.calls)) then 1 else 2
      ensures r == 0 ==> mem.errno == E_success && mem.live > old(mem.live) && view == Inserted(old(view), key, value)
      ensures r != 0 ==>
                && r == -1 && mem.errno == E_alloc && mem.live == old(mem.live)
                && view == old(view) && chains == old(chains)
    {
      InsertedIs(view, key, value);
      var ok := Append(mem, slot, key, value, Index(key, size));
      mem.errno := if ok then E_success else E_alloc;
      r := if ok then 0 else -1;
    }

    /** Ht_Insert for a table and a key that are there. */
    method InsertKey(mem: Memory, key: Key, value: int) returns (r: int)
      requires Valid(mem) && 0 <= Index(key, size) < size
      modifies mem, this`chains, this`view, this`repr, nodes, repr
      ensures Valid(mem) && fresh(repr - old(repr))
      ensures match mem.errno
              case E_recreate =>
                r == 0 && Found(old(view), key).Some? && mem.live == old(mem.live) && mem.calls == old(mem.calls)
              case E_success =>
                r == 0 && Found(old(view), key).None? && mem.CanAdd(old(mem.calls)) && mem.live > old(mem.live)
              case E_alloc =>
                && r == -1 && Found(old(view), key).None? && !mem.CanAdd(old(mem.calls))
                && mem.live == old(mem.live) && view == old(view) && chains == old(chains)
              case _ => false
      ensures r == 0 ==> view == Inserted(old(view), key, value)
      ensures Found(old(view), key).None? ==> mem.calls == old(mem.calls) + if mem.Fails(old(mem.calls)) then 1 else 2
    {
      var slot, curr := FindSlot(key, mem);
      if curr != null {
        Recreate(mem, curr, key, value);
        return 0;
      }
      r := Add(mem, slot, key, value);
    }

    /** The part of Ht_Delete for a key that is there. */
    method Discard(mem: Memory, slot: Slot, curr: Node, key: Key)
      requires Valid(mem) && 0 <= Index(key, size) < size
      requires var i := Index(key, size);
               var j := Position(view[i], key);
               j < |chains[i]| == |view[i]| && slot == SlotAt(chains[i], i, j) && curr == chains[i][j].node
      modifies mem`live, this`chains, this`view, nodes, repr
      ensures Valid(mem) && Found(old(view), key).Some? && view == Deleted(old(view), key)
      ensures var i := Index(key, size);
              var j := Position(old(view)[i], key);
              && old(chains)[i][j].str.text == key
              && chains == old(chains)[i := Without(old(chains)[i], j)]
              && mem.live == old(mem.live) - {old(chains)[i][j].node, old(chains)[i][j].str}
    {
      ghost var i := Index(key, size);
      ghost var j := Position(view[i], key);
      DeletedIs(view, key);
      assert Linked(nodes[i], chains[i], view[i], null) && CellOk(chains[i], view[i], j, null);
      Unlink(mem, slot, curr, i, j);
    }

    /** Ht_Delete for a table and a key that are there. */
    method DeleteKey(mem: Memory, key: Key)
      requires Valid(mem) && 0 <= Index(key, size) < size
      modifies mem`live, mem`errno, this`chains, this`view, nodes, repr
      ensures Valid(mem) && mem.errno == E_success && view == Deleted(old(view), key)
      ensures Found(old(view), key).None? ==> mem.live == old(mem.live) && chains == old(chains)
      ensures var i := Index(key, size);
              var j := Position(old(view)[i], key);
              Found(old(view), key).Some? ==>
                && j < |old(chains)[i]| && old(chains)[i][j].str.text == key
                && chains == old(chains)[i := Without(old(chains)[i], j)]
                && mem.live == old(mem.live) - {old(chains)[i][j].node, old(chains)[i][j].str}
    {
      DeletedIs(view, key);
      var slot, curr := FindSlot(key, mem);
      if curr != null {
        Discard(mem, slot, curr, key);
      }
      mem.errno := E_success;
    }

    lemma CellsDiffer(i: nat, j: nat)
      requires Shape() && i < size && j < |chains[i]|
      ensures forall j' :: 0 <= j' < |chains[i]| && j' != j ==>
                chains[i][j'].node != chains[i][j].node && chains[i][j'].str != chains[i][j].str
    {
      forall j' | 0 <= j' < |chains[i]| && j' != j
        ensures chains[i][j'].node != chains[i][j].node && chains[i][j'].str != chains[i][j].str
      {
        if chains[i][j'].node == chains[i][j].node || chains[i][j'].str == chains[i][j].str {
          Distinct(0, null, i, j, i, j');
        }
      }
    }

    lemma ChainsDiffer(i: nat, i': nat)
      requires Shape() && i < size && i' < size && i != i'
      ensures ObjectsOf(chains[i]) !! ObjectsOf(chains[i'])
    {
      forall j: nat, j': nat | j < |chains[i]| && j' < |chains[i']|
        ensures chains[i][j].node != chains[i'][j'].node && chains[i][j].str != chains[i'][j'].str
      {
        if chains[i][j].node == chains[i'][j'].node || chains[i][j].str == chains[i'][j'].str {
          Distinct(0, null, i, j, i', j');
        }
      }
    }

    /** The body of the inner loop of Ht_for_each: the next node is looked up before the call, since
        the callback may be free_, which frees the key and the node. */
    method VisitNode<A>(mem: Memory, curr: Node, f: Callback<A>, frees: bool, acc: A, ghost i: nat, ghost j: nat)
      returns (status: int, acc': A, next: Node?)
      requires Shape() && i < size && j < |chains[i]| == |view[i]| && curr == chains[i][j].node
      requires chains[i][j].node in mem.live && chains[i][j].str in mem.live
      modifies mem`live, this`view, curr`value
      ensures Shape() && next == NodeAt(chains[i], j + 1, null)
      ensures var e := old(view)[i][j];
              var v := f(e.key, e.value, acc);
              status == v.status && acc' == v.acc && view == old(view)[i := old(view)[i][j := Entry(e.key, v.value)]]
      ensures mem.live == old(mem.live) - if frees then ObjectsOf([chains[i][j]]) else {}
    {
      assert Linked(nodes[i], chains[i], view[i], null) && CellOk(chains[i], view[i], j, null);
      next := curr.next;
      var v := f(curr.key.text, curr.value, acc);
      status, acc' := v.status, v.acc;
      Overwrite(curr, v.value, i, j);
      if frees {
        mem.Release(curr.key);
        mem.Release(curr);
      }
    }

    /** What the inner loop has done by the time it gets to node j of chain i. */
    ghost predicate Walked<A>(mem: Memory, i: nat, es: seq<Entry>, f: Callback<A>, frees: bool, acc0: A, j: nat, acc: A, live0: set<object>)
      requires i < |view| == |chains|
      reads this, mem
    {
      && j <= |chains[i]| == |es| && WalkedTo(es, f, acc0, view[i], j, acc)
      && CellsLive(chains[i][j..], mem.live)
      && mem.live == live0 - if frees then ObjectsOf(chains[i][..j]) else {}
    }

    /** One round of the inner loop. */
    method WalkOn<A>(mem: Memory, curr: Node, f: Callback<A>, frees: bool, acc: A,
                     ghost i: nat, ghost j: nat, ghost es: seq<Entry>, ghost acc0: A, ghost live0: set<object>)
      returns (status: int, acc': A, next: Node?)
      requires Shape() && i < size && Walked(mem, i, es, f, frees, acc0, j, acc, live0)
      requires j < |chains[i]| && curr == chains[i][j].node
      modifies mem`live, this`view, curr`value
      ensures Shape() && next == NodeAt(chains[i], j + 1, null) && view == old(view)[i := view[i]]
      ensures status == 0 ==> Walked(mem, i, es, f, frees, acc0, j + 1, acc', live0)
      ensures status != 0 ==>
                && Walk(es, f, acc0) == Outcome(status, acc', view[i], j + 1)
                && mem.live == live0 - if frees then ObjectsOf(chains[i][..j + 1]) else {}
    {
      WalkGoesOn(es, f, acc0, view[i], j, acc);
      CellsDiffer(i, j);
      FreeOneMore(chains[i], j, live0, mem.live);
      status, acc', next := VisitNode(mem, curr, f, frees, acc, i, j);
    }

    /** The inner loop of Ht_for_each. */
    method WalkChain<A>(mem: Memory, i: nat, f: Callback<A>, frees: bool, acc: A) returns (status: int, acc': A)
      requires Shape() && i < size && CellsLive(chains[i], mem.live)
      modifies mem`live, this`view, NodesOf(chains[i])
      ensures Shape() && |old(view)[i]| == |chains[i]|
      ensures var o := Walk(old(view)[i], f, acc);
              && o.visited <= |chains[i]|
              && status == o.status && acc' == o.acc && view == old(view)[i := o.after]
              && mem.live == old(mem.live) - if frees then ObjectsOf(chains[i][..o.visited]) else {}
    {
      ghost var es, j := view[i], 0;
      status, acc' := 0, acc;
      assert Linked(nodes[i], chains[i], es, null);
      assert es[0..] == es && chains[i][0..] == chains[i] && WalkedTo(es, f, acc, es, 0, acc);
      var curr := nodes[i];
      while curr != null
        invariant Shape() && view == old(view)[i := view[i]]
        invariant status == 0 && Walked(mem, i, es, f, frees, acc, j, acc', old(mem.live)) && curr == NodeAt(chains[i], j, null)
        decreases |chains[i]| - j
      {
        status, acc', curr := WalkOn(mem, curr, f, frees, acc', i, j, es, acc, old(mem.live));
        if status != 0 {
          return;
        }
        j := j + 1;
      }
      WalkIsOver(es, f, acc, view[i], acc');
    }

    lemma LaterChainsLive(i: nat, k: nat, live: set<object>)
      requires Shape() && i < size && ChainsLive(chains[i..], live) && k <= |chains[i]|
      ensures CellsLive(chains[i], live)
      ensures ChainsLive(chains[i + 1..], live) && ChainsLive(chains[i + 1..], live - ObjectsOf(chains[i][..k]))
    {
      assert chains[i..][0] == chains[i];
      forall i' | i + 1 <= i' < size ensures CellsLive(chains[i'], live) && CellsLive(chains[i'], live - ObjectsOf(chains[i][..k])) {
        assert chains[i..][i' - i] == chains[i'];
        ChainsDiffer(i, i');
        assert ObjectsOf(chains[i][..k]) <= ObjectsOf(chains[i]);
        forall c | c in chains[i'] ensures c.node !in ObjectsOf(chains[i]) && c.str !in ObjectsOf(chains[i]) {
          assert c.node in ObjectsOf(chains[i']) && c.str in ObjectsOf(chains[i']);
        }
      }
    }

    lemma ChainLengths(i: nat)
      requires Shape() && i <= size
      ensures |Flatten(chains[..i])| == |Flatten(view[..i])|
      ensures forall i' :: 0 <= i' < size ==> |chains[i']| == |view[i']|
    {
      forall i' | 0 <= i' < size ensures |chains[i']| == |view[i']| {
        assert Linked(nodes[i'], chains[i'], view[i'], null);
      }
      FlattenLengths(chains[..i], view[..i]);
    }

    lemma ChainFreed(mem: Memory, i: nat, k: nat, frees: bool, live0: set<object>, live: set<object>)
      requires Shape() && i < size && WalkedChains(chains, mem.live, i, frees, live0) && k <= |chains[i]|
      requires live == mem.live - if frees then ObjectsOf(chains[i][..k]) else {}
      ensures |Flatten(chains[..i])| + k <= |Flatten(chains)|
      ensures live == live0 - if frees then ObjectsOf(Flatten(chains)[..|Flatten(chains[..i])| + k]) else {}
      ensures k == |chains[i]| ==> live == live0 - if frees then ObjectsOf(Flatten(chains[..i + 1])) else {}
    {
      FlattenAt(chains, i, k);
      if frees && k == |chains[i]| {
        assert chains[i][..k] == chains[i];
      }
    }

    /** What it means for the allocated blocks that the first k nodes of chain i are freed next. */
    lemma RoundFrees(mem: Memory, i: nat, k: nat, frees: bool, live0: set<object>, live: set<object>)
      requires Shape() && i < size && WalkedChains(chains, mem.live, i, frees, live0) && k <= |view[i]| == |chains[i]|
      requires live == mem.live - if frees then ObjectsOf(chains[i][..k]) else {}
      ensures CellsLive(chains[i], mem.live)
      ensures k == |view[i]| ==> WalkedChains(chains, live, i + 1, frees, live0)
      ensures |Flatten(view[..i])| + k <= |Flatten(chains)|
      ensures live == live0 - if frees then ObjectsOf(Flatten(chains)[..|Flatten(view[..i])| + k]) else {}
    {
      ChainLengths(i);
      LaterChainsLive(i, k, mem.live);
      ChainFreed(mem, i, k, frees, live0, live);
    }

    lemma EndsInChain<A>(mem: Memory, i: nat, f: Callback<A>, frees: bool, acc: A, v0: Buckets, acc0: A, live0: set<object>, live: set<object>)
      requires Shape() && i < size && |v0| == size && BucketsWalkedTo(v0, f, acc0, view, i, acc)
      requires WalkedChains(chains, mem.live, i, frees, live0)
      requires Walk(view[i], f, acc).status != 0 && Walk(view[i], f, acc).visited <= |view[i]| == |chains[i]|
      requires live == mem.live - if frees then ObjectsOf(chains[i][..Walk(view[i], f, acc).visited]) else {}
      ensures var o := Walk(view[i], f, acc);
              Ended(Walk(Flatten(v0), f, acc0), o.status, o.acc, view[i := o.after], chains, frees, live0, live)
    {
      RoundFrees(mem, i, Walk(view[i], f, acc).visited, frees, live0, live);
      RoundEnds(view, chains, i, f, frees, acc, v0, acc0, live0, live);
    }

    /** One round of the outer loop. */
    method WalkNextChain<A>(mem: Memory, i: nat, f: Callback<A>, frees: bool, acc: A,
                            ghost v0: Buckets, ghost acc0: A, ghost live0: set<object>)
      returns (status: int, acc': A)
      requires Shape() && i < size && |v0| == size && BucketsWalkedTo(v0, f, acc0, view, i, acc)
      requires WalkedChains(chains, mem.live, i, frees, live0)
      modifies mem`live, this`view, repr
      ensures Shape()
      ensures status == 0 ==> BucketsWalkedTo(v0, f, acc0, view, i + 1, acc') && WalkedChains(chains, mem.live, i + 1, frees, live0)
      ensures status != 0 ==> Ended(Walk(Flatten(v0), f, acc0), status, acc', view, chains, frees, live0, mem.live)
    {
      ghost var o := Walk(view[i], f, acc);
      WalkVisitsPrefix(view[i], f, acc);
      ChainLengths(i);
      ghost var v, live := view[i := o.after], mem.live - if frees then ObjectsOf(chains[i][..o.visited]) else {};
      RoundFrees(mem, i, o.visited, frees, live0, live);
      if o.status == 0 {
        BucketWalkGoesOn(v0, f, acc0, view, i, acc);
      } else {
        EndsInChain(mem, i, f, frees, acc, v0, acc0, live0, live);
      }
      status, acc' := WalkChain(mem, i, f, frees, acc);
      assert view == v && mem.live == live;
    }

    /** The outer loop of Ht_for_each. */
    method WalkAll<A>(mem: Memory, f: Callback<A>, frees: bool, acc: A) returns (status: int, acc': A)
      requires Valid(mem)
      modifies mem`live, this`view, repr
      ensures Shape() && Ended(Walk(Flatten(old(view)), f, acc), status, acc', view, chains, frees, old(mem.live), mem.live)
    {
      ghost var v0, live0 := view, mem.live;
      status, acc' := 0, acc;
      assert v0[..0] == [] && chains[..0] == [] && chains[0..] == chains;
      for i := 0 to size
        invariant Shape() && |v0| == size && BucketsWalkedTo(v0, f, acc, view, i, acc')
        invariant status == 0 && WalkedChains(chains, mem.live, i, frees, live0)
      {
        status, acc' := WalkNextChain(mem, i, f, frees, acc', v0, acc, live0);
        if status != 0 {
          return;
        }
      }
      ChainLengths(size);
      assert chains[..size] == chains && view[..size] == view;
      BucketWalkIsOver(v0, f, acc, view, acc');
      WholeSlice(Flatten(chains));
    }
  }

  ghost function Frame(ht: Table?): set<object>
    reads ht
  {
    if ht == null then {} else {ht, ht.nodes} + ht.repr
  }

  /** Ht_Create */
  method Create(mem: Memory, size: int) returns (ht: Table?)
    modifies mem
    ensures match mem.errno
            case E_success =>
              && ht != null && size > 0 && mem.CanAdd(old(mem.calls)) && ht.size == size
              && fresh(ht) && fresh(ht.nodes) && fresh(ht.repr) && ht.Valid(mem)
              && Contents(ht.view) == map[] && mem.live == old(mem.live) + {ht, ht.nodes}
            case E_wrongdata => ht == null && size <= 0 && mem.live == old(mem.live)
            case E_alloc => ht == null && size > 0 && !mem.CanAdd(old(mem.calls)) && mem.live == old(mem.live)
            case _ => false
    ensures mem.calls == old(mem.calls) + if size <= 0 then 0 else if mem.Fails(old(mem.calls)) then 1 else 2
  {
    if size <= 0 {
      mem.errno := E_wrongdata;
      return null;
    }
    mem.calls := mem.calls + 1;
    if mem.Fails(mem.calls - 1) {
      mem.errno := E_alloc;
      return null;
    }
    ht := new Table(size);
    mem.live := mem.live + {ht};
    mem.calls := mem.calls + 1;
    if mem.Fails(mem.calls - 1) {
      mem.Release(ht);
      assert mem.live == old(mem.live);
      mem.errno := E_alloc;
      return null;
    }
    mem.live := mem.live + {ht.nodes};
    EmptyContents(ht.view);
    mem.errno := E_success;
  }

  /** Ht_Insert. A key that is there gets the new value; one that is not is added, unless there is
      no memory for it: then nothing has changed. */
  method Insert(mem: Memory, ht: Table?, key: Option<Key>, value: int) returns (r: int)
    requires ht != null ==> ht.Valid(mem) && (key.Some? ==> 0 <= Index(key.value, ht.size))
    modifies mem, Frame(ht)
    ensures ht != null ==> ht.Valid(mem) && fresh(ht.repr - old(ht.repr))
    ensures ht == null || key == None ==>
              r == -1 && mem.errno == E_wrongdata && mem.live == old(mem.live) && (ht != null ==> ht.view == old(ht.view))
    ensures ht != null && key.Some? ==>
              match mem.errno
              case E_recreate =>
                && r == 0 && key.value in Contents(old(ht.view)) && mem.live == old(mem.live)
                && Contents(ht.view) == Contents(old(ht.view))[key.value := value]
              case E_success =>
                && r == 0 && key.value !in Contents(old(ht.view)) && mem.CanAdd(old(mem.calls)) && mem.live > old(mem.live)
                && Contents(ht.view) == Contents(old(ht.view))[key.value := value]
              case E_alloc =>
                && r == -1 && key.value !in Contents(old(ht.view)) && !mem.CanAdd(old(mem.calls))
                && mem.live == old(mem.live)
                && ht.view == old(ht.view) && ht.chains == old(ht.chains)
              case _ => false
    ensures ht != null && key.Some? && r == 0 ==>
              Hashable(key.value, old(ht.view)) && ht.view == Inserted(old(ht.view), key.value, value)
    ensures mem.calls == old(mem.calls) +
              if ht == null || key == None || key.value in Contents(old(ht.view)) then 0
              else if mem.Fails(old(mem.calls)) then 1 else 2
  {
    if ht == null || key == None {
      mem.errno := E_wrongdata;
      return -1;
    }
    ghost var v := ht.view;
    IndexInRange(key.value, ht.size);
    FindRefinesMap(v, key.value);
    InsertRefinesMap(v, key.value, value);
    r := ht.InsertKey(mem, key.value, value);
  }

  /** Ht_Find. *value is set to the value of the key, or left as it was if there is none. */
  method Find(mem: Memory, ht: Table?, key: Option<Key>, value: int) returns (r: int, value': int)
    requires ht != null ==> ht.Valid(mem) && (key.Some? ==> 0 <= Index(key.value, ht.size))
    modifies mem`errno
    ensures ht != null ==> ht.Valid(mem)
    ensures ht == null || key == None ==> r == -1 && mem.errno == E_wrongdata && value' == value
    ensures ht != null && key.Some? ==>
              && r == 0 && mem.errno == E_success
              && value' == if key.value in Contents(ht.view) then Contents(ht.view)[key.value] else value
  {
    value' := value;
    if ht == null || key == None {
      mem.errno := E_wrongdata;
      return -1, value';
    }
    ghost var i := Index(key.value, ht.size);
    IndexInRange(key.value, ht.size);
    FindRefinesMap(ht.view, key.value);
    ghost var j := Position(ht.view[i], key.value);
    var slot, curr := ht.FindSlot(key.value, mem);
    if curr != null {
      assert Linked(ht.nodes[i], ht.chains[i], ht.view[i], null) && CellOk(ht.chains[i], ht.view[i], j, null);
      value' := curr.value;
    }
    mem.errno := E_success;
    r := 0;
  }

  /** Ht_Delete. The key's node and string, if there are any, are freed, and nothing else. */
  method Delete(mem: Memory, ht: Table?, key: Option<Key>) returns (r: int)
    requires ht != null ==> ht.Valid(mem) && (key.Some? ==> 0 <= Index(key.value, ht.size))
    modifies mem`live, mem`errno, Frame(ht)
    ensures ht != null ==> ht.Valid(mem) && ht.repr == old(ht.repr)
    ensures ht == null || key == None ==>
              r == -1 && mem.errno == E_wrongdata && mem.live == old(mem.live) && (ht != null ==> ht.view == old(ht.view))
    ensures ht != null && key.Some? ==>
              && r == 0 && mem.errno == E_success
              && Contents(ht.view) == Contents(old(ht.view)) - {key.value}
              && Hashable(key.value, old(ht.view)) && ht.view == Deleted(old(ht.view), key.value)
              && (key.value !in Contents(old(ht.view)) ==> mem.live == old(mem.live))
              && (key.value in Contents(old(ht.view)) ==>
                    var i := Index(key.value, ht.size);
                    var j := Position(old(ht.view)[i], key.value);
                    && j < |old(ht.chains)[i]| && old(ht.chains)[i][j].str.text == key.value
                    && mem.live == old(mem.live) - {old(ht.chains)[i][j].node, old(ht.chains)[i][j].str})
  {
    if ht == null || key == None {
      mem.errno := E_wrongdata;
      return -1;
    }
    ghost var v := ht.view;
    IndexInRange(key.value, ht.size);
    FindRefinesMap(v, key.value);
    DeleteRefinesMap(v, key.value);
    ht.DeleteKey(mem, key.value);
    return 0;
  }

  /** Ht_for_each, with a callback that may also free the node and key it is given (frees). It
      calls it on the entries as Walk does: in bucket order and, in a bucket, insertion order. */
  method ForEach<A>(mem: Memory, ht: Table?, f: Option<Callback<A>>, frees: bool, acc: A) returns (r: int, acc': A)
    requires ht != null ==> ht.Valid(mem)
    modifies mem`live, mem`errno, Frame(ht)
    ensures ht != null ==> ht.chains == old(ht.chains) && ht.Shape() && (!frees ==> ht.Valid(mem))
    ensures ht == null || f == None ==>
              r == -1 && mem.errno == E_wrongdata && acc' == acc && mem.live == old(mem.live) && (ht != null ==> ht.view == old(ht.view))
    ensures ht != null && f.Some? ==>
              var o := Walk(Flatten(old(ht.view)), f.value, acc);
              && Ended(o, o.status, acc', ht.view, ht.chains, frees, old(mem.live), mem.live)
              && if o.status < 0 then r == -1 && mem.errno == E_WFunctExit
                 else if o.status > 0 then r == 1 && mem.errno == E_RFunctExit
                 else r == 0 && mem.errno == E_success
  {
    acc' := acc;
    if ht == null || f == None {
      mem.errno := E_wrongdata;
      return -1, acc';
    }
    var status;
    status, acc' := ht.WalkAll(mem, f.value, frees, acc);
    assert !frees ==> mem.live == old(mem.live);
    if status < 0 {
      mem.errno := E_WFunctExit;
      return -1, acc';
    }
    if status > 0 {
      mem.errno := E_RFunctExit;
      return 1, acc';
    }
    mem.errno := E_success;
    r := 0;
  }

  /** What free_ returns, and leaves in the value and the caller's variable: nothing new. */
  function FreeStatus(key: Key, value: int, unused: bool): Visit<bool> {
    Visit(0, value, unused)
  }

  /** free_ always returns 0, so Ht_Free visits everything. */
  lemma FreeVisitsAll(es: seq<Entry>)
    ensures Walk(es, FreeStatus, false).visited == |es|
  {
    WalkVisitsPrefix(es, FreeStatus, false);
    var o := Walk(es, FreeStatus, false);
    assert o.visited > 0 ==> VisitAt(es, FreeStatus, false, o.visited - 1).status == 0;
  }

  lemma AllNodesCount(ht: Table)
    requires ht.Shape()
    ensures |Flatten(ht.view)| == |Flatten(ht.chains)|
  {
    ht.ChainLengths(ht.size);
    assert ht.chains[..ht.size] == ht.chains && ht.view[..ht.size] == ht.view;
  }

  /** Ht_for_each(ht, &free_, NULL) */
  method FreeNodes(mem: Memory, ht: Table)
    requires ht.Valid(mem)
    modifies mem`live, mem`errno, Frame(ht)
    ensures mem.live == old(mem.live) - ObjectsOf(Flatten(old(ht.chains)))
  {
    FreeVisitsAll(Flatten(ht.view));
    AllNodesCount(ht);
    ghost var cells := Flatten(ht.chains);
    var r, acc := ForEach(mem, ht, Some(FreeStatus), true, false);
    WholeSlice(cells);
  }

  /** Ht_Free. Every block of the table is freed, and each only once. */
  method Free(mem: Memory, ht: Table?)
    requires ht != null ==> ht.Valid(mem)
    modifies mem`live, mem`errno, Frame(ht)
    ensures ht == null ==> mem.errno == E_wrongdata && mem.live == old(mem.live)
    ensures ht != null ==>
              && mem.errno == E_success
              && mem.live == old(mem.live) - ({ht, ht.nodes} + ObjectsOf(Flatten(old(ht.chains))))
  {
    if ht == null {
      mem.errno := E_wrongdata;
      return;
    }
    FreeNodes(mem, ht);
    mem.Release(ht.nodes);
    mem.Release(ht);
    mem.errno := E_success;
  }
}

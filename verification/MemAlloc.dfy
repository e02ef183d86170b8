/** The allocator itself: two rings of nodes, relinked in place. */
module MemAllocator {
  import opened Word
  import opened Blocks
  import opened Lists
  import opened Rings
  import opened AllocSpec

  type MemLink = Link<Block>

  class MemAlloc {
    const free: Ring<Block>
    const inUse: Ring<Block>

    /** The nodes that malloc gave out and that were not given back to it. */
    ghost var heap: set<MemLink>

    ghost function Repr(): set<object>
      reads free, inUse
    {
      {this} + free.Repr() + inUse.Repr()
    }

    /** The two rings are well formed and share nothing. */
    ghost predicate Apart()
      reads free, inUse, free.Repr(), inUse.Repr()
    {
      && free.Repr() !! inUse.Repr() && this !in free.Repr() && this !in inUse.Repr()
      && free.Valid() && inUse.Valid()
    }

    /** Between calls the rings hold exactly the nodes that malloc gave out. */
    ghost predicate Valid()
      reads this, free, inUse, Repr()
    {
      Apart() && heap == free.members + inUse.members
    }

    ghost function Model(): Alloc
      reads free, inUse
    {
      Alloc(free.view, inUse.view)
    }

    /** Another ring than the one worked on keeps its nodes and what they carry. */
    twostate predicate Unchanged(ring: Ring<Block>)
      reads ring
    {
      ring.nodes == old(ring.nodes) && ring.view == old(ring.view) && ring.members == old(ring.members)
    }

    constructor ()
      ensures Valid() && Model() == EMPTY && fresh(Repr()) && heap == {}
    {
      free := new Ring(Block(0, 0));
      inUse := new Ring(Block(0, 0));
      heap := {};
    }

    /** malloc and the initialization of mem_link_alloc; no node when malloc fails. */
    method NewLink(address: u64, size: u64) returns (node: MemLink)
      modifies this`heap
      ensures fresh(node) && node.data == Block(address, size)
      ensures heap == old(heap) + {node}
    {
      node := new Link(Block(address, size));
      heap := heap + {node};
    }

    /** Give a node back to malloc, which it must be due for. */
    ghost method Free(x: MemLink)
      requires x in heap
      modifies this`heap
      ensures heap == old(heap) - {x}
    {
      heap := heap - {x};
    }

    /** The node after position j takes over the block of the node at j, which is freed. */
    method Absorb(earlier: MemLink, later: MemLink, ghost j: nat)
      requires Valid() && j + 1 < |free.nodes| && free.nodes[j] == earlier && free.nodes[j + 1] == later
      modifies Repr()
      ensures Valid() && heap <= old(heap) && Unchanged(inUse)
      ensures free.nodes == Remove(old(free.nodes), j)
      ensures free.view == MergeAt(old(free.view), j)
    {
      hide Linked, MergeAt, Remove, Ring.Valid;
      free.Here(j);
      free.Here(j + 1);
      MergeByRemoval(free.view, j);
      free.Store(later, Block(earlier.data.address, Wrap(later.data.size + earlier.data.size)), j + 1);
      free.LinkUnlink(earlier, j);
      Free(earlier);
      assert free.Repr() !! inUse.Repr();
    }

    /** The first half of mem_alloc_coalesce: take over the previous block if it touches. */
    method JoinPrevious(l: MemLink, ghost k: nat) returns (ghost i: nat)
      requires Valid() && k < |free.nodes| && free.nodes[k] == l
      modifies Repr()
      ensures Valid() && heap <= old(heap) && Unchanged(inUse)
      ensures i == (if Touches(old(free.view), k - 1) then k - 1 else k)
      ensures i < |free.nodes| && free.nodes[i] == l
      ensures free.view == TryMerge(old(free.view), k - 1)
    {
      hide Linked;
      free.Here(k);
      i := k;
      var prev := l.prev;
      if prev != free.head {
        free.Here(k - 1);
        if Wrap(prev.data.address + prev.data.size) == l.data.address {
          Absorb(prev, l, k - 1);
          i := k - 1;
        }
      }
    }

    /** The second half: let the next block take over this one if they touch. */
    method JoinNext(l: MemLink, ghost i: nat)
      requires Valid() && i < |free.nodes| && free.nodes[i] == l
      modifies Repr()
      ensures Valid() && heap <= old(heap) && Unchanged(inUse)
      ensures free.view == TryMerge(old(free.view), i)
    {
      hide Linked;
      free.Here(i);
      var next := l.next;
      if next != free.head {
        free.Here(i + 1);
        if Wrap(l.data.address + l.data.size) == next.data.address {
          Absorb(l, next, i);
        }
      }
    }

    method Coalesce(l: MemLink, ghost k: nat)
      requires Valid() && k < |free.nodes| && free.nodes[k] == l
      modifies Repr()
      ensures Valid() && heap <= old(heap) && Unchanged(inUse)
      ensures free.view == AllocSpec.Coalesce(old(free.view), k)
    {
      hide Linked;
      var prev := l.prev;
      var next := l.next;
      free.Here(k);
      if prev == free.head && next == free.head {
        return;
      }
      ghost var i := JoinPrevious(l, k);
      JoinNext(l, i);
    }

    /** Link a new node in front of p and join it with its neighbours. */
    method LinkFree(node: MemLink, p: MemLink, ghost k: nat)
      requires Apart() && k <= |free.nodes| && p == free.At(k)
      requires node !in Repr() && heap == free.members + inUse.members + {node}
      modifies Repr(), node
      ensures Valid() && heap <= old(heap) && Unchanged(inUse)
      ensures free.view == AllocSpec.Coalesce(Insert(old(free.view), k, old(node.data)), k)
    {
      hide Linked;
      free.Here(k);
      free.LinkBefore(node, p, k);
      assert free.nodes[k] == node;
      Coalesce(node, k);
    }

    /** The walk of mem_alloc_add_free to the first node that does not begin below address. */
    method Walk(address: u64) returns (p: MemLink, ghost k: nat)
      requires Apart()
      ensures k == InsertPos(free.view, address) && p == free.At(k)
    {
      hide Linked;
      free.Here(0);
      p, k := free.head.next, 0;
      while address > p.data.address && p != free.head
        invariant k <= |free.nodes| == |free.view| && p == free.At(k)
        invariant InsertPos(free.view, address, k) == InsertPos(free.view, address)
        decreases |free.nodes| - k
      {
        free.Here(k);
        p, k := p.next, k + 1;
      }
      if k < |free.nodes| {
        free.Here(k);
      }
    }

    /** mem_alloc_add_free. The first loop of the C code never gets past its first node. */
    method AddFree(address: u64, size: u64, mallocOk: bool) returns (code: int)
      requires Valid()
      modifies Repr()
      ensures Valid() && fresh(Repr() - old(Repr())) && Unchanged(inUse)
      ensures (code, free.view) == AllocSpec.AddFree(old(free.view), address, size, mallocOk)
    {
      hide Linked, AllocSpec.Coalesce, Insert;
      if !mallocOk {
        return FAILED;
      }
      var node := NewLink(address, size);
      free.Here(0);
      var p := free.head.next;
      if p != free.head {
        if address < p.data.address {
          LinkFree(node, p, 0);
          return OK;
        } else if address == p.data.address {
          Free(node);
          return DOUBLE_FREE;
        }
      }
      ghost var k;
      p, k := Walk(address);
      LinkFree(node, p, k);
      return OK;
    }

    /** The exact fit of mem_alloc_allocate_node: the node moves to the other ring. */
    method Recycle(node: MemLink, ghost k: nat)
      requires Valid() && k < |free.nodes| && node == free.nodes[k]
      modifies Repr()
      ensures Valid() && heap == old(heap)
      ensures free.view == Remove(old(free.view), k)
      ensures inUse.view == old(inUse.view) + [old(node.data)]
      ensures node.data == old(node.data)
    {
      hide Linked, Insert, Remove, Ring.Valid;
      free.Here(k);
      InsertAtEnd(inUse.view, node.data);
      assert node in free.members;
      free.LinkUnlink(node, k);
      assert heap == free.members + inUse.members + {node};
      inUse.Here(|inUse.nodes|);
      inUse.LinkBefore(node, inUse.head, |inUse.nodes|);
      assert free.Repr() !! inUse.Repr();
    }

    /** The split of mem_alloc_allocate_node: p takes the front of the block of node. */
    method Split(node: MemLink, p: MemLink, size: u64, ghost k: nat)
      requires Apart() && k < |free.nodes| && node == free.nodes[k]
      requires p !in Repr() && heap == free.members + inUse.members + {p}
      requires size <= node.data.size
      modifies Repr(), p
      ensures Valid() && heap == old(heap)
      ensures free.view == old(free.view)[k := Block(Wrap(old(node.data.address) + size), old(node.data.size) - size)]
      ensures inUse.view == old(inUse.view) + [old(p.data)]
      ensures p.data == old(p.data)
    {
      hide Linked, Insert, Ring.Valid;
      free.Here(k);
      InsertAtEnd(inUse.view, p.data);
      free.Store(node, Block(Wrap(node.data.address + size), node.data.size - size), k);
      inUse.Here(|inUse.nodes|);
      inUse.LinkBefore(p, inUse.head, |inUse.nodes|);
      assert free.Repr() !! inUse.Repr();
    }

    lemma FreeBlockAt(k: nat)
      requires Apart() && k < |free.nodes|
      ensures k < |free.view| && free.nodes[k].data == free.view[k]
    {
    }

    /** mem_alloc_allocate_node, for the free node at position k. */
    method AllocateNode(node: MemLink, size: u64, mallocOk: bool, ghost k: nat)
      returns (code: int, address: u64)
      requires Valid() && k < |free.nodes| == |free.view| && node == free.nodes[k] && size <= free.view[k].size
      modifies Repr()
      ensures Valid() && fresh(Repr() - old(Repr()))
      ensures code == TakeAt(old(Model()), k, size, mallocOk).0
      ensures address == TakeAt(old(Model()), k, size, mallocOk).1
      ensures Model() == TakeAt(old(Model()), k, size, mallocOk).2
    {
      hide Linked, Remove, Apart;
      FreeBlockAt(k);
      ghost var b := free.view[k];
      if node.data.size == size {
        Recycle(node, k);
        return OK, node.data.address;
      }
      if !mallocOk {
        return FAILED, 0;
      }
      var p := NewLink(node.data.address, size);
      Split(node, p, size, k);
      assert free.view == old(free.view)[k := Block(Wrap(b.address + size), b.size - size)];
      assert inUse.view == old(inUse.view) + [Block(b.address, size)];
      return OK, p.data.address;
    }

    /** The walk of mem_alloc_get to the first free node that is large enough. */
    method FindFit(size: u64) returns (p: MemLink, ghost k: nat)
      requires Apart()
      ensures k == FirstFit(free.view, size) <= |free.nodes| == |free.view| && p == free.At(k)
      ensures p == free.head <==> k == |free.nodes|
    {
      hide Linked;
      free.Here(0);
      p, k := free.head.next, 0;
      while p != free.head
        invariant k <= |free.nodes| == |free.view| && p == free.At(k)
        invariant FirstFit(free.view, size, k) == FirstFit(free.view, size)
        decreases |free.nodes| - k
      {
        free.Here(k);
        if size <= p.data.size {
          return;
        }
        p, k := p.next, k + 1;
      }
    }

    method Get(size: u64, mallocOk: bool) returns (code: int, address: u64)
      requires Valid()
      modifies Repr()
      ensures Valid() && fresh(Repr() - old(Repr()))
      ensures (code, address, Model()) == AllocSpec.Get(old(Model()), size, mallocOk)
    {
      hide Linked, TakeAt, Ring.Valid;
      var p;
      ghost var k;
      p, k := FindFit(size);
      if p != free.head {
        code, address := AllocateNode(p, size, mallocOk, k);
      } else {
        code, address := FAILED, 0;
      }
    }

    /** mem_alloc_free_node, for the node in use at position k. */
    method FreeNode(node: MemLink, mallocOk: bool, ghost k: nat) returns (code: int)
      requires Valid() && k < |inUse.nodes| && node == inUse.nodes[k]
      modifies Repr()
      ensures Valid() && fresh(Repr() - old(Repr()))
      ensures inUse.view == Remove(old(inUse.view), k)
      ensures (code, free.view) ==
              AllocSpec.AddFree(old(free.view), old(node.data.address), old(node.data.size), mallocOk)
    {
      hide Linked, Remove, AllocSpec.AddFree;
      inUse.Here(k);
      var address, size := node.data.address, node.data.size;
      inUse.LinkUnlink(node, k);
      Free(node);
      code := AddFree(address, size, mallocOk);
    }

    method Put(address: u64, mallocOk: bool) returns (code: int)
      requires Valid()
      modifies Repr()
      ensures Valid() && fresh(Repr() - old(Repr()))
      ensures (code, Model()) == AllocSpec.Put(old(Model()), address, mallocOk)
    {
      hide Linked, AllocSpec.AddFree, Remove;
      inUse.Here(0);
      var p := inUse.head.next;
      ghost var k := 0;
      while p != inUse.head
        invariant k <= |inUse.nodes| == |inUse.view| && p == inUse.At(k)
        invariant FindBase(inUse.view, address, k) == FindBase(inUse.view, address)
        decreases |inUse.nodes| - k
        modifies {}
      {
        inUse.Here(k);
        if address == p.data.address {
          break;
        }
        p, k := p.next, k + 1;
      }
      if k < |inUse.nodes| {
        inUse.Here(k);
      }
      if p != inUse.head {
        code := FreeNode(p, mallocOk, k);
      } else {
        code := FAILED;
      }
    }

    /** The loop of mem_alloc_destroy over one of the rings, beside which rest stays live. */
    method FreeAll(ring: Ring<Block>, ghost rest: set<MemLink>)
      requires ring.Valid() && heap == ring.members + rest && ring.members !! rest
      requires this !in ring.Repr()
      modifies this`heap
      ensures heap == rest
    {
      hide Linked, Elems, Distinct;
      ring.Here(0);
      ring.Members();
      var p := ring.head.next;
      ghost var k := 0;
      assert ring.nodes[0..] == ring.nodes;
      while p != ring.head
        invariant k <= |ring.nodes| && p == ring.At(k)
        invariant heap == Elems(ring.nodes[k..]) + rest && Elems(ring.nodes[k..]) <= ring.members
        decreases |ring.nodes| - k
      {
        ring.Here(k);
        ElemsFrom(ring.nodes, k);
        var trash := p;
        p := p.next;
        Free(trash);
        k := k + 1;
      }
      NoElems(ring.nodes, k);
    }

    lemma NoElems(nodes: seq<MemLink>, k: nat)
      requires k == |nodes|
      ensures Elems(nodes[k..]) == {}
    {
    }

    method Destroy()
      requires Valid()
      modifies Repr()
      ensures Valid() && heap == {} && Model() == EMPTY
    {
      FreeAll(free, inUse.members);
      FreeAll(inUse, {});
      free.Reset(Block(0, 0));
      inUse.Reset(Block(0, 0));
    }
  }
}

/** The intrusive circular doubly linked list of the video engine driver. */
module MemLists {

  // struct dma_buf_info without its links; handles are numbers, 0 is the null pointer.
  datatype BufInfo = BufInfo(fd: int, addr: nat, buf: nat, att: nat, sgt: nat, pid: int, filp: nat)

  // A list entry. Its links lead its buffer record, so the driver casts one to the other. A null
  // link stands for the poison values a deleted entry is left with.
  class Node {
    var next: Node?
    var prev: Node?
    const info: BufInfo

    constructor (info: BufInfo)
      ensures this.info == info
    {
      this.info := info;
      next, prev := null, null;
    }
  }

  // Each node is linked to the one behind it, in both directions.
  ghost predicate Linked(ring: seq<Node>)
    reads ring
  {
    forall i {:trigger ring[i].next} :: 0 <= i < |ring| - 1 ==> ring[i].next == ring[i + 1] && ring[i + 1].prev == ring[i]
  }

  predicate Distinct(ns: seq<Node>) {
    forall i, j :: 0 <= i < j < |ns| ==> ns[i] != ns[j]
  }

  lemma RemoveDistinct(ns: seq<Node>, k: nat)
    requires Distinct(ns) && k < |ns|
    ensures Distinct(ns[..k] + ns[k + 1..]) && ns[k] !in ns[..k] + ns[k + 1..]
    ensures forall n :: n in ns[..k] + ns[k + 1..] ==> n in ns
  {
  }

  class MemList {
    const head: Node
    // The entries from the head on
    ghost var nodes: seq<Node>

    ghost function Ring(): seq<Node>
      reads this
    {
      [head] + nodes + [head]
    }

    ghost function Entries(): set<Node>
      reads this
    {
      set n | n in nodes
    }

    ghost predicate Valid()
      reads this, head, nodes
    {
      head !in nodes && Distinct(nodes) && Linked(Ring())
    }

    // AW_MEM_INIT_LIST_HEAD
    constructor ()
      ensures Valid() && nodes == [] && fresh(head)
    {
      head := new Node(BufInfo(0, 0, 0, 0, 0, 0, 0));
      nodes := [];
      new;
      head.next, head.prev := head, head;
    }

    // __aw_list_add between the entries k - 1 and k
    method AddBetween(entry: Node, prev: Node, next: Node, ghost k: nat)
      requires Valid() && entry !in Ring() && k <= |nodes| && prev == Ring()[k] && next == Ring()[k + 1]
      modifies this, entry, prev, next
      ensures Valid() && nodes == old(nodes)[..k] + [entry] + old(nodes)[k..]
    {
      next.prev := entry;
      entry.next := next;
      entry.prev := prev;
      prev.next := entry;
      nodes := nodes[..k] + [entry] + nodes[k..];
      ghost var was := old(Ring());
      assert Ring() == was[..k + 1] + [entry] + was[k + 1..];
      forall i | 0 <= i < |Ring()| - 1
        ensures Ring()[i].next == Ring()[i + 1] && Ring()[i + 1].prev == Ring()[i]
      {
        if i < k {
          assert was[i].next == was[i + 1];
        } else if i > k + 1 {
          assert was[i - 1].next == was[i];
        }
      }
    }

    // aw_mem_list_add
    method Add(entry: Node)
      requires Valid() && entry !in Ring()
      modifies this, entry, head, Entries()
      ensures Valid() && nodes == [entry] + old(nodes)
    {
      assert Ring()[0].next == Ring()[1];
      AddBetween(entry, head, head.next, 0);
    }

    // aw_mem_list_add_tail
    method AddTail(entry: Node)
      requires Valid() && entry !in Ring()
      modifies this, entry, head, Entries()
      ensures Valid() && nodes == old(nodes) + [entry]
    {
      assert Ring()[|nodes|].next == Ring()[|nodes| + 1];
      AddBetween(entry, head.prev, head, |nodes|);
      assert nodes == old(nodes) + [entry];
    }

    // aw_mem_list_del
    method Del(entry: Node, ghost k: nat)
      requires Valid() && k < |nodes| && entry == nodes[k]
      modifies this, head, Entries()
      ensures Valid() && nodes == old(nodes)[..k] + old(nodes)[k + 1..]
      ensures entry.next == null && entry.prev == null
    {
      ghost var was := Ring();
      assert was[k + 1] == entry && was[k].next == was[k + 1] && was[k + 1].next == was[k + 2];
      var prev, next := entry.prev, entry.next;
      next.prev := prev;
      prev.next := next;
      entry.next := null;
      entry.prev := null;
      nodes := nodes[..k] + nodes[k + 1..];
      RemoveDistinct(old(nodes), k);
      assert Ring() == was[..k + 1] + was[k + 2..];
      forall i | 0 <= i < |Ring()| - 1
        ensures Ring()[i].next == Ring()[i + 1] && Ring()[i + 1].prev == Ring()[i]
      {
        if i < k {
          assert was[i].next == was[i + 1];
        } else if i > k {
          assert was[i + 1].next == was[i + 2];
        }
      }
    }

    lemma HeadIsNoEntry()
      requires Valid()
      ensures head !in nodes
    {
    }

    // The entry behind nodes[k], or the head behind the last one
    lemma NextOf(k: nat)
      requires Valid() && k <= |nodes|
      ensures Ring()[k].next == Ring()[k + 1]
    {
    }
  }
}

/** The descriptor tracker: a linked list, mutated in place, that implements a finite map
    from descriptors to records. */
module FdTracker {
  import opened Text
  import opened GpuPaths

  /** The map the whole tracker stands for. */
  type FdMap = map<int, FdRecord>

  /** What copy means on maps: assignment when the source is tracked, deletion of the target
      when it is not. */
  function Copied(m: FdMap, oldFd: int, newFd: int): FdMap {
    if oldFd < 0 || newFd < 0 then m
    else if oldFd in m then m[newFd := m[oldFd]]
    else m - {newFd}
  }

  /** What recording a freshly opened descriptor means: its classification is stored, if it has
      one and there is a node or memory for it; otherwise nothing stays recorded for it. */
  function Recorded(m: FdMap, fd: int, path: string, alloc: bool): FdMap {
    if !Classify(path).found then m - {fd}
    else if fd in m || alloc then m[fd := Classify(path).record]
    else m
  }

  /** The tracker that a table of open descriptors and the paths they were opened by calls for. */
  function RecordsOf(paths: map<int, string>): FdMap {
    map fd | fd in paths && Classify(paths[fd]).found :: Classify(paths[fd]).record
  }

  lemma RecordsOfOpened(paths: map<int, string>, fd: int, path: string)
    requires fd !in paths
    ensures RecordsOf(paths[fd := path]) ==
            if Classify(path).found then RecordsOf(paths)[fd := Classify(path).record] else RecordsOf(paths)
    ensures fd !in RecordsOf(paths)
  {
    hide Classify;
  }

  // ----- association lists

  /** The sequence without its element at `k`. */
  function DropAt<T>(s: seq<T>, k: nat): (r: seq<T>)
    requires k < |s|
    ensures |r| == |s| - 1
    ensures forall i :: 0 <= i < |r| ==> r[i] == s[if i < k then i else i + 1]
  {
    s[..k] + s[k+1..]
  }

  datatype Entry = Entry(fd: int, record: FdRecord)

  ghost predicate Distinct(es: seq<Entry>) {
    forall i, j :: 0 <= i < j < |es| ==> es[i].fd != es[j].fd
  }

  function MapOf(es: seq<Entry>): FdMap {
    if es == [] then map[] else MapOf(es[1..])[es[0].fd := es[0].record]
  }

  /** None of the first `k` entries is for `fd`. */
  predicate AbsentBefore(es: seq<Entry>, k: nat, fd: int) {
    k <= |es| && forall i :: 0 <= i < k ==> es[i].fd != fd
  }

  predicate Absent(es: seq<Entry>, fd: int) {
    AbsentBefore(es, |es|, fd)
  }

  lemma {:induction false} MapOfAbsent(es: seq<Entry>, fd: int)
    requires Absent(es, fd)
    ensures fd !in MapOf(es)
  {
    if es != [] {
      MapOfAbsent(es[1..], fd);
    }
  }

  lemma {:induction false} MapOfAt(es: seq<Entry>, k: nat)
    requires Distinct(es) && k < |es|
    ensures es[k].fd in MapOf(es) && MapOf(es)[es[k].fd] == es[k].record
  {
    if k > 0 {
      MapOfAt(es[1..], k - 1);
    }
  }

  lemma {:induction false} MapOfReplaced(es: seq<Entry>, k: nat, record: FdRecord)
    requires Distinct(es) && k < |es|
    ensures var es' := es[k := es[k].(record := record)];
            Distinct(es') && MapOf(es') == MapOf(es)[es[k].fd := record]
    decreases |es|
  {
    var es' := es[k := es[k].(record := record)];
    if k > 0 {
      MapOfReplaced(es[1..], k - 1, record);
      assert es'[1..] == es[1..][k-1 := es[k].(record := record)];
    } else {
      assert es'[1..] == es[1..];
    }
  }

  lemma {:induction false} MapOfDropped(es: seq<Entry>, k: nat)
    requires Distinct(es) && k < |es|
    ensures MapOf(DropAt(es, k)) == MapOf(es) - {es[k].fd}
    decreases |es|
  {
    var es', rest, fd := DropAt(es, k), es[1..], es[k].fd;
    if k > 0 {
      assert es'[1..] == DropAt(rest, k - 1);
      MapOfDropped(rest, k - 1);
      hide Distinct;
      assert MapOf(es') == (MapOf(rest) - {fd})[es[0].fd := es[0].record];
      assert MapOf(es) == MapOf(rest)[es[0].fd := es[0].record];
    } else {
      assert es' == rest;
      MapOfAbsent(rest, fd);
    }
  }

  lemma DistinctDropped(es: seq<Entry>, k: nat)
    requires Distinct(es) && k < |es|
    ensures Distinct(DropAt(es, k))
  {
  }

  lemma MapOfPushed(e: Entry, es: seq<Entry>)
    requires Distinct(es) && Absent(es, e.fd)
    ensures Distinct([e] + es) && MapOf([e] + es) == MapOf(es)[e.fd := e.record]
  {
    assert ([e] + es)[1..] == es;
  }

  // ----- the list

  class Node {
    const fd: int
    var record: FdRecord
    var next: Node?

    constructor (fd: int, record: FdRecord, next: Node?)
      ensures this.fd == fd && this.record == record && this.next == next
    {
      this.fd, this.record, this.next := fd, record, next;
    }
  }

  /** Every node of the list was there before or has just been allocated. */
  twostate predicate NodesGrow(before: seq<Node>, new after: seq<Node>) {
    forall i :: 0 <= i < |after| ==> after[i] in before || fresh(after[i])
  }

  /** The node at position `k`, null behind the last one. */
  ghost function NodeAt(ns: seq<Node>, k: nat): Node? {
    if k < |ns| then ns[k] else null
  }

  /** Each node holds its entry and links to the next one. */
  ghost predicate Linked(ns: seq<Node>, es: seq<Entry>)
    reads ns
  {
    && |ns| == |es|
    && (forall i :: 0 <= i < |ns| ==> ns[i].next == NodeAt(ns, i + 1))
    && (forall i :: 0 <= i < |ns| ==> Entry(ns[i].fd, ns[i].record) == es[i])
    && (forall i :: 0 <= i < |ns| ==> ns[i].fd >= 0)
  }

  /** The same, but no link leads to the node at position `k`. */
  ghost predicate Bypassed(ns: seq<Node>, es: seq<Entry>, k: nat)
    requires k < |ns|
    reads ns
  {
    && |ns| == |es|
    && (forall i :: 0 <= i < |ns| ==> ns[i].next == NodeAt(ns, if i + 1 == k then k + 1 else i + 1))
    && (forall i :: 0 <= i < |ns| ==> Entry(ns[i].fd, ns[i].record) == es[i])
    && (forall i :: 0 <= i < |ns| ==> ns[i].fd >= 0)
  }

  lemma BypassedIsLinked(ns: seq<Node>, es: seq<Entry>, k: nat)
    requires k < |ns| && Bypassed(ns, es, k)
    ensures Linked(DropAt(ns, k), DropAt(es, k))
    ensures NodeAt(DropAt(ns, k), 0) == NodeAt(ns, if k == 0 then 1 else 0)
  {
  }

  class Tracker {
    var head: Node?
    /** The nodes in list order, and what they hold. */
    ghost var nodes: seq<Node>
    ghost var entries: seq<Entry>

    ghost function At(k: nat): Node?
      reads this
    {
      NodeAt(nodes, k)
    }

    ghost predicate Valid()
      reads this, nodes
    {
      && head == At(0) && Linked(nodes, entries) && Distinct(entries)
    }

    ghost function Contents(): FdMap
      reads this
    {
      MapOf(entries)
    }

    constructor ()
      ensures Valid() && nodes == [] && Contents() == map[]
    {
      head, nodes, entries := null, [], [];
    }

    method Clear()
      modifies this
      ensures Valid() && nodes == [] && Contents() == map[]
    {
      head, nodes, entries := null, [], [];
    }

    /** One step along the list. */
    lemma NextNode(k: nat)
      requires Valid() && k < |nodes|
      ensures nodes[k].next == At(k + 1) && entries[k] == Entry(nodes[k].fd, nodes[k].record) && nodes[k].fd >= 0
    {
    }

    lemma Found(k: nat)
      requires Valid() && k < |nodes|
      ensures nodes[k].fd in Contents() && Contents()[nodes[k].fd] == nodes[k].record
    {
      MapOfAt(entries, k);
    }

    lemma Missing(fd: int)
      requires Valid() && (fd < 0 || AbsentBefore(entries, |nodes|, fd))
      ensures Absent(entries, fd) && fd !in Contents()
    {
      MapOfAbsent(entries, fd);
    }

    /** The search loop: a null-terminated walk finds the one node of `fd`, if any. */
    method FindNode(fd: int) returns (node: Node?, ghost k: nat)
      requires Valid()
      ensures k <= |nodes| && node == At(k)
      ensures node == null ==> Absent(entries, fd) && fd !in Contents()
      ensures node != null ==> k < |nodes| && node.fd == fd && fd in Contents() && Contents()[fd] == node.record
    {
      hide Valid, MapOf;
      NodesMatch();
      node, k := head, 0;
      while node != null && node.fd != fd
        invariant k <= |nodes| && node == At(k)
        invariant AbsentBefore(entries, k, fd)
        decreases |nodes| - k
      {
        NextNode(k);
        node, k := node.next, k + 1;
      }
      if node == null {
        Missing(fd);
      } else {
        Found(k);
      }
    }

    lemma NodesMatch()
      requires Valid()
      ensures |nodes| == |entries| && head == At(0)
    {
    }

    method Get(fd: int) returns (record: Option<FdRecord>)
      requires Valid()
      ensures record == if fd in Contents() then Some(Contents()[fd]) else None
    {
      if fd < 0 {
        Missing(fd);
        return None;
      }
      var node, k := FindNode(fd);
      record := if node == null then None else Some(node.record);
    }

    lemma NodeIsUnique(k: nat)
      requires Valid() && k < |nodes|
      ensures forall i :: 0 <= i < |nodes| && i != k ==> nodes[i] != nodes[k]
    {
    }

    /** Stores a record in an existing node. */
    method Overwrite(node: Node, ghost k: nat, record: FdRecord)
      requires Valid() && k < |nodes| && node == nodes[k]
      modifies this`entries, node`record
      ensures Valid() && Contents() == old(Contents())[node.fd := record]
    {
      MapOfReplaced(entries, k, record);
      node.record := record;
      entries := entries[k := entries[k].(record := record)];
    }

    /** Links a fresh node in front. */
    method Push(fd: int, record: FdRecord)
      requires Valid() && fd >= 0 && Absent(entries, fd)
      modifies this
      ensures Valid() && Contents() == old(Contents())[fd := record]
      ensures |nodes| == |old(nodes)| + 1 && nodes[1..] == old(nodes) && fresh(nodes[0])
    {
      MapOfPushed(Entry(fd, record), entries);
      var node := new Node(fd, record, head);
      head, nodes, entries := node, [node] + nodes, [Entry(fd, record)] + entries;
    }

    /** `*link = node->next` for the node at position `k`: no link leads to it any more. */
    method Bypass(prev: Node?, node: Node, ghost k: nat)
      requires Valid() && k < |nodes| && node == nodes[k]
      requires prev == if k > 0 then nodes[k-1] else null
      modifies this`head, (if prev == null then {} else {prev})`next
      ensures Bypassed(nodes, entries, k) && head == NodeAt(nodes, if k == 0 then 1 else 0)
    {
      if prev == null {
        head := node.next;
      } else {
        NodeIsUnique(k - 1);
        prev.next := node.next;
      }
    }

    /** The list without the node at position `k`. */
    method Unlink(prev: Node?, node: Node, ghost k: nat)
      requires Valid() && k < |nodes| && node == nodes[k]
      requires prev == if k > 0 then nodes[k-1] else null
      modifies this, prev
      ensures Valid() && nodes == DropAt(old(nodes), k)
      ensures Contents() == old(Contents()) - {node.fd}
    {
      hide MapOf, Distinct, DropAt, Bypassed, Linked, NodeAt;
      NodesMatch();
      NextNode(k);
      MapOfDropped(entries, k);
      DistinctDropped(entries, k);
      Bypass(prev, node, k);
      BypassedIsLinked(nodes, entries, k);
      nodes, entries := DropAt(nodes, k), DropAt(entries, k);
    }

    /** `canAllocate` is the outcome of malloc. */
    method Set(fd: int, record: FdRecord, canAllocate: bool)
      requires Valid()
      modifies this, nodes
      ensures Valid() && NodesGrow(old(nodes), nodes)
      ensures Contents() == if fd >= 0 && (fd in old(Contents()) || canAllocate)
                            then old(Contents())[fd := record] else old(Contents())
    {
      if fd < 0 {
        return;
      }
      var node, k := FindNode(fd);
      if node != null {
        Overwrite(node, k, record);
      } else if canAllocate {
        Push(fd, record);
      }
    }

    /** The walk over the links: `prev` is the node whose link is inspected, null for the head
        link itself. */
    method FindLink(fd: int) returns (prev: Node?, node: Node?, ghost k: nat)
      requires Valid()
      ensures node == null ==> fd !in Contents()
      ensures node != null ==> k < |nodes| && node == nodes[k] && node.fd == fd
      ensures node != null ==> prev == if k > 0 then nodes[k-1] else null
    {
      hide Valid, MapOf;
      NodesMatch();
      prev, node, k := null, head, 0;
      while node != null && node.fd != fd
        invariant k <= |nodes| && node == At(k)
        invariant prev == if k > 0 then nodes[k-1] else null
        invariant AbsentBefore(entries, k, fd)
        decreases |nodes| - k
      {
        NextNode(k);
        prev, node, k := node, node.next, k + 1;
      }
      if node == null {
        Missing(fd);
      }
    }

    method Remove(fd: int)
      requires Valid()
      modifies this, nodes
      ensures Valid() && NodesGrow(old(nodes), nodes)
      ensures Contents() == old(Contents()) - {fd}
    {
      hide Valid, MapOf;
      if fd < 0 {
        Missing(fd);
        return;
      }
      var prev, node, k := FindLink(fd);
      if node != null {
        Unlink(prev, node, k);
      }
    }

    /** The single pass of copy, looking for two descriptors that may be the same. */
    method FindBoth(oldFd: int, newFd: int) returns (oldNode: Node?, newNode: Node?, ghost i: nat, ghost j: nat)
      requires Valid()
      ensures oldNode == null ==> oldFd !in Contents()
      ensures newNode == null ==> Absent(entries, newFd) && newFd !in Contents()
      ensures oldNode != null ==> i < |nodes| && oldNode == nodes[i] && oldNode.fd == oldFd &&
                                  oldFd in Contents() && Contents()[oldFd] == oldNode.record
      ensures newNode != null ==> j < |nodes| && newNode == nodes[j] && newNode.fd == newFd && newFd in Contents()
    {
      hide Valid, MapOf;
      NodesMatch();
      oldNode, newNode, i, j := null, null, 0, 0;
      var node := head;
      ghost var k := 0;
      while node != null
        invariant k <= |nodes| && node == At(k)
        invariant if oldNode == null then AbsentBefore(entries, k, oldFd)
                  else i < |nodes| && oldNode == nodes[i] && oldNode.fd == oldFd
        invariant if newNode == null then AbsentBefore(entries, k, newFd)
                  else j < |nodes| && newNode == nodes[j] && newNode.fd == newFd
        decreases |nodes| - k
      {
        NextNode(k);
        if node.fd == oldFd {
          oldNode, i := node, k;
        }
        if node.fd == newFd {
          newNode, j := node, k;
        }
        node, k := node.next, k + 1;
      }
      if oldNode == null {
        Missing(oldFd);
      } else {
        Found(i);
      }
      if newNode == null {
        Missing(newFd);
      } else {
        Found(j);
      }
    }

    /** The record of the source is copied; without a source a stale target is unlinked. */
    method Copy(oldFd: int, newFd: int, canAllocate: bool)
      requires Valid()
      modifies this, nodes
      ensures Valid() && NodesGrow(old(nodes), nodes)
      ensures Contents() ==
              if canAllocate || oldFd !in old(Contents()) || newFd in old(Contents())
              then Copied(old(Contents()), oldFd, newFd) else old(Contents())
    {
      hide Valid, MapOf;
      if oldFd < 0 || newFd < 0 {
        if oldFd < 0 {
          Missing(oldFd);
        }
        return;
      }
      var oldNode, newNode, i, j := FindBoth(oldFd, newFd);
      if oldNode != null {
        if newNode != null {
          Overwrite(newNode, j, oldNode.record);
        } else if canAllocate {
          Push(newFd, oldNode.record);
        }
      } else if newNode != null {
        Remove(newFd);
      }
    }
  }
}

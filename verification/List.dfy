/**
 The kernel's singly linked list (threads/list): elements carry an item and a sort
 key, and the list keeps a reference to its first and to its last element.
 */
module Lists {

  /** What one list element carries. */
  datatype Cell<T> = Cell(item: T, key: int)

  // --------------------------------------------- lists as sequences

  /** `c` goes before the first cell with a larger key. */
  function Insert<T>(cs: seq<Cell<T>>, c: Cell<T>): seq<Cell<T>>
  {
    if cs == [] then [c]
    else if c.key < cs[0].key then [c] + cs
    else [cs[0]] + Insert(cs[1..], c)
  }

  ghost predicate Sorted<T>(cs: seq<Cell<T>>)
  {
    |cs| > 1 ==> cs[0].key <= cs[1].key && Sorted(cs[1..])
  }

  lemma {:induction false} SortedInOrder<T>(cs: seq<Cell<T>>, i: nat, j: nat)
    requires Sorted(cs) && i <= j < |cs|
    ensures cs[i].key <= cs[j].key
  {
    if i > 0 {
      SortedInOrder(cs[1..], i - 1, j - 1);
    } else if j > 0 {
      SortedInOrder(cs[1..], 0, j - 1);
    }
  }

  lemma SortedFromHead<T>(cs: seq<Cell<T>>)
    requires Sorted(cs) && cs != []
    ensures AtLeast(cs, cs[0].key) && AtLeast(cs[1..], cs[0].key) && Sorted(cs[1..])
  {
    forall j | 0 <= j < |cs|
      ensures cs[0].key <= cs[j].key
    {
      SortedInOrder(cs, 0, j);
    }
  }

  /** Where `Insert` puts the new cell. */
  lemma {:induction false} InsertAt<T>(cs: seq<Cell<T>>, c: Cell<T>, p: nat)
    requires p <= |cs|
    requires forall i | 0 <= i < p :: cs[i].key <= c.key
    requires p < |cs| ==> c.key < cs[p].key
    ensures Insert(cs, c) == cs[..p] + [c] + cs[p..]
  {
    if p > 0 {
      InsertAt(cs[1..], c, p - 1);
      assert cs[..p] + [c] + cs[p..] == [cs[0]] + (cs[1..][..p - 1] + [c] + cs[1..][p - 1..]);
    }
  }

  lemma {:induction false} InsertKeepsCells<T>(cs: seq<Cell<T>>, c: Cell<T>)
    ensures multiset(Insert(cs, c)) == multiset(cs) + multiset{c}
  {
    if cs != [] && c.key >= cs[0].key {
      InsertKeepsCells(cs[1..], c);
      assert cs == [cs[0]] + cs[1..];
    }
  }

  /** Every key is at least `low`. */
  ghost predicate AtLeast<T>(cs: seq<Cell<T>>, low: int)
  {
    forall i | 0 <= i < |cs| :: low <= cs[i].key
  }

  lemma {:induction false} InsertKeepsBound<T>(cs: seq<Cell<T>>, c: Cell<T>, low: int)
    requires AtLeast(cs, low) && low <= c.key
    ensures AtLeast(Insert(cs, c), low)
  {
    if cs != [] && c.key >= cs[0].key {
      InsertKeepsBound(cs[1..], c, low);
    }
  }

  lemma {:induction false} InsertKeepsSorted<T>(cs: seq<Cell<T>>, c: Cell<T>)
    requires Sorted(cs)
    ensures Sorted(Insert(cs, c))
  {
    if cs != [] && c.key >= cs[0].key {
      SortedFromHead(cs);
      InsertKeepsSorted(cs[1..], c);
      InsertKeepsBound(cs[1..], c, cs[0].key);
      assert Insert(cs, c)[1..] == Insert(cs[1..], c);
    } else if cs != [] {
      assert Insert(cs, c)[1..] == cs;
    }
  }

  // ------------------------------------------------------------ the class

  class ListElement<T> {
    const item: T
    const key: int
    var next: ListElement?<T>

    constructor (itemPtr: T, sortKey: int)
      ensures item == itemPtr && key == sortKey && next == null
    {
      item, key, next := itemPtr, sortKey, null;
    }
  }

  /** The cells of a sequence of elements; items and keys never change. */
  ghost function Cells<T>(ns: seq<ListElement<T>>): (cs: seq<Cell<T>>)
    ensures |cs| == |ns|
  {
    seq(|ns|, i requires 0 <= i < |ns| => Cell(ns[i].item, ns[i].key))
  }

  ghost predicate Distinct<T>(ns: seq<ListElement<T>>)
  {
    forall i, j | 0 <= i < j < |ns| :: ns[i] != ns[j]
  }

  lemma CellsInserted<T>(ns: seq<ListElement<T>>, e: ListElement<T>, p: nat)
    requires p <= |ns|
    ensures Cells(ns[..p] + [e] + ns[p..]) == Cells(ns)[..p] + [Cell(e.item, e.key)] + Cells(ns)[p..]
  {
  }

  lemma MembersInserted<T>(ns: seq<ListElement<T>>, e: ListElement<T>, p: nat)
    requires p <= |ns|
    ensures forall n | n in ns[..p] + [e] + ns[p..] :: n in ns || n == e
  {
  }

  lemma DistinctInserted<T>(ns: seq<ListElement<T>>, e: ListElement<T>, p: nat)
    requires p <= |ns| && Distinct(ns) && e !in ns
    ensures Distinct(ns[..p] + [e] + ns[p..])
  {
  }

  ghost function After<T>(ns: seq<ListElement<T>>, i: int): ListElement?<T>
  {
    if 0 <= i + 1 < |ns| then ns[i + 1] else null
  }

  /** The element at each place after an insertion at `p`, and the one behind it. */
  lemma InsertedAt<T>(ns: seq<ListElement<T>>, e: ListElement<T>, p: nat, i: nat)
    requires 0 < p <= |ns| && i <= |ns|
    ensures var ms := ns[..p] + [e] + ns[p..];
            && ms[i] == (if i < p then ns[i] else if i == p then e else ns[i - 1])
            && After(ms, i) == if i < p - 1 then After(ns, i)
                               else if i == p - 1 then e
                               else After(ns, i - 1)
  {
  }

  ghost predicate Linked<T>(ns: seq<ListElement<T>>)
    reads ns
  {
    forall i {:trigger ns[i].next} | 0 <= i < |ns| :: ns[i].next == After(ns, i)
  }

  /** An element was linked in behind position `k`. */
  lemma LinkedInserted<T>(ns: seq<ListElement<T>>, e: ListElement<T>, k: nat)
    requires k + 1 < |ns| && ns[k].next == e && e.next == ns[k + 1]
    requires forall i {:trigger ns[i].next} | 0 <= i < |ns| && i != k :: ns[i].next == After(ns, i)
    ensures Linked(ns[..k + 1] + [e] + ns[k + 1..])
  {
    var ms := ns[..k + 1] + [e] + ns[k + 1..];
    forall i | 0 <= i < |ms|
      ensures ms[i].next == After(ms, i)
    {
      InsertedAt(ns, e, k + 1, i);
      if i < k {
        assert ns[i].next == After(ns, i);
      } else if i > k + 1 {
        assert ns[i - 1].next == After(ns, i - 1);
      }
    }
  }

  class List<T> {
    var first: ListElement?<T>
    var last: ListElement?<T>
    ghost var nodes: seq<ListElement<T>>
    ghost var repr: set<ListElement<T>>

    /** The elements, from `first` to `last`, are the distinct nodes of the sequence. */
    ghost predicate Valid()
      reads this, repr
    {
      && (forall n | n in nodes :: n in repr)
      && Distinct(nodes) && Linked(nodes)
      && first == (if nodes == [] then null else nodes[0])
      && last == (if nodes == [] then null else nodes[|nodes| - 1])
    }

    ghost function Contents(): seq<Cell<T>>
      reads this
    {
      Cells(nodes)
    }

    constructor ()
      ensures Valid() && nodes == [] && repr == {} && Contents() == []
    {
      first, last, nodes, repr := null, null, [], {};
    }

    predicate IsEmpty()
      reads this
    {
      first == null
    }

    method Append(item: T)
      requires Valid()
      modifies this, repr
      ensures Valid() && fresh(repr - old(repr))
      ensures Contents() == old(Contents()) + [Cell(item, 0)]
    {
      var element := new ListElement<T>(item, 0);
      if IsEmpty() {
        first := element;
        last := element;
        nodes, repr := [element], repr + {element};
      } else {
        LinkLast(element);
      }
    }

    method SortedInsert(item: T, sortKey: int)
      requires Valid()
      modifies this, repr
      ensures Valid() && fresh(repr - old(repr))
      ensures Contents() == Insert(old(Contents()), Cell(item, sortKey))
    {
      var element := new ListElement<T>(item, sortKey);
      if IsEmpty() {
        first := element;
        last := element;
        nodes, repr := [element], repr + {element};
      } else if sortKey < first.key {
        InsertAt(Contents(), Cell(item, sortKey), 0);
        LinkFirst(element);
      } else {
        InsertBehindFirst(element);
      }
    }

    method InsertBehindFirst(element: ListElement<T>)
      requires Valid() && nodes != [] && nodes[0].key <= element.key
      requires element !in nodes && element.next == null
      modifies this, repr, element
      ensures Valid() && repr == old(repr) + {element}
      ensures Contents() == Insert(old(Contents()), Cell(element.item, element.key))
    {
      var ptr, k := FindPlace(element.key);
      ghost var cs, c := Contents(), Cell(element.item, element.key);
      InsertAt(cs, c, k + 1);
      MembersInserted(nodes, element, k + 1);
      if ptr.next != null {
        LinkAfter(ptr, element, k);
      } else {
        assert cs[..k + 1] + [c] + cs[k + 1..] == cs + [c];
        assert nodes[..k + 1] + [element] + nodes[k + 1..] == nodes + [element];
        LinkLast(element);
      }
    }

    /** The last element before the first one with a key larger than `sortKey`. */
    method FindPlace(sortKey: int) returns (ptr: ListElement<T>, ghost k: nat)
      requires Valid() && nodes != [] && nodes[0].key <= sortKey
      ensures k < |nodes| && ptr == nodes[k] && ptr.next == After(nodes, k)
      ensures forall j | 0 <= j <= k :: nodes[j].key <= sortKey
      ensures k + 1 < |nodes| ==> sortKey < nodes[k + 1].key
    {
      ptr, k := first, 0;
      while ptr.next != null
        invariant k < |nodes| && ptr == nodes[k]
        invariant forall j | 0 <= j <= k :: nodes[j].key <= sortKey
        decreases |nodes| - k
      {
        assert nodes[k].next == After(nodes, k);
        if sortKey < ptr.next.key {
          return;
        }
        ptr, k := ptr.next, k + 1;
      }
      assert nodes[k].next == After(nodes, k);
    }

    // The three ways of linking a new element into a list that is not empty.

    method LinkFirst(element: ListElement<T>)
      requires Valid() && nodes != [] && element !in nodes && element.next == null
      modifies this, element
      ensures Valid() && nodes == [element] + old(nodes) && repr == old(repr) + {element}
      ensures Contents() == [Cell(element.item, element.key)] + old(Contents())
    {
      element.next := first;
      first := element;
      ghost var before := nodes;
      nodes, repr := [element] + nodes, repr + {element};
      forall i | 0 <= i < |nodes|
        ensures nodes[i].next == After(nodes, i)
      {
        if i > 0 {
          assert nodes[i] == before[i - 1] && before[i - 1].next == After(before, i - 1);
        }
      }
    }

    method LinkLast(element: ListElement<T>)
      requires Valid() && nodes != [] && element !in nodes && element.next == null
      modifies this, repr
      ensures Valid() && nodes == old(nodes) + [element] && repr == old(repr) + {element}
      ensures Contents() == old(Contents()) + [Cell(element.item, element.key)]
    {
      last.next := element;
      last := element;
      nodes, repr := nodes + [element], repr + {element};
    }

    method LinkAfter(ptr: ListElement<T>, element: ListElement<T>, ghost k: nat)
      requires Valid() && k + 1 < |nodes| && ptr == nodes[k]
      requires element !in nodes && element.next == null
      modifies this, repr, element
      ensures Valid() && nodes == old(nodes)[..k + 1] + [element] + old(nodes)[k + 1..]
      ensures repr == old(repr) + {element}
      ensures Contents() == old(Contents())[..k + 1] + [Cell(element.item, element.key)] + old(Contents())[k + 1..]
    {
      CellsInserted(nodes, element, k + 1);
      DistinctInserted(nodes, element, k + 1);
      Hook(ptr, element, k);
      LinkedInserted(nodes, element, k);
      nodes, repr := nodes[..k + 1] + [element] + nodes[k + 1..], repr + {element};
    }

    method Hook(ptr: ListElement<T>, element: ListElement<T>, ghost k: nat)
      requires Distinct(nodes) && Linked(nodes) && k + 1 < |nodes| && ptr == nodes[k] && element !in nodes
      modifies ptr`next, element`next
      ensures nodes[k].next == element && element.next == nodes[k + 1]
      ensures forall i {:trigger nodes[i].next} | 0 <= i < |nodes| && i != k :: nodes[i].next == After(nodes, i)
    {
      assert nodes[k].next == After(nodes, k);
      element.next := ptr.next;
      ptr.next := element;
    }

    /** Removes the first element; a null answer in the source is the empty sequence here. */
    method SortedRemove() returns (cell: seq<Cell<T>>)
      requires Valid()
      modifies this
      ensures Valid() && repr == old(repr)
      ensures cell == old(Contents()[..if nodes == [] then 0 else 1])
      ensures Contents() == old(Contents()[if nodes == [] then 0 else 1..])
    {
      var element := first;
      if IsEmpty() {
        return [];
      }
      cell := [Cell(element.item, element.key)];
      ghost var before := nodes;
      assert before[0].next == After(before, 0);
      if first == last {
        first := null;
        last := null;
      } else {
        first := element.next;
      }
      nodes := nodes[1..];
      forall i | 0 <= i < |nodes|
        ensures nodes[i].next == After(nodes, i)
      {
        assert nodes[i] == before[i + 1] && before[i + 1].next == After(before, i + 1);
      }
    }
  }
}

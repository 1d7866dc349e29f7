/** The cache class: a list of nodes, most recently used first, and an index from keys to nodes of that list. */
module LruCacheClass {
  import opened Common
  import opened LruSpec

  // An element of the list; the index maps a key to it, as to a list iterator.
  class Node<T> {
    const key: string
    var value: T

    constructor (key: string, value: T)
      ensures this.key == key && this.value == value
    {
      this.key := key;
      this.value := value;
    }
  }

  ghost function View<T>(nodes: seq<Node<T>>): (items: seq<Entry<T>>)
    reads nodes
    ensures |items| == |nodes|
    ensures forall i :: 0 <= i < |nodes| ==> items[i] == Entry(nodes[i].key, nodes[i].value)
  {
    if nodes == [] then [] else [Entry(nodes[0].key, nodes[0].value)] + View(nodes[1..])
  }

  // The list without the node it points to.
  function Unlink<T>(nodes: seq<Node<T>>, node: Node<T>): seq<Node<T>>
  {
    if nodes == [] then []
    else if nodes[0] == node then nodes[1..]
    else [nodes[0]] + Unlink(nodes[1..], node)
  }

  lemma {:induction false} UnlinkAt<T>(nodes: seq<Node<T>>, i: nat)
    requires i < |nodes| && forall j :: 0 <= j < i ==> nodes[j] != nodes[i]
    ensures Unlink(nodes, nodes[i]) == nodes[..i] + nodes[i + 1..]
  {
    if i == 0 {
      assert nodes[..0] + nodes[1..] == nodes[1..];
    } else {
      var rest := nodes[1..];
      UnlinkAt(rest, i - 1);
      assert Unlink(nodes, nodes[i]) == [nodes[0]] + Unlink(rest, rest[i - 1]);
      hide Unlink;
      Regroup(nodes[0], rest[..i - 1], rest[i..]);
      assert nodes[..i] == [nodes[0]] + rest[..i - 1];
    }
  }

  lemma Regroup<T>(head: Node<T>, a: seq<Node<T>>, b: seq<Node<T>>)
    ensures [head] + (a + b) == [head] + a + b
  {
  }

  // The index points at exactly the nodes of the list, each under its own key.
  ghost predicate Indexed<T>(nodes: seq<Node<T>>, index: map<string, Node<T>>)
  {
    && (forall i :: 0 <= i < |nodes| ==> nodes[i].key in index && index[nodes[i].key] == nodes[i])
    && (forall i, j :: 0 <= i < j < |nodes| ==> nodes[i] != nodes[j])
    && (forall k :: k in index ==> index[k] in nodes && index[k].key == k)
  }

  // Where a key is in the list and in the list's view, or that it is in neither.
  ghost predicate At<T>(nodes: seq<Node<T>>, index: map<string, Node<T>>, key: string, i: nat)
    reads nodes
  {
    && (key in index <==> Has(View(nodes), key))
    && if key in index then
         && i < |nodes| && nodes[i] == index[key] && nodes[i].key == key
         && Unlink(nodes, nodes[i]) == Cut(nodes, i)
         && Find(View(nodes), key) == Some(nodes[i].value)
         && Without(View(nodes), key) == View(Cut(nodes, i))
       else
         Find(View(nodes), key) == None && Without(View(nodes), key) == View(nodes)
  }

  lemma Locate<T>(nodes: seq<Node<T>>, index: map<string, Node<T>>, key: string) returns (i: nat)
    requires Indexed(nodes, index)
    ensures At(nodes, index, key, i)
  {
    assert DistinctKeys(View(nodes));
    i := Lookup(View(nodes), key);
    if i < |nodes| {
      UnlinkAt(nodes, i);
      ViewCut(nodes, i);
    } else if key in index {
      IndexedKeyHasEntry(nodes, index, key);
    }
    hide Find, Without, View, Unlink, Cut, Has;
  }

  lemma ViewCut<T>(nodes: seq<Node<T>>, i: nat)
    requires i < |nodes|
    ensures View(Cut(nodes, i)) == View(nodes)[..i] + View(nodes)[i + 1..]
  {
    hide View;
    var l, r := View(Cut(nodes, i)), View(nodes)[..i] + View(nodes)[i + 1..];
    assert |l| == |r|;
    forall j | 0 <= j < |l| ensures l[j] == r[j] {
      var k := if j < i then j else j + 1;
      assert Cut(nodes, i)[j] == nodes[k];
      assert l[j] == View(nodes)[k];
    }
  }

  lemma IndexedKeyHasEntry<T>(nodes: seq<Node<T>>, index: map<string, Node<T>>, key: string)
    requires Indexed(nodes, index) && key in index
    ensures Has(View(nodes), key)
  {
    var j :| 0 <= j < |nodes| && nodes[j] == index[key];
    assert View(nodes)[j].key == key;
  }

  ghost function Cut<T>(nodes: seq<Node<T>>, i: nat): seq<Node<T>>
    requires i < |nodes|
  {
    nodes[..i] + nodes[i + 1..]
  }

  lemma CutAt<T>(nodes: seq<Node<T>>, i: nat)
    requires i < |nodes|
    ensures |Cut(nodes, i)| == |nodes| - 1
    ensures forall j :: 0 <= j < |nodes| - 1 ==> Cut(nodes, i)[j] == if j < i then nodes[j] else nodes[j + 1]
    ensures forall n :: n in nodes ==> n == nodes[i] || n in Cut(nodes, i)
  {
    forall n | n in nodes && n != nodes[i] ensures n in Cut(nodes, i) {
      var k :| 0 <= k < |nodes| && nodes[k] == n;
      assert Cut(nodes, i)[if k < i then k else k - 1] == n;
    }
  }

  // What is left of the list is under its own keys still, and without repeats.
  lemma CutNode<T>(nodes: seq<Node<T>>, index: map<string, Node<T>>, i: nat, j: nat)
    requires Indexed(nodes, index) && i < |nodes| && j < |nodes| - 1
    ensures |Cut(nodes, i)| == |nodes| - 1
    ensures var n := Cut(nodes, i)[j];
            n != nodes[i] && n.key != nodes[i].key && n.key in index && index[n.key] == n
  {
    assert Cut(nodes, i)[j] == nodes[if j < i then j else j + 1];
  }

  lemma CutDistinct<T>(nodes: seq<Node<T>>, index: map<string, Node<T>>, i: nat, j: nat, k: nat)
    requires Indexed(nodes, index) && i < |nodes| && j < k < |nodes| - 1
    ensures |Cut(nodes, i)| == |nodes| - 1 && Cut(nodes, i)[j] != Cut(nodes, i)[k]
  {
    assert Cut(nodes, i)[j] == nodes[if j < i then j else j + 1];
    assert Cut(nodes, i)[k] == nodes[if k < i then k else k + 1];
  }

  lemma CutKey<T>(nodes: seq<Node<T>>, index: map<string, Node<T>>, i: nat, key: string)
    requires Indexed(nodes, index) && i < |nodes| && key in index && key != nodes[i].key
    ensures index[key] in Cut(nodes, i) && index[key].key == key
  {
    CutAt(nodes, i);
    hide Cut;
  }

  lemma IndexedCut<T>(nodes: seq<Node<T>>, index: map<string, Node<T>>, i: nat)
    requires Indexed(nodes, index) && i < |nodes|
    ensures Indexed(Cut(nodes, i), index - {nodes[i].key})
    ensures nodes[i] !in Cut(nodes, i)
  {
    CutSize(nodes, i);
    var cut := Cut(nodes, i);
    forall j | 0 <= j < |cut|
      ensures cut[j] != nodes[i] && cut[j].key != nodes[i].key && cut[j].key in index && index[cut[j].key] == cut[j]
    {
      hide Cut, Indexed;
      CutNode(nodes, index, i, j);
    }
    forall j, k | 0 <= j < k < |cut| ensures cut[j] != cut[k] {
      hide Cut, Indexed;
      CutDistinct(nodes, index, i, j, k);
    }
    forall key | key in index && key != nodes[i].key ensures index[key] in cut && index[key].key == key {
      hide Cut, Indexed;
      CutKey(nodes, index, i, key);
    }
    hide Cut, Indexed;
    IndexedIf(cut, index - {nodes[i].key});
  }

  lemma CutSize<T>(nodes: seq<Node<T>>, i: nat)
    requires i < |nodes|
    ensures |Cut(nodes, i)| == |nodes| - 1
  {
  }

  lemma IndexedIf<T>(nodes: seq<Node<T>>, index: map<string, Node<T>>)
    requires forall i :: 0 <= i < |nodes| ==> nodes[i].key in index && index[nodes[i].key] == nodes[i]
    requires forall i, j :: 0 <= i < j < |nodes| ==> nodes[i] != nodes[j]
    requires forall k :: k in index ==> index[k] in nodes && index[k].key == k
    ensures Indexed(nodes, index)
  {
  }

  lemma IndexedPush<T>(nodes: seq<Node<T>>, index: map<string, Node<T>>, node: Node<T>)
    requires Indexed(nodes, index) && node.key !in index && node !in nodes
    ensures Indexed([node] + nodes, index[node.key := node])
  {
    var pushed := [node] + nodes;
    assert forall i :: 1 <= i < |pushed| ==> pushed[i] == nodes[i - 1];
    forall k | k in index ensures index[k] in pushed {
      var j :| 0 <= j < |nodes| && nodes[j] == index[k];
      assert pushed[j + 1] == index[k];
    }
  }

  // Splicing a node to the front leaves the index as it is.
  lemma IndexedSplice<T>(nodes: seq<Node<T>>, index: map<string, Node<T>>, i: nat)
    requires Indexed(nodes, index) && i < |nodes|
    ensures Indexed([nodes[i]] + Cut(nodes, i), index)
    ensures nodes[i] !in Cut(nodes, i)
  {
    IndexedCut(nodes, index, i);
    IndexedPush(Cut(nodes, i), index - {nodes[i].key}, nodes[i]);
    assert index == (index - {nodes[i].key})[nodes[i].key := nodes[i]];
  }

  class LruCache<T> {
    const cap: nat
    var items: seq<Node<T>>
    var itemsMap: map<string, Node<T>>
    ghost var Repr: set<object>

    ghost predicate Valid()
      reads this, Repr
      ensures Valid() ==> this in Repr
    {
      && this in Repr && |items| <= cap
      && (forall n <- items :: n in Repr)
      && Indexed(items, itemsMap)
    }

    ghost function Contents(): seq<Entry<T>>
      requires Valid()
      reads this, Repr
    {
      View(items)
    }

    constructor (cap: nat)
      ensures Valid() && fresh(Repr) && this.cap == cap && Contents() == []
    {
      this.cap := cap;
      items := [];
      itemsMap := map[];
      Repr := {this};
    }

    lemma InMapIffHas(key: string)
      requires Valid()
      ensures key in itemsMap <==> Has(Contents(), key)
    {
      var i := Locate(items, itemsMap, key);
    }

    predicate Contains(key: string)
      requires Valid()
      reads this, Repr
      ensures Contains(key) <==> Has(Contents(), key)
    {
      InMapIffHas(key);
      key in itemsMap
    }

    // None stands for the out_of_range exception.
    method Get(key: string) returns (r: Option<T>)
      requires Valid()
      modifies this`items
      ensures Valid()
      ensures r == Find(old(Contents()), key)
      ensures Contents() == GetSpec(old(Contents()), key)
    {
      hide Indexed, Find, Without, Cut, Unlink, View;
      ghost var i := Locate(items, itemsMap, key);
      if key !in itemsMap {
        return None;
      }
      var it := itemsMap[key];
      IndexedSplice(items, itemsMap, i);
      CutIsPart(items, i);
      items := [it] + Unlink(items, it);
      return Some(it.value);
    }

    // Undefined for capacity 0, where it would take the back of an empty list.
    method Put(key: string, value: T) returns (defined: bool)
      requires Valid()
      modifies Repr
      ensures Valid() && fresh(Repr - old(Repr))
      ensures defined <==> cap >= 1
      ensures Contents() == if defined then PutSpec(old(Contents()), cap, key, value) else old(Contents())
    {
      hide Indexed, Find, Without, Cut, Unlink, View;
      if cap == 0 {
        return false;
      }
      defined := true;
      ghost var i := Locate(items, itemsMap, key);
      if key in itemsMap {
        Overwrite(key, value);
      } else {
        if |items| >= cap {
          DropLast();
        }
        PushFront(key, value);
      }
    }

    // Changes the value in place and splices the node to the front.
    method Overwrite(key: string, value: T)
      requires Valid() && key in itemsMap
      modifies Repr
      ensures Valid() && Repr == old(Repr)
      ensures Contents() == [Entry(key, value)] + Without(old(Contents()), key)
    {
      hide Indexed, Find, Without, Cut, Unlink, View;
      ghost var i := Locate(items, itemsMap, key);
      IndexedSplice(items, itemsMap, i);
      CutIsPart(items, i);
      var it := itemsMap[key];
      it.value := value;
      items := [it] + Unlink(items, it);
    }

    method DropLast()
      requires Valid() && items != []
      modifies this`items, this`itemsMap
      ensures Valid() && |items| == old(|items|) - 1 && itemsMap.Keys < old(itemsMap.Keys)
      ensures Contents() == old(Contents())[..|old(Contents())| - 1]
    {
      hide Indexed, Cut, View;
      var last := items[|items| - 1];
      IndexedCut(items, itemsMap, |items| - 1);
      CutLast(items);
      assert last.key in itemsMap by {
        LastIndexed(items, itemsMap);
      }
      items, itemsMap := items[..|items| - 1], itemsMap - {last.key};
    }

    method PushFront(key: string, value: T)
      requires Valid() && key !in itemsMap && |items| < cap
      modifies this
      ensures Valid() && fresh(Repr - old(Repr))
      ensures Contents() == [Entry(key, value)] + old(Contents())
    {
      hide Indexed, View;
      var node := new Node(key, value);
      IndexedPush(items, itemsMap, node);
      items, itemsMap := [node] + items, itemsMap[key := node];
      Repr := Repr + {node};
    }

    method Erase(key: string)
      requires Valid()
      modifies this`items, this`itemsMap
      ensures Valid()
      ensures Contents() == Without(old(Contents()), key)
    {
      hide Indexed, Find, Without, Cut, Unlink, View;
      ghost var i := Locate(items, itemsMap, key);
      if key !in itemsMap {
        return;
      }
      IndexedCut(items, itemsMap, i);
      CutIsPart(items, i);
      items, itemsMap := Unlink(items, itemsMap[key]), itemsMap - {key};
    }

    method Clear()
      requires Valid()
      modifies this`items, this`itemsMap
      ensures Valid()
      ensures Contents() == []
    {
      items := [];
      itemsMap := map[];
    }
  }

  lemma CutIsPart<T>(nodes: seq<Node<T>>, i: nat)
    requires i < |nodes|
    ensures |Cut(nodes, i)| == |nodes| - 1
    ensures forall n <- Cut(nodes, i) :: n in nodes
  {
  }

  lemma LastIndexed<T>(nodes: seq<Node<T>>, index: map<string, Node<T>>)
    requires Indexed(nodes, index) && nodes != []
    ensures nodes[|nodes| - 1].key in index
  {
  }

  lemma CutLast<T>(nodes: seq<Node<T>>)
    requires nodes != []
    ensures Cut(nodes, |nodes| - 1) == nodes[..|nodes| - 1]
    ensures View(nodes[..|nodes| - 1]) == View(nodes)[..|nodes| - 1]
  {
  }
}

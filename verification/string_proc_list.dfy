/** The doubly linked list of TP2-x86_64/src/ej1/ej1.c: nodes carry a type
    byte and a hash string, the list object points at its first and last
    node, and string_proc_list_concat joins the hashes of the nodes of one
    type. A NULL pointer argument is a `null` reference; a NULL hash is
    `None`. A C string is modelled by its characters before the terminator. */
module StringProcList {
  import opened Options

  /** The uint8_t type tag of a node. */
  newtype Byte = x: int | 0 <= x < 256

  /** What a node holds, as seen by a reader walking the list. */
  datatype Entry = Entry(kind: Byte, hash: string)

  // ---------------------------------------------------------------------------
  // Specification of the filtered concatenation

  /** The hashes of the entries of type t, joined in list order. */
  function Matching(entries: seq<Entry>, t: Byte): string
  {
    if entries == [] then ""
    else
      var last := entries[|entries| - 1];
      Matching(entries[..|entries| - 1], t) + (if last.kind == t then last.hash else "")
  }

  /** The entries of type t, in list order. */
  function Filter(entries: seq<Entry>, t: Byte): (r: seq<Entry>)
    ensures |r| <= |entries|
    ensures forall i :: 0 <= i < |r| ==> r[i].kind == t && r[i] in entries
    ensures forall i :: 0 <= i < |entries| && entries[i].kind == t ==> entries[i] in r
  {
    if entries == [] then []
    else if entries[0].kind == t then [entries[0]] + Filter(entries[1..], t)
    else Filter(entries[1..], t)
  }

  /** Filtering keeps list order: the entries of type t in a list split in
      two are those of the first part followed by those of the second. */
  lemma {:induction false} FilterAppend(a: seq<Entry>, b: seq<Entry>, t: Byte)
    ensures Filter(a + b, t) == Filter(a, t) + Filter(b, t)
    decreases |a|
  {
    if a != [] {
      assert (a + b)[0] == a[0];
      assert (a + b)[1..] == a[1..] + b;
      FilterAppend(a[1..], b, t);
    } else {
      assert a + b == b;
    }
  }

  /** All hashes of a sequence of entries, joined front to back. */
  function JoinHashes(entries: seq<Entry>): string
  {
    if entries == [] then "" else entries[0].hash + JoinHashes(entries[1..])
  }

  /** str_concat: a followed by b, of length strlen(a) + strlen(b). */
  function StrConcat(a: string, b: string): (r: string)
    ensures |r| == |a| + |b|
    ensures r[..|a|] == a && r[|a|..] == b
  {
    a + b
  }

  /** Appending one entry appends its hash when it has type t. */
  lemma MatchingSnoc(entries: seq<Entry>, e: Entry, t: Byte)
    ensures Matching(entries + [e], t) == Matching(entries, t) + (if e.kind == t then e.hash else "")
  {
    assert (entries + [e])[..|entries|] == entries;
  }

  /** Joining distributes over splitting the list in two. */
  lemma {:induction false} MatchingAppend(a: seq<Entry>, b: seq<Entry>, t: Byte)
    ensures Matching(a + b, t) == Matching(a, t) + Matching(b, t)
    decreases |b|
  {
    if b == [] {
      assert a + b == a;
    } else {
      var init, last := b[..|b| - 1], b[|b| - 1];
      assert b == init + [last];
      assert a + b == (a + init) + [last];
      var x := if last.kind == t then last.hash else "";
      MatchingAppend(a, init, t);
      MatchingSnoc(a + init, last, t);
      MatchingSnoc(init, last, t);
      assert (Matching(a, t) + Matching(init, t)) + x == Matching(a, t) + (Matching(init, t) + x);
    }
  }

  /** Matching agrees with the independent definition that filters first and
      then joins front to back. */
  lemma {:induction false} MatchingIsJoinOfFilter(entries: seq<Entry>, t: Byte)
    ensures Matching(entries, t) == JoinHashes(Filter(entries, t))
  {
    if entries != [] {
      var head, rest := entries[0], entries[1..];
      assert entries == [head] + rest;
      MatchingIsJoinOfFilter(rest, t);
      MatchingAppend([head], rest, t);
      MatchingSingle(head, t);
      if head.kind == t {
        JoinCons(head, Filter(rest, t));
      }
    }
  }

  lemma MatchingSingle(e: Entry, t: Byte)
    ensures Matching([e], t) == if e.kind == t then e.hash else ""
  {
    assert [] + [e] == [e];
    MatchingSnoc([], e, t);
  }

  lemma JoinCons(e: Entry, rest: seq<Entry>)
    ensures JoinHashes([e] + rest) == e.hash + JoinHashes(rest)
  {
    assert ([e] + rest)[1..] == rest;
  }

  /** A list with no node of type t contributes nothing. */
  lemma {:induction false} MatchingNone(entries: seq<Entry>, t: Byte)
    requires forall i :: 0 <= i < |entries| ==> entries[i].kind != t
    ensures Matching(entries, t) == ""
  {
    if entries != [] {
      MatchingNone(entries[..|entries| - 1], t);
    }
  }

  /** The joined string is as long as the matching hashes together. */
  lemma {:induction false} MatchingLength(entries: seq<Entry>, t: Byte)
    ensures |Matching(entries, t)| == |JoinHashes(Filter(entries, t))|
  {
    MatchingIsJoinOfFilter(entries, t);
  }

  // ---------------------------------------------------------------------------
  // The linked structure

  class Node {
    var kind: Byte
    var hash: string
    var next: Node?
    var previous: Node?

    /** string_proc_node_create on a non-NULL hash: an unlinked node. */
    constructor (kind: Byte, hash: string)
      ensures this.kind == kind && this.hash == hash
      ensures next == null && previous == null
    {
      this.kind := kind;
      this.hash := hash;
      next := null;
      previous := null;
    }
  }

  class List {
    var first: Node?
    var last: Node?
    /** The nodes reachable from first, in next order. */
    ghost var nodes: seq<Node>
    /** What those nodes hold, in the same order. */
    ghost var Contents: seq<Entry>

    /** The nodes are distinct and linked both ways; first and last are the
        ends of the chain; Contents mirrors the nodes' fields. */
    ghost predicate Valid()
      reads this, nodes
    {
      && |Contents| == |nodes|
      && (forall i :: 0 <= i < |nodes| ==> Contents[i] == Entry(nodes[i].kind, nodes[i].hash))
      && (forall i, j :: 0 <= i < j < |nodes| ==> nodes[i] != nodes[j])
      && (nodes == [] ==> first == null && last == null)
      && (nodes != [] ==>
            && first == nodes[0] && last == nodes[|nodes| - 1]
            && first.previous == null && last.next == null)
      && (forall i :: 0 <= i < |nodes| - 1 ==>
            nodes[i].next == nodes[i + 1] && nodes[i + 1].previous == nodes[i])
    }

    /** string_proc_list_create: an empty list. */
    constructor ()
      ensures Valid() && Contents == [] && nodes == []
      ensures first == null && last == null
    {
      first := null;
      last := null;
      nodes := [];
      Contents := [];
    }

    /** The linking step of string_proc_list_add_node: an empty list gets
        node as its first and last node; otherwise node is linked after the
        last one and becomes the last. */
    method Append(node: Node)
      requires Valid() && node !in nodes && node.next == null && node.previous == null
      modifies this, nodes, node
      ensures Valid()
      ensures nodes == old(nodes) + [node] && Contents == old(Contents) + [Entry(node.kind, node.hash)]
      ensures last == node && node.kind == old(node.kind) && node.hash == old(node.hash)
    {
      if first == null {
        first := node;
        last := node;
      } else {
        last.next := node;
        node.previous := last;
        last := node;
      }
      nodes := nodes + [node];
      Contents := Contents + [Entry(node.kind, node.hash)];
    }

    /** The link invariant in the terms of the C structure: first and last
        are NULL together, the ends are open, and every next link is
        mirrored by a previous link. */
    lemma LinkInvariant()
      requires Valid()
      ensures first == null <==> last == null
      ensures first != null ==> first.previous == null
      ensures last != null ==> last.next == null
      ensures forall n :: n in nodes && n.next != null ==> n.next in nodes && n.next.previous == n
    {
      forall n | n in nodes && n.next != null
        ensures n.next in nodes && n.next.previous == n
      {
        var i :| 0 <= i < |nodes| && nodes[i] == n;
        if i < |nodes| - 1 {
          assert n.next == nodes[i + 1];
        }
      }
    }
  }

  /** string_proc_node_create: no node for a NULL hash, otherwise an unlinked
      node holding the type and the hash. */
  method NodeCreate(kind: Byte, hash: Option<string>) returns (node: Node?)
    ensures node == null <==> hash.None?
    ensures node != null ==> fresh(node) && node.kind == kind && node.hash == hash.value
    ensures node != null ==> node.next == null && node.previous == null
  {
    if hash.None? {
      return null;
    }
    node := new Node(kind, hash.value);
  }

  /** string_proc_list_add_node: a NULL list or a NULL hash changes nothing;
      otherwise a new node holding (kind, hash) is linked after the last one. */
  method AddNode(list: List?, kind: Byte, hash: Option<string>)
    requires list != null ==> list.Valid()
    modifies list, if list == null then [] else list.nodes
    ensures list != null ==> list.Valid()
    ensures list != null && hash.None? ==>
      list.Contents == old(list.Contents) && list.nodes == old(list.nodes)
      && list.first == old(list.first) && list.last == old(list.last)
    ensures list != null && hash.Some? ==>
      && list.Contents == old(list.Contents) + [Entry(kind, hash.value)]
      && list.nodes[..|list.nodes| - 1] == old(list.nodes)
      && fresh(list.last) && list.last.kind == kind && list.last.hash == hash.value
  {
    if list == null {
      return;
    }
    var node := NodeCreate(kind, hash);
    if node == null {
      return;
    }
    list.Append(node);
  }

  /** string_proc_list_concat: NULL for a NULL list; otherwise the hashes of
      the nodes of the given type joined in list order, with hash in front
      when it is not NULL. The list is only read. */
  method Concat(list: List?, kind: Byte, hash: Option<string>) returns (r: Option<string>)
    requires list != null ==> list.Valid()
    ensures list == null ==> r.None?
    ensures list != null && hash.None? ==> r == Some(Matching(list.Contents, kind))
    ensures list != null && hash.Some? ==> r == Some(hash.value + Matching(list.Contents, kind))
  {
    if list == null {
      return None;
    }
    var joined := "";
    var cur := list.first;
    ghost var i := 0;
    while cur != null
      invariant 0 <= i <= |list.nodes|
      invariant cur == (if i < |list.nodes| then list.nodes[i] else null)
      invariant joined == Matching(list.Contents[..i], kind)
      decreases |list.nodes| - i
    {
      if cur.kind == kind {
        joined := StrConcat(joined, cur.hash);
      }
      assert list.Contents[..i + 1][..i] == list.Contents[..i];
      cur := cur.next;
      i := i + 1;
    }
    assert list.Contents[..i] == list.Contents;
    if hash.Some? {
      joined := StrConcat(hash.value, joined);
    }
    return Some(joined);
  }

  /** The sequence of calls of the debugging driver: three nodes of types 1,
      2 and 1, then the concatenation of type 1 with prefix "ZZZ". The prefix
      comes first. */
  method DriverScenario() returns (r: Option<string>)
    ensures r == Some("ZZZAAACCC")
  {
    var list := new List();
    AddNode(list, 1, Some("AAA"));
    AddNode(list, 2, Some("BBB"));
    AddNode(list, 1, Some("CCC"));
    assert list.Contents == [Entry(1, "AAA"), Entry(2, "BBB"), Entry(1, "CCC")];
    r := Concat(list, 1, Some("ZZZ"));
    MatchingExample();
    assert "ZZZ" + "AAACCC" == "ZZZAAACCC";
  }

  /** The hashes of type 1 in the driver's list. */
  lemma MatchingExample()
    ensures Matching([Entry(1, "AAA"), Entry(2, "BBB"), Entry(1, "CCC")], 1) == "AAACCC"
  {
    var one := [Entry(1, "AAA")];
    var two := one + [Entry(2, "BBB")];
    var three := two + [Entry(1, "CCC")];
    assert one[..0] == [];
    assert Matching(one, 1) == "AAA";
    assert two[..1] == one;
    assert Matching(two, 1) == "AAA";
    assert three[..2] == two;
  }
}

// SeparatedSyntaxList: nodes and the separators between them, stored
// alternately in one array: node, separator, node, ..., node.
module SeparatedLists {
  import opened Wrappers
  import opened Int32

  /** Reading past the end of the array throws IndexOutOfRangeException. */
  datatype IndexFault = IndexOutOfRange

  /** The elements at the even positions of the array: the nodes. */
  function Nodes<T>(s: seq<T>): seq<T>
    decreases |s|
  {
    if |s| <= 1 then s else [s[0]] + Nodes(s[2..])
  }

  /** Nodes and separators interleaved: what the parser stores, with one
      separator between each two nodes. */
  function Interleave<T>(nodes: seq<T>, separators: seq<T>): (s: seq<T>)
    requires |separators| + 1 == |nodes| || (nodes == [] && separators == [])
    ensures |s| == |nodes| + |separators|
    decreases |nodes|
  {
    if |nodes| <= 1 then nodes else [nodes[0], separators[0]] + Interleave(nodes[1..], separators[1..])
  }

  datatype SeparatedList<T> = SeparatedList(nodesAndSeparators: seq<T>)
  {
    /** Count: (n + 1) / 2 for n stored items, the number of even positions. */
    function Count(): (c: nat)
      ensures 2 * c == |nodesAndSeparators| || 2 * c == |nodesAndSeparators| + 1
    {
      (|nodesAndSeparators| + 1) / 2
    }

    /** ImmutableArray's Length is an int, so the stored array never holds
        more than int.MaxValue items. */
    predicate Fits()
    {
      |nodesAndSeparators| <= MaxValue
    }

    /** The indexer: node i is the item at index * 2, a product C# computes
        unchecked, so it wraps to 32 bits. An index from 0 to Count - 1 reads
        node index; an index below -2^30 wraps back to item
        index * 2 + 2^32, which may lie inside the array; any other index
        reads outside the array and throws. */
    function Get(index: i32): (r: Result<T, IndexFault>)
      requires Fits()
      ensures 0 <= index < Count() ==> r == Success(nodesAndSeparators[2 * index])
      ensures index < -0x4000_0000 ==>
        r == if 2 * index + Modulus < |nodesAndSeparators| then Success(nodesAndSeparators[2 * index + Modulus])
             else Failure(IndexOutOfRange)
      ensures -0x4000_0000 <= index < 0 || Count() <= index ==> r == Failure(IndexOutOfRange)
    {
      WrapOffset(index, 0);
      var offset := Wrap(index * 2);
      if 0 <= offset < |nodesAndSeparators| then Success(nodesAndSeparators[offset]) else Failure(IndexOutOfRange)
    }

    /** GetSeparator: null after the last node (even when the array ends in
        a separator, and at index -1 of an empty list); otherwise the item
        at index * 2 + 1, computed unchecked as the indexer's offset is, which
        throws when it lies outside the array. */
    function GetSeparator(index: i32): (r: Result<Option<T>, IndexFault>)
      requires Fits()
      ensures index == Count() - 1 ==> r == Success(None)
      ensures 0 <= index < Count() - 1 ==> r == Success(Some(nodesAndSeparators[2 * index + 1]))
      ensures index < -0x4000_0000 ==>
        r == if 2 * index + 1 + Modulus < |nodesAndSeparators| then Success(Some(nodesAndSeparators[2 * index + 1 + Modulus]))
             else Failure(IndexOutOfRange)
      ensures (-0x4000_0000 <= index < 0 || Count() <= index) && index != Count() - 1 ==> r == Failure(IndexOutOfRange)
    {
      WrapOffset(index, 1);
      if index as int == Count() - 1 then Success(None)
      else
        var offset := Wrap(Wrap(index * 2) + 1);
        if 0 <= offset < |nodesAndSeparators| then Success(Some(nodesAndSeparators[offset])) else Failure(IndexOutOfRange)
    }

    /** GetWhiteSeparators: the stored array as it is. */
    function WhiteSeparators(): (s: seq<T>)
      ensures s == nodesAndSeparators
    {
      nodesAndSeparators
    }
  }

  /** The unchecked offset index * 2 + extra: the exact value for an index
      from -2^30 to 2^30 - 1, 2^32 more below that range and 2^32 less
      above it. */
  lemma WrapOffset(index: i32, extra: nat)
    requires extra <= 1
    ensures Wrap(Wrap(index * 2) + extra) ==
      if index < -0x4000_0000 then 2 * index + extra + Modulus
      else if index < 0x4000_0000 then 2 * index + extra
      else 2 * index + extra - Modulus
  {
    var w := if index < -0x4000_0000 then 2 * index + Modulus
      else if index < 0x4000_0000 then 2 * index
      else 2 * index - Modulus;
    WrapUnique(index * 2, w);
    WrapUnique(w + extra, w + extra);
  }

  /** Nodes picks exactly the even positions, in order. */
  lemma {:induction false} NodesAreEvenPositions<T>(s: seq<T>)
    ensures |Nodes(s)| == (|s| + 1) / 2
    ensures forall i :: 0 <= i < |Nodes(s)| ==> Nodes(s)[i] == s[2 * i]
    decreases |s|
  {
    if |s| > 1 {
      NodesAreEvenPositions(s[2..]);
      forall i | 0 <= i < |Nodes(s)| ensures Nodes(s)[i] == s[2 * i] {
        if i > 0 {
          assert Nodes(s)[i] == Nodes(s[2..])[i - 1];
        }
      }
    }
  }

  /** The enumerator: this[0] through this[Count - 1], in order. */
  method Enumerate<T>(list: SeparatedList<T>) returns (items: seq<T>)
    requires list.Fits()
    ensures items == Nodes(list.nodesAndSeparators)
  {
    items := [];
    var i := 0;
    while i < list.Count()
      invariant 0 <= i <= list.Count() && |items| == i
      invariant forall k :: 0 <= k < i ==> items[k] == list.nodesAndSeparators[2 * k]
    {
      items := items + [list.Get(i).value];
      i := i + 1;
    }
    NodesAreEvenPositions(list.nodesAndSeparators);
  }

  /** A list built from nodes and the separators between them gives the
      nodes back through the indexer and the enumerator, and each
      separator through GetSeparator; there is none after the last node. */
  lemma {:induction false} InterleaveRoundTrip<T>(nodes: seq<T>, separators: seq<T>)
    requires |separators| + 1 == |nodes| || (nodes == [] && separators == [])
    requires |nodes| + |separators| <= MaxValue
    ensures SeparatedList(Interleave(nodes, separators)).Count() == |nodes|
    ensures Nodes(Interleave(nodes, separators)) == nodes
    ensures forall i :: 0 <= i < |nodes| ==> SeparatedList(Interleave(nodes, separators)).Get(i) == Success(nodes[i])
    ensures forall i :: 0 <= i < |separators| ==> SeparatedList(Interleave(nodes, separators)).GetSeparator(i) == Success(Some(separators[i]))
    ensures SeparatedList(Interleave(nodes, separators)).GetSeparator(|nodes| - 1) == Success(None)
    decreases |nodes|
  {
    var s := Interleave(nodes, separators);
    InterleavePositions(nodes, separators);
    NodesAreEvenPositions(s);
  }

  /** Node i of an interleaving sits at 2i and separator i at 2i + 1. */
  lemma {:induction false} InterleavePositions<T>(nodes: seq<T>, separators: seq<T>)
    requires |separators| + 1 == |nodes| || (nodes == [] && separators == [])
    ensures forall i :: 0 <= i < |nodes| ==> Interleave(nodes, separators)[2 * i] == nodes[i]
    ensures forall i :: 0 <= i < |separators| ==> Interleave(nodes, separators)[2 * i + 1] == separators[i]
    decreases |nodes|
  {
    if |nodes| > 1 {
      var rest := Interleave(nodes[1..], separators[1..]);
      InterleavePositions(nodes[1..], separators[1..]);
      assert Interleave(nodes, separators) == [nodes[0], separators[0]] + rest;
      forall i | 0 <= i < |nodes| ensures Interleave(nodes, separators)[2 * i] == nodes[i] {
        if i > 0 {
          assert Interleave(nodes, separators)[2 * i] == rest[2 * (i - 1)];
        }
      }
      forall i | 0 <= i < |separators| ensures Interleave(nodes, separators)[2 * i + 1] == separators[i] {
        if i > 0 {
          assert Interleave(nodes, separators)[2 * i + 1] == rest[2 * (i - 1) + 1];
        }
      }
    }
  }
}

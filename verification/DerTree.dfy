/**
 Nested DER values: what the writer's calls nest into, and what a reader makes of the octets.
 The reader accepts the encodings of expressible trees and nothing else.
 */
module DerTree {
  import opened Wrappers
  import opened Der

  datatype Node =
    | Primitive(kind: Kind, number: nat, content: Bytes)
    | Constructed(kind: Kind, number: nat, items: seq<Node>)

  function TagOf(node: Node): Tag {
    Tag(node.kind, node.Constructed?, node.number)
  }

  function Content(node: Node): Bytes
    decreases node, 0
  {
    match node
    case Primitive(_, _, content) => content
    case Constructed(_, _, items) => EncodeAll(items)
  }

  function Encode(node: Node): (r: Bytes)
    ensures r != []
    decreases node, 1
  {
    Element(TagOf(node), Content(node))
  }

  function EncodeAll(items: seq<Node>): Bytes
    decreases items, 2
  {
    if items == [] then [] else Encode(items[0]) + EncodeAll(items[1..])
  }

  /** Every length in the tree is one X.690 can express. */
  predicate Expressible(node: Node)
    decreases node, 1
  {
    Standard(|Content(node)|) && (node.Constructed? ==> AllExpressible(node.items))
  }

  predicate AllExpressible(items: seq<Node>)
    decreases items, 2
  {
    items == [] || (Expressible(items[0]) && AllExpressible(items[1..]))
  }

  // Reading

  function DecodeNode(bs: Bytes): (r: Option<(Node, Bytes)>)
    ensures r.Some? ==> |r.value.1| < |bs|
    decreases |bs|, 0
  {
    match ReadElement(bs)
    case None => None
    case Some((tag, content, rest)) =>
      if !tag.constructed then Some((Primitive(tag.kind, tag.number, content), rest))
      else match DecodeAll(content)
        case None => None
        case Some(items) => Some((Constructed(tag.kind, tag.number, items), rest))
  }

  function DecodeAll(bs: Bytes): Option<seq<Node>>
    decreases |bs|, 1
  {
    if bs == [] then Some([])
    else match DecodeNode(bs)
      case None => None
      case Some((node, rest)) =>
        match DecodeAll(rest)
        case None => None
        case Some(items) => Some([node] + items)
  }

  lemma {:induction false} NodeReads(node: Node, rest: Bytes)
    requires Expressible(node)
    ensures DecodeNode(Encode(node) + rest) == Some((node, rest))
    decreases node, 0
  {
    ElementReadsBack(TagOf(node), Content(node), rest);
    if node.Constructed? {
      AllRead(node.items);
    }
  }

  lemma {:induction false} AllRead(items: seq<Node>)
    requires AllExpressible(items)
    ensures DecodeAll(EncodeAll(items)) == Some(items)
    decreases items, 1
  {
    if items != [] {
      NodeReads(items[0], EncodeAll(items[1..]));
      AllRead(items[1..]);
      assert EncodeAll(items) != [] && items == [items[0]] + items[1..];
    }
  }

  lemma {:induction false} NodeReadsExactly(bs: Bytes, node: Node, rest: Bytes)
    requires DecodeNode(bs) == Some((node, rest))
    ensures Expressible(node) && bs == Encode(node) + rest
    decreases |bs|, 0
  {
    var (tag, content, tail) := ReadElement(bs).value;
    ReadElementExactly(bs, tag, content, tail);
    if tag.constructed {
      AllReadExactly(content, node.items);
    }
  }

  lemma {:induction false} AllReadExactly(bs: Bytes, items: seq<Node>)
    requires DecodeAll(bs) == Some(items)
    ensures AllExpressible(items) && bs == EncodeAll(items)
    decreases |bs|, 1
  {
    if bs != [] {
      var (node, rest) := DecodeNode(bs).value;
      NodeReadsExactly(bs, node, rest);
      AllReadExactly(rest, items[1..]);
    }
  }

  /** A tree is read back, whatever follows it, exactly when it is expressible. */
  lemma TreeReadsBack(node: Node, rest: Bytes)
    ensures DecodeNode(Encode(node) + rest) == Some((node, rest)) <==> Expressible(node)
  {
    if Expressible(node) {
      NodeReads(node, rest);
    } else if DecodeNode(Encode(node) + rest) == Some((node, rest)) {
      NodeReadsExactly(Encode(node) + rest, node, rest);
    }
  }

  /** No encoding begins another: octets determine where a value ends. */
  lemma PrefixFree(a: Node, b: Node)
    requires Expressible(a) && Expressible(b) && Encode(a) <= Encode(b)
    ensures a == b
  {
    var rest := Encode(b)[|Encode(a)|..];
    assert Encode(b) == Encode(a) + rest && Encode(b) == Encode(b) + [];
    NodeReads(a, rest);
    NodeReads(b, []);
  }

  // Every tree whose encoding has an expressible length is expressible

  lemma {:induction false} FewerDigits(m: nat, n: nat)
    requires m <= n
    ensures |Digits(m, 256)| <= |Digits(n, 256)|
  {
    if m > 0 {
      FewerDigits(m / 256, n / 256);
    }
  }

  lemma {:induction false} ShortIsExpressible(node: Node)
    requires Standard(|Encode(node)|)
    ensures Expressible(node)
    decreases node, 0
  {
    FewerDigits(|Content(node)|, |Encode(node)|);
    if node.Constructed? {
      ShortAreExpressible(node.items);
    }
  }

  lemma {:induction false} ShortAreExpressible(items: seq<Node>)
    requires Standard(|EncodeAll(items)|)
    ensures AllExpressible(items)
    decreases items, 1
  {
    if items != [] {
      FewerDigits(|Encode(items[0])|, |EncodeAll(items)|);
      FewerDigits(|EncodeAll(items[1..])|, |EncodeAll(items)|);
      ShortIsExpressible(items[0]);
      ShortAreExpressible(items[1..]);
    }
  }
}

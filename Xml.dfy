/**
  The already-parsed XML document the decoders read, and the one view of it
  that serde's derived struct visitors use: the values given under a set of
  names. serde_xml_rs presents an element to a struct visitor as a map whose
  keys are first the element's attribute names, then the local names of its
  child elements, in document order; everything a decoder learns about a
  field comes from the entries whose key is one of the field's spellings.
*/
module Xml {

  datatype Attribute = Attribute(key: string, value: string)

  /** An element: its local name (any namespace prefix already dropped) and what it holds. */
  datatype Element = Element(name: string, body: Body)

  /** What an element holds: its attributes, its child elements and its character data. */
  datatype Body = Body(attributes: seq<Attribute>, children: seq<Element>, text: string)

  /** A map entry's value as a visitor sees it: an attribute's text or a child's body. */
  datatype Value = Text(text: string) | Nested(body: Body)

  function AttributeValues(attributes: seq<Attribute>, names: seq<string>): seq<Value>
  {
    if attributes == [] then []
    else (if attributes[0].key in names then [Text(attributes[0].value)] else [])
         + AttributeValues(attributes[1..], names)
  }

  function ChildValues(children: seq<Element>, names: seq<string>): seq<Value>
  {
    if children == [] then []
    else (if children[0].name in names then [Nested(children[0].body)] else [])
         + ChildValues(children[1..], names)
  }

  /** Every value of `b` given under one of `names`, attributes first, each group in document order. */
  function Values(b: Body, names: seq<string>): seq<Value>
  {
    AttributeValues(b.attributes, names) + ChildValues(b.children, names)
  }

  /** `b` with every attribute and child element called `from` called `to` instead. */
  function Rename(b: Body, from: string, to: string): Body
  {
    b.(attributes := RenameAttributes(b.attributes, from, to),
       children := RenameChildren(b.children, from, to))
  }

  function RenameAttributes(attributes: seq<Attribute>, from: string, to: string): seq<Attribute>
  {
    if attributes == [] then []
    else [if attributes[0].key == from then attributes[0].(key := to) else attributes[0]]
         + RenameAttributes(attributes[1..], from, to)
  }

  function RenameChildren(children: seq<Element>, from: string, to: string): seq<Element>
  {
    if children == [] then []
    else [if children[0].name == from then children[0].(name := to) else children[0]]
         + RenameChildren(children[1..], from, to)
  }

  /** `b` with one more attribute, written after the existing ones. */
  function AddAttribute(b: Body, key: string, value: string): Body
  {
    b.(attributes := b.attributes + [Attribute(key, value)])
  }

  /** `b` with one more child element, written after the existing ones. */
  function AddChild(b: Body, child: Element): Body
  {
    b.(children := b.children + [child])
  }

  lemma {:induction false} RenameAttributesKeepsValues(attributes: seq<Attribute>, from: string, to: string, names: seq<string>)
    requires from in names <==> to in names
    ensures AttributeValues(RenameAttributes(attributes, from, to), names) == AttributeValues(attributes, names)
  {
    if attributes != [] {
      var renamed := RenameAttributes(attributes, from, to);
      assert renamed[1..] == RenameAttributes(attributes[1..], from, to);
      RenameAttributesKeepsValues(attributes[1..], from, to, names);
    }
  }

  lemma {:induction false} RenameChildrenKeepsValues(children: seq<Element>, from: string, to: string, names: seq<string>)
    requires from in names <==> to in names
    ensures ChildValues(RenameChildren(children, from, to), names) == ChildValues(children, names)
  {
    if children != [] {
      var renamed := RenameChildren(children, from, to);
      assert renamed[1..] == RenameChildren(children[1..], from, to);
      RenameChildrenKeepsValues(children[1..], from, to, names);
    }
  }

  /** Renaming between two names that `names` treats alike changes nothing a field sees. */
  lemma RenameKeepsValues(b: Body, from: string, to: string, names: seq<string>)
    requires from in names <==> to in names
    ensures Values(Rename(b, from, to), names) == Values(b, names)
  {
    RenameAttributesKeepsValues(b.attributes, from, to, names);
    RenameChildrenKeepsValues(b.children, from, to, names);
  }

  lemma {:induction false} AttributeValuesAppend(xs: seq<Attribute>, ys: seq<Attribute>, names: seq<string>)
    ensures AttributeValues(xs + ys, names) == AttributeValues(xs, names) + AttributeValues(ys, names)
  {
    if xs == [] {
      assert xs + ys == ys;
    } else {
      var zs := xs + ys;
      var head := if xs[0].key in names then [Text(xs[0].value)] else [];
      assert zs[0] == xs[0] && zs[1..] == xs[1..] + ys;
      assert AttributeValues(zs, names) == head + AttributeValues(xs[1..] + ys, names);
      assert AttributeValues(xs, names) == head + AttributeValues(xs[1..], names);
      AttributeValuesAppend(xs[1..], ys, names);
    }
  }

  lemma {:induction false} ChildValuesAppend(xs: seq<Element>, ys: seq<Element>, names: seq<string>)
    ensures ChildValues(xs + ys, names) == ChildValues(xs, names) + ChildValues(ys, names)
  {
    if xs == [] {
      assert xs + ys == ys;
    } else {
      var zs := xs + ys;
      var head := if xs[0].name in names then [Nested(xs[0].body)] else [];
      assert zs[0] == xs[0] && zs[1..] == xs[1..] + ys;
      assert ChildValues(zs, names) == head + ChildValues(xs[1..] + ys, names);
      assert ChildValues(xs, names) == head + ChildValues(xs[1..], names);
      ChildValuesAppend(xs[1..], ys, names);
    }
  }

  /** An added attribute is seen only by the fields that spell its key, after the other attributes. */
  lemma AddAttributeValues(b: Body, key: string, value: string, names: seq<string>)
    ensures key !in names ==> Values(AddAttribute(b, key, value), names) == Values(b, names)
    ensures key in names ==>
              Values(AddAttribute(b, key, value), names)
              == AttributeValues(b.attributes, names) + [Text(value)] + ChildValues(b.children, names)
  {
    AttributeValuesAppend(b.attributes, [Attribute(key, value)], names);
  }

  /** An added child element is seen only by the fields that spell its name, after everything else. */
  lemma AddChildValues(b: Body, child: Element, names: seq<string>)
    ensures Values(AddChild(b, child), names)
      == Values(b, names) + (if child.name in names then [Nested(child.body)] else [])
  {
    ChildValuesAppend(b.children, [child], names);
  }
}

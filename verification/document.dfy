/** The loaded content of one topic file: a YAML mapping from category name to a list of
    elements, each with a description and data lines. */
module Document {
  import opened Seqs

  datatype Element = Element(description: string, data: seq<string>)

  datatype Category = Category(name: string, elements: seq<Element>)

  /** The mapping in the order the file lists its categories (a Ruby Hash keeps insertion order). */
  type Doc = seq<Category>

  /** `Hash#delete(name)`: the categories called `name` removed, the rest kept in order. */
  function Delete(doc: Doc, name: string): (r: Doc)
    ensures IsSubseq(r, doc)
    ensures forall c :: c in r <==> c in doc && c.name != name
    decreases |doc|
  {
    if doc == [] then []
    else if doc[0].name == name then Delete(doc[1..], name)
    else [doc[0]] + Delete(doc[1..], name)
  }

  /** Every (category name, element) pair of `doc`, categories in order and elements in
      order within each: the order of the nested `each` loops. */
  function Pairs(doc: Doc): (ps: seq<(string, Element)>)
    ensures forall n, e :: (n, e) in ps <==> exists c :: c in doc && c.name == n && e in c.elements
    decreases |doc|
  {
    if doc == [] then [] else PairsOf(doc[0].name, doc[0].elements) + Pairs(doc[1..])
  }

  function PairsOf(name: string, es: seq<Element>): (ps: seq<(string, Element)>)
    ensures |ps| == |es|
    ensures forall i :: 0 <= i < |es| ==> ps[i] == (name, es[i])
    decreases |es|
  {
    if es == [] then [] else [(name, es[0])] + PairsOf(name, es[1..])
  }
}

/**
 * The flat element list of `graph.rs`: elements are appended, and removed
 * by name, first match only. Positions and sizes are carried along but
 * never computed on.
 */
module Graph {
  import opened Wrappers

  /** `Element`: a name with a position and a size on the canvas. */
  datatype Element = Element(name: string, position: (real, real), size: (real, real))

  /** The index of the first element called `name`, if any. */
  function FirstNamed(elements: seq<Element>, name: string): (r: Option<nat>)
    ensures r.Some? ==> r.value < |elements| && elements[r.value].name == name
    ensures r.Some? ==> forall j :: 0 <= j < r.value ==> elements[j].name != name
    ensures r.None? <==> forall j :: 0 <= j < |elements| ==> elements[j].name != name
  {
    if elements == [] then None
    else if elements[0].name == name then Some(0)
    else
      var rest := FirstNamed(elements[1..], name);
      if rest.None? then None else Some(rest.value + 1)
  }

  /** Some element is called `name`. */
  predicate HasNamed(elements: seq<Element>, name: string)
  {
    exists j :: 0 <= j < |elements| && elements[j].name == name
  }

  /** `elements` without its first element called `name`. */
  function WithoutFirst(elements: seq<Element>, name: string): seq<Element>
    requires HasNamed(elements, name)
  {
    var k := FirstNamed(elements, name).value;
    elements[..k] + elements[k + 1..]
  }

  class Graph {
    var elements: seq<Element>
    var lastXPosition: nat

    /** `Graph::default`: no elements, the next column at 0. */
    constructor ()
      ensures elements == [] && lastXPosition == 0
    {
      elements := [];
      lastXPosition := 0;
    }

    /** `elements`: the stored list. */
    function Elements(): seq<Element>
      reads this
    {
      elements
    }

    /** `add_element`: appends at the end. */
    method AddElement(element: Element)
      modifies this
      ensures elements == old(elements) + [element]
      ensures lastXPosition == old(lastXPosition)
    {
      elements := elements + [element];
    }

    /**
     * `remove_element`: finds the first element with that name and removes
     * it; the source unwraps the search, so the name must be present.
     */
    method RemoveElement(name: string)
      requires HasNamed(elements, name)
      modifies this
      ensures elements == WithoutFirst(old(elements), name)
      ensures lastXPosition == old(lastXPosition)
    {
      var index := Position(elements, name);
      elements := elements[..index] + elements[index + 1..];
    }
  }

  /** `iter().position(..).unwrap()`: the index of the first match. */
  method Position(elements: seq<Element>, name: string) returns (index: nat)
    requires HasNamed(elements, name)
    ensures FirstNamed(elements, name) == Some(index)
  {
    index := 0;
    while elements[index].name != name
      invariant index < |elements|
      invariant forall j :: 0 <= j < index ==> elements[j].name != name
      decreases |elements| - index
    {
      index := index + 1;
    }
  }

  /**
   * Removing by name drops exactly one element, the first called `name`:
   * the length falls by one and the elements kept are the others.
   */
  lemma WithoutFirstRemovesOne(elements: seq<Element>, name: string)
    requires HasNamed(elements, name)
    ensures |WithoutFirst(elements, name)| == |elements| - 1
    ensures multiset(WithoutFirst(elements, name)) + multiset{elements[FirstNamed(elements, name).value]} == multiset(elements)
  {
    RemoveAtCounts(elements, FirstNamed(elements, name).value);
  }

  lemma RemoveAtCounts(elements: seq<Element>, k: nat)
    requires k < |elements|
    ensures multiset(elements[..k] + elements[k + 1..]) + multiset{elements[k]} == multiset(elements)
  {
    var front, back := elements[..k], elements[k + 1..];
    assert elements == front + [elements[k]] + back;
  }

  /** Removing a name that was absent before an append undoes the append. */
  lemma RemoveUndoesAdd(elements: seq<Element>, element: Element)
    requires !HasNamed(elements, element.name)
    ensures HasNamed(elements + [element], element.name)
    ensures WithoutFirst(elements + [element], element.name) == elements
  {
    var all := elements + [element];
    assert all[|elements|].name == element.name;
    assert forall j :: 0 <= j < |elements| ==> all[j] == elements[j];
    var k := FirstNamed(all, element.name).value;
    assert all[..k] == elements;
  }

  /** A remove after an add keeps the list when the name already existed elsewhere earlier. */
  lemma RemoveTakesEarliest(elements: seq<Element>, element: Element)
    requires HasNamed(elements, element.name)
    ensures HasNamed(elements + [element], element.name)
    ensures WithoutFirst(elements + [element], element.name) == WithoutFirst(elements, element.name) + [element]
  {
    var all := elements + [element];
    var k := FirstNamed(elements, element.name).value;
    assert all[k] == elements[k];
    FirstNamedPrefix(elements, [element], element.name);
    assert all[..k] == elements[..k];
    assert all[k + 1..] == elements[k + 1..] + [element];
  }

  /** A match in a prefix is found in the prefix, whatever follows it. */
  lemma {:induction false} FirstNamedPrefix(elements: seq<Element>, more: seq<Element>, name: string)
    requires HasNamed(elements, name)
    ensures FirstNamed(elements + more, name) == FirstNamed(elements, name)
  {
    var k := FirstNamed(elements, name).value;
    var r := FirstNamed(elements + more, name);
    assert (elements + more)[k] == elements[k];
    assert forall j :: 0 <= j < |elements| ==> (elements + more)[j] == elements[j];
  }
}

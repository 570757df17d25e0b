/** Excalidraw elements: the value an element holds, and the mutable object that holds it. */
module Elements {

  /** Everything one element object holds. `body` stands for every field the sync code never looks at. */
  datatype ElementData = ElementData(
    id: string, version: nat, versionNonce: int, updated: int, isDeleted: bool, body: string)

  /** An element up to version, nonce and timestamp: what a user sees. */
  datatype Content = Content(id: string, isDeleted: bool, body: string)

  function ContentOf(e: ElementData): Content {
    Content(e.id, e.isDeleted, e.body)
  }

  /** A scene or a shared map seen as one value per id. */
  type ById = map<string, ElementData>

  /** Every entry sits under its own id. */
  ghost predicate Keyed(m: ById) {
    forall id :: id in m ==> m[id].id == id
  }

  ghost predicate UniqueIds(els: seq<ElementData>) {
    forall i, j :: 0 <= i < j < |els| ==> els[i].id != els[j].id
  }

  /** The element object. Excalidraw mutates it in place, so it lives on the heap; its id never changes. */
  class Element {
    const id: string
    var version: nat
    var versionNonce: int
    var updated: int
    var isDeleted: bool
    var body: string

    constructor (d: ElementData)
      ensures Data() == d
    {
      id, version, versionNonce := d.id, d.version, d.versionNonce;
      updated, isDeleted, body := d.updated, d.isDeleted, d.body;
    }

    function Data(): ElementData
      reads this
    {
      ElementData(id, version, versionNonce, updated, isDeleted, body)
    }

    /** An in-place edit: every field but the id may change. */
    method Mutate(d: ElementData)
      requires d.id == id
      modifies this
      ensures Data() == d
    {
      version, versionNonce, updated := d.version, d.versionNonce, d.updated;
      isDeleted, body := d.isDeleted, d.body;
    }
  }

  /** structuredClone: a new object with the same fields. */
  method StructuredClone(e: Element) returns (c: Element)
    ensures fresh(c) && c.Data() == e.Data()
  {
    c := new Element(e.Data());
  }

  /** The values a list of element objects holds. */
  function DataOf(els: seq<Element>): (r: seq<ElementData>)
    reads els
    ensures |r| == |els|
    ensures forall i :: 0 <= i < |els| ==> r[i] == els[i].Data()
  {
    seq(|els|, i requires 0 <= i < |els| reads els => els[i].Data())
  }

  lemma DataOfAppend(els: seq<Element>, e: Element)
    ensures DataOf(els + [e]) == DataOf(els) + [e.Data()]
  {
  }

  /** The values the objects of a map hold. */
  function DataById(entries: map<string, Element>): ById
    reads entries.Values
  {
    map id | id in entries :: entries[id].Data()
  }

  lemma DataByIdUpdate(entries: map<string, Element>, id: string, e: Element)
    ensures DataById(entries[id := e]) == DataById(entries)[id := e.Data()]
  {
  }

  /** No object occurs twice. */
  ghost predicate Distinct(els: seq<Element>) {
    forall i, j :: 0 <= i < j < |els| ==> els[i] != els[j]
  }

  lemma DataOfConcat(a: seq<Element>, b: seq<Element>)
    ensures DataOf(a + b) == DataOf(a) + DataOf(b)
  {
  }

  lemma DistinctConcat(a: seq<Element>, b: seq<Element>)
    requires Distinct(a) && Distinct(b) && forall e :: e in b ==> e !in a
    ensures Distinct(a + b)
  {
    forall i, j | 0 <= i < |a| <= j < |a + b| ensures (a + b)[i] != (a + b)[j] {
      assert (a + b)[j] in b;
    }
  }
}

/**
 * The kind of an entry in the notebook store: a document or a collection
 * (folder). Each kind has a type string, its label followed by "Type".
 */
module ContentType {
  import opened Wrappers

  datatype Type = Document | Collection

  /** The enum's values in declaration order. */
  const Values: seq<Type> := [Document, Collection]

  /** The label each constant is declared with. */
  function Label(t: Type): string
  {
    match t
    case Document => "Document"
    case Collection => "Collection"
  }

  /** `getType()`: the label with the suffix appended by the constructor. */
  function TypeString(t: Type): (r: string)
    ensures |r| > 4 && r[|r| - 4..] == "Type"
  {
    Label(t) + "Type"
  }

  /** The search loop of `get`: the first value in `values` whose type string is
      `s`, or `None` (Java's `null`). */
  function Find(values: seq<Type>, s: string): (r: Option<Type>)
    ensures r.Some? ==> r.value in values && TypeString(r.value) == s
    ensures r.None? ==> forall t :: t in values ==> TypeString(t) != s
  {
    if |values| == 0 then None
    else if s == TypeString(values[0]) then Some(values[0])
    else Find(values[1..], s)
  }

  /** `Type.get(s)`. The argument is dereferenced, so it is never null here. */
  function Get(s: string): (r: Option<Type>)
    ensures r.Some? ==> TypeString(r.value) == s
    ensures r.None? ==> s != "DocumentType" && s != "CollectionType"
  {
    assert Values[0] == Document && Values[1] == Collection;
    assert TypeString(Document) == "DocumentType" && TypeString(Collection) == "CollectionType";
    Find(Values, s)
  }

  lemma TypeStrings()
    ensures TypeString(Document) == "DocumentType"
    ensures TypeString(Collection) == "CollectionType"
  {
  }

  /** Distinct kinds have distinct type strings. */
  lemma TypeStringInjective(a: Type, b: Type)
    ensures TypeString(a) == TypeString(b) ==> a == b
  {
    if a != b {
      assert TypeString(a)[0] != TypeString(b)[0];
    }
  }

  /** Looking up a kind's own type string gives that kind back. */
  lemma RoundTrip(t: Type)
    ensures Get(TypeString(t)) == Some(t)
  {
    var r := Get(TypeString(t));
    TypeStringInjective(r.value, t);
  }

  /** `get` finds a kind exactly for the two type strings and is `null` for every
      other string. */
  lemma GetExactly(s: string)
    ensures Get(s).Some? <==> s == "DocumentType" || s == "CollectionType"
  {
    if s == "DocumentType" {
      RoundTrip(Document);
    } else if s == "CollectionType" {
      RoundTrip(Collection);
    }
  }
}

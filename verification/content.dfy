/**
 * A notebook (or collection) of the store: its identity, pages, template names
 * and folders, with page lookup, page attachment, template choice, thumbnail
 * choice, equality and hash code.
 */
module ContentModel {
  import opened Wrappers
  import opened JavaInt
  import opened PageModel
  import ContentType

  /** `ref` is the object's identity, the value pages point back to. A null id is
      `None`; `typeName` is the raw type string the kind is looked up from. */
  datatype Content = Content(
    ref: NotebookRef,
    id: Option<string>,
    name: string,
    typeName: Option<string>,
    currentPage: Int32,
    templateNames: seq<string>,
    folders: seq<string>,
    pages: seq<Page>)

  /** The loop of `getPage`: the first page in list order with number `n`, or
      `None` (Java's `null`). */
  function FindPage(pages: seq<Page>, n: int): (r: Option<Page>)
    ensures r.None? <==> forall i :: 0 <= i < |pages| ==> pages[i].number != n
    ensures r.Some? ==> exists i :: 0 <= i < |pages| && pages[i] == r.value && r.value.number == n
                           && forall j :: 0 <= j < i ==> pages[j].number != n
  {
    if |pages| == 0 then None
    else if pages[0].number == n then Some(pages[0])
    else
      var r := FindPage(pages[1..], n);
      assert r.Some? ==> exists i :: (0 <= i < |pages[1..]| && pages[1..][i] == r.value
                                     && forall j :: 0 <= j < i ==> pages[1..][j].number != n);
      assert forall i :: 0 < i < |pages| ==> pages[i] == pages[1..][i - 1];
      r
  }

  /** `getPage(number)`. */
  function GetPage(c: Content, n: int): Option<Page>
  {
    FindPage(c.pages, n)
  }

  /** `p` with its back-reference set to the notebook `c`. */
  function Attach(p: Page, c: Content): Page
  {
    p.(notebook := Some(c.ref))
  }

  /** Every page of `c` points back to `c`. */
  predicate Attached(c: Content)
  {
    forall i :: 0 <= i < |c.pages| ==> c.pages[i].notebook == Some(c.ref)
  }

  /** `add(page)`: the page gets its back-reference and goes to the end of the list;
      the earlier pages and every other field stay as they were. */
  function Add(c: Content, p: Page): (r: Content)
    ensures |r.pages| == |c.pages| + 1
    ensures r.pages[..|c.pages|] == c.pages
    ensures r.pages[|c.pages|].notebook == Some(c.ref)
    ensures r.pages[|c.pages|].(notebook := p.notebook) == p
    ensures r.(pages := c.pages) == c
  {
    c.(pages := c.pages + [Attach(p, c)])
  }

  /** `setPages(pages)`: the list becomes `ps`, each page now pointing back to `c`
      and otherwise unchanged. */
  function SetPages(c: Content, ps: seq<Page>): (r: Content)
    ensures |r.pages| == |ps|
    ensures Attached(r)
    ensures forall i :: 0 <= i < |ps| ==> r.pages[i].(notebook := ps[i].notebook) == ps[i]
    ensures r.(pages := c.pages) == c
  {
    c.(pages := seq(|ps|, i requires 0 <= i < |ps| => Attach(ps[i], c)))
  }

  /** `getDefaultTemplate()`: the last template name, or `None` when there is none. */
  function DefaultTemplate(c: Content): (r: Option<string>)
    ensures r.None? <==> |c.templateNames| == 0
    ensures r.Some? ==> r.value in c.templateNames
  {
    if |c.templateNames| > 0 then Some(c.templateNames[|c.templateNames| - 1]) else None
  }

  /** `getTemplateName(page)`: the template at the page's number. The list access
      fails for a number outside the list, so callers must stay inside it. */
  function TemplateName(c: Content, p: Page): (r: string)
    requires 0 <= p.number < |c.templateNames|
    ensures r in c.templateNames
  {
    c.templateNames[p.number]
  }

  /** `getThumbnail()`: the thumbnail of the current page; failing that, of page 0;
      failing that, none. */
  function Thumbnail(c: Content): (r: Option<string>)
    ensures GetPage(c, c.currentPage).Some? ==> r == GetPage(c, c.currentPage).value.thumbnail
    ensures GetPage(c, c.currentPage).None? && GetPage(c, 0).Some? ==> r == GetPage(c, 0).value.thumbnail
    ensures r.Some? ==> exists i :: 0 <= i < |c.pages| && c.pages[i].thumbnail == r
                           && (c.pages[i].number == c.currentPage || c.pages[i].number == 0)
  {
    var p := GetPage(c, c.currentPage);
    if p.Some? then p.value.thumbnail
    else
      var q := GetPage(c, 0);
      if q.Some? then q.value.thumbnail else None
  }

  /** `getType()`: the kind named by the type string; the string is dereferenced,
      so it must be set. */
  function Kind(c: Content): (r: Option<ContentType.Type>)
    requires c.typeName.Some?
    ensures r.Some? ==> ContentType.TypeString(r.value) == c.typeName.value
  {
    ContentType.Get(c.typeName.value)
  }

  /** The null-aware comparison of two ids in `equals`. */
  function IdEquals(a: Option<string>, b: Option<string>): bool
  {
    if a.None? then b.None? else b.Some? && a.value == b.value
  }

  /** `equals`: the same object, or equal ids and equal page lists. */
  function Equals(a: Content, b: Content): bool
  {
    a == b || (IdEquals(a.id, b.id) && a.pages == b.pages)
  }

  /** Java's `String.hashCode()`: `s[0]*31^(n-1) + ... + s[n-1]` in `int` arithmetic. */
  function StringHash(s: string): Int32
  {
    if |s| == 0 then 0
    else Wrap(31 * StringHash(s[..|s| - 1]) + (s[|s| - 1] as int))
  }

  /** `List.hashCode()` with the element hash `pageHash`. `Page.hashCode` is not
      part of this model, so it is a parameter. */
  function ListHash(pages: seq<Page>, pageHash: Page -> Int32): Int32
  {
    if |pages| == 0 then 1
    else Wrap(31 * ListHash(pages[..|pages| - 1], pageHash) + pageHash(pages[|pages| - 1]))
  }

  /** `hashCode()`: built from the id (0 when null) and the page list. */
  function HashCode(c: Content, pageHash: Page -> Int32): Int32
  {
    var idHash := if c.id.None? then 0 else StringHash(c.id.value);
    var result := Wrap(31 * 1 + idHash);
    Wrap(31 * result + ListHash(c.pages, pageHash))
  }

  // ---------------------------------------------------------------------------
  // Properties.
  // ---------------------------------------------------------------------------

  /** A page added to a notebook that has no page with its number is found by that
      number afterwards; lookups of every other number are unaffected. */
  lemma AddThenGet(c: Content, p: Page, n: int)
    ensures GetPage(c, p.number).None? ==> GetPage(Add(c, p), p.number) == Some(Attach(p, c))
    ensures GetPage(c, n).Some? ==> GetPage(Add(c, p), n) == GetPage(c, n)
    ensures n != p.number ==> GetPage(Add(c, p), n) == GetPage(c, n)
  {
    FindPageAppend(c.pages, Attach(p, c), p.number);
    FindPageAppend(c.pages, Attach(p, c), n);
  }

  lemma {:induction false} FindPageAppend(pages: seq<Page>, p: Page, n: int)
    ensures FindPage(pages + [p], n)
         == if FindPage(pages, n).Some? then FindPage(pages, n)
            else if p.number == n then Some(p) else None
    decreases |pages|
  {
    if |pages| > 0 {
      assert (pages + [p])[1..] == pages[1..] + [p];
      FindPageAppend(pages[1..], p, n);
    } else {
      assert pages + [p] == [p];
    }
  }

  /** `add` keeps a notebook whose pages all point back to it in that state. */
  lemma AddKeepsAttached(c: Content, p: Page)
    requires Attached(c)
    ensures Attached(Add(c, p))
  {
  }

  /** The default template is the template of the page numbered last in the list. */
  lemma DefaultIsLastTemplate(c: Content, p: Page)
    requires p.number == |c.templateNames| - 1 && |c.templateNames| > 0
    ensures DefaultTemplate(c) == Some(TemplateName(c, p))
  {
  }

  /** Appending a template name makes it the default. */
  lemma AppendedTemplateIsDefault(c: Content, name: string)
    ensures DefaultTemplate(c.(templateNames := c.templateNames + [name])) == Some(name)
  {
  }

  /** The identity test in `equals` is a shortcut only: two notebooks are equal
      exactly when their ids (null or not) and their page lists are equal. */
  lemma EqualsMeaning(a: Content, b: Content)
    ensures Equals(a, b) <==> a.id == b.id && a.pages == b.pages
  {
  }

  /** `equals` is an equivalence relation. */
  lemma EqualsEquivalence(a: Content, b: Content, c: Content)
    ensures Equals(a, a)
    ensures Equals(a, b) ==> Equals(b, a)
    ensures Equals(a, b) && Equals(b, c) ==> Equals(a, c)
  {
    EqualsMeaning(a, b);
    EqualsMeaning(b, c);
    EqualsMeaning(a, c);
  }

  /** Equal notebooks have equal hash codes. */
  lemma EqualsHashCode(a: Content, b: Content, pageHash: Page -> Int32)
    requires Equals(a, b)
    ensures HashCode(a, pageHash) == HashCode(b, pageHash)
  {
    EqualsMeaning(a, b);
  }

  /** The thumbnail is absent whenever no page is numbered as the current page or 0,
      and also when the chosen page has none. */
  lemma ThumbnailFallback(c: Content)
    ensures (forall i :: 0 <= i < |c.pages| ==> c.pages[i].number != c.currentPage && c.pages[i].number != 0)
              ==> Thumbnail(c) == None
  {
  }
}

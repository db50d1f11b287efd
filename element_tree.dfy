/** An already-parsed XML document, and the three kinds of lookup the
    converter performs on it with Python's ElementTree:
      - `findall('.//tag')`: every descendant with that tag, in document order;
      - `find('.//tag')`: the first of those;
      - `find('tag')`: the first direct child with that tag. */
module ElementTree {
  import opened Wrappers

  /** An element: its tag, its text (None when the element has no text) and
      its child elements in document order. */
  datatype Element = Element(tag: string, text: Option<string>, children: seq<Element>)

  /** The result of parsing a file: ElementTree either raises a parse error or
      yields the root element. */
  datatype Document = Malformed | Parsed(root: Element)

  /** `e` followed by all of its descendants, in document (pre-)order. */
  function Subtree(e: Element): seq<Element>
    decreases e, 1
  {
    [e] + ChildSubtrees(e, 0)
  }

  /** The subtrees of `e.children[i..]`, one after the other. */
  function ChildSubtrees(e: Element, i: nat): seq<Element>
    requires i <= |e.children|
    decreases e, 0, |e.children| - i
  {
    if i == |e.children| then [] else Subtree(e.children[i]) + ChildSubtrees(e, i + 1)
  }

  /** The strict descendants of `e` in document order (`e` itself excluded). */
  function Descendants(e: Element): seq<Element>
  {
    ChildSubtrees(e, 0)
  }

  /** The elements of `s` whose tag is `tag`, in their order in `s`. */
  function WithTag(s: seq<Element>, tag: string): (r: seq<Element>)
    ensures |r| <= |s|
    ensures forall x :: x in r ==> x in s && x.tag == tag
    ensures forall x :: x in s && x.tag == tag ==> x in r
  {
    if s == [] then []
    else (if s[0].tag == tag then [s[0]] else []) + WithTag(s[1..], tag)
  }

  /** `e.findall('.//' + tag)` */
  function FindAll(e: Element, tag: string): seq<Element>
  {
    WithTag(Descendants(e), tag)
  }

  /** `e.find('.//' + tag)`: a depth-first search of the descendants of `e`
      that stops at the first element with that tag. */
  function FindFirst(e: Element, tag: string): Option<Element>
    decreases e, 1
  {
    FindFirstFrom(e, 0, tag)
  }

  /** The search of `FindFirst` over the subtrees of `e.children[i..]`. */
  function FindFirstFrom(e: Element, i: nat, tag: string): Option<Element>
    requires i <= |e.children|
    decreases e, 0, |e.children| - i
  {
    if i == |e.children| then None
    else if e.children[i].tag == tag then Some(e.children[i])
    else match FindFirst(e.children[i], tag)
      case Some(d) => Some(d)
      case None => FindFirstFrom(e, i + 1, tag)
  }

  /** The position of the first element of `cs` with tag `tag`. */
  function ChildIndex(cs: seq<Element>, tag: string): (r: Option<nat>)
    ensures r.None? <==> forall j :: 0 <= j < |cs| ==> cs[j].tag != tag
    ensures r.Some? ==> r.value < |cs| && cs[r.value].tag == tag
    ensures r.Some? ==> forall j :: 0 <= j < r.value ==> cs[j].tag != tag
  {
    if cs == [] then None
    else if cs[0].tag == tag then Some(0)
    else match ChildIndex(cs[1..], tag)
      case None => None
      case Some(k) => Some(k + 1)
  }

  /** `e.find(tag)`: the first direct child of `e` with that tag. */
  function FindChild(e: Element, tag: string): (r: Option<Element>)
    ensures r.None? <==> forall c :: c in e.children ==> c.tag != tag
    ensures r.Some? ==> r.value in e.children && r.value.tag == tag
    ensures r.Some? ==> exists i :: 0 <= i < |e.children| && e.children[i] == r.value
                                   && forall j :: 0 <= j < i ==> e.children[j].tag != tag
  {
    match ChildIndex(e.children, tag)
    case None => None
    case Some(i) => Some(e.children[i])
  }

  /** The filter keeps each element carrying the tag exactly as often as it
      occurs, and drops every other element. */
  lemma {:induction false} WithTagCounts(s: seq<Element>, tag: string)
    ensures forall x :: multiset(WithTag(s, tag))[x] == if x.tag == tag then multiset(s)[x] else 0
  {
    if s != [] {
      WithTagCounts(s[1..], tag);
      assert s == [s[0]] + s[1..];
    }
  }

  lemma {:induction false} WithTagAppend(a: seq<Element>, b: seq<Element>, tag: string)
    ensures WithTag(a + b, tag) == WithTag(a, tag) + WithTag(b, tag)
  {
    if a == [] {
      assert a + b == b;
    } else {
      assert (a + b)[1..] == a[1..] + b;
      WithTagAppend(a[1..], b, tag);
    }
  }

  /** `find('.//tag')` returns the first element that `findall('.//tag')`
      returns, and nothing exactly when `findall` finds nothing. */
  lemma {:induction false} FindFirstIsFirstOfFindAll(e: Element, tag: string)
    ensures FindFirst(e, tag) == Head(FindAll(e, tag))
    decreases e, 1
  {
    FindFirstFromIsFirst(e, 0, tag);
  }

  lemma {:induction false} FindFirstFromIsFirst(e: Element, i: nat, tag: string)
    requires i <= |e.children|
    ensures FindFirstFrom(e, i, tag) == Head(WithTag(ChildSubtrees(e, i), tag))
    decreases e, 0, |e.children| - i
  {
    if i < |e.children| {
      var c := e.children[i];
      WithTagAppend(Subtree(c), ChildSubtrees(e, i + 1), tag);
      WithTagAppend([c], ChildSubtrees(c, 0), tag);
      FindFirstIsFirstOfFindAll(c, tag);
      FindFirstFromIsFirst(e, i + 1, tag);
    }
  }

  /** Every element of the subtree of `e` has a subtree no larger than that of `e`. */
  lemma {:induction false} SubtreeShrinks(e: Element, d: Element)
    requires d in Subtree(e)
    ensures |Subtree(d)| <= |Subtree(e)|
    ensures d in Descendants(e) ==> |Subtree(d)| < |Subtree(e)|
    decreases e, 1
  {
    if d in ChildSubtrees(e, 0) {
      ChildSubtreesShrink(e, 0, d);
    }
  }

  lemma {:induction false} ChildSubtreesShrink(e: Element, i: nat, d: Element)
    requires i <= |e.children|
    requires d in ChildSubtrees(e, i)
    ensures |Subtree(d)| <= |ChildSubtrees(e, i)|
    decreases e, 0, |e.children| - i
  {
    var c := e.children[i];
    if d in Subtree(c) {
      SubtreeShrinks(c, d);
    } else {
      ChildSubtreesShrink(e, i + 1, d);
    }
  }

  /** The element searched from is never among the results of `findall('.//tag')`,
      whatever its own tag. */
  lemma RootNeverFound(e: Element, tag: string)
    ensures e !in FindAll(e, tag)
    ensures e !in Descendants(e)
  {
    if e in Descendants(e) {
      SubtreeShrinks(e, e);
    }
  }

  /** Every direct child is a descendant. */
  lemma {:induction false} ChildrenAreDescendants(e: Element, i: nat)
    requires i < |e.children|
    ensures e.children[i] in Descendants(e)
  {
    ChildInChildSubtrees(e, 0, i);
  }

  lemma {:induction false} ChildInChildSubtrees(e: Element, j: nat, i: nat)
    requires j <= i < |e.children|
    ensures e.children[i] in ChildSubtrees(e, j)
    decreases i - j
  {
    if j < i {
      ChildInChildSubtrees(e, j + 1, i);
    }
  }
}

/** The slice of `xml.etree.ElementTree` the helper uses: an element with a
    tag, attributes, optional text and ordered children; finding the first
    child by tag; and appending under a named parent, creating it if needed
    (`append_element`, src/terra_appstream_helper/__init__.py). */
module Tree {
  import opened Wrappers

  /** An XML element. `text` is `None` when never assigned, as in ElementTree. */
  datatype Element = Element(tag: string, attrs: map<string, string>, text: Option<string>, children: seq<Element>)

  /** `ET.Element(tag)`: no attributes, no text, no children. */
  function Empty(tag: string): Element {
    Element(tag, map[], None, [])
  }

  /** An element carrying only text, such as `<name>Foo</name>`. */
  function TextElement(tag: string, text: string): Element {
    Element(tag, map[], Some(text), [])
  }

  /** `parent.find(tag)`: the index of the first direct child with `tag`. */
  function FindIndex(children: seq<Element>, tag: string): (r: Option<nat>)
    ensures r.Some? ==> r.value < |children| && children[r.value].tag == tag
    ensures r.Some? ==> forall j :: 0 <= j < r.value ==> children[j].tag != tag
    ensures r.None? <==> forall j :: 0 <= j < |children| ==> children[j].tag != tag
  {
    if |children| == 0 then None
    else if children[0].tag == tag then Some(0)
    else
      match FindIndex(children[1..], tag)
      case None => None
      case Some(i) => Some(i + 1)
  }

  /** The children with `tag`, in document order (`parent.findall(tag)`). */
  function Tagged(children: seq<Element>, tag: string): (r: seq<Element>)
    ensures |r| <= |children|
    ensures forall x :: x in r ==> x in children && x.tag == tag
    ensures forall x :: x in children && x.tag == tag ==> x in r
  {
    if |children| == 0 then []
    else (if children[0].tag == tag then [children[0]] else []) + Tagged(children[1..], tag)
  }

  lemma {:induction false} TaggedConcat(a: seq<Element>, b: seq<Element>, tag: string)
    ensures Tagged(a + b, tag) == Tagged(a, tag) + Tagged(b, tag)
  {
    if |a| == 0 {
      assert a + b == b;
    } else {
      assert (a + b)[1..] == a[1..] + b;
      TaggedConcat(a[1..], b, tag);
    }
  }

  /** The children of the first child tagged `name`, or none when there is
      no such child. */
  function Under(e: Element, name: string): seq<Element> {
    match FindIndex(e.children, name)
    case None => []
    case Some(i) => e.children[i].children
  }

  /** The first child tagged `name` with its children left out: what remains
      of the parent element itself. */
  function ParentShell(e: Element, name: string): Option<Element> {
    match FindIndex(e.children, name)
    case None => None
    case Some(i) => Some(e.children[i].(children := []))
  }

  /** The children of `e` other than the first one tagged `name`. */
  function Without(e: Element, name: string): seq<Element> {
    match FindIndex(e.children, name)
    case None => e.children
    case Some(i) => e.children[..i] + e.children[i + 1..]
  }

  /** `after` is `before` with `added` appended, in order, to the children of
      the first child tagged `name`, which keeps its place, tag, attributes and
      text. When there is no such child and `added` is not empty, a bare
      `name` element holding `added` becomes the new last child. Every other
      child, and the root's own tag, attributes and text, are the same. */
  predicate AppendedUnder(before: Element, after: Element, name: string, added: seq<Element>) {
    && after.tag == before.tag && after.attrs == before.attrs && after.text == before.text
    && match FindIndex(before.children, name)
       case Some(i) =>
         && |after.children| == |before.children|
         && after.children[i] == before.children[i].(children := before.children[i].children + added)
         && forall j :: 0 <= j < |before.children| && j != i ==> after.children[j] == before.children[j]
       case None =>
         after.children == before.children + (if added == [] then [] else [Element(name, map[], None, added)])
  }

  /** Appending nothing changes nothing. */
  lemma AppendedNothing(e: Element, name: string)
    ensures AppendedUnder(e, e, name, [])
  {
    match FindIndex(e.children, name)
    case None =>
    case Some(i) =>
      assert e.children[i].children + [] == e.children[i].children;
  }

  /** Two appends under the same parent name are one append of both lists. */
  lemma AppendedTrans(a: Element, b: Element, c: Element, name: string, x: seq<Element>, y: seq<Element>)
    requires AppendedUnder(a, b, name, x)
    requires AppendedUnder(b, c, name, y)
    ensures AppendedUnder(a, c, name, x + y)
  {
    if FindIndex(a.children, name).Some? {
      AppendedTransFound(a, b, c, name, x, y);
    } else if x == [] {
      assert b.children == a.children;
      assert b == a;
      assert x + y == y;
    } else {
      AppendedTransCreated(a, b, c, name, x, y);
    }
  }

  /** The case where the parent exists from the start. */
  lemma AppendedTransFound(a: Element, b: Element, c: Element, name: string, x: seq<Element>, y: seq<Element>)
    requires FindIndex(a.children, name).Some?
    requires AppendedUnder(a, b, name, x)
    requires AppendedUnder(b, c, name, y)
    ensures AppendedUnder(a, c, name, x + y)
  {
    var i := FindIndex(a.children, name).value;
    var n := |a.children|;
    assert |b.children| == n && b.children[i] == a.children[i].(children := a.children[i].children + x);
    assert forall j :: 0 <= j < n && j != i ==> b.children[j] == a.children[j];
    forall j | 0 <= j < n
      ensures b.children[j].tag == a.children[j].tag
    {
      if j != i {
        assert b.children[j] == a.children[j];
      }
    }
    SameTagsSameFind(b.children, a.children, name);
    assert |c.children| == n && c.children[i] == b.children[i].(children := b.children[i].children + y);
    assert forall j :: 0 <= j < n && j != i ==> c.children[j] == b.children[j];
    assert a.children[i].children + x + y == a.children[i].children + (x + y);
  }

  /** The case where the first append creates the parent. */
  lemma AppendedTransCreated(a: Element, b: Element, c: Element, name: string, x: seq<Element>, y: seq<Element>)
    requires FindIndex(a.children, name).None? && x != []
    requires AppendedUnder(a, b, name, x)
    requires AppendedUnder(b, c, name, y)
    ensures AppendedUnder(a, c, name, x + y)
  {
    var p := Element(name, map[], None, x);
    assert b.children == a.children + [p];
    AppendIsFirst(a.children, name, p);
    var n := |a.children|;
    assert FindIndex(b.children, name) == Some(n);
    assert c.children[n] == Element(name, map[], None, x + y);
    assert c.children == a.children + [Element(name, map[], None, x + y)];
  }

  /** What an append under `name` looks like through `Under` and `Without`. */
  lemma AppendedViews(a: Element, b: Element, name: string, x: seq<Element>)
    requires AppendedUnder(a, b, name, x)
    ensures Under(b, name) == Under(a, name) + x
    ensures Without(b, name) == Without(a, name)
  {
    match FindIndex(a.children, name)
    case Some(i) =>
      assert forall j :: 0 <= j < |a.children| ==> b.children[j].tag == a.children[j].tag;
      SameTagsSameFind(b.children, a.children, name);
      assert b.children[..i] == a.children[..i];
      assert b.children[i + 1..] == a.children[i + 1..];
    case None =>
      if x == [] {
        assert b.children == a.children;
      } else {
        var p := Element(name, map[], None, x);
        AppendIsFirst(a.children, name, p);
        var n := |a.children|;
        assert b.children[..n] == a.children;
        assert b.children[n + 1..] == [];
      }
  }

  /** An append under `name` leaves the first child tagged `other` at the
      same position and unchanged. */
  lemma AppendedElsewhere(a: Element, b: Element, name: string, x: seq<Element>, other: string)
    requires AppendedUnder(a, b, name, x)
    requires other != name
    ensures FindIndex(b.children, other) == FindIndex(a.children, other)
    ensures FindIndex(a.children, other).Some? ==>
      b.children[FindIndex(a.children, other).value] == a.children[FindIndex(a.children, other).value]
  {
    match FindIndex(a.children, name)
    case Some(i) =>
      assert forall j :: 0 <= j < |a.children| ==> b.children[j].tag == a.children[j].tag;
      SameTagsSameFind(b.children, a.children, other);
    case None =>
      if x == [] {
        assert b.children == a.children;
      } else {
        AppendOtherFind(a.children, Element(name, map[], None, x), other);
      }
  }

  /** `append_element`: append `sub` as the last child of the first child of
      `root` tagged `name`, first creating that parent (as the last child of
      `root`) when there is none. */
  function AppendElement(root: Element, name: string, sub: Element): (r: Element)
    ensures r.tag == root.tag && r.attrs == root.attrs && r.text == root.text
    ensures Under(r, name) == Under(root, name) + [sub]
    ensures Without(r, name) == Without(root, name)
    ensures ParentShell(r, name) == Some(ParentShell(root, name).GetOr(Empty(name)))
    ensures |r.children| == |root.children| + (if FindIndex(root.children, name).None? then 1 else 0)
    ensures FindIndex(root.children, name).Some? ==> FindIndex(r.children, name) == FindIndex(root.children, name)
    ensures FindIndex(root.children, name).None? ==> FindIndex(r.children, name) == Some(|root.children|)
    ensures AppendedUnder(root, r, name, [sub])
  {
    match FindIndex(root.children, name)
    case Some(i) =>
      var parent := root.children[i];
      var cs := root.children[i := parent.(children := parent.children + [sub])];
      assert cs[..i] == root.children[..i];
      assert cs[i + 1..] == root.children[i + 1..];
      UpdateKeepsFirst(root.children, i, name, parent.(children := parent.children + [sub]));
      root.(children := cs)
    case None =>
      var cs := root.children + [Element(name, map[], None, [sub])];
      assert cs[..|root.children|] == root.children;
      AppendIsFirst(root.children, name, Element(name, map[], None, [sub]));
      root.(children := cs)
  }

  /** Replacing the first child tagged `tag` by another element with that
      tag keeps it the first one. */
  lemma UpdateKeepsFirst(cs: seq<Element>, i: nat, tag: string, x: Element)
    requires FindIndex(cs, tag) == Some(i)
    requires x.tag == tag
    ensures FindIndex(cs[i := x], tag) == Some(i)
  {
    var r := FindIndex(cs[i := x], tag);
    assert cs[i := x][i].tag == tag;
    assert r.Some?;
    assert r.value <= i;
    assert cs[r.value].tag == tag;
  }

  /** A child appended to a sequence with no child tagged `tag` is the
      first one. */
  lemma AppendIsFirst(cs: seq<Element>, tag: string, x: Element)
    requires FindIndex(cs, tag).None?
    requires x.tag == tag
    ensures FindIndex(cs + [x], tag) == Some(|cs|)
  {
    var r := FindIndex(cs + [x], tag);
    assert (cs + [x])[|cs|].tag == tag;
    assert r.Some?;
  }

  /** Sequences with the same tags position by position have their first
      child with any given tag at the same position. */
  lemma {:induction false} SameTagsSameFind(a: seq<Element>, b: seq<Element>, tag: string)
    requires |a| == |b|
    requires forall j :: 0 <= j < |a| ==> a[j].tag == b[j].tag
    ensures FindIndex(a, tag) == FindIndex(b, tag)
  {
    if |a| > 0 && a[0].tag != tag {
      SameTagsSameFind(a[1..], b[1..], tag);
    }
  }

  /** A child whose tag is not `tag`, appended at the end, does not change
      which child is the first tagged `tag`. */
  lemma {:induction false} AppendOtherFind(cs: seq<Element>, x: Element, tag: string)
    requires x.tag != tag
    ensures FindIndex(cs + [x], tag) == FindIndex(cs, tag)
  {
    if |cs| > 0 {
      assert (cs + [x])[1..] == cs[1..] + [x];
      AppendOtherFind(cs[1..], x, tag);
    } else {
      assert cs + [x] == [x];
    }
  }

  /** Appending under `name` leaves the first child tagged `other` where it
      was, and that child itself, attributes, text and children, as it was. */
  lemma AppendElsewhere(root: Element, name: string, sub: Element, other: string)
    requires name != other
    ensures FindIndex(AppendElement(root, name, sub).children, other) == FindIndex(root.children, other)
    ensures FindIndex(root.children, other).Some? ==>
      AppendElement(root, name, sub).children[FindIndex(root.children, other).value]
        == root.children[FindIndex(root.children, other).value]
    ensures Under(AppendElement(root, name, sub), other) == Under(root, other)
  {
    AppendedElsewhere(root, AppendElement(root, name, sub), name, [sub], other);
  }

  /** Leaving out the first child tagged `name` loses no child with any other
      tag: those children, in order, are the same with or without it. */
  lemma TaggedWithout(e: Element, name: string, t: string)
    requires t != name
    ensures Tagged(Without(e, name), t) == Tagged(e.children, t)
  {
    match FindIndex(e.children, name)
    case None =>
    case Some(i) =>
      var c := e.children;
      assert c == c[..i] + [c[i]] + c[i + 1..];
      TaggedDrop(c[..i], c[i], c[i + 1..], t);
  }

  /** Dropping one child not tagged `t` keeps the children tagged `t`. */
  lemma TaggedDrop(before: seq<Element>, x: Element, after: seq<Element>, t: string)
    requires x.tag != t
    ensures Tagged(before + [x] + after, t) == Tagged(before + after, t)
  {
    TaggedPiece([x], t);
    TaggedConcat(before + [x], after, t);
    TaggedConcat(before, [x], t);
    TaggedConcat(before, after, t);
  }

  /** A piece of at most one element has itself as its `tag` children
      when its element carries `tag`, and none otherwise. */
  lemma TaggedPiece(p: seq<Element>, tag: string)
    requires |p| <= 1
    ensures Tagged(p, tag) == if |p| == 1 && p[0].tag == tag then p else []
  {
    if |p| == 1 {
      assert p[1..] == [];
    }
  }
}

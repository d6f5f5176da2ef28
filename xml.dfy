/** A job's configuration document as an ElementTree element tree, with nodes
    addressed by the list of child indices leading to them from the root. The
    in-place `remove` and `append` of ElementTree become functions returning
    the new tree. */
module Xml {
  import opened Wrappers

  /** An element: tag, attributes, text and children in document order. */
  datatype Element = Element(tag: string, attrs: map<string, string>, text: Option<string>, children: seq<Element>)

  /** Child indices from the root; `[]` is the root itself. */
  type Path = seq<nat>

  predicate ValidPath(e: Element, p: Path)
    decreases |p|
  {
    |p| == 0 || (p[0] < |e.children| && ValidPath(e.children[p[0]], p[1..]))
  }

  function At(e: Element, p: Path): Element
    requires ValidPath(e, p)
    decreases |p|
  {
    if |p| == 0 then e else At(e.children[p[0]], p[1..])
  }

  /** Document (pre-)order: `p` comes before `q` when it is a proper ancestor
      of `q` or lies in an earlier sibling branch. */
  predicate Precedes(p: Path, q: Path)
    decreases |p|
  {
    |q| > 0 && (|p| == 0 || p[0] < q[0] || (p[0] == q[0] && Precedes(p[1..], q[1..])))
  }

  predicate IsPrefix(p: Path, q: Path)
  {
    |p| <= |q| && q[..|p|] == p
  }

  lemma {:induction false} PrecedesTotal(p: Path, q: Path)
    requires p != q
    ensures Precedes(p, q) || Precedes(q, p)
  {
    if |p| > 0 && |q| > 0 && p[0] == q[0] {
      assert p == [p[0]] + p[1..] && q == [q[0]] + q[1..];
      PrecedesTotal(p[1..], q[1..]);
    }
  }

  lemma {:induction false} PrecedesAsymmetric(p: Path, q: Path)
    requires Precedes(p, q)
    ensures !Precedes(q, p)
  {
    if |p| > 0 && p[0] == q[0] {
      PrecedesAsymmetric(p[1..], q[1..]);
    }
  }

  /** A node never comes before one of its ancestors. */
  lemma {:induction false} DescendantDoesNotPrecede(r: Path, q: Path)
    requires IsPrefix(r, q)
    ensures !Precedes(q, r)
  {
    if |r| > 0 {
      assert q[1..][..|r| - 1] == r[1..];
      DescendantDoesNotPrecede(r[1..], q[1..]);
    }
  }

  /** A descendant (not the node itself) with the given tag. */
  predicate Matches(e: Element, tag: string, q: Path)
  {
    |q| >= 1 && ValidPath(e, q) && At(e, q).tag == tag
  }

  /** `.//tag` search among the descendants reached through children
      `i`, `i + 1`, ...: the first match in document order. */
  function FindFrom(e: Element, tag: string, i: nat): Option<Path>
    decreases e, |e.children| - i
  {
    if i >= |e.children| then None
    else if e.children[i].tag == tag then Some([i])
    else match FindFrom(e.children[i], tag, 0)
      case Some(p) => Some([i] + p)
      case None => FindFrom(e, tag, i + 1)
  }

  lemma {:induction false} FindFromSpec(e: Element, tag: string, i: nat)
    ensures match FindFrom(e, tag, i)
      case Some(r) =>
        Matches(e, tag, r) && r[0] >= i
        && forall q :: Matches(e, tag, q) && q[0] >= i ==> !Precedes(q, r)
      case None =>
        forall q :: Matches(e, tag, q) ==> q[0] < i
    decreases e, |e.children| - i
  {
    if i < |e.children| {
      var c := e.children[i];
      if c.tag == tag {
        assert At(e, [i]) == c;
      } else {
        FindFromSpec(c, tag, 0);
        FindFromSpec(e, tag, i + 1);
        forall q | Matches(e, tag, q) && q[0] == i
          ensures |q| > 1 && Matches(c, tag, q[1..])
        {
          assert At(e, q) == At(c, q[1..]);
        }
        match FindFrom(c, tag, 0)
        case Some(p) =>
          var r := [i] + p;
          assert r[1..] == p;
          assert Matches(e, tag, r);
          forall q | Matches(e, tag, q) && q[0] >= i
            ensures !Precedes(q, r)
          {
            if q[0] == i {
              assert !Precedes(q[1..], p);
            }
          }
        case None =>
      }
    }
  }

  /** `e.find('.//tag')`: the first descendant in document order whose tag
      is `tag`, if any. */
  function FindFirst(e: Element, tag: string): (r: Option<Path>)
    ensures r.Some? ==> Matches(e, tag, r.value)
    ensures r.Some? ==> forall q :: Matches(e, tag, q) ==> !Precedes(q, r.value)
    ensures r.None? <==> forall q :: !Matches(e, tag, q)
  {
    FindFromSpec(e, tag, 0);
    FindFrom(e, tag, 0)
  }

  /** A match that no other match precedes is what `find` returns. */
  lemma FindFirstIs(e: Element, tag: string, r: Path)
    requires Matches(e, tag, r)
    requires forall q :: Matches(e, tag, q) ==> !Precedes(q, r)
    ensures FindFirst(e, tag) == Some(r)
  {
    var f := FindFirst(e, tag);
    if f.value != r {
      PrecedesTotal(f.value, r);
    }
  }

  /** `parent.remove(node)` for the node at `p`. */
  function RemoveAt(e: Element, p: Path): Element
    requires |p| >= 1 && ValidPath(e, p)
    decreases |p|
  {
    var i := p[0];
    if |p| == 1 then e.(children := e.children[..i] + e.children[i + 1..])
    else e.(children := e.children[i := RemoveAt(e.children[i], p[1..])])
  }

  /** Insertion of `x` so that it becomes the node at `p`. */
  function InsertAt(e: Element, p: Path, x: Element): Element
    requires |p| >= 1 && ValidPath(e, p[..|p| - 1]) && p[|p| - 1] <= |At(e, p[..|p| - 1]).children|
    decreases |p|
  {
    var i := p[0];
    if |p| == 1 then e.(children := e.children[..i] + [x] + e.children[i..])
    else
      assert p[1..][..|p| - 2] == p[..|p| - 1][1..];
      e.(children := e.children[i := InsertAt(e.children[i], p[1..], x)])
  }

  /** `node.append(x)` for the node at `p`. */
  function AppendAt(e: Element, p: Path, x: Element): Element
    requires ValidPath(e, p)
    decreases |p|
  {
    if |p| == 0 then e.(children := e.children + [x])
    else e.(children := e.children[p[0] := AppendAt(e.children[p[0]], p[1..], x)])
  }

  /** Removing a node and putting it back where it was gives the original
      tree: removal takes out exactly that node and changes nothing else. */
  lemma {:induction false} RemoveThenInsert(e: Element, p: Path)
    requires |p| >= 1 && ValidPath(e, p)
    ensures var r := RemoveAt(e, p);
      ValidPath(r, p[..|p| - 1]) && p[|p| - 1] <= |At(r, p[..|p| - 1]).children|
      && InsertAt(r, p, At(e, p)) == e
    decreases |p|
  {
    var i := p[0];
    if |p| == 1 {
      assert e.children[..i] + [e.children[i]] + e.children[i + 1..] == e.children;
    } else {
      RemoveThenInsert(e.children[i], p[1..]);
      assert p[1..][..|p| - 2] == p[..|p| - 1][1..];
    }
  }

  /** After a removal, the parent's other children keep their order. */
  lemma {:induction false} RemoveAtParent(e: Element, p: Path)
    requires |p| >= 1 && ValidPath(e, p)
    ensures ValidPath(e, p[..|p| - 1]) && p[|p| - 1] < |At(e, p[..|p| - 1]).children|
    ensures var parent := p[..|p| - 1]; var k := p[|p| - 1];
      ValidPath(RemoveAt(e, p), parent)
      && At(RemoveAt(e, p), parent).children == At(e, parent).children[..k] + At(e, parent).children[k + 1..]
    decreases |p|
  {
    if |p| > 1 {
      RemoveAtParent(e.children[p[0]], p[1..]);
      assert p[1..][..|p| - 2] == p[..|p| - 1][1..];
    }
  }

  /** `append` adds exactly one last child to the node at `p`. */
  lemma {:induction false} AppendAtAdds(e: Element, p: Path, x: Element)
    requires ValidPath(e, p)
    ensures var n := |At(e, p).children|; var a := AppendAt(e, p, x);
      ValidPath(a, p) && At(a, p).children == At(e, p).children + [x]
      && ValidPath(a, p + [n]) && At(a, p + [n]) == x
    decreases |p|
  {
    var n := |At(e, p).children|;
    if |p| == 0 {
      assert p + [n] == [n];
    } else {
      AppendAtAdds(e.children[p[0]], p[1..], x);
      assert (p + [n])[1..] == p[1..] + [n];
    }
  }

  /** Removing the child just appended gives the tree back. */
  lemma {:induction false} AppendThenRemove(e: Element, p: Path, x: Element)
    requires ValidPath(e, p)
    ensures var n := |At(e, p).children|; var a := AppendAt(e, p, x);
      ValidPath(a, p + [n]) && RemoveAt(a, p + [n]) == e
    decreases |p|
  {
    var n := |At(e, p).children|;
    AppendAtAdds(e, p, x);
    if |p| == 0 {
      assert (e.children + [x])[..n] == e.children;
    } else {
      AppendThenRemove(e.children[p[0]], p[1..], x);
      assert (p + [n])[1..] == p[1..] + [n];
    }
  }

  /** Outside the appended subtree, the nodes of the new tree are nodes of the
      old one with the same tags. */
  lemma {:induction false} AppendAtKeepsTags(e: Element, p: Path, x: Element, q: Path)
    requires ValidPath(e, p)
    requires ValidPath(AppendAt(e, p, x), q)
    requires !IsPrefix(p + [|At(e, p).children|], q)
    ensures ValidPath(e, q) && At(AppendAt(e, p, x), q).tag == At(e, q).tag
    decreases |p|
  {
    var n := |At(e, p).children|;
    if |q| > 0 {
      if |p| > 0 && q[0] == p[0] {
        assert (p + [n])[1..] == p[1..] + [n];
        AppendAtKeepsTags(e.children[p[0]], p[1..], x, q[1..]);
      }
    }
  }

  /** In a tree without any `tag` element, the first `tag` element after
      appending `x` (tagged `tag`) to the node at `p` is `x` itself. */
  lemma FindAfterAppend(e: Element, p: Path, x: Element, tag: string)
    requires ValidPath(e, p)
    requires FindFirst(e, tag).None?
    requires x.tag == tag
    ensures FindFirst(AppendAt(e, p, x), tag) == Some(p + [|At(e, p).children|])
  {
    var r := p + [|At(e, p).children|];
    var a := AppendAt(e, p, x);
    AppendAtAdds(e, p, x);
    forall q | Matches(a, tag, q)
      ensures !Precedes(q, r)
    {
      if IsPrefix(r, q) {
        DescendantDoesNotPrecede(r, q);
      } else {
        AppendAtKeepsTags(e, p, x, q);
        assert Matches(e, tag, q);
      }
    }
    FindFirstIs(a, tag, r);
  }

  /** An element's text as `findtext` gives it: `""` when it has none. */
  function TextOf(e: Element): string
  {
    match e.text case Some(t) => t case None => ""
  }

  /** `e.findtext('./tag')`: the text of the first child tagged `tag`, or
      `None` when there is no such child. */
  function ChildText(cs: seq<Element>, tag: string): (r: Option<string>)
    ensures r.None? <==> forall i :: 0 <= i < |cs| ==> cs[i].tag != tag
    ensures r.Some? ==>
      exists i :: (0 <= i < |cs| && cs[i].tag == tag
                   && (forall j :: 0 <= j < i ==> cs[j].tag != tag) && r.value == TextOf(cs[i]))
  {
    if |cs| == 0 then None
    else if cs[0].tag == tag then
      Some(TextOf(cs[0]))
    else
      var r := ChildText(cs[1..], tag);
      if r.Some? then
        var i :| 0 <= i < |cs[1..]| && cs[1..][i].tag == tag
          && (forall j :: 0 <= j < i ==> cs[1..][j].tag != tag) && r.value == TextOf(cs[1..][i]);
        assert forall j :: 0 <= j < i + 1 ==> cs[j].tag != tag by {
          forall j | 0 <= j < i + 1 ensures cs[j].tag != tag {
            if j > 0 { assert cs[j] == cs[1..][j - 1]; }
          }
        }
        assert cs[i + 1] == cs[1..][i];
        r
      else r
  }

  /** `e.findtext('./outer/inner')`: the text of the first `inner` child of
      the first `outer` child that has one, or `None` when no `outer` child
      has an `inner` child. */
  function GrandchildText(cs: seq<Element>, outer: string, inner: string): (r: Option<string>)
    ensures r.None? <==> forall i :: 0 <= i < |cs| ==> !Answers(cs[i], outer, inner)
    ensures r.Some? ==>
      exists i :: (0 <= i < |cs| && Answers(cs[i], outer, inner) && r == ChildText(cs[i].children, inner)
                   && (forall j :: 0 <= j < i ==> !Answers(cs[j], outer, inner)))
  {
    if |cs| == 0 then None
    else if Answers(cs[0], outer, inner) then
      ChildText(cs[0].children, inner)
    else
      var r := GrandchildText(cs[1..], outer, inner);
      NoneAnswersTail(cs, outer, inner);
      if r.Some? then
        var i :| 0 <= i < |cs[1..]| && Answers(cs[1..][i], outer, inner) && r == ChildText(cs[1..][i].children, inner)
          && (forall j :: 0 <= j < i ==> !Answers(cs[1..][j], outer, inner));
        FirstAnswersTail(cs, outer, inner, i);
        r
      else r
  }

  /** `e` is an `outer` child with an `inner` child of its own. */
  predicate Answers(e: Element, outer: string, inner: string)
  {
    e.tag == outer && ChildText(e.children, inner).Some?
  }

  /** No child answers past a first child that does not answer iff none
      answers at all. */
  lemma NoneAnswersTail(cs: seq<Element>, outer: string, inner: string)
    requires |cs| > 0 && !Answers(cs[0], outer, inner)
    ensures (forall i :: 0 <= i < |cs[1..]| ==> !Answers(cs[1..][i], outer, inner))
      <==> (forall i :: 0 <= i < |cs| ==> !Answers(cs[i], outer, inner))
  {
    assert forall i :: 1 <= i < |cs| ==> cs[i] == cs[1..][i - 1];
  }

  /** The first answering child past a first child that does not answer is
      the first answering child of all. */
  lemma FirstAnswersTail(cs: seq<Element>, outer: string, inner: string, i: nat)
    requires |cs| > 0 && !Answers(cs[0], outer, inner)
    requires i < |cs[1..]| && Answers(cs[1..][i], outer, inner)
    requires forall j :: 0 <= j < i ==> !Answers(cs[1..][j], outer, inner)
    ensures cs[i + 1] == cs[1..][i]
    ensures forall j :: 0 <= j < i + 1 ==> !Answers(cs[j], outer, inner)
  {
    assert forall j :: 1 <= j < i + 1 ==> cs[j] == cs[1..][j - 1];
  }
}

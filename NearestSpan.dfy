/**
 * getNearestObjectKeyAndIndexStartToEnd: the key under which the marker sits
 * in its innermost enclosing container, and the inclusive character span of
 * that container in the compact JSON text of the whole value.
 */
module NearestSpan {
  import opened Wrappers
  import opened Json
  import opened Text
  import opened Serializer
  import opened DeepFind

  /** Key of the marker inside its container, and the container's inclusive text span. */
  datatype Span = Span(key: Key, startIndex: nat, endIndex: nat)

  datatype SpanError =
    | NotFound           // the marker is in no container: absent, or the root value itself
    | ParentTextMissing  // internal: the container's text was not found in the whole text

  /**
   * The marker's innermost container is the value at the marker's path
   * without its last key; the span is that container's (ContainerSpan).
   */
  function Locate(n: Node, m: Scalar): (r: Result<Span, SpanError>)
    ensures r.Success? ==> r.value.startIndex <= r.value.endIndex < |Serialize(n)|
  {
    match FindPath(n, m)
    case None => Failure(NotFound)
    case Some(p) =>
      if p == [] then Failure(NotFound) else ContainerSpan(n, p[..|p| - 1], p[|p| - 1])
  }

  /**
   * Span of the container at path `q`, reported with key `k`: the container
   * is serialized on its own and its text is searched for, left to right, in
   * the text of the whole value; the first match gives the start, and the end
   * is the start plus the length minus one.
   */
  function ContainerSpan(n: Node, q: Path, k: Key): (r: Result<Span, SpanError>)
    ensures r.Success? ==> r.value.key == k
    ensures r.Success? ==> r.value.startIndex <= r.value.endIndex < |Serialize(n)|
  {
    var text := Serialize(n);
    match Follow(n, q)
    case None => Failure(ParentTextMissing)
    case Some(parent) =>
      var s := Serialize(parent);
      match IndexOf(text, s)
      case None => Failure(ParentTextMissing)
      case Some(start) => Success(Span(k, start, start + |s| - 1))
  }

  /**
   * For a container path that can be followed the span is always found: it
   * starts at the first occurrence of the container's text in the whole text,
   * covers that text exactly, and starts no later than the container's true
   * position; for the root it is the whole text.
   */
  lemma ContainerSpanText(n: Node, q: Path, k: Key)
    requires Follow(n, q).Some?
    ensures ContainerSpan(n, q, k).Success?
    ensures var s, text, sp := Serialize(Follow(n, q).value), Serialize(n), ContainerSpan(n, q, k).value;
      && OccursAt(s, text, sp.startIndex)
      && sp.endIndex == sp.startIndex + |s| - 1
      && (forall j :: 0 <= j < sp.startIndex ==> !OccursAt(s, text, j))
      && sp.startIndex <= PathOffset(n, q)
      && (q == [] ==> sp.startIndex == 0 && sp.endIndex == |text| - 1)
  {
    PathTextAt(n, q);
    if q == [] {
      OccursSelf(Serialize(n));
    }
  }

  /** For a container path that can be followed the span is found, and it covers an occurrence of the container's text. */
  lemma ContainerSpanFound(n: Node, q: Path, k: Key)
    requires Follow(n, q).Some?
    ensures ContainerSpan(n, q, k).Success?
    ensures OccursAt(Serialize(Follow(n, q).value), Serialize(n), ContainerSpan(n, q, k).value.startIndex)
    ensures ContainerSpan(n, q, k).value.endIndex == ContainerSpan(n, q, k).value.startIndex + |Serialize(Follow(n, q).value)| - 1
  {
    PathTextAt(n, q);
  }

  /** A container's span starts at any offset where its text occurs for the first time. */
  lemma ContainerSpanAt(n: Node, q: Path, k: Key, o: nat)
    requires Follow(n, q).Some?
    requires OccursAt(Serialize(Follow(n, q).value), Serialize(n), o)
    requires forall j :: 0 <= j < o ==> !OccursAt(Serialize(Follow(n, q).value), Serialize(n), j)
    ensures ContainerSpan(n, q, k) == Success(Span(k, o, o + |Serialize(Follow(n, q).value)| - 1))
  {
    var s, text := Serialize(Follow(n, q).value), Serialize(n);
    assert IndexOf(text, s) == Some(o);
  }

  /** Where a container's text occurs, its first and last characters are its delimiters. */
  lemma DelimitersAt(c: Node, text: string, start: nat)
    requires !c.Leaf?
    requires OccursAt(Serialize(c), text, start)
    ensures text[start] == Open(c) && text[start + |Serialize(c)| - 1] == Close(c)
  {
    var s := Serialize(c);
    assert s[0] == Open(c) && s[|s| - 1] == Close(c);
    assert text[start..start + |s|][0] == s[0];
    assert text[start..start + |s|][|s| - 1] == s[|s| - 1];
  }

  /** A span that covers an occurrence of a container's text starts and ends at the container's delimiters. */
  lemma ContainerDelimitersAt(c: Node, text: string, sp: Span)
    requires !c.Leaf?
    requires OccursAt(Serialize(c), text, sp.startIndex)
    requires sp.endIndex == sp.startIndex + |Serialize(c)| - 1
    ensures sp.endIndex < |text|
    ensures text[sp.startIndex] == Open(c) && text[sp.endIndex] == Close(c)
  {
    DelimitersAt(c, text, sp.startIndex);
  }

  /**
   * In a value with distinct keys the locator fails only when the marker has
   * no enclosing container, and then it reports NotFound: the internal error
   * cannot happen.
   */
  lemma LocateFailsOnlyWithoutContainer(n: Node, m: Scalar)
    requires UniqueKeys(n)
    ensures Locate(n, m).Failure? <==> !Contains(n, m) || n == Leaf(m)
    ensures Locate(n, m).Failure? ==> Locate(n, m).error == NotFound
  {
    FindPathContains(n, m);
    if FindPath(n, m).Some? && n != Leaf(m) {
      var p := FindPath(n, m).value;
      assert p != [] by {
        FindPathReachesMarker(n, m);
      }
      assert p == p[..|p| - 1] + [p[|p| - 1]];
      LocateSpan(n, m, p[..|p| - 1], p[|p| - 1]);
    }
  }

  /**
   * When the marker's first path is q + [k]: the reported key is k and the
   * marker is the container's direct child under k; the key is a member name
   * exactly when the container is an object; the span starts at the first
   * occurrence of the container's text in the whole text and covers that
   * text exactly (LocateDelimiters: from its opening to its closing
   * delimiter); it starts no
   * later than the container's true position; and a container that is the
   * root spans the whole text.
   */
  lemma LocateSpan(n: Node, m: Scalar, q: Path, k: Key)
    requires UniqueKeys(n)
    requires FindPath(n, m) == Some(q + [k])
    ensures Follow(n, q).Some? && Locate(n, m).Success?
    ensures Locate(n, m).value.key == k
    ensures Follow(Follow(n, q).value, [k]) == Some(Leaf(m))
    ensures !Follow(n, q).value.Leaf?
    ensures k.Name? <==> Follow(n, q).value.Obj?
    ensures OccursAt(Serialize(Follow(n, q).value), Serialize(n), Locate(n, m).value.startIndex)
    ensures Locate(n, m).value.endIndex == Locate(n, m).value.startIndex + |Serialize(Follow(n, q).value)| - 1
    ensures forall j :: 0 <= j < Locate(n, m).value.startIndex ==> !OccursAt(Serialize(Follow(n, q).value), Serialize(n), j)
    ensures Locate(n, m).value.startIndex <= PathOffset(n, q)
    ensures q == [] ==> Locate(n, m).value.startIndex == 0 && Locate(n, m).value.endIndex == |Serialize(n)| - 1
  {
    MarkerParent(n, m, q, k);
    LocateIsContainerSpan(n, m, q, k);
    ContainerSpanText(n, q, k);
  }

  /** The located span starts at the container's opening delimiter and ends at its closing one. */
  lemma LocateDelimiters(n: Node, m: Scalar, q: Path, k: Key)
    requires UniqueKeys(n)
    requires FindPath(n, m) == Some(q + [k])
    ensures Follow(n, q).Some? && Locate(n, m).Success?
    ensures Serialize(n)[Locate(n, m).value.startIndex] == Open(Follow(n, q).value)
    ensures Serialize(n)[Locate(n, m).value.endIndex] == Close(Follow(n, q).value)
  {
    MarkerParent(n, m, q, k);
    LocateIsContainerSpan(n, m, q, k);
    ContainerSpanFound(n, q, k);
    ContainerDelimitersAt(Follow(n, q).value, Serialize(n), Locate(n, m).value);
  }

  /** Locate reports the span of the container at the marker path without its last key. */
  lemma LocateIsContainerSpan(n: Node, m: Scalar, q: Path, k: Key)
    requires FindPath(n, m) == Some(q + [k])
    ensures Locate(n, m) == ContainerSpan(n, q, k)
  {
    var p := q + [k];
    assert p[..|p| - 1] == q && p[|p| - 1] == k;
  }

  /**
   * The value at the marker path without its last key is a container whose
   * child under that key is the marker; the key is a member name exactly when
   * the container is an object.
   */
  lemma MarkerParent(n: Node, m: Scalar, q: Path, k: Key)
    requires UniqueKeys(n)
    requires FindPath(n, m) == Some(q + [k])
    ensures Follow(n, q).Some?
    ensures var parent := Follow(n, q).value;
      && !parent.Leaf?
      && Follow(parent, [k]) == Some(Leaf(m))
      && (k.Name? <==> parent.Obj?)
  {
    FindPathReachesMarker(n, m);
    FollowAppend(n, q, [k]);
    var parent := Follow(n, q).value;
    assert Position(parent, k).Some?;
  }
}

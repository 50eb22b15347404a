/**
 * deepFindKeys: the depth-first, pre-order search for the first value equal
 * to the marker, returning the keys and indices that lead to it.
 */
module DeepFind {
  import opened Wrappers
  import opened Json

  /**
   * Path to the first occurrence of the marker in depth-first, pre-order,
   * left-to-right order. The root itself equal to the marker gives the empty
   * path; a marker found nowhere gives None.
   */
  function FindPath(n: Node, m: Scalar): (r: Option<Path>)
    decreases n, 1
  {
    if n == Leaf(m) then Some([]) else FindFrom(n, 0, m)
  }

  /**
   * Search of the children of `n` from position `from` on: the first child
   * in which the marker is found contributes its key, followed by the path
   * found inside it; a child equal to the marker gives just its key.
   */
  function FindFrom(n: Node, from: nat, m: Scalar): (r: Option<Path>)
    requires from <= Width(n)
    decreases n, 0, Width(n) - from
  {
    if from == Width(n) then None
    else match FindPath(Child(n, from), m)
      case Some(p) => Some([KeyAt(n, from)] + p)
      case None => FindFrom(n, from + 1, m)
  }

  /**
   * The shape of a search result: the empty path exactly for a root equal to
   * the marker, none for any other scalar, and otherwise a path whose first
   * key selects a child of the root.
   */
  lemma FindPathShape(n: Node, m: Scalar)
    ensures n.Leaf? && n != Leaf(m) ==> FindPath(n, m).None?
    ensures FindPath(n, m).Some? ==> (FindPath(n, m).value == [] <==> n == Leaf(m))
    ensures FindPath(n, m).Some? && FindPath(n, m).value != [] ==> Position(n, FindPath(n, m).value[0]).Some?
  {
    if n != Leaf(m) {
      FindFromShape(n, 0, m);
    }
  }

  /** A path found among the children is not empty, and its first key selects one of them. */
  lemma {:induction false} FindFromShape(n: Node, from: nat, m: Scalar)
    requires from <= Width(n)
    ensures FindFrom(n, from, m).Some? ==> FindFrom(n, from, m).value != []
    ensures FindFrom(n, from, m).Some? ==> Position(n, FindFrom(n, from, m).value[0]).Some?
    decreases Width(n) - from
  {
    if from < Width(n) && FindPath(Child(n, from), m).None? {
      FindFromShape(n, from + 1, m);
    }
  }

  /**
   * `p` leads to the marker, and at every step no earlier sibling holds the
   * marker anywhere: `p` is the first marker path in pre-order.
   */
  ghost predicate Leftmost(n: Node, p: Path, m: Scalar)
    decreases |p|
  {
    if p == [] then n == Leaf(m)
    else match Position(n, p[0])
      case None => false
      case Some(i) =>
        && (forall j :: 0 <= j < i ==> !Contains(Child(n, j), m))
        && Leftmost(Child(n, i), p[1..], m)
  }

  /** The search finds a path exactly when the marker occurs. */
  lemma {:induction false} FindPathContains(n: Node, m: Scalar)
    ensures FindPath(n, m).Some? <==> Contains(n, m)
    decreases n, 1
  {
    if n != Leaf(m) {
      FindFromContains(n, 0, m);
    }
  }

  lemma {:induction false} FindFromContains(n: Node, from: nat, m: Scalar)
    requires from <= Width(n)
    ensures FindFrom(n, from, m).Some? <==> exists j :: from <= j < Width(n) && Contains(Child(n, j), m)
    decreases n, 0, Width(n) - from
  {
    if from < Width(n) {
      FindPathContains(Child(n, from), m);
      FindFromContains(n, from + 1, m);
    }
  }

  /** Children without the marker are skipped; the first child holding it decides the result. */
  lemma {:induction false} FindFromSkips(n: Node, from: nat, i: nat, m: Scalar)
    requires from <= i < Width(n)
    requires forall j :: from <= j < i ==> !Contains(Child(n, j), m)
    requires FindPath(Child(n, i), m).Some?
    ensures FindFrom(n, from, m) == Some([KeyAt(n, i)] + FindPath(Child(n, i), m).value)
    decreases i - from
  {
    if from < i {
      FindPathContains(Child(n, from), m);
      FindFromSkips(n, from + 1, i, m);
    }
  }

  /** The first marker path in pre-order is the one the search returns. */
  lemma {:induction false} LeftmostIsFound(n: Node, p: Path, m: Scalar)
    requires Leftmost(n, p, m)
    ensures FindPath(n, m) == Some(p)
    decreases |p|
  {
    if p != [] {
      var i := Position(n, p[0]).value;
      LeftmostIsFound(Child(n, i), p[1..], m);
      FindFromSkips(n, 0, i, m);
      assert p == [p[0]] + p[1..];
    }
  }

  /** In a value whose objects have distinct keys, the path the search returns is the first marker path. */
  lemma {:induction false} FoundIsLeftmost(n: Node, m: Scalar)
    requires UniqueKeys(n)
    requires FindPath(n, m).Some?
    ensures Leftmost(n, FindPath(n, m).value, m)
    decreases n, 1
  {
    if n != Leaf(m) {
      FromFoundIsLeftmost(n, 0, m);
    }
  }

  lemma {:induction false} FromFoundIsLeftmost(n: Node, from: nat, m: Scalar)
    requires UniqueKeys(n)
    requires from <= Width(n)
    requires FindFrom(n, from, m).Some?
    requires forall j :: 0 <= j < from ==> !Contains(Child(n, j), m)
    ensures Leftmost(n, FindFrom(n, from, m).value, m)
    decreases n, 0, Width(n) - from
  {
    var c := Child(n, from);
    FindPathContains(c, m);
    if FindPath(c, m).Some? {
      FirstHolderIsLeftmost(n, from, m);
    } else {
      FromFoundIsLeftmost(n, from + 1, m);
    }
  }

  /** The key of the first child holding the marker, followed by the path found inside it, is leftmost. */
  lemma {:induction false} FirstHolderIsLeftmost(n: Node, i: nat, m: Scalar)
    requires UniqueKeys(n)
    requires i < Width(n) && FindPath(Child(n, i), m).Some?
    requires forall j :: 0 <= j < i ==> !Contains(Child(n, j), m)
    ensures Leftmost(n, [KeyAt(n, i)] + FindPath(Child(n, i), m).value, m)
    decreases n, 0, 0
  {
    var c, k := Child(n, i), KeyAt(n, i);
    var p := [k] + FindPath(c, m).value;
    assert Position(n, k) == Some(i) by {
      var r := Position(n, k);
      assert r.Some? && !(r.value < i) && !(i < r.value);
    }
    FoundIsLeftmost(c, m);
    assert p[0] == k && p[1..] == FindPath(c, m).value;
  }

  /** A leftmost path does lead to the marker. */
  lemma {:induction false} LeftmostReachesMarker(n: Node, p: Path, m: Scalar)
    requires Leftmost(n, p, m)
    ensures Follow(n, p) == Some(Leaf(m))
    decreases |p|
  {
    if p != [] {
      LeftmostReachesMarker(Child(n, Position(n, p[0]).value), p[1..], m);
    }
  }

  /**
   * The search result is characterised independently of the search: in a
   * value with distinct keys it returns `p` exactly when `p` is the first
   * path, in pre-order, that leads to the marker.
   */
  lemma FindPathIsLeftmost(n: Node, m: Scalar, p: Path)
    requires UniqueKeys(n)
    ensures FindPath(n, m) == Some(p) <==> Leftmost(n, p, m)
  {
    if FindPath(n, m) == Some(p) {
      FoundIsLeftmost(n, m);
    }
    if Leftmost(n, p, m) {
      LeftmostIsFound(n, p, m);
    }
  }

  /** Following the returned path from the root reaches a value equal to the marker. */
  lemma FindPathReachesMarker(n: Node, m: Scalar)
    requires UniqueKeys(n)
    requires FindPath(n, m).Some?
    ensures Follow(n, FindPath(n, m).value) == Some(Leaf(m))
  {
    FoundIsLeftmost(n, m);
    LeftmostReachesMarker(n, FindPath(n, m).value, m);
  }
}

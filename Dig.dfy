/**
 * dig: find where the marker sits in a template (`target`) and read the
 * value at the same path in the real data (`source`).
 */
module Digger {
  import opened Wrappers
  import opened Json
  import opened DeepFind

  /**
   * The value of `source` at the path of the marker's first occurrence in
   * `target`; None when the marker is not in `target` or when `source` has
   * no value along that path (missing key or index out of range).
   */
  function Dig(source: Node, target: Node, m: Scalar): (r: Option<Node>)
    ensures !Contains(target, m) ==> r.None?
  {
    FindPathContains(target, m);
    match FindPath(target, m)
    case None => None
    case Some(p) => Follow(source, p)
  }

  /** A value dug out of `source` sits at the very path at which the marker sits in `target`. */
  lemma DigFollowsMarkerPath(source: Node, target: Node, m: Scalar)
    requires UniqueKeys(target)
    requires Dig(source, target, m).Some?
    ensures exists p :: Follow(target, p) == Some(Leaf(m)) && Follow(source, p) == Dig(source, target, m)
  {
    FindPathReachesMarker(target, m);
    var p := FindPath(target, m).value;
    assert Follow(target, p) == Some(Leaf(m)) && Follow(source, p) == Dig(source, target, m);
  }

  /**
   * Whenever the marker's first path in the template is `p`, dig returns the
   * data's value at `p`, whatever the template holds elsewhere, and nothing
   * when the data has no value there.
   */
  lemma DigAtLeftmost(source: Node, target: Node, m: Scalar, p: Path)
    requires Leftmost(target, p, m)
    ensures Dig(source, target, m) == Follow(source, p)
  {
    LeftmostIsFound(target, p, m);
  }

  /**
   * Replacing the value at a followable path of a marker-free value by the
   * marker makes that path the first marker path of the result.
   */
  lemma {:induction false} ReplaceIsLeftmost(n: Node, p: Path, m: Scalar)
    requires Follow(n, p).Some?
    requires !Contains(n, m)
    ensures Leftmost(Replace(n, p, Leaf(m)), p, m)
    decreases |p|
  {
    if p != [] {
      var i := Position(n, p[0]).value;
      var t := Replace(n, p, Leaf(m));
      PositionSameKeys(t, n, p[0]);
      assert forall j :: 0 <= j < i ==> Child(t, j) == Child(n, j) && !Contains(Child(n, j), m);
      ReplaceIsLeftmost(Child(n, i), p[1..], m);
    }
  }

  /**
   * A template built from `source` by putting the marker at path `p` digs out
   * exactly the value of `source` at `p`, provided the real data does not
   * itself contain the marker.
   */
  lemma DigTemplate(source: Node, p: Path, m: Scalar)
    requires Follow(source, p).Some?
    requires !Contains(source, m)
    ensures Dig(source, Replace(source, p, Leaf(m)), m) == Follow(source, p)
  {
    ReplaceIsLeftmost(source, p, m);
    LeftmostIsFound(Replace(source, p, Leaf(m)), p, m);
  }
}

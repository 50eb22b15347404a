/**
 * The nested structures the finder works on: JSON-like values made of
 * objects (insertion-ordered string-keyed members), arrays and scalars,
 * together with paths of keys and indices and the way a path is followed.
 */
module Json {
  import opened Wrappers

  /** A primitive JSON value. Numbers are integers only. */
  datatype Scalar = Str(s: string) | Num(n: int) | Bool(b: bool) | Null

  /**
   * A JSON value. The members of an object are kept in the order in which
   * its properties are enumerated (insertion order for non-numeric keys).
   */
  datatype Node =
    | Obj(members: seq<(string, Node)>)
    | Arr(items: seq<Node>)
    | Leaf(value: Scalar)

  /** One step of a path: an object key or an array index. */
  datatype Key = Name(name: string) | Index(index: nat)

  /** The route from a root value to one of its descendants; [] is the root. */
  type Path = seq<Key>

  /** Number of direct children of a value (0 for a scalar). */
  function Width(n: Node): nat
  {
    match n
    case Obj(ms) => |ms|
    case Arr(xs) => |xs|
    case Leaf(_) => 0
  }

  /** The i-th direct child, in enumeration order. */
  function Child(n: Node, i: nat): (c: Node)
    requires i < Width(n)
    ensures n decreases to c
  {
    match n
    case Obj(ms) => ms[i].1
    case Arr(xs) => xs[i]
  }

  /** The key under which the i-th direct child sits: its member name or its index. */
  function KeyAt(n: Node, i: nat): (k: Key)
    requires i < Width(n)
    ensures n.Obj? <==> k.Name?
    ensures n.Arr? ==> k == Index(i)
  {
    match n
    case Obj(ms) => Name(ms[i].0)
    case Arr(_) => Index(i)
  }

  /** First position at or after `from` whose member name is `name`. */
  function MemberFrom(ms: seq<(string, Node)>, name: string, from: nat): (r: Option<nat>)
    requires from <= |ms|
    ensures r.Some? ==> from <= r.value < |ms| && ms[r.value].0 == name
    ensures r.Some? ==> forall j :: from <= j < r.value ==> ms[j].0 != name
    ensures r.None? ==> forall j :: from <= j < |ms| ==> ms[j].0 != name
    decreases |ms| - from
  {
    if from == |ms| then None
    else if ms[from].0 == name then Some(from)
    else MemberFrom(ms, name, from + 1)
  }

  /**
   * Where `k` selects a direct child of `n`: the first member with that name
   * in an object, the index itself in an array when it is in range; None for
   * a missing key, an index out of range, a key of the wrong kind or a scalar.
   */
  function Position(n: Node, k: Key): (r: Option<nat>)
    ensures r.Some? ==> r.value < Width(n) && KeyAt(n, r.value) == k
    ensures r.Some? ==> forall j :: 0 <= j < r.value ==> KeyAt(n, j) != k
    ensures r.None? ==> forall j :: 0 <= j < Width(n) ==> KeyAt(n, j) != k
  {
    match (n, k)
    case (Obj(ms), Name(s)) => MemberFrom(ms, s, 0)
    case (Arr(xs), Index(i)) => if i < |xs| then Some(i) else None
    case _ => None
  }

  /**
   * The value reached by following path `p` from `n`, or None when a step is
   * missing: a key that selects no child ends the walk.
   */
  function Follow(n: Node, p: Path): (r: Option<Node>)
    decreases |p|
  {
    if p == [] then Some(n)
    else match Position(n, p[0])
      case None => None
      case Some(i) => Follow(Child(n, i), p[1..])
  }

  /** The marker occurs somewhere in `n`, `n` itself included. */
  ghost predicate Contains(n: Node, m: Scalar)
  {
    n == Leaf(m) || exists i :: 0 <= i < Width(n) && Contains(Child(n, i), m)
  }

  /** Every object in `n` has pairwise distinct member names, as JavaScript objects do. */
  ghost predicate UniqueKeys(n: Node)
  {
    && (forall i, j :: 0 <= i < j < Width(n) ==> KeyAt(n, i) != KeyAt(n, j))
    && (forall i :: 0 <= i < Width(n) ==> UniqueKeys(Child(n, i)))
  }

  /** Whatever a path reaches lies inside the value it starts from. */
  lemma {:induction false} FollowInside(n: Node, p: Path, m: Scalar)
    requires Follow(n, p).Some?
    requires Contains(Follow(n, p).value, m)
    ensures Contains(n, m)
    decreases |p|
  {
    if p != [] {
      var i := Position(n, p[0]).value;
      FollowInside(Child(n, i), p[1..], m);
    }
  }

  /** `n` with its i-th direct child replaced by `c`; keys and order unchanged. */
  function WithChild(n: Node, i: nat, c: Node): (r: Node)
    requires i < Width(n)
    ensures Width(r) == Width(n) && Child(r, i) == c
    ensures forall j :: 0 <= j < Width(n) ==> KeyAt(r, j) == KeyAt(n, j)
    ensures forall j :: 0 <= j < Width(n) && j != i ==> Child(r, j) == Child(n, j)
  {
    match n
    case Obj(ms) => Obj(ms[i := (ms[i].0, c)])
    case Arr(xs) => Arr(xs[i := c])
  }

  /** `n` with the value at path `p` replaced by `v`; unchanged when `p` cannot be followed. */
  function Replace(n: Node, p: Path, v: Node): Node
    decreases |p|
  {
    if p == [] then v
    else match Position(n, p[0])
      case None => n
      case Some(i) => WithChild(n, i, Replace(Child(n, i), p[1..], v))
  }

  /** Two values with the same keys in the same order select the same child for every key. */
  lemma PositionSameKeys(a: Node, b: Node, k: Key)
    requires Width(a) == Width(b)
    requires forall j :: 0 <= j < Width(a) ==> KeyAt(a, j) == KeyAt(b, j)
    ensures Position(a, k) == Position(b, k)
  {
    var pa, pb := Position(a, k), Position(b, k);
    if pa.Some? && pb.Some? {
      assert !(pa.value < pb.value) && !(pb.value < pa.value);
    }
  }

  /** Following a concatenated path is following its first part, then its second. */
  lemma {:induction false} FollowAppend(n: Node, p: Path, q: Path)
    ensures Follow(n, p + q) == if Follow(n, p).Some? then Follow(Follow(n, p).value, q) else None
    decreases |p|
  {
    if p == [] {
      assert p + q == q;
    } else {
      assert (p + q)[0] == p[0] && (p + q)[1..] == p[1..] + q;
      match Position(n, p[0])
      case None =>
      case Some(i) =>
        FollowAppend(Child(n, i), p[1..], q);
    }
  }
}

/**
 * The scenarios of the repository's test suite, stated over the model: the
 * values of the test file and the results it expects. Where a test varies
 * only the marker text, the lemma is stated for every marker made of plain
 * characters, and the tested markers are instances.
 */
module Examples {
  import opened Wrappers
  import opened Json
  import opened Text
  import opened Serializer
  import opened DeepFind
  import opened NearestSpan
  import opened Digger

  // ---------------------------------------------------------------------
  // Values used by the tests
  // ---------------------------------------------------------------------

  /** { name: marker } */
  function NameMarker(marker: string): Node
  {
    Obj([("name", Leaf(Str(marker)))])
  }

  /** { first: { name: marker }, second: { name: 'dummy' } } */
  function Nested(marker: string): Node
  {
    Obj([("first", NameMarker(marker)), ("second", NameMarker("dummy"))])
  }

  /** { animal: { marmal: { moles: [ first, second ] } } } */
  function Moles(first: Node, second: Node): Node
  {
    Obj([("animal", Obj([("marmal", Obj([("moles", Arr([first, second]))]))]))])
  }

  /** { a: '[1]', b: [1] }: a string member whose text looks like the array after it. */
  function Decoy(): Node
  {
    Obj([("a", Leaf(Str("[1]"))), ("b", Arr([Leaf(Num(1))]))])
  }

  // ---------------------------------------------------------------------
  // Texts of small values
  // ---------------------------------------------------------------------

  /** Every character of `s` is written unescaped. */
  predicate PlainText(s: string)
  {
    forall i :: 0 <= i < |s| ==> Plain(s[i])
  }

  lemma PlainQuote(s: string)
    requires PlainText(s)
    ensures Quote(s) == "\"" + s + "\""
  {
    EscapeIdentity(s);
  }

  lemma Append3(x: string, a: string, b: string, c: string)
    ensures x + (a + b + c) == x + a + b + c
  {
  }

  lemma Join2(a: string, b: string)
    ensures Join([a, b]) == a + "," + b
  {
    assert [a, b][1..] == [b];
  }

  lemma PrefixGrows(p: string, a: string, b: string)
    requires p <= a
    ensures p <= a + b
  {
  }

  lemma Chain5(p: string, a: string, b: string, c: string, d: string, e: string)
    ensures p <= p + a + b + c + d + e
  {
    PrefixGrows(p, p, a);
    PrefixGrows(p, p + a, b);
    PrefixGrows(p, p + a + b, c);
    PrefixGrows(p, p + a + b + c, d);
    PrefixGrows(p, p + a + b + c + d, e);
  }

  lemma Chain7(p: string, a: string, b: string, c: string, d: string, e: string, f: string)
    ensures p <= p + a + b + c + d + e + f
  {
    Chain5(p, a, b, c, d, e);
    PrefixGrows(p, p + a + b + c + d + e, f);
  }

  lemma ObjectText1(k: string, v: Node)
    ensures Serialize(Obj([(k, v)])) == "{" + Quote(k) + ":" + Serialize(v) + "}"
  {
    var n := Obj([(k, v)]);
    var es := Entries(n);
    assert |es| == 1 && es[0] == Quote(k) + ":" + Serialize(v);
    Append3("{", Quote(k), ":", Serialize(v));
  }

  lemma ObjectText2(k1: string, v1: Node, k2: string, v2: Node)
    ensures Serialize(Obj([(k1, v1), (k2, v2)]))
         == "{" + Quote(k1) + ":" + Serialize(v1) + "," + Quote(k2) + ":" + Serialize(v2) + "}"
  {
    var n := Obj([(k1, v1), (k2, v2)]);
    var es := Entries(n);
    var e1, e2 := Quote(k1) + ":" + Serialize(v1), Quote(k2) + ":" + Serialize(v2);
    assert |es| == 2 && es[0] == e1 && es[1] == e2;
    assert es == [e1, e2];
    Join2(e1, e2);
    Append3("{", e1, ",", e2);
    Append3("{", Quote(k1), ":", Serialize(v1));
    Append3("{" + e1 + ",", Quote(k2), ":", Serialize(v2));
  }

  lemma ArrayText2(a: Node, b: Node)
    ensures Serialize(Arr([a, b])) == "[" + Serialize(a) + "," + Serialize(b) + "]"
  {
    var n := Arr([a, b]);
    var es := Entries(n);
    assert |es| == 2 && es[0] == Serialize(a) && es[1] == Serialize(b);
    assert es == [Serialize(a), Serialize(b)];
    Join2(Serialize(a), Serialize(b));
    Append3("[", Serialize(a), ",", Serialize(b));
  }

  /** The text of a two-member object starts with a brace and the first member's entry. */
  lemma ObjectPrefix(k1: string, v1: Node, k2: string, v2: Node)
    ensures "{" + Quote(k1) + ":" + Serialize(v1) <= Serialize(Obj([(k1, v1), (k2, v2)]))
  {
    ObjectText2(k1, v1, k2, v2);
    Chain5("{" + Quote(k1) + ":" + Serialize(v1), ",", Quote(k2), ":", Serialize(v2), "}");
  }

  /** The text of a two-member object starts with a brace, the first member's quoted name and a colon. */
  lemma ObjectKeyPrefix(k1: string, v1: Node, k2: string, v2: Node)
    ensures "{" + Quote(k1) + ":" <= Serialize(Obj([(k1, v1), (k2, v2)]))
  {
    ObjectText2(k1, v1, k2, v2);
    Chain7("{" + Quote(k1) + ":", Serialize(v1), ",", Quote(k2), ":", Serialize(v2), "}");
  }

  lemma EmptyObjectText()
    ensures Serialize(Obj([])) == "{}"
  {
    assert Entries(Obj([])) == [];
  }

  lemma MarkerText(marker: string)
    requires PlainText(marker)
    ensures |Serialize(Leaf(Str(marker)))| == |marker| + 2
  {
    PlainQuote(marker);
  }

  lemma NameMarkerText(marker: string)
    requires PlainText(marker)
    ensures var s := Serialize(NameMarker(marker));
      |s| == |marker| + 11 && s[0] == '{' && s[2] == 'n'
  {
    PlainQuote("name");
    PlainQuote(marker);
    assert Serialize(Leaf(Str(marker))) == Quote(marker);
    ObjectText1("name", Leaf(Str(marker)));
  }

  // ---------------------------------------------------------------------
  // countWordInText
  // ---------------------------------------------------------------------

  /** Two non-overlapping occurrences of "***" in "***|***". */
  lemma CountStars()
    ensures Count("***", "***|***") == 2
  {
  }

  lemma ContainersMember(k: string, v: Node, objects: bool)
    ensures Containers(Obj([(k, v)]), objects) == (if objects then 1 else 0) + Containers(v, objects)
  {
    var n := Obj([(k, v)]);
    var cs := NestedContainers(n, objects);
    assert cs == [Containers(v, objects)] && cs[1..] == [];
    assert Sum(cs) == cs[0] + Sum(cs[1..]);
    assert Containers(n, objects) == (if objects then 1 else 0) + Sum(cs);
  }

  lemma ContainersPair(a: Node, b: Node, objects: bool)
    ensures Containers(Arr([a, b]), objects) == (if objects then 0 else 1) + Containers(a, objects) + Containers(b, objects)
  {
    var n := Arr([a, b]);
    var cs := NestedContainers(n, objects);
    assert cs == [Containers(a, objects), Containers(b, objects)];
    assert cs[1..] == [Containers(b, objects)] && cs[1..][1..] == [];
    assert Sum(cs) == cs[0] + (cs[1] + Sum(cs[1..][1..]));
    assert Containers(n, objects) == (if objects then 0 else 1) + Sum(cs);
  }

  /** The test's targetMap holds five objects and one array. */
  lemma TargetMapContainers()
    ensures Containers(Moles(Obj([]), NameMarker("***")), true) == 5
    ensures Containers(Moles(Obj([]), NameMarker("***")), false) == 1
  {
    forall objects: bool
      ensures Containers(Moles(Obj([]), NameMarker("***")), objects) == if objects then 5 else 1
    {
      assert NestedContainers(Obj([]), objects) == [];
      assert NestedContainers(Leaf(Str("***")), objects) == [];
      ContainersMember("name", Leaf(Str("***")), objects);
      ContainersPair(Obj([]), NameMarker("***"), objects);
      var moles := Arr([Obj([]), NameMarker("***")]);
      ContainersMember("moles", moles, objects);
      ContainersMember("marmal", Obj([("moles", moles)]), objects);
      ContainersMember("animal", Obj([("marmal", Obj([("moles", moles)]))]), objects);
    }
  }

  lemma FreeMember(k: string, v: Node, c: char)
    requires forall i :: 0 <= i < |k| ==> k[i] != c
    requires FreeOf(v, c)
    ensures FreeOf(Obj([(k, v)]), c)
  {
  }

  lemma TargetMapFree(c: char)
    requires IsBracket(c)
    ensures FreeOf(Moles(Obj([]), NameMarker("***")), c)
  {
    var moles := Arr([Obj([]), NameMarker("***")]);
    FreeMember("name", Leaf(Str("***")), c);
    assert FreeOf(moles, c);
    FreeMember("moles", moles, c);
    FreeMember("marmal", Obj([("moles", moles)]), c);
    FreeMember("animal", Obj([("marmal", Obj([("moles", moles)]))]), c);
  }

  /** The JSON text of targetMap holds five '{', five '}', one '[' and one ']'. */
  lemma TargetMapBrackets()
    ensures var text := Serialize(Moles(Obj([]), NameMarker("***")));
      && Count("{", text) == 5 && Count("}", text) == 5
      && Count("[", text) == 1 && Count("]", text) == 1
  {
    var n := Moles(Obj([]), NameMarker("***"));
    TargetMapFree('{');
    TargetMapFree('}');
    TargetMapFree('[');
    TargetMapFree(']');
    TargetMapContainers();
    BracketsBalance(n, true);
    BracketsBalance(n, false);
  }

  // ---------------------------------------------------------------------
  // deepFindKeys
  // ---------------------------------------------------------------------

  /** { name: marker } leads to the marker through "name". */
  lemma FindNameMarker(marker: string)
    ensures FindPath(NameMarker(marker), Str(marker)) == Some([Name("name")])
  {
    var n, m := NameMarker(marker), Str(marker);
    assert FindPath(Child(n, 0), m) == Some([]);
    assert FindFrom(n, 0, m) == Some([KeyAt(n, 0)] + []);
    assert [KeyAt(n, 0)] + [] == [Name("name")];
  }

  /** The marker inside a one-member object is found through that member's name. */
  lemma FindInMember(k: string, v: Node, m: Scalar, p: Path)
    requires FindPath(v, m) == Some(p)
    ensures FindPath(Obj([(k, v)]), m) == Some([Name(k)] + p)
  {
    var n := Obj([(k, v)]);
    assert Child(n, 0) == v && KeyAt(n, 0) == Name(k);
    assert FindFrom(n, 0, m) == Some([KeyAt(n, 0)] + p);
  }

  /** In [0, 1, x] a marker other than 0 and 1 is found through index 2. */
  lemma FindThird(x: Node, m: Scalar, p: Path)
    requires m != Num(0) && m != Num(1)
    requires FindPath(x, m) == Some(p)
    ensures FindPath(Arr([Leaf(Num(0)), Leaf(Num(1)), x]), m) == Some([Index(2)] + p)
  {
    var n := Arr([Leaf(Num(0)), Leaf(Num(1)), x]);
    assert FindPath(Child(n, 0), m) == None;
    assert FindPath(Child(n, 1), m) == None;
    assert Child(n, 2) == x;
    assert FindFrom(n, 2, m) == Some([Index(2)] + p);
    assert FindFrom(n, 1, m) == FindFrom(n, 2, m);
    assert FindFrom(n, 0, m) == FindFrom(n, 1, m);
  }

  /** [0, 1, marker] leads to the marker through index 2, whatever the marker's text. */
  lemma FindInArray(marker: string)
    ensures FindPath(Arr([Leaf(Num(0)), Leaf(Num(1)), Leaf(Str(marker))]), Str(marker)) == Some([Index(2)])
  {
    FindThird(Leaf(Str(marker)), Str(marker), []);
    assert [Index(2)] + [] == [Index(2)];
  }

  /** [0, 1, { name: '*' }] leads to '*' through 2 and "name". */
  lemma FindObjectInArray()
    ensures FindPath(Arr([Leaf(Num(0)), Leaf(Num(1)), NameMarker("*")]), Str("*")) == Some([Index(2), Name("name")])
  {
    FindNameMarker("*");
    FindThird(NameMarker("*"), Str("*"), [Name("name")]);
    assert [Index(2)] + [Name("name")] == [Index(2), Name("name")];
  }

  /** [0, 1, { first: { second: { third: { name: '*' } } } }] leads to '*' through 2, first, second, third, name. */
  lemma FindDeep()
    ensures FindPath(Arr([Leaf(Num(0)), Leaf(Num(1)), Obj([("first", Obj([("second", Obj([("third", NameMarker("*"))]))]))])]), Str("*"))
         == Some([Index(2), Name("first"), Name("second"), Name("third"), Name("name")])
  {
    var m := Str("*");
    FindNameMarker("*");
    var third := Obj([("third", NameMarker("*"))]);
    var second := Obj([("second", third)]);
    var first := Obj([("first", second)]);
    FindInMember("third", NameMarker("*"), m, [Name("name")]);
    assert [Name("third")] + [Name("name")] == [Name("third"), Name("name")];
    FindInMember("second", third, m, [Name("third"), Name("name")]);
    assert [Name("second")] + [Name("third"), Name("name")] == [Name("second"), Name("third"), Name("name")];
    FindInMember("first", second, m, [Name("second"), Name("third"), Name("name")]);
    assert [Name("first")] + [Name("second"), Name("third"), Name("name")] == [Name("first"), Name("second"), Name("third"), Name("name")];
    FindThird(first, m, [Name("first"), Name("second"), Name("third"), Name("name")]);
    assert [Index(2)] + [Name("first"), Name("second"), Name("third"), Name("name")]
        == [Index(2), Name("first"), Name("second"), Name("third"), Name("name")];
  }

  // ---------------------------------------------------------------------
  // getNearestObjectKeyAndIndexStartToEnd
  // ---------------------------------------------------------------------

  /** { name: marker }: key "name", and the root object spans the whole text. */
  lemma LocateNameMarker(marker: string)
    requires PlainText(marker)
    ensures Locate(NameMarker(marker), Str(marker)) == Success(Span(Name("name"), 0, |marker| + 10))
  {
    var n, m := NameMarker(marker), Str(marker);
    FindNameMarker(marker);
    assert [Name("name")] == [] + [Name("name")];
    LocateIsContainerSpan(n, m, [], Name("name"));
    ContainerSpanText(n, [], Name("name"));
    NameMarkerText(marker);
  }

  /** [{}, marker]: index 1, and the root array spans the whole text. */
  lemma LocateArrayLast(marker: string)
    requires PlainText(marker)
    ensures Locate(Arr([Obj([]), Leaf(Str(marker))]), Str(marker)) == Success(Span(Index(1), 0, |marker| + 6))
  {
    var n, m := Arr([Obj([]), Leaf(Str(marker))]), Str(marker);
    assert FindFrom(Obj([]), 0, m) == None;
    assert FindPath(Child(n, 0), m) == None;
    assert FindPath(Child(n, 1), m) == Some([]);
    assert FindFrom(n, 1, m) == Some([Index(1)] + []);
    assert FindFrom(n, 0, m) == FindFrom(n, 1, m);
    assert [Index(1)] + [] == [Index(1)] == [] + [Index(1)];
    assert FindPath(n, m) == Some([] + [Index(1)]);
    LocateIsContainerSpan(n, m, [], Index(1));
    ContainerSpanText(n, [], Index(1));
    EmptyObjectText();
    MarkerText(marker);
    ArrayText2(Obj([]), Leaf(Str(marker)));
  }

  /** [marker, {}]: index 0, and the root array spans the whole text. */
  lemma LocateArrayFirst(marker: string)
    requires PlainText(marker)
    ensures Locate(Arr([Leaf(Str(marker)), Obj([])]), Str(marker)) == Success(Span(Index(0), 0, |marker| + 6))
  {
    var n, m := Arr([Leaf(Str(marker)), Obj([])]), Str(marker);
    assert FindPath(Child(n, 0), m) == Some([]);
    assert FindFrom(n, 0, m) == Some([Index(0)] + []);
    assert [Index(0)] + [] == [Index(0)] == [] + [Index(0)];
    assert FindPath(n, m) == Some([] + [Index(0)]);
    LocateIsContainerSpan(n, m, [], Index(0));
    ContainerSpanText(n, [], Index(0));
    EmptyObjectText();
    MarkerText(marker);
    ArrayText2(Leaf(Str(marker)), Obj([]));
  }

  lemma NestedPrefix(qf: string)
    requires qf == "\"" + "first" + "\""
    ensures var p := "{" + qf + ":";
      |p| == 9 && p[0] == '{' && p[2] == 'f' && forall j :: 1 <= j < 9 ==> p[j] != '{'
  {
  }

  lemma NestedText(marker: string)
    ensures var s := Serialize(Nested(marker));
      |s| > 9 && s[0] == '{' && s[2] == 'f' && forall j :: 1 <= j < 9 ==> s[j] != '{'
  {
    PlainQuote("first");
    ObjectKeyPrefix("first", NameMarker(marker), "second", NameMarker("dummy"));
    NestedPrefix(Quote("first"));
  }

  /**
   * A text that opens with a brace followed by a name starting with 'f', and
   * holds no other brace before offset 9, does not hold at any offset below 9
   * a text that opens with a brace followed by a name starting with 'n'.
   */
  lemma NoOccurrenceBefore9(text: string, s: string)
    requires |s| > 2 && s[0] == '{' && s[2] == 'n'
    requires |text| > 2 && text[0] == '{' && text[2] == 'f'
    requires forall j :: 1 <= j < 9 && j < |text| ==> text[j] != '{'
    ensures forall j :: 0 <= j < 9 ==> !OccursAt(s, text, j)
  {
  }

  lemma FindNested(marker: string)
    ensures FindPath(Nested(marker), Str(marker)) == Some([Name("first")] + [Name("name")])
  {
    var n, m := Nested(marker), Str(marker);
    FindNameMarker(marker);
    assert Child(n, 0) == NameMarker(marker);
    assert FindFrom(n, 0, m) == Some([KeyAt(n, 0)] + [Name("name")]);
  }

  lemma NestedOffset(marker: string)
    ensures PathOffset(Nested(marker), [Name("first")]) == 9
  {
    var n := Nested(marker);
    PlainQuote("first");
    assert Position(n, Name("first")) == Some(0);
    assert |Label(n, 0)| == 8;
  }

  /**
   * { first: { name: marker }, second: { name: 'dummy' } }: key "name", and
   * the span of { name: marker }, which starts at offset 9 and grows with the
   * marker's length.
   */
  lemma LocateNested(marker: string)
    requires PlainText(marker)
    ensures Locate(Nested(marker), Str(marker)) == Success(Span(Name("name"), 9, |marker| + 19))
  {
    var n, m, q, k := Nested(marker), Str(marker), [Name("first")], Name("name");
    FindNested(marker);
    LocateIsContainerSpan(n, m, q, k);
    assert Follow(n, q) == Some(NameMarker(marker));
    PathTextAt(n, q);
    NestedOffset(marker);
    NestedText(marker);
    NameMarkerText(marker);
    NoOccurrenceBefore9(Serialize(n), Serialize(NameMarker(marker)));
    ContainerSpanAt(n, q, k, 9);
  }

  /** The keys and spans the tests expect, for the markers they use. */
  lemma LocateTestValues()
    ensures Locate(NameMarker("*"), Str("*")) == Success(Span(Name("name"), 0, 11))
    ensures Locate(Nested("*"), Str("*")) == Success(Span(Name("name"), 9, 20))
    ensures Locate(Nested("***"), Str("***")) == Success(Span(Name("name"), 9, 22))
    ensures Locate(Arr([Obj([]), Leaf(Str("*"))]), Str("*")) == Success(Span(Index(1), 0, 7))
    ensures Locate(Arr([Leaf(Str("*")), Obj([])]), Str("*")) == Success(Span(Index(0), 0, 7))
  {
    assert PlainText("*") && PlainText("***");
    LocateNameMarker("*");
    LocateNested("*");
    LocateNested("***");
    LocateArrayLast("*");
    LocateArrayFirst("*");
  }

  lemma DecoyPrefix(qa: string, qv: string)
    requires qa == "\"" + "a" + "\"" && qv == "\"" + "[1]" + "\""
    ensures var p := "{" + qa + ":" + qv;
      && |p| == 10 && p[6] == '[' && p[7] == '1' && p[8] == ']'
      && forall j :: 0 <= j < 6 ==> p[j] != '['
  {
  }

  lemma DecoyText()
    ensures var s := Serialize(Decoy());
      && |s| > 9 && s[6] == '[' && s[7] == '1' && s[8] == ']'
      && forall j :: 0 <= j < 6 ==> s[j] != '['
  {
    PlainQuote("a");
    PlainQuote("[1]");
    ObjectPrefix("a", Leaf(Str("[1]")), "b", Arr([Leaf(Num(1))]));
    DecoyPrefix(Quote("a"), Serialize(Leaf(Str("[1]"))));
  }

  lemma OccursBracketOne(s: string, o: nat)
    requires o + 3 <= |s| && s[o] == '[' && s[o + 1] == '1' && s[o + 2] == ']'
    ensures OccursAt("[1]", s, o)
  {
    assert s[o..o + 3] == "[1]";
  }

  lemma DecoyArrayText()
    ensures Serialize(Arr([Leaf(Num(1))])) == "[1]"
  {
    var n := Arr([Leaf(Num(1))]);
    assert Serialize(Leaf(Num(1))) == "1";
    assert |Entries(n)| == 1 && Entries(n)[0] == "1";
  }

  lemma DecoyPath()
    ensures FindPath(Decoy(), Num(1)) == Some([Name("b")] + [Index(0)])
  {
    var n, m := Decoy(), Num(1);
    var arr := Arr([Leaf(Num(1))]);
    assert FindFrom(Leaf(Str("[1]")), 0, m) == None;
    assert FindPath(Child(n, 0), m) == None;
    assert FindPath(Child(arr, 0), m) == Some([]);
    assert FindFrom(arr, 0, m) == Some([Index(0)] + []);
    assert [Index(0)] + [] == [Index(0)];
    assert Child(n, 1) == arr;
    assert FindFrom(n, 1, m) == Some([KeyAt(n, 1)] + [Index(0)]);
  }

  lemma DecoyOffset()
    ensures PathOffset(Decoy(), [Name("b")]) == 15
  {
    var n := Decoy();
    PlainQuote("a");
    PlainQuote("b");
    PlainQuote("[1]");
    assert Position(n, Name("b")) == Some(1);
    var es := Entries(n);
    assert |es[0]| == 9;
    assert JoinOffset(es, 1) == 10;
    assert |Label(n, 1)| == 4;
  }

  /**
   * The span comes from a text search, first match wins: on
   * { a: '[1]', b: [1] } with marker 1 it starts at the "[1]" inside the
   * string member (offset 6), not at the array that holds the marker
   * (offset 15).
   */
  lemma LocateDecoy()
    ensures Locate(Decoy(), Num(1)) == Success(Span(Index(0), 6, 8))
    ensures PathOffset(Decoy(), [Name("b")]) == 15
  {
    var n, m, q, k := Decoy(), Num(1), [Name("b")], Index(0);
    DecoyPath();
    LocateIsContainerSpan(n, m, q, k);
    assert Follow(n, q) == Some(Arr([Leaf(Num(1))]));
    DecoyArrayText();
    DecoyText();
    OccursBracketOne(Serialize(n), 6);
    ContainerSpanAt(n, q, k, 6);
    DecoyOffset();
  }

  // ---------------------------------------------------------------------
  // dig
  // ---------------------------------------------------------------------

  lemma FindNameOther(other: string, m: Scalar)
    requires m != Str(other)
    ensures FindPath(NameMarker(other), m) == None
  {
    var n := NameMarker(other);
    assert FindFrom(Leaf(Str(other)), 0, m) == None;
    assert FindPath(Child(n, 0), m) == None;
    assert FindFrom(n, 1, m) == None;
  }

  lemma FindSecond(a: Node, b: Node, m: Scalar, p: Path)
    requires FindPath(a, m) == None && FindPath(b, m) == Some(p)
    ensures FindPath(Arr([a, b]), m) == Some([Index(1)] + p)
  {
    var n := Arr([a, b]);
    assert Child(n, 0) == a && Child(n, 1) == b;
    assert FindFrom(n, 1, m) == Some([Index(1)] + p);
  }

  /** In a template whose first mole holds no marker, the marker sits at animal, marmal, moles, 1, name. */
  lemma FindMoles(first: Node)
    requires FindPath(first, Str("***")) == None
    ensures FindPath(Moles(first, NameMarker("***")), Str("***"))
         == Some([Name("animal"), Name("marmal"), Name("moles"), Index(1), Name("name")])
  {
    var m := Str("***");
    FindNameMarker("***");
    var moles := Arr([first, NameMarker("***")]);
    FindSecond(first, NameMarker("***"), m, [Name("name")]);
    assert [Index(1)] + [Name("name")] == [Index(1), Name("name")];
    FindInMember("moles", moles, m, [Index(1), Name("name")]);
    assert [Name("moles")] + [Index(1), Name("name")] == [Name("moles"), Index(1), Name("name")];
    FindInMember("marmal", Obj([("moles", moles)]), m, [Name("moles"), Index(1), Name("name")]);
    assert [Name("marmal")] + [Name("moles"), Index(1), Name("name")] == [Name("marmal"), Name("moles"), Index(1), Name("name")];
    FindInMember("animal", Obj([("marmal", Obj([("moles", moles)]))]), m, [Name("marmal"), Name("moles"), Index(1), Name("name")]);
    assert [Name("animal")] + [Name("marmal"), Name("moles"), Index(1), Name("name")]
        == [Name("animal"), Name("marmal"), Name("moles"), Index(1), Name("name")];
  }

  lemma FollowMember(k: string, v: Node, p: Path)
    ensures Follow(Obj([(k, v)]), [Name(k)] + p) == Follow(v, p)
  {
    assert ([Name(k)] + p)[1..] == p;
  }

  lemma FollowMoles()
    ensures Follow(Moles(NameMarker("Mr. Resetti"), NameMarker("Don Resetti")), [Name("animal"), Name("marmal"), Name("moles"), Index(1), Name("name")])
         == Some(Leaf(Str("Don Resetti")))
  {
    var moles := Arr([NameMarker("Mr. Resetti"), NameMarker("Don Resetti")]);
    assert Follow(NameMarker("Don Resetti"), [Name("name")]) == Some(Leaf(Str("Don Resetti")));
    assert Follow(moles, [Index(1), Name("name")]) == Follow(NameMarker("Don Resetti"), [Name("name")]);
    FollowMember("moles", moles, [Index(1), Name("name")]);
    FollowMember("marmal", Obj([("moles", moles)]), [Name("moles"), Index(1), Name("name")]);
    FollowMember("animal", Obj([("marmal", Obj([("moles", moles)]))]), [Name("marmal"), Name("moles"), Index(1), Name("name")]);
  }

  /** Digging the template with '***' at the second mole's name out of the data gives 'Don Resetti'. */
  lemma DigMoles()
    ensures Dig(Moles(NameMarker("Mr. Resetti"), NameMarker("Don Resetti")), Moles(NameMarker("Mr. Resetti"), NameMarker("***")), Str("***"))
         == Some(Leaf(Str("Don Resetti")))
  {
    FindNameOther("Mr. Resetti", Str("***"));
    FindMoles(NameMarker("Mr. Resetti"));
    FollowMoles();
  }

  /** When the data lacks the value at the marker's path, nothing is dug out. */
  lemma DigMissing()
    ensures Dig(Obj([]), NameMarker("*"), Str("*")) == None
  {
    FindNameMarker("*");
    assert Follow(Obj([]), [Name("name")]) == None;
  }

  /** The targetMap template, whose first mole is an empty object, digs 'Don Resetti' out of the same data. */
  lemma DigTargetMap()
    ensures Dig(Moles(NameMarker("Mr. Resetti"), NameMarker("Don Resetti")), Moles(Obj([]), NameMarker("***")), Str("***"))
         == Some(Leaf(Str("Don Resetti")))
  {
    assert FindFrom(Obj([]), 0, Str("***")) == None;
    FindMoles(Obj([]));
    FollowMoles();
  }
}

/**
 * The canonical compact JSON text of a value, as JSON.stringify writes it
 * with no indentation: members in enumeration order, no whitespace, strings
 * quoted and escaped. Offsets reported by the span locator are offsets into
 * this text.
 */
module Serializer {
  import opened Wrappers
  import opened Json
  import opened Text

  /** Value of a hexadecimal digit of either case, or None for any other character. */
  function HexValue(c: char): (r: Option<nat>)
    ensures r.Some? ==> r.value < 16
  {
    if '0' <= c <= '9' then Some(c as int - '0' as int)
    else if 'a' <= c <= 'f' then Some(c as int - 'a' as int + 10)
    else if 'A' <= c <= 'F' then Some(c as int - 'A' as int + 10)
    else None
  }

  /** Lower-case hexadecimal digit for 0..15. */
  function HexDigit(d: nat): (r: char)
    requires d < 16
    ensures '0' <= r <= '9' || 'a' <= r <= 'f'
    ensures HexValue(r) == Some(d)
  {
    if d < 10 then ('0' as int + d) as char else ('a' as int + (d - 10)) as char
  }

  /** Decimal digit for 0..9. */
  function Digit(d: nat): (r: char)
    requires d < 10
    ensures '0' <= r <= '9'
    ensures r as int - '0' as int == d
  {
    ('0' as int + d) as char
  }

  /** The number a string of decimal digits denotes (0 for the empty string). */
  function DecimalValue(s: string): int
  {
    if s == [] then 0 else 10 * DecimalValue(s[..|s| - 1]) + (s[|s| - 1] as int - '0' as int)
  }

  /** The integer a string of decimal digits with an optional leading minus sign denotes. */
  function SignedValue(s: string): int
  {
    if |s| > 0 && s[0] == '-' then -DecimalValue(s[1..]) else DecimalValue(s)
  }

  /** The four delimiters of containers. */
  predicate IsBracket(c: char)
  {
    c == '{' || c == '}' || c == '[' || c == ']'
  }

  /**
   * The text JSON.stringify writes for one character inside a string literal:
   * quote and backslash are escaped, the five named control characters get
   * their short form, every other character below U+0020 becomes \u00XX.
   * A bracket is written as itself, and no escape sequence introduces one.
   */
  function EscapeChar(c: char): (r: string)
    ensures |r| >= 1
    ensures Plain(c) <==> r == [c]
    ensures IsBracket(c) ==> r == [c]
    ensures !IsBracket(c) ==> forall x :: x in r ==> !IsBracket(x)
  {
    var code := c as int;
    if c == '"' then "\\\""
    else if c == '\\' then "\\\\"
    else if code == 8 then "\\b"
    else if code == 12 then "\\f"
    else if c == '\n' then "\\n"
    else if c == '\r' then "\\r"
    else if c == '\t' then "\\t"
    else if code < 0x20 then "\\u00" + [HexDigit(code / 16), HexDigit(code % 16)]
    else [c]
  }

  /** A character JSON.stringify writes unescaped: neither a quote, nor a backslash, nor a control character. */
  predicate Plain(c: char)
  {
    c != '"' && c != '\\' && c as int >= 0x20
  }

  /** Escaped body of a string literal. */
  function Escape(s: string): (r: string)
  {
    if s == [] then [] else EscapeChar(s[0]) + Escape(s[1..])
  }

  /** Escaping never shortens a string. */
  lemma {:induction false} EscapeLength(s: string)
    ensures |Escape(s)| >= |s|
  {
    if s != [] {
      EscapeLength(s[1..]);
    }
  }

  /** Escaping leaves a string unchanged exactly when every character is plain. */
  lemma {:induction false} EscapeIdentity(s: string)
    ensures Escape(s) == s <==> forall x :: x in s ==> Plain(x)
  {
    if s != [] {
      EscapeIdentity(s[1..]);
      EscapeLength(s[1..]);
      assert s == [s[0]] + s[1..];
      if Escape(s) == s {
        assert |EscapeChar(s[0])| == 1;
        assert EscapeChar(s[0]) == Escape(s)[..1] == [s[0]];
        assert Escape(s[1..]) == Escape(s)[1..] == s[1..];
      }
    }
  }

  /** A string literal: the escaped text between double quotes. */
  function Quote(s: string): (r: string)
  {
    "\"" + Escape(s) + "\""
  }

  /** The character a two-character escape sequence `\e` stands for. */
  function ShortEscape(e: char): Option<char>
  {
    if e == '"' then Some('"')
    else if e == '\\' then Some('\\')
    else if e == '/' then Some('/')
    else if e == 'b' then Some(8 as char)
    else if e == 'f' then Some(12 as char)
    else if e == 'n' then Some('\n')
    else if e == 'r' then Some('\r')
    else if e == 't' then Some('\t')
    else None
  }

  /** Value of four hexadecimal digits, or None when one is not a digit. */
  function Hex4(t: string): (r: Option<nat>)
    requires |t| == 4
    ensures r.Some? ==> r.value < 0x1_0000
  {
    match (HexValue(t[0]), HexValue(t[1]), HexValue(t[2]), HexValue(t[3]))
    case (Some(a), Some(b), Some(c), Some(d)) => Some(((a * 16 + b) * 16 + c) * 16 + d)
    case _ => None
  }

  function Prepend(c: char, r: Option<string>): Option<string>
  {
    match r
    case None => None
    case Some(s) => Some([c] + s)
  }

  /**
   * Reading back the body of a string literal as section 7 of RFC 8259
   * defines it: plain characters stand for themselves, a backslash starts a
   * two-character escape or a six-character \uXXXX escape. None for text that
   * is not a well-formed body; a \u escape of a surrogate half is not decoded.
   */
  function Unescape(t: string): (r: Option<string>)
    ensures r.Some? ==> |r.value| <= |t|
    decreases |t|
  {
    if t == [] then Some([])
    else if t[0] != '\\' then
      if Plain(t[0]) then Prepend(t[0], Unescape(t[1..])) else None
    else if |t| >= 6 && t[1] == 'u' then
      match Hex4(t[2..6])
      case None => None
      case Some(code) =>
        if 0xD800 <= code < 0xE000 then None else Prepend(code as char, Unescape(t[6..]))
    else if |t| >= 2 then
      match ShortEscape(t[1])
      case None => None
      case Some(c) => Prepend(c, Unescape(t[2..]))
    else None
  }

  /** Reading back the text of one escaped character followed by more text. */
  lemma UnescapeChar(c: char, rest: string)
    ensures Unescape(EscapeChar(c) + rest) == Prepend(c, Unescape(rest))
  {
    var t := EscapeChar(c) + rest;
    var code := c as int;
    if Plain(c) {
      assert t[0] == c && t[1..] == rest;
    } else if c == '"' || c == '\\' || code == 8 || code == 12 || c == '\n' || c == '\r' || c == '\t' {
      assert |EscapeChar(c)| == 2 && t[2..] == rest;
    } else {
      var h1, h2 := HexDigit(code / 16), HexDigit(code % 16);
      assert EscapeChar(c) == "\\u00" + [h1, h2];
      assert t[2..6] == ['0', '0', h1, h2];
      assert t[6..] == rest;
      assert Hex4(t[2..6]) == Some(code);
    }
  }

  /** Escaping is undone by reading back: distinct strings have distinct escaped texts. */
  lemma {:induction false} UnescapeEscape(s: string)
    ensures Unescape(Escape(s)) == Some(s)
  {
    if s != [] {
      UnescapeEscape(s[1..]);
      UnescapeChar(s[0], Escape(s[1..]));
      assert [s[0]] + s[1..] == s;
    }
  }

  /** The string a literal stands for, or None when the text is not a literal. */
  function Unquote(t: string): Option<string>
  {
    if |t| >= 2 && t[0] == '"' && t[|t| - 1] == '"' then Unescape(t[1..|t| - 1]) else None
  }

  /** Reading a quoted literal back gives the original string. */
  lemma UnquoteQuote(s: string)
    ensures Unquote(Quote(s)) == Some(s)
  {
    var q := Quote(s);
    assert q[1..|q| - 1] == Escape(s);
    UnescapeEscape(s);
  }

  /** Decimal text of a natural number, without leading zeros. */
  function NatText(k: nat): (r: string)
    ensures |r| >= 1 && (|r| > 1 ==> r[0] != '0')
    ensures forall x :: x in r ==> '0' <= x <= '9'
  {
    if k < 10 then [Digit(k)] else NatText(k / 10) + [Digit(k % 10)]
  }

  /** Decimal text of an integer, with a leading minus sign when negative. */
  function IntText(k: int): (r: string)
    ensures |r| >= 1
    ensures forall x :: x in r ==> x == '-' || '0' <= x <= '9'
  {
    if k < 0 then "-" + NatText(-k) else NatText(k)
  }

  /** The decimal text of a natural number denotes that number. */
  lemma {:induction false} NatTextValue(k: nat)
    ensures DecimalValue(NatText(k)) == k
  {
    if k >= 10 {
      NatTextValue(k / 10);
      var t := NatText(k);
      assert t[..|t| - 1] == NatText(k / 10);
    }
  }

  /** The text of an integer, minus sign included, denotes that integer. */
  lemma IntTextValue(k: int)
    ensures SignedValue(IntText(k)) == k
  {
    if k < 0 {
      NatTextValue(-k);
      assert IntText(k)[1..] == NatText(-k);
    } else {
      NatTextValue(k);
      assert NatText(k)[0] in NatText(k);
    }
  }

  function ScalarText(v: Scalar): string
  {
    match v
    case Str(s) => Quote(s)
    case Num(k) => IntText(k)
    case Bool(b) => if b then "true" else "false"
    case Null => "null"
  }

  /** A string's literal reads back as the string, and a number's text denotes the number. */
  lemma ScalarTextReadsBack(v: Scalar)
    ensures v.Str? ==> Unquote(ScalarText(v)) == Some(v.s)
    ensures v.Num? ==> SignedValue(ScalarText(v)) == v.n
  {
    match v
    case Str(s) => UnquoteQuote(s);
    case Num(k) => IntTextValue(k);
    case _ =>
  }

  /** Comma-separated concatenation of the entry texts of a container. */
  function Join(parts: seq<string>): (r: string)
  {
    if |parts| == 0 then ""
    else if |parts| == 1 then parts[0]
    else parts[0] + "," + Join(parts[1..])
  }

  /** Offset of the i-th part inside Join(parts). */
  function JoinOffset(parts: seq<string>, i: nat): nat
    requires i < |parts|
  {
    if i == 0 then 0 else |parts[0]| + 1 + JoinOffset(parts[1..], i - 1)
  }

  lemma {:induction false} JoinHoldsPart(parts: seq<string>, i: nat)
    requires i < |parts|
    ensures OccursAt(parts[i], Join(parts), JoinOffset(parts, i))
  {
    if i == 0 {
      OccursSelf(parts[0]);
      if |parts| > 1 {
        OccursLeft(parts[0], parts[0], ",", 0);
        OccursLeft(parts[0], parts[0] + ",", Join(parts[1..]), 0);
      }
    } else {
      JoinHoldsPart(parts[1..], i - 1);
      OccursRight(parts[i], parts[0] + ",", Join(parts[1..]), JoinOffset(parts[1..], i - 1));
    }
  }

  /** The joined text ends with its last part: its length is the last part's offset plus that part's length. */
  lemma {:induction false} JoinLength(parts: seq<string>)
    requires |parts| > 0
    ensures |Join(parts)| == JoinOffset(parts, |parts| - 1) + |parts[|parts| - 1]|
  {
    if |parts| > 1 {
      var rest := parts[1..];
      JoinLength(rest);
      assert Join(parts) == parts[0] + "," + Join(rest);
      assert JoinOffset(parts, |parts| - 1) == |parts[0]| + 1 + JoinOffset(rest, |rest| - 1);
      assert parts[|parts| - 1] == rest[|rest| - 1];
    }
  }

  /** What occurs in one part occurs in the joined text, shifted by the part's offset. */
  lemma JoinHolds(parts: seq<string>, i: nat, pat: string, o: int)
    requires i < |parts| && OccursAt(pat, parts[i], o)
    ensures OccursAt(pat, Join(parts), JoinOffset(parts, i) + o)
  {
    JoinHoldsPart(parts, i);
    OccursInside(pat, parts[i], o, Join(parts), JoinOffset(parts, i));
  }

  /** What precedes the i-th child's text: its quoted name and a colon in an object, nothing in an array. */
  function Label(n: Node, i: nat): string
    requires i < Width(n)
  {
    if n.Obj? then Quote(n.members[i].0) + ":" else ""
  }

  /** Opening delimiter of a container. */
  function Open(n: Node): char
  {
    if n.Obj? then '{' else '['
  }

  /** Closing delimiter of a container. */
  function Close(n: Node): char
  {
    if n.Obj? then '}' else ']'
  }

  /** The compact JSON text of `n`: a scalar's literal, or a container's delimiters around its joined entries. */
  function Serialize(n: Node): (r: string)
    ensures |r| >= 1
    decreases n, 1
  {
    if n.Leaf? then ScalarText(n.value) else [Open(n)] + Join(Entries(n)) + [Close(n)]
  }

  /** The entry texts of a container, in order: each child's label followed by the child's text. */
  function Entries(n: Node): (r: seq<string>)
    ensures |r| == Width(n)
    decreases n, 0
  {
    seq(Width(n), i requires 0 <= i < Width(n) => Label(n, i) + Serialize(Child(n, i)))
  }

  /** Offset of the i-th child's value text inside Serialize(n). */
  function ChildOffset(n: Node, i: nat): nat
    requires i < Width(n)
  {
    1 + (JoinOffset(Entries(n), i) + |Label(n, i)|)
  }

  /** Offset, inside Serialize(n), of the text of the value that path `p` reaches. */
  function PathOffset(n: Node, p: Path): nat
    decreases |p|
  {
    if p == [] then 0
    else match Position(n, p[0])
      case None => 0
      case Some(i) => ChildOffset(n, i) + PathOffset(Child(n, i), p[1..])
  }

  /** The text of a direct child appears verbatim in its parent's text, at ChildOffset. */
  lemma ChildTextAt(n: Node, i: nat)
    requires i < Width(n)
    ensures OccursAt(Serialize(Child(n, i)), Serialize(n), ChildOffset(n, i))
  {
    var v, o := Serialize(Child(n, i)), JoinOffset(Entries(n), i) + |Label(n, i)|;
    ChildInJoin(n, i);
    JoinTextAt(n, v, o);
  }

  lemma ChildInJoin(n: Node, i: nat)
    requires i < Width(n)
    ensures OccursAt(Serialize(Child(n, i)), Join(Entries(n)), JoinOffset(Entries(n), i) + |Label(n, i)|)
  {
    PartHolds(Entries(n), i, Label(n, i), Serialize(Child(n, i)));
  }

  /** A part made of a prefix and a text holds that text, in the joined parts, just after the prefix. */
  lemma PartHolds(parts: seq<string>, i: nat, pre: string, v: string)
    requires i < |parts| && parts[i] == pre + v
    ensures OccursAt(v, Join(parts), JoinOffset(parts, i) + |pre|)
  {
    OccursSelf(v);
    OccursRight(v, pre, v, 0);
    JoinHolds(parts, i, v, |pre|);
  }

  /** What occurs in the joined entries occurs in the container's text, one past the opening delimiter. */
  lemma JoinTextAt(n: Node, pat: string, o: int)
    requires !n.Leaf?
    requires OccursAt(pat, Join(Entries(n)), o)
    ensures OccursAt(pat, Serialize(n), 1 + o)
  {
    OccursRight(pat, [Open(n)], Join(Entries(n)), o);
    OccursLeft(pat, [Open(n)] + Join(Entries(n)), [Close(n)], 1 + o);
  }

  /** The text of any value a path reaches appears verbatim in the root's text, at PathOffset. */
  lemma {:induction false} PathTextAt(n: Node, p: Path)
    requires Follow(n, p).Some?
    ensures OccursAt(Serialize(Follow(n, p).value), Serialize(n), PathOffset(n, p))
    decreases |p|
  {
    if p == [] {
      var t := Serialize(n);
      assert t[0..|t|] == t;
    } else {
      var i := Position(n, p[0]).value;
      var c := Child(n, i);
      var target, inner, whole := Serialize(Follow(c, p[1..]).value), Serialize(c), Serialize(n);
      PathTextAt(c, p[1..]);
      ChildTextAt(n, i);
      OccursInside(target, inner, PathOffset(c, p[1..]), whole, ChildOffset(n, i));
    }
  }

  /** No string or member name anywhere in `n` contains `c`. */
  ghost predicate FreeOf(n: Node, c: char)
  {
    match n
    case Leaf(v) => v.Str? ==> c !in v.s
    case Obj(ms) => forall i :: 0 <= i < |ms| ==> c !in ms[i].0 && FreeOf(ms[i].1, c)
    case Arr(xs) => forall i :: 0 <= i < |xs| ==> FreeOf(xs[i], c)
  }

  /** Sum of a sequence of counts. */
  function Sum(xs: seq<nat>): nat
  {
    if xs == [] then 0 else xs[0] + Sum(xs[1..])
  }

  /** Number of objects (when `objects`) or arrays (otherwise) in `n`, `n` included. */
  function Containers(n: Node, objects: bool): nat
    decreases n, 1
  {
    (if objects == n.Obj? && !n.Leaf? then 1 else 0) + Sum(NestedContainers(n, objects))
  }

  /** Containers(c, objects) for each direct child c of `n`. */
  function NestedContainers(n: Node, objects: bool): (r: seq<nat>)
    ensures |r| == Width(n)
    decreases n, 0
  {
    seq(Width(n), i requires 0 <= i < Width(n) => Containers(Child(n, i), objects))
  }

  /** How often the character `c` occurs in each part. */
  function PartCounts(parts: seq<string>, c: char): (r: seq<nat>)
    ensures |r| == |parts|
  {
    seq(|parts|, i requires 0 <= i < |parts| => multiset(parts[i])[c])
  }

  /** Escaping neither adds nor removes a bracket. */
  lemma {:induction false} EscapeKeepsBracket(s: string, c: char)
    requires IsBracket(c)
    ensures multiset(Escape(s))[c] == multiset(s)[c]
    decreases |s|
  {
    if s != [] {
      EscapeKeepsBracket(s[1..], c);
      EscapeCharBracket(s[0], c);
      MultisetOfCons(s);
    }
  }

  lemma EscapeCharBracket(x: char, c: char)
    requires IsBracket(c)
    ensures multiset(EscapeChar(x))[c] == if x == c then 1 else 0
  {
    var e := EscapeChar(x);
    if IsBracket(x) {
      assert e == [x];
    } else {
      assert c !in e;
    }
  }

  lemma QuoteKeepsBracket(s: string, c: char)
    requires IsBracket(c)
    ensures multiset(Quote(s))[c] == multiset(s)[c]
  {
    EscapeKeepsBracket(s, c);
  }

  lemma ScalarHasNoBracket(v: Scalar, c: char)
    requires IsBracket(c)
    requires v.Str? ==> c !in v.s
    ensures c !in ScalarText(v)
  {
    match v
    case Str(s) =>
      QuoteKeepsBracket(s, c);
      assert multiset(Quote(s))[c] == 0;
    case Num(k) =>
      NumHasNoBracket(k, c);
    case Bool(b) =>
    case Null =>
  }

  lemma NumHasNoBracket(k: int, c: char)
    requires IsBracket(c)
    ensures c !in IntText(k)
  {
  }

  /** The separating commas add no bracket: a bracket count of the joined text is the sum over the parts. */
  lemma {:induction false} JoinBracketCount(parts: seq<string>, c: char)
    requires IsBracket(c)
    ensures multiset(Join(parts))[c] == Sum(PartCounts(parts, c))
  {
    if |parts| > 1 {
      JoinBracketCount(parts[1..], c);
      assert PartCounts(parts, c)[1..] == PartCounts(parts[1..], c);
      assert Join(parts) == parts[0] + "," + Join(parts[1..]);
    } else if |parts| == 1 {
      assert PartCounts(parts, c)[1..] == [];
    }
  }

  /**
   * When no string in `n` contains the bracket `c`, the compact text holds
   * one `{` and one `}` per object and one `[` and one `]` per array.
   */
  lemma {:induction false} BracketCount(n: Node, c: char)
    requires IsBracket(c)
    requires FreeOf(n, c)
    ensures multiset(Serialize(n))[c] == Containers(n, c == '{' || c == '}')
    decreases n, 2
  {
    if n.Leaf? {
      ScalarHasNoBracket(n.value, c);
      assert multiset(Serialize(n))[c] == 0;
    } else {
      ContainerBracketCount(n, c);
    }
  }

  lemma {:induction false} ContainerBracketCount(n: Node, c: char)
    requires IsBracket(c)
    requires FreeOf(n, c)
    requires !n.Leaf?
    ensures multiset(Serialize(n))[c] == Containers(n, c == '{' || c == '}')
    decreases n, 1
  {
    var objects := c == '{' || c == '}';
    var counts := PartCounts(Entries(n), c);
    var inner := NestedContainers(n, objects);
    forall i | 0 <= i < Width(n)
      ensures counts[i] == inner[i]
    {
      EntryBracketCount(n, i, c);
    }
    assert counts == inner;
    JoinBracketCount(Entries(n), c);
    DelimiterCount(n, c);
  }

  /** The delimiters of a container contribute one bracket of its own kind at each end. */
  lemma DelimiterCount(n: Node, c: char)
    requires IsBracket(c)
    requires !n.Leaf?
    ensures multiset(Serialize(n))[c]
         == (if (c == '{' || c == '}') == n.Obj? then 1 else 0) + multiset(Join(Entries(n)))[c]
  {
  }

  lemma {:induction false} EntryBracketCount(n: Node, i: nat, c: char)
    requires IsBracket(c)
    requires FreeOf(n, c)
    requires i < Width(n)
    ensures multiset(Entries(n)[i])[c] == Containers(Child(n, i), c == '{' || c == '}')
    decreases n, 0
  {
    BracketCount(Child(n, i), c);
    if n.Obj? {
      QuoteKeepsBracket(n.members[i].0, c);
    }
  }

  /** Counted as the occurrence counter counts them, opening and closing brackets balance. */
  lemma BracketsBalance(n: Node, objects: bool)
    requires if objects then FreeOf(n, '{') && FreeOf(n, '}') else FreeOf(n, '[') && FreeOf(n, ']')
    ensures objects ==> Count("{", Serialize(n)) == Containers(n, true) == Count("}", Serialize(n))
    ensures !objects ==> Count("[", Serialize(n)) == Containers(n, false) == Count("]", Serialize(n))
  {
    var t := Serialize(n);
    if objects {
      BracketCount(n, '{');
      BracketCount(n, '}');
      CountChar('{', t);
      CountChar('}', t);
    } else {
      BracketCount(n, '[');
      BracketCount(n, ']');
      CountChar('[', t);
      CountChar(']', t);
    }
  }
}

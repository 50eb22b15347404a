# visually-digger, modelled in Dafny

visually-digger finds a *marker* value (a short sentinel such as `'*'` or
`'***'`) inside a nested JSON-like structure of objects and arrays, and
reports where it is in two ways: as the path of keys and indices from the
root (`deepFindKeys`), and as the inclusive character span, inside the
compact JSON text of the whole structure, of the innermost container that
directly holds the marker, together with the key under which the marker
sits there (`getNearestObjectKeyAndIndexStartToEnd`). `dig` uses the path
of the marker in a template (`target`) to read the value at the same place
in real data (`source`), and `countWordInText` counts non-overlapping
occurrences of a literal substring in a text.

The implementation module `index.js` is not part of this model; the
behaviour modelled is the one the test suite `tests/index.spec.js` asserts
for the four functions, and every scenario of that suite is proved about
the model in module `Examples`.

Modules:

- `Wrappers` — `Option` and `Result`.
- `Json` — values (`Node`: `Obj` with insertion-ordered members, `Arr`,
  `Leaf` of a `Scalar`), keys (`Name` for a member, `Index` for an array
  position), paths, following a path, and replacing the value at a path.
- `Text` — `countWordInText` (`Count`, and the scanning method
  `CountOccurrences` proved equal to it) and the first-occurrence search
  `IndexOf` used by the span locator.
- `Serializer` — the compact JSON text (`Serialize`) as `JSON.stringify`
  writes it without indentation, including the escaping of quotes,
  backslashes and control characters; where each nested value's text sits
  in the whole text; and the bracket counts of the text.
- `DeepFind` — `deepFindKeys` (`FindPath`), characterised by the
  independent predicate `Leftmost` (the first marker path in pre-order).
- `NearestSpan` — `getNearestObjectKeyAndIndexStartToEnd` (`Locate`): the
  container is the value at the marker path without its last key; its text
  is searched for in the whole text, first match wins.
- `Digger` — `dig` (`Dig`).
- `Examples` — the values and expected results of the test suite.

The span is computed one way for every container: serialize it, take its
first occurrence in the whole text. For a container that is the root this
is offset 0 and the end of the text (`NearestSpan.ContainerSpanText`), so
the root needs no separate rule. Because the search takes the first
textual match, the reported span can start before the container that
really holds the marker when identical text occurs earlier; this is the
documented policy of the locator, and `Examples.LocateDecoy` exhibits it.

## Model

| member | source | states |
|---|---|---|
| Text.Count | tests/index.spec.js:36 | the number of non-overlapping matches times the needle's length never exceeds the text's length |
| Text.CountOccurrences | tests/index.spec.js:36 | the left-to-right scan that resumes past each match returns exactly `Count` |
| Text.OccurrenceIsCounted | tests/index.spec.js:36 | wherever the needle occurs, the count is positive |
| Text.CountedIsOccurrence | tests/index.spec.js:36 | a positive count comes from an actual occurrence |
| Text.CountZeroIffAbsent | tests/index.spec.js:36 | the count is zero exactly when the needle occurs nowhere in the text |
| Text.CountChar | tests/index.spec.js:37-40 | for a one-character needle the count equals the number of times the character appears in the text |
| Text.OccursInside | tests/index.spec.js:64-68 | an occurrence inside a text that itself occurs in a larger text occurs in the larger text at the summed offset |
| Text.IndexFrom | tests/index.spec.js:64-68 | the result is an occurrence at or after the start offset with none between, or None when there is none |
| Text.IndexOf | tests/index.spec.js:64-68 | the result is present exactly when the pattern occurs; it is an occurrence and no earlier offset is one |
| Json.KeyAt | tests/index.spec.js:106-123 | the key of a child is a member name exactly in an object, and the child's index in an array |
| Json.MemberFrom | tests/index.spec.js:138-163 | the result is the first position at or after the start whose member has the name, or None when no later member has it |
| Json.Position | tests/index.spec.js:138-163 | a key selects the first child it labels, or nothing when no child carries it |
| Json.WithChild | tests/index.spec.js:151-163 | replacing one child keeps the width, every key and every other child |
| Json.PositionSameKeys | tests/index.spec.js:151-163 | two values with the same keys in the same order select the same child for every key |
| Json.FollowInside | tests/index.spec.js:120-135 | whatever value a path reaches lies inside the value the path starts from: a scalar it contains is contained in the start |
| Json.FollowAppend | tests/index.spec.js:120-135 | following a concatenated path is following the first part and then the second |
| Serializer.EscapeChar | tests/index.spec.js:48-49 | a character is written as itself exactly when it is plain; a bracket is written as itself and no escape sequence contains a bracket |
| Serializer.EscapeLength | tests/index.spec.js:48-49 | escaping never shortens a string |
| Serializer.EscapeIdentity | tests/index.spec.js:48-49 | escaping leaves a string unchanged exactly when every character is plain |
| Serializer.HexDigit | tests/index.spec.js:37 | the digit written for a value below 16 is a lower-case hexadecimal digit that reads back as that value |
| Serializer.Unescape | tests/index.spec.js:48-49 | reading escape sequences back never gives a longer string than the escaped text |
| Serializer.UnescapeChar | tests/index.spec.js:48-49 | the escape written for one character reads back as that character, whatever follows it |
| Serializer.UnescapeEscape | tests/index.spec.js:48-49 | reading back the escaped form of any string gives that string |
| Serializer.UnquoteQuote | tests/index.spec.js:48-49 | a string written as a quoted JSON string literal reads back as the same string |
| Serializer.NatText | tests/index.spec.js:37 | the decimal text of a natural number is made of digits and has no leading zero |
| Serializer.NatTextValue | tests/index.spec.js:37 | the decimal text of a natural number denotes that number |
| Serializer.IntTextValue | tests/index.spec.js:37 | the text of an integer, with its minus sign when negative, denotes that integer |
| Serializer.ScalarTextReadsBack | tests/index.spec.js:37 | the text of a string scalar reads back as the string, and the text of a number denotes the number |
| Serializer.JoinLength | tests/index.spec.js:64-66 | a comma-joined text is as long as the offset of its last part plus that part |
| Serializer.Serialize | tests/index.spec.js:37 | the compact text of a value is never empty |
| Serializer.Entries | tests/index.spec.js:64-66 | a container's text has one entry per child |
| Serializer.JoinHoldsPart | tests/index.spec.js:64-66 | each part of a comma-joined text occurs in it at its offset |
| Serializer.ChildTextAt | tests/index.spec.js:64-66 | the text of a direct child occurs verbatim in its parent's text at the child's offset |
| Serializer.PathTextAt | tests/index.spec.js:64-68 | the text of any value a path reaches occurs verbatim in the root's text at the path's offset |
| Serializer.EscapeKeepsBracket | tests/index.spec.js:37-40 | escaping neither adds nor removes a bracket |
| Serializer.ScalarHasNoBracket | tests/index.spec.js:37-40 | the text of a scalar holds a bracket only when a string holds one |
| Serializer.JoinBracketCount | tests/index.spec.js:37-40 | the commas between entries add no bracket |
| Serializer.BracketCount | tests/index.spec.js:37-40 | when no string contains the bracket, the text holds one of each brace per object and one of each square bracket per array |
| Serializer.BracketsBalance | tests/index.spec.js:37-40 | counted by `Count`, the opening and closing braces both equal the number of objects, and the square brackets the number of arrays |
| DeepFind.FindPathShape | tests/index.spec.js:106-136 | a scalar other than the marker gives no path, the marker itself gives the empty path, and any other path starts with a key that selects a child |
| DeepFind.FindFromShape | tests/index.spec.js:112-118 | a path found among the children is never empty and starts with a key that selects a child |
| DeepFind.FirstHolderIsLeftmost | tests/index.spec.js:112-136 | with distinct member names, when the first child holding the marker is child `i`, its key followed by the path found inside it is the first marker path in pre-order |
| DeepFind.FindPathContains | tests/index.spec.js:106-136 | a path is found exactly when the marker occurs in the value |
| DeepFind.FindFromSkips | tests/index.spec.js:112-118 | children without the marker are skipped and the first child holding it gives its key followed by the path inside it |
| DeepFind.LeftmostIsFound | tests/index.spec.js:106-136 | the first marker path in pre-order is the one the search returns |
| DeepFind.FoundIsLeftmost | tests/index.spec.js:106-136 | with distinct member names, the returned path is the first marker path in pre-order |
| DeepFind.LeftmostReachesMarker | tests/index.spec.js:120-135 | a first marker path leads to the marker |
| DeepFind.FindPathIsLeftmost | tests/index.spec.js:106-136 | with distinct member names, the search returns `p` exactly when `p` is the first marker path in pre-order |
| DeepFind.FindPathReachesMarker | tests/index.spec.js:120-135 | with distinct member names, following the returned path from the root reaches a value equal to the marker |
| Digger.Dig | tests/index.spec.js:138-163 | nothing is dug out of a template that does not contain the marker |
| Digger.DigFollowsMarkerPath | tests/index.spec.js:138-163 | with distinct member names, a value dug out of the data sits at the path at which the marker sits in the template |
| Digger.ReplaceIsLeftmost | tests/index.spec.js:151-163 | putting the marker at a followable path of marker-free data makes that path the first marker path |
| Digger.DigAtLeftmost | tests/index.spec.js:23-33 | whenever the marker's first path in the template is `p`, dig gives the data's value at `p`, whatever the template holds elsewhere, or None when the data has no value there |
| Digger.DigTemplate | tests/index.spec.js:138-163 | a template made from the data by putting the marker at `p` digs out exactly the data's value at `p` |
| NearestSpan.Locate | tests/index.spec.js:43-104 | a reported span lies inside the text of the whole value, start no later than end |
| NearestSpan.ContainerSpan | tests/index.spec.js:64-68 | a reported span carries the given key and lies inside the whole text |
| NearestSpan.ContainerSpanText | tests/index.spec.js:48-51 | for a followable container the span is found: it is the first occurrence of the container's text, covers it exactly, starts no later than the container's true offset, and is the whole text for the root |
| NearestSpan.ContainerSpanAt | tests/index.spec.js:64-68 | the span starts at any offset where the container's text first occurs |
| NearestSpan.DelimitersAt | tests/index.spec.js:64-68 | where a container's text occurs, its first and last characters are the container's opening and closing delimiters |
| NearestSpan.LocateFailsOnlyWithoutContainer | tests/index.spec.js:43-104 | with distinct member names, locating fails exactly when the marker is absent or is the root, and then reports NotFound |
| NearestSpan.ContainerSpanFound | tests/index.spec.js:64-68 | for a followable container the span is found, starts at an occurrence of the container's text and covers exactly that text |
| NearestSpan.ContainerDelimitersAt | tests/index.spec.js:64-68 | a span covering an occurrence of a container's text starts at its opening and ends at its closing delimiter |
| NearestSpan.LocateSpan | tests/index.spec.js:43-104 | with distinct member names, for a marker path `q + [k]`: key `k`, the marker is the direct child of a container, a name key exactly for an object, the span is the container's first textual occurrence and covers it exactly, no later than its true offset, the whole text for the root |
| NearestSpan.LocateDelimiters | tests/index.spec.js:43-104 | with distinct member names, the reported span starts at the container's opening delimiter and ends at its closing one |
| NearestSpan.MarkerParent | tests/index.spec.js:47 | with distinct member names, the value at the marker path without its last key is a container whose child under that key is the marker; the key is a name exactly when the container is an object |
| Examples.CountStars | tests/index.spec.js:36 | the three-star needle occurs twice, without overlap, in the test's text of two three-star runs around a bar |
| Examples.TargetMapContainers | tests/index.spec.js:23-33 | the test's `targetMap` holds five objects and one array |
| Examples.TargetMapBrackets | tests/index.spec.js:37-40 | the text of `targetMap` holds five `{`, five `}`, one `[` and one `]` |
| Examples.FindNameMarker | tests/index.spec.js:106-110 | `{ name: marker }` gives the path `['name']` |
| Examples.FindInArray | tests/index.spec.js:112-118 | `[0, 1, marker]` gives `[2]` for every marker text |
| Examples.FindObjectInArray | tests/index.spec.js:120-124 | `[0, 1, { name: '*' }]` gives `[2, 'name']` |
| Examples.FindDeep | tests/index.spec.js:126-136 | the nested test value gives `[2, 'first', 'second', 'third', 'name']` |
| Examples.LocateNameMarker | tests/index.spec.js:43-52 | `{ name: marker }` gives key `'name'`, start 0 and end at the last character |
| Examples.LocateNested | tests/index.spec.js:54-86 | the nested object gives key `'name'`, start 9, and an end that grows with the marker's length |
| Examples.LocateArrayLast | tests/index.spec.js:88-95 | `[{}, marker]` gives key 1, start 0 and end at the last character |
| Examples.LocateArrayFirst | tests/index.spec.js:97-104 | `[marker, {}]` gives key 0, start 0 and end at the last character |
| Examples.LocateTestValues | tests/index.spec.js:43-104 | the exact keys and spans the tests expect: (name, 0, 11), (name, 9, 20), (name, 9, 22), (1, 0, 7), (0, 0, 7) |
| Examples.LocateDecoy | tests/index.spec.js:54-69 | first textual match: on `{ a: '[1]', b: [1] }` the span starts at 6, inside the string, while the array holding the marker is at 15 |
| Examples.FindMoles | tests/index.spec.js:151-163 | in the template the marker is at `animal/marmal/moles/1/name` |
| Examples.DigMoles | tests/index.spec.js:138-163 | digging the template out of the data gives `'Don Resetti'` |
| Examples.DigTargetMap | tests/index.spec.js:9-33 | digging `targetMap`, whose first mole is an empty object, out of the data also gives `'Don Resetti'` |

## Left out

- The implementation file `index.js` is not part of this model; the functions are modelled from the behaviour the test suite asserts for them.
- The Jest harness (`describe`, `test`, `expect`) and the module import: test plumbing.
- Floating-point numbers: a number is an unbounded integer, written in plain decimal; `JSON.stringify`'s formatting of fractions and exponents is not modelled.
- JavaScript's enumeration order puts integer-like member names first; the model keeps members in the order given, which is insertion order for the names the tests use.
- Non-JSON values (cycles, functions, `undefined`, `NaN`, `Infinity`): they have no counterpart in `Node`.
- Json.Follow: a member name on an array or an index on an object selects nothing; JavaScript would convert the key to the other kind.
- Serializer.EscapeChar: characters are Unicode scalar values, not UTF-16 code units, so a lone surrogate (which `JSON.stringify` writes as a `\u` escape) cannot occur.
- NearestSpan.Locate: offsets and lengths count Unicode code points, whereas JavaScript counts UTF-16 code units, so each character above U+FFFF before a position makes JavaScript's offset larger by one (for `{ a: '😀', b: { name: '*' } }` the model's span starts at 13 and JavaScript's at 14).
- Text.Count: the needle and the text are sequences of code points, not of UTF-16 code units; a needle that is half of a surrogate pair cannot be expressed.
- Text.IndexOf: the offset found counts code points, so it is smaller than JavaScript's by one for each character above U+FFFF before it.
- Serializer.Serialize: lengths count code points, so a string holding a character above U+FFFF has a text one shorter per such character than JavaScript's (3 characters for a one-emoji string, against 4).
- Serializer.Unescape: a `\u` escape of a surrogate half is rejected instead of being paired with the next escape; `Escape` never writes one.
- Text.Count: the needle must be non-empty; the behaviour for an empty needle is undefined for `countWordInText`.
- NearestSpan.Locate: a marker that is the root value itself has no enclosing container and reports NotFound.
- Every lemma that requires `UniqueKeys` (DeepFind.FoundIsLeftmost, DeepFind.FirstHolderIsLeftmost, DeepFind.FindPathIsLeftmost, DeepFind.FindPathReachesMarker, Digger.DigFollowsMarkerPath, NearestSpan.LocateFailsOnlyWithoutContainer, NearestSpan.LocateSpan, NearestSpan.LocateDelimiters, NearestSpan.MarkerParent) holds for distinct member names in every object, which JavaScript objects always have.
- Digger.DigTemplate: requires data that does not itself contain the marker; otherwise the first marker in the template may be one copied from the data.
- The tested markers are made of plain characters; the general locating lemmas in `Examples` are stated for such markers only.

/**
 Finding the last complete JSON object in mixed program output, without parsing it: the scanner only
 follows braces, and strings so as not to be misled by the braces in them.
 */
module JsonScan {
  import opened Common

  datatype Extent = Extent(start: nat, end: nat)

  datatype Scanner = Scanner(objectStart: Option<nat>, last: Option<Extent>, depth: nat, inString: bool, escaped: bool)

  const START := Scanner(None, None, 0, false, false)

  /** One character at position i. */
  function Step(s: Scanner, c: char, i: nat): Scanner {
    if s.inString then
      if s.escaped then s.(escaped := false)
      else if c == '\\' then s.(escaped := true)
      else if c == '"' then s.(inString := false)
      else s
    else if c == '"' then s.(inString := true)
    else if c == '{' then s.(depth := s.depth + 1, objectStart := if s.depth == 0 then Some(i) else s.objectStart)
    else if c == '}' && s.depth > 0 then
      if s.depth == 1 && s.objectStart.Some? then s.(depth := 0, last := Some(Extent(s.objectStart.value, i)))
      else s.(depth := s.depth - 1)
    else s
  }

  function Scan(s: Scanner, text: string, i: nat): Scanner
    decreases text
  {
    if text == "" then s else Scan(Step(s, text[0], i), text[1..], i + 1)
  }

  lemma {:induction false} ScanAppend(s: Scanner, a: string, b: string, i: nat)
    ensures Scan(s, a + b, i) == Scan(Scan(s, a, i), b, i + |a|)
    decreases a
  {
    if a == "" {
      assert a + b == b;
    } else {
      assert (a + b)[0] == a[0] && (a + b)[1..] == a[1..] + b;
      ScanAppend(Step(s, a[0], i), a[1..], b, i + 1);
    }
  }

  function Extract(text: string, found: Option<Extent>): string {
    match found
    case None => text
    case Some(e) => if e.start <= e.end < |text| then text[e.start..e.end + 1] else text
  }

  method FinalJsonDocument(text: string) returns (document: string)
    ensures document == Extract(text, Scan(START, text, 0).last)
  {
    var objectStart: Option<nat>, lastStart: Option<nat>, lastEnd: Option<nat> := None, None, None;
    var depth: nat, inString, escaped := 0, false, false;
    ghost var last: Option<Extent> := None;
    assert text[0..] == text;
    for i := 0 to |text|
      invariant Scan(START, text, 0) == Scan(Scanner(objectStart, last, depth, inString, escaped), text[i..], i)
      invariant match last
                case None => lastStart.None?
                case Some(e) => lastStart == Some(e.start) && lastEnd == Some(e.end) && e.end < |text|
    {
      var c := text[i];
      assert text[i..][0] == c && text[i..][1..] == text[i + 1..];
      if inString {
        if escaped {
          escaped := false;
        } else if c == '\\' {
          escaped := true;
        } else if c == '"' {
          inString := false;
        }
        continue;
      }
      if c == '"' {
        inString := true;
        continue;
      }
      if c == '{' {
        if depth == 0 {
          objectStart := Some(i);
        }
        depth := depth + 1;
      } else if c == '}' && depth > 0 {
        depth := depth - 1;
        if depth == 0 && objectStart.Some? {
          lastStart, lastEnd := objectStart, Some(i);
          last := Some(Extent(objectStart.value, i));
        }
      }
    }
    assert text[|text|..] == "";
    if lastStart.None? || lastEnd.None? || lastEnd.value < lastStart.value {
      return text;
    }
    return text[lastStart.value..lastEnd.value + 1];
  }

  // ---------------------------------------------------------------- what an object looks like to the scanner

  datatype StringItem = Plain(c: char) | Escape(c: char)

  predicate GoodItem(item: StringItem) { item.Plain? ==> item.c != '"' && item.c != '\\' }

  function ItemText(item: StringItem): string {
    match item
    case Plain(c) => [c]
    case Escape(c) => ['\\', c]
  }

  function ItemsText(items: seq<StringItem>): string {
    if items == [] then "" else ItemText(items[0]) + ItemsText(items[1..])
  }

  datatype Piece =
    | Other(text: string)               // punctuation, numbers, literals, white space
    | Quoted(items: seq<StringItem>)
    | Group(pieces: seq<Piece>)

  predicate Braceless(text: string) { forall i :: 0 <= i < |text| ==> text[i] != '"' && text[i] != '{' && text[i] != '}' }

  predicate Good(piece: Piece) {
    match piece
    case Other(text) => Braceless(text)
    case Quoted(items) => forall i :: 0 <= i < |items| ==> GoodItem(items[i])
    case Group(pieces) => forall i :: 0 <= i < |pieces| ==> Good(pieces[i])
  }

  function PieceText(piece: Piece): string {
    match piece
    case Other(text) => text
    case Quoted(items) => "\"" + (ItemsText(items) + "\"")
    case Group(pieces) => "{" + (PiecesText(pieces) + "}")
  }

  function PiecesText(pieces: seq<Piece>): string {
    if pieces == [] then "" else PieceText(pieces[0]) + PiecesText(pieces[1..])
  }

  /** Inside an object nothing is found and the scanner never comes below the depth it had. */
  predicate Quiet(before: Scanner, after: Scanner) {
    after.last == before.last && after.depth >= before.depth && after.objectStart == before.objectStart
  }

  /** The whole text leaves the scanner as it was, and each beginning of it is quiet. */
  ghost predicate Neutral(s: Scanner, text: string, i: nat) {
    Scan(s, text, i) == s && forall n :: 0 <= n <= |text| ==> Quiet(s, Scan(s, text[..n], i))
  }

  lemma NeutralThen(s: Scanner, a: string, b: string, i: nat)
    requires Neutral(s, a, i) && Neutral(s, b, i + |a|)
    ensures Neutral(s, a + b, i)
  {
    ScanAppend(s, a, b, i);
    forall n | 0 <= n <= |a + b|
      ensures Quiet(s, Scan(s, (a + b)[..n], i))
    {
      if n <= |a| {
        assert (a + b)[..n] == a[..n];
      } else {
        assert (a + b)[..n] == a + b[..n - |a|];
        ScanAppend(s, a, b[..n - |a|], i);
      }
    }
  }

  lemma {:induction false} BracelessNeutral(s: Scanner, text: string, i: nat)
    requires !s.inString && Braceless(text)
    ensures Neutral(s, text, i)
    decreases text
  {
    if text != "" {
      BracelessNeutral(s, text[1..], i + 1);
      SingleNeutral(s, text[0], i);
      NeutralThen(s, [text[0]], text[1..], i);
      assert [text[0]] + text[1..] == text;
    }
  }

  lemma SingleNeutral(s: Scanner, c: char, i: nat)
    requires Step(s, c, i) == s
    ensures Neutral(s, [c], i)
  {
    assert [c][1..] == "" && [c][..0] == "" && [c][..1] == [c];
    assert Scan(Step(s, c, i), "", i + 1) == s;
    assert forall n :: 0 <= n <= 1 ==> [c][..n] == "" || [c][..n] == [c];
  }

  lemma ItemNeutral(s: Scanner, item: StringItem, i: nat)
    requires s.inString && !s.escaped && GoodItem(item)
    ensures Neutral(s, ItemText(item), i)
  {
    match item
    case Plain(c) => SingleNeutral(s, c, i);
    case Escape(c) =>
      var text, half := ItemText(item), s.(escaped := true);
      assert text[1..] == [c] && text[0] == '\\' && [c][1..] == "";
      assert Scan(half, [c], i + 1) == Scan(s, "", i + 2) == s;
      assert text[..0] == "" && text[..1] == ['\\'] && text[..2] == text;
      assert ['\\'][1..] == "";
      assert Scan(s, ['\\'], i) == Scan(half, "", i + 1) == half;
  }

  lemma {:induction false} ItemsNeutral(s: Scanner, items: seq<StringItem>, i: nat)
    requires s.inString && !s.escaped && forall k :: 0 <= k < |items| ==> GoodItem(items[k])
    ensures Neutral(s, ItemsText(items), i)
    decreases items
  {
    if items != [] {
      ItemNeutral(s, items[0], i);
      ItemsNeutral(s, items[1..], i + |ItemText(items[0])|);
      NeutralThen(s, ItemText(items[0]), ItemsText(items[1..]), i);
    }
  }

  lemma EnclosedWhole(s: Scanner, inner: Scanner, opening: char, inside: string, closing: char, i: nat)
    requires Step(s, opening, i) == inner && Neutral(inner, inside, i + 1)
    ensures Scan(s, [opening] + (inside + [closing]), i) == Step(inner, closing, i + 1 + |inside|)
  {
    ScanEnclosed(s, opening, inside + [closing], i);
    ScanAppend(inner, inside, [closing], i + 1);
    assert [closing][1..] == "";
    assert Scan(inner, [closing], i + 1 + |inside|) == Scan(Step(inner, closing, i + 1 + |inside|), "", i + 2 + |inside|);
  }

  lemma EnclosedPrefix(s: Scanner, inner: Scanner, opening: char, inside: string, closing: char, i: nat, n: nat)
    requires Step(s, opening, i) == inner && Quiet(s, inner) && Neutral(inner, inside, i + 1)
    requires n < |inside| + 2
    ensures Quiet(s, Scan(s, ([opening] + (inside + [closing]))[..n], i))
  {
    var text := [opening] + (inside + [closing]);
    if n == 0 {
      assert text[..n] == "";
    } else {
      assert text[..n] == [opening] + inside[..n - 1];
      ScanEnclosed(s, opening, inside[..n - 1], i);
      assert Quiet(inner, Scan(inner, inside[..n - 1], i + 1));
    }
  }

  lemma ScanEnclosed(s: Scanner, opening: char, inside: string, i: nat)
    ensures Scan(s, [opening] + inside, i) == Scan(Step(s, opening, i), inside, i + 1)
  {
    assert ([opening] + inside)[0] == opening && ([opening] + inside)[1..] == inside;
  }

  lemma EnclosedNeutral(s: Scanner, inner: Scanner, opening: char, inside: string, closing: char, i: nat)
    requires Step(s, opening, i) == inner && Quiet(s, inner) && Neutral(inner, inside, i + 1)
    requires Step(inner, closing, i + 1 + |inside|) == s
    ensures Neutral(s, [opening] + (inside + [closing]), i)
  {
    var text := [opening] + (inside + [closing]);
    EnclosedWhole(s, inner, opening, inside, closing, i);
    forall n | 0 <= n <= |text|
      ensures Quiet(s, Scan(s, text[..n], i))
    {
      if n == |text| {
        assert text[..n] == text;
      } else {
        EnclosedPrefix(s, inner, opening, inside, closing, i, n);
      }
    }
  }

  lemma {:induction false} PieceNeutral(s: Scanner, piece: Piece, i: nat)
    requires s.depth > 0 && !s.inString && !s.escaped && Good(piece)
    ensures Neutral(s, PieceText(piece), i)
    decreases piece, 0
  {
    match piece
    case Other(text) => BracelessNeutral(s, text, i);
    case Quoted(items) =>
      var inner := s.(inString := true);
      ItemsNeutral(inner, items, i + 1);
      EnclosedNeutral(s, inner, '"', ItemsText(items), '"', i);
    case Group(pieces) =>
      var inner := s.(depth := s.depth + 1);
      PiecesNeutral(inner, pieces, i + 1);
      EnclosedNeutral(s, inner, '{', PiecesText(pieces), '}', i);
  }

  lemma {:induction false} PiecesNeutral(s: Scanner, pieces: seq<Piece>, i: nat)
    requires s.depth > 0 && !s.inString && !s.escaped && forall k :: 0 <= k < |pieces| ==> Good(pieces[k])
    ensures Neutral(s, PiecesText(pieces), i)
    decreases pieces, 1
  {
    if pieces != [] {
      PieceNeutral(s, pieces[0], i);
      PiecesNeutral(s, pieces[1..], i + |PieceText(pieces[0])|);
      NeutralThen(s, PieceText(pieces[0]), PiecesText(pieces[1..]), i);
    }
  }

  // ---------------------------------------------------------------- the top level

  predicate IsObject(piece: Piece) { piece.Group? && Good(piece) }

  /** Between objects anything goes but quotes and opening braces. */
  predicate Noise(text: string) { forall i :: 0 <= i < |text| ==> text[i] != '"' && text[i] != '{' }

  predicate Idle(s: Scanner) { s.depth == 0 && !s.inString && !s.escaped }

  lemma {:induction false} NoiseIgnored(s: Scanner, text: string, i: nat)
    requires Idle(s) && Noise(text)
    ensures Scan(s, text, i) == s
    decreases text
  {
    if text != "" {
      NoiseIgnored(s, text[1..], i + 1);
    }
  }

  /** A complete object at the top level is what was found last. */
  lemma ObjectFound(s: Scanner, target: Piece, i: nat)
    requires Idle(s) && IsObject(target)
    ensures var size := |PieceText(target)|;
            size >= 2 && Scan(s, PieceText(target), i)
                         == s.(objectStart := Some(i), last := Some(Extent(i, i + size - 1)))
  {
    var inner := s.(depth := 1, objectStart := Some(i));
    PiecesNeutral(inner, target.pieces, i + 1);
    EnclosedWhole(s, inner, '{', PiecesText(target.pieces), '}', i);
  }

  /** An incomplete one is not found. */
  lemma BeginningNotFound(s: Scanner, target: Piece, n: nat, i: nat)
    requires Idle(s) && IsObject(target) && n < |PieceText(target)|
    ensures Scan(s, PieceText(target)[..n], i).last == s.last
  {
    var inner, inside := s.(depth := 1, objectStart := Some(i)), PiecesText(target.pieces);
    PiecesNeutral(inner, target.pieces, i + 1);
    if n == 0 {
      assert PieceText(target)[..n] == "";
    } else {
      assert PieceText(target)[..n] == "{" + inside[..n - 1];
      ScanEnclosed(s, '{', inside[..n - 1], i);
      assert Quiet(inner, Scan(inner, inside[..n - 1], i + 1));
    }
  }

  datatype Document = Document(noise: string, content: Piece)

  predicate GoodDocument(document: Document) { Noise(document.noise) && IsObject(document.content) }

  function DocumentText(document: Document): string { document.noise + PieceText(document.content) }

  function DocumentsText(documents: seq<Document>): string {
    if documents == [] then ""
    else DocumentsText(documents[..|documents| - 1]) + DocumentText(documents[|documents| - 1])
  }

  /** Where the last document's object lies. */
  function LastExtent(documents: seq<Document>): Option<Extent> {
    if documents == [] then None
    else
      var start := |DocumentsText(documents[..|documents| - 1])| + |documents[|documents| - 1].noise|;
      var size := |PieceText(documents[|documents| - 1].content)|;
      if size == 0 then None else Some(Extent(start, start + size - 1))
  }

  lemma DocumentFound(s: Scanner, document: Document, i: nat)
    requires Idle(s) && GoodDocument(document)
    ensures var start, size := i + |document.noise|, |PieceText(document.content)|;
            && size >= 2
            && Scan(s, DocumentText(document), i)
               == s.(objectStart := Some(start), last := Some(Extent(start, start + size - 1)))
  {
    ScanAppend(s, document.noise, PieceText(document.content), i);
    NoiseIgnored(s, document.noise, i);
    ObjectFound(s, document.content, i + |document.noise|);
  }

  ghost predicate Found(documents: seq<Document>) {
    var s := Scan(START, DocumentsText(documents), 0);
    Idle(s) && s.last == LastExtent(documents)
  }

  lemma OneMoreFound(before: seq<Document>, final: Document)
    requires Found(before) && GoodDocument(final)
    ensures Found(before + [final])
  {
    var text := DocumentsText(before);
    assert (before + [final])[..|before|] == before;
    assert DocumentsText(before + [final]) == text + DocumentText(final);
    ScanAppend(START, text, DocumentText(final), 0);
    DocumentFound(Scan(START, text, 0), final, |text|);
  }

  lemma {:induction false} DocumentsFound(documents: seq<Document>)
    requires forall k :: 0 <= k < |documents| ==> GoodDocument(documents[k])
    ensures Found(documents)
  {
    if documents != [] {
      var before, final := documents[..|documents| - 1], documents[|documents| - 1];
      DocumentsFound(before);
      OneMoreFound(before, final);
      assert documents == before + [final];
    }
  }

  /**
   The last complete object is returned, whole and nothing else, whatever objects came before it, whatever
   its strings contain, and even if the output broke off inside another object.
   */
  lemma LastDocumentReturned(documents: seq<Document>, noise: string, broken: Piece, n: nat)
    requires documents != [] && forall k :: 0 <= k < |documents| ==> GoodDocument(documents[k])
    requires Noise(noise) && IsObject(broken) && n < |PieceText(broken)|
    ensures var text := DocumentsText(documents) + noise + PieceText(broken)[..n];
            Extract(text, Scan(START, text, 0).last) == PieceText(documents[|documents| - 1].content)
  {
    var tail := PieceText(broken)[..n];
    TailChangesNothing(documents, noise, broken, n);
    var before, final := documents[..|documents| - 1], documents[|documents| - 1];
    DocumentFound(START, final, 0);
    var head, body := DocumentsText(before) + final.noise, PieceText(final.content);
    assert DocumentsText(documents) + noise + tail == head + body + (noise + tail);
    ExtractMiddle(head, body, noise + tail);
  }

  lemma ExtractMiddle(head: string, body: string, tail: string)
    requires |body| >= 2
    ensures Extract(head + body + tail, Some(Extent(|head|, |head| + |body| - 1))) == body
  {
    assert (head + body + tail)[|head|..|head| + |body|] == body;
  }

  lemma TailChangesNothing(documents: seq<Document>, noise: string, broken: Piece, n: nat)
    requires forall k :: 0 <= k < |documents| ==> GoodDocument(documents[k])
    requires Noise(noise) && IsObject(broken) && n < |PieceText(broken)|
    ensures Scan(START, DocumentsText(documents) + noise + PieceText(broken)[..n], 0).last == LastExtent(documents)
  {
    var complete, tail := DocumentsText(documents), PieceText(broken)[..n];
    DocumentsFound(documents);
    var s := Scan(START, complete, 0);
    ScanAppend(START, complete + noise, tail, 0);
    ScanAppend(START, complete, noise, 0);
    NoiseIgnored(s, noise, |complete|);
    BeginningNotFound(s, broken, n, |complete + noise|);
  }

  /** Without any complete object the text is returned as it is. */
  lemma NothingFound(noise: string, broken: Piece, n: nat)
    requires Noise(noise) && IsObject(broken) && n < |PieceText(broken)|
    ensures var text := noise + PieceText(broken)[..n];
            Extract(text, Scan(START, text, 0).last) == text
  {
    TailChangesNothing([], noise, broken, n);
    assert DocumentsText([]) + noise == noise;
  }

  // ---------------------------------------------------------------- JSON (RFC 8259, sections 2 to 7)

  datatype Value =
    | Literal(text: string)                  // null, true, false or a number
    | String(items: seq<StringItem>)
    | Array(start: string, elements: seq<Element>)
    | Object(start: string, members: seq<Member>)

  /** An element with the white space and the comma around it. */
  datatype Element = Element(value: Value, after: string)

  datatype Member = Member(key: seq<StringItem>, colon: string, value: Value, after: string)

  /** What white space, separators, literals and numbers are made of. */
  predicate Wellformed(value: Value) {
    match value
    case Literal(text) => Braceless(text)
    case String(items) => GoodItems(items)
    case Array(start, elements) =>
      Braceless(start) && forall k :: 0 <= k < |elements| ==> Wellformed(elements[k].value) && Braceless(elements[k].after)
    case Object(start, members) =>
      && Braceless(start)
      && forall k :: 0 <= k < |members| ==>
           && GoodItems(members[k].key) && Braceless(members[k].colon)
           && Wellformed(members[k].value) && Braceless(members[k].after)
  }

  predicate GoodItems(items: seq<StringItem>) { forall i :: 0 <= i < |items| ==> GoodItem(items[i]) }

  function StringText(items: seq<StringItem>): string { "\"" + (ItemsText(items) + "\"") }

  function ValueText(value: Value): string {
    match value
    case Literal(text) => text
    case String(items) => StringText(items)
    case Array(start, elements) => "[" + start + ElementsText(elements) + "]"
    case Object(start, members) => "{" + (start + MembersText(members) + "}")
  }

  function ElementsText(elements: seq<Element>): string {
    if elements == [] then "" else ValueText(elements[0].value) + elements[0].after + ElementsText(elements[1..])
  }

  function MembersText(members: seq<Member>): string {
    if members == [] then ""
    else StringText(members[0].key) + members[0].colon + ValueText(members[0].value) + members[0].after
         + MembersText(members[1..])
  }

  /** The same text in the scanner's terms. */
  function PiecesOf(value: Value): seq<Piece> {
    match value
    case Literal(text) => [Other(text)]
    case String(items) => [Quoted(items)]
    case Array(start, elements) => [Other("[" + start)] + ElementPieces(elements) + [Other("]")]
    case Object(start, members) => [Group([Other(start)] + MemberPieces(members))]
  }

  function ElementPieces(elements: seq<Element>): seq<Piece> {
    if elements == [] then []
    else PiecesOf(elements[0].value) + [Other(elements[0].after)] + ElementPieces(elements[1..])
  }

  function MemberPieces(members: seq<Member>): seq<Piece> {
    if members == [] then []
    else
      [Quoted(members[0].key), Other(members[0].colon)] + PiecesOf(members[0].value) + [Other(members[0].after)]
      + MemberPieces(members[1..])
  }

  predicate AllGood(pieces: seq<Piece>) { forall k :: 0 <= k < |pieces| ==> Good(pieces[k]) }

  lemma {:induction false} PiecesAppend(a: seq<Piece>, b: seq<Piece>)
    ensures PiecesText(a + b) == PiecesText(a) + PiecesText(b)
    decreases a
  {
    if a == [] {
      assert a + b == b;
    } else {
      assert (a + b)[0] == a[0] && (a + b)[1..] == a[1..] + b;
      PiecesAppend(a[1..], b);
    }
  }

  lemma OnePiece(piece: Piece)
    ensures PiecesText([piece]) == PieceText(piece)
  {
    assert [piece][1..] == [] && PieceText(piece) + "" == PieceText(piece);
  }

  lemma {:induction false} SameText(value: Value)
    requires Wellformed(value)
    ensures PiecesText(PiecesOf(value)) == ValueText(value) && AllGood(PiecesOf(value))
    decreases value, 0
  {
    match value
    case Literal(text) => OnePiece(Other(text));
    case String(items) => OnePiece(Quoted(items));
    case Array(start, elements) =>
      SameElements(elements);
      var first, inside, last := [Other("[" + start)], ElementPieces(elements), [Other("]")];
      PiecesAppend(first + inside, last);
      PiecesAppend(first, inside);
      OnePiece(first[0]);
      OnePiece(last[0]);
    case Object(start, members) =>
      SameMembers(members);
      PiecesAppend([Other(start)], MemberPieces(members));
      OnePiece(Other(start));
      OnePiece(PiecesOf(value)[0]);
  }

  lemma {:induction false} SameElements(elements: seq<Element>)
    requires forall k :: 0 <= k < |elements| ==> Wellformed(elements[k].value) && Braceless(elements[k].after)
    ensures PiecesText(ElementPieces(elements)) == ElementsText(elements) && AllGood(ElementPieces(elements))
    decreases elements, 1
  {
    if elements != [] {
      var value, after, rest := PiecesOf(elements[0].value), Other(elements[0].after), ElementPieces(elements[1..]);
      SameText(elements[0].value);
      SameElements(elements[1..]);
      PiecesAppend(value + [after], rest);
      PiecesAppend(value, [after]);
      OnePiece(after);
    }
  }

  lemma {:induction false} SameMembers(members: seq<Member>)
    requires forall k :: 0 <= k < |members| ==>
               && GoodItems(members[k].key) && Braceless(members[k].colon)
               && Wellformed(members[k].value) && Braceless(members[k].after)
    ensures PiecesText(MemberPieces(members)) == MembersText(members) && AllGood(MemberPieces(members))
    decreases members, 1
  {
    if members != [] {
      var m := members[0];
      var key, value, after, rest := [Quoted(m.key), Other(m.colon)], PiecesOf(m.value), Other(m.after), MemberPieces(members[1..]);
      SameText(m.value);
      SameMembers(members[1..]);
      PiecesAppend(key + value + [after], rest);
      PiecesAppend(key + value, [after]);
      PiecesAppend(key, value);
      PiecesAppend([Quoted(m.key)], [Other(m.colon)]);
      assert key == [Quoted(m.key)] + [Other(m.colon)];
      OnePiece(Quoted(m.key));
      OnePiece(Other(m.colon));
      OnePiece(after);
    }
  }

  predicate IsJsonObject(value: Value) { value.Object? && Wellformed(value) }

  /** Every JSON object is an object to the scanner. */
  lemma ObjectsAreObjects(value: Value) returns (piece: Piece)
    requires IsJsonObject(value)
    ensures IsObject(piece) && PieceText(piece) == ValueText(value)
  {
    SameText(value);
    piece := PiecesOf(value)[0];
    OnePiece(piece);
  }

  datatype JsonDocument = JsonDocument(noise: string, value: Value)

  function JsonText(documents: seq<JsonDocument>): string {
    if documents == [] then ""
    else
      var last := documents[|documents| - 1];
      JsonText(documents[..|documents| - 1]) + (last.noise + ValueText(last.value))
  }

  lemma {:induction false} AsDocuments(documents: seq<JsonDocument>) returns (scanned: seq<Document>)
    requires forall k :: 0 <= k < |documents| ==> Noise(documents[k].noise) && IsJsonObject(documents[k].value)
    ensures |scanned| == |documents| && DocumentsText(scanned) == JsonText(documents)
    ensures forall k :: 0 <= k < |scanned| ==> GoodDocument(scanned[k])
    ensures documents != [] ==>
              PieceText(scanned[|scanned| - 1].content) == ValueText(documents[|documents| - 1].value)
  {
    scanned := [];
    if documents != [] {
      var last := documents[|documents| - 1];
      var before := AsDocuments(documents[..|documents| - 1]);
      var piece := ObjectsAreObjects(last.value);
      scanned := before + [Document(last.noise, piece)];
      assert scanned[..|before|] == before;
    }
  }

  /** The main result, for JSON: the last complete object comes back, also from output that broke off. */
  lemma LastJsonObjectReturned(documents: seq<JsonDocument>, noise: string, broken: Value, n: nat)
    requires documents != []
    requires forall k :: 0 <= k < |documents| ==> Noise(documents[k].noise) && IsJsonObject(documents[k].value)
    requires Noise(noise) && IsJsonObject(broken) && n < |ValueText(broken)|
    ensures var text := JsonText(documents) + noise + ValueText(broken)[..n];
            Extract(text, Scan(START, text, 0).last) == ValueText(documents[|documents| - 1].value)
  {
    var scanned := AsDocuments(documents);
    var piece := ObjectsAreObjects(broken);
    LastDocumentReturned(scanned, noise, piece, n);
  }
}

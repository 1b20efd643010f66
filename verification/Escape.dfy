/** Escaping text for a keepsake page, and the page itself
    (crates/mutte-client/src/personal.rs). */
module Escape {
  import opened Common

  /** One replacement pass: every `c` becomes `r`. */
  function Replace(s: string, c: char, r: string): string {
    if s == [] then [] else (if s[0] == c then r else [s[0]]) + Replace(s[1..], c, r)
  }

  /** The five passes, in the program's order: each function is its pass and all later ones. */
  function FromApostrophe(s: string): string { Replace(s, '\'', "&#39;") }

  function FromQuote(s: string): string { FromApostrophe(Replace(s, '"', "&quot;")) }

  function FromGreater(s: string): string { FromQuote(Replace(s, '>', "&gt;")) }

  function FromLess(s: string): string { FromGreater(Replace(s, '<', "&lt;")) }

  function EscapeHtml(s: string): string { FromLess(Replace(s, '&', "&amp;")) }

  function Entity(c: char): string {
    match c
    case '&' => "&amp;"
    case '<' => "&lt;"
    case '>' => "&gt;"
    case '"' => "&quot;"
    case '\'' => "&#39;"
    case _ => [c]
  }

  function EachEntity(s: string): string {
    if s == [] then [] else Entity(s[0]) + EachEntity(s[1..])
  }

  lemma {:induction false} ReplaceConcat(a: string, b: string, c: char, r: string)
    ensures Replace(a + b, c, r) == Replace(a, c, r) + Replace(b, c, r)
  {
    if a == [] {
      assert a + b == b;
    } else {
      ReplaceConcat(a[1..], b, c, r);
      assert (a + b)[1..] == a[1..] + b && (a + b)[0] == a[0];
      ConcatAssociates(if a[0] == c then r else [a[0]], Replace(a[1..], c, r), Replace(b, c, r));
    }
  }

  lemma {:induction false} ReplaceAbsent(s: string, c: char, r: string)
    requires c !in s
    ensures Replace(s, c, r) == s
  {
    if s != [] { ReplaceAbsent(s[1..], c, r); }
  }

  lemma ReplaceOne(d: char, c: char, r: string)
    ensures Replace([d], c, r) == if d == c then r else [d]
  {
    assert [d][1..] == [];
    assert Replace([], c, r) == [];
  }

  lemma EscapeConcat(a: string, b: string)
    ensures EscapeHtml(a + b) == EscapeHtml(a) + EscapeHtml(b)
  {
    var a1, b1 := Replace(a, '&', "&amp;"), Replace(b, '&', "&amp;");
    var a2, b2 := Replace(a1, '<', "&lt;"), Replace(b1, '<', "&lt;");
    var a3, b3 := Replace(a2, '>', "&gt;"), Replace(b2, '>', "&gt;");
    var a4, b4 := Replace(a3, '"', "&quot;"), Replace(b3, '"', "&quot;");
    ReplaceConcat(a, b, '&', "&amp;");
    ReplaceConcat(a1, b1, '<', "&lt;");
    ReplaceConcat(a2, b2, '>', "&gt;");
    ReplaceConcat(a3, b3, '"', "&quot;");
    ReplaceConcat(a4, b4, '\'', "&#39;");
  }

  predicate IsDelimiter(c: char) { c == '<' || c == '>' || c == '"' || c == '\'' }

  ghost predicate Harmless(s: string) {
    forall c :: c in s ==> !IsDelimiter(c)
  }

  /** The passes after the first leave text without delimiters alone, entities included. */
  lemma LaterPassesSkip(s: string)
    requires Harmless(s)
    ensures FromLess(s) == FromGreater(s) == FromQuote(s) == FromApostrophe(s) == s
  {
    ReplaceAbsent(s, '<', "&lt;");
    ReplaceAbsent(s, '>', "&gt;");
    ReplaceAbsent(s, '"', "&quot;");
    ReplaceAbsent(s, '\'', "&#39;");
  }

  lemma EntityIsHarmless(d: char)
    ensures Harmless(Entity(d))
  {
  }

  /** One character is replaced by its own pass and never touched again. */
  lemma EscapeOne(d: char)
    ensures EscapeHtml([d]) == Entity(d)
  {
    EntityIsHarmless(d);
    LaterPassesSkip(Entity(d));
    ReplaceOne(d, '&', "&amp;");
    ReplaceOne(d, '<', "&lt;");
    ReplaceOne(d, '>', "&gt;");
    ReplaceOne(d, '"', "&quot;");
    ReplaceOne(d, '\'', "&#39;");
  }

  /** Five passes over the whole text are one substitution per character. */
  lemma {:induction false} EscapeIsPerCharacter(s: string)
    ensures EscapeHtml(s) == EachEntity(s)
  {
    if s != [] {
      EscapeIsPerCharacter(s[1..]);
      EscapeConcat([s[0]], s[1..]);
      EscapeOne(s[0]);
      assert s == [s[0]] + s[1..];
    }
  }

  lemma {:induction false} EntitiesAreHarmless(s: string)
    ensures Harmless(EachEntity(s))
  {
    if s != [] {
      EntitiesAreHarmless(s[1..]);
      EntityIsHarmless(s[0]);
    }
  }

  /** No raw delimiter survives. */
  lemma EscapedIsHarmless(s: string)
    ensures Harmless(EscapeHtml(s))
  {
    EscapeIsPerCharacter(s);
    EntitiesAreHarmless(s);
  }

  // ---------------------------------------------------------------- reading back

  /** A reader of character references (section 13.1.4 of the WHATWG HTML Standard), as far as
      the program writes them; any other text stands for itself. */
  function Decode(s: string): string {
    if s == [] then []
    else if "&amp;" <= s then ['&'] + Decode(s[5..])
    else if "&lt;" <= s then ['<'] + Decode(s[4..])
    else if "&gt;" <= s then ['>'] + Decode(s[4..])
    else if "&quot;" <= s then ['"'] + Decode(s[6..])
    else if "&#39;" <= s then ['\''] + Decode(s[5..])
    else [s[0]] + Decode(s[1..])
  }

  lemma DecodeFirst(d: char, rest: string)
    ensures Decode(Entity(d) + rest) == [d] + Decode(rest)
  {
    var s := Entity(d) + rest;
    assert s[|Entity(d)|..] == rest;
    if d == '&' {
      assert "&amp;" <= s;
    } else if d == '<' {
      assert s[1] == 'l' && "&lt;" <= s;
    } else if d == '>' {
      assert s[1] == 'g' && "&gt;" <= s;
    } else if d == '"' {
      assert s[1] == 'q' && "&quot;" <= s;
    } else if d == '\'' {
      assert s[1] == '#' && "&#39;" <= s;
    } else {
      assert s[0] == d;
    }
  }

  lemma {:induction false} DecodeEntities(s: string)
    ensures Decode(EachEntity(s)) == s
  {
    if s != [] {
      DecodeEntities(s[1..]);
      DecodeFirst(s[0], EachEntity(s[1..]));
    }
  }

  /** Reading inverts escaping; so different texts never look alike. */
  lemma DecodeInvertsEscape(s: string)
    ensures Decode(EscapeHtml(s)) == s
  {
    EscapeIsPerCharacter(s);
    DecodeEntities(s);
  }

  // ---------------------------------------------------------------- the page

  /** A formatted time: digits, dashes, a colon, spaces and the zone. */
  type Stamp = s: string | forall c :: c in s ==> !IsDelimiter(c) witness ""

  datatype Item = Item(author: string, text: string, stamp: Stamp, filename: Option<string>, jpeg: Option<string>)

  datatype Keepsake = Keepsake(title: string, introduction: string, items: seq<Item>)

  /** The fixed text of a page. */
  datatype Template = Template(
    head: string, style: string, introduction: string, openingEnd: string,
    figure: string, photo: string, photoEnd: string, quote: string, caption: string,
    dot: string, fileNote: string, figureEnd: string, end: string)

  function Photo(t: Template, jpeg: Option<string>): string {
    match jpeg
    case Some(image) => t.photo + EscapeHtml(image) + t.photoEnd
    case None => ""
  }

  function FileNote(t: Template, filename: Option<string>): string {
    match filename
    case Some(name) => t.dot + EscapeHtml(name) + t.fileNote
    case None => ""
  }

  function Caption(t: Template, i: Item): string {
    EscapeHtml(i.author) + t.dot + i.stamp + FileNote(t, i.filename)
  }

  function Figure(t: Template, i: Item): string {
    t.figure + Photo(t, i.jpeg) + t.quote + EscapeHtml(i.text) + t.caption + Caption(t, i) + t.figureEnd
  }

  function Opening(t: Template, k: Keepsake): string {
    t.head + EscapeHtml(k.title) + t.style + EscapeHtml(k.title)
    + t.introduction + EscapeHtml(k.introduction) + t.openingEnd
  }

  function Figures(t: Template, items: seq<Item>): string {
    if items == [] then "" else Figures(t, items[..|items| - 1]) + Figure(t, items[|items| - 1])
  }

  function Page(t: Template, k: Keepsake): string {
    Opening(t, k) + Figures(t, k.items) + t.end
  }

  method Html(t: Template, k: Keepsake) returns (html: string)
    ensures html == Page(t, k)
  {
    html := Opening(t, k);
    for n := 0 to |k.items|
      invariant html == Opening(t, k) + Figures(t, k.items[..n])
    {
      assert k.items[..n + 1][..n] == k.items[..n];
      html := html + Figure(t, k.items[n]);
      ConcatAssociates(Opening(t, k), Figures(t, k.items[..n]), Figure(t, k.items[n]));
    }
    assert k.items[..|k.items|] == k.items;
    html := html + t.end;
  }

  lemma ConcatAssociates(a: string, b: string, c: string)
    ensures a + b + c == a + (b + c)
  {
  }

  // ---------------------------------------------------------------- everything is on the page

  ghost predicate At(page: string, i: nat, piece: string) {
    i + |piece| <= |page| && page[i..i + |piece|] == piece
  }

  /** The pieces stand on the page one after the other. */
  ghost predicate InOrder(page: string, pieces: seq<string>)
    decreases |pieces|
  {
    pieces != [] ==> exists i: nat :: At(page, i, pieces[0]) && InOrder(page[i + |pieces[0]|..], pieces[1..])
  }

  lemma StillAt(a: string, b: string, i: nat, piece: string)
    requires At(a, i, piece)
    ensures At(a + b, i, piece) && (a + b)[i + |piece|..] == a[i + |piece|..] + b
  {
  }

  lemma InOrderAfter(a: string, b: string, pieces: seq<string>)
    requires InOrder(b, pieces)
    ensures InOrder(a + b, pieces)
  {
    if pieces != [] {
      var i: nat :| At(b, i, pieces[0]) && InOrder(b[i + |pieces[0]|..], pieces[1..]);
      var n := |a| + i;
      assert (a + b)[n..n + |pieces[0]|] == b[i..i + |pieces[0]|];
      assert At(a + b, n, pieces[0]) && (a + b)[n + |pieces[0]|..] == b[i + |pieces[0]|..];
    }
  }

  lemma {:induction false} InOrderConcat(a: string, ps: seq<string>, b: string, qs: seq<string>)
    requires InOrder(a, ps) && InOrder(b, qs)
    ensures InOrder(a + b, ps + qs)
    decreases |ps|
  {
    if ps == [] {
      assert ps + qs == qs;
      InOrderAfter(a, b, qs);
    } else {
      var i: nat :| At(a, i, ps[0]) && InOrder(a[i + |ps[0]|..], ps[1..]);
      StillAt(a, b, i, ps[0]);
      InOrderConcat(a[i + |ps[0]|..], ps[1..], b, qs);
      assert (ps + qs)[0] == ps[0] && (ps + qs)[1..] == ps[1..] + qs;
    }
  }

  lemma ThenFixed(page: string, pieces: seq<string>, fixed: string)
    requires InOrder(page, pieces)
    ensures InOrder(page + fixed, pieces)
  {
    InOrderConcat(page, pieces, fixed, []);
    assert pieces + [] == pieces;
  }

  lemma ThenPiece(page: string, pieces: seq<string>, piece: string)
    requires InOrder(page, pieces)
    ensures InOrder(page + piece, pieces + [piece])
  {
    var one := [piece];
    assert At(piece, 0, one[0]);
    assert one[1..] == [] && InOrder(piece[|piece|..], one[1..]);
    InOrderConcat(page, pieces, piece, one);
  }

  /** What the user wrote and attached to one item, in the order in which it is shown. */
  function ItemPieces(i: Item): seq<string> {
    (if i.jpeg.Some? then [EscapeHtml(i.jpeg.value)] else [])
    + [EscapeHtml(i.text), EscapeHtml(i.author), i.stamp]
    + (if i.filename.Some? then [EscapeHtml(i.filename.value)] else [])
  }

  function AllPieces(items: seq<Item>): seq<string> {
    if items == [] then [] else AllPieces(items[..|items| - 1]) + ItemPieces(items[|items| - 1])
  }

  lemma PhotoShown(t: Template, jpeg: Option<string>)
    ensures InOrder(Photo(t, jpeg), if jpeg.Some? then [EscapeHtml(jpeg.value)] else [])
  {
    match jpeg {
      case Some(image) =>
        ThenPiece(t.photo, [], EscapeHtml(image));
        assert [] + [EscapeHtml(image)] == [EscapeHtml(image)];
        ThenFixed(t.photo + EscapeHtml(image), [EscapeHtml(image)], t.photoEnd);
      case None =>
    }
  }

  lemma NoteShown(t: Template, filename: Option<string>)
    ensures InOrder(FileNote(t, filename), if filename.Some? then [EscapeHtml(filename.value)] else [])
  {
    match filename {
      case Some(name) =>
        ThenPiece(t.dot, [], EscapeHtml(name));
        assert [] + [EscapeHtml(name)] == [EscapeHtml(name)];
        ThenFixed(t.dot + EscapeHtml(name), [EscapeHtml(name)], t.fileNote);
      case None =>
    }
  }

  lemma CaptionShown(t: Template, i: Item)
    ensures InOrder(Caption(t, i),
      [EscapeHtml(i.author), i.stamp] + if i.filename.Some? then [EscapeHtml(i.filename.value)] else [])
  {
    var author := EscapeHtml(i.author);
    ThenPiece("", [], author);
    assert "" + author == author && [] + [author] == [author];
    ThenFixed(author, [author], t.dot);
    ThenPiece(author + t.dot, [author], i.stamp);
    assert [author] + [i.stamp] == [author, i.stamp];
    NoteShown(t, i.filename);
    InOrderConcat(author + t.dot + i.stamp, [author, i.stamp], FileNote(t, i.filename),
                  if i.filename.Some? then [EscapeHtml(i.filename.value)] else []);
  }

  /** Photo and text. */
  lemma UpperHalfShown(t: Template, i: Item)
    ensures InOrder(t.figure + Photo(t, i.jpeg) + t.quote + EscapeHtml(i.text),
                    (if i.jpeg.Some? then [EscapeHtml(i.jpeg.value)] else []) + [EscapeHtml(i.text)])
  {
    var image: seq<string> := if i.jpeg.Some? then [EscapeHtml(i.jpeg.value)] else [];
    PhotoShown(t, i.jpeg);
    InOrderConcat(t.figure, [], Photo(t, i.jpeg), image);
    assert [] + image == image;
    ThenFixed(t.figure + Photo(t, i.jpeg), image, t.quote);
    ThenPiece(t.figure + Photo(t, i.jpeg) + t.quote, image, EscapeHtml(i.text));
  }

  lemma FigureShown(t: Template, i: Item)
    ensures InOrder(Figure(t, i), ItemPieces(i))
  {
    var image: seq<string> := if i.jpeg.Some? then [EscapeHtml(i.jpeg.value)] else [];
    var note: seq<string> := if i.filename.Some? then [EscapeHtml(i.filename.value)] else [];
    var text, author := EscapeHtml(i.text), EscapeHtml(i.author);
    UpperHalfShown(t, i);
    CaptionShown(t, i);
    FigureEnds(t.figure + Photo(t, i.jpeg) + t.quote + text, image + [text], t.caption, Caption(t, i),
               [author, i.stamp] + note, t.figureEnd);
    assert image + [text] + ([author, i.stamp] + note) == image + [text, author, i.stamp] + note;
  }

  lemma FigureEnds(upper: string, ps: seq<string>, middle: string, lower: string, qs: seq<string>, end: string)
    requires InOrder(upper, ps) && InOrder(lower, qs)
    ensures InOrder(upper + middle + lower + end, ps + qs)
  {
    ThenFixed(upper, ps, middle);
    InOrderConcat(upper + middle, ps, lower, qs);
    ThenFixed(upper + middle + lower, ps + qs, end);
  }

  lemma {:induction false} FiguresShown(t: Template, items: seq<Item>)
    ensures InOrder(Figures(t, items), AllPieces(items))
  {
    if items != [] {
      var n := |items| - 1;
      FiguresShown(t, items[..n]);
      FigureShown(t, items[n]);
      InOrderConcat(Figures(t, items[..n]), AllPieces(items[..n]), Figure(t, items[n]), ItemPieces(items[n]));
    }
  }

  /** The page shows the title, the introduction and then every item, in order: its photo, its
      text, who wrote it, when, and its file, each escaped. */
  lemma PageShowsEverything(t: Template, k: Keepsake)
    ensures InOrder(Page(t, k),
                    [EscapeHtml(k.title), EscapeHtml(k.title), EscapeHtml(k.introduction)] + AllPieces(k.items))
  {
    OpeningShown(t, k);
    FiguresShown(t, k.items);
    var first := [EscapeHtml(k.title), EscapeHtml(k.title), EscapeHtml(k.introduction)];
    InOrderConcat(Opening(t, k), first, Figures(t, k.items), AllPieces(k.items));
    ThenFixed(Opening(t, k) + Figures(t, k.items), first + AllPieces(k.items), t.end);
  }

  lemma ThenBoth(page: string, pieces: seq<string>, fixed: string, piece: string)
    requires InOrder(page, pieces)
    ensures InOrder(page + fixed + piece, pieces + [piece])
  {
    ThenFixed(page, pieces, fixed);
    ThenPiece(page + fixed, pieces, piece);
  }

  lemma OpeningShown(t: Template, k: Keepsake)
    ensures InOrder(Opening(t, k), [EscapeHtml(k.title), EscapeHtml(k.title), EscapeHtml(k.introduction)])
  {
    ThreeShown(t.head, EscapeHtml(k.title), t.style, EscapeHtml(k.title), t.introduction, EscapeHtml(k.introduction),
               t.openingEnd);
  }

  lemma ThreeShown(a: string, p: string, b: string, q: string, c: string, r: string, d: string)
    ensures InOrder(a + p + b + q + c + r + d, [p, q, r])
  {
    ThenPiece(a, [], p);
    assert [] + [p] == [p];
    ThenBoth(a + p, [p], b, q);
    assert [p] + [q] == [p, q];
    ThenBoth(a + p + b + q, [p, q], c, r);
    assert [p, q] + [r] == [p, q, r];
    ThenFixed(a + p + b + q + c + r, [p, q, r], d);
  }

  // ---------------------------------------------------------------- delimiters

  function Count(s: string, c: char): nat {
    if s == [] then 0 else (if s[0] == c then 1 else 0) + Count(s[1..], c)
  }

  lemma {:induction false} CountConcat(a: string, b: string, c: char)
    ensures Count(a + b, c) == Count(a, c) + Count(b, c)
  {
    if a == [] {
      assert a + b == b;
    } else {
      CountConcat(a[1..], b, c);
      assert (a + b)[1..] == a[1..] + b;
    }
  }

  lemma {:induction false} CountAbsent(s: string, c: char)
    requires c !in s
    ensures Count(s, c) == 0
  {
    if s != [] { CountAbsent(s[1..], c); }
  }

  lemma CountEscaped(s: string, c: char)
    requires IsDelimiter(c)
    ensures Count(EscapeHtml(s), c) == 0
  {
    EscapedIsHarmless(s);
    CountAbsent(EscapeHtml(s), c);
  }

  /** Seven pieces, three of them escaped user text or free of delimiters. */
  lemma CountSeven(a: string, b: string, c: string, d: string, e: string, f: string, g: string, x: char)
    ensures Count(a + b + c + d + e + f + g, x)
         == Count(a, x) + Count(b, x) + Count(c, x) + Count(d, x) + Count(e, x) + Count(f, x) + Count(g, x)
  {
    CountConcat(a, b, x);
    CountConcat(a + b, c, x);
    CountConcat(a + b + c, d, x);
    CountConcat(a + b + c + d, e, x);
    CountConcat(a + b + c + d + e, f, x);
    CountConcat(a + b + c + d + e + f, g, x);
  }

  /** A template whose captions carry no delimiter of their own. */
  ghost predicate PlainCaptions(t: Template) {
    Harmless(t.dot) && Harmless(t.fileNote)
  }

  lemma CaptionIsHarmless(t: Template, i: Item)
    requires PlainCaptions(t)
    ensures Harmless(Caption(t, i))
  {
    EscapedIsHarmless(i.author);
    match i.filename {
      case Some(name) => EscapedIsHarmless(name);
      case None =>
    }
  }

  function PhotoCount(items: seq<Item>): nat {
    if items == [] then 0
    else PhotoCount(items[..|items| - 1]) + if items[|items| - 1].jpeg.Some? then 1 else 0
  }

  function OpeningMarks(t: Template, x: char): nat {
    Count(t.head, x) + Count(t.style, x) + Count(t.introduction, x) + Count(t.openingEnd, x)
  }

  function FigureMarks(t: Template, x: char): nat {
    Count(t.figure, x) + Count(t.quote, x) + Count(t.caption, x) + Count(t.figureEnd, x)
  }

  function PhotoMarks(t: Template, x: char): nat {
    Count(t.photo, x) + Count(t.photoEnd, x)
  }

  lemma FigureCount(t: Template, i: Item, x: char)
    requires IsDelimiter(x) && PlainCaptions(t)
    ensures Count(Figure(t, i), x) == FigureMarks(t, x) + if i.jpeg.Some? then PhotoMarks(t, x) else 0
  {
    CountSeven(t.figure, Photo(t, i.jpeg), t.quote, EscapeHtml(i.text), t.caption, Caption(t, i), t.figureEnd, x);
    CountEscaped(i.text, x);
    CaptionIsHarmless(t, i);
    CountAbsent(Caption(t, i), x);
    match i.jpeg {
      case Some(image) =>
        CountConcat(t.photo + EscapeHtml(image), t.photoEnd, x);
        CountConcat(t.photo, EscapeHtml(image), x);
        CountEscaped(image, x);
      case None =>
    }
  }

  lemma LastFigureCount(t: Template, items: seq<Item>, x: char)
    requires items != [] && IsDelimiter(x) && PlainCaptions(t)
    ensures Count(Figures(t, items), x)
         == Count(Figures(t, items[..|items| - 1]), x) + FigureMarks(t, x)
            + if items[|items| - 1].jpeg.Some? then PhotoMarks(t, x) else 0
  {
    CountConcat(Figures(t, items[..|items| - 1]), Figure(t, items[|items| - 1]), x);
    FigureCount(t, items[|items| - 1], x);
  }

  function MarksOf(t: Template, items: seq<Item>, x: char): nat {
    if items == [] then 0
    else
      MarksOf(t, items[..|items| - 1], x) + FigureMarks(t, x)
      + if items[|items| - 1].jpeg.Some? then PhotoMarks(t, x) else 0
  }

  lemma {:induction false} FiguresCount(t: Template, items: seq<Item>, x: char)
    requires IsDelimiter(x) && PlainCaptions(t)
    ensures Count(Figures(t, items), x) == MarksOf(t, items, x)
  {
    if items != [] {
      FiguresCount(t, items[..|items| - 1], x);
      LastFigureCount(t, items, x);
    }
  }

  lemma {:induction false} MarksAddUp(t: Template, items: seq<Item>, x: char)
    ensures MarksOf(t, items, x) == |items| * FigureMarks(t, x) + PhotoCount(items) * PhotoMarks(t, x)
  {
    if items != [] {
      MarksAddUp(t, items[..|items| - 1], x);
      OneMore(|items| - 1, PhotoCount(items[..|items| - 1]), FigureMarks(t, x), PhotoMarks(t, x),
              items[|items| - 1].jpeg.Some?);
    }
  }

  lemma OneMore(n: nat, p: nat, f: nat, q: nat, photo: bool)
    ensures n * f + p * q + f + (if photo then q else 0) == (n + 1) * f + (p + if photo then 1 else 0) * q
  {
  }

  /** Nothing a user wrote opens a tag or ends an attribute: the delimiters of a page are those
      of its fixed text, counted by the items and the photos alone. */
  lemma PageMarks(t: Template, k: Keepsake, x: char)
    requires IsDelimiter(x) && PlainCaptions(t)
    ensures Count(Page(t, k), x)
         == OpeningMarks(t, x) + |k.items| * FigureMarks(t, x) + PhotoCount(k.items) * PhotoMarks(t, x) + Count(t.end, x)
  {
    CountConcat(Opening(t, k) + Figures(t, k.items), t.end, x);
    CountConcat(Opening(t, k), Figures(t, k.items), x);
    CountSeven(t.head, EscapeHtml(k.title), t.style, EscapeHtml(k.title),
               t.introduction, EscapeHtml(k.introduction), t.openingEnd, x);
    CountEscaped(k.title, x);
    CountEscaped(k.introduction, x);
    FiguresCount(t, k.items, x);
    MarksAddUp(t, k.items, x);
  }
}

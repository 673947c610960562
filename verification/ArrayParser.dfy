/** Reading SQL arrays in text form, one juncture at a time. */
module ArrayParser {
  import opened Encodings
  import opened Wrappers

  datatype Token = RowStart | RowEnd | NullValue | StringValue(value: seq<byte>)

  /** What the next step finds: a token and how much of the text it uses up, or an error. */
  datatype Step = Got(token: Token, used: nat) | Bad

  const OPEN: byte := 123
  const CLOSE: byte := 125
  const COMMA: byte := 44
  const SEMICOLON: byte := 59
  const SINGLE: byte := 39
  const DOUBLE: byte := 34
  const BACKSLASH: byte := 92
  const NULL: seq<byte> := [78, 85, 76, 76]

  function Plus(n: nat, r: Option<nat>): Option<nat> {
    if r.Some? then Some(n + r.value) else None
  }

  function Onto(s: seq<byte>, r: Option<seq<byte>>): Option<seq<byte>> {
    if r.Some? then Some(s + r.value) else None
  }

  /** How far a quoted string goes, from behind its opening quote to behind its closing one.  A quote is
    * doubled or escaped inside the string.  What follows a quote must be well-formed if the quotes are
    * double. */
  function QuotedLength(enc: Encoding, quote: byte, s: seq<byte>): (r: Option<nat>)
    ensures r.Some? ==> 1 <= r.value <= |s|
    decreases |s|
  {
    hide Width;
    if s == [] then None
    else
      var w := Width(enc, s);
      if w == 0 then None
      else if w > 1 || (s[0] != quote && s[0] != BACKSLASH) then Plus(w, QuotedLength(enc, quote, s[w..]))
      else if s[0] == quote then
        if |s| == 1 || (quote == SINGLE && s[1] != quote) then Some(1)
        else
          var w' := Width(enc, s[1..]);
          if w' == 0 then None
          else if w' == 1 && s[1] == quote then Plus(2, QuotedLength(enc, quote, s[2..]))
          else Some(1)
      else if |s| == 1 then None
      else
        var w' := Width(enc, s[1..]);
        if w' == 0 then None else Plus(1 + w', QuotedLength(enc, quote, s[1 + w'..]))
  }

  /** The contents of a quoted string, from what is between its opening quote and the end of its closing
    * one. */
  function Unquoted(enc: Encoding, quote: byte, s: seq<byte>): Option<seq<byte>>
    decreases |s|
  {
    if |s| <= 1 then Some([])
    else
      var w := Width(enc, s);
      if w == 0 then None
      else if w == 1 && (s[0] == quote || s[0] == BACKSLASH) then
        var w' := Width(enc, s[1..]);
        if w' == 0 then None else Onto(s[1..1 + w'], Unquoted(enc, quote, s[1 + w'..]))
      else Onto(s[..w], Unquoted(enc, quote, s[w..]))
  }

  predicate Stops(c: byte) {
    c == COMMA || c == SEMICOLON || c == CLOSE
  }

  /** How far a string without quotes goes: to the first separator or closing brace. */
  function WordLength(enc: Encoding, s: seq<byte>): (r: Option<nat>)
    ensures r.Some? ==> r.value <= |s|
    decreases |s|
  {
    if s == [] then Some(0)
    else
      var w := Width(enc, s);
      if w == 0 then None
      else if w == 1 && Stops(s[0]) then Some(0)
      else Plus(w, WordLength(enc, s[w..]))
  }

  /** A string without its backslashes, except those that are escaped. */
  function Stripped(enc: Encoding, s: seq<byte>, escaped: bool): Option<seq<byte>>
    decreases |s|
  {
    if s == [] then Some([])
    else
      var w := Width(enc, s);
      if w == 0 then None
      else if !escaped && w == 1 && s[0] == BACKSLASH then Stripped(enc, s[w..], true)
      else Onto(s[..w], Stripped(enc, s[w..], false))
  }

  /** A quoted string. */
  function QuotedToken(enc: Encoding, quote: byte, s: seq<byte>): (r: Step)
    requires s != []
    ensures r.Got? ==> 0 < r.used <= |s|
  {
    var n := QuotedLength(enc, quote, s[1..]);
    if n.None? then Bad
    else
      var value := Unquoted(enc, quote, s[1..1 + n.value]);
      if value.None? then Bad else Got(StringValue(value.value), 1 + n.value)
  }

  /** A string without quotes, or a null.  It is empty only if there is a separator. */
  function WordToken(enc: Encoding, s: seq<byte>): (r: Step)
    requires s != [] && (Width(enc, s) == 1 ==> s[0] != CLOSE)
    ensures r.Got? ==> r.used <= |s| && (r.used == 0 ==> Width(enc, s) == 1 && (s[0] == COMMA || s[0] == SEMICOLON))
  {
    var n := WordLength(enc, s);
    if n.None? then Bad
    else
      var value := Stripped(enc, s[..n.value], false);
      if value.None? then Bad
      else if value.value == NULL && Width(enc, s) == 1 then Got(NullValue, n.value)
      else Got(StringValue(value.value), n.value)
  }

  /** A token, up to its end. */
  function TokenAt(enc: Encoding, s: seq<byte>): (r: Step)
    requires s != []
    ensures r.Got? ==> r.used <= |s| && (r.used == 0 ==> Width(enc, s) == 1 && (s[0] == COMMA || s[0] == SEMICOLON))
  {
    var w := Width(enc, s);
    if w == 0 then Bad
    else if w > 1 then WordToken(enc, s)
    else if s[0] == 0 then Bad
    else if s[0] == OPEN then Got(RowStart, 1)
    else if s[0] == CLOSE then Got(RowEnd, 1)
    else if s[0] == SINGLE then QuotedToken(enc, SINGLE, s)
    else if s[0] == DOUBLE then QuotedToken(enc, DOUBLE, s)
    else WordToken(enc, s)
  }

  /** Goes past one separator. */
  function PastSeparator(enc: Encoding, s: seq<byte>): (r: Option<nat>)
    ensures r.Some? ==> r.value <= |s| && r.value <= 1
    ensures s != [] && Width(enc, s) == 1 && (s[0] == COMMA || s[0] == SEMICOLON) ==> r == Some(1)
  {
    if s == [] then Some(0)
    else if Width(enc, s) == 0 then None
    else if Width(enc, s) == 1 && (s[0] == COMMA || s[0] == SEMICOLON) then Some(1)
    else Some(0)
  }

  /** One step: a token, and a separator behind it.  It always gets further. */
  function NextToken(enc: Encoding, s: seq<byte>): (r: Step)
    requires s != []
    ensures r.Got? ==> 0 < r.used <= |s|
  {
    var t := TokenAt(enc, s);
    if t.Bad? then Bad
    else
      var more := PastSeparator(enc, s[t.used..]);
      if more.None? then Bad else Got(t.token, t.used + more.value)
  }

  /** All tokens, to the end of the text. */
  function AllTokens(enc: Encoding, s: seq<byte>): Option<seq<Token>>
    decreases |s|
  {
    if s == [] then Some([])
    else
      var t := NextToken(enc, s);
      if t.Bad? then None
      else
        var rest := AllTokens(enc, s[t.used..]);
        if rest.None? then None else Some([t.token] + rest.value)
  }

  // Arrays.

  datatype Style = Word | SingleQuoted | DoubleQuoted

  /** An array element: a null, a string written in some style, or an array. */
  datatype Tree = Null | Leaf(style: Style, text: seq<byte>) | Node(items: seq<Tree>)

  function QuoteOf(style: Style): byte {
    if style == SingleQuoted then SINGLE else DOUBLE
  }

  /** Text inside quotes: quotes are doubled, and backslashes escaped. */
  function Body(enc: Encoding, quote: byte, s: seq<byte>): seq<byte>
    decreases |s|
  {
    if s == [] || Width(enc, s) == 0 then []
    else
      var w := Width(enc, s);
      if w == 1 && (s[0] == quote || s[0] == BACKSLASH) then [s[0], s[0]] + Body(enc, quote, s[1..])
      else s[..w] + Body(enc, quote, s[w..])
  }

  /** No glyph is a separator or a closing brace. */
  ghost predicate PlainGlyphs(enc: Encoding, s: seq<byte>)
    decreases |s|
  {
    s == []
    || (var w := Width(enc, s);
        w > 0 && !(w == 1 && Stops(s[0])) && PlainGlyphs(enc, s[w..]))
  }

  /** What may be written without quotes. */
  ghost predicate PlainWord(enc: Encoding, s: seq<byte>) {
    && s != [] && s != NULL && PlainGlyphs(enc, s)
    && (Width(enc, s) == 1 ==> s[0] != 0 && s[0] != OPEN && s[0] != SINGLE && s[0] != DOUBLE)
  }

  ghost predicate Writable(enc: Encoding, t: Tree) {
    match t
    case Null => true
    case Leaf(style, text) => Valid(enc, text) && (style == Word ==> PlainWord(enc, text))
    case Node(items) => forall i :: 0 <= i < |items| ==> Writable(enc, items[i])
  }

  /** Text without quotes: its backslashes are doubled. */
  function Doubled(enc: Encoding, s: seq<byte>): seq<byte> {
    Body(enc, BACKSLASH, s)
  }

  /** An element in text form. */
  function Written(enc: Encoding, sep: byte, t: Tree): seq<byte> {
    match t
    case Null => NULL
    case Leaf(style, text) =>
      if style == Word then Doubled(enc, text)
      else [QuoteOf(style)] + Body(enc, QuoteOf(style), text) + [QuoteOf(style)]
    case Node(items) => [OPEN] + WrittenItems(enc, sep, items) + [CLOSE]
  }

  function WrittenItems(enc: Encoding, sep: byte, items: seq<Tree>): seq<byte> {
    if items == [] then []
    else Written(enc, sep, items[0]) + if |items| == 1 then [] else [sep] + WrittenItems(enc, sep, items[1..])
  }

  /** The tokens of an element, in order. */
  function Tokens(t: Tree): seq<Token> {
    match t
    case Null => [NullValue]
    case Leaf(_, text) => [StringValue(text)]
    case Node(items) => [RowStart] + TokensOf(items) + [RowEnd]
  }

  function TokensOf(items: seq<Tree>): seq<Token> {
    if items == [] then [] else Tokens(items[0]) + TokensOf(items[1..])
  }

  /** What may follow an element: nothing, a separator or a closing brace. */
  predicate Ends(rest: seq<byte>) {
    rest == [] || Stops(rest[0])
  }

  // Reading back what was written.

  lemma AsciiWidth(enc: Encoding, c: byte, rest: seq<byte>)
    requires c < 0x80
    ensures Width(enc, [c] + rest) == 1 && ([c] + rest)[0] == c && ([c] + rest)[1..] == rest
  {
  }

  /** A glyph of valid text is the same glyph in front of other text. */
  lemma GlyphFirst(enc: Encoding, text: seq<byte>, rest: seq<byte>)
    requires text != [] && Valid(enc, text)
    ensures var w := Width(enc, text); var g := text[..w];
            && 0 < w <= |text| && Valid(enc, text[w..])
            && g + rest != [] && Width(enc, g + rest) == w
            && (g + rest)[..w] == g && (g + rest)[w..] == rest && (g + rest)[0] == text[0]
  {
    ValidLocal(enc, text);
    OwnBytes(enc, text, text[..Width(enc, text)] + rest);
  }

  lemma EscapedLength(enc: Encoding, quote: byte, c: byte, rest: seq<byte>)
    requires (quote == SINGLE || quote == DOUBLE) && (c == quote || c == BACKSLASH)
    ensures QuotedLength(enc, quote, [c, c] + rest) == Plus(2, QuotedLength(enc, quote, rest))
    ensures rest != [] ==> Unquoted(enc, quote, [c, c] + rest) == Onto([c], Unquoted(enc, quote, rest))
  {
    var s := [c, c] + rest;
    AsciiWidth(enc, c, [c] + rest);
    AsciiWidth(enc, c, rest);
    assert s == [c] + ([c] + rest) && s[1..] == [c] + rest && s[2..] == rest;
    assert s[1..2] == [c];
    hide Width;
  }

  lemma PlainLength(enc: Encoding, quote: byte, text: seq<byte>, rest: seq<byte>)
    requires text != [] && Valid(enc, text) && !(Width(enc, text) == 1 && (text[0] == quote || text[0] == BACKSLASH))
    ensures var w := Width(enc, text);
            && QuotedLength(enc, quote, text[..w] + rest) == Plus(w, QuotedLength(enc, quote, rest))
            && (rest != [] ==> Unquoted(enc, quote, text[..w] + rest) == Onto(text[..w], Unquoted(enc, quote, rest)))
  {
    hide Width;
    GlyphFirst(enc, text, rest);
  }

  lemma ClosingLength(enc: Encoding, quote: byte, rest: seq<byte>)
    requires (quote == SINGLE || quote == DOUBLE) && Ends(rest)
    ensures QuotedLength(enc, quote, [quote] + rest) == Some(1) && Unquoted(enc, quote, [quote]) == Some([])
  {
    var s := [quote] + rest;
    AsciiWidth(enc, quote, rest);
    assert s[1..] == rest;
    hide Width;
    if rest != [] {
      assert s[1] == rest[0];
    }
  }

  lemma BodyIs(enc: Encoding, quote: byte, text: seq<byte>)
    ensures text == [] ==> Body(enc, quote, text) == []
    ensures text != [] && Width(enc, text) > 0 ==>
              var w := Width(enc, text);
              Body(enc, quote, text)
              == (if w == 1 && (text[0] == quote || text[0] == BACKSLASH) then [text[0], text[0]] else text[..w])
                 + Body(enc, quote, text[w..])
  {
    hide Width;
  }

  lemma PlusOnto(n: nat, k: nat, a: seq<byte>, b: seq<byte>)
    ensures Plus(n, Some(k)) == Some(n + k) && Onto(a, Some(b)) == Some(a + b)
  {
  }

  /** A quoted string is found to end where it does, and has the contents it was made from. */
  lemma {:induction false} QuotedBack(enc: Encoding, quote: byte, text: seq<byte>, rest: seq<byte>)
    requires (quote == SINGLE || quote == DOUBLE) && Valid(enc, text) && Ends(rest)
    ensures QuotedLength(enc, quote, Body(enc, quote, text) + ([quote] + rest)) == Some(|Body(enc, quote, text)| + 1)
    ensures Unquoted(enc, quote, Body(enc, quote, text) + [quote]) == Some(text)
    decreases |text|
  {
    hide *;
    var end := [quote] + rest;
    BodyIs(enc, quote, text);
    if text == [] {
      ClosingLength(enc, quote, rest);
      assert Body(enc, quote, text) + end == end && Body(enc, quote, text) + [quote] == [quote];
    } else {
      var w := Width(enc, text);
      GlyphFirst(enc, text, []);
      var body := Body(enc, quote, text[w..]);
      QuotedBack(enc, quote, text[w..], rest);
      if w == 1 && (text[0] == quote || text[0] == BACKSLASH) {
        EscapedLength(enc, quote, text[0], body + end);
        EscapedLength(enc, quote, text[0], body + [quote]);
        assert [text[0], text[0]] + body + end == [text[0], text[0]] + (body + end);
        assert [text[0], text[0]] + body + [quote] == [text[0], text[0]] + (body + [quote]);
        PlusOnto(2, |body| + 1, [text[0]], text[w..]);
        assert [text[0]] + text[w..] == text;
      } else {
        PlusOnto(w, |body| + 1, text[..w], text[w..]);
        PlainLength(enc, quote, text, body + end);
        PlainLength(enc, quote, text, body + [quote]);
        assert text[..w] + body + end == text[..w] + (body + end);
        assert text[..w] + body + [quote] == text[..w] + (body + [quote]);
        assert text[..w] + text[w..] == text;
      }
    }
  }

  lemma StopLength(enc: Encoding, rest: seq<byte>)
    requires Ends(rest)
    ensures WordLength(enc, rest) == Some(0)
  {
  }

  lemma StrippedNothing(enc: Encoding)
    ensures Stripped(enc, [], false) == Some([])
  {
  }

  /** Two backslashes count as any other characters, and stand for one. */
  lemma DoubledStep(enc: Encoding, rest: seq<byte>)
    ensures WordLength(enc, [BACKSLASH, BACKSLASH] + rest) == Plus(2, WordLength(enc, rest))
    ensures Stripped(enc, [BACKSLASH, BACKSLASH] + rest, false) == Onto([BACKSLASH], Stripped(enc, rest, false))
  {
    var s := [BACKSLASH, BACKSLASH] + rest;
    AsciiWidth(enc, BACKSLASH, [BACKSLASH] + rest);
    AsciiWidth(enc, BACKSLASH, rest);
    assert s == [BACKSLASH] + ([BACKSLASH] + rest);
    hide Width;
    assert s[1..] == [BACKSLASH] + rest && s[1..][1..] == rest && s[1..][..1] == [BACKSLASH];
  }

  lemma WordStep(enc: Encoding, text: seq<byte>, rest: seq<byte>)
    requires text != [] && Valid(enc, text) && !(Width(enc, text) == 1 && text[0] == BACKSLASH)
    ensures var w := Width(enc, text);
            && 0 < w <= |text| && Valid(enc, text[w..])
            && WordLength(enc, text[..w] + rest)
               == (if w == 1 && Stops(text[0]) then Some(0) else Plus(w, WordLength(enc, rest)))
            && Stripped(enc, text[..w] + rest, false) == Onto(text[..w], Stripped(enc, rest, false))
  {
    GlyphFirst(enc, text, rest);
    hide Width;
  }

  lemma PlainIs(enc: Encoding, text: seq<byte>)
    ensures text == [] ==> PlainGlyphs(enc, text)
    ensures text != [] && Width(enc, text) > 0 ==>
              var w := Width(enc, text);
              PlainGlyphs(enc, text) <==> !(w == 1 && Stops(text[0])) && PlainGlyphs(enc, text[w..])
  {
    hide Width;
  }

  /** A string without quotes ends at the next separator or closing brace, whatever is before that. */
  lemma {:induction false} WordEnds(enc: Encoding, text: seq<byte>, rest: seq<byte>)
    requires Valid(enc, text) && Ends(rest)
    ensures var r := WordLength(enc, Doubled(enc, text) + rest);
            r.Some? && r.value <= |Doubled(enc, text)| && (r.value == |Doubled(enc, text)| <==> PlainGlyphs(enc, text))
    decreases |text|
  {
    hide *;
    DoubledIs(enc, text);
    PlainIs(enc, text);
    if text == [] {
      StopLength(enc, rest);
      assert Doubled(enc, text) + rest == rest;
    } else {
      var w := Width(enc, text);
      GlyphFirst(enc, text, []);
      var more := Doubled(enc, text[w..]) + rest;
      WordEnds(enc, text[w..], rest);
      Characters();
      if w == 1 && text[0] == BACKSLASH {
        DoubledStep(enc, more);
        PlusTwice(2, WordLength(enc, more).value, None);
        assert Doubled(enc, text) + rest == [BACKSLASH, BACKSLASH] + more;
      } else {
        WordStep(enc, text, more);
        PlusTwice(w, WordLength(enc, more).value, None);
        assert Doubled(enc, text) + rest == text[..w] + more;
      }
    }
  }

  /** With its backslashes doubled, text without quotes is taken as it was. */
  lemma {:induction false} DoubledBack(enc: Encoding, text: seq<byte>)
    requires Valid(enc, text)
    ensures Stripped(enc, Doubled(enc, text), false) == Some(text)
    decreases |text|
  {
    hide *;
    DoubledIs(enc, text);
    if text == [] {
      StrippedNothing(enc);
    } else {
      var w := Width(enc, text);
      GlyphFirst(enc, text, []);
      DoubledBack(enc, text[w..]);
      PlusOnto(w, 0, text[..w], text[w..]);
      assert text[..w] + text[w..] == text;
      if w == 1 && text[0] == BACKSLASH {
        DoubledStep(enc, Doubled(enc, text[w..]));
        assert text[..w] == [BACKSLASH];
      } else {
        WordStep(enc, text, Doubled(enc, text[w..]));
      }
    }
  }

  lemma DoubledIs(enc: Encoding, text: seq<byte>)
    ensures text == [] ==> Doubled(enc, text) == []
    ensures text != [] && Width(enc, text) > 0 ==>
              var w := Width(enc, text);
              Doubled(enc, text)
              == (if w == 1 && text[0] == BACKSLASH then [BACKSLASH, BACKSLASH] else text[..w])
                 + Doubled(enc, text[w..])
  {
    hide Width, Body;
    BodyIs(enc, BACKSLASH, text);
  }

  /** Doubling backslashes does not change the first glyph. */
  lemma DoubledFirst(enc: Encoding, text: seq<byte>, rest: seq<byte>)
    requires text != [] && Valid(enc, text)
    ensures var s := Doubled(enc, text) + rest;
            && Doubled(enc, text) != [] && s != [] && Width(enc, s) == Width(enc, text) > 0 && s[0] == text[0]
  {
    hide *;
    DoubledIs(enc, text);
    var w := Width(enc, text);
    GlyphFirst(enc, text, Doubled(enc, text[w..]) + rest);
    Characters();
    if w == 1 && text[0] == BACKSLASH {
      AsciiWidth(enc, BACKSLASH, [BACKSLASH] + Doubled(enc, text[w..]) + rest);
      assert Doubled(enc, text) + rest == [BACKSLASH] + ([BACKSLASH] + Doubled(enc, text[w..]) + rest);
    } else {
      assert Doubled(enc, text) + rest == text[..w] + (Doubled(enc, text[w..]) + rest);
    }
  }

  lemma NullPlain(enc: Encoding)
    ensures Valid(enc, NULL) && PlainGlyphs(enc, NULL)
  {
    assert NULL[1..] == [85, 76, 76] && [85, 76, 76][1..] == [76, 76] && [76, 76][1..] == [76] && [76][1..] == [];
  }

  lemma NullDoubled(enc: Encoding)
    ensures Doubled(enc, NULL) == NULL && Width(enc, NULL) == 1
  {
    assert NULL[1..] == [85, 76, 76] && [85, 76, 76][1..] == [76, 76] && [76, 76][1..] == [76] && [76][1..] == [];
    assert NULL[..1] == [78] && [85, 76, 76][..1] == [85] && [76, 76][..1] == [76] && [76][..1] == [76];
    assert Body(enc, BACKSLASH, [76]) == [76] + [];
    assert Body(enc, BACKSLASH, [76, 76]) == [76] + [76];
    assert Body(enc, BACKSLASH, [85, 76, 76]) == [85] + [76, 76];
  }

  /** The token of an element that is no array, whatever may follow it. */
  lemma TokenBack(enc: Encoding, sep: byte, t: Tree, rest: seq<byte>)
    requires !t.Node? && Writable(enc, t) && Ends(rest)
    ensures Written(enc, sep, t) != []
    ensures TokenAt(enc, Written(enc, sep, t) + rest) == Got(Tokens(t)[0], |Written(enc, sep, t)|)
  {
    hide *;
    if t.Leaf? && t.style != Word {
      QuotedIs(enc, sep, t);
      QuotedTokenBack(enc, QuoteOf(t.style), t.text, rest);
    } else {
      var text := if t.Null? then NULL else t.text;
      WordIs(enc, sep, t);
      WordTokenBack(enc, text, rest);
    }
  }

  lemma QuotedIs(enc: Encoding, sep: byte, t: Tree)
    requires t.Leaf? && t.style != Word
    ensures Written(enc, sep, t) == [QuoteOf(t.style)] + Body(enc, QuoteOf(t.style), t.text) + [QuoteOf(t.style)]
    ensures Tokens(t) == [StringValue(t.text)] && (QuoteOf(t.style) == SINGLE || QuoteOf(t.style) == DOUBLE)
    ensures Writable(enc, t) ==> Valid(enc, t.text)
  {
  }

  lemma WordIs(enc: Encoding, sep: byte, t: Tree)
    requires t.Null? || (t.Leaf? && t.style == Word && Writable(enc, t))
    ensures var text := if t.Null? then NULL else t.text;
            && Written(enc, sep, t) == Doubled(enc, text) != []
            && Tokens(t) == [if text == NULL then NullValue else StringValue(text)]
            && text != [] && Valid(enc, text) && PlainGlyphs(enc, text)
            && (Width(enc, text) == 1 ==> text[0] != 0 && text[0] != OPEN && text[0] != SINGLE && text[0] != DOUBLE)
  {
    hide Width, Doubled;
    NullPlain(enc);
    NullDoubled(enc);
    DoubledFirst(enc, if t.Null? then NULL else t.text, []);
  }

  lemma QuotedTokenBack(enc: Encoding, quote: byte, text: seq<byte>, rest: seq<byte>)
    requires (quote == SINGLE || quote == DOUBLE) && Valid(enc, text) && Ends(rest)
    ensures var written := [quote] + Body(enc, quote, text) + [quote];
            TokenAt(enc, written + rest) == Got(StringValue(text), |written|)
  {
    hide Ends, QuotedLength, Unquoted, Body, Width;
    var body := Body(enc, quote, text);
    var s := [quote] + body + [quote] + rest;
    QuotedBack(enc, quote, text, rest);
    AsciiWidth(enc, quote, body + ([quote] + rest));
    Enclosed(quote, body, rest);
  }

  lemma Enclosed(quote: byte, body: seq<byte>, rest: seq<byte>)
    ensures var s := [quote] + body + [quote] + rest;
            s == [quote] + (body + ([quote] + rest)) && s[1..1 + (|body| + 1)] == body + [quote]
  {
    var inside := body + [quote];
    assert [quote] + body + [quote] + rest == [quote] + inside + rest;
    assert ([quote] + inside + rest)[1..1 + |inside|] == inside;
  }

  /** Only a string that reads NULL is a null. */
  lemma WordTokenBack(enc: Encoding, text: seq<byte>, rest: seq<byte>)
    requires Valid(enc, text) && PlainGlyphs(enc, text) && text != [] && Ends(rest)
    requires Width(enc, text) == 1 ==> text[0] != 0 && text[0] != OPEN && text[0] != SINGLE && text[0] != DOUBLE
    ensures Doubled(enc, text) + rest != []
    ensures TokenAt(enc, Doubled(enc, text) + rest)
            == Got(if text == NULL then NullValue else StringValue(text), |Doubled(enc, text)|)
  {
    hide WordLength, Stripped, Width, Ends, Doubled;
    WordEnds(enc, text, rest);
    DoubledBack(enc, text);
    DoubledFirst(enc, text, rest);
    NullDoubled(enc);
    PlainIs(enc, text);
    assert (Doubled(enc, text) + rest)[..|Doubled(enc, text)|] == Doubled(enc, text);
  }

  /** How many glyphs are backslashes, before anything malformed. */
  function Backslashes(enc: Encoding, s: seq<byte>): nat
    decreases |s|
  {
    if s == [] || Width(enc, s) == 0 then 0
    else (if Width(enc, s) == 1 && s[0] == BACKSLASH then 1 else 0) + Backslashes(enc, s[Width(enc, s)..])
  }

  /** The contents of a quoted string are shorter than the string: by half the number of backslashes at
    * least. */
  lemma {:induction false} ContentsShort(enc: Encoding, quote: byte, s: seq<byte>)
    ensures Unquoted(enc, quote, s).Some? ==> 2 * |Unquoted(enc, quote, s).value| + Backslashes(enc, s) <= 2 * |s|
    decreases |s|
  {
    hide *;
    BackslashBound(enc, s);
    ContentsStep(enc, quote, s);
    if |s| > 1 && Width(enc, s) > 0 {
      var w := Width(enc, s);
      if w == 1 && (s[0] == quote || s[0] == BACKSLASH) {
        var w' := Width(enc, s[1..]);
        if w' > 0 {
          ContentsShort(enc, quote, s[1 + w'..]);
        }
      } else {
        ContentsShort(enc, quote, s[w..]);
      }
    }
  }

  /** How the contents and the backslashes go on behind the first glyph. */
  lemma ContentsStep(enc: Encoding, quote: byte, s: seq<byte>)
    ensures |s| <= 1 ==> Unquoted(enc, quote, s) == Some([])
    ensures |s| > 1 && Width(enc, s) == 0 ==> Unquoted(enc, quote, s) == None
    ensures |s| > 1 && Width(enc, s) > 0 ==>
              var w := Width(enc, s);
              if w == 1 && (s[0] == quote || s[0] == BACKSLASH) then
                var w' := Width(enc, s[1..]);
                var rest := s[1 + w'..];
                && (w' == 0 ==> Unquoted(enc, quote, s) == None)
                && (w' > 0 && Unquoted(enc, quote, s).Some? ==>
                      && Unquoted(enc, quote, rest).Some?
                      && |Unquoted(enc, quote, s).value| == w' + |Unquoted(enc, quote, rest).value|
                      && Backslashes(enc, s) <= 2 + Backslashes(enc, rest))
              else
                Unquoted(enc, quote, s).Some? ==>
                  && Unquoted(enc, quote, s[w..]).Some?
                  && |Unquoted(enc, quote, s).value| == w + |Unquoted(enc, quote, s[w..]).value|
                  && Backslashes(enc, s) == Backslashes(enc, s[w..])
  {
    hide Width;
    if |s| > 1 && Width(enc, s) == 1 {
      var w' := Width(enc, s[1..]);
      assert s[1..][w'..] == s[1 + w'..];
    }
  }

  lemma {:induction false} BackslashBound(enc: Encoding, s: seq<byte>)
    ensures Backslashes(enc, s) <= |s|
    decreases |s|
  {
    hide Width;
    if s != [] && Width(enc, s) > 0 {
      BackslashBound(enc, s[Width(enc, s)..]);
    }
  }

  lemma {:induction false} DoubledLength(enc: Encoding, text: seq<byte>)
    requires Valid(enc, text)
    ensures 2 * |Doubled(enc, text)| == 2 * |text| + Backslashes(enc, Doubled(enc, text))
    decreases |text|
  {
    hide *;
    DoubledIs(enc, text);
    BackslashesAre(enc, []);
    if text != [] {
      var w := Width(enc, text);
      var more := Doubled(enc, text[w..]);
      GlyphFirst(enc, text, more);
      DoubledLength(enc, text[w..]);
      Characters();
      BackslashesAre(enc, text[..w] + more);
      if w == 1 && text[0] == BACKSLASH {
        var s := [BACKSLASH] + more;
        AsciiWidth(enc, BACKSLASH, s);
        AsciiWidth(enc, BACKSLASH, more);
        BackslashesAre(enc, [BACKSLASH] + s);
        BackslashesAre(enc, s);
        assert Doubled(enc, text) == [BACKSLASH] + s;
      }
    }
  }

  lemma BackslashesAre(enc: Encoding, s: seq<byte>)
    ensures s == [] ==> Backslashes(enc, s) == 0
    ensures s != [] && Width(enc, s) > 0 ==>
              Backslashes(enc, s)
              == (if Width(enc, s) == 1 && s[0] == BACKSLASH then 1 else 0) + Backslashes(enc, s[Width(enc, s)..])
  {
    hide Width;
  }

  /** Text that begins with a quote is not taken as it is. */
  lemma QuoteNotTaken(enc: Encoding, text: seq<byte>, rest: seq<byte>, quote: byte)
    requires Valid(enc, text) && text != [] && text[0] == quote && (quote == SINGLE || quote == DOUBLE)
    ensures Doubled(enc, text) + rest != []
    ensures TokenAt(enc, Doubled(enc, text) + rest) != Got(StringValue(text), |Doubled(enc, text)|)
  {
    hide *;
    var d := Doubled(enc, text);
    var s := d + rest;
    Characters();
    DoubledFirst(enc, text, rest);
    DoubledFirst(enc, text, []);
    AsciiWidth(enc, quote, s[1..]);
    assert [quote] + s[1..] == s && d + [] == d;
    AsciiWidth(enc, quote, d[1..]);
    assert [quote] + d[1..] == d;
    QuotedAt(enc, quote, s);
    DoubledLength(enc, text);
    BackslashesAre(enc, d);
    assert s[1..|d|] == d[1..];
    ContentsShort(enc, quote, d[1..]);
  }

  lemma QuotedAt(enc: Encoding, quote: byte, s: seq<byte>)
    requires s != [] && s[0] == quote && Width(enc, s) == 1 && (quote == SINGLE || quote == DOUBLE)
    ensures var t := TokenAt(enc, s);
            t.Got? ==> t.used > 0 && t.token.StringValue? && Unquoted(enc, quote, s[1..t.used]) == Some(t.token.value)
  {
    hide Width, QuotedLength, Unquoted;
  }

  /** Text with its backslashes doubled is taken as it was, whatever may follow it, if and only if it may
    * be written without quotes: no glyph of it is a separator or a closing brace, however many
    * backslashes are before that, it does not begin like something else, and it is not NULL. */
  lemma BareBack(enc: Encoding, text: seq<byte>, rest: seq<byte>)
    requires Valid(enc, text) && text != [] && Ends(rest)
    ensures Doubled(enc, text) + rest != []
    ensures TokenAt(enc, Doubled(enc, text) + rest) == Got(StringValue(text), |Doubled(enc, text)|)
            <==> PlainWord(enc, text)
  {
    hide Width, Ends, Doubled, TokenAt, PlainGlyphs;
    DoubledFirst(enc, text, rest);
    if Width(enc, text) == 1 && (text[0] == SINGLE || text[0] == DOUBLE) {
      QuoteNotTaken(enc, text, rest, text[0]);
    } else if Width(enc, text) == 1 && (text[0] == 0 || text[0] == OPEN || text[0] == CLOSE) {
      OtherToken(enc, Doubled(enc, text) + rest);
      PlainIs(enc, text);
    } else if PlainGlyphs(enc, text) {
      WordTokenBack(enc, text, rest);
    } else {
      WordEnds(enc, text, rest);
      TokenLength(enc, Doubled(enc, text) + rest);
    }
  }

  lemma OtherToken(enc: Encoding, s: seq<byte>)
    requires s != [] && Width(enc, s) == 1 && (s[0] == 0 || s[0] == OPEN || s[0] == CLOSE)
    ensures TokenAt(enc, s).Got? ==> !TokenAt(enc, s).token.StringValue?
  {
    hide Width;
  }

  lemma TokenLength(enc: Encoding, s: seq<byte>)
    requires s != [] && (Width(enc, s) == 1 ==> s[0] != OPEN && s[0] != CLOSE && s[0] != SINGLE && s[0] != DOUBLE)
    ensures TokenAt(enc, s).Got? ==> WordLength(enc, s) == Some(TokenAt(enc, s).used)
  {
    hide Width, WordLength, Stripped;
  }

  /** A backslash does not protect a separator: a, a backslash, a comma and b are two strings. */
  lemma BackslashIgnored(s: seq<byte>)
    requires s == [97, BACKSLASH, COMMA, 98]
    ensures AllTokens(MONOBYTE, s) == Some([StringValue([97]), StringValue([98])])
  {
    hide *;
    assert s[3..] == [98] && [98][1..] == [];
    FirstOfTwo(s);
    SecondOfTwo();
    AllStep(MONOBYTE, s);
    AllStep(MONOBYTE, [98]);
    AllNothing(MONOBYTE, s);
    assert s[|s|..] == [];
    JoinOne(StringValue([98]), Some([]));
    JoinOne(StringValue([97]), Some([StringValue([98])]));
    assert [StringValue([98])] + [] == [StringValue([98])];
    assert [StringValue([97])] + [StringValue([98])] == [StringValue([97]), StringValue([98])];
  }

  lemma FirstOfTwo(s: seq<byte>)
    requires s == [97, BACKSLASH, COMMA, 98]
    ensures NextToken(MONOBYTE, s) == Got(StringValue([97]), 3)
  {
    var s1, s2: seq<byte> := [BACKSLASH, COMMA, 98], [COMMA, 98];
    assert s[1..] == s1 && s1[1..] == s2 && s[2..] == s2;
    assert WordLength(MONOBYTE, s2) == Some(0);
    assert WordLength(MONOBYTE, s1) == Some(1) && WordLength(MONOBYTE, s) == Some(2);
    var t, t1, a: seq<byte> := [97, BACKSLASH], [BACKSLASH], [97];
    assert s[..2] == t && t[..1] == a && t[1..] == t1 && t1[1..] == [];
    assert Stripped(MONOBYTE, t1, false) == Some([]) && Stripped(MONOBYTE, t, false) == Some(a + []);
    assert |NULL| == 4 && a + [] == a;
    assert TokenAt(MONOBYTE, s) == Got(StringValue(a), 2);
  }

  lemma SecondOfTwo()
    ensures NextToken(MONOBYTE, [98]) == Got(StringValue([98]), 1)
  {
    var s: seq<byte> := [98];
    assert s[1..] == [] && s[..1] == s && |NULL| == 4 && s + [] == s;
    assert WordLength(MONOBYTE, []) == Some(0) && WordLength(MONOBYTE, s) == Some(1);
    assert Stripped(MONOBYTE, s, false) == Some(s + []);
    assert TokenAt(MONOBYTE, s) == Got(StringValue(s), 1);
  }

  function After(rest: seq<byte>): seq<byte> {
    if rest != [] && (rest[0] == COMMA || rest[0] == SEMICOLON) then rest[1..] else rest
  }

  function Join(tokens: seq<Token>, r: Option<seq<Token>>): Option<seq<Token>> {
    if r.Some? then Some(tokens + r.value) else None
  }

  lemma JoinTwice(a: seq<Token>, b: seq<Token>, r: Option<seq<Token>>)
    ensures Join(a, Join(b, r)) == Join(a + b, r)
  {
    if r.Some? {
      assert a + (b + r.value) == a + b + r.value;
    }
  }

  lemma SeparatorEnds(enc: Encoding, rest: seq<byte>)
    requires Ends(rest)
    ensures PastSeparator(enc, rest).Some? && rest[PastSeparator(enc, rest).value..] == After(rest)
  {
  }

  /** If the token at the front is known, so are all tokens, but for those of the rest. */
  lemma FirstToken(enc: Encoding, s: seq<byte>, rest: seq<byte>, token: Token)
    requires s != [] && s + rest != [] && TokenAt(enc, s + rest) == Got(token, |s|)
    requires PastSeparator(enc, rest).Some?
    ensures AllTokens(enc, s + rest) == Join([token], AllTokens(enc, rest[PastSeparator(enc, rest).value..]))
  {
    hide *;
    var more := PastSeparator(enc, rest).value;
    var all := s + rest;
    Behind(s, rest, more);
    NextIs(enc, all);
    assert NextToken(enc, all) == Got(token, |s| + more);
    AllStep(enc, all);
    JoinOne(token, AllTokens(enc, rest[more..]));
  }

  lemma Behind(s: seq<byte>, rest: seq<byte>, k: nat)
    requires k <= |rest|
    ensures (s + rest)[|s|..] == rest && (s + rest)[|s| + k..] == rest[k..]
  {
  }

  lemma NextIs(enc: Encoding, s: seq<byte>)
    requires s != []
    ensures var t := TokenAt(enc, s);
            t.Got? ==> var more := PastSeparator(enc, s[t.used..]);
                       more.Some? ==> NextToken(enc, s) == Got(t.token, t.used + more.value)
  {
    hide TokenAt, PastSeparator, Width;
  }

  lemma AllStep(enc: Encoding, s: seq<byte>)
    requires s != []
    ensures var t := NextToken(enc, s);
            AllTokens(enc, s) == if t.Bad? then None else Join([t.token], AllTokens(enc, s[t.used..]))
  {
    hide NextToken;
  }

  lemma JoinOne(token: Token, r: Option<seq<Token>>)
    ensures Join([token], r) == if r.None? then None else Some([token] + r.value)
  {
  }

  lemma BraceToken(enc: Encoding, c: byte, rest: seq<byte>)
    requires c == OPEN || c == CLOSE
    ensures TokenAt(enc, [c] + rest) == Got(if c == OPEN then RowStart else RowEnd, 1)
  {
    AsciiWidth(enc, c, rest);
    hide Width;
  }

  /** An element does not begin with a separator. */
  lemma NoSeparator(enc: Encoding, sep: byte, t: Tree, rest: seq<byte>)
    requires Writable(enc, t)
    ensures PastSeparator(enc, Written(enc, sep, t) + rest) == Some(0)
  {
    hide Body, Doubled, WrittenItems, Width, PastSeparator;
    var s := Written(enc, sep, t) + rest;
    match t {
      case Null =>
        AsciiWidth(enc, 78, [85, 76, 76] + rest);
        assert s == [78] + ([85, 76, 76] + rest);
      case Leaf(style, text) =>
        if style == Word {
          DoubledFirst(enc, text, rest);
          PlainIs(enc, text);
        } else {
          var more := Body(enc, QuoteOf(style), text) + [QuoteOf(style)] + rest;
          AsciiWidth(enc, QuoteOf(style), more);
          assert s == [QuoteOf(style)] + more;
        }
      case Node(items) =>
        var more := WrittenItems(enc, sep, items) + [CLOSE] + rest;
        AsciiWidth(enc, OPEN, more);
        assert s == [OPEN] + more;
    }
    NotPast(enc, s);
  }

  lemma NotPast(enc: Encoding, s: seq<byte>)
    requires s != [] && Width(enc, s) > 0 && !(Width(enc, s) == 1 && (s[0] == COMMA || s[0] == SEMICOLON))
    ensures PastSeparator(enc, s) == Some(0)
  {
    hide Width;
  }

  /** An element is read back as its tokens, and then comes what is behind it. */
  lemma {:induction false} ElementBack(enc: Encoding, sep: byte, t: Tree, rest: seq<byte>)
    requires (sep == COMMA || sep == SEMICOLON) && Writable(enc, t) && Ends(rest)
    ensures AllTokens(enc, Written(enc, sep, t) + rest) == Join(Tokens(t), AllTokens(enc, After(rest)))
    decreases t, 1
  {
    hide AllTokens, TokenAt, PastSeparator, Ends, After, Join, Body, Width;
    SeparatorEnds(enc, rest);
    if t.Node? {
      NodeBack(enc, sep, t.items, rest);
    } else {
      TokenBack(enc, sep, t, rest);
      FirstToken(enc, Written(enc, sep, t), rest, Tokens(t)[0]);
    }
  }

  lemma {:induction false} NodeBack(enc: Encoding, sep: byte, items: seq<Tree>, rest: seq<byte>)
    requires (sep == COMMA || sep == SEMICOLON) && Writable(enc, Node(items)) && Ends(rest)
    ensures AllTokens(enc, Written(enc, sep, Node(items)) + rest)
            == Join(Tokens(Node(items)), AllTokens(enc, After(rest)))
    decreases Node(items), 0
  {
    hide AllTokens, TokenAt, PastSeparator, Ends, After, Join, Body, Width, Written, WrittenItems, Tokens, TokensOf;
    var inner, end := WrittenItems(enc, sep, items), [CLOSE] + rest;
    BraceToken(enc, CLOSE, rest);
    SeparatorEnds(enc, rest);
    FirstToken(enc, [CLOSE], rest, RowEnd);
    ItemsBack(enc, sep, items, rest);
    NoItemSeparator(enc, sep, items, end);
    BraceToken(enc, OPEN, inner + end);
    FirstToken(enc, [OPEN], inner + end, RowStart);
    NodeIs(enc, sep, items);
    assert [OPEN] + inner + [CLOSE] + rest == [OPEN] + (inner + end);
    assert (inner + end)[0..] == inner + end;
    JoinTwice(TokensOf(items), [RowEnd], AllTokens(enc, After(rest)));
    JoinTwice([RowStart], TokensOf(items) + [RowEnd], AllTokens(enc, After(rest)));
    assert [RowStart] + (TokensOf(items) + [RowEnd]) == [RowStart] + TokensOf(items) + [RowEnd];
  }

  lemma NodeIs(enc: Encoding, sep: byte, items: seq<Tree>)
    ensures Written(enc, sep, Node(items)) == [OPEN] + WrittenItems(enc, sep, items) + [CLOSE]
    ensures Tokens(Node(items)) == [RowStart] + TokensOf(items) + [RowEnd]
  {
  }

  lemma NoItemSeparator(enc: Encoding, sep: byte, items: seq<Tree>, end: seq<byte>)
    requires Writable(enc, Node(items)) && end != [] && end[0] == CLOSE
    ensures PastSeparator(enc, WrittenItems(enc, sep, items) + end) == Some(0)
  {
    hide Written;
    if items == [] {
      assert WrittenItems(enc, sep, items) + end == end;
      AsciiWidth(enc, CLOSE, end[1..]);
      assert [CLOSE] + end[1..] == end;
    } else {
      hide PastSeparator;
      var more := if |items| == 1 then [] else [sep] + WrittenItems(enc, sep, items[1..]);
      NoSeparator(enc, sep, items[0], more + end);
      assert Written(enc, sep, items[0]) + (more + end) == WrittenItems(enc, sep, items) + end;
    }
  }

  lemma {:induction false} ItemsBack(enc: Encoding, sep: byte, items: seq<Tree>, rest: seq<byte>)
    requires (sep == COMMA || sep == SEMICOLON) && forall i :: 0 <= i < |items| ==> Writable(enc, items[i])
    ensures AllTokens(enc, WrittenItems(enc, sep, items) + ([CLOSE] + rest))
         == Join(TokensOf(items), AllTokens(enc, [CLOSE] + rest))
    decreases items
  {
    hide AllTokens, Written, Tokens;
    var end := [CLOSE] + rest;
    if items == [] {
      assert WrittenItems(enc, sep, items) + end == end;
      JoinNothing(AllTokens(enc, end));
    } else if |items| == 1 {
      assert WrittenItems(enc, sep, items) == Written(enc, sep, items[0]);
      assert items[1..] == [] && TokensOf(items) == Tokens(items[0]) + [] == Tokens(items[0]);
      ElementBack(enc, sep, items[0], end);
    } else {
      var more := WrittenItems(enc, sep, items[1..]) + end;
      assert WrittenItems(enc, sep, items) + end == Written(enc, sep, items[0]) + ([sep] + more);
      assert ([sep] + more)[1..] == more;
      ElementBack(enc, sep, items[0], [sep] + more);
      ItemsBack(enc, sep, items[1..], rest);
      JoinTwice(Tokens(items[0]), TokensOf(items[1..]), AllTokens(enc, end));
    }
  }

  lemma JoinNothing(r: Option<seq<Token>>)
    ensures Join([], r) == r
  {
    if r.Some? {
      assert [] + r.value == r.value;
    }
  }

  /** The text of any array is read back as exactly its tokens, in order. */
  lemma ArrayBack(enc: Encoding, sep: byte, t: Tree)
    requires (sep == COMMA || sep == SEMICOLON) && Writable(enc, t)
    ensures AllTokens(enc, Written(enc, sep, t)) == Some(Tokens(t))
  {
    hide Written, Tokens;
    ElementBack(enc, sep, t, []);
    assert Written(enc, sep, t) + [] == Written(enc, sep, t) && Tokens(t) + [] == Tokens(t);
  }

  // The parser.

  /** The next glyph in the text from a position on. */
  lemma GlyphAt(enc: Encoding, text: seq<byte>, here: nat)
    requires here < |text|
    ensures !Scan(enc, text, here).NoMore? && text[here..] != [] && text[here..][0] == text[here]
    ensures Scan(enc, text, here).Malformed? <==> Width(enc, text[here..]) == 0
    ensures Scan(enc, text, here).Next? ==>
              && here < Scan(enc, text, here).pos <= |text|
              && Width(enc, text[here..]) == Scan(enc, text, here).pos - here
              && text[here..][Scan(enc, text, here).pos - here..] == text[Scan(enc, text, here).pos..]
              && text[here..][..Scan(enc, text, here).pos - here] == text[here..Scan(enc, text, here).pos]
    ensures here + 1 < |text| ==> text[here..][1..] == text[here + 1..] && text[here..][1] == text[here + 1]
  {
    hide Width;
  }

  lemma AsciiAt(enc: Encoding, text: seq<byte>, here: nat)
    requires here < |text| && text[here] < 0x80
    ensures Scan(enc, text, here) == Next(here + 1)
  {
  }

  /** Where a quoted string ends, from a position inside it. */
  function EndFrom(enc: Encoding, quote: byte, text: seq<byte>, here: nat): Option<nat>
    requires here <= |text|
  {
    Plus(here, QuotedLength(enc, quote, text[here..]))
  }

  lemma PlusTwice(a: nat, b: nat, r: Option<nat>)
    ensures Plus(a, Plus(b, r)) == Plus(a + b, r) && Plus(a, None) == None && Plus(a, Some(b)) == Some(a + b)
  {
  }

  lemma QuotedPlain(enc: Encoding, quote: byte, s: seq<byte>)
    requires s != []
    ensures Width(enc, s) == 0 ==> QuotedLength(enc, quote, s) == None
    ensures var w := Width(enc, s);
            w > 0 && (w > 1 || (s[0] != quote && s[0] != BACKSLASH)) ==>
              QuotedLength(enc, quote, s) == Plus(w, QuotedLength(enc, quote, s[w..]))
  {
    hide Width, Plus;
  }

  lemma QuotedEscape(enc: Encoding, quote: byte, s: seq<byte>)
    requires s != [] && s[0] == BACKSLASH != quote && Width(enc, s) == 1
    ensures |s| == 1 || Width(enc, s[1..]) == 0 ==> QuotedLength(enc, quote, s) == None
    ensures |s| > 1 && Width(enc, s[1..]) > 0 ==>
              var n := 1 + Width(enc, s[1..]);
              QuotedLength(enc, quote, s) == Plus(n, QuotedLength(enc, quote, s[n..]))
  {
    hide Width, Plus;
  }

  lemma QuotedQuote(enc: Encoding, quote: byte, s: seq<byte>)
    requires s != [] && s[0] == quote && Width(enc, s) == 1
    ensures |s| == 1 || (quote == SINGLE && s[1] != quote) ==> QuotedLength(enc, quote, s) == Some(1)
    ensures |s| > 1 && !(quote == SINGLE && s[1] != quote) ==>
              QuotedLength(enc, quote, s)
              == if Width(enc, s[1..]) == 0 then None
                 else if Width(enc, s[1..]) == 1 && s[1] == quote then Plus(2, QuotedLength(enc, quote, s[2..]))
                 else Some(1)
  {
    hide Width, Plus;
  }

  /** What ends a quoted string is a quote. */
  lemma {:induction false} QuotedEnds(enc: Encoding, quote: byte, s: seq<byte>)
    requires QuotedLength(enc, quote, s).Some?
    ensures s[QuotedLength(enc, quote, s).value - 1] == quote
    decreases |s|
  {
    hide Width, QuotedLength;
    if s == [] {
      NotClosed(enc, quote);
    } else {
      var w := Width(enc, s);
      if w != 1 || (s[0] != quote && s[0] != BACKSLASH) {
        QuotedPlain(enc, quote, s);
        QuotedEnds(enc, quote, s[w..]);
      } else if s[0] == quote {
        QuotedQuote(enc, quote, s);
        if |s| > 1 && Width(enc, s[1..]) == 1 && s[1] == quote {
          QuotedEnds(enc, quote, s[2..]);
        }
      } else {
        QuotedEscape(enc, quote, s);
        QuotedEnds(enc, quote, s[1 + Width(enc, s[1..])..]);
      }
    }
  }

  /** What a quoted string at a position is, in terms of where it ends. */
  lemma QuotedTokenAt(enc: Encoding, quote: byte, text: seq<byte>, pos: nat)
    requires pos < |text|
    ensures var end, token := EndFrom(enc, quote, text, pos + 1), QuotedToken(enc, quote, text[pos..]);
            if end.None? then token == Bad
            else
              && pos + 2 <= end.value <= |text| && text[end.value - 1] == quote
              && var value := Unquoted(enc, quote, text[pos + 1..end.value]);
                 token == if value.None? then Bad else Got(StringValue(value.value), end.value - pos)
  {
    hide Width, Unquoted, QuotedLength;
    assert text[pos..][1..] == text[pos + 1..];
    var n := QuotedLength(enc, quote, text[pos + 1..]);
    if n.Some? {
      QuotedEnds(enc, quote, text[pos + 1..]);
      assert text[pos..][1..1 + n.value] == text[pos + 1..pos + 1 + n.value];
    }
  }

  lemma NotClosed(enc: Encoding, quote: byte)
    ensures QuotedLength(enc, quote, []) == None
  {
  }

  lemma EndIs(enc: Encoding, quote: byte, text: seq<byte>, here: nat)
    requires here <= |text|
    ensures EndFrom(enc, quote, text, here) == Plus(here, QuotedLength(enc, quote, text[here..]))
  {
  }

  lemma EndPlain(enc: Encoding, quote: byte, text: seq<byte>, here: nat)
    requires here < |text|
    ensures Scan(enc, text, here).Malformed? ==> EndFrom(enc, quote, text, here) == None
    ensures Scan(enc, text, here).Next? ==>
              var n := Scan(enc, text, here).pos;
              n - here > 1 || (text[here] != quote && text[here] != BACKSLASH) ==>
                n <= |text| && EndFrom(enc, quote, text, here) == EndFrom(enc, quote, text, n)
  {
    hide *;
    GlyphAt(enc, text, here);
    QuotedPlain(enc, quote, text[here..]);
    EndIs(enc, quote, text, here);
    PlusTwice(here, 0, None);
    var g := Scan(enc, text, here);
    if g.Next? {
      EndIs(enc, quote, text, g.pos);
      PlusTwice(here, g.pos - here, QuotedLength(enc, quote, text[g.pos..]));
    }
  }

  lemma EndEscape(enc: Encoding, quote: byte, text: seq<byte>, here: nat)
    requires here < |text| && text[here] == BACKSLASH && quote != BACKSLASH
    ensures var r := EndFrom(enc, quote, text, here);
            match Scan(enc, text, here + 1)
            case NoMore => r == None
            case Malformed => r == None
            case Next(m) => m <= |text| && r == EndFrom(enc, quote, text, m)
  {
    hide *;
    Characters();
    AsciiAt(enc, text, here);
    GlyphAt(enc, text, here);
    ScanBounds(enc, text, here + 1);
    QuotedEscape(enc, quote, text[here..]);
    EndIs(enc, quote, text, here);
    PlusTwice(here, 0, None);
    if here + 1 < |text| {
      GlyphAt(enc, text, here + 1);
      var m := Scan(enc, text, here + 1);
      if m.Next? {
        assert text[here..][m.pos - here..] == text[m.pos..];
        EndIs(enc, quote, text, m.pos);
        PlusTwice(here, m.pos - here, QuotedLength(enc, quote, text[m.pos..]));
      }
    }
  }

  lemma EndQuote(enc: Encoding, quote: byte, text: seq<byte>, here: nat)
    requires here < |text| && text[here] == quote && (quote == SINGLE || quote == DOUBLE)
    ensures var r := EndFrom(enc, quote, text, here);
            match Scan(enc, text, here + 1)
            case NoMore => here + 1 == |text| && r == Some(here + 1)
            case Malformed => r == if quote == SINGLE && text[here + 1] != quote then Some(here + 1) else None
            case Next(m) =>
              if m == here + 2 && text[here + 1] == quote then r == EndFrom(enc, quote, text, m)
              else r == Some(here + 1)
  {
    hide *;
    Characters();
    AsciiAt(enc, text, here);
    GlyphAt(enc, text, here);
    ScanBounds(enc, text, here + 1);
    QuotedQuote(enc, quote, text[here..]);
    EndIs(enc, quote, text, here);
    PlusTwice(here, 0, None);
    PlusTwice(here, 1, None);
    if here + 1 < |text| {
      GlyphAt(enc, text, here + 1);
      if here + 2 <= |text| {
        assert text[here..][2..] == text[here + 2..];
        EndIs(enc, quote, text, here + 2);
        PlusTwice(here, 2, QuotedLength(enc, quote, text[here + 2..]));
      }
    }
  }

  lemma EndNowhere(enc: Encoding, quote: byte, text: seq<byte>)
    ensures EndFrom(enc, quote, text, |text|) == None
  {
    assert text[|text|..] == [];
  }

  /** Searching for the next quote or backslash does not miss the end. */
  lemma {:induction false} EndSkip(enc: Encoding, text: seq<byte>, start: nat, here: nat)
    requires start <= here <= |text| && Boundary(enc, text, start, here)
    requires Missed(enc, text, Char({BACKSLASH, SINGLE}), start, here)
    ensures EndFrom(enc, SINGLE, text, start) == EndFrom(enc, SINGLE, text, here)
    decreases here - start
  {
    hide Width, EndFrom;
    if start < here {
      var n := Scan(enc, text, start).pos;
      assert Boundary(enc, text, start, start);
      assert !Hit(enc, text, Char({BACKSLASH, SINGLE}), start);
      EndPlain(enc, SINGLE, text, start);
      if here < n {
        NoEarlier(enc, text, n, here);
      }
      EndSkip(enc, text, n, here);
    }
  }

  lemma {:induction false} EndAbsent(enc: Encoding, text: seq<byte>, start: nat)
    requires start <= |text| && Missed(enc, text, Char({BACKSLASH, SINGLE}), start, |text| + 1)
    ensures EndFrom(enc, SINGLE, text, start) == None
    decreases |text| - start
  {
    hide Width, EndFrom;
    if start == |text| {
      EndNowhere(enc, SINGLE, text);
    } else {
      assert Boundary(enc, text, start, start);
      assert !Hit(enc, text, Char({BACKSLASH, SINGLE}), start);
      EndPlain(enc, SINGLE, text, start);
      if Scan(enc, text, start).Next? {
        EndAbsent(enc, text, Scan(enc, text, start).pos);
      }
    }
  }

  /** What is left of the contents of a quoted string, up to its end. */
  function ContentFrom(enc: Encoding, quote: byte, buf: seq<byte>, here: nat): Option<seq<byte>>
    requires here <= |buf|
  {
    Unquoted(enc, quote, buf[here..])
  }

  lemma UnquotedStep(enc: Encoding, quote: byte, s: seq<byte>)
    requires |s| > 1
    ensures var w := Width(enc, s); var w' := Width(enc, s[1..]);
            Unquoted(enc, quote, s)
            == if w == 0 then None
               else if w == 1 && (s[0] == quote || s[0] == BACKSLASH) then
                 if w' == 0 then None else Onto(s[1..1 + w'], Unquoted(enc, quote, s[1 + w'..]))
               else Onto(s[..w], Unquoted(enc, quote, s[w..]))
  {
    hide Width, Onto;
  }

  lemma ContentFromIs(enc: Encoding, quote: byte, buf: seq<byte>, here: nat)
    requires here <= |buf|
    ensures ContentFrom(enc, quote, buf, here) == Unquoted(enc, quote, buf[here..])
  {
  }

  lemma ContentStep(enc: Encoding, quote: byte, buf: seq<byte>, here: nat)
    requires here + 1 < |buf|
    ensures var r := ContentFrom(enc, quote, buf, here);
            match Scan(enc, buf, here)
            case NoMore => false
            case Malformed => r == None
            case Next(n) =>
              if n == here + 1 && (buf[here] == quote || buf[here] == BACKSLASH) then
                match Scan(enc, buf, n)
                case NoMore => false
                case Malformed => r == None
                case Next(m) => m <= |buf| && r == Onto(buf[n..m], ContentFrom(enc, quote, buf, m))
              else n <= |buf| && r == Onto(buf[here..n], ContentFrom(enc, quote, buf, n))
  {
    hide *;
    GlyphAt(enc, buf, here);
    GlyphAt(enc, buf, here + 1);
    UnquotedStep(enc, quote, buf[here..]);
    ContentFromIs(enc, quote, buf, here);
    var n, m := Scan(enc, buf, here), Scan(enc, buf, here + 1);
    if n.Next? {
      ContentFromIs(enc, quote, buf, n.pos);
    }
    if m.Next? {
      ContentFromIs(enc, quote, buf, m.pos);
      assert buf[here..][1..m.pos - here] == buf[here + 1..m.pos] && buf[here..][m.pos - here..] == buf[m.pos..];
    }
  }

  lemma ContentEnd(enc: Encoding, quote: byte, buf: seq<byte>, here: nat)
    requires here <= |buf| <= here + 1
    ensures ContentFrom(enc, quote, buf, here) == Some([])
  {
  }

  function WordFrom(enc: Encoding, text: seq<byte>, here: nat): Option<nat>
    requires here <= |text|
  {
    Plus(here, WordLength(enc, text[here..]))
  }

  lemma WordAt(enc: Encoding, text: seq<byte>, here: nat)
    requires here <= |text|
    ensures var r := WordFrom(enc, text, here);
            match Scan(enc, text, here)
            case NoMore => here == |text| && r == Some(here)
            case Malformed => r == None
            case Next(n) =>
              && here < n <= |text|
              && r == if n == here + 1 && Stops(text[here]) then Some(here) else WordFrom(enc, text, n)
  {
    hide *;
    ScanBounds(enc, text, here);
    WordFromIs(enc, text, here);
    PlusTwice(here, 0, None);
    if here < |text| {
      GlyphAt(enc, text, here);
      WordLengthStep(enc, text[here..]);
      var g := Scan(enc, text, here);
      if g.Next? {
        WordFromIs(enc, text, g.pos);
        PlusTwice(here, g.pos - here, WordLength(enc, text[g.pos..]));
      }
    } else {
      assert text[here..] == [];
      WordLengthStep(enc, []);
    }
  }

  lemma WordFromIs(enc: Encoding, text: seq<byte>, here: nat)
    requires here <= |text|
    ensures WordFrom(enc, text, here) == Plus(here, WordLength(enc, text[here..]))
  {
  }

  lemma WordLengthStep(enc: Encoding, s: seq<byte>)
    ensures WordLength(enc, s)
            == if s == [] then Some(0)
               else if Width(enc, s) == 0 then None
               else if Width(enc, s) == 1 && Stops(s[0]) then Some(0)
               else Plus(Width(enc, s), WordLength(enc, s[Width(enc, s)..]))
  {
    hide Width, Plus;
  }

  lemma StripAt(enc: Encoding, buf: seq<byte>, here: nat, escaped: bool)
    requires here <= |buf|
    ensures var r := Stripped(enc, buf[here..], escaped);
            match Scan(enc, buf, here)
            case NoMore => here == |buf| && r == Some([])
            case Malformed => r == None
            case Next(n) =>
              && here < n <= |buf|
              && if !escaped && n == here + 1 && buf[here] == BACKSLASH then r == Stripped(enc, buf[n..], true)
                 else r == Onto(buf[here..n], Stripped(enc, buf[n..], false))
  {
    hide Width, Scan;
    ScanBounds(enc, buf, here);
    if here < |buf| {
      GlyphAt(enc, buf, here);
    } else {
      assert buf[here..] == [];
    }
  }

  lemma OntoMore(a: seq<byte>, b: seq<byte>, r: Option<seq<byte>>)
    ensures Onto(a, Onto(b, r)) == Onto(a + b, r) && Onto([], r) == r
    ensures Onto(a, None) == None && Onto(a, Some([])) == Some(a)
  {
    if r.Some? {
      assert a + (b + r.value) == a + b + r.value && [] + r.value == r.value;
    }
    assert a + [] == a;
  }

  /** What a call of the parser finds. */
  datatype Juncture = Found(token: Token) | Done | Thrown

  class Parser {
    const input: seq<byte>
    const enc: Encoding
    var pos: nat

    constructor (input: seq<byte>, enc: Encoding)
      ensures this.input == input && this.enc == enc && pos == 0
    {
      this.input, this.enc, pos := input, enc, 0;
    }

    /** Finds where the single-quoted string that begins here ends, by searching for quotes and
      * backslashes. */
    method ScanSingleQuotedString() returns (end: Option<nat>)
      requires pos < |input| && input[pos] == SINGLE
      ensures end == EndFrom(enc, SINGLE, input, pos + 1)
    {
      hide *;
      Characters();
      var here;
      ghost var goal := EndFrom(enc, SINGLE, input, pos + 1);
      here := NextSpecial(pos + 1);
      while here.Some?
        invariant here.None? ==> goal == None
        invariant here.Some? ==>
                    && pos < here.value < |input| && goal == EndFrom(enc, SINGLE, input, here.value)
                    && (input[here.value] == BACKSLASH || input[here.value] == SINGLE)
        decreases if here.Some? then |input| - here.value else -1
      {
        var c := input[here.value];
        var after := here.value + 1;
        var next := Scan(enc, input, after);
        ScanBounds(enc, input, after);
        if c == SINGLE {
          EndQuote(enc, SINGLE, input, here.value);
          if after >= |input| || input[after] != SINGLE {
            return Some(after);
          }
          if next.Malformed? {
            return None;
          }
          if next.pos > after + 1 {
            return Some(after);
          }
          after := after + 1;
        } else {
          EndEscape(enc, SINGLE, input, here.value);
          if !next.Next? {
            return None;
          }
          after := next.pos;
        }
        here := NextSpecial(after);
      }
      return None;
    }

    /** The next single-byte quote or backslash, if any comes before malformed text. */
    method NextSpecial(start: nat) returns (here: Option<nat>)
      requires start <= |input|
      ensures here.None? ==> EndFrom(enc, SINGLE, input, start) == None
      ensures here.Some? ==>
                && start <= here.value < |input|
                && EndFrom(enc, SINGLE, input, start) == EndFrom(enc, SINGLE, input, here.value)
                && (input[here.value] == BACKSLASH || input[here.value] == SINGLE)
    {
      hide EndFrom, Boundary, Missed, Scan;
      var r := FindChar(enc, input, {BACKSLASH, SINGLE}, start);
      match r {
        case At(p) =>
          if p == |input| {
            EndAbsent(enc, input, start);
            return None;
          }
          EndSkip(enc, input, start, p);
          return Some(p);
        case Broken(where) =>
          ScanBounds(enc, input, where);
          EndSkip(enc, input, start, where);
          EndPlain(enc, SINGLE, input, where);
          return None;
      }
    }

    /** Finds where the double-quoted string that begins here ends. */
    method ScanDoubleQuotedString() returns (end: Option<nat>)
      requires pos < |input| && input[pos] == DOUBLE
      ensures end == EndFrom(enc, DOUBLE, input, pos + 1)
    {
      hide *;
      Characters();
      ghost var goal := EndFrom(enc, DOUBLE, input, pos + 1);
      var here := pos + 1;
      var atQuote := false;
      while here < |input|
        invariant pos < here <= |input|
        invariant !atQuote ==> goal == EndFrom(enc, DOUBLE, input, here)
        invariant atQuote ==> input[here - 1] == DOUBLE && goal == EndFrom(enc, DOUBLE, input, here - 1)
        decreases |input| - here
      {
        var next := Scan(enc, input, here);
        ScanBounds(enc, input, here);
        if atQuote {
          EndQuote(enc, DOUBLE, input, here - 1);
        } else {
          EndPlain(enc, DOUBLE, input, here);
        }
        if next.Malformed? {
          return None;
        }
        if atQuote {
          if next.pos - here == 1 && input[here] == DOUBLE {
            atQuote := false;
          } else {
            return Some(here);
          }
        } else if next.pos - here == 1 {
          if input[here] == BACKSLASH {
            EndEscape(enc, DOUBLE, input, here);
            here := next.pos;
            next := Scan(enc, input, here);
            ScanBounds(enc, input, here);
            if !next.Next? {
              return None;
            }
          } else if input[here] == DOUBLE {
            atQuote := true;
          }
        }
        here := next.pos;
      }
      ScanBounds(enc, input, here);
      if !atQuote {
        EndNowhere(enc, DOUBLE, input);
        return None;
      }
      EndQuote(enc, DOUBLE, input, here - 1);
      return Some(here);
    }

    /** The contents of the quoted string from here to its end, with escape characters skipped. */
    method ParseQuotedString(quote: byte, end: nat) returns (output: Option<seq<byte>>)
      requires pos + 2 <= end <= |input| && input[end - 1] == quote && (quote == SINGLE || quote == DOUBLE)
      ensures output == Unquoted(enc, quote, input[pos + 1..end])
    {
      hide *;
      Characters();
      var buffer := input[..end];
      var text: seq<byte> := [];
      ghost var goal := ContentFrom(enc, quote, buffer, pos + 1);
      ContentIs(enc, quote, input, pos + 1, end);
      AsciiAt(enc, buffer, end - 1);
      var here := pos + 1;
      var next := Scan(enc, buffer, here);
      OntoMore([], [], goal);
      while here < end - 1
        invariant here <= end && next == Scan(enc, buffer, here)
        invariant goal == Onto(text, ContentFrom(enc, quote, buffer, here))
        decreases end - here
      {
        ContentStep(enc, quote, buffer, here);
        ScanBounds(enc, buffer, here);
        OntoMore(text, [], None);
        if next.Malformed? {
          return None;
        }
        if next.pos - here == 1 && (input[here] == quote || input[here] == BACKSLASH) {
          here := next.pos;
          next := Scan(enc, buffer, here);
          ScanBounds(enc, buffer, here);
          if next.Malformed? {
            return None;
          }
        }
        OntoMore(text, buffer[here..next.pos], ContentFrom(enc, quote, buffer, next.pos));
        text := text + buffer[here..next.pos];
        here := next.pos;
        next := Scan(enc, buffer, here);
      }
      ContentEnd(enc, quote, buffer, here);
      OntoMore(text, [], None);
      return Some(text);
    }

    /** Finds the end of a string without quotes: the first separator or closing brace, whether there is
      * a backslash before it or not. */
    method ScanUnquotedString() returns (end: Option<nat>)
      requires pos <= |input|
      ensures end == WordFrom(enc, input, pos)
    {
      hide *;
      var here := pos;
      var atBackslash := false;
      var next := Scan(enc, input, here);
      WordAt(enc, input, here);
      if next.Malformed? {
        return None;
      }
      Characters();
      while here < |input| && (next.pos - here > 1 || atBackslash || !Stops(input[here]))
        invariant pos <= here <= |input| && next == Scan(enc, input, here) && !next.Malformed?
        invariant here < |input| ==> next.Next? && here < next.pos <= |input|
        invariant WordFrom(enc, input, pos) == WordFrom(enc, input, here)
        invariant atBackslash ==> here < |input| && input[here] == BACKSLASH
        decreases |input| - here
      {
        WordAt(enc, input, here);
        here := next.pos;
        next := Scan(enc, input, here);
        WordAt(enc, input, here);
        if next.Malformed? {
          return None;
        }
        atBackslash := !atBackslash && here < |input| && next.pos - here == 1 && input[here] == BACKSLASH;
      }
      WordAt(enc, input, here);
      return Some(here);
    }

    /** A string without quotes, with backslashes dropped. */
    method ParseUnquotedString(end: nat) returns (output: Option<seq<byte>>)
      requires pos <= end <= |input|
      ensures output == Stripped(enc, input[pos..end], false)
    {
      hide *;
      var buffer := input[..end];
      assert buffer[pos..] == input[pos..end];
      var text: seq<byte> := [];
      ghost var goal := Stripped(enc, buffer[pos..], false);
      OntoMore([], [], goal);
      var here := pos;
      var atBackslash := false;
      while here < end
        invariant here <= end && goal == Onto(text, Stripped(enc, buffer[here..], atBackslash))
      {
        var next := Scan(enc, buffer, here);
        StripAt(enc, buffer, here, atBackslash);
        OntoMore(text, [], None);
        if !next.Next? {
          return None;
        }
        atBackslash := !atBackslash && next.pos - here == 1 && input[here] == BACKSLASH;
        if !atBackslash {
          OntoMore(text, buffer[here..next.pos], Stripped(enc, buffer[next.pos..], false));
          text := text + buffer[here..next.pos];
        }
        here := next.pos;
      }
      StripAt(enc, buffer, here, atBackslash);
      ScanBounds(enc, buffer, here);
      OntoMore(text, [], None);
      return Some(text);
    }

    /** The token at this position and where it ends. */
    method ReadToken() returns (found: Step)
      requires pos < |input|
      ensures found == TokenAt(enc, input[pos..])
    {
      hide EndFrom, WordFrom, Unquoted, Stripped, QuotedLength, WordLength, Width;
      GlyphAt(enc, input, pos);
      var next := Scan(enc, input, pos);
      hide Scan;
      if next.Malformed? {
        return Bad;
      }
      if next.pos - pos > 1 {
        found := ReadWord();
        return;
      }
      match input[pos] {
        case 0 => return Bad;
        case 123 => return Got(RowStart, next.pos - pos);
        case 125 => return Got(RowEnd, next.pos - pos);
        case 39 =>
          var end := ScanSingleQuotedString();
          found := ReadQuoted(SINGLE, end);
        case 34 =>
          var end := ScanDoubleQuotedString();
          found := ReadQuoted(DOUBLE, end);
        case _ => found := ReadWord();
      }
    }

    method ReadQuoted(quote: byte, end: Option<nat>) returns (found: Step)
      requires pos < |input| && (quote == SINGLE || quote == DOUBLE) && end == EndFrom(enc, quote, input, pos + 1)
      ensures found == QuotedToken(enc, quote, input[pos..])
    {
      hide *;
      QuotedTokenAt(enc, quote, input, pos);
      if end.None? {
        return Bad;
      }
      var value := ParseQuotedString(quote, end.value);
      if value.None? {
        return Bad;
      }
      return Got(StringValue(value.value), end.value - pos);
    }

    /** A string without quotes.  Only a string beginning with a single-byte character can be a null. */
    method ReadWord() returns (found: Step)
      requires pos < |input| && (Width(enc, input[pos..]) == 1 ==> input[pos] != CLOSE)
      ensures found == WordToken(enc, input[pos..])
    {
      hide Width, Stripped;
      var end := ScanUnquotedString();
      if end.None? {
        return Bad;
      }
      assert input[pos..][..end.value - pos] == input[pos..end.value];
      hide WordLength;
      var value := ParseUnquotedString(end.value);
      if value.None? {
        return Bad;
      }
      var single := Width(enc, input[pos..]) == 1;
      if value.value == NULL && single {
        return Got(NullValue, end.value - pos);
      }
      return Got(StringValue(value.value), end.value - pos);
    }

    /** Reads the next token and a separator behind it, or says that there are no more. */
    method GetNext() returns (r: Juncture)
      modifies this
      ensures old(pos) >= |input| ==> r == Done && pos == old(pos)
      ensures old(pos) < |input| ==>
                match NextToken(enc, input[old(pos)..])
                case Bad => r == Thrown && pos == old(pos)
                case Got(token, used) => r == Found(token) && old(pos) < pos == old(pos) + used <= |input|
    {
      hide TokenAt, Width;
      if pos >= |input| {
        return Done;
      }
      var found := ReadToken();
      if found.Bad? {
        return Thrown;
      }
      var end := pos + found.used;
      assert input[pos..][found.used..] == input[end..];
      if end < |input| {
        GlyphAt(enc, input, end);
        var next := Scan(enc, input, end);
        hide Scan;
        if next.Malformed? {
          return Thrown;
        }
        if next.pos - end == 1 && (input[end] == COMMA || input[end] == SEMICOLON) {
          end := next.pos;
        }
      }
      pos := end;
      return Found(found.token);
    }

    /** Calls the parser until it is done. */
    method ReadAll() returns (r: Option<seq<Token>>)
      modifies this
      ensures r == if old(pos) <= |input| then AllTokens(enc, input[old(pos)..]) else Some([])
    {
      hide NextToken, AllTokens;
      if pos > |input| {
        var none := GetNext();
        return Some([]);
      }
      ghost var goal := AllTokens(enc, input[pos..]);
      var tokens: seq<Token> := [];
      JoinNothing(goal);
      while pos < |input|
        invariant pos <= |input| && goal == Join(tokens, AllTokens(enc, input[pos..]))
        decreases |input| - pos
      {
        ghost var rest := input[pos..];
        AllStep(enc, rest);
        ghost var before := pos;
        var next := GetNext();
        if next.Thrown? {
          return None;
        }
        assert rest[pos - before..] == input[pos..];
        JoinTwice(tokens, [next.token], AllTokens(enc, input[pos..]));
        tokens := tokens + [next.token];
      }
      AllNothing(enc, input);
      assert tokens + [] == tokens;
      return Some(tokens);
    }
  }

  lemma AllNothing(enc: Encoding, text: seq<byte>)
    ensures AllTokens(enc, text[|text|..]) == Some([])
  {
  }

  lemma Characters()
    ensures BACKSLASH < 0x80 && !Stops(BACKSLASH) && DOUBLE != BACKSLASH && SINGLE != BACKSLASH && SINGLE != DOUBLE
    ensures SINGLE < 0x80 && DOUBLE < 0x80
  {
  }

  lemma ScanBounds(enc: Encoding, text: seq<byte>, here: nat)
    ensures Scan(enc, text, here).NoMore? <==> here >= |text|
    ensures Scan(enc, text, here).Next? ==> here < Scan(enc, text, here).pos <= |text|
  {
  }

  lemma ContentIs(enc: Encoding, quote: byte, input: seq<byte>, here: nat, end: nat)
    requires here <= end <= |input|
    ensures ContentFrom(enc, quote, input[..end], here) == Unquoted(enc, quote, input[here..end])
  {
    assert input[..end][here..] == input[here..end];
  }

  /** Any array, written as text, is read back by the parser as exactly its tokens. */
  method ReadBack(enc: Encoding, sep: byte, t: Tree) returns (r: Option<seq<Token>>)
    requires (sep == COMMA || sep == SEMICOLON) && Writable(enc, t)
    ensures r == Some(Tokens(t))
  {
    hide *;
    var text := Written(enc, sep, t);
    ArrayBack(enc, sep, t);
    var parser := new Parser(text, enc);
    assert text[0..] == text;
    r := parser.ReadAll();
  }

  /** An array of a letter and a null in bytes, with either separator. */
  lemma InBytes(enc: Encoding, sep: byte)
    requires sep == 44 || sep == 59
    ensures AllTokens(enc, [123, 97, sep, 78, 85, 76, 76, 125])
            == Some([RowStart, StringValue([97]), NullValue, RowEnd])
  {
    hide *;
    ItemsInBytes(enc);
    var a, b := Leaf(Word, [97]), Null;
    OneItem(enc, sep, b);
    MoreItems(enc, sep, a, [b]);
    var items := [a] + [b];
    InBraces(enc, sep, items);
    SomeSeparator(sep);
    ArrayBack(enc, sep, Node(items));
    assert Tokens(Node(items)) == [RowStart, StringValue([97]), NullValue, RowEnd];
    assert Written(enc, sep, Node(items)) == [123, 97, sep, 78, 85, 76, 76, 125];
  }

  /** Quoted strings in bytes: a double quote and a backslash in double quotes, and a single quote in
    * single ones. */
  lemma QuotedInBytes(enc: Encoding)
    ensures AllTokens(enc, [34, 34, 34, 92, 92, 34]) == Some([StringValue([34, 92])])
    ensures AllTokens(enc, [39, 39, 39, 39]) == Some([StringValue([39])])
  {
    hide *;
    ItemsInBytes(enc);
    SomeSeparator(44);
    ArrayBack(enc, 44, Leaf(DoubleQuoted, [34, 92]));
    ArrayBack(enc, 44, Leaf(SingleQuoted, [39]));
  }

  lemma SomeSeparator(sep: byte)
    requires sep == 44 || sep == 59
    ensures sep == COMMA || sep == SEMICOLON
  {
  }

  lemma InBraces(enc: Encoding, sep: byte, items: seq<Tree>)
    ensures Written(enc, sep, Node(items)) == [123] + WrittenItems(enc, sep, items) + [125]
    ensures Tokens(Node(items)) == [RowStart] + TokensOf(items) + [RowEnd]
    ensures (forall i :: 0 <= i < |items| ==> Writable(enc, items[i])) ==> Writable(enc, Node(items))
  {
    hide WrittenItems, TokensOf;
  }

  lemma OneItem(enc: Encoding, sep: byte, a: Tree)
    ensures WrittenItems(enc, sep, [a]) == Written(enc, sep, a) && TokensOf([a]) == Tokens(a)
  {
    hide Written, Tokens;
    assert [a][1..] == [] && Written(enc, sep, a) + [] == Written(enc, sep, a) && Tokens(a) + [] == Tokens(a);
  }

  lemma MoreItems(enc: Encoding, sep: byte, a: Tree, rest: seq<Tree>)
    requires rest != []
    ensures WrittenItems(enc, sep, [a] + rest) == Written(enc, sep, a) + [sep] + WrittenItems(enc, sep, rest)
    ensures TokensOf([a] + rest) == Tokens(a) + TokensOf(rest)
  {
    hide Written, Tokens;
    assert ([a] + rest)[1..] == rest;
  }

  lemma ItemsInBytes(enc: Encoding)
    ensures forall sep :: Written(enc, sep, Leaf(Word, [97])) == [97]
    ensures forall sep :: Written(enc, sep, Null) == [78, 85, 76, 76]
    ensures forall sep :: Written(enc, sep, Leaf(DoubleQuoted, [34, 92])) == [34, 34, 34, 92, 92, 34]
    ensures forall sep :: Written(enc, sep, Leaf(SingleQuoted, [39])) == [39, 39, 39, 39]
    ensures Writable(enc, Leaf(Word, [97])) && Writable(enc, Null)
    ensures Writable(enc, Leaf(DoubleQuoted, [34, 92])) && Writable(enc, Leaf(SingleQuoted, [39]))
    ensures Tokens(Leaf(Word, [97])) == [StringValue([97])] && Tokens(Null) == [NullValue]
    ensures Tokens(Leaf(DoubleQuoted, [34, 92])) == [StringValue([34, 92])]
    ensures Tokens(Leaf(SingleQuoted, [39])) == [StringValue([39])]
  {
    assert [97][1..] == [] && [39][1..] == [] && [34, 92][1..] == [92] && [92][1..] == [];
    assert [97][..1] == [97];
    BodyNothing(enc);
    assert Body(enc, BACKSLASH, [97]) == [97] + Body(enc, BACKSLASH, [97][1..]);
    assert Body(enc, SINGLE, [39]) == [39, 39] + Body(enc, SINGLE, [39][1..]);
    assert Body(enc, DOUBLE, [92]) == [92, 92] + Body(enc, DOUBLE, [92][1..]);
    assert Body(enc, DOUBLE, [34, 92]) == [34, 34] + Body(enc, DOUBLE, [34, 92][1..]);
  }

  lemma BodyNothing(enc: Encoding)
    ensures forall quote :: Body(enc, quote, []) == []
  {
  }
}

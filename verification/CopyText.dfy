/** The COPY text format: writing rows as lines, and parsing lines into rows. */
module CopyText {
  import opened Encodings

  datatype Field = Null | Text(bytes: seq<byte>)

  datatype Fault = LineTooLong | BadGlyph | EndsInBackslash | NullInText

  datatype Result = Ok(fields: seq<Field>) | Err(fault: Fault)

  const TAB: byte := 9
  const BACKSLASH: byte := 92
  const CAPITAL_N: byte := 78

  // Half the range of a 64-bit size.
  const SIZE_LIMIT := 0x7fff_ffff_ffff_ffff

  /** The letter of a character's escape sequence, or 0 if it needs none. */
  function EscapeLetter(width: nat, c: byte): byte {
    if width != 1 then 0
    else match c
      case 8 => 98
      case 12 => 102
      case 10 => 110
      case 13 => 114
      case 9 => 116
      case 11 => 118
      case 92 => 92
      case _ => 0
  }

  /** The character that a backslash and a letter stand for. */
  function Unescaped(letter: byte): byte {
    match letter
    case 98 => 8
    case 102 => 12
    case 110 => 10
    case 114 => 13
    case 116 => 9
    case 118 => 11
    case _ => letter
  }

  /** One glyph, escaped if need be. */
  function EscapedGlyph(glyph: seq<byte>): seq<byte>
    requires glyph != []
  {
    var letter := EscapeLetter(|glyph|, glyph[0]);
    if letter != 0 then [BACKSLASH, letter] else glyph
  }

  /** Text, glyph by glyph, up to a malformed one. */
  function Escaped(enc: Encoding, data: seq<byte>): seq<byte>
    decreases |data|
  {
    if data == [] || Width(enc, data) == 0 then []
    else EscapedGlyph(data[..Width(enc, data)]) + Escaped(enc, data[Width(enc, data)..])
  }

  /** A field and the tab after it. */
  function Rendered(enc: Encoding, f: Field): seq<byte> {
    match f
    case Null => [BACKSLASH, CAPITAL_N, TAB]
    case Text(bytes) => Escaped(enc, bytes) + [TAB]
  }

  function RenderedRow(enc: Encoding, fields: seq<Field>): seq<byte> {
    if fields == [] then [] else Rendered(enc, fields[0]) + RenderedRow(enc, fields[1..])
  }

  function DropLast<T>(s: seq<T>): seq<T> {
    if s == [] then s else s[..|s| - 1]
  }

  /** The line for a row. */
  function Line(enc: Encoding, fields: seq<Field>): seq<byte> {
    DropLast(RenderedRow(enc, fields))
  }

  predicate Proper(enc: Encoding, f: Field) {
    f.Text? ==> WellFormed(enc, f.bytes)
  }

  predicate WellFormed(enc: Encoding, s: seq<byte>)
    ensures WellFormed(enc, s) <==> Valid(enc, s)
    decreases |s|
  {
    s == [] || (Width(enc, s) > 0 && WellFormed(enc, s[Width(enc, s)..]))
  }

  // Parsing.

  /** Adds text to the field being read.  Text that follows a null is dropped. */
  function Put(cur: Field, bytes: seq<byte>): Field {
    if cur.Null? then Null else Text(cur.bytes + bytes)
  }

  function Before(fields: seq<Field>, r: Result): Result {
    if r.Ok? then Ok(fields + r.fields) else r
  }

  /** The rest of a row, from the rest of its line and what has been read of the current field. */
  function Parse(enc: Encoding, line: seq<byte>, cur: Field): Result
    decreases |line|
  {
    if line == [] then Ok([cur])
    else
      var w := Width(enc, line);
      if w == 0 then Err(BadGlyph)
      else if w > 1 then Parse(enc, line[w..], Put(cur, line[..w]))
      else if line[0] == TAB then Before([cur], Parse(enc, line[1..], Text([])))
      else if line[0] != BACKSLASH then Parse(enc, line[1..], Put(cur, line[..1]))
      else if |line| == 1 then Err(EndsInBackslash)
      else if line[1] != CAPITAL_N then Parse(enc, line[2..], Put(cur, [Unescaped(line[1])]))
      else if cur != Text([]) then Err(NullInText)
      else Parse(enc, line[2..], Null)
  }

  // Round trip.

  /** A glyph, however escaped, is read back. */
  lemma GlyphBack(enc: Encoding, data: seq<byte>, rest: seq<byte>, cur: Field)
    requires data != [] && Valid(enc, data)
    ensures var g := data[..Width(enc, data)];
            g != [] && Parse(enc, EscapedGlyph(g) + rest, cur) == Parse(enc, rest, Put(cur, g))
  {
    var w := Width(enc, data);
    var g := data[..w];
    hide *;
    ValidGlyph(enc, data);
    var letter := EscapeLetter(w, g[0]);
    var line := EscapedGlyph(g) + rest;
    EscapedGlyphIs(g);
    if letter != 0 {
      LetterBack(enc, w, g[0], rest, cur);
      assert g == [g[0]];
    } else {
      OwnBytes(enc, data, line);
      assert line[..w] == g && line[w..] == rest && line[0] == g[0];
      GlyphPlain(enc, line, cur);
    }
  }

  lemma ValidGlyph(enc: Encoding, data: seq<byte>)
    requires data != [] && Valid(enc, data)
    ensures Width(enc, data) > 0 && !(enc.MULE_INTERNAL? && Width(enc, data) == 4)
  {
    ValidLocal(enc, data);
  }

  /** An escape sequence is read back. */
  lemma LetterBack(enc: Encoding, w: nat, c: byte, rest: seq<byte>, cur: Field)
    requires EscapeLetter(w, c) != 0
    ensures Parse(enc, [BACKSLASH, EscapeLetter(w, c)] + rest, cur) == Parse(enc, rest, Put(cur, [c])) && w == 1
  {
    hide Width, Put;
    var line := [BACKSLASH, EscapeLetter(w, c)] + rest;
    assert line[0] == BACKSLASH && line[1] == EscapeLetter(w, c) && line[2..] == rest;
  }

  /** A glyph that needs no escaping is read as it is. */
  lemma GlyphPlain(enc: Encoding, line: seq<byte>, cur: Field)
    requires line != [] && Width(enc, line) > 0 && EscapeLetter(Width(enc, line), line[0]) == 0
    ensures var w := Width(enc, line); Parse(enc, line, cur) == Parse(enc, line[w..], Put(cur, line[..w]))
  {
    hide Width, Put;
  }

  lemma PutTwice(cur: Field, a: seq<byte>, b: seq<byte>)
    ensures Put(Put(cur, a), b) == Put(cur, a + b) && Put(cur, []) == cur && Put(Text([]), a) == Text(a)
  {
    if cur.Text? {
      assert cur.bytes + [] == cur.bytes && cur.bytes + a + b == cur.bytes + (a + b);
    }
    assert [] + a == a;
  }

  /** Text is read back, up to where its field ends; but text after a null is dropped. */
  lemma {:induction false} TextBack(enc: Encoding, data: seq<byte>, rest: seq<byte>, cur: Field)
    requires Valid(enc, data)
    ensures Parse(enc, Escaped(enc, data) + rest, cur) == Parse(enc, rest, Put(cur, data))
    decreases |data|
  {
    hide Parse, Width, EscapedGlyph, Put;
    if data == [] {
      PutTwice(cur, [], []);
      assert Escaped(enc, data) + rest == rest;
    } else {
      var w := Width(enc, data);
      var g := data[..w];
      GlyphBack(enc, data, Escaped(enc, data[w..]) + rest, cur);
      TextBack(enc, data[w..], rest, Put(cur, g));
      PutTwice(cur, g, data[w..]);
      assert g + data[w..] == data;
      assert Escaped(enc, data) + rest == EscapedGlyph(g) + (Escaped(enc, data[w..]) + rest);
    }
  }

  /** A field and a tab are read back. */
  lemma FieldBack(enc: Encoding, f: Field, rest: seq<byte>)
    requires Proper(enc, f)
    ensures Parse(enc, Rendered(enc, f) + rest, Text([])) == Before([f], Parse(enc, rest, Text([])))
  {
    hide Parse, Escaped;
    if f.Null? {
      NullBack(enc, [TAB] + rest);
      assert Rendered(enc, f) + rest == [BACKSLASH, CAPITAL_N] + ([TAB] + rest);
    } else {
      assert Rendered(enc, f) + rest == Escaped(enc, f.bytes) + ([TAB] + rest);
      TextBack(enc, f.bytes, [TAB] + rest, Text([]));
      PutTwice(f, f.bytes, []);
    }
    TabEnds(enc, f, rest);
  }

  lemma NullBack(enc: Encoding, rest: seq<byte>)
    ensures Parse(enc, [BACKSLASH, CAPITAL_N] + rest, Text([])) == Parse(enc, rest, Null)
  {
    var line := [BACKSLASH, CAPITAL_N] + rest;
    assert line[0] == BACKSLASH && line[1] == CAPITAL_N && line[2..] == rest;
  }

  lemma TabEnds(enc: Encoding, cur: Field, rest: seq<byte>)
    ensures Parse(enc, [TAB] + rest, cur) == Before([cur], Parse(enc, rest, Text([])))
  {
    assert ([TAB] + rest)[0] == TAB && ([TAB] + rest)[1..] == rest;
  }

  /** The last field of a line is read back. */
  lemma LastFieldBack(enc: Encoding, f: Field)
    requires Proper(enc, f)
    ensures Parse(enc, DropLast(Rendered(enc, f)), Text([])) == Ok([f])
  {
    hide Parse, Escaped;
    if f.Null? {
      NullBack(enc, []);
      assert DropLast(Rendered(enc, f)) == [BACKSLASH, CAPITAL_N] + [];
    } else {
      assert DropLast(Rendered(enc, f)) == Escaped(enc, f.bytes) + [];
      TextBack(enc, f.bytes, [], Text([]));
      PutTwice(f, f.bytes, []);
    }
    LineEnds(enc, f);
  }

  lemma LineEnds(enc: Encoding, cur: Field)
    ensures Parse(enc, [], cur) == Ok([cur])
  {
  }

  /** A row of at least one field is read back from its line, in any encoding. */
  lemma {:induction false} RoundTrip(enc: Encoding, fields: seq<Field>)
    requires fields != [] && forall f :: f in fields ==> Proper(enc, f)
    ensures Parse(enc, Line(enc, fields), Text([])) == Ok(fields)
  {
    hide Parse, Escaped, Proper;
    var row := RenderedRow(enc, fields[1..]);
    assert RenderedRow(enc, fields) == Rendered(enc, fields[0]) + row;
    if |fields| == 1 {
      assert fields[1..] == [] && Rendered(enc, fields[0]) + row == Rendered(enc, fields[0]);
      assert fields == [fields[0]];
      LastFieldBack(enc, fields[0]);
    } else {
      RenderedNonempty(enc, fields[1..]);
      assert Line(enc, fields) == Rendered(enc, fields[0]) + DropLast(row);
      FieldBack(enc, fields[0], DropLast(row));
      RoundTrip(enc, fields[1..]);
      assert [fields[0]] + fields[1..] == fields;
    }
  }

  lemma RenderedNonempty(enc: Encoding, fields: seq<Field>)
    requires fields != []
    ensures RenderedRow(enc, fields) != [] && RenderedRow(enc, fields)[|RenderedRow(enc, fields)| - 1] == TAB
    decreases |fields|
  {
    if |fields| > 1 {
      RenderedNonempty(enc, fields[1..]);
    }
  }

  /** Rows of fields have different lines, except that the row without fields looks like a single
    * empty text. */
  lemma LineInjective(enc: Encoding, a: seq<Field>, b: seq<Field>)
    requires forall f :: f in a || f in b ==> Proper(enc, f)
    ensures Line(enc, a) == Line(enc, b) <==> a == b || {a, b} == {[], [Text([])]}
  {
    hide Escaped, Parse, Proper;
    if a != [] {
      RoundTrip(enc, a);
    }
    if b != [] {
      RoundTrip(enc, b);
    }
    RoundTripEmpty(enc);
  }

  lemma RoundTripEmpty(enc: Encoding)
    ensures Line(enc, []) == Line(enc, [Text([])]) == [] && Parse(enc, [], Text([])) == Ok([Text([])])
  {
  }

  /** The tabs of a line that are neither escaped nor part of a larger glyph. */
  function Tabs(enc: Encoding, line: seq<byte>): nat
    decreases |line|
  {
    if line == [] then 0
    else
      var w := Width(enc, line);
      if w != 1 then if w == 0 then 0 else Tabs(enc, line[w..])
      else if line[0] == TAB then 1 + Tabs(enc, line[1..])
      else if line[0] == BACKSLASH && |line| > 1 then Tabs(enc, line[2..])
      else Tabs(enc, line[1..])
  }

  /** There is one field more than there are such tabs. */
  lemma {:induction false} FieldCount(enc: Encoding, line: seq<byte>, cur: Field)
    ensures Parse(enc, line, cur).Ok? ==> |Parse(enc, line, cur).fields| == 1 + Tabs(enc, line)
    decreases |line|
  {
    hide *;
    if line != [] {
      var w := Width(enc, line);
      if w > 1 {
        FieldCount(enc, line[w..], Put(cur, line[..w]));
        WideStep(enc, line, cur);
      } else if w == 1 {
        NarrowStep(enc, line, cur);
        if line[0] == TAB {
          FieldCount(enc, line[1..], Text([]));
          OneMore(cur, Parse(enc, line[1..], Text([])));
        } else if line[0] != BACKSLASH {
          FieldCount(enc, line[1..], Put(cur, line[..1]));
        } else if |line| > 1 {
          FieldCount(enc, line[2..], Put(cur, [Unescaped(line[1])]));
          FieldCount(enc, line[2..], Null);
        }
      }
    }
    NoStep(enc, line, cur);
  }

  lemma WideStep(enc: Encoding, line: seq<byte>, cur: Field)
    requires line != [] && Width(enc, line) > 1
    ensures var w := Width(enc, line);
            && Parse(enc, line, cur) == Parse(enc, line[w..], Put(cur, line[..w]))
            && Tabs(enc, line) == Tabs(enc, line[w..])
  {
    hide Width;
  }

  lemma OneMore(cur: Field, r: Result)
    ensures Before([cur], r).Ok? <==> r.Ok?
    ensures r.Ok? ==> |Before([cur], r).fields| == 1 + |r.fields|
  {
  }

  lemma NoStep(enc: Encoding, line: seq<byte>, cur: Field)
    ensures line == [] ==> Parse(enc, line, cur) == Ok([cur]) && Tabs(enc, line) == 0
    ensures line != [] && Width(enc, line) == 0 ==> Parse(enc, line, cur) == Err(BadGlyph)
  {
    hide Width;
  }

  /** What the parser makes of a single-byte character, and how that counts. */
  lemma NarrowStep(enc: Encoding, line: seq<byte>, cur: Field)
    requires line != [] && Width(enc, line) == 1
    ensures line[0] == TAB ==>
              && Parse(enc, line, cur) == Before([cur], Parse(enc, line[1..], Text([])))
              && Tabs(enc, line) == 1 + Tabs(enc, line[1..])
    ensures line[0] != TAB && line[0] != BACKSLASH ==>
              && Parse(enc, line, cur) == Parse(enc, line[1..], Put(cur, line[..1]))
              && Tabs(enc, line) == Tabs(enc, line[1..])
    ensures line[0] == BACKSLASH && |line| == 1 ==> Parse(enc, line, cur) == Err(EndsInBackslash)
    ensures line[0] == BACKSLASH && |line| > 1 ==>
              && Tabs(enc, line) == Tabs(enc, line[2..])
              && Parse(enc, line, cur)
                 == if line[1] != CAPITAL_N then Parse(enc, line[2..], Put(cur, [Unescaped(line[1])]))
                    else if cur != Text([]) then Err(NullInText)
                    else Parse(enc, line[2..], Null)
  {
    hide Width, Put, Unescaped;
  }

  // What lines are made of.

  /** A control character that has no place in a line: backspace, line feed, vertical tab, form feed or
    * carriage return. */
  predicate Control(c: byte) {
    c == 8 || 10 <= c <= 13
  }

  /** Text of whole glyphs, none of them a control character. */
  ghost predicate Clean(enc: Encoding, s: seq<byte>)
    decreases |s|
  {
    s == [] || (Width(enc, s) > 0 && !Control(s[0]) && Clean(enc, s[Width(enc, s)..]))
  }

  /** At no glyph boundary of such text is there a control character; and anywhere else only in the two
    * encodings that do not check all bytes of a glyph. */
  lemma {:induction false} CleanAt(enc: Encoding, s: seq<byte>, from: nat, i: nat)
    requires from <= i < |s| && Clean(enc, s[from..]) && Control(s[i])
    ensures !Boundary(enc, s, from, i) && (enc.JOHAB? || enc.MULE_INTERNAL?)
    decreases |s| - from
  {
    hide Width, Control;
    var w := Width(enc, s[from..]);
    assert s[from..][0] == s[from] && s[from..][w..] == s[from + w..];
    if i < from + w {
      TrailBytes(enc, s[from..], i - from);
      assert s[from..][i - from] == s[i];
      if from < i {
        BoundaryBehind(enc, s, from + w, i);
      }
    } else {
      CleanAt(enc, s, from + w, i);
    }
  }

  lemma BoundaryBehind(enc: Encoding, s: seq<byte>, from: nat, i: nat)
    requires i < from
    ensures !Boundary(enc, s, from, i)
  {
  }

  /** The bytes of a larger glyph are not control characters, in all encodings but two. */
  lemma TrailBytes(enc: Encoding, s: seq<byte>, i: nat)
    requires s != [] && 0 < i < Width(enc, s)
    ensures Control(s[i]) ==> enc.JOHAB? || enc.MULE_INTERNAL?
  {
  }

  lemma AsciiClean(enc: Encoding, c: byte, rest: seq<byte>)
    requires c < 0x80 && !Control(c) && Clean(enc, rest)
    ensures Clean(enc, [c] + rest)
  {
    assert ([c] + rest)[1..] == rest;
  }

  lemma GlyphClean(enc: Encoding, g: seq<byte>, rest: seq<byte>)
    requires g != [] && Width(enc, g + rest) == |g| && Clean(enc, rest)
    requires EscapeLetter(|g|, g[0]) == 0
    ensures Clean(enc, g + rest)
  {
    hide Width;
    if g[0] < 0x80 {
      AsciiNarrow(enc, g + rest);
    }
    assert (g + rest)[|g|..] == rest && (g + rest)[0] == g[0];
  }

  lemma AsciiNarrow(enc: Encoding, s: seq<byte>)
    requires s != [] && s[0] < 0x80
    ensures Width(enc, s) == 1
  {
  }

  lemma LetterClean(enc: Encoding, w: nat, c: byte, rest: seq<byte>)
    requires EscapeLetter(w, c) != 0 && Clean(enc, rest)
    ensures Clean(enc, [BACKSLASH, EscapeLetter(w, c)] + rest)
  {
    hide Clean;
    AsciiClean(enc, EscapeLetter(w, c), rest);
    AsciiClean(enc, BACKSLASH, [EscapeLetter(w, c)] + rest);
    assert [BACKSLASH] + ([EscapeLetter(w, c)] + rest) == [BACKSLASH, EscapeLetter(w, c)] + rest;
  }

  /** A glyph that is recognised by its own bytes, escaped. */
  lemma EscapedClean(enc: Encoding, data: seq<byte>, rest: seq<byte>)
    requires data != [] && Width(enc, data) > 0 && !(enc.MULE_INTERNAL? && Width(enc, data) == 4)
    requires Clean(enc, rest)
    ensures Clean(enc, EscapedGlyph(data[..Width(enc, data)]) + rest)
  {
    hide Width, Clean, EscapeLetter;
    var g := data[..Width(enc, data)];
    if EscapeLetter(|g|, g[0]) != 0 {
      LetterClean(enc, |g|, g[0], rest);
    } else {
      OwnBytes(enc, data, g + rest);
      GlyphClean(enc, g, rest);
    }
  }

  lemma {:induction false} TextClean(enc: Encoding, data: seq<byte>, rest: seq<byte>)
    requires Valid(enc, data) && Clean(enc, rest)
    ensures Clean(enc, Escaped(enc, data) + rest)
    decreases |data|
  {
    hide Width, Clean, EscapedGlyph;
    if data == [] {
      assert Escaped(enc, data) + rest == rest;
    } else {
      var w := Width(enc, data);
      var more := Escaped(enc, data[w..]) + rest;
      TextClean(enc, data[w..], rest);
      ValidGlyph(enc, data);
      EscapedClean(enc, data, more);
      assert Escaped(enc, data) + rest == EscapedGlyph(data[..w]) + more;
    }
  }

  lemma FieldClean(enc: Encoding, f: Field, rest: seq<byte>)
    requires Proper(enc, f) && Clean(enc, rest)
    ensures Clean(enc, Rendered(enc, f) + rest)
    ensures rest == [] ==> Clean(enc, DropLast(Rendered(enc, f)))
  {
    hide Clean, Escaped;
    NothingClean(enc);
    AsciiClean(enc, TAB, rest);
    if f.Null? {
      NullClean(enc, [TAB] + rest);
      NullClean(enc, []);
      assert Rendered(enc, f) + rest == [BACKSLASH, CAPITAL_N] + ([TAB] + rest);
      assert DropLast(Rendered(enc, f)) == [BACKSLASH, CAPITAL_N] + [];
    } else {
      TextClean(enc, f.bytes, [TAB] + rest);
      TextClean(enc, f.bytes, []);
      assert Rendered(enc, f) + rest == Escaped(enc, f.bytes) + ([TAB] + rest);
      assert DropLast(Rendered(enc, f)) == Escaped(enc, f.bytes) + [];
    }
  }

  lemma NothingClean(enc: Encoding)
    ensures Clean(enc, [])
  {
  }

  lemma NullClean(enc: Encoding, rest: seq<byte>)
    requires Clean(enc, rest)
    ensures Clean(enc, [BACKSLASH, CAPITAL_N] + rest)
  {
    hide Clean;
    AsciiClean(enc, CAPITAL_N, rest);
    AsciiClean(enc, BACKSLASH, [CAPITAL_N] + rest);
    assert [BACKSLASH] + ([CAPITAL_N] + rest) == [BACKSLASH, CAPITAL_N] + rest;
  }

  lemma {:induction false} LineClean(enc: Encoding, fields: seq<Field>)
    requires fields != [] && forall f :: f in fields ==> Proper(enc, f)
    ensures Clean(enc, Line(enc, fields))
  {
    hide Clean, Escaped, Proper, Rendered;
    var row := RenderedRow(enc, fields[1..]);
    assert RenderedRow(enc, fields) == Rendered(enc, fields[0]) + row;
    if |fields| == 1 {
      assert fields[1..] == [] && Rendered(enc, fields[0]) + row == Rendered(enc, fields[0]);
      NothingClean(enc);
      FieldClean(enc, fields[0], []);
    } else {
      RenderedNonempty(enc, fields[1..]);
      assert Line(enc, fields) == Rendered(enc, fields[0]) + DropLast(row);
      LineClean(enc, fields[1..]);
      FieldClean(enc, fields[0], DropLast(row));
    }
  }

  /** The seven escapes, and how they are read.  Every other character of one byte stands for itself. */
  lemma Escapes(enc: Encoding, c: byte)
    requires c < 0x80
    ensures var pairs := map[8 := 98, 9 := 116, 10 := 110, 11 := 118, 12 := 102, 13 := 114, 92 := 92];
            && Escaped(enc, [c]) == (if c in pairs then [92, pairs[c]] else [c])
            && (c in pairs ==> Parse(enc, [92, pairs[c]], Text([])) == Ok([Text([c])]))
            && (c !in pairs ==> Parse(enc, [c], Text([])) == Ok([Text([c])]))
            && (c !in {98, 116, 110, 118, 102, 114, 78} ==> Parse(enc, [92, c], Text([])) == Ok([Text([c])]))
    ensures Parse(enc, [92, 78], Text([])) == Ok([Null])
  {
    OneGlyph(enc, c);
    assert [c][1..] == [] && [c][..1] == [c];
    var pairs: map<int, int> := map[8 := 98, 9 := 116, 10 := 110, 11 := 118, 12 := 102, 13 := 114, 92 := 92];
    if c in pairs {
      ReadEscaped(enc, pairs[c]);
    }
    ReadEscaped(enc, c);
    ReadEscaped(enc, 78);
  }

  lemma OneGlyph(enc: Encoding, c: byte)
    requires c < 0x80
    ensures Escaped(enc, [c]) == EscapedGlyph([c])
    ensures c != TAB && c != BACKSLASH ==> Parse(enc, [c], Text([])) == Ok([Text([c])])
  {
    assert [c][1..] == [] && [c][..1] == [c] && Escaped(enc, []) == [];
    assert EscapedGlyph([c]) + [] == EscapedGlyph([c]);
    PutTwice(Text([]), [c], []);
    LineEnds(enc, Text([c]));
  }

  lemma ReadEscaped(enc: Encoding, c: byte)
    requires c < 0x80
    ensures Parse(enc, [BACKSLASH, c], Text([])) == if c == CAPITAL_N then Ok([Null]) else Ok([Text([Unescaped(c)])])
  {
    assert [BACKSLASH, c][2..] == [];
    PutTwice(Text([]), [Unescaped(c)], []);
    LineEnds(enc, Text([Unescaped(c)]));
    LineEnds(enc, Null);
  }

  /** In JOHAB a line feed that is taken for half of a glyph goes out as it is. */
  lemma JohabBreaks()
    ensures Valid(JOHAB, [0x84, 10]) && Line(JOHAB, [Text([0x84, 10])]) == [0x84, 10]
  {
    var s: seq<byte> := [0x84, 10];
    assert Width(JOHAB, s) == 2 && s[2..] == [] && s[..2] == s;
    assert Escaped(JOHAB, s) == EscapedGlyph(s) + Escaped(JOHAB, s[2..]);
    assert Escaped(JOHAB, []) == [] && s + [] == s;
    assert RenderedRow(JOHAB, [Text(s)]) == Rendered(JOHAB, Text(s)) + RenderedRow(JOHAB, [Text(s)][1..]);
    assert [Text(s)][1..] == [] && (s + [TAB]) + [] == s + [TAB];
  }

  /** Every unescaped tab of a line ends a field. */
  lemma TabsEndFields(enc: Encoding, fields: seq<Field>)
    requires fields != [] && forall f :: f in fields ==> Proper(enc, f)
    ensures Tabs(enc, Line(enc, fields)) == |fields| - 1
  {
    hide *;
    RoundTrip(enc, fields);
    FieldCount(enc, Line(enc, fields), Text([]));
  }

  // What failed rows leave.

  /** How far escaping gets in copying text before it meets a malformed glyph: to the last glyph that
    * had to be escaped. */
  function Kept(enc: Encoding, data: seq<byte>): (k: nat)
    ensures k <= |data| && (k > 0 ==> Width(enc, data) > 0)
    decreases |data|
  {
    hide Width;
    if data == [] || Width(enc, data) == 0 then 0
    else
      var w := Width(enc, data);
      var k := Kept(enc, data[w..]);
      if k > 0 || EscapeLetter(w, data[0]) != 0 then w + k else 0
  }

  /** That much of the text, escaped. */
  function Flushed(enc: Encoding, data: seq<byte>): seq<byte>
    decreases |data|
  {
    hide Width;
    if Kept(enc, data) == 0 then []
    else EscapedGlyph(data[..Width(enc, data)]) + Flushed(enc, data[Width(enc, data)..])
  }

  /** What a row with a malformed field leaves in the buffer. */
  function Remains(enc: Encoding, fields: seq<Field>): seq<byte> {
    if fields == [] then []
    else if Proper(enc, fields[0]) then Rendered(enc, fields[0]) + Remains(enc, fields[1..])
    else Flushed(enc, fields[0].bytes)
  }

  /** What several such rows leave. */
  function Leftover(enc: Encoding, rows: seq<seq<Field>>): seq<byte> {
    if rows == [] then []
    else Leftover(enc, rows[..|rows| - 1]) + Remains(enc, rows[|rows| - 1])
  }

  lemma {:induction false} FlushedPrefix(enc: Encoding, data: seq<byte>)
    ensures Flushed(enc, data) <= Escaped(enc, data) && (Flushed(enc, data) == [] <==> Kept(enc, data) == 0)
    decreases |data|
  {
    hide Width;
    if Kept(enc, data) > 0 {
      FlushedPrefix(enc, data[Width(enc, data)..]);
    }
  }

  /** The fields before the first malformed one stay, and the start of that one. */
  lemma {:induction false} RemainsAt(enc: Encoding, fields: seq<Field>, i: nat)
    requires i < |fields| && (forall j :: 0 <= j < i ==> Proper(enc, fields[j])) && !Proper(enc, fields[i])
    ensures Remains(enc, fields) == RenderedRow(enc, fields[..i]) + Flushed(enc, fields[i].bytes)
    ensures Flushed(enc, fields[i].bytes) <= Escaped(enc, fields[i].bytes)
    decreases i
  {
    hide WellFormed, Rendered, Flushed, Escaped;
    FlushedPrefix(enc, fields[i].bytes);
    if i > 0 {
      RemainsAt(enc, fields[1..], i - 1);
      assert fields[..i][0] == fields[0] && fields[..i][1..] == fields[1..][..i - 1];
    }
  }

  /** Text that was flushed is read back as far as it goes. */
  lemma {:induction false} FlushedBack(enc: Encoding, data: seq<byte>, rest: seq<byte>, cur: Field)
    ensures Parse(enc, Flushed(enc, data) + rest, cur) == Parse(enc, rest, Put(cur, data[..Kept(enc, data)]))
    decreases |data|
  {
    hide *;
    var k := Kept(enc, data);
    FlushedIs(enc, data);
    if k == 0 {
      PutTwice(cur, [], []);
      assert Flushed(enc, data) + rest == rest && data[..0] == [];
    } else {
      var w := Width(enc, data);
      var g := data[..w];
      var more := Flushed(enc, data[w..]) + rest;
      FlushedBack(enc, data[w..], rest, Put(cur, g));
      PutTwice(cur, g, data[w..][..k - w]);
      assert g + data[w..][..k - w] == data[..k];
      assert Flushed(enc, data) + rest == EscapedGlyph(g) + more;
      EscapedGlyphIs(g);
      if EscapeLetter(w, g[0]) != 0 {
        LetterBack(enc, w, g[0], more, cur);
        assert g == [g[0]];
      } else {
        FollowedLocal(enc, data);
        OwnBytes(enc, data, g + more);
        assert (g + more)[..w] == g && (g + more)[w..] == more && (g + more)[0] == g[0];
        GlyphPlain(enc, g + more, cur);
      }
    }
  }

  lemma FlushedIs(enc: Encoding, data: seq<byte>)
    ensures var k := Kept(enc, data);
            if k == 0 then Flushed(enc, data) == []
            else
              var w := Width(enc, data);
              && 0 < w <= k && Flushed(enc, data) == EscapedGlyph(data[..w]) + Flushed(enc, data[w..])
              && k == w + Kept(enc, data[w..])
              && (EscapeLetter(w, data[0]) == 0 ==> w < |data| && Width(enc, data[w..]) > 0)
  {
    hide Width;
  }

  lemma {:induction false} FlushedClean(enc: Encoding, data: seq<byte>, rest: seq<byte>)
    requires Clean(enc, rest)
    ensures Clean(enc, Flushed(enc, data) + rest)
    decreases |data|
  {
    hide *;
    FlushedIs(enc, data);
    if Kept(enc, data) == 0 {
      assert Flushed(enc, data) + rest == rest;
    } else {
      var w := Width(enc, data);
      var more := Flushed(enc, data[w..]) + rest;
      FlushedClean(enc, data[w..], rest);
      KeptGlyph(enc, data);
      assert Flushed(enc, data) + rest == EscapedGlyph(data[..w]) + more;
      if EscapeLetter(w, data[0]) != 0 {
        EscapedGlyphIs(data[..w]);
        LetterClean(enc, w, data[0], more);
      } else {
        FollowedLocal(enc, data);
        EscapedClean(enc, data, more);
      }
    }
  }

  lemma KeptGlyph(enc: Encoding, data: seq<byte>)
    requires Kept(enc, data) > 0
    ensures 0 < Width(enc, data) <= |data| && data[..Width(enc, data)][0] == data[0]
  {
    hide Width;
  }

  lemma {:induction false} RemainsClean(enc: Encoding, fields: seq<Field>, rest: seq<byte>)
    requires Clean(enc, rest)
    ensures Clean(enc, Remains(enc, fields) + rest)
  {
    hide Clean, Rendered, Flushed, WellFormed;
    if fields == [] {
      assert Remains(enc, fields) + rest == rest;
    } else if Proper(enc, fields[0]) {
      RemainsClean(enc, fields[1..], rest);
      FieldClean(enc, fields[0], Remains(enc, fields[1..]) + rest);
      assert Remains(enc, fields) + rest == Rendered(enc, fields[0]) + (Remains(enc, fields[1..]) + rest);
    } else {
      FlushedClean(enc, fields[0].bytes, rest);
    }
  }

  /** Whatever rows have failed, the next line is clean. */
  lemma {:induction false} LeftoverClean(enc: Encoding, rows: seq<seq<Field>>, rest: seq<byte>)
    requires Clean(enc, rest)
    ensures Clean(enc, Leftover(enc, rows) + rest)
    decreases |rows|
  {
    hide Clean, Remains;
    if rows == [] {
      assert Leftover(enc, rows) + rest == rest;
    } else {
      var front, last := rows[..|rows| - 1], rows[|rows| - 1];
      RemainsClean(enc, last, rest);
      LeftoverClean(enc, front, Remains(enc, last) + rest);
      assert Leftover(enc, rows) + rest == Leftover(enc, front) + (Remains(enc, last) + rest);
    }
  }

  lemma NextLineClean(enc: Encoding, rows: seq<seq<Field>>, fields: seq<Field>, i: nat)
    requires fields != [] && forall f :: f in fields ==> Proper(enc, f)
    requires var line := DropLast(Leftover(enc, rows) + RenderedRow(enc, fields)); i < |line| && Control(line[i])
    ensures !Boundary(enc, DropLast(Leftover(enc, rows) + RenderedRow(enc, fields)), 0, i)
    ensures enc.JOHAB? || enc.MULE_INTERNAL?
  {
    hide Clean, Proper, Leftover, RenderedRow, Control, Boundary;
    RenderedNonempty(enc, fields);
    var line := DropLast(Leftover(enc, rows) + RenderedRow(enc, fields));
    assert line == Leftover(enc, rows) + Line(enc, fields);
    LineClean(enc, fields);
    LeftoverClean(enc, rows, Line(enc, fields));
    assert line[0..] == line;
    CleanAt(enc, line, 0, i);
  }

  /** What the reader has made of the start of a line: some fields and the text of the next one, or an
    * error. */
  datatype Carry = Carry(fields: seq<Field>, text: seq<byte>) | Unreadable

  function Resume(enc: Encoding, c: Carry, rest: seq<byte>): Result {
    if c.Unreadable? then Err(NullInText) else Before(c.fields, Parse(enc, rest, Text(c.text)))
  }

  /** A field that follows; a null behind text is an error. */
  function CarryField(c: Carry, f: Field): Carry {
    if c.Unreadable? then c
    else if f.Text? then Carry(c.fields + [Text(c.text + f.bytes)], [])
    else if c.text == [] then Carry(c.fields + [Null], [])
    else Unreadable
  }

  function CarryText(c: Carry, text: seq<byte>): Carry {
    if c.Unreadable? then c else Carry(c.fields, c.text + text)
  }

  /** What remains of a row that follows. */
  function CarryRow(enc: Encoding, c: Carry, fields: seq<Field>): Carry
    decreases |fields|
  {
    if fields == [] then c
    else if Proper(enc, fields[0]) then CarryRow(enc, CarryField(c, fields[0]), fields[1..])
    else CarryText(c, fields[0].bytes[..Kept(enc, fields[0].bytes)])
  }

  function CarryRows(enc: Encoding, rows: seq<seq<Field>>): Carry {
    if rows == [] then Carry([], [])
    else CarryRow(enc, CarryRows(enc, rows[..|rows| - 1]), rows[|rows| - 1])
  }

  lemma BeforeBefore(a: seq<Field>, b: seq<Field>, r: Result)
    ensures Before(a, Before(b, r)) == Before(a + b, r)
  {
    if r.Ok? {
      assert a + (b + r.fields) == a + b + r.fields;
    }
  }

  lemma NullRefused(enc: Encoding, t: seq<byte>, rest: seq<byte>)
    requires t != []
    ensures Parse(enc, [BACKSLASH, CAPITAL_N] + rest, Text(t)) == Err(NullInText)
  {
    var line := [BACKSLASH, CAPITAL_N] + rest;
    assert line[0] == BACKSLASH && line[1] == CAPITAL_N;
  }

  lemma FieldCarried(enc: Encoding, c: Carry, f: Field, rest: seq<byte>)
    requires Proper(enc, f)
    ensures Resume(enc, c, Rendered(enc, f) + rest) == Resume(enc, CarryField(c, f), rest)
  {
    hide Parse, Escaped, Before;
    if c.Carry? {
      var more := [TAB] + rest;
      if f.Text? {
        assert Rendered(enc, f) + rest == Escaped(enc, f.bytes) + more;
        TextBack(enc, f.bytes, more, Text(c.text));
        TabEnds(enc, Text(c.text + f.bytes), rest);
        BeforeBefore(c.fields, [Text(c.text + f.bytes)], Parse(enc, rest, Text([])));
      } else {
        assert Rendered(enc, f) + rest == [BACKSLASH, CAPITAL_N] + more;
        if c.text == [] {
          NullBack(enc, more);
          TabEnds(enc, Null, rest);
          BeforeBefore(c.fields, [Null], Parse(enc, rest, Text([])));
        } else {
          NullRefused(enc, c.text, more);
          BeforeError(c.fields, NullInText, Ok([]));
        }
      }
    }
  }

  lemma {:induction false} RowCarried(enc: Encoding, c: Carry, fields: seq<Field>, rest: seq<byte>)
    ensures Resume(enc, c, Remains(enc, fields) + rest) == Resume(enc, CarryRow(enc, c, fields), rest)
    decreases |fields|
  {
    hide Parse, Flushed, Rendered, CarryField, Kept, WellFormed;
    if fields == [] {
      assert Remains(enc, fields) + rest == rest;
    } else if Proper(enc, fields[0]) {
      var more := Remains(enc, fields[1..]) + rest;
      assert Remains(enc, fields) + rest == Rendered(enc, fields[0]) + more;
      FieldCarried(enc, c, fields[0], more);
      RowCarried(enc, CarryField(c, fields[0]), fields[1..], rest);
    } else if c.Carry? {
      FlushedBack(enc, fields[0].bytes, rest, Text(c.text));
    }
  }

  lemma {:induction false} RowsCarried(enc: Encoding, rows: seq<seq<Field>>, rest: seq<byte>)
    ensures Parse(enc, Leftover(enc, rows) + rest, Text([])) == Resume(enc, CarryRows(enc, rows), rest)
    decreases |rows|
  {
    hide Parse, Remains, CarryRow;
    if rows == [] {
      assert Leftover(enc, rows) + rest == rest;
      BeforeError([], BadGlyph, Parse(enc, rest, Text([])));
    } else {
      var front, last := rows[..|rows| - 1], rows[|rows| - 1];
      assert Leftover(enc, rows) + rest == Leftover(enc, front) + (Remains(enc, last) + rest);
      RowsCarried(enc, front, Remains(enc, last) + rest);
      RowCarried(enc, CarryRows(enc, front), last, rest);
    }
  }

  const NOTHING: Carry := Carry([], [])

  /** What has been carried is never nothing again. */
  lemma {:induction false} RowNothing(enc: Encoding, c: Carry, fields: seq<Field>)
    ensures CarryRow(enc, c, fields) == NOTHING <==> c == NOTHING && Remains(enc, fields) == []
    decreases |fields|
  {
    hide Rendered, Flushed, Kept, WellFormed;
    if fields != [] {
      if Proper(enc, fields[0]) {
        RowNothing(enc, CarryField(c, fields[0]), fields[1..]);
        RenderedSome(enc, fields[0]);
      } else {
        FlushedPrefix(enc, fields[0].bytes);
      }
    }
  }

  lemma RenderedSome(enc: Encoding, f: Field)
    ensures Rendered(enc, f) != []
  {
  }

  lemma {:induction false} RowsNothing(enc: Encoding, rows: seq<seq<Field>>)
    ensures CarryRows(enc, rows) == NOTHING <==> Leftover(enc, rows) == []
    decreases |rows|
  {
    hide Remains, CarryRow;
    if rows != [] {
      RowsNothing(enc, rows[..|rows| - 1]);
      RowNothing(enc, CarryRows(enc, rows[..|rows| - 1]), rows[|rows| - 1]);
    }
  }

  /** A row as it is read when its first field has text in front of it. */
  function Joined(text: seq<byte>, fields: seq<Field>): Result
    requires fields != []
  {
    if fields[0].Text? then Ok([Text(text + fields[0].bytes)] + fields[1..])
    else if text == [] then Ok(fields)
    else Err(NullInText)
  }

  lemma LastJoined(enc: Encoding, f: Field, text: seq<byte>)
    requires Proper(enc, f)
    ensures Parse(enc, DropLast(Rendered(enc, f)), Text(text)) == Joined(text, [f])
  {
    hide Parse, Escaped;
    if f.Text? {
      assert DropLast(Rendered(enc, f)) == Escaped(enc, f.bytes) + [];
      TextBack(enc, f.bytes, [], Text(text));
      LineEnds(enc, Text(text + f.bytes));
    } else {
      assert DropLast(Rendered(enc, f)) == [BACKSLASH, CAPITAL_N] + [];
      if text == [] {
        NullBack(enc, []);
        LineEnds(enc, Null);
      } else {
        NullRefused(enc, text, []);
      }
    }
  }

  lemma LineJoined(enc: Encoding, fields: seq<Field>, text: seq<byte>)
    requires fields != [] && forall f :: f in fields ==> Proper(enc, f)
    ensures Parse(enc, Line(enc, fields), Text(text)) == Joined(text, fields)
  {
    hide Parse, Proper, Rendered, CarryField;
    var row := RenderedRow(enc, fields[1..]);
    assert RenderedRow(enc, fields) == Rendered(enc, fields[0]) + row;
    if |fields| == 1 {
      assert fields[1..] == [] && Rendered(enc, fields[0]) + row == Rendered(enc, fields[0]);
      assert fields == [fields[0]];
      LastJoined(enc, fields[0], text);
    } else {
      RenderedNonempty(enc, fields[1..]);
      assert Line(enc, fields) == Rendered(enc, fields[0]) + DropLast(row);
      FieldCarried(enc, Carry([], text), fields[0], DropLast(row));
      RoundTrip(enc, fields[1..]);
      JoinedIs(enc, text, fields);
      BeforeError([], NullInText, Parse(enc, Rendered(enc, fields[0]) + DropLast(row), Text(text)));
    }
  }

  lemma JoinedIs(enc: Encoding, text: seq<byte>, fields: seq<Field>)
    requires fields != []
    ensures var c := CarryField(Carry([], text), fields[0]);
            if c.Unreadable? then Joined(text, fields) == Err(NullInText)
            else c.text == [] && Joined(text, fields) == Before(c.fields, Ok(fields[1..]))
  {
  }

  /** A row is read back as it is if and only if nothing was carried. */
  lemma OnlyNothing(enc: Encoding, c: Carry, fields: seq<Field>)
    requires fields != [] && forall f :: f in fields ==> Proper(enc, f)
    ensures Resume(enc, c, Line(enc, fields)) == Ok(fields) <==> c == NOTHING
  {
    hide Parse, Proper, Line;
    if c.Carry? {
      LineJoined(enc, fields, c.text);
      if fields[0].Text? {
        assert (c.text + fields[0].bytes == fields[0].bytes) <==> c.text == [];
        var r := [Text(c.text + fields[0].bytes)] + fields[1..];
        assert c.fields + r == fields ==> |c.fields| == 0;
        assert c.fields == [] ==> c.fields + r == r;
        assert r[0] == Text(c.text + fields[0].bytes) && (c.text == [] ==> r == fields);
      } else {
        assert c.fields + fields == fields <==> c.fields == [];
      }
    }
  }

  /** Whatever rows have failed: the next row is read back as exactly its own fields if and only if they
    * left nothing in the buffer. */
  lemma NextRowBack(enc: Encoding, rows: seq<seq<Field>>, fields: seq<Field>)
    requires fields != [] && forall f :: f in fields ==> Proper(enc, f)
    ensures var line := DropLast(Leftover(enc, rows) + RenderedRow(enc, fields));
            Parse(enc, line, Text([])) == Ok(fields) <==> Leftover(enc, rows) == []
  {
    hide Parse, Proper, Leftover, RenderedRow, CarryRows, Resume;
    RenderedNonempty(enc, fields);
    assert DropLast(Leftover(enc, rows) + RenderedRow(enc, fields)) == Leftover(enc, rows) + Line(enc, fields);
    RowsCarried(enc, rows, Line(enc, fields));
    OnlyNothing(enc, CarryRows(enc, rows), fields);
    RowsNothing(enc, rows);
  }

  /** A row of a and a malformed field fails; then a row of b is read as two fields. */
  lemma FieldLeft(row: seq<Field>, next: seq<Field>)
    requires row == [Text([97]), Text([0xff])] && next == [Text([98])]
    ensures !Proper(UTF8, row[1]) && Remains(UTF8, row) == [97, TAB] && Proper(UTF8, next[0])
    ensures Parse(UTF8, DropLast(Leftover(UTF8, [row]) + RenderedRow(UTF8, next)), Text([])) == Ok([row[0], next[0]])
  {
    hide *;
    RowOfTwo(row);
    LeftRow(UTF8, row);
    RowsCarried(UTF8, [row], Line(UTF8, next));
    AsciiText(98);
    RoundTrip(UTF8, next);
    RenderedNonempty(UTF8, next);
    LineIs(UTF8, next);
    DropBehind([97, TAB], RenderedRow(UTF8, next));
    ResumeFields(UTF8, [row[0]], Line(UTF8, next), next);
    assert [row[0]] + next == [row[0], next[0]];
  }

  lemma AsciiText(c: byte)
    requires c < 0x80
    ensures Proper(UTF8, Text([c]))
    ensures EscapeLetter(1, c) == 0 ==> Rendered(UTF8, Text([c])) == [c, TAB]
  {
    hide EscapeLetter, Width;
    var s: seq<byte> := [c];
    AsciiByte(c);
    assert s[1..] == [] && s[..1] == s;
    assert Escaped(UTF8, s) == EscapedGlyph(s) + Escaped(UTF8, s[1..]);
    assert EscapeLetter(1, c) == 0 ==> Escaped(UTF8, s) == [c] + [];
  }

  lemma AsciiByte(c: byte)
    requires c < 0x80
    ensures Width(UTF8, [c]) == 1
  {
  }

  lemma BadByte()
    ensures !Proper(UTF8, Text([0xff])) && Kept(UTF8, [0xff]) == 0 && Flushed(UTF8, [0xff]) == []
  {
    assert Width(UTF8, [0xff]) == 0;
  }

  lemma RowOfTwo(row: seq<Field>)
    requires row == [Text([97]), Text([0xff])]
    ensures Proper(UTF8, row[0]) && !Proper(UTF8, row[1]) && Remains(UTF8, row) == [97, TAB]
    ensures CarryRow(UTF8, NOTHING, row) == Carry([row[0]], [])
  {
    hide WellFormed, Rendered, Kept, Flushed;
    AsciiText(97);
    BadByte();
    assert row[1..] == [row[1]] && Remains(UTF8, row[1..]) == [];
    var a: seq<byte> := [97];
    assert [] + a == a && CarryField(NOTHING, row[0]) == Carry([] + [Text([] + a)], []);
  }

  lemma LeftRow(enc: Encoding, row: seq<Field>)
    ensures Leftover(enc, [row]) == Remains(enc, row) && CarryRows(enc, [row]) == CarryRow(enc, NOTHING, row)
  {
    var rows: seq<seq<Field>> := [row];
    assert rows[..0] == [];
  }

  lemma DropBehind(a: seq<byte>, b: seq<byte>)
    requires b != []
    ensures DropLast(a + b) == a + DropLast(b)
  {
  }

  lemma ResumeFields(enc: Encoding, fields: seq<Field>, line: seq<byte>, next: seq<Field>)
    requires Parse(enc, line, Text([])) == Ok(next)
    ensures Resume(enc, Carry(fields, []), line) == Ok(fields + next)
  {
    hide Parse;
  }

  class Writer {
    const enc: Encoding
    // The rendered fields of the row so far, each with a tab.
    var buffer: seq<byte>
    // The rows that have failed since the last line.
    ghost var failed: seq<seq<Field>>

    /** Between rows, the buffer has what failed rows left. */
    ghost predicate Valid()
      reads this
    {
      buffer == Leftover(enc, failed)
    }

    constructor (enc: Encoding)
      ensures this.enc == enc && buffer == [] && failed == [] && Valid()
    {
      this.enc, buffer, failed := enc, [], [];
    }

    /** Appends a text field, copying whole stretches of text that need no escaping.  Fails exactly
      * on malformed text, and then leaves what comes before it up to the last escape. */
    method EscapeFieldToBuffer(data: seq<byte>) returns (ok: bool)
      modifies this`buffer
      ensures ok == WellFormed(enc, data)
      ensures ok ==> buffer == old(buffer) + Rendered(enc, Text(data))
      ensures !ok ==> buffer == old(buffer) + Flushed(enc, data)
    {
      hide *;
      ghost var goal, left := buffer + Escaped(enc, data), buffer + Flushed(enc, data);
      if data != [] {
        var beginStretch, beginChar := 0, 0;
        Whole(data);
        FlushedAll(enc, data, buffer);
        while beginChar < |data|
          invariant 0 <= beginStretch <= beginChar <= |data|
          invariant buffer + data[beginStretch..beginChar] + Escaped(enc, data[beginChar..]) == goal
          invariant left == FlushedFrom(enc, data, beginStretch, beginChar, buffer)
          invariant WellFormed(enc, data) == WellFormed(enc, data[beginChar..])
        {
          var next := Scan(enc, data, beginChar);
          ScanStep(enc, data, beginChar);
          FlushStep(enc, data, beginStretch, beginChar, buffer);
          if next.Malformed? {
            return false;
          }
          var esc := EscapeLetter(next.pos - beginChar, data[beginChar]);
          EscapeStep(enc, data, beginStretch, beginChar, next.pos, buffer);
          if esc != 0 {
            buffer := buffer + data[beginStretch..beginChar];
            buffer := buffer + [BACKSLASH];
            buffer := buffer + [esc];
            beginStretch := next.pos;
          }
          beginChar := next.pos;
        }
        buffer := buffer + data[beginStretch..beginChar];
        Finished(enc, data);
      }
      EmptyEscaped(enc, data);
      RenderedIs(enc, data, old(buffer));
      buffer := buffer + [TAB];
      return true;
    }

    /** Appends a field, text or null. */
    method AppendToBuffer(f: Field) returns (ok: bool)
      modifies this`buffer
      ensures ok == Proper(enc, f)
      ensures ok ==> buffer == old(buffer) + Rendered(enc, f)
      ensures !ok ==> f.Text? && buffer == old(buffer) + Flushed(enc, f.bytes)
    {
      if f.Null? {
        buffer := buffer + [BACKSLASH, CAPITAL_N, TAB];
        return true;
      }
      ok := EscapeFieldToBuffer(f.bytes);
    }

    /** Appends the fields of a row, up to the first malformed one. */
    method FillBuffer(fields: seq<Field>) returns (ok: bool)
      modifies this`buffer
      ensures ok == forall f :: f in fields ==> Proper(enc, f)
      ensures ok ==> buffer == old(buffer) + RenderedRow(enc, fields)
      ensures !ok ==> buffer == old(buffer) + Remains(enc, fields)
    {
      hide *;
      var i := 0;
      assert fields[0..] == fields;
      while i < |fields|
        invariant i <= |fields|
        invariant buffer + RenderedRow(enc, fields[i..]) == old(buffer) + RenderedRow(enc, fields)
        invariant buffer + Remains(enc, fields[i..]) == old(buffer) + Remains(enc, fields)
        invariant forall j :: 0 <= j < i ==> Proper(enc, fields[j])
      {
        RowStep(enc, fields, i);
        RemainsStep(enc, fields, i);
        ghost var before := buffer;
        ok := AppendToBuffer(fields[i]);
        if !ok {
          return false;
        }
        Assoc(before, Rendered(enc, fields[i]), RenderedRow(enc, fields[i + 1..]));
        Assoc(before, Rendered(enc, fields[i]), Remains(enc, fields[i + 1..]));
        i := i + 1;
      }
      RowDone(enc, fields);
      return true;
    }

    /** Takes the row out of the buffer, without its last tab. */
    method WriteBuffer() returns (line: seq<byte>)
      requires buffer != [] ==> buffer[|buffer| - 1] == TAB
      modifies this`buffer
      ensures line == DropLast(old(buffer)) && buffer == []
    {
      if buffer != [] {
        buffer := buffer[..|buffer| - 1];
      }
      line := buffer;
      buffer := [];
    }

    /** Writes a row.  What it writes is read back as exactly its own fields if and only if no row
      * before it failed and left something.  When a field is malformed there is no line, and the fields
      * before it, and the start of it, stay in the buffer. */
    method WriteRow(fields: seq<Field>) returns (ok: bool, line: seq<byte>)
      requires Valid() && (fields == [] && buffer != [] ==> buffer[|buffer| - 1] == TAB)
      modifies this
      ensures Valid() && failed == if ok then [] else old(failed) + [fields]
      ensures ok == forall f :: f in fields ==> Proper(enc, f)
      ensures ok ==> buffer == [] && line == DropLast(old(buffer) + RenderedRow(enc, fields))
      ensures ok && fields != [] ==> (Parse(enc, line, Text([])) == Ok(fields) <==> old(buffer) == [])
      ensures !ok ==> buffer == old(buffer) + Remains(enc, fields) && line == []
      ensures ok && fields != [] ==>
                forall i :: 0 <= i < |line| && Control(line[i]) ==>
                  !Boundary(enc, line, 0, i) && (enc.JOHAB? || enc.MULE_INTERNAL?)
    {
      hide Proper, Remains, RenderedRow, Parse, Leftover, DropLast, Control, Boundary;
      NothingLeft(enc);
      ok := FillBuffer(fields);
      if !ok {
        LeftoverMore(enc, failed, fields);
        failed := failed + [fields];
        return false, [];
      }
      if fields != [] {
        RenderedNonempty(enc, fields);
        NextRowBack(enc, failed, fields);
        ghost var text := DropLast(buffer);
        forall i | 0 <= i < |text| && Control(text[i])
          ensures !Boundary(enc, text, 0, i) && (enc.JOHAB? || enc.MULE_INTERNAL?)
        {
          NextLineClean(enc, failed, fields, i);
        }
      } else {
        RowDone(enc, fields);
        assert fields[|fields|..] == fields;
      }
      line := WriteBuffer();
      failed := [];
    }
  }

  lemma NothingLeft(enc: Encoding)
    ensures Leftover(enc, []) == []
  {
  }

  lemma LeftoverMore(enc: Encoding, rows: seq<seq<Field>>, row: seq<Field>)
    ensures Leftover(enc, rows + [row]) == Leftover(enc, rows) + Remains(enc, row)
  {
    assert (rows + [row])[..|rows|] == rows;
  }

  lemma Assoc<T>(a: seq<T>, b: seq<T>, c: seq<T>)
    ensures a + (b + c) == a + b + c
  {
  }

  lemma RemainsStep(enc: Encoding, fields: seq<Field>, i: nat)
    requires i < |fields|
    ensures Remains(enc, fields[i..])
            == if Proper(enc, fields[i]) then Rendered(enc, fields[i]) + Remains(enc, fields[i + 1..])
               else Flushed(enc, fields[i].bytes)
  {
    assert fields[i..][0] == fields[i] && fields[i..][1..] == fields[i + 1..];
  }

  /** What is left in the end, if text from here on is malformed: the stretch is copied only if there is
    * something to escape behind it. */
  function FlushedFrom(enc: Encoding, data: seq<byte>, stretch: nat, i: nat, buffer: seq<byte>): seq<byte>
    requires stretch <= i <= |data|
  {
    if Kept(enc, data[i..]) > 0 then buffer + data[stretch..i] + Flushed(enc, data[i..]) else buffer
  }

  lemma FlushedAll(enc: Encoding, data: seq<byte>, buffer: seq<byte>)
    ensures FlushedFrom(enc, data, 0, 0, buffer) == buffer + Flushed(enc, data)
  {
    hide *;
    assert data[0..] == data && data[0..0] == [];
    FlushedIs(enc, data);
    FlushedFromIs(enc, data, 0, 0, buffer);
  }

  lemma FlushStep(enc: Encoding, data: seq<byte>, stretch: nat, i: nat, buffer: seq<byte>)
    requires stretch <= i < |data|
    ensures var here := FlushedFrom(enc, data, stretch, i, buffer);
            match Scan(enc, data, i)
            case NoMore => false
            case Malformed => here == buffer
            case Next(next) =>
              && i < next <= |data|
              && var letter := EscapeLetter(next - i, data[i]);
              here == if letter != 0
                      then FlushedFrom(enc, data, next, next, buffer + data[stretch..i] + [BACKSLASH] + [letter])
                      else FlushedFrom(enc, data, stretch, next, buffer)
  {
    hide *;
    Suffix(enc, data, i);
    if Scan(enc, data, i).Next? {
      var next := Scan(enc, data, i).pos;
      if EscapeLetter(next - i, data[i]) != 0 {
        FlushEscape(enc, data, stretch, i, next, buffer);
      } else {
        FlushPlain(enc, data, stretch, i, next, buffer);
      }
    } else {
      FlushedFromIs(enc, data, stretch, i, buffer);
      KeptIs(enc, data[i..]);
    }
  }

  /** What is flushed from one glyph and from the next one. */
  lemma FlushedGlyph(enc: Encoding, data: seq<byte>, i: nat, next: nat)
    requires i < next <= |data| && Scan(enc, data, i) == Next(next)
    ensures var escaped := EscapeLetter(next - i, data[i]) != 0;
            && (Kept(enc, data[i..]) > 0 <==> escaped || Kept(enc, data[next..]) > 0)
            && (Kept(enc, data[i..]) > 0 ==>
                  Flushed(enc, data[i..]) == EscapedGlyph(data[i..next]) + Flushed(enc, data[next..]))
            && (Kept(enc, data[next..]) == 0 ==> Flushed(enc, data[next..]) == [])
            && EscapedGlyph(data[i..next])
               == if escaped then [BACKSLASH, EscapeLetter(next - i, data[i])] else data[i..next]
  {
    hide *;
    Suffix(enc, data, i);
    KeptIs(enc, data[i..]);
    FlushedIs(enc, data[i..]);
    FlushedIs(enc, data[next..]);
    EscapedGlyphIs(data[i..next]);
  }

  lemma FlushEscape(enc: Encoding, data: seq<byte>, stretch: nat, i: nat, next: nat, buffer: seq<byte>)
    requires stretch <= i < next <= |data| && Scan(enc, data, i) == Next(next) && EscapeLetter(next - i, data[i]) != 0
    ensures FlushedFrom(enc, data, stretch, i, buffer)
         == FlushedFrom(enc, data, next, next,
                        buffer + data[stretch..i] + [BACKSLASH] + [EscapeLetter(next - i, data[i])])
  {
    hide *;
    var letter := EscapeLetter(next - i, data[i]);
    var before := buffer + data[stretch..i];
    FlushedGlyph(enc, data, i, next);
    FlushedFromIs(enc, data, stretch, i, buffer);
    FlushedFromIs(enc, data, next, next, before + [BACKSLASH] + [letter]);
    assert data[next..next] == [];
    EscapeJoin(before, letter, Flushed(enc, data[next..]));
  }

  lemma EscapeJoin(before: seq<byte>, letter: byte, rest: seq<byte>)
    ensures before + ([BACKSLASH, letter] + rest) == before + [BACKSLASH] + [letter] + [] + rest
    ensures rest == [] ==> before + ([BACKSLASH, letter] + rest) == before + [BACKSLASH] + [letter]
  {
  }

  lemma FlushPlain(enc: Encoding, data: seq<byte>, stretch: nat, i: nat, next: nat, buffer: seq<byte>)
    requires stretch <= i < next <= |data| && Scan(enc, data, i) == Next(next) && EscapeLetter(next - i, data[i]) == 0
    ensures FlushedFrom(enc, data, stretch, i, buffer) == FlushedFrom(enc, data, stretch, next, buffer)
  {
    hide *;
    FlushedGlyph(enc, data, i, next);
    FlushedFromIs(enc, data, stretch, i, buffer);
    FlushedFromIs(enc, data, stretch, next, buffer);
    SliceJoin(data, stretch, i, next);
    Assoc(buffer + data[stretch..i], data[i..next], Flushed(enc, data[next..]));
    Assoc(buffer, data[stretch..i], data[i..next]);
  }

  lemma SliceJoin(s: seq<byte>, a: nat, b: nat, c: nat)
    requires a <= b <= c <= |s|
    ensures s[a..b] + s[b..c] == s[a..c]
  {
  }

  lemma FlushedFromIs(enc: Encoding, data: seq<byte>, stretch: nat, i: nat, buffer: seq<byte>)
    requires stretch <= i <= |data|
    ensures FlushedFrom(enc, data, stretch, i, buffer)
            == if Kept(enc, data[i..]) > 0 then buffer + data[stretch..i] + Flushed(enc, data[i..]) else buffer
  {
  }

  lemma KeptIs(enc: Encoding, data: seq<byte>)
    requires data != []
    ensures var w := Width(enc, data);
            Kept(enc, data) == if w == 0 then 0
                               else
                                 var k := Kept(enc, data[w..]);
                                 if k > 0 || EscapeLetter(w, data[0]) != 0 then w + k else 0
  {
    hide Width;
  }

  lemma Whole(data: seq<byte>)
    ensures data[0..] == data && data[0..0] == []
  {
  }

  lemma ScanStep(enc: Encoding, data: seq<byte>, i: nat)
    requires i < |data|
    ensures !Scan(enc, data, i).NoMore?
    ensures Scan(enc, data, i).Malformed? ==> !WellFormed(enc, data[i..]) && Escaped(enc, data[i..]) == []
    ensures Scan(enc, data, i).Next? ==>
              && i < Scan(enc, data, i).pos <= |data|
              && WellFormed(enc, data[i..]) == WellFormed(enc, data[Scan(enc, data, i).pos..])
  {
    hide Width;
    var w := Width(enc, data[i..]);
    assert w > 0 ==> data[i..][w..] == data[i + w..];
  }

  /** One step of escaping: the glyph either joins the stretch, or ends it. */
  lemma EscapeStep(enc: Encoding, data: seq<byte>, stretch: nat, i: nat, next: nat, buffer: seq<byte>)
    requires stretch <= i < next <= |data| && Scan(enc, data, i) == Next(next)
    ensures var letter := EscapeLetter(next - i, data[i]);
            buffer + data[stretch..i] + Escaped(enc, data[i..])
            == if letter != 0 then
                 buffer + data[stretch..i] + [BACKSLASH] + [letter] + data[next..next] + Escaped(enc, data[next..])
               else buffer + data[stretch..next] + Escaped(enc, data[next..])
  {
    hide *;
    var glyph, rest := data[i..next], Escaped(enc, data[next..]);
    EscapedAt(enc, data, i, next);
    EscapedGlyphIs(glyph);
    if EscapeLetter(next - i, data[i]) == 0 {
      assert data[stretch..next] == data[stretch..i] + glyph;
      assert buffer + data[stretch..i] + (glyph + rest) == buffer + (data[stretch..i] + glyph) + rest;
    } else {
      var letter := EscapeLetter(next - i, data[i]);
      assert data[next..next] == [];
      assert buffer + data[stretch..i] + ([BACKSLASH, letter] + rest)
          == buffer + data[stretch..i] + [BACKSLASH] + [letter] + [] + rest;
    }
  }

  lemma EscapedAt(enc: Encoding, data: seq<byte>, i: nat, next: nat)
    requires i < next <= |data| && Scan(enc, data, i) == Next(next)
    ensures Escaped(enc, data[i..]) == EscapedGlyph(data[i..next]) + Escaped(enc, data[next..])
  {
    hide Width, EscapedGlyph;
    assert data[i..][..next - i] == data[i..next] && data[i..][next - i..] == data[next..];
  }

  lemma EscapedGlyphIs(glyph: seq<byte>)
    requires glyph != []
    ensures EscapedGlyph(glyph)
            == if EscapeLetter(|glyph|, glyph[0]) != 0 then [BACKSLASH, EscapeLetter(|glyph|, glyph[0])] else glyph
  {
  }

  lemma Finished(enc: Encoding, data: seq<byte>)
    ensures Escaped(enc, data[|data|..]) == [] && WellFormed(enc, data[|data|..])
  {
  }

  lemma EmptyEscaped(enc: Encoding, data: seq<byte>)
    ensures data == [] ==> Escaped(enc, data) == [] && WellFormed(enc, data)
  {
  }

  lemma RenderedIs(enc: Encoding, data: seq<byte>, before: seq<byte>)
    ensures before + Escaped(enc, data) + [TAB] == before + Rendered(enc, Text(data))
  {
  }

  lemma RowStep(enc: Encoding, fields: seq<Field>, i: nat)
    requires i < |fields|
    ensures RenderedRow(enc, fields[i..]) == Rendered(enc, fields[i]) + RenderedRow(enc, fields[i + 1..])
  {
    assert fields[i..][0] == fields[i] && fields[i..][1..] == fields[i + 1..];
  }

  lemma RowDone(enc: Encoding, fields: seq<Field>)
    ensures RenderedRow(enc, fields[|fields|..]) == []
  {
  }

  lemma LineIs(enc: Encoding, fields: seq<Field>)
    ensures Line(enc, fields) == DropLast(RenderedRow(enc, fields))
  {
  }

  // The reader.

  /** A field as the reader shows it: null, or a stretch of the row buffer. */
  datatype View = NullView | View(begin: nat, len: nat)

  /** What there is to read: a line, or the end of the data. */
  datatype RawLine = Raw(bytes: seq<byte>) | EndOfData

  datatype Outcome = Done | Failed(fault: Fault)

  function ValueOf(out: seq<byte>, v: View): Field {
    if v.NullView? || |out| < v.begin + v.len then Null else Text(out[v.begin..v.begin + v.len])
  }

  /** The fields that views of a buffer show. */
  function Shown(out: seq<byte>, views: seq<View>): seq<Field> {
    if views == [] then [] else Shown(out, views[..|views| - 1]) + [ValueOf(out, views[|views| - 1])]
  }

  /** The views are inside the buffer, each with a NUL behind it, in order and without overlap. */
  ghost predicate Laid(out: seq<byte>, views: seq<View>) {
    && (forall k :: 0 <= k < |views| && views[k].View? ==>
          views[k].begin + views[k].len < |out| && out[views[k].begin + views[k].len] == 0)
    && (forall j, k :: 0 <= j < k < |views| && views[j].View? && views[k].View? ==>
          views[j].begin + views[j].len < views[k].begin)
  }

  lemma {:induction false} ShownGrows(out: seq<byte>, more: seq<byte>, views: seq<View>)
    requires Laid(out, views)
    ensures Laid(out + more, views) && Shown(out + more, views) == Shown(out, views)
    decreases |views|
  {
    if views != [] {
      var v := views[|views| - 1];
      ShownGrows(out, more, views[..|views| - 1]);
      if v.View? {
        assert (out + more)[v.begin..v.begin + v.len] == out[v.begin..v.begin + v.len];
      }
    }
  }

  /** Ending a text field puts a NUL behind it. */
  lemma TextEnded(kept: seq<byte>, cur: seq<byte>, views: seq<View>)
    requires Laid(kept, views)
    ensures var out := kept + cur + [0]; var views' := views + [View(|kept|, |cur|)];
            Laid(out, views') && Shown(out, views') == Shown(kept, views) + [Text(cur)]
  {
    hide Shown;
    var out := kept + cur + [0];
    assert out == kept + (cur + [0]);
    ShownGrows(kept, cur + [0], views);
    assert out[|kept|..|kept| + |cur|] == cur;
    ShownMore(out, views, View(|kept|, |cur|));
  }

  lemma ShownMore(out: seq<byte>, views: seq<View>, v: View)
    ensures Shown(out, views + [v]) == Shown(out, views) + [ValueOf(out, v)]
  {
    assert (views + [v])[..|views|] == views;
  }

  lemma NullEnded(kept: seq<byte>, cur: seq<byte>, views: seq<View>)
    requires Laid(kept, views)
    ensures var views' := views + [NullView];
            Laid(kept + cur, views') && Shown(kept + cur, views') == Shown(kept, views) + [Null]
  {
    hide Shown;
    ShownGrows(kept, cur, views);
    ShownMore(kept + cur, views, NullView);
  }

  lemma BeforeTwice(done: seq<Field>, f: Field, r: Result)
    ensures Before(done, Before([f], r)) == Before(done + [f], r)
    ensures Before(done, Ok([f])) == Ok(done + [f])
  {
    if r.Ok? {
      assert done + ([f] + r.fields) == done + [f] + r.fields;
    }
  }

  /** The field being read, if it begins where the kept bytes end. */
  function Current(begun: bool, cur: seq<byte>): Field {
    if begun then Text(cur) else Null
  }

  lemma PutCurrent(begun: bool, cur: seq<byte>, bytes: seq<byte>)
    ensures Put(Current(begun, cur), bytes) == Current(begun, cur + bytes)
    ensures Current(true, cur) == Text(cur) && Current(false, cur) == Null
  {
  }

  lemma BeforeError(done: seq<Field>, fault: Fault, r: Result)
    ensures Before(done, Err(fault)) == Err(fault) && Before([], r) == r
  {
    if r.Ok? {
      assert [] + r.fields == r.fields;
    }
  }

  lemma Suffix(enc: Encoding, line: seq<byte>, i: nat)
    requires i < |line|
    ensures var rest := line[i..];
            && rest[0] == line[i] && rest[1..] == line[i + 1..] && rest[..1] == [line[i]]
            && (i + 1 < |line| ==> rest[1] == line[i + 1] && rest[2..] == line[i + 2..])
            && !Scan(enc, line, i).NoMore?
            && (Scan(enc, line, i).Malformed? ==> Width(enc, rest) == 0)
            && (Scan(enc, line, i).Next? ==>
                  var end := Scan(enc, line, i).pos;
                  i < end <= |line| && Width(enc, rest) == end - i && rest[end - i..] == line[end..]
                  && rest[..end - i] == line[i..end])
  {
    hide Width;
  }

  /** What is left of the line, and what has been read of the current field, still give what the
    * whole line gives. */
  ghost predicate OnTrack(enc: Encoding, line: seq<byte>, read: nat, begun: bool, cur: seq<byte>, done: seq<Field>) {
    && read <= |line|
    && Parse(enc, line, Text([])) == Before(done, Parse(enc, line[read..], Current(begun, cur)))
  }

  lemma Started(enc: Encoding, line: seq<byte>)
    ensures Laid([], []) && Shown([], []) == [] && OnTrack(enc, line, 0, true, [], [])
  {
    hide Parse;
    assert line[0..] == line;
    BeforeError([], BadGlyph, Parse(enc, line, Text([])));
  }

  lemma BadTrack(enc: Encoding, line: seq<byte>, read: nat, begun: bool, cur: seq<byte>, done: seq<Field>)
    requires OnTrack(enc, line, read, begun, cur, done) && Scan(enc, line, read).Malformed?
    ensures Parse(enc, line, Text([])) == Err(BadGlyph)
  {
    hide Parse, Width, Current;
    Suffix(enc, line, read);
    NoStep(enc, line[read..], Current(begun, cur));
  }

  lemma WideTrack(enc: Encoding, line: seq<byte>, read: nat, next: nat, begun: bool, cur: seq<byte>, done: seq<Field>)
    requires OnTrack(enc, line, read, begun, cur, done)
    requires Scan(enc, line, read) == Next(next) && read + 1 < next <= |line|
    ensures OnTrack(enc, line, next, begun, cur + line[read..next], done)
  {
    hide Parse, Width, Current, Before, Put, Scan;
    Suffix(enc, line, read);
    WideStep(enc, line[read..], Current(begun, cur));
    PutCurrent(begun, cur, line[read..next]);
  }

  lemma TabTrack(enc: Encoding, line: seq<byte>, read: nat, begun: bool, cur: seq<byte>, done: seq<Field>)
    requires OnTrack(enc, line, read, begun, cur, done) && Scan(enc, line, read) == Next(read + 1)
    requires read < |line| && line[read] == TAB
    ensures OnTrack(enc, line, read + 1, true, [], done + [Current(begun, cur)])
  {
    hide Parse, Width, Current, Before, Put, Scan;
    Suffix(enc, line, read);
    NarrowStep(enc, line[read..], Current(begun, cur));
    BeforeTwice(done, Current(begun, cur), Parse(enc, line[read + 1..], Text([])));
    PutCurrent(true, [], []);
  }

  lemma PlainTrack(enc: Encoding, line: seq<byte>, read: nat, begun: bool, cur: seq<byte>, done: seq<Field>)
    requires OnTrack(enc, line, read, begun, cur, done) && Scan(enc, line, read) == Next(read + 1)
    requires read < |line| && line[read] != TAB && line[read] != BACKSLASH
    ensures OnTrack(enc, line, read + 1, begun, cur + [line[read]], done)
  {
    hide Parse, Width, Current, Before, Put, Scan;
    Suffix(enc, line, read);
    NarrowStep(enc, line[read..], Current(begun, cur));
    PutCurrent(begun, cur, [line[read]]);
  }

  lemma EscapeTrack(enc: Encoding, line: seq<byte>, read: nat, begun: bool, cur: seq<byte>, done: seq<Field>)
    requires OnTrack(enc, line, read, begun, cur, done) && Scan(enc, line, read) == Next(read + 1)
    requires read < |line| && line[read] == BACKSLASH
    ensures read + 1 == |line| ==> Parse(enc, line, Text([])) == Err(EndsInBackslash)
    ensures read + 1 < |line| && line[read + 1] != CAPITAL_N ==>
              OnTrack(enc, line, read + 2, begun, cur + [Unescaped(line[read + 1])], done)
    ensures read + 1 < |line| && line[read + 1] == CAPITAL_N ==>
              if begun && cur == [] then OnTrack(enc, line, read + 2, false, [], done)
              else Parse(enc, line, Text([])) == Err(NullInText)
  {
    hide Parse, Width, Put, Scan, Unescaped;
    Suffix(enc, line, read);
    NarrowStep(enc, line[read..], Current(begun, cur));
    if read + 1 < |line| {
      PutCurrent(begun, cur, [Unescaped(line[read + 1])]);
    }
  }

  lemma EndTrack(enc: Encoding, line: seq<byte>, begun: bool, cur: seq<byte>, done: seq<Field>)
    requires OnTrack(enc, line, |line|, begun, cur, done)
    ensures Parse(enc, line, Text([])) == Ok(done + [Current(begun, cur)])
  {
    hide Parse, Current;
    assert line[|line|..] == [];
    LineEnds(enc, Current(begun, cur));
  }

  class Reader {
    const enc: Encoding
    var row: array<byte>
    var fields: seq<View>
    var finished: bool

    constructor (enc: Encoding)
      ensures this.enc == enc && !finished && fields == []
    {
      this.enc, row, fields, finished := enc, new byte[0], [], false;
    }

    /** Copies the bytes of a glyph. */
    method CopyGlyph(line: seq<byte>, read: nat, end: nat, write: nat)
      requires read <= end <= |line| && write + (end - read) <= row.Length
      modifies row
      ensures row[..write + (end - read)] == old(row[..write]) + line[read..end]
    {
      var i := 0;
      while i < end - read
        invariant i <= end - read
        invariant row[..write + i] == old(row[..write]) + line[read..read + i]
      {
        row[write + i] := line[read + i];
        assert line[read..read + i + 1] == line[read..read + i] + [line[read + i]];
        assert row[..write + i + 1] == row[..write + i] + [line[read + i]];
        i := i + 1;
      }
    }

    method StoreByte(c: byte, write: nat)
      requires write < row.Length
      modifies row
      ensures row[..write + 1] == old(row[..write]) + [c]
    {
      row[write] := c;
    }

    /** Ends the current field: a null, or the text from where it begins, with a NUL behind it. */
    method EndField(fieldBegin: int, write: nat, ghost kept: seq<byte>, ghost cur: seq<byte>) returns (write': nat)
      requires write == |kept| + |cur| < row.Length && row[..write] == kept + cur
      requires fieldBegin == -1 || fieldBegin == |kept|
      requires Laid(kept, fields)
      modifies row, this`fields
      ensures write <= write' <= write + 1 && write' <= row.Length
      ensures Laid(row[..write'], fields)
      ensures Shown(row[..write'], fields) == old(Shown(kept, fields)) + [Current(fieldBegin != -1, cur)]
    {
      hide *;
      PutCurrent(fieldBegin != -1, cur, []);
      if fieldBegin == -1 {
        NullEnded(kept, cur, fields);
        fields := fields + [NullView];
        return write;
      }
      TextEnded(kept, cur, fields);
      fields := fields + [View(fieldBegin, write - fieldBegin)];
      row[write] := 0;
      assert row[..write + 1] == kept + cur + [0];
      return write + 1;
    }

    /** Parses the next line into views of the row buffer, which is made just large enough for the
      * line and one more byte, and not resized while it is being filled. */
    method ParseLine(raw: RawLine) returns (r: Outcome)
      modifies this
      ensures finished == (old(finished) || raw.EndOfData?)
      ensures old(finished) ==> row == old(row) && fields == old(fields)
      ensures !finished && r.Done? ==>
                && fresh(row) && row.Length == |raw.bytes| + 1
                && Laid(row[..], fields)
                && Parse(enc, raw.bytes, Text([])) == Ok(Shown(row[..], fields))
      ensures !finished && r.Failed? ==>
                if |raw.bytes| >= SIZE_LIMIT then r.fault == LineTooLong
                else Parse(enc, raw.bytes, Text([])) == Err(r.fault)
    {
      if finished {
        return Done;
      }
      fields := [];
      if raw.EndOfData? {
        finished := true;
        return Done;
      }
      if |raw.bytes| >= SIZE_LIMIT {
        return Failed(LineTooLong);
      }
      row := new byte[|raw.bytes| + 1];
      r := Unescape(raw.bytes);
    }

    /** What a backslash and a character stand for: a null, which is an error in a nonempty field, or a
      * byte. */
    method ReadEscape(c: byte, write: nat, fieldBegin: int) returns (fits: bool, write': nat, fieldBegin': int)
      requires write < row.Length
      modifies row
      ensures c == CAPITAL_N ==> (fits <==> write == fieldBegin) && row[..] == old(row[..]) && write' == write
      ensures c == CAPITAL_N && fits ==> fieldBegin' == -1
      ensures c != CAPITAL_N ==>
                && fits && write' == write + 1 && fieldBegin' == fieldBegin
                && row[..write'] == old(row[..write]) + [Unescaped(c)]
    {
      fits, write', fieldBegin' := true, write, fieldBegin;
      if c == CAPITAL_N {
        if write != fieldBegin {
          return false, write, fieldBegin;
        }
        fieldBegin' := -1;
      } else {
        StoreByte(Unescaped(c), write);
        write' := write + 1;
      }
    }

    method Unescape(line: seq<byte>) returns (r: Outcome)
      requires row.Length == |line| + 1 && fields == []
      modifies row, this`fields
      ensures r.Done? ==> Laid(row[..], fields) && Parse(enc, line, Text([])) == Ok(Shown(row[..], fields))
      ensures r.Failed? ==> Parse(enc, line, Text([])) == Err(r.fault)
    {
      hide *;
      var read, write := 0, 0;
      // Where the current field begins in the row buffer, or -1 for a null field.
      var fieldBegin := 0;
      ghost var kept: seq<byte>, cur: seq<byte>, done: seq<Field> := [], [], [];
      Started(enc, line);
      while read < |line|
        invariant row == old(row) && write == |kept| + |cur| <= read <= |line|
        invariant row[..write] == kept + cur && (fieldBegin == -1 || fieldBegin == |kept|)
        invariant Laid(kept, fields) && Shown(kept, fields) == done
        invariant OnTrack(enc, line, read, fieldBegin != -1, cur, done)
      {
        ghost var begun := fieldBegin != -1;
        var next := Scan(enc, line, read);
        if next.Malformed? {
          BadTrack(enc, line, read, begun, cur, done);
          return Failed(BadGlyph);
        }
        if next.pos == read + 1 {
          var c := line[read];
          if c == TAB {
            TabTrack(enc, line, read, begun, cur, done);
            write := EndField(fieldBegin, write, kept, cur);
            kept, cur, done := row[..write], [], done + [Current(begun, cur)];
            fieldBegin := write;
            read := read + 1;
          } else if c == BACKSLASH {
            EscapeTrack(enc, line, read, begun, cur, done);
            read := read + 1;
            if read >= |line| {
              return Failed(EndsInBackslash);
            }
            c := line[read];
            read := read + 1;
            var fits;
            fits, write, fieldBegin := ReadEscape(c, write, fieldBegin);
            if !fits {
              return Failed(NullInText);
            }
            if c != CAPITAL_N {
              Assoc(kept, cur, [Unescaped(c)]);
              cur := cur + [Unescaped(c)];
            }
          } else {
            PlainTrack(enc, line, read, begun, cur, done);
            read := read + 1;
            StoreByte(c, write);
            write := write + 1;
            Assoc(kept, cur, [c]);
            cur := cur + [c];
          }
        } else {
          WideTrack(enc, line, read, next.pos, begun, cur, done);
          CopyGlyph(line, read, next.pos, write);
          Assoc(kept, cur, line[read..next.pos]);
          cur := cur + line[read..next.pos];
          write := write + (next.pos - read);
          read := next.pos;
        }
      }
      EndTrack(enc, line, fieldBegin != -1, cur, done);
      write := EndField(fieldBegin, write, kept, cur);
      ShownGrows(row[..write], row[write..], fields);
      assert row[..write] + row[write..] == row[..];
      return Done;
    }
  }
}

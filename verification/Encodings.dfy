/** Text encodings: scanning text glyph by glyph, and searching in it.
  *
  * Text is a sequence of bytes with a NUL behind it, so that looking just past its end finds 0.
  */
module Encodings {
  type byte = x: int | 0 <= x < 256

  datatype Encoding =
    | MONOBYTE | BIG5 | EUC_CN | EUC_JP | EUC_JIS_2004 | EUC_KR | EUC_TW | GB18030 | GBK | JOHAB
    | MULE_INTERNAL | SJIS | SHIFT_JIS_2004 | UHC | UTF8

  /** What a scanner says: the position after the glyph, that there is no text left, or an error. */
  datatype Scanned = Next(pos: nat) | NoMore | Malformed

  predicate In(b: byte, bottom: byte, top: byte) {
    bottom <= b <= top
  }

  function ByteAt(s: seq<byte>, i: nat): byte {
    if i < |s| then s[i] else 0
  }

  function JpWidth(s: seq<byte>): (w: nat)
    requires s != [] && s[0] >= 0x80
  {
    if |s| < 2 then 0
    else if s[0] == 0x8e || In(s[0], 0xa1, 0xfe) then if In(s[1], 0xa1, 0xfe) then 2 else 0
    else if s[0] == 0x8f && |s| >= 3 then if In(s[1], 0xa1, 0xfe) && In(s[2], 0xa1, 0xfe) then 3 else 0
    else 0
  }

  function SjisWidth(s: seq<byte>): (w: nat)
    requires s != [] && s[0] >= 0x80
  {
    if In(s[0], 0xa1, 0xdf) then 1
    else if !In(s[0], 0x81, 0x9f) && !In(s[0], 0xe0, 0xfc) then 0
    else if |s| < 2 || s[1] == 0x7f then 0
    else if In(s[1], 0x40, 0x9e) || In(s[1], 0x9f, 0xfc) then 2
    else 0
  }

  function TwWidth(s: seq<byte>): (w: nat)
    requires s != [] && s[0] >= 0x80
  {
    if |s| < 2 then 0
    else if In(s[0], 0xa1, 0xfe) then if In(s[1], 0xa1, 0xfe) then 2 else 0
    else if s[0] != 0x8e || |s| < 4 then 0
    else if In(s[1], 0xa1, 0xb0) && In(s[2], 0xa1, 0xfe) && In(s[3], 0xa1, 0xfe) then 4
    else 0
  }

  function Gb18030Width(s: seq<byte>): (w: nat)
    requires s != [] && s[0] >= 0x80
  {
    if s[0] == 0x80 || |s| < 2 then 0
    else if In(s[1], 0x40, 0xfe) then if s[1] == 0x7f then 0 else 2
    else if |s| < 4 then 0
    else if In(s[1], 0x30, 0x39) && In(s[2], 0x81, 0xfe) && In(s[3], 0x30, 0x39) then 4
    else 0
  }

  predicate GbkPair(a: byte, b: byte) {
    || (In(a, 0xa1, 0xa9) && In(b, 0xa1, 0xfe))
    || (In(a, 0xb0, 0xf7) && In(b, 0xa1, 0xfe))
    || (In(a, 0x81, 0xa0) && In(b, 0x40, 0xfe) && b != 0x7f)
    || (In(a, 0xaa, 0xfe) && In(b, 0x40, 0xa0) && b != 0x7f)
    || (In(a, 0xa8, 0xa9) && In(b, 0x40, 0xa0) && b != 0x7f)
    || (In(a, 0xaa, 0xaf) && In(b, 0xa1, 0xfe))
    || (In(a, 0xf8, 0xfe) && In(b, 0xa1, 0xfe))
    || (In(a, 0xa1, 0xa7) && In(b, 0x40, 0xa0) && b != 0x7f)
  }

  /** The second byte is read from the place of the first. */
  function JohabWidth(s: seq<byte>): (w: nat)
    requires s != [] && s[0] >= 0x80
  {
    var byte2 := s[0];
    if |s| < 2 then 0
    else if
      || (In(s[0], 0x84, 0xd3) && (In(byte2, 0x41, 0x7e) || In(byte2, 0x81, 0xfe)))
      || ((In(s[0], 0xd8, 0xde) || In(s[0], 0xe0, 0xf9)) && (In(byte2, 0x31, 0x7e) || In(byte2, 0x91, 0xfe)))
    then 2
    else 0
  }

  /** The last byte of four is read from the place after it. */
  function MuleWidth(s: seq<byte>): (w: nat)
    requires s != [] && s[0] >= 0x80
  {
    if |s| < 2 then 0
    else if In(s[0], 0x81, 0x8d) && s[1] >= 0xa0 then 2
    else if |s| < 3 then 0
    else if
      && (|| (s[0] == 0x9a && In(s[1], 0xa0, 0xdf))
          || (s[0] == 0x9b && In(s[1], 0xe0, 0xef))
          || (In(s[0], 0x90, 0x99) && s[1] >= 0xa0))
      && s[1] >= 0xa0
    then 3
    else if |s| < 4 then 0
    else if
      && ((s[0] == 0x9c && In(s[1], 0xf0, 0xf4)) || (s[0] == 0x9d && In(s[1], 0xf5, 0xfe)))
      && s[2] >= 0xa0 && ByteAt(s, 4) >= 0xa0
    then 4
    else 0
  }

  function UhcWidth(s: seq<byte>): (w: nat)
    requires s != [] && s[0] >= 0x80
  {
    if |s| < 2 then 0
    else if In(s[0], 0x80, 0xc6) then
      if In(s[1], 0x41, 0x5a) || In(s[1], 0x61, 0x7a) || In(s[1], 0x80, 0xfe) then 2 else 0
    else if In(s[0], 0xa1, 0xfe) then
      if In(s[1], 0xa1, 0xfe) then 2 else 0
    else 0
  }

  predicate Tail(b: byte) {
    In(b, 0x80, 0xbf)
  }

  function Utf8Width(s: seq<byte>): (w: nat)
    requires s != [] && s[0] >= 0x80
  {
    if |s| < 2 then 0
    else if In(s[0], 0xc0, 0xdf) then if Tail(s[1]) then 2 else 0
    else if |s| < 3 then 0
    else if In(s[0], 0xe0, 0xef) then if Tail(s[1]) && Tail(s[2]) then 3 else 0
    else if |s| < 4 then 0
    else if In(s[0], 0xf0, 0xf7) then if Tail(s[1]) && Tail(s[2]) && Tail(s[3]) then 4 else 0
    else 0
  }

  /** The width of the first glyph of some text, or 0 if that is malformed. */
  function Width(enc: Encoding, s: seq<byte>): (w: nat)
    requires s != []
    ensures w <= |s| && w <= 4
    ensures s[0] < 0x80 ==> w == 1
  {
    if enc.MONOBYTE? || s[0] < 0x80 then 1
    else match enc
      case MONOBYTE => 1
      case BIG5 =>
        if s[0] != 0x80 && s[0] != 0xff && |s| >= 2 && (In(s[1], 0x40, 0x7e) || In(s[1], 0xa1, 0xfe)) then 2 else 0
      case EUC_CN => if In(s[0], 0xa1, 0xf7) && |s| >= 2 && In(s[1], 0xa1, 0xfe) then 2 else 0
      case EUC_JP => JpWidth(s)
      case EUC_JIS_2004 => JpWidth(s)
      case EUC_KR => if In(s[0], 0xa1, 0xfe) && |s| >= 2 && In(s[1], 0xa1, 0xfe) then 2 else 0
      case EUC_TW => TwWidth(s)
      case GB18030 => Gb18030Width(s)
      case GBK => if |s| >= 2 && GbkPair(s[0], s[1]) then 2 else 0
      case JOHAB => JohabWidth(s)
      case MULE_INTERNAL => MuleWidth(s)
      case SJIS => SjisWidth(s)
      case SHIFT_JIS_2004 => SjisWidth(s)
      case UHC => UhcWidth(s)
      case UTF8 => Utf8Width(s)
  }

  // The glyphs of each encoding, by their bytes.

  lemma OneByte(enc: Encoding, s: seq<byte>)
    requires s != []
    ensures Width(enc, s) == 1 <==>
              || s[0] <= 0x7f || enc == MONOBYTE
              || ((enc == SJIS || enc == SHIFT_JIS_2004) && 0xa1 <= s[0] <= 0xdf)
  {
  }

  lemma TwoBytes(enc: Encoding, s: seq<byte>)
    requires |s| >= 2
    ensures Width(enc, s) == 2 <==>
              match enc
              case MONOBYTE => false
              case BIG5 => 0x81 <= s[0] <= 0xfe && (0x40 <= s[1] <= 0x7e || 0xa1 <= s[1] <= 0xfe)
              case EUC_CN => 0xa1 <= s[0] <= 0xf7 && 0xa1 <= s[1] <= 0xfe
              case EUC_JP => (s[0] == 0x8e || 0xa1 <= s[0] <= 0xfe) && 0xa1 <= s[1] <= 0xfe
              case EUC_JIS_2004 => (s[0] == 0x8e || 0xa1 <= s[0] <= 0xfe) && 0xa1 <= s[1] <= 0xfe
              case EUC_KR => 0xa1 <= s[0] <= 0xfe && 0xa1 <= s[1] <= 0xfe
              case EUC_TW => 0xa1 <= s[0] <= 0xfe && 0xa1 <= s[1] <= 0xfe
              case GB18030 => 0x81 <= s[0] && (0x40 <= s[1] <= 0x7e || 0x80 <= s[1] <= 0xfe)
              case GBK => 0x81 <= s[0] <= 0xfe && (0x40 <= s[1] <= 0x7e || 0x80 <= s[1] <= 0xfe)
              case JOHAB => 0x84 <= s[0] <= 0xd3 || 0xd8 <= s[0] <= 0xde || 0xe0 <= s[0] <= 0xf9
              case MULE_INTERNAL => 0x81 <= s[0] <= 0x8d && 0xa0 <= s[1]
              case SJIS => SjisPair(s[0], s[1])
              case SHIFT_JIS_2004 => SjisPair(s[0], s[1])
              case UHC =>
                || (0x80 <= s[0] <= 0xc6
                    && (0x41 <= s[1] <= 0x5a || 0x61 <= s[1] <= 0x7a || 0x80 <= s[1] <= 0xfe))
                || (0xc7 <= s[0] <= 0xfe && 0xa1 <= s[1] <= 0xfe)
              case UTF8 => 0xc0 <= s[0] <= 0xdf && 0x80 <= s[1] <= 0xbf
  {
  }

  predicate SjisPair(a: byte, b: byte) {
    (0x81 <= a <= 0x9f || 0xe0 <= a <= 0xfc) && (0x40 <= b <= 0x7e || 0x80 <= b <= 0xfc)
  }

  lemma ThreeBytes(enc: Encoding, s: seq<byte>)
    requires |s| >= 3
    ensures Width(enc, s) == 3 <==>
              match enc
              case EUC_JP => s[0] == 0x8f && 0xa1 <= s[1] <= 0xfe && 0xa1 <= s[2] <= 0xfe
              case EUC_JIS_2004 => s[0] == 0x8f && 0xa1 <= s[1] <= 0xfe && 0xa1 <= s[2] <= 0xfe
              case MULE_INTERNAL =>
                || (0x90 <= s[0] <= 0x99 && 0xa0 <= s[1])
                || (s[0] == 0x9a && 0xa0 <= s[1] <= 0xdf)
                || (s[0] == 0x9b && 0xe0 <= s[1] <= 0xef)
              case UTF8 => 0xe0 <= s[0] <= 0xef && 0x80 <= s[1] <= 0xbf && 0x80 <= s[2] <= 0xbf
              case _ => false
  {
  }

  lemma FourBytes(enc: Encoding, s: seq<byte>)
    requires |s| >= 4
    ensures Width(enc, s) == 4 <==>
              match enc
              case EUC_TW =>
                s[0] == 0x8e && 0xa1 <= s[1] <= 0xb0 && 0xa1 <= s[2] <= 0xfe && 0xa1 <= s[3] <= 0xfe
              case GB18030 =>
                0x81 <= s[0] && 0x30 <= s[1] <= 0x39 && 0x81 <= s[2] <= 0xfe && 0x30 <= s[3] <= 0x39
              case MULE_INTERNAL =>
                && ((s[0] == 0x9c && 0xf0 <= s[1] <= 0xf4) || (s[0] == 0x9d && 0xf5 <= s[1] <= 0xfe))
                && 0xa0 <= s[2] && |s| > 4 && 0xa0 <= s[4]
              case UTF8 =>
                0xf0 <= s[0] <= 0xf7 && 0x80 <= s[1] <= 0xbf && 0x80 <= s[2] <= 0xbf && 0x80 <= s[3] <= 0xbf
              case _ => false
  {
  }

  /** The glyph scanners. */
  function Scan(enc: Encoding, buffer: seq<byte>, start: nat): (r: Scanned)
    ensures r.NoMore? <==> start >= |buffer|
    ensures r.Next? ==> start < r.pos <= |buffer| && r.pos <= start + 4
  {
    if start >= |buffer| then NoMore
    else
      var w := Width(enc, buffer[start..]);
      if w == 0 then Malformed else Next(start + w)
  }

  /** The text is a sequence of glyphs. */
  ghost predicate Valid(enc: Encoding, s: seq<byte>)
    decreases |s|
  {
    s == [] || (Width(enc, s) > 0 && Valid(enc, s[Width(enc, s)..]))
  }

  /** Reads the bytes of the glyph only. */
  ghost predicate Local(enc: Encoding, s: seq<byte>)
    requires s != []
  {
    forall t: seq<byte> :: s[..Width(enc, s)] <= t && t != [] ==> Width(enc, t) == Width(enc, s)
  }

  lemma OwnBytes(enc: Encoding, s: seq<byte>, t: seq<byte>)
    requires s != [] && Width(enc, s) > 0 && s[..Width(enc, s)] <= t
    requires !(enc.MULE_INTERNAL? && Width(enc, s) == 4)
    ensures t != [] && Width(enc, t) == Width(enc, s)
  {
    var w := Width(enc, s);
    assert forall i :: 0 <= i < w ==> s[..w][i] == s[i] && t[i] == s[..w][i];
    assert t[0] == s[0];
    assert w > 1 ==> t[1] == s[1];
    assert w > 2 ==> t[2] == s[2];
    assert w > 3 ==> t[3] == s[3];
  }

  /** A scanned glyph is recognised by its own bytes, whatever follows, except exactly for four-byte
    * glyphs in MULE_INTERNAL: there the byte behind the glyph matters. */
  lemma LocalExcept(enc: Encoding, s: seq<byte>)
    requires s != [] && Width(enc, s) > 0
    ensures Local(enc, s) <==> !(enc.MULE_INTERNAL? && Width(enc, s) == 4)
  {
    if enc.MULE_INTERNAL? && Width(enc, s) == 4 {
      var t := s[..4];
      assert t[0] == s[0] && t[1] == s[1] && t[2] == s[2] && |t| == 4;
      assert Width(enc, t) == 0;
    } else {
      forall t: seq<byte> | s[..Width(enc, s)] <= t && t != [] ensures Width(enc, t) == Width(enc, s) {
        OwnBytes(enc, s, t);
      }
    }
  }

  /** In valid text those glyphs do not occur: the byte behind one would have to start a glyph. */
  lemma ValidLocal(enc: Encoding, s: seq<byte>)
    requires s != [] && Valid(enc, s)
    ensures !(enc.MULE_INTERNAL? && Width(enc, s) == 4)
  {
    assert Width(enc, s) < |s| ==> s[Width(enc, s)..][0] == s[Width(enc, s)];
  }

  /** Nor do they occur in front of any glyph. */
  lemma FollowedLocal(enc: Encoding, s: seq<byte>)
    requires s != [] && 0 < Width(enc, s) < |s| && Width(enc, s[Width(enc, s)..]) > 0
    ensures !(enc.MULE_INTERNAL? && Width(enc, s) == 4)
  {
    assert s[Width(enc, s)..][0] == s[Width(enc, s)];
  }

  /** The glyphs of valid text are the same if other text follows. */
  lemma GlyphInContext(enc: Encoding, s: seq<byte>, t: seq<byte>)
    requires s != [] && Valid(enc, s)
    ensures var w := Width(enc, s);
            w > 0 && Width(enc, s + t) == w && (s + t)[..w] == s[..w] && (s + t)[w..] == s[w..] + t
  {
    ValidLocal(enc, s);
    OwnBytes(enc, s, s + t);
  }

  /** Concatenation of valid text is valid. */
  lemma {:induction false} ValidConcat(enc: Encoding, s: seq<byte>, t: seq<byte>)
    requires Valid(enc, s) && Valid(enc, t)
    ensures Valid(enc, s + t)
    decreases |s|
  {
    if s == [] {
      assert s + t == t;
    } else {
      GlyphInContext(enc, s, t);
      ValidConcat(enc, s[Width(enc, s)..], t);
    }
  }

  // Section 4 of RFC 3629.

  ghost predicate Utf8Char(s: seq<byte>) {
    || (|s| == 1 && In(s[0], 0x00, 0x7f))
    || (|s| == 2 && In(s[0], 0xc2, 0xdf) && Tail(s[1]))
    || (|s| == 3
        && (|| (s[0] == 0xe0 && In(s[1], 0xa0, 0xbf))
            || (In(s[0], 0xe1, 0xec) && Tail(s[1]))
            || (s[0] == 0xed && In(s[1], 0x80, 0x9f))
            || (In(s[0], 0xee, 0xef) && Tail(s[1])))
        && Tail(s[2]))
    || (|s| == 4
        && (|| (s[0] == 0xf0 && In(s[1], 0x90, 0xbf))
            || (In(s[0], 0xf1, 0xf3) && Tail(s[1]))
            || (s[0] == 0xf4 && In(s[1], 0x80, 0x8f)))
        && Tail(s[2]) && Tail(s[3]))
  }

  /** The standard leaves out overlong forms, surrogates and what is beyond the last code point. */
  ghost predicate Utf8Excluded(s: seq<byte>) {
    || (|s| == 2 && In(s[0], 0xc0, 0xc1))
    || (|s| == 3 && ((s[0] == 0xe0 && s[1] < 0xa0) || (s[0] == 0xed && s[1] > 0x9f)))
    || (|s| == 4 && ((s[0] == 0xf0 && s[1] < 0x90) || (s[0] == 0xf4 && s[1] > 0x8f) || s[0] > 0xf4))
  }

  /** Every character of the standard is scanned as one glyph, whatever follows it. */
  lemma StandardGlyph(s: seq<byte>, t: seq<byte>)
    requires Utf8Char(s)
    ensures s + t != [] && Width(UTF8, s + t) == |s|
  {
    assert (s + t)[0] == s[0];
    assert |s| > 1 ==> (s + t)[1] == s[1];
    assert |s| > 2 ==> (s + t)[2] == s[2];
    assert |s| > 3 ==> (s + t)[3] == s[3];
  }

  /** The scanner does not check for what the standard leaves out; otherwise its glyphs are exactly
    * the characters of the standard. */
  lemma GlyphStandard(s: seq<byte>)
    requires s != [] && Width(UTF8, s) > 0
    ensures var g := s[..Width(UTF8, s)]; Utf8Char(g) <==> !Utf8Excluded(g)
  {
    var g := s[..Width(UTF8, s)];
    assert g[0] == s[0];
    assert |g| > 1 ==> g[1] == s[1];
    assert |g| > 2 ==> g[2] == s[2];
    assert |g| > 3 ==> g[3] == s[3];
  }

  // Searching.

  /** Stepping by glyphs from one position gets to another. */
  ghost predicate Boundary(enc: Encoding, s: seq<byte>, from: nat, i: nat)
    decreases |s| - from
  {
    from == i || (from < |s| && from < i && Scan(enc, s, from).Next? && Boundary(enc, s, Scan(enc, s, from).pos, i))
  }

  /** What to look for: a string, or a single-byte character. */
  datatype Goal = Bytes(needle: seq<byte>) | Char(needles: set<byte>)

  ghost predicate Hit(enc: Encoding, s: seq<byte>, goal: Goal, i: nat) {
    match goal
    case Bytes(needle) => i + |needle| <= |s| && s[i..i + |needle|] == needle
    case Char(needles) => i < |s| && s[i] in needles && Scan(enc, s, i) == Next(i + 1)
  }

  /** Whatever stepping by glyphs from one position passes, can be reached from an earlier one. */
  lemma {:induction false} BoundaryMore(enc: Encoding, s: seq<byte>, from: nat, i: nat)
    requires Boundary(enc, s, from, i) && Scan(enc, s, i).Next?
    ensures Boundary(enc, s, from, Scan(enc, s, i).pos)
    decreases |s| - from
  {
    if from == i {
      assert Boundary(enc, s, Scan(enc, s, i).pos, Scan(enc, s, i).pos);
    } else {
      BoundaryMore(enc, s, Scan(enc, s, from).pos, i);
    }
  }

  /** Between neighbouring boundaries there are none. */
  lemma {:induction false} BoundaryGap(enc: Encoding, s: seq<byte>, from: nat, i: nat, j: nat)
    requires Boundary(enc, s, from, i) && Scan(enc, s, i).Next? && i < j < Scan(enc, s, i).pos
    ensures !Boundary(enc, s, from, j)
    decreases |s| - from
  {
    if from == i {
      NoEarlier(enc, s, Scan(enc, s, i).pos, j);
    } else {
      BoundaryGap(enc, s, Scan(enc, s, from).pos, i, j);
    }
  }

  lemma NoEarlier(enc: Encoding, s: seq<byte>, from: nat, j: nat)
    requires j < from
    ensures !Boundary(enc, s, from, j)
  {
  }

  /** Where a search ends: at a position, nowhere, or at malformed text. */
  datatype Found = At(pos: nat) | Absent | Broken(where: nat)

  /** No position that stepping by glyphs reaches before an end is a hit. */
  ghost predicate Missed(enc: Encoding, s: seq<byte>, goal: Goal, start: nat, end: nat) {
    forall j :: start <= j < end && Boundary(enc, s, start, j) ==> !Hit(enc, s, goal, j)
  }

  lemma MissedMore(enc: Encoding, s: seq<byte>, goal: Goal, start: nat, here: nat)
    requires Boundary(enc, s, start, here) && Missed(enc, s, goal, start, here) && !Hit(enc, s, goal, here)
    requires Scan(enc, s, here).Next?
    ensures Missed(enc, s, goal, start, Scan(enc, s, here).pos)
    ensures Boundary(enc, s, start, Scan(enc, s, here).pos)
  {
    hide Boundary, Hit, Scan;
    BoundaryMore(enc, s, start, here);
    forall j | here < j < Scan(enc, s, here).pos ensures !Boundary(enc, s, start, j) {
      BoundaryGap(enc, s, start, here, j);
    }
  }

  /** The first hit that stepping by glyphs reaches, unless malformed text comes first. */
  ghost predicate FirstHit(enc: Encoding, s: seq<byte>, goal: Goal, start: nat, r: Found) {
    match r
    case At(pos) =>
      start <= pos && Boundary(enc, s, start, pos) && Hit(enc, s, goal, pos) && Missed(enc, s, goal, start, pos)
    case Absent => Missed(enc, s, goal, start, |s| + 1)
    case Broken(where) =>
      && start <= where && Boundary(enc, s, start, where) && Scan(enc, s, where).Malformed?
      && Missed(enc, s, goal, start, where)
  }

  /** Searches for a string, glyph by glyph. */
  method FindString(enc: Encoding, haystack: seq<byte>, needle: seq<byte>, start: nat) returns (r: Found)
    ensures FirstHit(enc, haystack, Bytes(needle), start, r)
  {
    hide Boundary, Scan;
    var here := start;
    assert Boundary(enc, haystack, start, here) by {
      BoundarySelf(enc, haystack, start);
    }
    while here + |needle| <= |haystack|
      invariant Boundary(enc, haystack, start, here) && start <= here
      invariant Missed(enc, haystack, Bytes(needle), start, here)
      decreases |haystack| - here
    {
      if haystack[here..here + |needle|] == needle {
        return At(here);
      }
      var next := Scan(enc, haystack, here);
      if next.Malformed? {
        return Broken(here);
      }
      MissedMore(enc, haystack, Bytes(needle), start, here);
      here := next.pos;
    }
    return Absent;
  }

  lemma BoundarySelf(enc: Encoding, s: seq<byte>, i: nat)
    ensures Boundary(enc, s, i, i)
  {
  }

  /** Searches for one of some single-byte characters, and returns the end of the text if there is
    * none. */
  method FindChar(enc: Encoding, haystack: seq<byte>, needles: set<byte>, start: nat) returns (r: Found)
    ensures !r.Absent?
    ensures FirstHit(enc, haystack, Char(needles), start, if r == At(|haystack|) then Absent else r)
  {
    hide Boundary, Scan;
    BoundarySelf(enc, haystack, start);
    var here := start;
    while here < |haystack|
      invariant Boundary(enc, haystack, start, here) && start <= here
      invariant Missed(enc, haystack, Char(needles), start, here)
      decreases |haystack| - here
    {
      var next := Scan(enc, haystack, here);
      if next.Malformed? {
        return Broken(here);
      }
      if haystack[here] in needles {
        if next.pos == here + 1 {
          return At(here);
        }
      }
      MissedMore(enc, haystack, Char(needles), start, here);
      here := next.pos;
    }
    return At(|haystack|);
  }

  /** A UTF-8 glyph has continuation bytes exactly after its first byte. */
  lemma Utf8Glyph(s: seq<byte>)
    requires s != [] && Width(UTF8, s) > 0
    ensures !Tail(s[0]) && forall i :: 0 < i < Width(UTF8, s) ==> Tail(s[i])
  {
  }

  /** In valid UTF-8, stepping by glyphs finds an occurrence exactly if it does not begin with a
    * continuation byte. */
  lemma {:induction false} OccursAtBoundary(s: seq<byte>, needle: seq<byte>, start: nat, j: nat)
    requires start <= |s| && Valid(UTF8, s[start..]) && needle != []
    requires start <= j && Hit(UTF8, s, Bytes(needle), j)
    ensures Boundary(UTF8, s, start, j) <==> !Tail(needle[0])
    decreases |s| - start
  {
    hide Width, Tail;
    assert s[j..j + |needle|][0] == s[j];
    var w := Width(UTF8, s[start..]);
    Utf8Glyph(s[start..]);
    if start < j < start + w {
      assert s[start..][j - start] == s[j];
      NoEarlier(UTF8, s, start + w, j);
    } else if start + w <= j {
      assert s[start..][w..] == s[start + w..];
      OccursAtBoundary(s, needle, start + w, j);
    }
  }

  /** The first occurrence, by plain byte search. */
  ghost predicate FirstOccurrence(s: seq<byte>, needle: seq<byte>, start: nat, r: Found) {
    match r
    case At(pos) =>
      && start <= pos && Hit(UTF8, s, Bytes(needle), pos)
      && forall j :: start <= j < pos ==> !Hit(UTF8, s, Bytes(needle), j)
    case Absent => forall j :: start <= j ==> !Hit(UTF8, s, Bytes(needle), j)
    case Broken(_) => false
  }

  /** In valid UTF-8, searching by glyphs for a string that does not begin with a continuation byte,
    * such as a nonempty valid one, is plain byte search. */
  lemma FinderIsPlainSearch(s: seq<byte>, needle: seq<byte>, start: nat, r: Found)
    requires start <= |s| && Valid(UTF8, s[start..]) && needle != [] && !Tail(needle[0])
    ensures FirstHit(UTF8, s, Bytes(needle), start, r) <==> FirstOccurrence(s, needle, start, r)
  {
    hide Boundary, Scan, Width, Tail;
    forall j | start <= j && Hit(UTF8, s, Bytes(needle), j) ensures Boundary(UTF8, s, start, j) {
      OccursAtBoundary(s, needle, start, j);
    }
    if r.Broken? && start <= r.where && Boundary(UTF8, s, start, r.where) {
      ValidNotBroken(s, start, r.where);
    }
  }

  /** The first of some bytes, by plain byte search. */
  ghost predicate FirstByte(s: seq<byte>, needles: set<byte>, start: nat, r: Found) {
    match r
    case At(pos) => start <= pos < |s| && s[pos] in needles && forall j :: start <= j < pos ==> s[j] !in needles
    case Absent => forall j :: start <= j < |s| ==> s[j] !in needles
    case Broken(_) => false
  }

  /** In valid UTF-8, searching by glyphs for ASCII characters is plain byte search. */
  lemma CharFinderIsPlainSearch(s: seq<byte>, needles: set<byte>, start: nat, r: Found)
    requires start <= |s| && Valid(UTF8, s[start..]) && forall c :: c in needles ==> c < 0x80
    ensures FirstHit(UTF8, s, Char(needles), start, r) <==> FirstByte(s, needles, start, r)
  {
    hide Boundary, Scan, Width;
    forall j | start <= j < |s| && s[j] in needles
      ensures Boundary(UTF8, s, start, j) && Hit(UTF8, s, Char(needles), j)
    {
      assert s[j..j + 1] == [s[j]];
      OccursAtBoundary(s, [s[j]], start, j);
      AsciiScan(s, j);
    }
    if r.Broken? && start <= r.where && Boundary(UTF8, s, start, r.where) {
      ValidNotBroken(s, start, r.where);
    }
  }

  lemma AsciiScan(s: seq<byte>, i: nat)
    requires i < |s| && s[i] < 0x80
    ensures Scan(UTF8, s, i) == Next(i + 1)
  {
  }

  /** Text that is valid from a position on has no malformed glyph beyond it. */
  lemma {:induction false} ValidNotBroken(s: seq<byte>, start: nat, i: nat)
    requires start <= |s| && Valid(UTF8, s[start..]) && start <= i && Boundary(UTF8, s, start, i)
    ensures !Scan(UTF8, s, i).Malformed?
    decreases |s| - start
  {
    hide Width;
    if start < i {
      var w := Width(UTF8, s[start..]);
      assert s[start..][w..] == s[start + w..];
      ValidNotBroken(s, start + w, i);
    }
  }
}

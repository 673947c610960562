/** Finding where a cursor's query ends, without trailing semicolons and whitespace: backwards in
  * single-byte encodings, and forwards glyph by glyph in the others. */
module QueryEnd {
  import opened Encodings
  import opened Wrappers

  const SEMICOLON: byte := 59

  /** Whitespace (in the C locale) or a semicolon. */
  predicate Useless(c: byte) {
    In(c, 9, 13) || c == 32 || c == SEMICOLON
  }

  /** Every byte from a position on is useless. */
  ghost predicate AllUseless(s: seq<byte>, from: nat) {
    forall i :: from <= i < |s| ==> Useless(s[i])
  }

  /** The least position from which on there are only useless bytes. */
  ghost predicate LeastEnd(s: seq<byte>, end: nat) {
    end <= |s| && AllUseless(s, end) && forall e :: 0 <= e < end ==> !AllUseless(s, e)
  }

  lemma LeastIf(s: seq<byte>, end: nat)
    requires end <= |s| && AllUseless(s, end)
    ensures LeastEnd(s, end) <==> (end == 0 || !Useless(s[end - 1]))
  {
    if end > 0 && Useless(s[end - 1]) {
      assert AllUseless(s, end - 1);
    }
  }

  /** A glyph that is not a useless single byte. */
  ghost predicate UsefulGlyph(enc: Encoding, s: seq<byte>, i: nat) {
    i < |s| && Scan(enc, s, i).Next? && (Scan(enc, s, i).pos > i + 1 || !Useless(s[i]))
  }

  /** The end of the last useful glyph before a position. */
  ghost predicate UsefulEnd(enc: Encoding, s: seq<byte>, end: nat, here: nat) {
    && end <= here <= |s| && Boundary(enc, s, 0, end) && Boundary(enc, s, 0, here)
    && (forall i :: end <= i < here && Boundary(enc, s, 0, i) ==> !UsefulGlyph(enc, s, i))
    && (|| end == 0
        || exists i: nat ::
             i < end && Boundary(enc, s, 0, i) && UsefulGlyph(enc, s, i) && Scan(enc, s, i) == Next(end))
  }

  /** Finds the end: by the backward scan exactly the least end; by the forward scan the end of the
    * last useful glyph, or an error exactly on malformed text. */
  method FindQueryEnd(query: seq<byte>, enc: Encoding) returns (r: Found)
    ensures !r.Absent? && (r.Broken? <==> !Valid(enc, query))
    ensures enc.MONOBYTE? ==> r.At? && LeastEnd(query, r.pos)
    ensures r.At? && !enc.MONOBYTE? ==> UsefulEnd(enc, query, r.pos, |query|)
  {
    if enc.MONOBYTE? {
      MonobyteValid(query);
      var end: nat := |query|;
      while end > 0 && Useless(query[end - 1])
        invariant end <= |query| && AllUseless(query, end)
      {
        end := end - 1;
      }
      LeastIf(query, end);
      return At(end);
    }
    hide *;
    var end, here := 0, 0;
    Start(enc, query);
    while here < |query|
      invariant UsefulEnd(enc, query, end, here) && here <= |query|
      invariant Valid(enc, query) <==> Valid(enc, query[here..])
    {
      var next := Scan(enc, query, here);
      Step(enc, query, end, here);
      if next.Malformed? {
        return Broken(here);
      }
      if next.pos - here > 1 || !Useless(query[here]) {
        end := next.pos;
      }
      here := next.pos;
    }
    AtEnd(enc, query);
    return At(end);
  }

  /** A query without what is useless at its end; or none, if it is empty, malformed, or has nothing
    * else. */
  method TrimQuery(query: seq<byte>, enc: Encoding) returns (r: Option<seq<byte>>)
    ensures r.Some? ==> r.value != [] && r.value <= query
    ensures r.Some? ==> if enc.MONOBYTE? then LeastEnd(query, |r.value|) else UsefulEnd(enc, query, |r.value|, |query|)
    ensures r.None? ==>
              || query == []
              || if enc.MONOBYTE? then AllUseless(query, 0)
                 else !Valid(enc, query) || UsefulEnd(enc, query, 0, |query|)
    ensures r.None? ==> !Valid(enc, query) || forall i :: 0 <= i < |query| ==> query[i] in [9, 10, 11, 12, 13, 32, 59]
    ensures r.Some? ==>
              && (forall i :: |r.value| <= i < |query| ==> query[i] in [9, 10, 11, 12, 13, 32, 59])
              && (enc.JOHAB? || enc.MULE_INTERNAL? || r.value[|r.value| - 1] !in [9, 10, 11, 12, 13, 32, 59])
  {
    hide UsefulEnd, LeastEnd, AllUseless, Useless, Valid;
    if query == [] {
      return None;
    }
    var end := FindQueryEnd(query, enc);
    if end.Broken? {
      return None;
    }
    CutOff(enc, query, end.pos);
    if end.pos == 0 {
      return None;
    }
    EndInside(enc, query, end.pos);
    return Some(query[..end.pos]);
  }

  lemma EndInside(enc: Encoding, s: seq<byte>, end: nat)
    ensures UsefulEnd(enc, s, end, |s|) || LeastEnd(s, end) ==> end <= |s|
  {
  }

  /** What is cut off are white space and semicolons, in bytes; and in all encodings but two they are not
    * left at the end. */
  lemma CutOff(enc: Encoding, s: seq<byte>, end: nat)
    requires Valid(enc, s) && if enc.MONOBYTE? then LeastEnd(s, end) else UsefulEnd(enc, s, end, |s|)
    ensures end <= |s| && forall i :: end <= i < |s| ==> s[i] in [9, 10, 11, 12, 13, 32, 59]
    ensures end == 0 && enc.MONOBYTE? ==> AllUseless(s, 0)
    ensures end == 0 || enc.JOHAB? || enc.MULE_INTERNAL? || s[end - 1] !in [9, 10, 11, 12, 13, 32, 59]
  {
    hide Width, Boundary, Scan, Valid;
    if !enc.MONOBYTE? {
      UselessBehind(enc, s, end);
      ForwardFindsLeast(enc, s, end);
    }
    if LeastEnd(s, end) {
      LeastIf(s, end);
    }
  }

  lemma {:induction false} MonobyteValid(s: seq<byte>)
    ensures Valid(MONOBYTE, s)
    decreases |s|
  {
    if s != [] {
      MonobyteValid(s[1..]);
    }
  }

  lemma Start(enc: Encoding, s: seq<byte>)
    ensures UsefulEnd(enc, s, 0, 0) && s[0..] == s
  {
  }

  lemma AtEnd(enc: Encoding, s: seq<byte>)
    ensures Valid(enc, s[|s|..])
  {
  }

  lemma Step(enc: Encoding, s: seq<byte>, end: nat, here: nat)
    requires UsefulEnd(enc, s, end, here) && here < |s|
    ensures !Scan(enc, s, here).NoMore?
    ensures Scan(enc, s, here).Malformed? ==> !Valid(enc, s[here..])
    ensures Scan(enc, s, here).Next? ==>
              var next := Scan(enc, s, here).pos;
              && here < next <= |s| && (Valid(enc, s[here..]) <==> Valid(enc, s[next..]))
              && UsefulEnd(enc, s, if next - here > 1 || !Useless(s[here]) then next else end, next)
  {
    hide *;
    StepValid(enc, s, here);
    if Scan(enc, s, here).Next? {
      StepUseful(enc, s, end, here, Scan(enc, s, here).pos);
    }
  }

  lemma StepValid(enc: Encoding, s: seq<byte>, here: nat)
    requires here < |s|
    ensures !Scan(enc, s, here).NoMore?
    ensures Scan(enc, s, here).Malformed? ==> !Valid(enc, s[here..])
    ensures Scan(enc, s, here).Next? ==>
              var next := Scan(enc, s, here).pos;
              here < next <= |s| && (Valid(enc, s[here..]) <==> Valid(enc, s[next..]))
  {
    hide Width;
    var w := Width(enc, s[here..]);
    assert w > 0 ==> s[here..][w..] == s[here + w..];
  }

  lemma StepUseful(enc: Encoding, s: seq<byte>, end: nat, here: nat, next: nat)
    requires UsefulEnd(enc, s, end, here) && here < next <= |s| && Scan(enc, s, here) == Next(next)
    ensures UsefulEnd(enc, s, if next - here > 1 || !Useless(s[here]) then next else end, next)
  {
    hide Width, Useless, Boundary, Scan;
    BoundaryMore(enc, s, 0, here);
    forall j | here < j < next ensures !Boundary(enc, s, 0, j) {
      BoundaryGap(enc, s, 0, here, j);
    }
    assert UsefulGlyph(enc, s, here) <==> next - here > 1 || !Useless(s[here]);
  }

  /** The last byte of a multibyte glyph is not useless, except that it is not checked in JOHAB and in
    * MULE_INTERNAL. */
  lemma LastByte(enc: Encoding, s: seq<byte>)
    requires s != [] && Width(enc, s) > 1 && !enc.JOHAB? && !enc.MULE_INTERNAL?
    ensures !Useless(s[Width(enc, s) - 1])
  {
  }

  /** Behind the last useful glyph every byte is a glyph of its own. */
  lemma {:induction false} Singles(enc: Encoding, s: seq<byte>, end: nat, i: nat)
    requires UsefulEnd(enc, s, end, |s|) && Valid(enc, s[end..]) && end <= i < |s|
    ensures Boundary(enc, s, 0, i) && Scan(enc, s, i) == Next(i + 1) && Valid(enc, s[i + 1..]) && Useless(s[i])
    decreases i
  {
    hide Width, Useless, Boundary;
    if i > end {
      Singles(enc, s, end, i - 1);
      BoundaryMore(enc, s, 0, i - 1);
    }
    assert !UsefulGlyph(enc, s, i);
    assert s[i..][1..] == s[i + 1..];
  }

  lemma {:induction false} ValidFrom(enc: Encoding, s: seq<byte>, from: nat, i: nat)
    requires from <= |s| && Valid(enc, s[from..]) && Boundary(enc, s, from, i)
    ensures i <= |s| && Valid(enc, s[i..])
    decreases |s| - from
  {
    hide Width, Scan;
    if from < i {
      StepValid(enc, s, from);
      ValidFrom(enc, s, Scan(enc, s, from).pos, i);
    }
  }

  /** The forward scan finds the least end exactly if the last useful glyph does not end with a useless
    * byte.  It never does in valid text, but in JOHAB and MULE_INTERNAL. */
  lemma ForwardFindsLeast(enc: Encoding, s: seq<byte>, end: nat)
    requires Valid(enc, s) && UsefulEnd(enc, s, end, |s|)
    ensures LeastEnd(s, end) <==> (end == 0 || !Useless(s[end - 1]))
    ensures !enc.JOHAB? && !enc.MULE_INTERNAL? ==> LeastEnd(s, end)
  {
    hide Width, Useless, Boundary, Scan;
    UselessBehind(enc, s, end);
    LeastIf(s, end);
    if end > 0 && !enc.JOHAB? && !enc.MULE_INTERNAL? {
      LastUseful(enc, s, end);
    }
  }

  lemma UselessBehind(enc: Encoding, s: seq<byte>, end: nat)
    requires Valid(enc, s) && UsefulEnd(enc, s, end, |s|)
    ensures end <= |s| && AllUseless(s, end)
  {
    hide Width, Useless, Boundary, Scan;
    assert s[0..] == s;
    ValidFrom(enc, s, 0, end);
    forall i | end <= i < |s| ensures Useless(s[i]) {
      Singles(enc, s, end, i);
    }
  }

  lemma LastUseful(enc: Encoding, s: seq<byte>, end: nat)
    requires UsefulEnd(enc, s, end, |s|) && end > 0 && !enc.JOHAB? && !enc.MULE_INTERNAL?
    ensures !Useless(s[end - 1])
  {
    hide Width, Useless, Boundary;
    var i: nat :| i < end && Boundary(enc, s, 0, i) && UsefulGlyph(enc, s, i) && Scan(enc, s, i) == Next(end);
    if end > i + 1 {
      LastByte(enc, s[i..]);
      assert s[i..][end - i - 1] == s[end - 1];
    }
  }

  lemma UselessAlone(enc: Encoding, s: seq<byte>, i: nat)
    requires i < |s| && Useless(s[i])
    ensures Scan(enc, s, i) == Next(i + 1) && !UsefulGlyph(enc, s, i)
  {
  }

  /** Useless bytes are glyphs by themselves. */
  lemma {:induction false} UselessTail(enc: Encoding, s: seq<byte>, end: nat, i: nat)
    requires AllUseless(s, end) && Boundary(enc, s, 0, end) && end <= i <= |s|
    ensures Boundary(enc, s, 0, i)
    decreases i
  {
    hide Scan, Boundary, UsefulGlyph;
    if end < i {
      UselessTail(enc, s, end, i - 1);
      UselessAlone(enc, s, i - 1);
      BoundaryMore(enc, s, 0, i - 1);
    }
  }

  /** The glyph that ends at a boundary. */
  lemma {:induction false} GlyphBefore(enc: Encoding, s: seq<byte>, from: nat, end: nat) returns (i: nat)
    requires from < end && Boundary(enc, s, from, end)
    ensures from <= i < |s| && i < end && Boundary(enc, s, from, i) && Scan(enc, s, i) == Next(end)
    decreases |s| - from
  {
    hide Width, Scan;
    var next := Scan(enc, s, from).pos;
    if next == end {
      return from;
    }
    BoundaryAhead(enc, s, next, end);
    i := GlyphBefore(enc, s, next, end);
  }

  lemma BoundaryAhead(enc: Encoding, s: seq<byte>, from: nat, i: nat)
    requires Boundary(enc, s, from, i)
    ensures from <= i
  {
  }

  /** The last useful glyph ends at the least end exactly if that does not split a glyph. */
  lemma LeastIsUseful(enc: Encoding, s: seq<byte>, e: nat)
    requires LeastEnd(s, e)
    ensures UsefulEnd(enc, s, e, |s|) <==> Boundary(enc, s, 0, e)
  {
    hide Useless, Scan, Boundary;
    if Boundary(enc, s, 0, e) {
      UselessTail(enc, s, e, |s|);
      forall i | e <= i < |s| ensures !UsefulGlyph(enc, s, i) {
        UselessAlone(enc, s, i);
      }
      if e > 0 {
        var i := GlyphBefore(enc, s, 0, e);
        LeastIf(s, e);
        assert UsefulGlyph(enc, s, i);
      }
    }
  }

  lemma UsefulAtMost(enc: Encoding, s: seq<byte>, end: nat, e: nat)
    requires UsefulEnd(enc, s, end, |s|) && UsefulEnd(enc, s, e, |s|)
    ensures e <= end
  {
    hide UsefulGlyph, Scan, Boundary;
    if end < e {
      var i: nat :| i < e && Boundary(enc, s, 0, i) && UsefulGlyph(enc, s, i) && Scan(enc, s, i) == Next(e);
      assert i < end;
      BoundaryGap(enc, s, 0, i, end);
    }
  }

  /** The forward scan finds what the backward scan finds if and only if what the backward scan finds does
    * not split a glyph. */
  lemma ScansAgree(enc: Encoding, s: seq<byte>, end: nat, e: nat)
    requires UsefulEnd(enc, s, end, |s|) && LeastEnd(s, e)
    ensures end == e <==> Boundary(enc, s, 0, e)
  {
    hide UsefulEnd, LeastEnd, Boundary;
    LeastIsUseful(enc, s, e);
    if UsefulEnd(enc, s, e, |s|) {
      UsefulAtMost(enc, s, end, e);
      UsefulAtMost(enc, s, e, end);
    }
  }

  /** In JOHAB a semicolon may be scanned as the second half of a character, and in MULE_INTERNAL as the
    * third byte of one.  Then the least end is inside it. */
  lemma JohabDiffers()
    ensures Valid(JOHAB, [0x84, 59]) && UsefulEnd(JOHAB, [0x84, 59], 2, 2)
    ensures LeastEnd([0x84, 59], 1)
  {
    var s: seq<byte> := [0x84, 59];
    assert s[0..] == s && s[2..] == [];
    assert Width(JOHAB, s) == 2 && Scan(JOHAB, s, 0) == Next(2);
    assert Boundary(JOHAB, s, 2, 2) && Boundary(JOHAB, s, 0, 0) && Boundary(JOHAB, s, 0, 2);
    assert UsefulGlyph(JOHAB, s, 0);
    LeastIf(s, 1);
  }

  lemma MuleDiffers()
    ensures Valid(MULE_INTERNAL, [0x90, 0xa0, 59]) && UsefulEnd(MULE_INTERNAL, [0x90, 0xa0, 59], 3, 3)
    ensures LeastEnd([0x90, 0xa0, 59], 2)
  {
    var s: seq<byte> := [0x90, 0xa0, 59];
    assert s[0..] == s && s[3..] == [];
    assert Width(MULE_INTERNAL, s) == 3 && Scan(MULE_INTERNAL, s, 0) == Next(3);
    assert Boundary(MULE_INTERNAL, s, 3, 3) && Boundary(MULE_INTERNAL, s, 0, 0) && Boundary(MULE_INTERNAL, s, 0, 3);
    assert UsefulGlyph(MULE_INTERNAL, s, 0);
    LeastIf(s, 2);
  }
}

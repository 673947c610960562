/** Converting integers of every width to text and back. */
module Strconv {
  import opened Encodings

  datatype Width = SHORT | USHORT | INT | UINT | LONG | ULONG

  datatype Conversion = Ok(value: int) | Err

  /** The highest value of a type. */
  function Top(t: Width): nat {
    match t
    case SHORT => 0x7fff
    case USHORT => 0xffff
    case INT => 0x7fff_ffff
    case UINT => 0xffff_ffff
    case LONG => 0x7fff_ffff_ffff_ffff
    case ULONG => 0xffff_ffff_ffff_ffff
  }

  predicate Signed(t: Width) {
    t == SHORT || t == INT || t == LONG
  }

  /** The lowest value of a type. */
  function Bottom(t: Width): int {
    if Signed(t) then -1 - Top(t) else 0
  }

  predicate Fits(t: Width, v: int) {
    Bottom(t) <= v <= Top(t)
  }

  /** The values of each type. */
  lemma Limits(t: Width, v: int)
    ensures Fits(t, v) <==>
              match t
              case SHORT => -32768 <= v <= 32767
              case USHORT => 0 <= v <= 65535
              case INT => -2147483648 <= v <= 2147483647
              case UINT => 0 <= v <= 4294967295
              case LONG => -9223372036854775808 <= v <= 9223372036854775807
              case ULONG => 0 <= v <= 18446744073709551615
  {
  }

  /** How many digits every number of that many digits has room for in the type. */
  function Digits10(t: Width): nat {
    match t
    case SHORT => 4
    case USHORT => 4
    case INT => 9
    case UINT => 9
    case LONG => 18
    case ULONG => 19
  }

  function SizeBuffer(t: Width): nat {
    (if Signed(t) then 1 else 0) + Digits10(t) + 1 + 1
  }

  const MINUS: byte := 45
  const ZERO: byte := 48

  predicate IsDigit(c: byte) {
    In(c, 48, 57)
  }

  function DigitOf(n: int): byte
    requires 0 <= n <= 9
  {
    ZERO + n
  }

  /** The decimal digits of a number. */
  function Digits(n: nat): (s: seq<byte>)
    ensures s != [] && AllDigits(s) && NumberOf(s) == n
  {
    if n < 10 then [DigitOf(n)]
    else
      NumberMore(Digits(n / 10), DigitOf(n % 10));
      Digits(n / 10) + [DigitOf(n % 10)]
  }

  predicate AllDigits(s: seq<byte>) {
    forall i :: 0 <= i < |s| ==> IsDigit(s[i])
  }

  /** The number that digits mean. */
  function NumberOf(s: seq<byte>): nat
    requires AllDigits(s)
  {
    if s == [] then 0 else 10 * NumberOf(s[..|s| - 1]) + (s[|s| - 1] - ZERO)
  }

  lemma NumberMore(s: seq<byte>, c: byte)
    requires AllDigits(s) && IsDigit(c)
    ensures AllDigits(s + [c]) && NumberOf(s + [c]) == 10 * NumberOf(s) + (c - ZERO)
  {
    assert (s + [c])[..|s|] == s;
  }

  /** Digits in front, or further digits, do not make a number less. */
  lemma {:induction false} NumberPrefix(s: seq<byte>, n: nat)
    requires AllDigits(s) && n <= |s|
    ensures NumberOf(s[..n]) <= NumberOf(s)
    decreases |s|
  {
    if n < |s| {
      NumberPrefix(s[..|s| - 1], n);
      assert s[..|s| - 1][..n] == s[..n];
    } else {
      assert s[..n] == s;
    }
  }

  function Power10(k: nat): (p: nat)
    ensures 1 <= p
  {
    if k == 0 then 1 else 10 * Power10(k - 1)
  }

  /** Numbers below a power of ten have no more digits than its exponent. */
  lemma {:induction false} DigitCount(n: nat, k: nat)
    requires 1 <= k && n < Power10(k)
    ensures |Digits(n)| <= k
    decreases k
  {
    if n >= 10 {
      assert Power10(k) == 10 * Power10(k - 1);
      DigitCount(n / 10, k - 1);
    }
  }

  lemma Room(t: Width, n: nat)
    requires n <= Top(t) || (Signed(t) && n == Top(t) + 1)
    ensures |Digits(n)| <= Digits10(t) + 1
  {
    hide Digits, Power10;
    Powers();
    DigitCount(n, Digits10(t) + 1);
  }

  lemma Powers()
    ensures Power10(4) == 10000 && Power10(5) == 100000
    ensures Power10(9) == 1000000000 && Power10(10) == 10000000000
    ensures Power10(18) == 1000000000000000000 && Power10(19) == 10000000000000000000
    ensures Power10(20) == 100000000000000000000
  {
    assert Power10(5) == 100000;
    assert Power10(10) == 100000 * 100000;
  }

  /** The text of an integer. */
  function Rendered(v: int): seq<byte> {
    if v >= 0 then Digits(v) else [MINUS] + Digits(-v)
  }

  lemma {:induction false} DigitsAtLeast(n: nat, k: nat)
    requires Power10(k) <= n
    ensures k < |Digits(n)|
  {
    if k > 0 {
      Tenth(n, k);
      DigitsAtLeast(n / 10, k - 1);
    }
  }

  lemma Tenth(n: nat, k: nat)
    requires 0 < k && Power10(k) <= n
    ensures Power10(k - 1) <= n / 10 && 10 <= n
  {
  }

  /** The buffer size claimed is exactly what the longest text of the type needs, with its NUL. */
  lemma RoomNeeded(t: Width)
    ensures |Rendered(if Signed(t) then Bottom(t) else Top(t))| + 1 == SizeBuffer(t)
  {
    hide Digits, Power10;
    var v := if Signed(t) then Top(t) + 1 else Top(t);
    Room(t, v);
    Powers();
    DigitsAtLeast(v, Digits10(t));
  }

  /** The form of the text, in bytes: digits from 48, the least of them last, and a minus that is 45. */
  lemma DecimalForm(n: nat, digit: nat)
    requires digit <= 9
    ensures Rendered(10 * n + digit) == (if n == 0 then [] else Rendered(n)) + [48 + digit]
    ensures n > 0 ==> Rendered(-1 * n) == [45] + Rendered(n)
  {
    assert (10 * n + digit) / 10 == n && (10 * n + digit) % 10 == digit;
    assert [] + [48 + digit] == [48 + digit];
  }

  /** The unsigned type of the same width. */
  function Unsigned(t: Width): Width {
    match t
    case SHORT => USHORT
    case INT => UINT
    case LONG => ULONG
    case _ => t
  }

  /** A number as the unsigned type of the same width has it. */
  function ToUnsigned(t: Width, v: int): int {
    if v < 0 then v + Top(Unsigned(t)) + 1 else v
  }

  /** The digits still to be written before the last ones. */
  function Ahead(n: nat): seq<byte> {
    if n == 0 then [] else Digits(n)
  }

  lemma LastDigit(n: nat, tail: seq<byte>)
    ensures Digits(n) + tail == Ahead(n / 10) + ([DigitOf(n % 10)] + tail)
    ensures n > 0 ==> Ahead(n) + tail == Ahead(n / 10) + ([DigitOf(n % 10)] + tail)
    ensures |Ahead(n)| >= 1 <==> n > 0
  {
    hide *;
    Unfolded(n);
    Assoc(Ahead(n / 10), [DigitOf(n % 10)], tail);
  }

  lemma Assoc<T>(a: seq<T>, b: seq<T>, c: seq<T>)
    ensures a + b + c == a + (b + c)
  {
  }

  lemma Unfolded(n: nat)
    ensures Digits(n) == Ahead(n / 10) + [DigitOf(n % 10)]
    ensures Ahead(n) == if n == 0 then [] else Digits(n)
  {
  }

  /** Writes a nonnegative number and a NUL at the end of the buffer. */
  method NonnegToBuf(t: Width, buf: array<byte>, value: nat) returns (pos: nat)
    requires Fits(t, value) && |Digits(value)| + 1 <= buf.Length
    modifies buf
    ensures pos == buf.Length - 1 - |Digits(value)| && buf[pos..] == Digits(value) + [0]
    ensures buf[..pos] == old(buf[..pos])
  {
    hide *;
    LastDigit(value, []);
    assert Digits(value) + [] == Digits(value);
    pos := buf.Length - 1;
    buf[pos] := 0;
    pos := pos - 1;
    buf[pos] := DigitOf(value % 10);
    var rest: nat := value / 10;
    ghost var tail := [DigitOf(value % 10)] + [];
    LastDigit(rest, tail);
    while rest > 0
      invariant pos + |tail| + 1 == buf.Length && |Digits(value)| == |Ahead(rest)| + |tail|
      invariant buf[pos..] == tail + [0] && buf[..pos] == old(buf[..pos])
      invariant Digits(value) == Ahead(rest) + tail
      invariant |Ahead(rest)| >= 1 <==> rest > 0
    {
      LastDigit(rest, tail);
      pos := pos - 1;
      buf[pos] := DigitOf(rest % 10);
      assert buf[pos..] == [buf[pos]] + buf[pos + 1..];
      tail := [DigitOf(rest % 10)] + tail;
      rest := rest / 10;
      LastDigit(rest, tail);
    }
  }

  method NegToBuf(t: Width, buf: array<byte>, value: nat) returns (pos: nat)
    requires Fits(t, value) && |Digits(value)| + 2 <= buf.Length
    modifies buf
    ensures pos == buf.Length - 2 - |Digits(value)| && buf[pos..] == [MINUS] + Digits(value) + [0]
    ensures buf[..pos] == old(buf[..pos])
  {
    hide *;
    pos := NonnegToBuf(t, buf, value);
    pos := pos - 1;
    buf[pos] := MINUS;
    assert buf[pos..] == [buf[pos]] + buf[pos + 1..];
  }

  /** Writes the lowest value, by way of the unsigned type. */
  method BottomToBuf(t: Width, buf: array<byte>) returns (pos: nat)
    requires Signed(t) && |Digits(-Bottom(t))| + 2 <= buf.Length
    modifies buf
    ensures pos == buf.Length - 2 - |Digits(-Bottom(t))| && buf[pos..] == Rendered(Bottom(t)) + [0]
    ensures buf[..pos] == old(buf[..pos])
  {
    var positive := ToUnsigned(t, Bottom(t));
    pos := NegToBuf(Unsigned(t), buf, positive);
  }

  /** Writes a number and a NUL at the end of the buffer, if from a position on that is large enough for
    * every number of the type. */
  method ToBuf(t: Width, buf: array<byte>, begin: nat, value: int) returns (ok: bool, pos: nat)
    requires Fits(t, value) && begin <= buf.Length
    modifies buf
    ensures ok == (buf.Length - begin >= SizeBuffer(t))
    ensures ok ==> begin <= pos <= buf.Length && buf[pos..] == Rendered(value) + [0] && buf[..pos] == old(buf[..pos])
    ensures !ok ==> buf[..] == old(buf[..])
  {
    if buf.Length - begin < SizeBuffer(t) {
      return false, 0;
    }
    Room(t, if value < 0 then -value else value);
    if !Signed(t) || value >= 0 {
      pos := NonnegToBuf(t, buf, value);
    } else if value > Bottom(t) {
      pos := NegToBuf(t, buf, -value);
    } else {
      pos := BottomToBuf(t, buf);
    }
    return true, pos;
  }

  /** Writes a number and a NUL at a position of the buffer, if from there on that is large enough. */
  method IntoBuf(t: Width, buf: array<byte>, begin: nat, value: int) returns (ok: bool, end: nat)
    requires Fits(t, value) && begin <= buf.Length
    modifies buf
    ensures ok == (buf.Length - begin >= SizeBuffer(t))
    ensures ok ==> end == begin + |Rendered(value)| + 1 <= buf.Length
    ensures ok ==> buf[..end] == old(buf[..begin]) + (Rendered(value) + [0])
  {
    hide *;
    var pos;
    ok, pos := ToBuf(t, buf, begin, value);
    if !ok {
      return false, 0;
    }
    assert buf[..begin] == buf[..pos][..begin] == old(buf[..pos])[..begin] == old(buf[..begin]);
    end := MoveDown(buf, begin, pos);
  }

  /** Moves the end of the buffer down to a position. */
  method MoveDown(buf: array<byte>, begin: nat, pos: nat) returns (end: nat)
    requires begin <= pos <= buf.Length
    modifies buf
    ensures end == begin + (buf.Length - pos)
    ensures buf[..end] == old(buf[..begin]) + old(buf[pos..])
  {
    ghost var front, text := buf[..begin], buf[pos..];
    var i := 0;
    while i < buf.Length - pos
      invariant i <= buf.Length - pos == |text|
      invariant buf[..begin + i] == front + text[..i] && buf[pos + i..] == text[i..]
    {
      assert buf[pos + i] == buf[pos + i..][0] == text[i];
      buf[begin + i] := buf[pos + i];
      assert buf[..begin + i + 1] == buf[..begin + i] + [text[i]];
      i := i + 1;
    }
    assert text[..i] == text;
    end := begin + i;
  }

  // Parsing.

  predicate IsBlank(c: byte) {
    c == 32 || c == 9
  }

  /** How many blanks there are in front. */
  function Blanks(s: seq<byte>): (n: nat)
    ensures n <= |s| && (forall i :: 0 <= i < n ==> IsBlank(s[i])) && (n < |s| ==> !IsBlank(s[n]))
  {
    if s == [] || !IsBlank(s[0]) then 0 else 1 + Blanks(s[1..])
  }

  /** Optional blanks, an optional minus if the type is signed, and digits whose value is in range. */
  predicate Acceptable(t: Width, s: seq<byte>) {
    var rest := s[Blanks(s)..];
    if rest == [] then false
    else if rest[0] == MINUS then Signed(t) && |rest| > 1 && AllDigits(rest[1..]) && Fits(t, -1 * NumberOf(rest[1..]))
    else AllDigits(rest) && Fits(t, NumberOf(rest))
  }

  /** A character in front of a digit, by the byte that it is: a tab, a blank, a digit, or a minus. */
  lemma InFront(t: Width, c: byte)
    ensures Acceptable(t, [c, 53]) <==> c == 9 || c == 32 || 48 <= c <= 57 || (c == 45 && Signed(t))
    ensures Acceptable(t, [c, 53]) ==>
              Meaning(t, [c, 53]) == if c == 45 then -5 else if c < 45 then 5 else 10 * (c - 48) + 5
  {
    hide *;
    FrontBlanks(c);
    FrontNumber(c);
    SmallFits(t, 5);
    if c == 9 || c == 32 {
      Judged(t, [c, 53], [53]);
    } else {
      Judged(t, [c, 53], [c, 53]);
      if 48 <= c <= 57 {
        SmallFits(t, 10 * (c - 48) + 5);
      }
    }
  }

  lemma Judged(t: Width, s: seq<byte>, rest: seq<byte>)
    requires rest == s[Blanks(s)..] && rest != []
    ensures rest[0] == 45 ==>
              && (Acceptable(t, s) <==>
                    Signed(t) && |rest| > 1 && AllDigits(rest[1..]) && Fits(t, -1 * NumberOf(rest[1..])))
              && (Acceptable(t, s) ==> Meaning(t, s) == -1 * NumberOf(rest[1..]))
    ensures rest[0] != 45 ==>
              && (Acceptable(t, s) <==> AllDigits(rest) && Fits(t, NumberOf(rest)))
              && (Acceptable(t, s) ==> Meaning(t, s) == NumberOf(rest))
  {
    hide Blanks, NumberOf, AllDigits, Fits;
  }

  lemma SmallFits(t: Width, n: nat)
    requires n <= 99
    ensures Fits(t, n) && (Signed(t) ==> Fits(t, -1 * n))
  {
  }

  lemma FrontBlanks(c: byte)
    ensures [c, 53][Blanks([c, 53])..] == if c == 9 || c == 32 then [53] else [c, 53]
  {
    var s: seq<byte> := [c, 53];
    assert s[1..] == [53] && s[0..] == s;
    assert Blanks([53]) == 0;
  }

  lemma FrontNumber(c: byte)
    ensures AllDigits([53]) && NumberOf([53]) == 5 && [c, 53][1..] == [53]
    ensures AllDigits([c, 53]) <==> 48 <= c <= 57
    ensures 48 <= c <= 57 ==> NumberOf([c, 53]) == 10 * (c - 48) + 5
  {
    var s: seq<byte> := [c, 53];
    assert s[0] == c && s[..1] == [c];
    if IsDigit(c) {
      assert NumberOf([c]) == c - 48;
    }
  }

  /** What text is converted to, by itself. */
  function Converted(t: Width, s: seq<byte>): Conversion {
    if Acceptable(t, s) then Ok(Meaning(t, s)) else Err
  }

  /** What such text means. */
  function Meaning(t: Width, s: seq<byte>): int
    requires Acceptable(t, s)
  {
    var rest := s[Blanks(s)..];
    if rest[0] == MINUS then -1 * NumberOf(rest[1..]) else NumberOf(rest)
  }

  /** Division that truncates towards zero. */
  function Truncated(a: int, b: nat): int
    requires b > 0
  {
    if a >= 0 then a / b else -(-a / b)
  }

  /** Ten times a number, unless that overflows. */
  function SafeMultiplyByTen(t: Width, n: int): (r: Conversion)
    requires Fits(t, n)
    ensures r == if Fits(t, 10 * n) then Ok(10 * n) else Err
  {
    if n > Top(t) / 10 then Err
    else if Signed(t) && Truncated(Bottom(t), 10) > n then Err
    else Ok(n * 10)
  }

  function SafeAddDigit(t: Width, n: int, d: int): (r: Conversion)
    requires Fits(t, n) && 0 <= d <= 9
    ensures r == if Fits(t, n + d) then Ok(n + d) else Err
  {
    if n > Top(t) - d then Err else Ok(n + d)
  }

  function SafeSubDigit(t: Width, n: int, d: int): (r: Conversion)
    requires Fits(t, n) && 0 <= d <= 9
    ensures r == if Fits(t, n - d) then Ok(n - d) else Err
  {
    if n < Bottom(t) + d then Err else Ok(n - d)
  }

  /** Takes in a digit of a nonnegative number, without overflow on the way. */
  function AbsorbDigitPositive(t: Width, n: int, d: int): (r: Conversion)
    requires Fits(t, n) && 0 <= n && 0 <= d <= 9
    ensures r == if 10 * n + d <= Top(t) then Ok(10 * n + d) else Err
  {
    var tens := SafeMultiplyByTen(t, n);
    if tens.Err? then Err else SafeAddDigit(t, tens.value, d)
  }

  /** Takes in a digit of a nonpositive number, without overflow on the way. */
  function AbsorbDigitNegative(t: Width, n: int, d: int): (r: Conversion)
    requires Fits(t, n) && n <= 0 && 0 <= d <= 9
    ensures r == if 10 * n - d >= Bottom(t) then Ok(10 * n - d) else Err
  {
    var tens := SafeMultiplyByTen(t, n);
    if tens.Err? then Err else SafeSubDigit(t, tens.value, d)
  }

  /** Where a run of digits ends. */
  function DigitsFrom(mem: seq<byte>, i: nat): (end: nat)
    requires i <= |mem|
    ensures i <= end <= |mem| && forall j :: i <= j < end ==> IsDigit(mem[j])
    ensures end < |mem| ==> !IsDigit(mem[end])
    decreases |mem| - i
  {
    if i < |mem| && IsDigit(mem[i]) then DigitsFrom(mem, i + 1) else i
  }

  /** Where the text to be converted really ends.  The digits of a number without a sign are read until
    * there are no more, even beyond the given size. */
  function Extent(mem: seq<byte>, size: nat): (end: nat)
    requires size <= |mem|
    ensures size <= end <= |mem|
    ensures var b := Blanks(mem[..size]);
            end > size <==> b < size && AllDigits(mem[b..size]) && size < |mem| && IsDigit(mem[size])
  {
    var b := Blanks(mem[..size]);
    if b < size && AllDigits(mem[b..size]) then DigitsFrom(mem, size) else size
  }

  lemma {:induction false} BlanksAre(s: seq<byte>, n: nat)
    requires n <= |s| && (forall i :: 0 <= i < n ==> IsBlank(s[i])) && (n < |s| ==> !IsBlank(s[n]))
    ensures Blanks(s) == n
  {
    if n > 0 {
      BlanksAre(s[1..], n - 1);
    }
  }

  lemma ExtendedBlanks(mem: seq<byte>, size: nat, end: nat, b: nat)
    requires b < size <= end <= |mem| && b == Blanks(mem[..size])
    ensures Blanks(mem[..end]) == b && mem[..end][b..] == mem[b..end]
  {
    assert forall i :: 0 <= i < size ==> mem[..size][i] == mem[i] == mem[..end][i];
    BlanksAre(mem[..end], b);
  }

  /** All digits up to a position, and none there. */
  lemma PositiveDone(t: Width, mem: seq<byte>, size: nat, b: nat, i: nat)
    requires size <= |mem| && b == Blanks(mem[..size]) && b < size && b < i < |mem| && !IsDigit(mem[i])
    requires AllDigits(mem[b..i]) && NumberOf(mem[b..i]) <= Top(t)
    ensures i < size ==> !Acceptable(t, mem[..Extent(mem, size)])
    ensures i >= size ==>
              var text := mem[..Extent(mem, size)];
              Extent(mem, size) == i && Acceptable(t, text) && Meaning(t, text) == NumberOf(mem[b..i])
  {
    hide Blanks, NumberOf, Top;
    var end := Extent(mem, size);
    ExtendedBlanks(mem, size, end, b);
    assert forall j :: b <= j < i ==> IsDigit(mem[b..i][j - b]) && mem[b..i][j - b] == mem[j];
    if i < size {
      assert mem[b..end][i - b] == mem[i] && mem[b..end][0] == mem[b] && mem[b..size][i - b] == mem[i];
    } else {
      assert forall j :: 0 <= j < size - b ==> mem[b..size][j] == mem[b + j];
      assert end == i;
      assert mem[b..i][0] == mem[b];
    }
  }

  lemma PositiveOver(t: Width, mem: seq<byte>, size: nat, b: nat, i: nat)
    requires size <= |mem| && b == Blanks(mem[..size]) && b < size && b <= i < |mem|
    requires AllDigits(mem[b..i + 1]) && NumberOf(mem[b..i + 1]) > Top(t)
    ensures !Acceptable(t, mem[..Extent(mem, size)])
  {
    hide Blanks, NumberOf, Top;
    var end := Extent(mem, size);
    ExtendedBlanks(mem, size, end, b);
    var rest := mem[b..end];
    assert forall j :: b <= j <= i ==> IsDigit(mem[b..i + 1][j - b]) && mem[b..i + 1][j - b] == mem[j];
    assert rest[0] == mem[b];
    if i >= size {
      assert forall j :: 0 <= j < size - b ==> mem[b..size][j] == mem[b + j];
      assert end > i;
    }
    if AllDigits(rest) {
      NumberPrefix(rest, i + 1 - b);
      assert rest[..i + 1 - b] == mem[b..i + 1];
    }
  }

  /** After a minus: all digits up to a position, and none there or the end of the text. */
  lemma NegativeDone(t: Width, mem: seq<byte>, size: nat, b: nat, i: nat)
    requires size <= |mem| && b == Blanks(mem[..size]) && b + 1 < size && mem[b] == MINUS && Signed(t)
    requires b < i <= size && (i < size ==> !IsDigit(mem[i]))
    requires AllDigits(mem[b + 1..i]) && -1 * NumberOf(mem[b + 1..i]) >= Bottom(t)
    ensures i < size ==> !Acceptable(t, mem[..Extent(mem, size)])
    ensures i == size ==>
              var text := mem[..Extent(mem, size)];
              Acceptable(t, text) && Meaning(t, text) == -1 * NumberOf(mem[b + 1..i])
  {
    hide Blanks, NumberOf, Top;
    MinusExtent(mem, size, b);
    if i < size {
      assert mem[b + 1..size][i - b - 1] == mem[i];
    }
  }

  lemma MinusExtent(mem: seq<byte>, size: nat, b: nat)
    requires size <= |mem| && b == Blanks(mem[..size]) && b < size && mem[b] == MINUS
    ensures Extent(mem, size) == size && mem[..size][b..][0] == MINUS && mem[..size][b..][1..] == mem[b + 1..size]
  {
    hide Blanks;
    assert mem[b..size][0] == mem[b] && !IsDigit(mem[b]);
  }

  lemma NegativeOver(t: Width, mem: seq<byte>, size: nat, b: nat, i: nat)
    requires size <= |mem| && b == Blanks(mem[..size]) && b + 1 <= i < size && mem[b] == MINUS
    requires AllDigits(mem[b + 1..i + 1]) && -1 * NumberOf(mem[b + 1..i + 1]) < Bottom(t)
    ensures !Acceptable(t, mem[..Extent(mem, size)])
  {
    hide Blanks, NumberOf, Top;
    MinusExtent(mem, size, b);
    var rest := mem[b + 1..size];
    if AllDigits(rest) {
      NumberPrefix(rest, i - b);
      assert rest[..i - b] == mem[b + 1..i + 1];
    }
  }

  /** Nothing, or neither a digit nor a minus that the type allows, after the blanks. */
  lemma BadStart(t: Width, mem: seq<byte>, size: nat, b: nat)
    requires size <= |mem| && b == Blanks(mem[..size])
    requires b < size ==> !IsDigit(mem[b]) && (mem[b] == MINUS && Signed(t) ==> b + 1 == size)
    ensures !Acceptable(t, mem[..Extent(mem, size)])
  {
    hide Blanks, NumberOf, Top;
    if b < size {
      assert mem[b..size][0] == mem[b];
      assert mem[..size][b..] == mem[b..size];
    }
  }

  lemma NumberStep(mem: seq<byte>, b: nat, i: nat)
    requires b <= i < |mem| && AllDigits(mem[b..i]) && IsDigit(mem[i])
    ensures AllDigits(mem[b..i + 1]) && NumberOf(mem[b..i + 1]) == 10 * NumberOf(mem[b..i]) + (mem[i] - ZERO)
  {
    assert mem[b..i + 1] == mem[b..i] + [mem[i]];
    NumberMore(mem[b..i], mem[i]);
  }

  /** Converts text to an integer: succeeds exactly if the text is acceptable, and then gives what it
    * means.  The text is the first part of some memory, in which there is something other than a digit
    * behind it; if that is not right behind it, the text may be longer than was said. */
  method FromString(t: Width, mem: seq<byte>, size: nat) returns (r: Conversion)
    requires size <= |mem| && exists k :: size <= k < |mem| && !IsDigit(mem[k])
    ensures r == Converted(t, mem[..Extent(mem, size)])
  {
    hide *;
    ConvertedIs(t, mem[..Extent(mem, size)]);
    var i := 0;
    while i < size && IsBlank(mem[i])
      invariant i <= size && forall j :: 0 <= j < i ==> IsBlank(mem[j])
    {
      i := i + 1;
    }
    assert forall j :: 0 <= j < size ==> mem[..size][j] == mem[j];
    BlanksAre(mem[..size], i);
    ghost var b := i;
    if i == size {
      BadStart(t, mem, size, b);
      return Err;
    }
    var result := 0;
    Start(t, mem, b);
    if IsDigit(mem[i]) {
      ghost var k :| size <= k < |mem| && !IsDigit(mem[k]);
      while IsDigit(mem[i])
        invariant b <= i <= k && (i == b ==> IsDigit(mem[i]))
        invariant AllDigits(mem[b..i]) && result == NumberOf(mem[b..i]) && 0 <= result && Fits(t, result)
        decreases k - i
      {
        NumberStep(mem, b, i);
        DigitRange(mem[i]);
        TopFits(t, result, mem[i] - ZERO);
        var next := AbsorbDigitPositive(t, result, mem[i] - ZERO);
        if next.Err? {
          PositiveOver(t, mem, size, b, i);
          return Err;
        }
        result := next.value;
        i := i + 1;
      }
      FitsTop(t, result);
      PositiveDone(t, mem, size, b, i);
    } else if mem[i] == MINUS {
      if !Signed(t) {
        BadStart(t, mem, size, b);
        return Err;
      }
      if i + 1 >= size {
        BadStart(t, mem, size, b);
        return Err;
      }
      r := FromNegative(t, mem, size, i);
      return;
    } else {
      BadStart(t, mem, size, b);
      return Err;
    }
    if i < size {
      return Err;
    }
    return Ok(result);
  }

  /** Converts the digits behind a minus. */
  method FromNegative(t: Width, mem: seq<byte>, size: nat, b: nat) returns (r: Conversion)
    requires size <= |mem| && b == Blanks(mem[..size]) && b + 1 < size && mem[b] == MINUS && Signed(t)
    ensures r == Converted(t, mem[..Extent(mem, size)])
  {
    hide *;
    ConvertedIs(t, mem[..Extent(mem, size)]);
    Start(t, mem, b);
    var i, result := b + 1, 0;
    while i < size && IsDigit(mem[i])
      invariant b < i <= size && AllDigits(mem[b + 1..i]) && result == -1 * NumberOf(mem[b + 1..i])
      invariant result <= 0 && Fits(t, result)
    {
      NumberStep(mem, b + 1, i);
      DigitRange(mem[i]);
      TopFits(t, result, mem[i] - ZERO);
      var next := AbsorbDigitNegative(t, result, mem[i] - ZERO);
      if next.Err? {
        NegativeOver(t, mem, size, b, i);
        return Err;
      }
      result := next.value;
      i := i + 1;
    }
    FitsTop(t, result);
    NegativeDone(t, mem, size, b, i);
    return if i < size then Err else Ok(result);
  }

  lemma Start(t: Width, mem: seq<byte>, b: nat)
    requires b < |mem|
    ensures mem[b..b] == [] && mem[b + 1..b + 1] == [] && AllDigits([]) && NumberOf([]) == 0 && Fits(t, 0)
  {
  }

  lemma DigitRange(c: byte)
    requires IsDigit(c)
    ensures 0 <= c - ZERO <= 9
  {
  }

  lemma TopFits(t: Width, n: int, d: int)
    requires Fits(t, n) && 0 <= d <= 9
    ensures n >= 0 && 10 * n + d <= Top(t) ==> Fits(t, 10 * n + d)
    ensures n <= 0 && 10 * n - d >= Bottom(t) ==> Fits(t, 10 * n - d)
  {
  }

  lemma FitsTop(t: Width, n: int)
    requires Fits(t, n)
    ensures Bottom(t) <= n <= Top(t)
  {
  }

  /** Every value of every width is what its text is converted back to. */
  lemma RoundTrip(t: Width, v: int)
    requires Fits(t, v)
    ensures Acceptable(t, Rendered(v)) && Meaning(t, Rendered(v)) == v
    ensures Extent(Rendered(v) + [0], |Rendered(v)|) == |Rendered(v)|
  {
    var text := Rendered(v);
    assert text[0] == MINUS || IsDigit(text[0]);
    BlanksAre(text, 0);
    assert text[0..] == text;
    if v < 0 {
      assert text[1..] == Digits(-v);
    }
  }

  /** The text alone would have been converted to something else if and only if a digit follows its
    * digits, the number fits, and not all of the digits are zeros. */
  lemma ExtentMatters(t: Width, mem: seq<byte>, size: nat)
    requires size <= |mem|
    ensures var end, b := Extent(mem, size), Blanks(mem[..size]);
            Converted(t, mem[..end]) != Converted(t, mem[..size]) <==>
            && end > size && AllDigits(mem[b..end]) && AllDigits(mem[b..size])
            && NumberOf(mem[b..size]) <= Top(t) && exists i :: b <= i < end && mem[i] != ZERO
  {
    hide *;
    var end, b := Extent(mem, size), Blanks(mem[..size]);
    if end > size {
      RunDigits(mem, size, b, end);
      DigitsConverted(t, mem, size, b, size);
      DigitsConverted(t, mem, size, b, end);
      ZerosOnly(mem, b, end);
      ZerosOnly(mem, b, size);
      LongerIsMore(mem, b, size, end);
    }
  }

  lemma RunDigits(mem: seq<byte>, size: nat, b: nat, end: nat)
    requires size <= |mem| && b == Blanks(mem[..size]) && end == Extent(mem, size) && end > size
    ensures AllDigits(mem[b..end]) && b < size
  {
    assert forall i :: b <= i < size ==> mem[b..size][i - b] == mem[i];
  }

  lemma ConvertedIs(t: Width, s: seq<byte>)
    ensures Converted(t, s) == if Acceptable(t, s) then Ok(Meaning(t, s)) else Err
  {
  }

  /** What digits behind blanks are converted to. */
  lemma DigitsConverted(t: Width, mem: seq<byte>, size: nat, b: nat, end: nat)
    requires size <= end <= |mem| && b == Blanks(mem[..size]) && b < size
    requires AllDigits(mem[b..end])
    ensures Converted(t, mem[..end])
            == if NumberOf(mem[b..end]) <= Top(t) then Ok(NumberOf(mem[b..end])) else Err
  {
    hide Blanks, NumberOf, Top;
    ExtendedBlanks(mem, size, end, b);
    assert mem[b..end][0] == mem[b];
  }

  lemma SliceFront(mem: seq<byte>, b: nat, end: nat)
    requires b < end <= |mem|
    ensures mem[b..end][..end - b - 1] == mem[b..end - 1] && mem[b..end][end - b - 1] == mem[end - 1]
  {
  }

  /** Digits mean zero if and only if all of them are zeros. */
  lemma {:induction false} ZerosOnly(mem: seq<byte>, b: nat, end: nat)
    requires b <= end <= |mem| && AllDigits(mem[b..end])
    ensures NumberOf(mem[b..end]) == 0 <==> forall i :: b <= i < end ==> mem[i] == ZERO
    decreases end
  {
    if b < end {
      SliceFront(mem, b, end);
      ZerosOnly(mem, b, end - 1);
    }
  }

  /** Further digits make a number other than zero more. */
  lemma {:induction false} LongerIsMore(mem: seq<byte>, b: nat, size: nat, end: nat)
    requires b <= size < end <= |mem| && AllDigits(mem[b..end]) && AllDigits(mem[b..size])
    ensures NumberOf(mem[b..end]) >= 10 * NumberOf(mem[b..size])
    decreases end
  {
    SliceFront(mem, b, end);
    if size < end - 1 {
      LongerIsMore(mem, b, size, end - 1);
    }
  }

  /** Text that runs on into further digits is converted along with them. */
  lemma RunsOn()
    ensures Extent([49, 50, 0], 1) == 2 && Acceptable(SHORT, [49, 50, 0][..2]) && Meaning(SHORT, [49, 50, 0][..2]) == 12
  {
    var mem: seq<byte> := [49, 50, 0];
    assert mem[..1] == [49] && mem[..2] == [49, 50] && mem[0..1] == [49];
    BlanksAre(mem[..1], 0);
    BlanksAre(mem[..2], 0);
    assert DigitsFrom(mem, 2) == 2;
    assert mem[..2][..1] == [49] && NumberOf([49]) == 1;
  }
}

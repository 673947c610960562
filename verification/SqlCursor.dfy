/** SQL cursors: position bookkeeping on the client against the cursor in the backend, and random
  * access on top of it.
  *
  * A backend cursor over n rows has positions 0 (before the first row) to n + 1 (after the last).
  */
module SqlCursor {
  import opened Wrappers

  /** Displacements that mean "to the end" and "to the beginning". */
  const ALL: int := 0x7fff_ffff - 1
  const BACKWARD_ALL: int := -0x8000_0000 + 1

  /** A displacement as it is written in a FETCH or MOVE statement. */
  datatype Stride = All | BackwardAll | Rows(n: int)

  function StrideString(n: int): Stride {
    if n >= ALL then All else if n <= BACKWARD_ALL then BackwardAll else Rows(n)
  }

  /** Which displacements mean so many rows, and which all that there are. */
  lemma Strides(n: int)
    ensures StrideString(n) == All <==> 2147483646 <= n
    ensures StrideString(n) == BackwardAll <==> n <= -2147483647
    ensures StrideString(n) == Rows(n) <==> -2147483647 < n < 2147483646
  {
  }

  function Abs(n: int): nat {
    if n < 0 then -n else n
  }

  function Reverse<T>(s: seq<T>): (r: seq<T>)
    ensures |r| == |s| && forall i :: 0 <= i < |s| ==> r[i] == s[|s| - 1 - i]
  {
    seq(|s|, i requires 0 <= i < |s| => s[|s| - 1 - i])
  }

  /** Where a backend cursor over n rows goes from position p. */
  function Landing(n: nat, p: nat, stride: Stride): (p': nat)
    requires p <= n + 1
    ensures p' <= n + 1
  {
    match stride
    case All => n + 1
    case BackwardAll => 0
    case Rows(k) => if p + k > n then n + 1 else if p + k < 1 then 0 else p + k
  }

  /** The rows a backend cursor passes on the way, in that order. */
  function Passed<T>(rows: seq<T>, p: nat, stride: Stride): (r: seq<T>)
    requires p <= |rows| + 1
  {
    var p' := Landing(|rows|, p, stride);
    if p' > p then rows[p..if p' <= |rows| then p' else |rows|]
    else if p' < p then Reverse(rows[(if p' >= 1 then p' - 1 else 0)..p - 1])
    else []
  }

  /** At the front (-1), past the end (1), or on a row (0). */
  function Side(n: nat, p: nat): int {
    if p == 0 then -1 else if p == n + 1 then 1 else 0
  }

  /** What the client knows: which end it is at, its position and the end position, with -1 for an
    * unknown position. */
  datatype Books = Books(atEnd: int, pos: int, endpos: int)
  {
    /** The books are true of a backend cursor at position p over n rows.  Only when the position
      * is unknown may the cursor be at an end without the client knowing. */
    predicate True(n: nat, p: nat) {
      && p <= n + 1
      && (pos == -1 || pos == p)
      && (endpos == -1 || endpos == n + 1)
      && (atEnd == Side(n, p) || (pos == -1 && atEnd == 0))
      && (pos == -1 ==> endpos == -1)
    }

    /** The new books and the displacement after hoping to move `hoped` rows and passing `actual`
      * rows; None for an internal error. */
    function Adjust(hoped: int, actual: int): Option<(Books, int)> {
      if actual < 0 then None
      else if hoped == 0 then Some((this, 0))
      else
        var direction := if hoped < 0 then -1 else 1;
        if actual == Abs(hoped) then
          Some((Books(0, if pos >= 0 then pos + direction * actual else pos, endpos), direction * actual))
        else if actual > Abs(hoped) then None
        else
          var steps := if atEnd != direction then actual + 1 else actual;
          if direction > 0 then
            var pos' := if pos >= 0 then pos + steps else pos;
            if endpos >= 0 && pos' != endpos then None else Some((Books(1, pos', pos'), steps))
          else if pos != -1 && pos != steps then None
          else Some((Books(-1, 0, endpos), -steps))
    }
  }

  /** The client's arithmetic follows the backend: no internal error, the books stay true, and a
    * cursor that falls short backwards knows that it is at the beginning.  The displacement is
    * right too, unless the cursor was past an end without the client knowing and moved further
    * out. */
  lemma AdjustFollows<T>(b: Books, rows: seq<T>, p: nat, hoped: int)
    requires |rows| < ALL && b.True(|rows|, p) && hoped != 0
    ensures var n, stride := |rows|, StrideString(hoped);
            var p', result := Landing(n, p, stride), b.Adjust(hoped, |Passed(rows, p, stride)|);
            && result.Some?
            && var (b', displacement) := result.value;
            && b'.True(n, p')
            && (b.pos != -1 ==> b'.pos == p')
            && (p' == 0 ==> b'.pos == 0)
            && (p' == n + 1 && b.pos != -1 ==> b'.endpos == n + 1)
            && (displacement == p' - p <==>
                  !(b.atEnd == 0 && ((hoped < 0 && p == 0) || (hoped > 0 && p == n + 1))))
  {
  }

  /** A known position needs fewer than ALL rows: from the front of a bigger result set, moving to
    * the end either is an internal error or leaves the client a row behind the backend. */
  lemma MoveAllNeedsFewerRows<T>(rows: seq<T>)
    ensures var b := Books(-1, 0, -1);
            var result := b.Adjust(ALL, |Passed(rows, 0, StrideString(ALL))|);
            (result.Some? && result.value.0.True(|rows|, Landing(|rows|, 0, StrideString(ALL)))) <==> |rows| < ALL
  {
    assert |Passed(rows, 0, StrideString(ALL))| == |rows|;
  }

  /** The cursor in the backend. */
  class Backend<T> {
    const rows: seq<T>
    var pos: nat
    var open: bool
    // The positions from which rows were fetched, in order.
    var fetched: seq<nat>

    ghost predicate Valid()
      reads this
    {
      pos <= |rows| + 1
    }

    constructor (rows: seq<T>, pos: nat)
      requires pos <= |rows| + 1
      ensures Valid() && this.rows == rows && this.pos == pos && open && fetched == []
    {
      this.rows, this.pos, open, fetched := rows, pos, true, [];
    }

    method Fetch(stride: Stride) returns (r: seq<T>)
      requires Valid()
      modifies this`pos, this`fetched
      ensures Valid() && pos == Landing(|rows|, old(pos), stride) && r == Passed(rows, old(pos), stride)
      ensures fetched == old(fetched) + if r == [] then [] else [old(pos)]
    {
      r := Passed(rows, pos, stride);
      fetched := fetched + if r == [] then [] else [pos];
      pos := Landing(|rows|, pos, stride);
    }

    /** Like Fetch, but only counts the rows. */
    method Move(stride: Stride) returns (affected: int)
      requires Valid()
      modifies this`pos
      ensures Valid() && pos == Landing(|rows|, old(pos), stride) && affected == |Passed(rows, old(pos), stride)|
    {
      affected := |Passed(rows, pos, stride)|;
      pos := Landing(|rows|, pos, stride);
    }

    method Close()
      modifies this`open
      ensures !open
    {
      open := false;
    }
  }

  class SqlCursor<T> {
    const home: Backend<T>
    const adopted: bool
    var owned: bool
    var atEnd: int
    var pos: int
    var endpos: int

    ghost function Known(): Books
      reads this
    {
      Books(atEnd, pos, endpos)
    }

    ghost predicate Valid()
      reads this, home
    {
      home.Valid() && Known().True(|home.rows|, home.pos) && (!adopted ==> pos != -1)
    }

    constructor Declare(rows: seq<T>, owned: bool)
      ensures Valid() && fresh(this) && fresh(home) && home.rows == rows && home.pos == pos == 0 && endpos == -1
      ensures !adopted && this.owned == owned
    {
      home := new Backend<T>(rows, 0);
      adopted, this.owned := false, owned;
      atEnd, pos, endpos := -1, 0, -1;
    }

    constructor Adopt(home: Backend<T>, owned: bool)
      requires home.Valid()
      ensures Valid() && fresh(this) && this.home == home && pos == -1 && adopted && this.owned == owned
    {
      this.home := home;
      adopted, this.owned := true, owned;
      atEnd, pos, endpos := 0, -1, -1;
    }

    /** Closes the backend's cursor if it is ours; closing twice closes once. */
    method Close()
      modifies this`owned, home`open
      ensures !owned && home.open == (old(home.open) && !old(owned))
    {
      if owned {
        home.Close();
        owned := false;
      }
    }

    /** The displacement after hoping to move `hoped` rows and passing `actual`; None where the code
      * reports an internal error. */
    method Adjust(hoped: int, actual: int) returns (r: Option<int>)
      modifies this`atEnd, this`pos, this`endpos
      ensures old(Known()).Adjust(hoped, actual).Some? ==>
                old(Known()).Adjust(hoped, actual) == Some((Known(), if r.Some? then r.value else 0)) && r.Some?
      ensures old(Known()).Adjust(hoped, actual).None? ==> r.None?
    {
      var steps := actual;
      if steps < 0 {
        return None;
      }
      if hoped == 0 {
        return Some(0);
      }
      var direction := if hoped < 0 then -1 else 1;
      var hitEnd := false;
      if steps != Abs(hoped) {
        if steps > Abs(hoped) {
          return None;
        }
        if atEnd != direction {
          steps := steps + 1;
        }
        if direction > 0 {
          hitEnd := true;
        } else if pos == -1 {
          pos := steps;
        } else if pos != steps {
          return None;
        }
        atEnd := direction;
      } else {
        atEnd := 0;
      }
      if pos >= 0 {
        pos := pos + direction * steps;
      }
      if hitEnd {
        if endpos >= 0 && pos != endpos {
          return None;
        }
        endpos := pos;
      }
      return Some(direction * steps);
    }

    /** The displacement that is handed back is not the true one exactly when the cursor was past an end
      * without the client knowing, and was moved further out. */
    ghost predicate Misjudged(count: int)
      reads this, home`pos
    {
      atEnd == 0 && ((count < 0 && home.pos == 0) || (count > 0 && home.pos == |home.rows| + 1))
    }

    /** Fetches rows.  The client's position is the backend's, whenever it is known. */
    method Fetch(count: int) returns (r: seq<T>, displacement: int)
      requires Valid() && |home.rows| < ALL
      modifies this`atEnd, this`pos, this`endpos, home`pos, home`fetched
      ensures home.fetched == old(home.fetched) + if r == [] then [] else [old(home.pos)]
      ensures Valid()
      ensures count == 0 ==> r == [] && displacement == 0 && home.pos == old(home.pos) && Known() == old(Known())
      ensures count != 0 ==>
                && r == Passed(home.rows, old(home.pos), StrideString(count))
                && home.pos == Landing(|home.rows|, old(home.pos), StrideString(count))
      ensures old(pos) != -1 ==> pos == home.pos
      ensures count != 0 && home.pos == 0 ==> pos == 0
      ensures count != 0 && home.pos == |home.rows| + 1 && pos != -1 ==> endpos == |home.rows| + 1
      ensures old(endpos) != -1 ==> endpos == old(endpos)
      ensures displacement == home.pos - old(home.pos) <==> !old(Misjudged(count))
    {
      if count == 0 {
        return [], 0;
      }
      AdjustFollows(Known(), home.rows, home.pos, count);
      r := home.Fetch(StrideString(count));
      var adjusted := Adjust(count, |r|);
      displacement := adjusted.value;
    }

    /** Moves without fetching; returns how many rows were passed. */
    method Move(count: int) returns (passed: int, displacement: int)
      requires Valid() && |home.rows| < ALL
      modifies this`atEnd, this`pos, this`endpos, home`pos
      ensures Valid()
      ensures count == 0 ==> passed == 0 && displacement == 0 && home.pos == old(home.pos) && Known() == old(Known())
      ensures count != 0 ==>
                && passed == |Passed(home.rows, old(home.pos), StrideString(count))|
                && home.pos == Landing(|home.rows|, old(home.pos), StrideString(count))
      ensures old(pos) != -1 ==> pos == home.pos
      ensures count != 0 && home.pos == 0 ==> pos == 0
      ensures count != 0 && home.pos == |home.rows| + 1 && pos != -1 ==> endpos == |home.rows| + 1
      ensures old(endpos) != -1 ==> endpos == old(endpos)
      ensures displacement == home.pos - old(home.pos) <==> !old(Misjudged(count))
    {
      if count == 0 {
        return 0, 0;
      }
      AdjustFollows(Known(), home.rows, home.pos, count);
      passed := home.Move(StrideString(count));
      var adjusted := Adjust(count, passed);
      displacement := adjusted.value;
    }
  }

  /** The rows from `begin` up to but excluding `end`, forward or in reverse; only existing rows. */
  function Slice<T>(rows: seq<T>, begin: nat, end: int): (r: seq<T>)
    requires begin <= |rows|
  {
    if begin < end then rows[begin..if end < |rows| then end else |rows|]
    else
      var low := if end < -1 then 0 else end + 1;
      var high := if begin < |rows| then begin + 1 else |rows|;
      if low < high then Reverse(rows[low..high]) else []
  }

  /** The number of rows, scrolling to the end if it is not known yet. */
  method Size<T>(cursor: SqlCursor<T>) returns (size: int)
    requires cursor.Valid() && |cursor.home.rows| < ALL && cursor.pos != -1
    modifies cursor`atEnd, cursor`pos, cursor`endpos, cursor.home`pos
    ensures cursor.Valid() && cursor.pos == cursor.home.pos && size == |cursor.home.rows|
    ensures old(cursor.endpos) != -1 ==> cursor.home.pos == old(cursor.home.pos)
  {
    if cursor.endpos == -1 {
      var passed, displacement := cursor.Move(ALL);
    }
    size := cursor.endpos - 1;
  }

  lemma SliceClamps<T>(rows: seq<T>, begin: nat, end: int)
    requires begin <= |rows|
    ensures var stop := if end < -1 then -1 else if end > |rows| then |rows| else end;
            Slice(rows, begin, end) == Slice(rows, begin, stop) && (begin == stop ==> Slice(rows, begin, end) == [])
  {
  }

  lemma ReverseLast<T>(rows: seq<T>, end: nat)
    requires end < |rows|
    ensures Reverse(rows[end..]) == Reverse(rows[end + 1..]) + [rows[end]]
  {
  }

  /** The first move puts the backend just before the first row wanted, in the reading direction. */
  lemma MoveToStart(n: nat, p: nat, begin: nat, direction: int)
    requires n < ALL && p <= n + 1 && begin <= n && direction in {1, -1}
    ensures var target := begin - direction - (p - 1);
            (if target == 0 then p else Landing(n, p, StrideString(target)))
            == if direction == 1 then begin else if begin < n then begin + 2 else n + 1
  {
  }

  lemma FetchForward<T>(rows: seq<T>, begin: nat, end: nat)
    requires |rows| < ALL && begin < end <= |rows|
    ensures Passed(rows, begin, StrideString(end - begin)) == Slice(rows, begin, end)
  {
    hide Reverse;
  }

  lemma FetchBackward<T>(rows: seq<T>, begin: nat, end: int)
    requires |rows| < ALL && -1 <= end < begin < |rows|
    ensures Passed(rows, begin + 2, StrideString(end - begin)) == Slice(rows, begin, end)
  {
    hide Reverse;
  }

  lemma PassedFromEnd<T>(rows: seq<T>, end: nat)
    requires |rows| < ALL && end < |rows|
    ensures Passed(rows, |rows| + 1, StrideString(end - |rows|)) == Reverse(rows[end..])
  {
    hide Reverse;
    assert rows[end..|rows|] == rows[end..];
  }

  lemma SliceFromEnd<T>(rows: seq<T>, end: nat)
    requires end < |rows|
    ensures Slice(rows, |rows|, end) == Reverse(rows[end + 1..])
  {
    hide Reverse;
    assert rows[end + 1..|rows|] == rows[end + 1..];
  }

  lemma FetchFromEnd<T>(rows: seq<T>, end: nat)
    requires |rows| < ALL && end < |rows|
    ensures Passed(rows, |rows| + 1, StrideString(end - |rows|)) == Slice(rows, |rows|, end) + [rows[end]]
  {
    hide *;
    PassedFromEnd(rows, end);
    SliceFromEnd(rows, end);
    ReverseLast(rows, end);
  }

  lemma FetchAllBack<T>(rows: seq<T>)
    requires |rows| < ALL
    ensures Passed(rows, |rows| + 1, StrideString(-1 - |rows|)) == Slice(rows, |rows|, -1)
  {
    hide Reverse;
  }

  /** The rows are the right ones, except when reading in reverse from the very end: then row `end`
    * comes along. */
  lemma FetchFromStart<T>(rows: seq<T>, begin: nat, end: int)
    requires |rows| < ALL && begin <= |rows| && -1 <= end <= |rows| && begin != end
    ensures var n := |rows|;
            var p := if begin < end then begin else if begin < n then begin + 2 else n + 1;
            Passed(rows, p, StrideString(end - begin))
            == Slice(rows, begin, end) + if begin == n && 0 <= end < n then [rows[end]] else []
  {
    hide *;
    assert Slice(rows, begin, end) + [] == Slice(rows, begin, end);
    if begin < end {
      FetchForward(rows, begin, end);
    } else if begin < |rows| {
      FetchBackward(rows, begin, end);
    } else if end >= 0 {
      FetchFromEnd(rows, end);
    } else {
      FetchAllBack(rows);
    }
  }

  /** Rows by number, whatever was retrieved before; None if the first number is out of range. */
  method Retrieve<T>(cursor: SqlCursor<T>, begin: int, end: int) returns (r: Option<seq<T>>)
    requires cursor.Valid() && |cursor.home.rows| < ALL && cursor.pos != -1
    modifies cursor`atEnd, cursor`pos, cursor`endpos, cursor.home`pos, cursor.home`fetched
    ensures cursor.Valid() && cursor.pos != -1
    ensures var n := |cursor.home.rows|;
            if begin < 0 || begin > n then r == None
            else if begin == n && 0 <= end < n then
              r == Some(Slice(cursor.home.rows, begin, end) + [cursor.home.rows[end]])
            else r == Some(Slice(cursor.home.rows, begin, end))
  {
    hide Landing, Passed, StrideString, Slice, Books.True;
    var size := Size(cursor);
    if begin < 0 || begin > size {
      return None;
    }
    var stop := end;
    if stop < -1 {
      stop := -1;
    } else if stop > size {
      stop := size;
    }
    SliceClamps(cursor.home.rows, begin, end);
    if begin == stop {
      return Some([]);
    }
    var direction := if begin < stop then 1 else -1;
    MoveToStart(size, cursor.home.pos, begin, direction);
    FetchFromStart(cursor.home.rows, begin, stop);
    var passed, displacement := cursor.Move((begin - direction) - (cursor.pos - 1));
    var rows;
    rows, displacement := cursor.Fetch(stop - begin);
    if !(begin == size && 0 <= end < size) {
      assert Slice(cursor.home.rows, begin, end) + [] == Slice(cursor.home.rows, begin, end);
    }
    return Some(rows);
  }
}

/** Cursor streams: a stream of blocks of rows over one cursor, shared by iterators that form an
  * intrusive doubly linked list.
  *
  * The stride is fixed, and only iterators read from the stream.
  */
module CursorStream {
  import opened SqlCursor

  /** The rows of the block at a position. */
  function Block<T>(rows: seq<T>, stride: nat, pos: nat): seq<T> {
    rows[if pos < |rows| then pos else |rows|..if pos + stride < |rows| then pos + stride else |rows|]
  }

  /** The iterator at an index of the list, or null beyond its ends. */
  ghost function At<T>(list: seq<Iterator<T>>, i: int): Iterator?<T> {
    if 0 <= i < |list| then list[i] else null
  }

  /** What the links of a list are after the k-th iterator is gone. */
  lemma AtSpliced<T>(list: seq<Iterator<T>>, k: nat, i: int)
    requires k < |list|
    ensures At(list[..k] + list[k + 1..], i) == if i < k then At(list, i) else At(list, i + 1)
  {
  }

  ghost predicate Distinct<T>(list: seq<Iterator<T>>) {
    forall i, j :: 0 <= i < j < |list| ==> list[i] != list[j]
  }

  lemma DistinctSpliced<T>(list: seq<Iterator<T>>, k: nat)
    requires Distinct(list) && k < |list|
    ensures Distinct(list[..k] + list[k + 1..]) && list[k] !in list[..k] + list[k + 1..]
  {
  }

  /** The iterators are linked in this order, from this head, and belong to this stream. */
  ghost predicate LinksOf<T>(list: seq<Iterator<T>>, head: Iterator?<T>, stream: Stream<T>)
    reads list`prev, list`next, list`stream
  {
    && head == At(list, 0)
    && Distinct(list)
    && (forall i :: 0 <= i < |list| ==> list[i].prev == At(list, i - 1) && list[i].next == At(list, i + 1))
    && (forall i :: 0 <= i < |list| ==> list[i].stream == stream)
  }

  /** All links are those of the list, but for the k-th iterator, which is bypassed. */
  ghost predicate Bypassed<T>(list: seq<Iterator<T>>, k: nat)
    reads list
  {
    forall j :: 0 <= j < |list| && j != k ==>
      && list[j].prev == (if j == k + 1 then At(list, k - 1) else At(list, j - 1))
      && list[j].next == (if j == k - 1 then At(list, k + 1) else At(list, j + 1))
  }

  lemma BypassedLink<T>(list: seq<Iterator<T>>, k: nat, i: nat)
    requires k < |list| && Bypassed(list, k) && i < |list| - 1
    ensures var rest := list[..k] + list[k + 1..];
            rest[i].prev == At(rest, i - 1) && rest[i].next == At(rest, i + 1)
  {
    AtSpliced(list, k, i - 1);
    AtSpliced(list, k, i + 1);
    var j := if i < k then i else i + 1;
    assert (list[..k] + list[k + 1..])[i] == list[j];
  }

  lemma BypassedLinks<T>(list: seq<Iterator<T>>, k: nat, stream: Stream<T>)
    requires k < |list| && Bypassed(list, k) && Distinct(list)
    requires forall i :: 0 <= i < |list| ==> list[i].stream == stream
    ensures LinksOf(list[..k] + list[k + 1..], if k == 0 then At(list, 1) else At(list, 0), stream)
    ensures list[k] !in list[..k] + list[k + 1..]
  {
    hide At, Distinct, Bypassed;
    var rest := list[..k] + list[k + 1..];
    DistinctSpliced(list, k);
    AtSpliced(list, k, 0);
    forall i | 0 <= i < |rest|
      ensures rest[i].prev == At(rest, i - 1) && rest[i].next == At(rest, i + 1)
    {
      BypassedLink(list, k, i);
    }
  }

  /** Fetching one stride passes exactly a block, and moves by its length or to the very end. */
  lemma BlockPassed<T>(rows: seq<T>, stride: nat, realpos: nat, p: nat)
    requires 1 <= stride && |rows| < ALL && realpos <= |rows|
    requires p == realpos || (realpos == |rows| && p == |rows| + 1)
    ensures Passed(rows, p, StrideString(stride)) == Block(rows, stride, realpos)
    ensures Landing(|rows|, p, StrideString(stride))
            == if realpos + stride <= |rows| then realpos + stride else |rows| + 1
  {
  }

  lemma BlockLength<T>(rows: seq<T>, stride: nat, pos: nat)
    requires pos <= |rows|
    ensures |Block(rows, stride, pos)| == (if pos + stride <= |rows| then stride else |rows| - pos)
  {
  }

  lemma MovePassed<T>(rows: seq<T>, realpos: nat, p: nat, n: nat)
    requires |rows| < ALL && realpos <= |rows| && 0 < n
    requires p == realpos || (realpos == |rows| && p == |rows| + 1)
    ensures |Passed(rows, p, StrideString(n))| == (if realpos + n <= |rows| then n else |rows| - realpos)
    ensures Landing(|rows|, p, StrideString(n)) == if realpos + n <= |rows| then realpos + n else |rows| + 1
  {
  }

  /** A whole number of strides. */
  ghost predicate Multiple(pos: nat, stride: nat) {
    exists q: nat :: Times(q, stride) == pos
  }

  function Times(q: nat, stride: nat): nat {
    q * stride
  }

  /** Different multiples are at least a stride apart. */
  lemma MultiplesApart(a: nat, b: nat, stride: nat)
    requires Multiple(a, stride) && Multiple(b, stride) && a < b
    ensures a + stride <= b
  {
    var q: nat, r: nat :| Times(q, stride) == a && Times(r, stride) == b;
    assert r <= q ==> r * stride <= q * stride;
    assert r > q ==> (q + 1) * stride <= r * stride;
  }

  lemma MultipleMore(pos: nat, n: nat, stride: nat)
    requires Multiple(pos, stride)
    ensures Multiple(pos + n * stride, stride)
  {
    var q: nat :| Times(q, stride) == pos;
    assert Times(q + n, stride) == pos + n * stride;
  }

  lemma AtLeastOne(n: nat, stride: nat)
    requires 0 < n
    ensures stride <= n * stride
  {
  }

  /** The blocks were read in order, each once, and all before a position. */
  ghost predicate Once(blocks: seq<nat>, realpos: nat) {
    && (forall i, j :: 0 <= i < j < |blocks| ==> blocks[i] < blocks[j])
    && (forall i :: 0 <= i < |blocks| ==> blocks[i] < realpos)
  }

  lemma OnceMore(blocks: seq<nat>, realpos: nat, realpos': nat)
    requires Once(blocks, realpos) && realpos <= realpos'
    ensures Once(blocks, realpos') && (realpos < realpos' ==> Once(blocks + [realpos], realpos'))
  {
  }

  lemma Suffix(fetched: seq<nat>, k: nat, more: seq<nat>)
    ensures k <= |fetched| ==> (fetched + more)[k..] == fetched[k..] + more
    ensures fetched + [] == fetched
  {
  }

  ghost predicate Sorted<T>(todo: seq<Iterator<T>>)
    reads todo`pos
  {
    forall i, j :: 0 <= i < j < |todo| ==> todo[i].pos <= todo[j].pos
  }

  /** Adds an iterator to a to-do list that is sorted by position, after those at its position. */
  method AddTodo<T>(todo: seq<Iterator<T>>, it: Iterator<T>) returns (r: seq<Iterator<T>>)
    requires Sorted(todo)
    ensures Sorted(r) && forall x :: x in r <==> x in todo || x == it
  {
    var j := |todo|;
    while j > 0 && todo[j - 1].pos > it.pos
      invariant 0 <= j <= |todo| && forall i :: j <= i < |todo| ==> it.pos < todo[i].pos
    {
      j := j - 1;
    }
    InsertSorted(todo, j, it);
    InsertMember(todo, j, it);
    r := todo[..j] + [it] + todo[j..];
  }

  lemma InsertSorted<T>(todo: seq<Iterator<T>>, j: nat, it: Iterator<T>)
    requires Sorted(todo) && j <= |todo|
    requires j > 0 ==> todo[j - 1].pos <= it.pos
    requires forall i :: j <= i < |todo| ==> it.pos < todo[i].pos
    ensures Sorted(todo[..j] + [it] + todo[j..])
  {
    var r := todo[..j] + [it] + todo[j..];
    forall a, b | 0 <= a < b < |r| ensures r[a].pos <= r[b].pos {
      assert a < j ==> r[a] == todo[a];
      assert b > j ==> r[b] == todo[b - 1];
      assert b < j ==> r[b] == todo[b];
      assert a > j ==> r[a] == todo[a - 1];
    }
  }

  lemma InsertMember<T>(s: seq<T>, j: nat, x: T)
    requires j <= |s|
    ensures forall y :: y in s[..j] + [x] + s[j..] <==> y in s || y == x
  {
    assert s == s[..j] + s[j..];
  }

  lemma BlockPastEnd<T>(rows: seq<T>, stride: nat, pos: nat)
    requires |rows| <= pos
    ensures Block(rows, stride, pos) == []
  {
  }

  /** How far a stream has come: the blocks that it has read, whether it has met the end of the rows, and
    * its real position. */
  datatype Progress = Progress(blocks: seq<nat>, done: bool, realpos: nat)

  class Stream<T> {
    const cursor: SqlCursor<T>
    const stride: nat
    var realpos: nat
    var reqpos: nat
    var head: Iterator?<T>
    var done: bool

    // The attached iterators, in list order.
    ghost var list: seq<Iterator<T>>
    // How many times rows had been fetched before.
    ghost const fetches: nat

    ghost function Rows(): seq<T> {
      cursor.home.rows
    }

    /** The positions of the blocks that were fetched and had rows in them, in order. */
    ghost function Blocks(): seq<nat>
      reads cursor.home`fetched
    {
      var fetched := cursor.home.fetched;
      if fetches <= |fetched| then fetched[fetches..] else []
    }

    ghost function Reached(): Progress
      reads this`realpos, this`done, cursor.home`fetched
    {
      Progress(Blocks(), done, realpos)
    }

    lemma ReachedIs()
      ensures Reached() == Progress(Blocks(), done, realpos)
    {
    }

    /** The links make a doubly linked list of exactly the iterators in `list`. */
    ghost predicate Linked()
      reads this`head, this`list, list`prev, list`next, list`stream
    {
      LinksOf(list, head, this)
    }

    /** The stream knows how many rows the cursor has passed. */
    ghost predicate Located()
      reads this`realpos, cursor, cursor.home
    {
      && cursor.Valid() && |Rows()| < ALL && 1 <= stride
      && realpos <= |Rows()|
      && (cursor.home.pos == realpos || (realpos == |Rows()| && cursor.home.pos == |Rows()| + 1))
    }

    /** It has read each block once, and stands between blocks or at the end. */
    ghost predicate Tracked()
      reads this`realpos, cursor, cursor.home
    {
      && Located()
      && (Multiple(realpos, stride) || realpos == |Rows()|)
      && fetches <= |cursor.home.fetched| && Once(Blocks(), realpos)
    }

    ghost predicate Positioned()
      reads this`realpos, this`reqpos, cursor, cursor.home
    {
      Tracked() && Multiple(reqpos, stride) && realpos <= reqpos + stride
    }

    /** The iterator has its block. */
    ghost predicate Has(it: Iterator<T>)
      reads it`here, it`pos
    {
      it.here == Block(Rows(), stride, it.pos)
    }

    /** An iterator stands on a multiple of the stride, and has its block or nothing; its block, if
      * the stream has passed it. */
    ghost predicate Sound(it: Iterator<T>)
      reads this`realpos, this`reqpos, it`here, it`pos
    {
      SoundUpTo(it, reqpos)
    }

    ghost predicate SoundUpTo(it: Iterator<T>, req: nat)
      reads this`realpos, it`here, it`pos
    {
      && Multiple(it.pos, stride) && it.pos <= req
      && (it.here == [] || Has(it))
      && (it.pos < realpos ==> Has(it))
    }

    ghost predicate Filled()
      reads this`realpos, this`reqpos, this`list, list`here, list`pos
    {
      forall i :: 0 <= i < |list| ==> Sound(list[i])
    }

    ghost predicate Valid()
      reads this, list, cursor, cursor.home
    {
      Linked() && Positioned() && Filled()
    }

    constructor (cursor: SqlCursor<T>, stride: nat)
      requires cursor.Valid() && |cursor.home.rows| < ALL && cursor.home.pos == 0 && 1 <= stride
      ensures Valid() && fresh(this) && this.cursor == cursor && this.stride == stride && list == []
      ensures realpos == reqpos == 0 && !done
    {
      this.cursor, this.stride, realpos, reqpos, head, done := cursor, stride, 0, 0, null, false;
      list, fetches := [], |cursor.home.fetched|;
      assert Times(0, stride) == 0;
    }

    /** Reads the next block. */
    method FetchBlock() returns (r: seq<T>)
      requires Located()
      modifies this`realpos, this`done, cursor`atEnd, cursor`pos, cursor`endpos, cursor.home`pos, cursor.home`fetched
      ensures Located() && realpos == old(realpos) + |r|
      ensures r == Block(Rows(), stride, old(realpos))
      ensures cursor.home.fetched == old(cursor.home.fetched) + if r == [] then [] else [old(realpos)]
      ensures done == (old(done) || r == [])
      ensures old(Tracked()) ==> Tracked()
      ensures old(Positioned() && (realpos <= reqpos || realpos == |Rows()|)) ==> Positioned()
    {
      hide Multiple, Once, Block, Passed, Landing, StrideString, Books.True;
      Suffix(cursor.home.fetched, fetches, [realpos]);
      BlockPassed(Rows(), stride, realpos, cursor.home.pos);
      BlockLength(Rows(), stride, realpos);
      if Multiple(realpos, stride) {
        MultipleMore(realpos, 1, stride);
        assert realpos + 1 * stride == realpos + stride;
      }
      if Once(Blocks(), realpos) {
        OnceMore(Blocks(), realpos, realpos + |Block(Rows(), stride, realpos)|);
      }
      var displacement;
      r, displacement := cursor.Fetch(stride);
      realpos := realpos + |r|;
      if r == [] {
        done := true;
      }
    }

    /** Skips rows.  That may leave the stream inside a block. */
    method Ignore(n: nat)
      requires Located()
      modifies this`realpos, this`done, cursor`atEnd, cursor`pos, cursor`endpos, cursor.home`pos
      ensures Located()
      ensures realpos == if old(realpos) + n <= |Rows()| then old(realpos) + n else |Rows()|
      ensures done == (old(done) || old(realpos) + n > |Rows()|)
      ensures old(Tracked()) && Multiple(old(realpos) + n, stride) ==> Tracked()
      ensures old(Positioned()) && Multiple(old(realpos) + n, stride) && old(realpos) + n <= reqpos ==> Positioned()
    {
      hide Multiple, Once, Passed, Landing, StrideString, Books.True;
      if Once(Blocks(), realpos) {
        OnceMore(Blocks(), realpos, if realpos + n <= |Rows()| then realpos + n else |Rows()|);
      }
      if n > 0 {
        MovePassed(Rows(), realpos, cursor.home.pos, n);
      }
      var offset, displacement := cursor.Move(n);
      realpos := realpos + offset;
      if offset < n {
        done := true;
      }
    }

    /** Moves the requested position ahead by strides, and returns it. */
    method Forward(n: nat) returns (pos: nat)
      modifies this`reqpos
      ensures pos == reqpos == old(reqpos) + n * stride
    {
      reqpos := reqpos + n * stride;
      return reqpos;
    }

    /** Puts an iterator at the head of the list. */
    method InsertIterator(it: Iterator<T>)
      requires Linked() && it.stream == this && it !in list && it.prev == null
      modifies this`head, this`list, it`next, list`prev
      ensures Linked() && list == [it] + old(list)
    {
      it.next := head;
      if head != null {
        head.prev := it;
      }
      head := it;
      list := [it] + list;
    }

    /** Makes the neighbours of an iterator bypass it. */
    method Bypass(it: Iterator<T>, ghost k: nat)
      requires Linked() && k < |list| && list[k] == it
      modifies this`head, list`prev, list`next
      ensures it.prev == null && it.next == null
      ensures head == if k == 0 then At(list, 1) else At(list, 0)
      ensures Bypassed(list, k)
    {
      assert it.prev == At(list, k - 1) && it.next == At(list, k + 1) && head == At(list, 0);
      if it == head {
        head := it.next;
        if head != null {
          head.prev := null;
        }
      } else {
        it.prev.next := it.next;
        if it.next != null {
          it.next.prev := it.prev;
        }
      }
      it.prev := null;
      it.next := null;
    }

    /** Different streams have no iterator in common. */
    lemma Apart(other: Stream<T>)
      requires Linked() && other.Linked() && other != this
      ensures forall i, j :: 0 <= i < |list| && 0 <= j < |other.list| ==> list[i] != other.list[j]
    {
      forall i, j | 0 <= i < |list| && 0 <= j < |other.list| ensures list[i] != other.list[j] {
        assert list[i].stream == this && other.list[j].stream == other;
      }
    }

    /** Takes an iterator out of the list. */
    method RemoveIterator(it: Iterator<T>, ghost k: nat)
      requires Linked() && k < |list| && list[k] == it
      modifies this`head, this`list, list`prev, list`next
      ensures list == old(list)[..k] + old(list)[k + 1..]
      ensures Linked() && it.prev == null && it.next == null && it !in list
    {
      assert Distinct(list) && forall i :: 0 <= i < |list| ==> list[i].stream == this;
      Bypass(it, k);
      hide LinksOf, Bypassed, Distinct, At;
      BypassedLinks(list, k, this);
      list := list[..k] + list[k + 1..];
    }

    /** The attached iterators from the real position up to another, sorted by position. */
    method Collect(topos: nat) returns (todo: seq<Iterator<T>>)
      requires Linked()
      ensures Sorted(todo) && Todo(todo, realpos, topos)
    {
      todo := [];
      var it := head;
      ghost var k := 0;
      while it != null
        invariant k <= |list| && it == At(list, k) && Sorted(todo)
        invariant forall x :: x in todo <==> x in list[..k] && realpos <= x.pos <= topos
        decreases |list| - k
      {
        if realpos <= it.pos <= topos {
          todo := AddTodo(todo, it);
        }
        assert list[..k + 1] == list[..k] + [it];
        it := it.next;
        k := k + 1;
      }
      assert list[..k] == list;
    }

    /** Where the block at a position ends. */
    ghost function EndOf(p: nat): nat {
      if p + stride < |Rows()| then p + stride else |Rows()|
    }

    /** Reads the block at a position at or ahead of the real position, skipping what is between. */
    method ReadAt(readpos: nat) returns (r: seq<T>)
      requires Positioned() && realpos <= readpos <= reqpos && Multiple(readpos, stride)
      modifies this`realpos, this`done, cursor`atEnd, cursor`pos, cursor`endpos, cursor.home`pos, cursor.home`fetched
      ensures Positioned() && r == Block(Rows(), stride, readpos)
      ensures old(realpos) <= realpos <= readpos + stride
      ensures realpos == EndOf(readpos)
      ensures cursor.home.fetched == old(cursor.home.fetched) + if r == [] then [] else [readpos]
      ensures Blocks() == old(Blocks()) + if readpos < |Rows()| then [readpos] else []
      ensures done == (old(done) || |Rows()| <= readpos)
    {
      hide Multiple, Once, Block, Books.True;
      if |Rows()| <= readpos {
        BlockPastEnd(Rows(), stride, readpos);
        BlockPastEnd(Rows(), stride, |Rows()|);
      }
      if readpos > realpos {
        Ignore(readpos - realpos);
      }
      BlockLength(Rows(), stride, realpos);
      ghost var blocks := Blocks();
      r := FetchBlock();
      assert Blocks() == blocks + if r == [] then [] else [readpos];
    }

    /** The first i iterators of the to-do list have their blocks. */
    ghost predicate Served(todo: seq<Iterator<T>>, i: nat)
      requires i <= |todo|
      reads todo
    {
      forall j :: 0 <= j < i ==> Has(todo[j])
    }

    /** Gives the block to all iterators of the to-do list at its position, from index i on. */
    method FillAt(todo: seq<Iterator<T>>, i: nat, readpos: nat, r: seq<T>) returns (i': nat)
      requires i < |todo| && todo[i].pos == readpos && Sorted(todo)
      requires r == Block(Rows(), stride, readpos) && Served(todo, i)
      modifies todo`here
      ensures i < i' <= |todo| && Served(todo, i')
      ensures i' < |todo| ==> readpos < todo[i'].pos
      ensures forall j :: i <= j < i' ==> todo[j].pos == readpos
    {
      hide Block;
      i' := i;
      while i' < |todo| && todo[i'].pos == readpos
        invariant i <= i' <= |todo| && (forall j :: i <= j < i' ==> todo[j].pos == readpos)
        invariant (i' == i ==> todo[i].pos == readpos) && Served(todo, i')
      {
        todo[i'].here := r;
        i' := i' + 1;
      }
    }

    /** Positions from index i on have not been passed yet. */
    ghost predicate Ahead(todo: seq<Iterator<T>>, i: nat)
      reads this`realpos, todo`pos
    {
      forall j :: i <= j < |todo| ==> realpos <= todo[j].pos
    }

    lemma StillAhead(todo: seq<Iterator<T>>, i: nat, i': nat)
      requires Sorted(todo) && i < i' <= |todo| && 0 < stride
      requires Placed(todo)
      requires realpos <= todo[i].pos + stride && (i' < |todo| ==> todo[i].pos < todo[i'].pos)
      ensures Ahead(todo, i') && realpos <= todo[i' - 1].pos + stride
    {
      assert todo[i].pos <= todo[i' - 1].pos || i == i' - 1;
      forall j | i' <= j < |todo| ensures realpos <= todo[j].pos {
        assert todo[i'].pos <= todo[j].pos || i' == j;
        MultiplesApart(todo[i].pos, todo[j].pos, stride);
      }
    }

    /** The iterators stand on multiples of the stride, up to the requested position. */
    ghost predicate Placed(todo: seq<Iterator<T>>)
      reads this`reqpos, todo`pos
    {
      forall j :: 0 <= j < |todo| ==> Multiple(todo[j].pos, stride) && todo[j].pos <= reqpos
    }

    /** The to-do list up to index i has been served, and the real position is not beyond the rest. */
    ghost predicate Serving(todo: seq<Iterator<T>>, i: nat)
      reads todo, this`realpos, this`reqpos, cursor, cursor.home
    {
      && i <= |todo| && Positioned() && Sorted(todo) && Ahead(todo, i) && Served(todo, i)
      && Placed(todo) && (0 < i ==> realpos <= todo[i - 1].pos + stride)
    }

    lemma NextPlace(todo: seq<Iterator<T>>, i: nat)
      requires Serving(todo, i) && i < |todo|
      ensures 0 < stride && realpos <= todo[i].pos <= reqpos && Multiple(todo[i].pos, stride)
      ensures Positioned() && Sorted(todo) && Placed(todo) && Served(todo, i)
    {
    }

    lemma ServingFrom(todo: seq<Iterator<T>>, i: nat)
      requires i <= |todo| && Positioned() && Sorted(todo) && Ahead(todo, i) && Served(todo, i) && Placed(todo)
      requires 0 < i ==> realpos <= todo[i - 1].pos + stride
      ensures Serving(todo, i)
    {
    }

    /** Reads one block and gives it to all iterators at its position. */
    method ServeNext(todo: seq<Iterator<T>>, i: nat) returns (i': nat)
      requires Serving(todo, i) && i < |todo|
      modifies this`realpos, this`done, cursor`atEnd, cursor`pos, cursor`endpos, cursor.home`pos,
               cursor.home`fetched, todo`here
      ensures i < i' <= |todo| && Serving(todo, i') && old(realpos) <= realpos == EndOf(todo[i].pos)
      ensures forall j :: i <= j < i' ==> todo[j].pos == todo[i].pos
      ensures Blocks() == old(Blocks()) + if todo[i].pos < |Rows()| then [todo[i].pos] else []
      ensures done == (old(done) || |Rows()| <= todo[i].pos)
    {
      hide *;
      NextPlace(todo, i);
      var readpos := todo[i].pos;
      var r := ReadAt(readpos);
      i' := FillAt(todo, i, readpos, r);
      StillAhead(todo, i, i');
      ServingFrom(todo, i');
    }

    /** One of the first i iterators of the to-do list is at the position. */
    ghost predicate Asked(todo: seq<Iterator<T>>, i: nat, p: nat)
      requires i <= |todo|
      reads todo`pos
    {
      exists j :: 0 <= j < i && todo[j].pos == p
    }

    /** For them exactly the blocks at their positions have been read. */
    ghost predicate ReadUpTo(before: Progress, now: Progress, todo: seq<Iterator<T>>, i: nat)
      requires i <= |todo|
      reads todo`pos
    {
      && (forall p: nat :: p in now.blocks <==> p in before.blocks || (p < |Rows()| && Asked(todo, i, p)))
      && (now.done <==> before.done || exists p: nat :: |Rows()| <= p && Asked(todo, i, p))
      && (now.realpos == if i == 0 then before.realpos else EndOf(todo[i - 1].pos))
    }

    lemma ReadNone(before: Progress, todo: seq<Iterator<T>>)
      ensures ReadUpTo(before, before, todo, 0)
    {
    }

    lemma ReadMore(before: Progress, mid: Progress, now: Progress, todo: seq<Iterator<T>>, i: nat, i': nat)
      requires i < i' <= |todo| && forall j :: i <= j < i' ==> todo[j].pos == todo[i].pos
      requires ReadUpTo(before, mid, todo, i)
      requires now.blocks == mid.blocks + if todo[i].pos < |Rows()| then [todo[i].pos] else []
      requires now.done == (mid.done || |Rows()| <= todo[i].pos) && now.realpos == EndOf(todo[i].pos)
      ensures ReadUpTo(before, now, todo, i')
    {
      AskedMore(todo, i, i');
      hide Stream.Asked;
      assert Asked(todo, i', todo[i].pos);
    }

    lemma AskedMore(todo: seq<Iterator<T>>, i: nat, i': nat)
      requires i < i' <= |todo| && forall j :: i <= j < i' ==> todo[j].pos == todo[i].pos
      ensures forall p: nat :: Asked(todo, i', p) <==> Asked(todo, i, p) || p == todo[i].pos
    {
    }

    /** Reads the rows for the to-do list. */
    method Serve(todo: seq<Iterator<T>>)
      requires Serving(todo, 0)
      modifies this`realpos, this`done, cursor`atEnd, cursor`pos, cursor`endpos, cursor.home`pos,
               cursor.home`fetched, todo`here
      ensures Serving(todo, |todo|) && old(Blocks()) <= Blocks() && old(realpos) <= realpos
      ensures ReadUpTo(old(Reached()), Reached(), todo, |todo|)
    {
      hide *;
      var i := 0;
      ReadNone(Reached(), todo);
      while i < |todo|
        invariant i <= |todo| && Serving(todo, i) && old(Blocks()) <= Blocks() && old(realpos) <= realpos
        invariant ReadUpTo(old(Reached()), Reached(), todo, i)
      {
        ghost var before, mid := i, Reached();
        ReachedIs();
        i := ServeNext(todo, i);
        ReachedIs();
        ReadMore(old(Reached()), mid, Reached(), todo, before, i);
      }
    }

    /** An attached iterator is at the position, which is between two others. */
    ghost predicate Wanted(p: nat, frompos: nat, topos: nat)
      reads this`list, list`pos
    {
      frompos <= p <= topos && exists it :: it in list && it.pos == p
    }

    /** Exactly the blocks have been read that iterators between two positions want; none of them lacks
      * rows unless the end of the rows has been met; and the last block is the last that was wanted. */
    ghost predicate ReadFor(before: Progress, topos: nat)
      reads this`realpos, this`done, this`list, list`pos, cursor.home`fetched
    {
      && (forall p: nat ::
            p in Blocks() <==> p in before.blocks || (p < |Rows()| && Wanted(p, before.realpos, topos)))
      && (done <==> before.done || exists p: nat :: |Rows()| <= p && Wanted(p, before.realpos, topos))
      && (realpos == before.realpos || exists p: nat :: Wanted(p, before.realpos, topos) && realpos == EndOf(p))
    }

    lemma ReadForTodo(todo: seq<Iterator<T>>, before: Progress, topos: nat)
      requires Todo(todo, before.realpos, topos) && ReadUpTo(before, Reached(), todo, |todo|)
      ensures ReadFor(before, topos)
    {
      hide Stream.Todo, Stream.Wanted, Stream.Asked, Stream.Blocks;
      AskedWanted(todo, before.realpos, topos);
    }

    lemma ReadForNone(topos: nat)
      requires topos < realpos
      ensures ReadFor(Reached(), topos)
    {
    }

    lemma AskedWanted(todo: seq<Iterator<T>>, frompos: nat, topos: nat)
      requires Todo(todo, frompos, topos)
      ensures forall p: nat :: Asked(todo, |todo|, p) <==> Wanted(p, frompos, topos)
      ensures todo != [] ==> Wanted(todo[|todo| - 1].pos, frompos, topos)
    {
      assert forall j :: 0 <= j < |todo| ==> todo[j] in todo;
      forall p: nat | Wanted(p, frompos, topos) ensures Asked(todo, |todo|, p) {
        var it :| it in list && it.pos == p;
        var j :| 0 <= j < |todo| && todo[j] == it;
      }
    }

    lemma Unread(todo: seq<Iterator<T>>, before: Progress)
      requires ReadUpTo(before, Reached(), todo, |todo|)
      ensures todo == [] ==> realpos == before.realpos
    {
      ReachedIs();
    }

    /** Reads on, up to a position, for all attached iterators that are waiting for their rows. */
    method ServiceIterators(topos: nat)
      requires Valid() && topos <= reqpos
      modifies this`realpos, this`done, cursor`atEnd, cursor`pos, cursor`endpos, cursor.home`pos,
               cursor.home`fetched, list`here
      ensures Valid() && old(Blocks()) <= Blocks()
      ensures forall it :: it in list && it.pos <= topos ==> Has(it)
      ensures forall it :: it in list && !(old(realpos) <= it.pos <= topos) ==> it.here == old(it.here)
      ensures ReadFor(old(Reached()), topos)
    {
      hide *;
      if topos < realpos {
        ReadForNone(topos);
        ListFacts();
        return;
      }
      ServeUpTo(topos);
    }

    method ServeUpTo(topos: nat)
      requires Valid() && realpos <= topos <= reqpos
      modifies this`realpos, this`done, cursor`atEnd, cursor`pos, cursor`endpos, cursor.home`pos,
               cursor.home`fetched, list`here
      ensures Valid() && old(Blocks()) <= Blocks() && old(realpos) <= realpos
      ensures forall it :: it in list && it.pos <= topos ==> Has(it)
      ensures forall it :: it in list && !(old(realpos) <= it.pos <= topos) ==> it.here == old(it.here)
      ensures ReadFor(old(Reached()), topos)
    {
      hide *;
      ReachedIs();
      ListFacts();
      var todo := Collect(topos);
      TodoReady(todo, topos);
      TodoInList(todo, realpos, topos);
      Serve(todo);
      ReadForTodo(todo, old(Reached()), topos);
      Unread(todo, old(Reached()));
      ServedFacts(todo, old(realpos), topos);
      Finish(topos);
    }

    lemma TodoInList(todo: seq<Iterator<T>>, before: nat, topos: nat)
      requires Todo(todo, before, topos)
      ensures forall j :: 0 <= j < |todo| ==> todo[j] in list
      ensures forall it :: it in list && !(before <= it.pos <= topos) ==> it !in todo
    {
      assert forall j :: 0 <= j < |todo| ==> todo[j] in todo;
    }

    lemma ListFacts()
      requires Valid()
      ensures Linked() && Placed(list) && forall it :: it in list ==> it.here == [] || Has(it)
      ensures forall it :: it in list && it.pos < realpos ==> Has(it)
    {
      hide LinksOf, Multiple, Block, Stream.Positioned;
    }

    lemma ServedFacts(todo: seq<Iterator<T>>, before: nat, topos: nat)
      requires Serving(todo, |todo|) && Todo(todo, before, topos) && before <= topos && Placed(list)
      requires todo == [] ==> realpos == before
      ensures Positioned() && forall it :: it in list && before <= it.pos <= topos ==> Has(it)
      ensures forall it :: it in list && topos < it.pos ==> realpos <= it.pos
    {
      hide Block, Stream.Positioned, Sorted, Multiple;
      BeyondNotPassed(todo, topos, before);
    }

    lemma Finish(topos: nat)
      requires Linked() && Placed(list) && Positioned()
      requires forall it :: it in list && it.pos <= topos ==> Has(it)
      requires forall it :: it in list ==> it.here == [] || Has(it)
      requires forall it :: it in list && topos < it.pos ==> realpos <= it.pos
      ensures Valid()
    {
      hide LinksOf, Multiple, Block;
    }

    /** The to-do list holds the iterators from one position up to another. */
    ghost predicate Todo(todo: seq<Iterator<T>>, frompos: nat, topos: nat)
      reads this`list, list`pos
    {
      && (forall it :: it in todo ==> it in list && frompos <= it.pos <= topos)
      && (forall it :: it in list && frompos <= it.pos <= topos ==> it in todo)
    }

    lemma TodoReady(todo: seq<Iterator<T>>, topos: nat)
      requires Valid() && Sorted(todo) && Todo(todo, realpos, topos) && topos <= reqpos
      ensures Serving(todo, 0)
    {
      hide LinksOf, Stream.Positioned, Sorted, Block;
      forall j | 0 <= j < |todo| ensures Multiple(todo[j].pos, stride) && realpos <= todo[j].pos <= reqpos {
        assert todo[j] in todo;
        var k :| 0 <= k < |list| && list[k] == todo[j];
      }
    }

    /** Iterators beyond the to-do list have not been passed. */
    lemma BeyondNotPassed(todo: seq<Iterator<T>>, topos: nat, before: nat)
      requires Serving(todo, |todo|) && Todo(todo, before, topos) && before <= topos && Placed(list)
      requires todo == [] ==> realpos == before
      ensures forall it :: it in list && topos < it.pos ==> realpos <= it.pos
    {
      hide LinksOf, Stream.Positioned, Sorted, Block, Multiple, Stream.Served;
      forall it | it in list && topos < it.pos ensures realpos <= it.pos {
        if todo != [] {
          var last := todo[|todo| - 1];
          assert last in todo;
          MultiplesApart(last.pos, it.pos, stride);
        }
      }
    }

    /** A new head of the list keeps the invariant exactly if it is not in need of a block that has
      * been passed. */
    lemma GrownValid(before: seq<Iterator<T>>, it: Iterator<T>)
      requires Linked() && Positioned() && list == [it] + before
      requires forall i :: 0 <= i < |before| ==> Sound(before[i])
      ensures Valid() <==> Sound(it)
    {
      hide LinksOf, Stream.Sound, Stream.Positioned;
      assert list[0] == it;
      assert forall i :: 0 <= i < |before| ==> list[i + 1] == before[i];
    }

    /** A new iterator without rows, at the requested position, is sound exactly if the stream has
      * not passed that position. */
    lemma NewSound(it: Iterator<T>)
      requires Positioned() && it.pos == reqpos && it.here == []
      ensures Sound(it) <==> realpos <= reqpos
    {
      hide Multiple, Block;
      if reqpos < realpos {
        BlockLength(Rows(), stride, reqpos);
      }
    }

    /** Without one of its iterators the stream is still valid. */
    lemma ShrunkValid(before: seq<Iterator<T>>, k: nat)
      requires Linked() && Positioned() && k < |before| && list == before[..k] + before[k + 1..]
      requires forall i :: 0 <= i < |before| ==> Sound(before[i])
      ensures Valid()
    {
      hide LinksOf, Stream.Sound, Stream.Positioned;
      assert forall i :: 0 <= i < |list| ==> list[i] == before[if i < k then i else i + 1];
    }

    /** Adds a new iterator at the requested position. */
    method Admit(it: Iterator<T>)
      requires Valid() && it.stream == this && it !in list && it.prev == null
      requires it.pos == reqpos && it.here == []
      modifies this`head, this`list, it`next, list`prev
      ensures Linked() && list == [it] + old(list)
      ensures Valid() <==> realpos <= reqpos
    {
      hide *;
      AllSound();
      ghost var before := list;
      InsertIterator(it);
      GrownValid(before, it);
      NewSound(it);
    }

    /** Adds a copy of an attached iterator. */
    method Join(it: Iterator<T>, rhs: Iterator<T>)
      requires Valid() && it.stream == this && it !in list && it.prev == null
      requires rhs in list && it.pos == rhs.pos && it.here == rhs.here
      modifies this`head, this`list, it`next, list`prev
      ensures Valid() && list == [it] + old(list)
    {
      hide *;
      AllSound();
      CopySound(it, rhs);
      ghost var before := list;
      InsertIterator(it);
      GrownValid(before, it);
    }

    lemma CopySound(it: Iterator<T>, rhs: Iterator<T>)
      requires Sound(rhs) && it.pos == rhs.pos && it.here == rhs.here
      ensures Sound(it)
    {
    }

    /** Lets an attached iterator go. */
    method Leave(it: Iterator<T>)
      requires Valid() && it in list
      modifies this`head, this`list, list`prev, list`next
      ensures Valid() && it !in list && |list| == |old(list)| - 1 && it.prev == null && it.next == null
      ensures forall x :: x in old(list) && x != it ==> x in list
    {
      hide *;
      AllSound();
      ghost var before := list;
      ghost var k: nat :| k < |list| && list[k] == it;
      RemoveIterator(it, k);
      ShrunkValid(before, k);
      SplicedMembers(before, k);
    }

    lemma SplicedMembers(before: seq<Iterator<T>>, k: nat)
      requires k < |before|
      ensures forall x :: x in before && x != before[k] ==> x in before[..k] + before[k + 1..]
      ensures |before[..k] + before[k + 1..]| == |before| - 1
    {
      assert before == before[..k] + [before[k]] + before[k + 1..];
    }

    /** Once an iterator has moved to a new requested position, the stream is still valid. */
    lemma Advanced(it: Iterator<T>, before: nat, n: nat)
      requires Linked() && Tracked() && it in list && 0 < n
      requires Multiple(before, stride) && realpos <= before + stride && reqpos == before + n * stride
      requires it.pos == reqpos && it.here == []
      requires forall i :: 0 <= i < |list| && list[i] != it ==> SoundUpTo(list[i], before)
      ensures Valid()
    {
      hide LinksOf, Multiple, Block, Stream.Tracked;
      MultipleMore(before, n, stride);
      AtLeastOne(n, stride);
      assert 1 <= stride by {
        StrideFact();
      }
    }

    lemma StrideFact()
      requires Tracked()
      ensures 1 <= stride
    {
    }

    /** Once an attached iterator has become like another, the stream is still valid. */
    lemma Assigned(it: Iterator<T>)
      requires Linked() && Positioned() && Sound(it)
      requires forall i :: 0 <= i < |list| && list[i] != it ==> Sound(list[i])
      ensures Valid()
    {
      hide LinksOf, Stream.Sound, Stream.Positioned;
    }

    lemma MemberFacts(it: Iterator<T>)
      requires Valid() && it in list
      ensures it.pos <= reqpos && it.stream == this
    {
      hide Multiple, Block, Stream.Positioned;
    }

    lemma HasBlock(it: Iterator<T>)
      requires Has(it)
      ensures it.here == Block(Rows(), stride, it.pos)
    {
    }

    lemma SoundParts()
      requires Valid()
      ensures Tracked() && forall i :: 0 <= i < |list| ==> SoundUpTo(list[i], reqpos)
    {
      hide LinksOf, Stream.Tracked, Stream.SoundUpTo, Multiple;
    }

    lemma AllSound()
      requires Valid()
      ensures Linked() && Positioned() && forall i :: 0 <= i < |list| ==> Sound(list[i])
      ensures Multiple(reqpos, stride) && 0 < stride && realpos <= reqpos + stride && realpos <= |Rows()|
      ensures forall it :: it in list ==> it.stream == this
    {
      hide Multiple, Block;
    }
  }

  /** The stream, if there is one, and the iterators that are attached to it. */
  ghost function Streams<T>(s: Stream?<T>): seq<Stream<T>> {
    if s == null then [] else [s]
  }

  ghost function Members<T>(s: Stream?<T>): seq<Iterator<T>>
    reads if s == null then {} else {s}
  {
    if s == null then [] else s.list
  }

  lemma StreamMembers<T>(s: Stream?<T>)
    ensures s != null ==> |Streams(s)| == 1 && Streams(s)[0] == s && Members(s) == s.list
  {
  }

  class Iterator<T> {
    var stream: Stream?<T>
    var here: seq<T>
    var pos: nat
    var prev: Iterator?<T>
    var next: Iterator?<T>

    constructor ()
      ensures stream == null && prev == null && next == null && here == [] && pos == 0 && fresh(this)
    {
      stream, here, pos, prev, next := null, [], 0, null, null;
    }

    /** A new iterator stands at the stream's requested position.  That is sound exactly if the
      * stream has not read the rows there yet. */
    constructor Attach(s: Stream<T>)
      requires s.Valid()
      modifies s`head, s`list, s.list`prev
      ensures fresh(this) && stream == s && pos == s.reqpos && here == [] && s.list == [this] + old(s.list)
      ensures s.Linked() && (s.Valid() <==> s.realpos <= s.reqpos)
    {
      stream, here, prev, next := s, [], null, null;
      pos := s.reqpos;
      new;
      hide *;
      s.AllSound();
      s.Admit(this);
    }

    /** A copy stands where the original stands, has what it has, and joins its stream if any. */
    constructor Copy(rhs: Iterator<T>, ghost s: Stream?<T>)
      requires rhs.stream == s && (s != null ==> s.Valid() && rhs in s.list)
      modifies Streams(s)`head, Streams(s)`list, Members(s)`prev
      ensures fresh(this) && stream == s && pos == old(rhs.pos) && here == old(rhs.here)
      ensures s != null ==> s.Valid() && s.list == [this] + old(s.list)
    {
      stream, here, pos, prev, next := rhs.stream, rhs.here, rhs.pos, null, null;
      new;
      hide *;
      StreamMembers(s);
      if stream != null {
        stream.AllSound();
        stream.Join(this, rhs);
      }
    }

    /** Assignment: becomes like another iterator, and moves to its stream if that is not the same. */
    method Assign(rhs: Iterator<T>, ghost s: Stream?<T>, ghost t: Stream?<T>)
      requires stream == s && rhs.stream == t
      requires s != null ==> s.Valid() && this in s.list
      requires t != null ==> t.Valid() && rhs in t.list
      requires s == null ==> prev == null && next == null
      modifies this, Streams(s)`head, Streams(s)`list, Members(s)`prev, Members(s)`next
      modifies Streams(t)`head, Streams(t)`list, Members(t)`prev
      ensures stream == t && pos == old(rhs.pos) && here == old(rhs.here)
      ensures (s != null ==> s.Valid()) && (t != null ==> t.Valid())
      ensures s == t && s != null ==> s.list == old(s.list)
      ensures s != t && t != null ==> t.list == [this] + old(t.list)
      ensures s != t && s != null ==>
                && this !in s.list && |s.list| == |old(s.list)| - 1
                && forall it :: it in old(s.list) && it != this ==> it in s.list
    {
      hide *;
      StreamMembers(s);
      StreamMembers(t);
      if rhs.stream == stream {
        if stream != null {
          stream.AllSound();
        }
        here := rhs.here;
        pos := rhs.pos;
        if stream != null {
          stream.CopySound(this, rhs);
          stream.Assigned(this);
        }
      } else {
        if rhs.stream != null {
          rhs.stream.AllSound();
        }
        if stream != null {
          stream.AllSound();
          if rhs.stream != null {
            stream.Apart(rhs.stream);
          }
          stream.Leave(this);
        }
        here := rhs.here;
        pos := rhs.pos;
        stream := rhs.stream;
        if stream != null {
          if s != null {
            s.AllSound();
            stream.AllSound();
            s.Apart(stream);
          }
          stream.Join(this, rhs);
        }
      }
    }

    /** Leaves the stream, if any. */
    method Destroy(ghost s: Stream?<T>)
      requires stream == s && (s != null ==> s.Valid() && this in s.list)
      modifies Streams(s)`head, Streams(s)`list, Members(s)`prev, Members(s)`next
      ensures s != null ==> s.Valid() && this !in s.list && |s.list| == |old(s.list)| - 1
      ensures s != null ==> forall it :: it in old(s.list) && it != this ==> it in s.list
    {
      hide *;
      StreamMembers(s);
      if stream != null {
        stream.AllSound();
        stream.Leave(this);
      }
    }

    /** Moves ahead by strides: to the stream's new requested position, with no rows yet.  A
      * negative number of strides is an error. */
    method Advance(n: int) returns (ok: bool)
      requires stream != null && stream.Valid() && this in stream.list
      modifies this`pos, this`here, stream`reqpos
      ensures stream.Valid() && ok == (n >= 0)
      ensures n <= 0 ==> pos == old(pos) && here == old(here) && stream.reqpos == old(stream.reqpos)
      ensures n > 0 ==> pos == stream.reqpos == old(stream.reqpos) + n * stream.stride && here == []
    {
      hide *;
      if n <= 0 {
        return n == 0;
      }
      stream.AllSound();
      stream.SoundParts();
      ghost var before := stream.reqpos;
      pos := stream.Forward(n);
      here := [];
      stream.Advanced(this, before, n);
      return true;
    }

    /** The rows at this position: exactly its block of the result set. */
    method Get() returns (r: seq<T>)
      requires stream != null && stream.Valid() && this in stream.list
      modifies stream`realpos, stream`done, stream.cursor`atEnd, stream.cursor`pos, stream.cursor`endpos,
               stream.cursor.home`pos, stream.cursor.home`fetched, stream.list`here
      ensures stream.Valid() && r == here == Block(stream.Rows(), stream.stride, pos)
      ensures forall it :: it in stream.list && !(old(stream.realpos) <= it.pos <= pos) ==> it.here == old(it.here)
      ensures stream.ReadFor(old(stream.Reached()), pos)
    {
      hide *;
      stream.MemberFacts(this);
      stream.ServiceIterators(pos);
      stream.HasBlock(this);
      r := here;
    }
  }
}

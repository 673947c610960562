/** The state of a query pipeline as a value, its invariant, and the steps that change it.
  *
  * The map of queries is cut in three by two iterators: queries before `first` have their answer,
  * those from `first` up to `second` are with the server, those from `second` on are waiting.  The
  * sequences `answered`, `pending` and `waiting` name the three parts.  The ledger `issued`
  * says which entry of the server's history is the execution of which query.
  */
module PipelineState {
  import opened Server
  import opened Wrappers

  /** The highest value of a query id; also the value of `error` while there is no error. */
  const QID_LIMIT: int := 0x7fff_ffff_ffff_ffff

  /** A position in the ordered map of queries. */
  datatype Iter = At(id: int) | End

  datatype Query = Query(text: string, res: Option<Reply>)

  /** Whether a result object has no rows in it. */
  predicate Empty(res: Option<Reply>) {
    res.None? || res.value.Failed? || res.value.rows == []
  }

  /** A stored result tells the truth about an answer: it is that answer, or both are failures. */
  ghost predicate Agrees(stored: Reply, answer: Reply) {
    stored == answer || (stored.Failed? && answer.Failed?)
  }

  ghost predicate Ascending(s: seq<int>) {
    forall i, j :: 0 <= i < j < |s| ==> s[i] < s[j]
  }

  ghost function HeadOf(s: seq<int>, otherwise: Iter): Iter {
    if s == [] then otherwise else At(s[0])
  }

  /** The position after `id` in the ordered map. */
  function Succ(keys: set<int>, id: int): Iter {
    if k :| k in keys && id < k && forall other :: other in keys && id < other ==> k <= other then At(k) else End
  }

  /** In an ascending list of all keys, the next position is the next element. */
  lemma SuccIsNext(keys: set<int>, s: seq<int>, i: nat)
    requires Ascending(s) && i < |s|
    requires forall id :: id in keys <==> id in s
    ensures Succ(keys, s[i]) == HeadOf(s[i + 1..], End)
  {
    if i + 1 < |s| {
      assert s[i + 1] in keys;
      forall other | other in keys && s[i] < other ensures s[i + 1] <= other {
        var j :| 0 <= j < |s| && s[j] == other;
      }
    } else {
      forall other | other in keys ensures other <= s[i] {
        var j :| 0 <= j < |s| && s[j] == other;
      }
    }
  }

  /** The list holds exactly the ids of the queries. */
  ghost predicate KeysAre(queries: map<int, Query>, order: seq<int>) {
    forall id :: id in queries <==> id in order
  }

  /** Every query of the list comes after every query that was ever executed. */
  ghost predicate Unissued(issued: seq<int>, s: seq<int>) {
    forall k, j :: 0 <= k < |issued| && 0 <= j < |s| ==> issued[k] < s[j]
  }

  /** No rows are stored for the queries of the list. */
  ghost predicate Blank(queries: map<int, Query>, s: seq<int>) {
    forall i :: 0 <= i < |s| ==> s[i] in queries && Empty(queries[s[i]].res)
  }

  /** The stored results of the queries of the list are the same in both maps. */
  ghost predicate SameResults(queries: map<int, Query>, queries': map<int, Query>, s: seq<int>) {
    forall i :: 0 <= i < |s| ==>
      s[i] in queries && s[i] in queries' && queries'[s[i]].res == queries[s[i]].res
  }

  /** The texts of the queries of the list. */
  ghost function Texts(log: seq<string>, s: seq<int>): (texts: seq<string>)
    requires Logged(log, s)
    ensures |texts| == |s|
    ensures forall i :: 0 <= i < |s| ==> texts[i] == log[s[i] - 1]
  {
    seq(|s|, i requires 0 <= i < |s| => log[s[i] - 1])
  }

  /** History entry k is the execution of query issued[k]; 0 marks the entries that are not ours. */
  ghost predicate RanTexts(h: History, log: seq<string>, issued: seq<int>) {
    && |issued| == |h|
    && (forall k :: 0 <= k < |h| && issued[k] != 0 ==> 1 <= issued[k] <= |log| && h[k] == Ran(log[issued[k] - 1]))
  }

  /** Queries run in order of id, each at most once. */
  ghost predicate InOrder(issued: seq<int>) {
    forall i, k :: 0 <= i < k < |issued| && issued[i] != 0 && issued[k] != 0 ==> issued[i] < issued[k]
  }

  ghost predicate LedgerOf(h: History, log: seq<string>, issued: seq<int>) {
    RanTexts(h, log, issued) && InOrder(issued)
  }

  /** All ids of the list are ids of logged queries. */
  ghost predicate Logged(log: seq<string>, ids: seq<int>) {
    forall i :: 0 <= i < |ids| ==> 1 <= ids[i] <= |log|
  }

  /** The history after the server ran the queries of the list, rolling them back if the last one
    * failed. */
  ghost function RunHistory(h: History, log: seq<string>, ids: seq<int>, failed: bool): (h': History)
    requires Logged(log, ids)
    ensures |h'| == |h| + |ids| + (if failed then 1 else 0) && h <= h'
    ensures forall j :: 0 <= j < |ids| ==> h'[|h| + j] == Ran(log[ids[j] - 1])
  {
    h + RanAll(Texts(log, ids)) + if failed then [RolledBack(|ids|)] else []
  }

  /** How many batches the server has refused. */
  ghost function Refusals(h: History): nat {
    if h == [] then 0
    else Refusals(h[..|h| - 1]) + if h[|h| - 1] == RolledBack(0) then 1 else 0
  }

  lemma {:induction false} RefusalsMore(h: History, more: History)
    ensures Refusals(h + more) == Refusals(h) + Refusals(more)
    decreases |more|
  {
    if more == [] {
      assert h + more == h;
    } else {
      var n := |more| - 1;
      RefusalsMore(h, more[..n]);
      assert (h + more)[..|h + more| - 1] == h + more[..n];
    }
  }

  lemma {:induction false} NoRefusals(h: History)
    requires forall k :: 0 <= k < |h| ==> h[k].Ran?
    ensures Refusals(h) == 0
  {
    if h != [] {
      NoRefusals(h[..|h| - 1]);
    }
  }

  /** Running queries is a refusal only if the server fails before it runs any. */
  lemma RefusalsRun(h: History, log: seq<string>, ids: seq<int>, failed: bool)
    requires Logged(log, ids)
    ensures Refusals(RunHistory(h, log, ids, failed)) == Refusals(h) + if failed && ids == [] then 1 else 0
  {
    hide Logged;
    var ran, end := RanAll(Texts(log, ids)), if failed then [RolledBack(|ids|)] else [];
    hide RanAll, Texts;
    RefusalsMore(h + ran, end);
    RefusalsMore(h, ran);
    NoRefusals(ran);
    assert failed ==> end[..0] == [];
  }

  lemma RefusalsOne(h: History, log: seq<string>, ids: seq<int>, failed: bool)
    requires Logged(log, ids) && ids != []
    ensures Logged(log, [ids[0]]) && 1 <= ids[0] <= |log|
    ensures Refusals(RunHistory(h, log, [ids[0]], failed)) == Refusals(h)
  {
    hide RunHistory, Refusals;
    RefusalsRun(h, log, [ids[0]], failed);
  }

  ghost function RunIssued(issued: seq<int>, ids: seq<int>, failed: bool): seq<int> {
    issued + ids + if failed then [0] else []
  }

  lemma InOrderExtends(issued: seq<int>, ids: seq<int>, failed: bool)
    requires InOrder(issued) && Ascending(ids) && Unissued(issued, ids)
    ensures InOrder(RunIssued(issued, ids, failed))
  {
  }

  lemma TextsExtend(h: History, log: seq<string>, issued: seq<int>, ids: seq<int>, failed: bool)
    requires RanTexts(h, log, issued) && Logged(log, ids)
    ensures RanTexts(RunHistory(h, log, ids, failed), log, RunIssued(issued, ids, failed))
  {
    hide RunHistory, RanAll;
    var h', issued' := RunHistory(h, log, ids, failed), RunIssued(issued, ids, failed);
    forall k | 0 <= k < |h'| && issued'[k] != 0
      ensures 1 <= issued'[k] <= |log| && h'[k] == Ran(log[issued'[k] - 1])
    {
      if k >= |h| {
        assert issued'[k] == ids[k - |h|];
        assert h'[|h| + (k - |h|)] == Ran(log[ids[k - |h|] - 1]);
      } else {
        assert issued'[k] == issued[k] && h'[k] == h[k];
      }
    }
  }

  /** Each query of the list was run by itself without an answer: what was last run that way are their
    * texts, in order. */
  ghost predicate Silenced(log: seq<string>, lost: seq<int>, silent: seq<string>) {
    && Logged(log, lost) && |lost| <= |silent|
    && silent[|silent| - |lost|..] == Texts(log, lost)
  }

  lemma SilencedGrows(log: seq<string>, lost: seq<int>, silent: seq<string>, text: string)
    requires Silenced(log, lost, silent)
    ensures Silenced(log + [text], lost, silent)
  {
    assert Texts(log + [text], lost) == Texts(log, lost);
  }

  lemma SilencedMore(log: seq<string>, lost: seq<int>, silent: seq<string>, id: int)
    requires Silenced(log, lost, silent) && 1 <= id <= |log|
    ensures Silenced(log, lost + [id], silent + [log[id - 1]])
  {
    assert Texts(log, lost + [id]) == Texts(log, lost) + [log[id - 1]];
    assert (silent + [log[id - 1]])[|silent| - |lost|..] == silent[|silent| - |lost|..] + [log[id - 1]];
  }

  /** Running queries that come after all earlier ones extends the ledger. */
  lemma LedgerExtends(h: History, log: seq<string>, issued: seq<int>, ids: seq<int>, failed: bool)
    requires LedgerOf(h, log, issued) && Ascending(ids) && Unissued(issued, ids) && Logged(log, ids)
    ensures LedgerOf(RunHistory(h, log, ids, failed), log, RunIssued(issued, ids, failed))
  {
    hide InOrder, Ascending, Unissued, RanTexts, RunHistory, RunIssued;
    InOrderExtends(issued, ids, failed);
    TextsExtend(h, log, issued, ids, failed);
  }

  datatype State = State(
    server: Server, history: History, replies: seq<Reply>, unfinished: bool,
    queries: map<int, Query>, first: Iter, second: Iter, numWaiting: int, lastId: int, dummy: bool, error: int,
    answered: seq<int>, pending: seq<int>, waiting: seq<int>,
    log: seq<string>, issued: seq<int>, next: nat, retaining: int, registered: bool,
    lost: seq<int>, silent: seq<string>, mute: int)
  {
    /** All ids in the map, in order. */
    ghost function Order(): seq<int> {
      answered + pending + waiting
    }

    /** The three parts partition the map by id, and the iterators stand between them. */
    ghost predicate Shape() {
      && Ascending(Order())
      && KeysAre(queries, Order())
      && second == HeadOf(waiting, End)
      && first == HeadOf(pending, second)
      && 0 <= lastId <= QID_LIMIT && |log| == lastId
      && (forall id :: id in queries ==> 1 <= id <= lastId && queries[id].text == log[id - 1])
    }

    ghost predicate Ledger() {
      LedgerOf(history, log, issued)
    }

    /** History entry `k` is the execution of query `id`. */
    ghost predicate RanAt(id: int, k: nat) {
      k < |history| && k < |issued| && issued[k] == id && history[k].Ran?
    }

    /** History entry `k` is the execution of query `id`, with this answer. */
    ghost predicate AnsweredAt(id: int, k: nat, reply: Reply) {
      RanAt(id, k) && reply == AnswerAt(server, history, k)
    }

    /** The server has answered the query, and the true answer is stored. */
    ghost predicate Holds(id: int) {
      && id in queries && queries[id].res.Some?
      && (|| (id in lost && queries[id].res.value.Failed?)
          || exists k: nat :: RanAt(id, k) && Agrees(queries[id].res.value, AnswerAt(server, history, k)))
    }

    ghost predicate Stored() {
      forall i :: 0 <= i < |answered| ==> Holds(answered[i])
    }

    /** The last thing the server did for us was to fail a query before `id`, and roll back. */
    ghost predicate Halted(id: int) {
      && |history| == |issued| && 2 <= |history|
      && history[|history| - 1].RolledBack? && history[|history| - 2].Ran?
      && issued[|history| - 1] == 0 && 0 < issued[|history| - 2] < id
      && AnswerAt(server, history, |history| - 2).Failed?
    }

    /** The server failed a query before `id`, or there was no answer to one. */
    ghost predicate Stopped(id: int) {
      Halted(id) || exists other :: other in lost && other < id
    }

    /** Replies `q` are the true answers to the first pending queries, one each. */
    ghost predicate Truthful(q: seq<Reply>) {
      && |q| <= |pending|
      && (forall j :: 0 <= j < |q| ==> AnsweredAt(pending[j], next + j, q[j]))
    }

    /** Replies `q` are on their way to the client; if there are fewer replies than queries then
      * the server stopped at a failure. */
    ghost predicate OnTheWay(q: seq<Reply>) {
      && Truthful(q)
      && (|q| < |pending| ==> Halted(pending[|q|]))
      && Unissued(issued, pending[|q|..])
    }

    /** The server refused the whole pending batch, and has done nothing since. */
    ghost predicate Refused() {
      && |replies| == 1 && replies[0].Failed?
      && history != [] && history[|history| - 1] == RolledBack(0)
      && Logged(log, pending)
      && server.refuses(history[..|history| - 1], Texts(log, pending))
      && Unissued(issued, pending)
    }

    /** What the unread replies mean. */
    ghost predicate InFlight() {
      if pending == [] then
        replies == [] && !dummy
      else
        && unfinished
        && if !dummy then OnTheWay(replies)
           else
             && replies != []
             && if replies[0].Failed? then Refused()
                else replies[0] == Rows(["1"]) && OnTheWay(replies[1..])
    }

    /** The error fence: once it is up, nothing is with the server, the answered queries are
      * exactly those below it, and the server did fail a query just below it.  While it is down
      * the number of waiting queries is exact.  (A fence at the very last id there is cannot be
      * told from no fence; then only that last query can be left.) */
    ghost predicate Fence() {
      && 0 <= numWaiting <= |waiting|
      && error <= QID_LIMIT
      && (error == QID_LIMIT ==>
            && (numWaiting == |waiting| || (numWaiting == 0 && waiting == [QID_LIMIT] && pending == []))
            && Blank(queries, waiting))
      && (error < QID_LIMIT ==>
            && pending == []
            && (forall i :: 0 <= i < |answered| ==> answered[i] < error)
            && (forall i :: 0 <= i < |waiting| ==> error <= waiting[i])
            && error <= lastId + 1
            && Stopped(error))
    }

    ghost predicate Good() {
      && Consistent(server)
      && 0 <= retaining
      && Shape()
      && Ledger()
      && Unissued(issued, waiting)
      && Silenced(log, lost, silent)
      && Stored()
      && Blank(queries, pending)
      && InFlight()
      && Fence()
    }

    /** The fence is up, or will be once everything that is pending has been received: the server refused
      * the batch, or stopped before its last query. */
    ghost predicate Doomed() {
      || error < QID_LIMIT
      || (pending != [] &&
          if dummy && replies != [] && replies[0].Failed? then true
          else |replies| - (if dummy then 1 else 0) < |pending|)
    }

    /** The reply to the dummy query is there, and says that the server refused the batch. */
    ghost predicate Refusal() {
      dummy && replies != [] && replies[0].Failed?
    }

    /** How many refused batches have been taken back and replayed. */
    ghost function Replays(): int {
      Refusals(history) - if Refusal() then 1 else 0
    }

    /** The pipeline is still registered with its transaction, unless a refused batch has been replayed. */
    ghost predicate Attends(s': State) {
      Replays() <= s'.Replays() && s'.registered == (registered && s'.Replays() == Replays())
    }

    /** What every operation keeps: the past stays as it was, and once the fence is up it stays where it
      * is, and nothing is sent to the server. */
    ghost predicate Onward(s': State) {
      && server == s'.server
      && history <= s'.history
      && issued <= s'.issued
      && log <= s'.log
      && s'.error <= error
      && (error < QID_LIMIT ==> s'.history == history && s'.error == error && s'.lost == lost)
      && lost <= s'.lost && silent <= s'.silent && |s'.lost| - |lost| == |s'.silent| - |silent|
      && s'.mute + |s'.silent| == mute + |silent|
    }

    /** What receiving keeps: the queries are the same, and those that had an answer keep it. */
    ghost predicate Received(s': State) {
      && Onward(s')
      && s'.Order() == Order()
      && answered <= s'.answered
      && SameResults(queries, s'.queries, answered)
      && s'.lastId == lastId && s'.log == log && s'.retaining == retaining
      && |waiting| <= |s'.waiting| && numWaiting <= s'.numWaiting
      && (s'.waiting == waiting || (s'.waiting != [] && s'.error <= s'.waiting[0]))
      && (s'.Doomed() ==> Doomed())
      && (lastId < QID_LIMIT - 1 && Doomed() ==> s'.Doomed())
      && Attends(s')
    }

    /** Files the next reply under the oldest pending query. */
    ghost function File(): State {
      if replies == [] || pending == [] || pending[0] !in queries then this
      else
        var id := pending[0];
        this.(replies := replies[1..],
              queries := queries[id := queries[id].(res := Some(replies[0]))],
              first := Succ(queries.Keys, id),
              answered := answered + [id], pending := pending[1..], next := next + 1)
    }

    /** Gives up on the pending queries: the fence rises to the oldest of them. */
    ghost function GiveUp(): State {
      if pending == [] then this.(unfinished := false)
      else
        this.(unfinished := false,
              error := if pending[0] < error then pending[0] else error,
              second := first,
              pending := [], waiting := pending + waiting)
    }

    /** The server has run the queries of the list. */
    ghost function Execute(ids: seq<int>, failed: bool): State
      requires Logged(log, ids) && Ascending(ids)
    {
      this.(history := RunHistory(history, log, ids, failed),
            issued := RunIssued(issued, ids, failed))
    }

    /** The waiting queries can be put in a batch. */
    ghost predicate Ready() {
      Logged(log, waiting) && Ascending(waiting)
    }

    /** The answers the server gives to the waiting queries, sent as one batch. */
    ghost function Answers(): seq<Reply>
      requires Ready()
    {
      if WillRefuse() then [] else Batch(server, history, Texts(log, waiting))
    }

    ghost predicate WillRefuse()
      requires Ready()
    {
      |waiting| > 1 && server.refuses(history, Texts(log, waiting))
    }

    /** If the waiting queries are sent as one batch, the server will refuse it or stop before its last
      * query. */
    ghost predicate Fails() {
      Ready() && (WillRefuse() || |Answers()| < |waiting|)
    }

    /** The waiting queries have been sent to the server as one batch. */
    ghost function Send(): State
      requires Ready()
    {
      var answers := Answers();
      var n := |answers|;
      Execute(waiting[..n], WillRefuse() || (n > 0 && answers[n - 1].Failed?)).(
        replies := if WillRefuse() then [Failed("refused")]
                   else (if |waiting| > 1 then [Rows(["1"])] else []) + answers,
        unfinished := true, next := |history|,
        first := second, second := End, numWaiting := numWaiting - |waiting|, dummy := |waiting| > 1,
        pending := waiting, waiting := [])
    }

    /** A new query has been added at the end of the map. */
    ghost function Insert(text: string): State {
      var id := lastId + 1;
      this.(queries := queries[id := Query(text, None)],
            first := if second.End? && first.End? then At(id) else first,
            second := if second.End? then At(id) else second,
            lastId := id, numWaiting := numWaiting + 1, waiting := waiting + [id], log := log + [text])
    }

    /** The i-th answered query has been erased. */
    ghost function Erase(i: nat): State
      requires i < |answered|
    {
      this.(queries := queries - {answered[i]}, answered := answered[..i] + answered[i + 1..])
    }

    /** All queries have been forgotten. */
    ghost function Clear(): State {
      this.(queries := map[], first := End, second := End, numWaiting := 0, dummy := false,
            answered := [], pending := [], waiting := [])
    }

    /** The refused batch has been taken back: its queries wait again, each with the same failure
      * for a result. */
    ghost function TakeBack(queries': map<int, Query>): State {
      this.(replies := [], unfinished := false, dummy := false, queries := queries',
            second := first, numWaiting := numWaiting + |pending|,
            pending := [], waiting := pending + waiting)
    }

    /** The oldest waiting query has been run by itself, with this answer.  A failure raises the
      * fence right behind it, and leaves the stored result alone. */
    ghost function Replay(reply: Reply): State
      requires waiting != [] && Logged(log, waiting) && waiting[0] in queries
    {
      var id := waiting[0];
      var next := HeadOf(waiting[1..], End);
      var fence := if next.End? then id + 1 else next.id;
      Execute([id], reply.Failed?).(
        queries := if reply.Failed? then queries else queries[id := queries[id].(res := Some(reply))],
        first := next, second := next, numWaiting := numWaiting - 1,
        error := if reply.Failed? && fence < error then fence else error,
        answered := answered + [id], waiting := waiting[1..])
    }

    /** Running the oldest waiting query by itself has ended without an answer, whether the server ran it
      * or not.  That raises the fence right behind it, and leaves the stored result alone. */
    ghost function ReplaySilent(ran: bool): State
      requires waiting != [] && Logged(log, waiting) && waiting[0] in queries
    {
      var id := waiting[0];
      var next := HeadOf(waiting[1..], End);
      var fence := if next.End? then id + 1 else next.id;
      (if ran then Execute([id], server.answer(history, log[id - 1]).Failed?) else this).(
        first := next, second := next, numWaiting := numWaiting - 1,
        error := if fence < error then fence else error,
        answered := answered + [id], waiting := waiting[1..],
        lost := lost + [id], silent := silent + [log[id - 1]], mute := mute - 1)
    }
  }

  /** The parts of an ascending list are ascending, and follow each other. */
  lemma Parts(a: seq<int>, p: seq<int>, w: seq<int>)
    requires Ascending(a + p + w)
    ensures Ascending(a) && Ascending(p) && Ascending(w)
    ensures forall i, j :: 0 <= i < |a| && 0 <= j < |p| ==> a[i] < p[j]
    ensures forall i, j :: 0 <= i < |a| && 0 <= j < |w| ==> a[i] < w[j]
    ensures forall i, j :: 0 <= i < |p| && 0 <= j < |w| ==> p[i] < w[j]
  {
    var order := a + p + w;
    assert forall i :: 0 <= i < |a| ==> order[i] == a[i];
    assert forall i :: 0 <= i < |p| ==> order[|a| + i] == p[i];
    assert forall i :: 0 <= i < |w| ==> order[|a| + |p| + i] == w[i];
  }

  /** Every id of a part is the id of a query. */
  ghost predicate Known(s: State, part: seq<int>) {
    forall i :: 0 <= i < |part| ==> 1 <= part[i] <= |s.log| <= QID_LIMIT && part[i] in s.queries
  }

  lemma PartKnown(s: State, part: seq<int>, k: nat)
    requires s.Shape() && k + |part| <= |s.Order()| && part == s.Order()[k..k + |part|]
    ensures Known(s, part)
  {
    var order := s.Order();
    forall i | 0 <= i < |part| ensures part[i] in s.queries {
      assert order[k + i] in order;
    }
  }

  /** What the order of the ids says about the parts and the bounds. */
  lemma Ordered(s: State)
    requires s.Shape()
    ensures s.first == HeadOf(s.pending, s.second) && s.second == HeadOf(s.waiting, End)
    ensures s.first == s.second <==> s.pending == []
    ensures |s.log| == s.lastId
    ensures Known(s, s.answered) && Known(s, s.pending) && Known(s, s.waiting)
    ensures Ascending(s.answered) && Ascending(s.pending) && Ascending(s.waiting)
    ensures forall i, j :: 0 <= i < |s.answered| && 0 <= j < |s.pending| ==> s.answered[i] < s.pending[j]
    ensures forall i, j :: 0 <= i < |s.answered| && 0 <= j < |s.waiting| ==> s.answered[i] < s.waiting[j]
    ensures forall i, j :: 0 <= i < |s.pending| && 0 <= j < |s.waiting| ==> s.pending[i] < s.waiting[j]
  {
    hide Ascending, KeysAre, Known;
    Parts(s.answered, s.pending, s.waiting);
    PartKnown(s, s.answered, 0);
    PartKnown(s, s.pending, |s.answered|);
    PartKnown(s, s.waiting, |s.answered| + |s.pending|);
  }

  /** True answers stay true when the server's history grows. */
  lemma StoredGrows(s: State, s': State)
    requires s.Stored() && s.server == s'.server && s.history <= s'.history
    requires s.issued <= s'.issued && s.lost <= s'.lost
    requires SameResults(s.queries, s'.queries, s.answered)
    ensures forall i :: 0 <= i < |s.answered| ==> s'.Holds(s.answered[i])
  {
    forall i | 0 <= i < |s.answered| ensures s'.Holds(s.answered[i]) {
      var id := s.answered[i];
      assert s.Holds(id);
      if id !in s.lost || !s.queries[id].res.value.Failed? {
        var k: nat :| s.RanAt(id, k) && Agrees(s.queries[id].res.value, AnswerAt(s.server, s.history, k));
        assert s'.history[..k] == s.history[..k];
        assert s'.RanAt(id, k);
      }
    }
  }

  lemma BlankOthers(queries: map<int, Query>, s: seq<int>, id: int, query: Query)
    requires Blank(queries, s) && id !in s
    ensures Blank(queries[id := query], s)
  {
  }

  lemma SameOthers(queries: map<int, Query>, s: seq<int>, id: int, query: Query)
    requires (forall i :: 0 <= i < |s| ==> s[i] in queries) && id !in s
    ensures SameResults(queries, queries[id := query], s)
  {
  }

  // ----- filing a reply ---------------------------------------------------------------------

  lemma FirstMoves(s: State)
    requires s.Shape() && s.pending != [] && s.replies != [] && s.pending[0] in s.queries
    ensures Succ(s.queries.Keys, s.pending[0]) == HeadOf(s.pending[1..] + s.waiting, End)
  {
    var order := s.Order();
    assert order[|s.answered|] == s.pending[0];
    assert order[|s.answered| + 1..] == s.pending[1..] + s.waiting;
    SuccIsNext(s.queries.Keys, order, |s.answered|);
  }

  lemma KeysStay(queries: map<int, Query>, order: seq<int>, id: int, query: Query)
    requires KeysAre(queries, order) && id in queries
    ensures KeysAre(queries[id := query], order)
  {
  }

  lemma FileShape(s: State)
    requires s.Shape() && s.pending != [] && s.replies != [] && s.pending[0] in s.queries
    ensures s.File().Shape() && s.File().Order() == s.Order()
  {
    hide Ascending, KeysAre, Succ;
    FirstMoves(s);
    var id, s' := s.pending[0], s.File();
    KeysStay(s.queries, s.Order(), id, s'.queries[id]);
    assert s'.Order() == s.Order();
  }

  lemma HeadHolds(s: State)
    requires s.Ledger() && s.OnTheWay(s.replies)
    requires s.pending != [] && s.replies != [] && s.pending[0] in s.queries && s.pending[0] != 0
    ensures s.File().Holds(s.pending[0])
  {
    assert s.AnsweredAt(s.pending[0], s.next + 0, s.replies[0]);
    assert s.File().RanAt(s.pending[0], s.next);
  }

  lemma NotAnswered(s: State)
    requires s.Shape() && s.pending != []
    ensures s.pending[0] !in s.answered && s.pending[0] != 0
    ensures forall i :: 0 <= i < |s.answered| ==> s.answered[i] in s.queries
  {
    hide State.Shape, Ascending;
    Ordered(s);
  }

  lemma AnsweredKept(s: State)
    requires s.Shape() && s.Stored()
    requires s.pending != [] && s.replies != [] && s.pending[0] in s.queries
    ensures SameResults(s.queries, s.File().queries, s.answered)
    ensures forall i :: 0 <= i < |s.answered| ==> s.File().Holds(s.answered[i])
    ensures s.pending[0] != 0
  {
    hide State.Shape, Ascending, State.Holds;
    NotAnswered(s);
    SameOthers(s.queries, s.answered, s.pending[0], s.File().queries[s.pending[0]]);
    StoredGrows(s, s.File());
  }

  lemma FileStored(s: State)
    requires s.Shape() && s.Ledger() && s.Stored() && s.OnTheWay(s.replies)
    requires s.pending != [] && s.replies != [] && s.pending[0] in s.queries
    ensures s.File().Stored()
    ensures SameResults(s.queries, s.File().queries, s.answered)
  {
    hide State.Shape, State.Ledger, State.OnTheWay, State.Holds, SameResults;
    AnsweredKept(s);
    HeadHolds(s);
    assert s.File().answered == s.answered + [s.pending[0]];
  }

  lemma FileOnTheWay(s: State)
    requires s.OnTheWay(s.replies) && s.replies != [] && s.pending[0] in s.queries
    ensures s.File().OnTheWay(s.File().replies)
  {
    hide Unissued, State.Halted;
    var s', q := s.File(), s.replies;
    assert s'.pending[|q| - 1..] == s.pending[|q|..];
    forall j | 0 <= j < |q| - 1
      ensures s'.AnsweredAt(s'.pending[j], s'.next + j, s'.replies[j])
    {
      assert s.AnsweredAt(s.pending[j + 1], s.next + (j + 1), q[j + 1]);
    }
    if |q| < |s.pending| {
      SameHalted(s, s', s.pending[|q|]);
    }
  }

  lemma FileFence(s: State)
    requires s.Shape() && s.Fence() && s.pending != [] && s.replies != [] && s.pending[0] in s.queries
    ensures s.error == QID_LIMIT && s.File().Fence()
  {
    hide State.Shape, Ascending, State.Halted, Blank;
    Ordered(s);
    var s' := s.File();
    BlankOthers(s.queries, s.waiting, s.pending[0], s'.queries[s.pending[0]]);
    assert s'.waiting == s.waiting;
  }

  lemma HeadNotInTail(s: seq<int>)
    requires Ascending(s) && s != []
    ensures s[0] !in s[1..]
  {
  }

  lemma BlankParts(queries: map<int, Query>, s: seq<int>)
    requires Blank(queries, s) && s != []
    ensures s[0] in queries && Empty(queries[s[0]].res) && Blank(queries, s[1..])
  {
  }

  lemma FileBlank(s: State)
    requires s.Shape() && Blank(s.queries, s.pending) && s.pending != [] && s.replies != []
    ensures s.pending[0] in s.queries && Empty(s.queries[s.pending[0]].res)
    ensures Blank(s.File().queries, s.File().pending)
  {
    hide State.Shape, Ascending, Blank, Known;
    Ordered(s);
    HeadNotInTail(s.pending);
    BlankParts(s.queries, s.pending);
    BlankOthers(s.queries, s.pending[1..], s.pending[0], s.File().queries[s.pending[0]]);
  }

  lemma HeadNonzero(s: State)
    requires s.Good() && s.replies != []
    ensures s.pending != [] && s.pending[0] in s.queries
  {
    hide State.Ledger, State.Stored, State.OnTheWay, State.Fence, Blank, Unissued, Consistent;
    Ordered(s);
  }

  lemma SameLedger(s: State, s': State)
    requires s.Ledger() && s'.issued == s.issued && s'.history == s.history && s'.log == s.log
    ensures s'.Ledger()
  {
  }

  /** Filing a reply keeps the invariant: the reply is the true answer to that query. */
  lemma FileKeeps(s: State)
    requires s.Good() && !s.dummy && s.replies != []
    ensures s.pending != [] && s.pending[0] in s.queries && Empty(s.queries[s.pending[0]].res)
    ensures s.File().Good() && s.Received(s.File())
  {
    hide State.Shape, State.Ledger, State.Stored, State.OnTheWay, State.Fence, Blank, SameResults, Unissued, Consistent;
    var s' := s.File();
    HeadNonzero(s);
    FileShape(s);
    FileStored(s);
    FileOnTheWay(s);
    FileFence(s);
    FileBlank(s);
    SameLedger(s, s');
    OnTheWayFits(s', s'.replies);
    assert s'.InFlight();
  }

  lemma OnTheWayFits(s: State, q: seq<Reply>)
    requires s.OnTheWay(q)
    ensures |q| <= |s.pending|
  {
  }

  // ----- giving up --------------------------------------------------------------------------

  lemma GiveUpFence(s: State)
    requires s.Shape() && s.Fence() && s.pending != [] && s.Halted(s.pending[0]) && Blank(s.queries, s.pending)
    ensures s.GiveUp().Fence()
  {
    hide State.Shape, State.Halted, Blank;
    Ordered(s);
    var s' := s.GiveUp();
    BlankJoin(s.queries, s.pending, s.waiting);
    SameHalted(s, s', s.pending[0]);
    assert |s.pending| > 1 ==> s.pending[0] < s.pending[1] <= QID_LIMIT;
    assert s.waiting != [] ==> s.pending[0] < s.waiting[0] <= QID_LIMIT;
  }

  lemma SameStopped(s: State, s': State, id: int)
    requires s.Stopped(id) && s'.history == s.history && s'.issued == s.issued && s'.server == s.server
    requires s.lost <= s'.lost
    ensures s'.Stopped(id)
  {
    hide State.Halted;
    if s.Halted(id) {
      SameHalted(s, s', id);
    } else {
      var i :| 0 <= i < |s.lost| && s.lost[i] < id;
      assert s'.lost[i] in s'.lost;
    }
  }

  lemma SameHalted(s: State, s': State, id: int)
    requires s.Halted(id) && s'.history == s.history && s'.issued == s.issued && s'.server == s.server
    ensures s'.Halted(id)
  {
  }

  lemma BlankJoin(queries: map<int, Query>, s: seq<int>, t: seq<int>)
    requires Blank(queries, s) && Blank(queries, t)
    ensures Blank(queries, s + t)
  {
  }

  lemma UnissuedJoin(issued: seq<int>, s: seq<int>, t: seq<int>)
    requires Unissued(issued, s) && Unissued(issued, t)
    ensures Unissued(issued, s + t)
  {
  }

  lemma GiveUpShape(s: State)
    requires s.Shape() && s.pending != []
    ensures s.GiveUp().Shape() && s.GiveUp().Order() == s.Order()
  {
    hide Ascending, KeysAre;
    assert s.GiveUp().Order() == s.Order();
  }

  lemma GiveUpStored(s: State)
    requires s.Stored()
    ensures s.GiveUp().Stored() && SameResults(s.queries, s.queries, s.answered)
  {
    forall i | 0 <= i < |s.answered| ensures s.answered[i] in s.queries {
      assert s.Holds(s.answered[i]);
    }
    StoredGrows(s, s.GiveUp());
  }

  /** A null result where a reply was due means that the server has stopped at a failure. */
  lemma IdsAtMost(s: State)
    requires s.Shape()
    ensures forall i :: 0 <= i < |s.pending| ==> s.pending[i] <= s.lastId
    ensures forall i :: 0 <= i < |s.waiting| ==> s.waiting[i] <= s.lastId
  {
    hide Ascending, KeysAre;
    Ordered(s);
  }

  lemma NoReplyMeansHalted(s: State)
    requires s.InFlight() && !s.dummy && s.replies == [] && s.pending != []
    ensures s.Halted(s.pending[0]) && Unissued(s.issued, s.pending)
  {
    assert s.pending[0..] == s.pending;
  }

  /** Giving up keeps the invariant. */
  lemma GiveUpKeeps(s: State)
    requires s.Good() && !s.dummy && s.replies == []
    ensures s.GiveUp().Good() && s.Received(s.GiveUp())
  {
    hide State.Shape, State.Ledger, State.Stored, State.OnTheWay, State.Halted, SameResults, Unissued, Consistent;
    var s' := s.GiveUp();
    GiveUpStored(s);
    SameLedger(s, s');
    if s.pending != [] {
      NoReplyMeansHalted(s);
      IdsAtMost(s);
      GiveUpFence(s);
      GiveUpShape(s);
      UnissuedJoin(s.issued, s.pending, s.waiting);
    } else {
      SameShape(s, s');
      SameFence(s, s');
    }
  }

  lemma SameShape(s: State, s': State)
    requires s.Shape() && s'.queries == s.queries && s'.first == s.first && s'.second == s.second
    requires s'.answered == s.answered && s'.pending == s.pending && s'.waiting == s.waiting
    requires s'.lastId == s.lastId && s'.log == s.log
    ensures s'.Shape()
  {
    hide Ascending, KeysAre;
  }

  lemma SameFence(s: State, s': State)
    requires s.Fence() && s'.error == s.error && s'.queries == s.queries && s'.numWaiting == s.numWaiting
    requires s'.lastId == s.lastId
    requires s'.answered == s.answered && s'.pending == s.pending && s'.waiting == s.waiting
    requires s'.history == s.history && s'.issued == s.issued && s'.server == s.server && s.lost <= s'.lost
    ensures s'.Fence()
  {
    hide Blank, State.Stopped;
    if s.error < QID_LIMIT {
      SameStopped(s, s', s.error);
    }
  }

  // ----- running queries --------------------------------------------------------------------

  lemma WaitingReady(s: State)
    requires s.Shape()
    ensures s.Ready()
  {
    hide State.Shape, Ascending;
    Ordered(s);
  }

  lemma UnissuedAfter(issued: seq<int>, ids: seq<int>, failed: bool, rest: seq<int>)
    requires Unissued(issued, rest)
    requires forall i, j :: 0 <= i < |ids| && 0 <= j < |rest| ==> ids[i] < rest[j]
    requires forall j :: 0 <= j < |rest| ==> 0 < rest[j]
    ensures Unissued(RunIssued(issued, ids, failed), rest)
  {
  }

  lemma UnissuedPart(issued: seq<int>, s: seq<int>, n: nat)
    requires Unissued(issued, s) && n <= |s|
    ensures Unissued(issued, s[..n]) && Unissued(issued, s[n..])
  {
  }

  lemma AscendingPart(s: seq<int>, n: nat)
    requires Ascending(s) && n <= |s|
    ensures Ascending(s[..n]) && Ascending(s[n..])
    ensures forall i, j :: 0 <= i < |s[..n]| && 0 <= j < |s[n..]| ==> s[..n][i] < s[n..][j]
  {
  }

  /** What the history says after the server ran the queries of the list. */
  lemma RunHistoryPrefix(h: History, log: seq<string>, ids: seq<int>, n: nat, failed: bool, k: nat)
    requires Logged(log, ids) && n <= |ids| && k < n
    ensures RunHistory(h, log, ids[..n], failed)[..|h| + k] == h + RanAll(Texts(log, ids)[..k])
    ensures RunHistory(h, log, ids[..n], failed)[|h| + k] == Ran(Texts(log, ids)[k])
  {
  }

  /** What Send() says about the history and the ledger. */
  lemma SendRecord(s: State)
    requires s.Ready() && |s.Answers()| <= |s.waiting|
    ensures var answers, s' := s.Answers(), s.Send();
            var n := |answers|;
            var failed := s.WillRefuse() || (n > 0 && answers[n - 1].Failed?);
            && Logged(s.log, s.waiting[..n])
            && s'.history == RunHistory(s.history, s.log, s.waiting[..n], failed)
            && s'.issued == RunIssued(s.issued, s.waiting[..n], failed)
            && s'.server == s.server
  {
    hide Ascending, Batch, RunHistory, RunIssued, State.Answers, Logged, State.WillRefuse;
    LoggedPart(s.log, s.waiting, |s.Answers()|);
  }

  lemma LoggedPart(log: seq<string>, ids: seq<int>, n: nat)
    requires Logged(log, ids) && n <= |ids|
    ensures Logged(log, ids[..n])
  {
  }

  lemma AnsweredFrom(s: State, id: int, k: nat, before: History, text: string, reply: Reply)
    requires k < |s.history| && k < |s.issued| && s.issued[k] == id
    requires s.history[k] == Ran(text) && s.history[..k] == before && reply == s.server.answer(before, text)
    ensures s.AnsweredAt(id, k, reply)
  {
  }

  lemma BatchAnswer(s: State, k: nat)
    requires s.Ready() && k < |s.Answers()| <= |s.waiting|
    ensures s.Answers()[k] == s.server.answer(s.history + RanAll(Texts(s.log, s.waiting)[..k]),
                                              Texts(s.log, s.waiting)[k])
    ensures s.Answers()[k].Failed? ==> k == |s.Answers()| - 1
  {
    hide Ascending, Logged, Texts, Batch;
    BatchAnswers(s.server, s.history, Texts(s.log, s.waiting), k);
  }

  lemma IssuedAt(issued: seq<int>, ids: seq<int>, n: nat, failed: bool, k: nat)
    requires k < n <= |ids|
    ensures |issued| + k < |RunIssued(issued, ids[..n], failed)|
    ensures RunIssued(issued, ids[..n], failed)[|issued| + k] == ids[k]
  {
  }

  /** The k-th answer of the batch is the true answer of the k-th waiting query. */
  lemma AnswerIsTrue(s: State, k: nat)
    requires |s.history| == |s.issued|
    requires s.Ready() && k < |s.Answers()| <= |s.waiting|
    ensures s.Send().AnsweredAt(s.waiting[k], |s.history| + k, s.Answers()[k])
    ensures s.Answers()[k].Failed? ==> k == |s.Answers()| - 1
  {
    hide Ascending, Batch, RunHistory, RunIssued, State.Send, Texts, State.Answers, State.WillRefuse, State.AnsweredAt,
      RanAll, Logged;
    SendRecord(s);
    BatchAnswer(s, k);
    var answers := s.Answers();
    var n := |answers|;
    var failed := s.WillRefuse() || (n > 0 && answers[n - 1].Failed?);
    RunHistoryPrefix(s.history, s.log, s.waiting, n, failed, k);
    IssuedAt(s.issued, s.waiting, n, failed, k);
    var texts := Texts(s.log, s.waiting);
    AnsweredFrom(s.Send(), s.waiting[k], |s.history| + k, s.history + RanAll(texts[..k]), texts[k], answers[k]);
  }

  lemma SendStored(s: State)
    requires s.Stored() && s.Ready()
    ensures s.Send().Stored()
  {
    hide State.Holds, Ascending, RunHistory, Batch;
    var s' := s.Send();
    QueriesStay(s);
    StoredGrows(s, s');
  }

  lemma QueriesStay(s: State)
    requires s.Stored()
    ensures SameResults(s.queries, s.queries, s.answered)
  {
    forall i | 0 <= i < |s.answered| ensures s.answered[i] in s.queries {
      assert s.Holds(s.answered[i]);
    }
  }

  lemma SendLedger(s: State)
    requires s.Ledger() && s.Ready() && Unissued(s.issued, s.waiting)
    ensures s.Send().Ledger() && Unissued(s.Send().issued, s.waiting[|s.Answers()|..])
  {
    hide Ascending, Unissued, Batch, LedgerOf;
    var n, answers := |s.Answers()|, s.Answers();
    var failed := s.WillRefuse() || (n > 0 && answers[n - 1].Failed?);
    AscendingPart(s.waiting, n);
    UnissuedPart(s.issued, s.waiting, n);
    LedgerExtends(s.history, s.log, s.issued, s.waiting[..n], failed);
    UnissuedAfter(s.issued, s.waiting[..n], failed, s.waiting[n..]);
  }

  /** If the server stopped short of the last query then it stopped at a failure. */
  lemma HaltedFrom(s: State, id: int, last: int, reply: Reply)
    requires |s.history| == |s.issued| && 2 <= |s.history|
    requires s.history[|s.history| - 1].RolledBack? && s.issued[|s.issued| - 1] == 0
    requires s.AnsweredAt(last, |s.history| - 2, reply) && reply.Failed? && 0 < last < id
    ensures s.Halted(id)
  {
  }

  lemma SendHalts(s: State)
    requires s.Ledger() && s.Ready()
    requires !s.WillRefuse() && 0 < |s.Answers()| < |s.waiting|
    ensures s.Send().Halted(s.waiting[|s.Answers()|])
  {
    hide State.Send, State.Answers, LedgerOf, State.AnsweredAt, State.Halted;
    var n := |s.Answers()|;
    LedgerLengths(s);
    AnswerIsTrue(s, n - 1);
    BatchFailed(s);
    SendTail(s);
    HaltedFrom(s.Send(), s.waiting[n], s.waiting[n - 1], s.Answers()[n - 1]);
  }

  lemma BatchFailed(s: State)
    requires s.Ready() && !s.WillRefuse() && 0 < |s.Answers()| < |s.waiting|
    ensures s.Answers()[|s.Answers()| - 1].Failed?
  {
    hide Ascending, Logged;
  }

  lemma SendTail(s: State)
    requires s.Ready() && |s.history| == |s.issued| && s.Answers() != []
    requires s.Answers()[|s.Answers()| - 1].Failed?
    ensures var s', n := s.Send(), |s.Answers()|;
            && s'.server == s.server
            && |s'.history| == |s'.issued| == |s.history| + n + 1
            && s'.issued[|s'.issued| - 1] == 0
            && s'.history[|s'.history| - 1] == RolledBack(n)
  {
    hide Ascending, Logged, Batch;
  }

  lemma AnswersAreTrue(s: State)
    requires s.Ready() && |s.history| == |s.issued| && !s.WillRefuse()
    ensures |s.Answers()| <= |s.waiting|
    ensures forall j :: 0 <= j < |s.Answers()| ==>
              s.Send().AnsweredAt(s.waiting[j], |s.history| + j, s.Answers()[j])
  {
    hide State.Ready, State.AnsweredAt, State.Answers, State.Send;
    AnswersFit(s);
    forall j | 0 <= j < |s.Answers()| ensures s.Send().AnsweredAt(s.waiting[j], |s.history| + j, s.Answers()[j]) {
      AnswerIsTrue(s, j);
    }
  }

  lemma TruthfulFrom(s: State, ids: seq<int>, base: nat, q: seq<Reply>)
    requires s.pending == ids && s.next == base && |q| <= |ids|
    requires forall j :: 0 <= j < |q| ==> s.AnsweredAt(ids[j], base + j, q[j])
    ensures s.Truthful(q)
  {
    hide State.AnsweredAt;
  }

  lemma SendFields(s: State)
    requires s.Ready()
    ensures s.Send().pending == s.waiting && s.Send().next == |s.history| && s.Send().server == s.server
  {
    hide State.Ready, State.Answers, RunHistory, RunIssued, State.WillRefuse;
  }

  lemma SendTruthful(s: State)
    requires s.Ready() && |s.history| == |s.issued| && !s.WillRefuse()
    ensures s.Send().Truthful(s.Answers())
  {
    hide State.Ready, State.AnsweredAt, State.Answers, State.Send, State.Truthful;
    AnswersAreTrue(s);
    SendFields(s);
    TruthfulFrom(s.Send(), s.waiting, |s.history|, s.Answers());
  }

  lemma AnswersFit(s: State)
    requires s.Ready()
    ensures |s.Answers()| <= |s.waiting|
    ensures s.waiting != [] && !s.WillRefuse() ==> s.Answers() != []
  {
    hide Ascending;
  }

  lemma SendOnTheWay(s: State)
    requires s.Ready() && s.Ledger() && Unissued(s.issued, s.waiting) && s.waiting != [] && !s.WillRefuse()
    ensures s.Send().OnTheWay(s.Answers())
  {
    hide Ascending, Batch, RunHistory, State.Ready, State.Truthful, Logged, State.Ledger, Unissued, State.Halted;
    AnswersFit(s);
    LedgerLengths(s);
    SendTruthful(s);
    SendLedger(s);
    if |s.Answers()| < |s.waiting| {
      SendHalts(s);
    }
  }

  lemma LedgerLengths(s: State)
    requires s.Ledger()
    ensures |s.issued| == |s.history|
  {
    hide InOrder;
  }

  lemma SendRefused(s: State)
    requires s.Ready() && s.Ledger() && Unissued(s.issued, s.waiting) && s.WillRefuse()
    ensures s.Send().Refused()
  {
    hide Ascending, Unissued;
    SendLedger(s);
    var s' := s.Send();
    assert s'.history == s.history + [RolledBack(0)];
    assert s'.history[..|s'.history| - 1] == s.history;
    assert s.waiting[0..] == s.waiting;
  }

  lemma SendInFlight(s: State)
    requires s.Ready() && s.Ledger() && Unissued(s.issued, s.waiting) && s.waiting != []
    ensures s.Send().InFlight()
  {
    hide Ascending, Batch, State.Ready, Logged, State.Ledger, Unissued, State.OnTheWay, State.Refused;
    var s' := s.Send();
    if s.WillRefuse() {
      SendRefused(s);
    } else {
      SendOnTheWay(s);
      assert |s.waiting| > 1 ==> s'.replies[1..] == s.Answers();
      assert |s.waiting| == 1 ==> s'.replies == s.Answers();
    }
  }

  lemma SendShape(s: State)
    requires s.Shape() && s.pending == [] && s.Ready()
    ensures s.Send().Shape() && s.Send().Order() == s.Order()
  {
    hide Ascending, KeysAre, Batch, RunHistory, State.Ready;
    assert s.Send().Order() == s.Order();
  }

  /** A batch that is refused is not replayed yet. */
  lemma SendAttends(s: State)
    requires s.Ready() && !s.Refusal()
    ensures s.Attends(s.Send())
  {
    hide Ascending, Batch, RunHistory, RunIssued, Refusals, Logged;
    var answers := s.Answers();
    var n := |answers|;
    LoggedPart(s.log, s.waiting, n);
    RefusalsRun(s.history, s.log, s.waiting[..n], s.WillRefuse() || (n > 0 && answers[n - 1].Failed?));
  }

  lemma SendPrefix(s: State)
    requires s.Ready()
    ensures s.history <= s.Send().history && s.issued <= s.Send().issued
  {
    hide Ascending, Batch;
  }

  /** Sending the waiting queries keeps the invariant. */
  lemma SendKeeps(s: State)
    requires s.Good() && s.pending == [] && s.error == QID_LIMIT && 0 < s.numWaiting
    ensures s.Ready() && s.waiting != []
    ensures s.Send().Good() && s.Onward(s.Send()) && s.Send().Order() == s.Order()
    ensures s.Send().numWaiting == 0
  {
    hide State.Shape, State.Ledger, State.Stored, Unissued, Consistent, Blank, State.Ready, State.InFlight, Batch,
      RunHistory;
    WaitingReady(s);
    SendInFlight(s);
    SendLedger(s);
    SendStored(s);
    SendShape(s);
    SendPrefix(s);
    var s' := s.Send();
    BlankEmpty(s'.queries);
    UnissuedEmpty(s'.issued);
  }

  lemma BlankEmpty(queries: map<int, Query>)
    ensures Blank(queries, [])
  {
  }

  lemma UnissuedEmpty(issued: seq<int>)
    ensures Unissued(issued, [])
  {
  }

  // ----- inserting, erasing, clearing -------------------------------------------------------

  lemma KeysGrow(queries: map<int, Query>, order: seq<int>, id: int, query: Query)
    requires KeysAre(queries, order)
    ensures KeysAre(queries[id := query], order + [id])
  {
  }

  lemma AscendingGrow(s: seq<int>, id: int)
    requires Ascending(s) && forall i :: 0 <= i < |s| ==> s[i] < id
    ensures Ascending(s + [id])
  {
  }

  lemma OrderKnown(s: State)
    requires s.Shape()
    ensures forall i :: 0 <= i < |s.Order()| ==> 1 <= s.Order()[i] <= s.lastId
    ensures s.lastId + 1 !in s.queries
  {
    hide Ascending;
    var order := s.Order();
    forall i | 0 <= i < |order| ensures 1 <= order[i] <= s.lastId {
      assert KeysAre(s.queries, order) && order[i] in order;
    }
  }

  lemma InsertShape(s: State, text: string)
    requires s.Shape() && s.lastId < QID_LIMIT
    ensures s.Insert(text).Shape() && s.Insert(text).Order() == s.Order() + [s.lastId + 1]
  {
    hide Ascending, KeysAre;
    var s', id := s.Insert(text), s.lastId + 1;
    OrderKnown(s);
    KeysGrow(s.queries, s.Order(), id, Query(text, None));
    AscendingGrow(s.Order(), id);
    assert s'.Order() == s.Order() + [id];
  }

  lemma LogGrows(h: History, log: seq<string>, issued: seq<int>, text: string)
    requires LedgerOf(h, log, issued)
    ensures LedgerOf(h, log + [text], issued)
    ensures Unissued(issued, [|log| + 1])
  {
    hide InOrder;
  }

  lemma InsertStored(s: State, text: string)
    requires s.Shape() && s.Stored()
    ensures s.Insert(text).Stored() && SameResults(s.queries, s.Insert(text).queries, s.answered)
  {
    hide State.Holds, Ascending;
    QueriesStay(s);
    OrderKnown(s);
    assert s.lastId + 1 !in s.answered by {
      hide State.Shape;
      SameInQueries(s);
    }
    SameOthers(s.queries, s.answered, s.lastId + 1, Query(text, None));
    StoredGrows(s, s.Insert(text));
  }

  lemma SameInQueries(s: State)
    requires SameResults(s.queries, s.queries, s.answered)
    ensures forall i :: 0 <= i < |s.answered| ==> s.answered[i] in s.queries
  {
  }

  lemma InsertInFlight(s: State, text: string)
    requires s.InFlight()
    ensures s.Insert(text).InFlight()
  {
    hide Unissued, State.Halted;
    var s' := s.Insert(text);
    if s.pending != [] {
      if s.dummy && s.replies[0].Failed? {
        assert Texts(s'.log, s.pending) == Texts(s.log, s.pending);
      } else {
        SameOnTheWay(s, s', if s.dummy then s.replies[1..] else s.replies);
      }
    }
  }

  lemma SameOnTheWay(s: State, s': State, q: seq<Reply>)
    requires s.OnTheWay(q)
    requires s'.pending == s.pending && s'.next == s.next
    requires s'.history == s.history && s'.issued == s.issued && s'.server == s.server
    ensures s'.OnTheWay(q)
  {
    hide Unissued, State.Halted;
    assert forall j :: 0 <= j < |q| ==> s.AnsweredAt(s.pending[j], s.next + j, q[j]);
    if |q| < |s.pending| {
      SameHalted(s, s', s.pending[|q|]);
    }
  }

  lemma InsertFence(s: State, text: string)
    requires s.Shape() && s.Fence() && s.lastId < QID_LIMIT
    ensures s.Insert(text).Fence()
  {
    hide Ascending, Blank, KeysAre, State.Halted;
    var s', id := s.Insert(text), s.lastId + 1;
    OrderKnown(s);
    if s.error == QID_LIMIT {
      Ordered(s);
      BlankOthers(s.queries, s.waiting, id, Query(text, None));
      BlankNew(s.queries, id, text);
      BlankJoin(s'.queries, s.waiting, [id]);
    } else {
      SameStopped(s, s', s.error);
    }
  }

  lemma BlankNew(queries: map<int, Query>, id: int, text: string)
    ensures Blank(queries[id := Query(text, None)], [id])
  {
  }

  /** Inserting keeps the invariant. */
  lemma InsertKeeps(s: State, text: string)
    requires s.Good() && s.lastId < QID_LIMIT
    ensures s.Insert(text).Good() && s.Onward(s.Insert(text))
    ensures s.Insert(text).Order() == s.Order() + [s.lastId + 1]
  {
    hide State.Shape, State.Stored, State.Fence, State.InFlight, Blank, Unissued, Consistent, LedgerOf;
    var s' := s.Insert(text);
    InsertShape(s, text);
    InsertStored(s, text);
    InsertInFlight(s, text);
    InsertFence(s, text);
    LogGrows(s.history, s.log, s.issued, text);
    SilencedGrows(s.log, s.lost, s.silent, text);
    InsertPending(s);
    BlankOthers(s.queries, s.pending, s.lastId + 1, Query(text, None));
    UnissuedJoin(s.issued, s.waiting, [s.lastId + 1]);
  }

  lemma InsertPending(s: State)
    requires s.Shape()
    ensures |s.log| == s.lastId && s.lastId + 1 !in s.pending
  {
    hide State.Shape, Ascending;
    Ordered(s);
  }

  lemma EraseShape(s: State, i: nat)
    requires s.Shape() && i < |s.answered|
    ensures s.Erase(i).Shape()
    ensures s.Erase(i).Order() == s.Order()[..i] + s.Order()[i + 1..]
  {
    hide Ascending, KeysAre;
    var s', order := s.Erase(i), s.Order();
    assert s'.Order() == order[..i] + order[i + 1..];
    assert order[i] == s.answered[i];
    AscendingDrop(order, i);
    KeysDrop(s.queries, order, i);
  }

  lemma AscendingDrop(s: seq<int>, i: nat)
    requires Ascending(s) && i < |s|
    ensures Ascending(s[..i] + s[i + 1..])
    ensures s[i] !in s[..i] + s[i + 1..]
  {
  }

  lemma KeysDrop(queries: map<int, Query>, order: seq<int>, i: nat)
    requires KeysAre(queries, order) && i < |order| && order[i] !in order[..i] + order[i + 1..]
    ensures KeysAre(queries - {order[i]}, order[..i] + order[i + 1..])
  {
    forall id | id in queries - {order[i]} ensures id in order[..i] + order[i + 1..] {
      var j :| 0 <= j < |order| && order[j] == id;
      assert order == order[..i] + [order[i]] + order[i + 1..];
    }
  }

  lemma EraseStored(s: State, i: nat)
    requires s.Shape() && s.Stored() && i < |s.answered|
    ensures s.Erase(i).Stored()
  {
    hide State.Shape;
    var s', id := s.Erase(i), s.answered[i];
    Ordered(s);
    AscendingDrop(s.answered, i);
    hide Ascending;
    forall j | 0 <= j < |s'.answered| ensures s'.Holds(s'.answered[j]) {
      var other := s'.answered[j];
      assert other in s'.answered && other != id;
      assert s.Holds(other);
      if other !in s.lost || !s.queries[other].res.value.Failed? {
        var k: nat :| s.RanAt(other, k) && Agrees(s.queries[other].res.value, AnswerAt(s.server, s.history, k));
        assert s'.RanAt(other, k);
      }
    }
  }

  lemma EraseBlank(s: State, i: nat)
    requires s.Shape() && i < |s.answered|
    ensures Blank(s.queries, s.pending) ==> Blank(s.Erase(i).queries, s.pending)
    ensures Blank(s.queries, s.waiting) ==> Blank(s.Erase(i).queries, s.waiting)
  {
    hide State.Shape, Ascending;
    Ordered(s);
  }

  lemma EraseInFlight(s: State, i: nat)
    requires s.InFlight() && i < |s.answered|
    ensures s.Erase(i).InFlight()
  {
    hide Unissued, State.Halted;
    var s' := s.Erase(i);
    if s.pending != [] && !(s.dummy && s.replies[0].Failed?) {
      SameOnTheWay(s, s', if s.dummy then s.replies[1..] else s.replies);
    }
  }

  /** Erasing an answered query keeps the invariant. */
  lemma EraseKeeps(s: State, i: nat)
    requires s.Good() && i < |s.answered|
    ensures s.Erase(i).Good() && s.Onward(s.Erase(i))
    ensures s.Erase(i).Order() == s.Order()[..i] + s.Order()[i + 1..]
  {
    hide State.Shape, State.Stored, State.InFlight, Blank, Unissued, Consistent, LedgerOf, State.Halted;
    EraseShape(s, i);
    EraseStored(s, i);
    EraseBlank(s, i);
    EraseInFlight(s, i);
    if s.error < QID_LIMIT {
      SameStopped(s, s.Erase(i), s.error);
    }
  }

  /** Forgetting everything keeps the invariant once nothing is pending. */
  lemma ClearKeeps(s: State)
    requires s.Good() && s.pending == []
    ensures s.Clear().Good() && s.Onward(s.Clear()) && s.Clear().Order() == []
  {
    hide Unissued, Consistent, LedgerOf, State.Halted;
    var s' := s.Clear();
    UnissuedEmpty(s.issued);
    BlankEmpty(map[]);
    if s.error < QID_LIMIT {
      SameStopped(s, s', s.error);
    }
  }

  // ----- the dummy query and the replay -----------------------------------------------------

  /** Reading the dummy query's own answer keeps the invariant. */
  lemma DummyKeeps(s: State)
    requires s.Good() && s.dummy && !s.replies[0].Failed?
    ensures s.replies != [] && s.pending != [] && s.replies[0] == Rows(["1"])
    ensures var s' := s.(replies := s.replies[1..], dummy := false); s'.Good() && s.Received(s')
  {
    hide State.Shape, State.Stored, Blank, Unissued, Consistent, LedgerOf, State.Halted, State.Truthful;
    var s' := s.(replies := s.replies[1..], dummy := false);
    SameOnTheWay(s, s', s'.replies);
    SameShape(s, s');
    QueriesStay(s);
    StoredGrows(s, s');
    SameFence(s, s');
    hide State.OnTheWay;
    StoredFrom(s');
  }

  lemma StoredFrom(s: State)
    requires forall i :: 0 <= i < |s.answered| ==> s.Holds(s.answered[i])
    ensures s.Stored()
  {
  }

  /** A map in which the queries of the list have the given result, and the others their own. */
  ghost predicate Marked(queries: map<int, Query>, queries': map<int, Query>, ids: seq<int>, res: Reply) {
    && queries'.Keys == queries.Keys
    && (forall id :: id in queries ==>
          queries'[id] == if id in ids then queries[id].(res := Some(res)) else queries[id])
  }

  lemma MarkedShape(s: State, queries': map<int, Query>, res: Reply)
    requires s.Shape() && Marked(s.queries, queries', s.pending, res)
    ensures s.TakeBack(queries').Shape() && s.TakeBack(queries').Order() == s.Order()
  {
    hide Ascending;
    var s' := s.TakeBack(queries');
    assert s'.Order() == s.Order();
  }

  lemma MarkedResults(s: State, queries': map<int, Query>, res: Reply)
    requires s.Shape() && Marked(s.queries, queries', s.pending, res) && res.Failed?
    ensures SameResults(s.queries, queries', s.answered)
    ensures Blank(queries', s.pending)
    ensures Blank(s.queries, s.waiting) ==> Blank(queries', s.waiting)
  {
    hide State.Shape, Ascending;
    Ordered(s);
  }

  lemma RefusedFacts(s: State)
    requires s.Good() && s.dummy && s.replies != [] && s.replies[0].Failed?
    ensures s.replies == [s.replies[0]] && s.pending != []
    ensures s.history != [] && Logged(s.log, s.pending) && Unissued(s.issued, s.pending)
    ensures Culprit(s.server, s.history, Texts(s.log, s.pending)) < |s.pending|
  {
    hide State.Shape, State.Stored, Blank, Unissued, LedgerOf, State.Fence;
    var h := s.history[..|s.history| - 1];
    assert s.history == h + [RolledBack(0)];
  }

  lemma TakeBackFence(s: State, queries': map<int, Query>, res: Reply)
    requires s.Shape() && s.Fence() && s.pending != []
    requires Marked(s.queries, queries', s.pending, res) && res.Failed?
    ensures s.TakeBack(queries').Fence()
  {
    hide State.Shape, Ascending, Blank, Marked, State.Halted;
    MarkedResults(s, queries', res);
    BlankJoin(queries', s.pending, s.waiting);
  }

  /** Taking back a refused batch keeps the invariant. */
  lemma TakeBackKeeps(s: State, queries': map<int, Query>, res: Reply)
    requires s.Good() && s.dummy && s.replies != [] && s.replies[0].Failed?
    requires Marked(s.queries, queries', s.pending, res) && res.Failed?
    ensures s.TakeBack(queries').Good() && s.Onward(s.TakeBack(queries'))
    ensures s.TakeBack(queries').Order() == s.Order()
    ensures SameResults(s.queries, queries', s.answered)
    ensures s.error == QID_LIMIT && s.TakeBack(queries').numWaiting == |s.TakeBack(queries').waiting|
  {
    hide State.Shape, State.Stored, Blank, Unissued, Consistent, LedgerOf, State.Halted, Marked, SameResults;
    var s' := s.TakeBack(queries');
    RefusedFacts(s);
    MarkedShape(s, queries', res);
    MarkedResults(s, queries', res);
    TakeBackFence(s, queries', res);
    StoredGrows(s, s');
    StoredFrom(s');
    UnissuedJoin(s.issued, s.pending, s.waiting);
    BlankEmpty(queries');
  }

  lemma ReplayShape(s: State, reply: Reply)
    requires s.Shape() && s.pending == [] && s.waiting != [] && Logged(s.log, s.waiting) && s.waiting[0] in s.queries
    ensures s.Replay(reply).Shape() && s.Replay(reply).Order() == s.Order()
  {
    hide Ascending, KeysAre, RunHistory;
    var s', id := s.Replay(reply), s.waiting[0];
    assert s'.Order() == s.Order();
    KeysStay(s.queries, s.Order(), id, s.queries[id].(res := Some(reply)));
  }

  lemma ReplayLedger(s: State, reply: Reply)
    requires s.Shape() && s.Ledger() && Unissued(s.issued, s.waiting)
    requires s.waiting != [] && Logged(s.log, s.waiting) && s.waiting[0] in s.queries
    ensures s.Replay(reply).Ledger() && Unissued(s.Replay(reply).issued, s.waiting[1..])
  {
    hide State.Shape, LedgerOf, Unissued;
    Ordered(s);
    var id := s.waiting[0];
    assert s.waiting[..1] == [id];
    UnissuedPart(s.issued, s.waiting, 1);
    AscendingPart(s.waiting, 1);
    LedgerExtends(s.history, s.log, s.issued, [id], reply.Failed?);
    UnissuedAfter(s.issued, [id], reply.Failed?, s.waiting[1..]);
  }

  lemma ReplayHolds(s: State, reply: Reply)
    requires |s.history| == |s.issued| && s.waiting != [] && Logged(s.log, s.waiting) && s.waiting[0] in s.queries
    requires reply == s.server.answer(s.history, s.log[s.waiting[0] - 1])
    requires reply.Failed? ==> s.queries[s.waiting[0]].res.Some? && s.queries[s.waiting[0]].res.value.Failed?
    ensures s.Replay(reply).AnsweredAt(s.waiting[0], |s.history|, reply)
    ensures s.Replay(reply).Holds(s.waiting[0])
  {
    var s', k := s.Replay(reply), |s.history|;
    assert s'.history[..k] == s.history;
    assert s'.RanAt(s.waiting[0], k);
  }

  lemma ReplayResults(s: State, reply: Reply)
    requires s.Shape() && s.waiting != [] && Logged(s.log, s.waiting) && s.waiting[0] in s.queries
    ensures SameResults(s.queries, s.Replay(reply).queries, s.answered)
    ensures SameResults(s.queries, s.Replay(reply).queries, s.waiting[1..])
  {
    hide State.Shape, RunHistory;
    Ordered(s);
    hide Ascending;
    HeadNotInTail(s.waiting);
    assert s.waiting[0] !in s.answered;
    SameOthers(s.queries, s.answered, s.waiting[0], s.queries[s.waiting[0]].(res := Some(reply)));
    SameOthers(s.queries, s.waiting[1..], s.waiting[0], s.queries[s.waiting[0]].(res := Some(reply)));
  }

  lemma ReplayHalted(s: State, reply: Reply, id: int)
    requires |s.history| == |s.issued| && s.waiting != [] && Logged(s.log, s.waiting) && s.waiting[0] in s.queries
    requires reply == s.server.answer(s.history, s.log[s.waiting[0] - 1]) && reply.Failed?
    requires s.waiting[0] < id
    ensures s.Replay(reply).Halted(id)
  {
    var s', k := s.Replay(reply), |s.history|;
    assert s'.history[..k] == s.history;
    HaltedFrom(s', id, s.waiting[0], reply);
  }

  lemma BlankSame(queries: map<int, Query>, queries': map<int, Query>, s: seq<int>)
    requires Blank(queries, s) && SameResults(queries, queries', s)
    ensures Blank(queries', s)
  {
  }

  lemma ReplayFence(s: State, reply: Reply)
    requires s.Shape() && s.Fence() && s.pending == [] && s.error == QID_LIMIT && 0 < s.numWaiting
    requires |s.history| == |s.issued|
    requires s.waiting != [] && Logged(s.log, s.waiting) && s.waiting[0] in s.queries
    requires reply == s.server.answer(s.history, s.log[s.waiting[0] - 1])
    ensures s.Replay(reply).Fence()
    ensures s.Replay(reply).numWaiting == |s.Replay(reply).waiting|
  {
    hide State.Shape, State.Halted, Blank, SameResults, RunHistory, RunIssued, KeysAre;
    ReplayResults(s, reply);
    Ordered(s);
    BlankParts(s.queries, s.waiting);
    var s', id := s.Replay(reply), s.waiting[0];
    BlankSame(s.queries, s'.queries, s.waiting[1..]);
    if reply.Failed? {
      var fence := if |s.waiting| == 1 then id + 1 else s.waiting[1];
      ReplayHalted(s, reply, fence);
    }
  }

  lemma ReplayPrefix(s: State, reply: Reply)
    requires s.waiting != [] && Logged(s.log, s.waiting) && s.waiting[0] in s.queries
    ensures s.history <= s.Replay(reply).history && s.issued <= s.Replay(reply).issued
  {
  }

  /** Running the oldest waiting query by itself keeps the invariant. */
  lemma ReplayKeeps(s: State, reply: Reply)
    requires s.Good() && s.pending == [] && s.error == QID_LIMIT && 0 < s.numWaiting
    requires s.waiting != [] && Logged(s.log, s.waiting) && s.waiting[0] in s.queries
    requires reply == s.server.answer(s.history, s.log[s.waiting[0] - 1])
    requires reply.Failed? ==> s.queries[s.waiting[0]].res.Some? && s.queries[s.waiting[0]].res.value.Failed?
    ensures s.Replay(reply).Good() && s.Onward(s.Replay(reply)) && s.Replay(reply).Order() == s.Order()
    ensures SameResults(s.queries, s.Replay(reply).queries, s.answered)
    ensures SameResults(s.queries, s.Replay(reply).queries, s.waiting[1..])
    ensures s.Replay(reply).numWaiting == |s.Replay(reply).waiting|
  {
    hide State.Shape, State.Ledger, State.Stored, Blank, Unissued, Consistent, State.Fence, SameResults, RunHistory,
      RunIssued, State.Holds;
    LedgerLengths(s);
    FenceDown(s);
    var s' := s.Replay(reply);
    ReplayShape(s, reply);
    ReplayLedger(s, reply);
    ReplayHolds(s, reply);
    ReplayResults(s, reply);
    ReplayFence(s, reply);
    ReplayPrefix(s, reply);
    StoredGrows(s, s');
    StoredFrom(s');
    BlankEmpty(s'.queries);
  }

  lemma SilentShape(s: State, ran: bool)
    requires s.Shape() && s.pending == [] && s.waiting != [] && Logged(s.log, s.waiting) && s.waiting[0] in s.queries
    ensures s.ReplaySilent(ran).Shape() && s.ReplaySilent(ran).Order() == s.Order()
  {
    hide State.Shape, RunHistory, RunIssued, HeadOf;
    ReplayShape(s, Failed(""));
    SameShape(s.Replay(Failed("")), s.ReplaySilent(ran));
  }

  lemma SilentLedger(s: State, ran: bool)
    requires s.Shape() && s.Ledger() && Unissued(s.issued, s.waiting)
    requires s.waiting != [] && Logged(s.log, s.waiting) && s.waiting[0] in s.queries
    ensures var s' := s.ReplaySilent(ran);
            s'.Ledger() && Unissued(s'.issued, s.waiting[1..]) && s.history <= s'.history && s.issued <= s'.issued
  {
    hide State.Shape, State.Ledger, Unissued, RunHistory, RunIssued, HeadOf;
    var reply := s.server.answer(s.history, s.log[s.waiting[0] - 1]);
    if ran {
      ReplayLedger(s, reply);
      ReplayPrefix(s, reply);
      SameLedger(s.Replay(reply), s.ReplaySilent(ran));
    } else {
      SameLedger(s, s.ReplaySilent(ran));
      UnissuedPart(s.issued, s.waiting, 1);
    }
  }

  lemma SilentResults(s: State, ran: bool)
    requires s.Shape() && s.waiting != [] && Logged(s.log, s.waiting) && s.waiting[0] in s.queries
    ensures s.ReplaySilent(ran).queries == s.queries
    ensures SameResults(s.queries, s.queries, s.answered) && SameResults(s.queries, s.queries, s.waiting[1..])
  {
    hide State.Shape, RunHistory, RunIssued, HeadOf;
    ReplayResults(s, Failed(""));
  }

  lemma SilentFence(s: State, ran: bool)
    requires s.Shape() && s.Fence() && s.pending == [] && s.error == QID_LIMIT && 0 < s.numWaiting
    requires s.waiting != [] && Logged(s.log, s.waiting) && s.waiting[0] in s.queries
    ensures s.ReplaySilent(ran).Fence() && s.ReplaySilent(ran).numWaiting == |s.ReplaySilent(ran).waiting|
  {
    hide State.Shape, State.Halted, Blank, SameResults, RunHistory, RunIssued, KeysAre;
    Ordered(s);
    BlankParts(s.queries, s.waiting);
    var s', id := s.ReplaySilent(ran), s.waiting[0];
    assert id in s'.lost;
  }

  /** The invariant is kept as well if there is no answer. */
  lemma SilentKeeps(s: State, ran: bool)
    requires s.Good() && s.pending == [] && s.error == QID_LIMIT && 0 < s.numWaiting
    requires s.waiting != [] && Logged(s.log, s.waiting) && s.waiting[0] in s.queries
    requires s.queries[s.waiting[0]].res.Some? && s.queries[s.waiting[0]].res.value.Failed?
    ensures var s' := s.ReplaySilent(ran);
            && s'.Good() && s.Onward(s') && s'.Order() == s.Order() && s'.numWaiting == |s'.waiting|
            && SameResults(s.queries, s'.queries, s.answered) && SameResults(s.queries, s'.queries, s.waiting[1..])
  {
    hide State.Shape, State.Ledger, State.Stored, Blank, Unissued, Consistent, State.Fence, SameResults, RunHistory,
      RunIssued, HeadOf;
    FenceDown(s);
    var s' := s.ReplaySilent(ran);
    SilentShape(s, ran);
    SilentLedger(s, ran);
    SilentResults(s, ran);
    SilentFence(s, ran);
    SilencedMore(s.log, s.lost, s.silent, s.waiting[0]);
    StoredGrows(s, s');
    assert s'.Holds(s.waiting[0]);
    hide State.Holds;
    StoredFrom(s');
    BlankEmpty(s'.queries);
  }

  lemma FenceDown(s: State)
    requires s.Fence()
    ensures s.error <= QID_LIMIT
  {
  }

  // ----- relations over several steps -------------------------------------------------------

  lemma OnwardTrans(s: State, t: State, u: State)
    requires s.Onward(t) && t.Onward(u)
    ensures s.Onward(u)
  {
  }

  lemma SameResultsTrans(q: map<int, Query>, q': map<int, Query>, q'': map<int, Query>, s: seq<int>, s': seq<int>)
    requires SameResults(q, q', s) && SameResults(q', q'', s') && s <= s'
    ensures SameResults(q, q'', s)
  {
  }

  lemma ReceivedTrans(s: State, t: State, u: State)
    requires s.Received(t) && t.Received(u)
    ensures s.Received(u)
  {
    hide SameResults;
    SameResultsTrans(s.queries, t.queries, u.queries, s.answered, t.answered);
  }

  lemma ReceivedSelf(s: State)
    requires s.Good()
    ensures s.Received(s)
  {
    hide State.Shape, State.Ledger, State.Fence, State.InFlight, Unissued, Blank, SameResults, State.Holds;
    QueriesStay(s);
  }

  // ----- the whole replay -------------------------------------------------------------------

  /** The first `i` of the `n` taken-back queries at the front of the waiting ones have been run
    * again, and all of them succeeded. */
  ghost predicate Replaying(s: State, m: State, n: nat, i: nat) {
    && i <= n <= |s.waiting| && Logged(s.log, s.waiting[..n])
    && m.Good() && s.Onward(m) && m.Order() == s.Order() && m.error == QID_LIMIT
    && m.answered == s.answered + s.waiting[..i] && m.pending == [] && m.waiting == s.waiting[i..]
    && m.numWaiting == |m.waiting| && m.log == s.log && m.lastId == s.lastId && m.retaining == s.retaining
    && m.lost == s.lost && m.registered == s.registered && Refusals(m.history) == Refusals(s.history)
    && SameResults(s.queries, m.queries, s.answered)
    && SameResults(s.queries, m.queries, m.waiting)
    && Succeeded(m.queries, s.waiting[..i])
    && (var texts := Texts(s.log, s.waiting[..n]);
        Culprit(s.server, s.history, texts) == i + Culprit(s.server, m.history, texts[i..]))
  }

  /** Rows are stored for all queries of the list. */
  ghost predicate Succeeded(queries: map<int, Query>, ids: seq<int>) {
    forall i :: 0 <= i < |ids| ==> ids[i] in queries && queries[ids[i]].res.Some? && queries[ids[i]].res.value.Rows?
  }

  /** A failure is stored for all queries of the list. */
  ghost predicate Failing(queries: map<int, Query>, ids: seq<int>) {
    forall i :: 0 <= i < |ids| ==> ids[i] in queries && queries[ids[i]].res.Some? && queries[ids[i]].res.value.Failed?
  }

  /** The fence right behind a query, if these come after it; but never above the limit. */
  function FenceBehind(id: int, rest: seq<int>): int {
    var fence := if rest == [] then id + 1 else rest[0];
    if fence < QID_LIMIT then fence else QID_LIMIT
  }

  /** The replay stopped at the c-th query: it is the first that fails, or there was no answer to it.
    * Queries before it have their own rows, it has a failure, and the fence stands right behind it.  The
    * number of waiting queries is exact. */
  ghost predicate BlamedAt(s: State, m: State, n: nat, c: nat) {
    && c < n <= |s.waiting| && Logged(s.log, s.waiting[..n])
    && (var culprit := Culprit(s.server, s.history, Texts(s.log, s.waiting[..n]));
        || (c == culprit && m.lost == s.lost)
        || (c <= culprit && m.lost == s.lost + [s.waiting[c]]))
    && m.Good() && s.Onward(m) && m.Order() == s.Order()
    && m.answered == s.answered + s.waiting[..c + 1] && m.pending == [] && m.waiting == s.waiting[c + 1..]
    && m.numWaiting == |m.waiting| && m.log == s.log && m.lastId == s.lastId && m.retaining == s.retaining
    && m.registered == s.registered && Refusals(m.history) == Refusals(s.history)
    && SameResults(s.queries, m.queries, s.answered)
    && Succeeded(m.queries, s.waiting[..c]) && Failing(m.queries, s.waiting[c..c + 1])
    && m.error == FenceBehind(s.waiting[c], m.waiting)
  }

  ghost predicate Blamed(s: State, m: State, n: nat) {
    exists c: nat :: BlamedAt(s, m, n, c)
  }

  lemma CulpritStep(server: Server, h: History, texts: seq<string>, i: nat)
    requires i < |texts|
    ensures var failed := server.answer(h, texts[i]).Failed?;
            Culprit(server, h, texts[i..]) ==
              if failed then 0 else 1 + Culprit(server, h + [Ran(texts[i])], texts[i + 1..])
  {
    assert texts[i..][0] == texts[i] && texts[i..][1..] == texts[i + 1..];
  }

  lemma SucceededMore(q: map<int, Query>, ids: seq<int>, id: int, reply: Reply)
    requires Succeeded(q, ids) && reply.Rows? && id in q
    ensures Succeeded(q[id := q[id].(res := Some(reply))], ids + [id])
  {
  }

  lemma FailingHead(q: map<int, Query>, q': map<int, Query>, ids: seq<int>, n: nat, i: nat)
    requires i < n <= |ids| && Failing(q, ids[..n]) && SameResults(q, q', ids[i..])
    ensures ids[i] in q' && q'[ids[i]].res.Some? && q'[ids[i]].res.value.Failed?
  {
    assert ids[..n][i] == ids[i] == ids[i..][0];
  }

  lemma TextAt(log: seq<string>, ids: seq<int>, n: nat, i: nat)
    requires i < n <= |ids| && Logged(log, ids[..n])
    ensures 1 <= ids[i] <= |log| && Texts(log, ids[..n])[i] == log[ids[i] - 1]
  {
    assert ids[..n][i] == ids[i];
  }

  /** The front of the waiting queries can be run again. */
  lemma ReplayingHead(s: State, m: State, n: nat, i: nat)
    requires Replaying(s, m, n, i) && i < n && Failing(s.queries, s.waiting[..n])
    ensures m.waiting != [] && Logged(m.log, m.waiting) && m.waiting[0] in m.queries && m.waiting[0] == s.waiting[i]
    ensures m.queries[m.waiting[0]].res.Some? && m.queries[m.waiting[0]].res.value.Failed?
    ensures m.queries[m.waiting[0]].text == m.log[m.waiting[0] - 1] == Texts(s.log, s.waiting[..n])[i]
    ensures m.first == At(m.waiting[0]) && Succ(m.queries.Keys, m.waiting[0]) == HeadOf(m.waiting[1..], End)
  {
    hide State.Shape, State.Ledger, State.Stored, State.Fence, State.InFlight, Unissued, Blank, State.Onward, Succeeded,
      Culprit, SameResults, Failing, Texts, Ascending, Known, Succ, Consistent;
    Ordered(m);
    WaitingReady(m);
    WaitingNext(m);
    FailingHead(s.queries, m.queries, s.waiting, n, i);
    TextAt(s.log, s.waiting, n, i);
  }

  lemma WaitingNext(m: State)
    requires m.Shape() && m.waiting != []
    ensures Succ(m.queries.Keys, m.waiting[0]) == HeadOf(m.waiting[1..], End)
    ensures m.waiting[0] in m.queries && m.queries[m.waiting[0]].text == m.log[m.waiting[0] - 1]
  {
    var order, k := m.Order(), |m.answered| + |m.pending|;
    assert order[k] == m.waiting[0] && order[k] in order;
    assert order[k + 1..] == m.waiting[1..];
    SuccIsNext(m.queries.Keys, order, k);
  }

  lemma ReplayFields(m: State, reply: Reply)
    requires m.waiting != [] && Logged(m.log, m.waiting) && m.waiting[0] in m.queries
    ensures var m' := m.Replay(reply);
            && m'.pending == m.pending && m'.waiting == m.waiting[1..] && m'.answered == m.answered + [m.waiting[0]]
            && m'.log == m.log && m'.lastId == m.lastId && m'.retaining == m.retaining
            && (!reply.Failed? ==>
                  && m'.history == m.history + [Ran(m.log[m.waiting[0] - 1])]
                  && m'.error == m.error
                  && m'.queries == m.queries[m.waiting[0] := m.queries[m.waiting[0]].(res := Some(reply))])
            && (reply.Failed? ==>
                  && m'.queries == m.queries
                  && (m.error == QID_LIMIT ==> m'.error == FenceBehind(m.waiting[0], m'.waiting)))
            && m'.lost == m.lost && m'.registered == m.registered && Refusals(m'.history) == Refusals(m.history)
  {
    hide RunIssued, Logged, Refusals;
    RefusalsOne(m.history, m.log, m.waiting, reply.Failed?);
    assert RanAll([]) == [];
  }

  lemma SilentFields(m: State, ran: bool)
    requires m.waiting != [] && Logged(m.log, m.waiting) && m.waiting[0] in m.queries
    ensures var m' := m.ReplaySilent(ran);
            && m'.pending == m.pending && m'.waiting == m.waiting[1..] && m'.answered == m.answered + [m.waiting[0]]
            && m'.log == m.log && m'.lastId == m.lastId && m'.retaining == m.retaining && m'.queries == m.queries
            && (m.error == QID_LIMIT ==> m'.error == FenceBehind(m.waiting[0], m'.waiting))
            && m'.lost == m.lost + [m.waiting[0]]
            && m'.registered == m.registered && Refusals(m'.history) == Refusals(m.history)
  {
    hide RunIssued, Logged, RunHistory, Refusals;
    RefusalsOne(m.history, m.log, m.waiting, true);
    RefusalsOne(m.history, m.log, m.waiting, false);
  }

  lemma SliceNext(s: seq<int>, i: nat)
    requires i < |s|
    ensures s[i..][1..] == s[i + 1..] && s[..i] + [s[i]] == s[..i + 1] && s[i..i + 1] == [s[i]]
  {
  }

  lemma SameResultsPart(q: map<int, Query>, q': map<int, Query>, s: seq<int>, t: seq<int>)
    requires SameResults(q, q', s + t)
    ensures SameResults(q, q', s) && SameResults(q, q', t)
  {
    assert forall i :: 0 <= i < |s| ==> (s + t)[i] == s[i];
    assert forall i :: 0 <= i < |t| ==> (s + t)[|s| + i] == t[i];
  }

  lemma SameResultsTail(q: map<int, Query>, q': map<int, Query>, q'': map<int, Query>, s: seq<int>)
    requires s != [] && SameResults(q, q', s) && SameResults(q', q'', s[1..])
    ensures SameResults(q, q'', s[1..])
  {
    assert forall i :: 0 <= i < |s| - 1 ==> s[1..][i] == s[i + 1];
  }

  /** Replaying one more query either goes on or finds the culprit. */
  lemma ReplayStep(s: State, m: State, n: nat, i: nat, reply: Reply)
    requires Replaying(s, m, n, i) && i < n && Failing(s.queries, s.waiting[..n])
    requires m.waiting != [] && Logged(m.log, m.waiting) && m.waiting[0] in m.queries
    requires reply == m.server.answer(m.history, m.log[m.waiting[0] - 1])
    ensures reply.Failed? ==> BlamedAt(s, m.Replay(reply), n, i)
    ensures !reply.Failed? ==> Replaying(s, m.Replay(reply), n, i + 1)
  {
    hide State.Good, State.Onward, State.Replay, Succeeded, Failing, SameResults, Culprit, Texts, Logged, Ascending,
      State.Order, Refusals, RunHistory, RunIssued, Succ, Blank, Unissued;
    ReplayingHead(s, m, n, i);
    ReplayKeeps(m, reply);
    ReplayFields(m, reply);
    OnwardTrans(s, m, m.Replay(reply));
    SliceNext(s.waiting, i);
    ReplayCount(s, m, n, i);
    SameResultsPart(m.queries, m.Replay(reply).queries, s.answered, s.waiting[..i]);
    SameResultsTrans(s.queries, m.queries, m.Replay(reply).queries, s.answered, s.answered);
    if reply.Failed? {
      CulpritFails(m, s.waiting[..i]);
    } else {
      SameResultsTail(s.queries, m.queries, m.Replay(reply).queries, m.waiting);
      SucceededMore(m.queries, s.waiting[..i], m.waiting[0], reply);
    }
  }

  /** If there is no answer, that query is blamed. */
  lemma SilentStep(s: State, m: State, n: nat, i: nat, ran: bool)
    requires Replaying(s, m, n, i) && i < n && Failing(s.queries, s.waiting[..n])
    requires m.waiting != [] && Logged(m.log, m.waiting) && m.waiting[0] in m.queries
    ensures BlamedAt(s, m.ReplaySilent(ran), n, i)
  {
    hide State.Good, State.Onward, State.ReplaySilent, Succeeded, Failing, SameResults, Culprit, Texts, Logged,
      Ascending, State.Order, Refusals, RunHistory, RunIssued, Succ, Blank, Unissued;
    ReplayingHead(s, m, n, i);
    ReplayBegun(m);
    SilentKeeps(m, ran);
    SilentFields(m, ran);
    OnwardTrans(s, m, m.ReplaySilent(ran));
    SliceNext(s.waiting, i);
    SameResultsPart(m.queries, m.ReplaySilent(ran).queries, s.answered, s.waiting[..i]);
    SameResultsTrans(s.queries, m.queries, m.ReplaySilent(ran).queries, s.answered, s.answered);
    CulpritFails(m, s.waiting[..i]);
  }

  lemma ReplayBegun(m: State)
    requires m.waiting != [] && m.numWaiting == |m.waiting|
    ensures 0 < m.numWaiting
  {
  }

  lemma ReplayCount(s: State, m: State, n: nat, i: nat)
    requires Replaying(s, m, n, i) && i < n && m.waiting != [] && Logged(m.log, m.waiting)
    ensures var texts := Texts(s.log, s.waiting[..n]);
            var reply := s.server.answer(m.history, m.log[m.waiting[0] - 1]);
            && s.server == m.server
            && (reply.Failed? ==> Culprit(s.server, s.history, texts) == i)
            && (!reply.Failed? ==>
                  Culprit(s.server, s.history, texts)
                  == i + 1 + Culprit(s.server, m.history + [Ran(m.log[m.waiting[0] - 1])], texts[i + 1..]))
  {
    hide State.Good, Succeeded, SameResults, Culprit, Texts, Logged, Ascending, State.Order;
    TextAt(s.log, s.waiting, n, i);
    CulpritStep(s.server, m.history, Texts(s.log, s.waiting[..n]), i);
  }

  lemma CulpritFails(m: State, ids: seq<int>)
    requires m.waiting != [] && m.waiting[0] in m.queries
    requires m.queries[m.waiting[0]].res.Some? && m.queries[m.waiting[0]].res.value.Failed?
    ensures Failing(m.queries, [m.waiting[0]])
  {
  }

  /** How many of the first `n` waiting queries succeed when they are run one at a time. */
  ghost function CulpritOf(s: State, n: nat): nat {
    if n <= |s.waiting| && Logged(s.log, s.waiting[..n]) then
      Culprit(s.server, s.history, Texts(s.log, s.waiting[..n]))
    else 0
  }

  /** The bound meets the end of the batch exactly when all of it has been replayed. */
  lemma ReplayStops(s: State, m: State, n: nat, i: nat)
    requires Replaying(s, m, n, i) && Ascending(s.waiting)
    ensures m.first == HeadOf(s.waiting[n..], End) <==> i == n
    ensures i == n ==> CulpritOf(s, n) == n
    ensures 0 < i ==> m.first != At(s.waiting[0])
  {
    hide State.Ledger, State.Stored, State.Fence, State.InFlight, Unissued, Blank, State.Onward, Succeeded, SameResults,
      KeysAre;
  }

  /** Where a refused batch stands once it has been taken back. */
  ghost function TakenBack(s: State, queries': map<int, Query>): State {
    s.TakeBack(queries').(registered := false)
  }

  lemma FailingMarked(q: map<int, Query>, q': map<int, Query>, ids: seq<int>, res: Reply)
    requires Marked(q, q', ids, res) && res.Failed? && forall i :: 0 <= i < |ids| ==> ids[i] in q
    ensures Failing(q', ids)
  {
    forall i | 0 <= i < |ids|
      ensures ids[i] in q' && q'[ids[i]].res.Some? && q'[ids[i]].res.value.Failed?
    {
      var id := ids[i];
      assert id in q && id in ids && id in q'.Keys;
      assert q'[id] == q[id].(res := Some(res));
    }
  }

  lemma SameResultsSelf(q: map<int, Query>, s: seq<int>)
    requires forall i :: 0 <= i < |s| ==> s[i] in q
    ensures SameResults(q, q, s)
  {
  }

  /** A taken-back batch is ready for the replay, and the replay will find a culprit. */
  lemma TakenBackReady(s: State, queries': map<int, Query>, res: Reply)
    requires s.Good() && s.dummy && s.replies != [] && s.replies[0].Failed?
    requires Marked(s.queries, queries', s.pending, res) && res.Failed?
    ensures var t, n := TakenBack(s, queries'), |s.pending|;
            && 0 < n && t.waiting[..n] == s.pending && t.waiting[n..] == s.waiting && Ascending(t.waiting)
            && Replaying(t, t, n, 0) && Failing(t.queries, t.waiting[..n])
            && Culprit(t.server, t.history, Texts(t.log, t.waiting[..n])) < n
  {
    hide State.Good, State.Shape, Marked, Ascending, SameResults, Failing, Texts, Culprit, State.Onward, State.Order,
      Logged;
    var u, t, n := s.TakeBack(queries'), TakenBack(s, queries'), |s.pending|;
    TakeBackKeeps(s, queries', res);
    GoodRetaining(u);
    SettingsKeep(u, false, u.retaining);
    assert u.(registered := false) == u.(registered := false, retaining := u.retaining);
    RefusedFacts(s);
    GoodShape(s);
    GoodShape(t);
    Ordered(s);
    Ordered(t);
    FailingMarked(s.queries, queries', s.pending, res);
    SameResultsSelf(t.queries, t.answered);
    SameResultsSelf(t.queries, t.waiting);
    assert t.waiting[..n] == s.pending && t.waiting[n..] == s.waiting && t.waiting[0..] == t.waiting;
    assert t.answered + t.waiting[..0] == t.answered;
    OnwardSelf(t);
    TextsAll(t.log, t.waiting[..n]);
  }

  lemma TextsAll(log: seq<string>, ids: seq<int>)
    requires Logged(log, ids)
    ensures Texts(log, ids)[0..] == Texts(log, ids)
  {
  }

  lemma OnwardSelf(s: State)
    ensures s.error <= QID_LIMIT ==> s.Onward(s)
  {
  }

  lemma GoodRetaining(s: State)
    requires s.Good()
    ensures 0 <= s.retaining
  {
  }

  lemma GoodShape(s: State)
    requires s.Good()
    ensures s.Shape()
  {
  }

  /** The server refused the batch, and its queries were replayed up to the c-th: it is the first that
    * fails, or there was no answer to it.  Queries before it end with their own results, it with a
    * failure, the rest wait behind the fence, and the number of waiting queries is exact. */
  ghost predicate DummyBlamed(s: State, s': State, c: nat) {
    && c < |s.pending| && Logged(s.log, s.pending)
    && (var culprit := Culprit(s.server, s.history, Texts(s.log, s.pending));
        || (c == culprit && s'.lost == s.lost)
        || (c <= culprit && s'.lost == s.lost + [s.pending[c]]))
    && s'.answered == s.answered + s.pending[..c + 1] && s'.pending == []
    && s'.waiting == s.pending[c + 1..] + s.waiting && s'.numWaiting == |s'.waiting|
    && Succeeded(s'.queries, s.pending[..c]) && Failing(s'.queries, s.pending[c..c + 1])
    && s'.error == FenceBehind(s.pending[c], s'.waiting)
  }

  /** What reading the dummy query's reply does. */
  ghost predicate DummyDone(s: State, s': State) {
    && s'.Good() && s.Received(s') && !s'.dummy && s.replies != [] && Logged(s.log, s.pending)
    && if s.replies[0].Rows? then s' == s.(replies := s.replies[1..], dummy := false)
       else exists c: nat :: DummyBlamed(s, s', c)
  }

  lemma DummyFalls(s: State, queries': map<int, Query>, res: Reply, m: State)
    requires s.Good() && s.dummy && s.replies != [] && s.replies[0].Failed?
    requires Marked(s.queries, queries', s.pending, res) && res.Failed?
    requires Blamed(TakenBack(s, queries'), m, |s.pending|)
    ensures DummyDone(s, m)
  {
    hide State.Good, State.Shape, Marked, Ascending, SameResults, Failing, Succeeded, Texts, Culprit, Logged;
    var t, n := TakenBack(s, queries'), |s.pending|;
    TakenBackReady(s, queries', res);
    TakeBackKeeps(s, queries', res);
    RefusedFacts(s);
    var c: nat :| BlamedAt(t, m, n, c);
    OnwardTrans(s, t, m);
    SameResultsTrans(s.queries, t.queries, m.queries, s.answered, s.answered);
    assert t.waiting == s.pending + s.waiting;
    assert t.waiting[..c + 1] == s.pending[..c + 1] && t.waiting[c..c + 1] == s.pending[c..c + 1];
    assert t.waiting[..c] == s.pending[..c] && t.waiting[c + 1..] == s.pending[c + 1..] + s.waiting;
    assert c + 1 == n ==> s.pending[c + 1..] + s.waiting == s.waiting;
    GoodIdle(m);
    NumWaitingBound(s);
    assert t.Order() == s.TakeBack(queries').Order();
    assert DummyBlamed(s, m, c);
    FenceAtMost(s.pending[c], m.waiting);
    GoodShape(s);
    IdsAtMost(s);
    assert s.lastId < QID_LIMIT - 1 ==> m.error < QID_LIMIT;
    assert s.Received(m);
  }

  lemma FenceAtMost(id: int, rest: seq<int>)
    ensures rest != [] ==> FenceBehind(id, rest) <= rest[0]
  {
  }

  lemma NumWaitingBound(s: State)
    requires s.Good()
    ensures 0 <= s.numWaiting <= |s.waiting| && s.error <= QID_LIMIT
  {
  }

  lemma GoodIdle(s: State)
    requires s.Good() && s.pending == []
    ensures !s.dummy && s.replies == []
  {
  }

  /** Neither the retention nor the registration matters to the invariant. */
  lemma SettingsKeep(s: State, registered: bool, retaining: int)
    requires s.Good() && 0 <= retaining
    ensures s.(registered := registered, retaining := retaining).Good()
  {
    hide State.Shape, Unissued, Consistent, LedgerOf, State.Halted, State.Truthful, Blank;
    var s' := s.(registered := registered, retaining := retaining);
    SameShape(s, s');
    SameFence(s, s');
    QueriesStay(s);
    StoredGrows(s, s');
    if s.pending != [] && !(s.dummy && s.replies[0].Failed?) {
      SameOnTheWay(s, s', if s.dummy then s.replies[1..] else s.replies);
    }
  }
}

/** The query pipeline: queries go in one by one, travel to the server in batches, and come out in
  * any order. */
module Pipeline {
  import opened Server
  import opened PipelineState
  import opened Wrappers

  /** What a call does: it retrieves a result, or throws one of these exceptions, or has no result. */
  datatype Outcome =
    | Value(id: int, reply: Reply)     // the query's result
    | SqlError(id: int, reply: Reply)  // the query failed
    | Unknown                          // there is no such query in the pipeline
    | Fenced                           // not completed because of an error in an earlier query
    | Broken                           // the connection broke
    | Done                             // there is nothing to retrieve

  lemma TextsPart(log: seq<string>, ids: seq<int>, n: nat)
    requires Logged(log, ids) && n <= |ids|
    ensures Texts(log, ids[..n]) == Texts(log, ids)[..n]
  {
  }

  /** What adding a query does: it has an id; or ids have run out; or the query was added but then
    * the connection broke. */
  datatype Insertion = Added(id: int) | Overflow | Lost(id: int)

  /** What the session does with the waiting queries is what Send() says. */
  lemma OutcomeIsSend(s: State)
    requires s.Ready()
    ensures Session.Outcome(s.server, s.history, Texts(s.log, s.waiting), |s.waiting| > 1)
            == (s.Send().history, s.Send().replies)
  {
    hide Ascending, Logged, Texts, Batch, RanAll;
    var n := |s.Answers()|;
    TextsPart(s.log, s.waiting, n);
    var h := s.history + RanAll(Texts(s.log, s.waiting)[..n]);
    assert h + [] == h;
    assert s.WillRefuse() ==> h == s.history;
  }

  /** What reading one reply does.  It files the reply under the oldest pending query, or finds
    * that there are no more and gives up on the queries that are still pending. */
  ghost predicate Obtained(s: State, s': State, more: bool) {
    && (more <==> s.replies != [])
    && s' == (if more then s.File() else s.GiveUp())
    && s'.Good() && s.Received(s') && !s'.dummy
    && (more ==> s.pending != [] && s'.pending == s.pending[1..] && s'.error == s.error)
    && (!more ==> s'.pending == [] && s'.replies == [] && !s'.unfinished)
  }

  lemma ObtainKeeps(s: State)
    requires s.Good() && !s.dummy
    ensures Obtained(s, if s.replies != [] then s.File() else s.GiveUp(), s.replies != [])
    ensures s.first == HeadOf(s.pending, s.second) && (s.first == s.second <==> s.pending == [])
    ensures s.replies != [] ==> s.pending != [] && s.pending[0] in s.queries && Empty(s.queries[s.pending[0]].res)
  {
    hide State.Shape, State.Ledger, State.Stored, State.Fence, State.Received, Succ, Known, Ascending, Blank, Unissued;
    Ordered(s);
    if s.replies == [] {
      GiveUpKeeps(s);
    } else {
      FileKeeps(s);
    }
  }

  /** What issuing does: unless the fence is up, all waiting queries become pending. */
  ghost predicate Issued(s: State, s': State) {
    && s'.Good() && s.Onward(s') && s'.Order() == s.Order() && s.Attends(s')
    && s'.answered == s.answered && s'.queries == s.queries
    && s'.log == s.log && s'.lastId == s.lastId && s'.error == s.error
    && s'.retaining == s.retaining
    && if s.error < QID_LIMIT then s'.waiting == s.waiting && s'.pending == []
       else
         && s'.waiting == [] && s'.pending == s.waiting && s'.numWaiting == 0
         && (s'.Doomed() <==> s.(unfinished := false).Fails())
  }

  /** Sending meets a failure exactly if the server refuses the batch, or if a query other than the last
    * is the first of it to fail when they are run one at a time. */
  lemma FailsIf(s: State)
    requires s.Ready()
    ensures s.Fails() <==>
              || s.WillRefuse()
              || Culprit(s.server, s.history, Texts(s.log, s.waiting)) < |s.waiting| - 1
  {
    hide Logged, Ascending, Culprit, Batch;
    BatchLength(s.server, s.history, Texts(s.log, s.waiting));
  }

  lemma {:induction false} BatchLength(server: Server, h: History, statements: seq<string>)
    ensures var c := Culprit(server, h, statements);
            |Batch(server, h, statements)| == if c < |statements| then c + 1 else |statements|
    decreases |statements|
  {
    if statements != [] && !server.answer(h, statements[0]).Failed? {
      BatchLength(server, h + [Ran(statements[0])], statements[1..]);
    }
  }

  /** After sending, the fence will go up exactly if sending meets a failure. */
  lemma SendDoomed(s: State)
    requires s.Ready() && s.error == QID_LIMIT && s.waiting != []
    ensures s.Send().Doomed() <==> s.Fails()
  {
    hide State.Ready, Texts, Batch, RunHistory, RunIssued;
  }

  lemma IssueKeeps(s: State)
    requires s.Good() && s.pending == [] && 0 < s.numWaiting
    ensures s.replies == []
    ensures s.(unfinished := false).Good() && s.Received(s.(unfinished := false))
    ensures var s' := s.(unfinished := false);
            if s.error < QID_LIMIT then Issued(s, s')
            else s'.Shape() && s'.Ready() && Issued(s, s'.Send())
  {
    hide State.Shape, State.Ledger, State.Stored, Blank, Unissued, Consistent, State.Halted, State.Ready, State.Send,
      State.Received;
    var s' := s.(unfinished := false);
    GiveUpKeeps(s);
    assert s' == s.GiveUp();
    if s.error >= QID_LIMIT {
      SendKeeps(s');
      NoDummy(s);
      SendAttends(s');
      SendMore(s');
      SomeWaiting(s);
      SendDoomed(s');
    }
  }

  lemma SomeWaiting(s: State)
    requires s.Good() && 0 < s.numWaiting
    ensures s.waiting != [] && s.error <= QID_LIMIT
  {
    NumWaitingBound(s);
  }

  /** Nothing is pending, so neither is a dummy. */
  lemma NoDummy(s: State)
    requires s.Good() && s.pending == []
    ensures !s.dummy
  {
    hide State.Shape, State.Stored, Blank, Unissued, Consistent, State.Halted, State.Ready, State.Send, State.Received;
  }

  /** The connection was asked n times, and reading would not have blocked. */
  ghost predicate NeverBusy(before: seq<bool>, polls: seq<bool>, n: int) {
    before <= polls && |polls| == |before| + n && forall k :: |before| <= k < |polls| ==> !polls[k]
  }

  /** And then once more, and reading would have blocked. */
  ghost predicate UntilBusy(before: seq<bool>, polls: seq<bool>, n: int) {
    polls != [] && polls[|polls| - 1] && NeverBusy(before, polls[..|polls| - 1], n)
  }

  lemma ObtainedOne(s: State, s': State, more: bool)
    requires Obtained(s, s', more)
    ensures s'.Good() && s.Received(s') && !s'.dummy
    ensures if more then |s'.pending| < |s.pending| && |s'.answered| == |s.answered| + 1 else s'.pending == []
    ensures s.pending == [] ==> s'.pending == [] && s'.answered == s.answered
  {
    hide State.Good, State.Received;
  }

  lemma ObtainedNothing(s: State, s': State, more: bool)
    requires Obtained(s, s', more) && s.replies == [] && s.pending == []
    ensures s' == s.(unfinished := false)
  {
  }

  lemma SendMore(s: State)
    requires s.Ready()
    ensures var s' := s.Send();
            s' == State(s.server, s'.history, s'.replies, true, s.queries, s.second, End, s.numWaiting - |s.waiting|,
                           s.lastId, |s.waiting| > 1, s.error, s.answered, s.waiting, [], s.log, s'.issued, |s.history|,
                           s.retaining, s.registered, s.lost, s.silent, s.mute)
  {
    hide State.Ready, State.Answers, RunHistory, RunIssued, State.WillRefuse;
  }

  lemma SendFacts(s: State)
    requires s.Shape() && s.pending == [] && s.Ready()
    ensures s.second == PositionAt(s.Order(), |s.answered|) && PositionAt(s.Order(), |s.Order()|) == End
    ensures |s.Order()| == |s.answered| + |s.waiting|
    ensures forall texts :: AreTexts(s.log, s.Order(), |s.answered|, |s.Order()|, texts) ==>
              texts == Texts(s.log, s.waiting)
  {
    hide Ascending, KeysAre;
    assert forall i :: 0 <= i < |s.waiting| ==> s.waiting[i] == s.Order()[|s.answered| + i];
  }

  /** The position of the k-th id. */
  ghost function PositionAt(order: seq<int>, k: nat): Iter {
    if k < |order| then At(order[k]) else End
  }

  lemma PositionsDiffer(order: seq<int>, i: nat, j: nat)
    requires Ascending(order) && i <= |order| && j <= |order| && PositionAt(order, i) == PositionAt(order, j)
    ensures i == j
  {
  }

  /** The texts are those of the ids from index i up to k. */
  ghost predicate AreTexts(log: seq<string>, order: seq<int>, i: nat, k: nat, texts: seq<string>) {
    && i <= k <= |order| && |texts| == k - i
    && (forall m :: i <= m < k ==> 1 <= order[m] <= |log| && texts[m - i] == log[order[m] - 1])
  }

  lemma OrderAscends(s: State)
    requires s.Shape()
    ensures Ascending(s.Order())
  {
  }

  lemma NoTexts(log: seq<string>, order: seq<int>, i: nat)
    requires i <= |order|
    ensures AreTexts(log, order, i, i, [])
  {
  }

  lemma OneMoreText(log: seq<string>, order: seq<int>, i: nat, k: nat, texts: seq<string>)
    requires AreTexts(log, order, i, k, texts) && k < |order| && 1 <= order[k] <= |log|
    ensures AreTexts(log, order, i, k + 1, texts + [log[order[k] - 1]])
  {
  }

  lemma PendingBounds(s: State)
    requires s.Shape()
    ensures s.first == PositionAt(s.Order(), |s.answered|)
    ensures s.second == PositionAt(s.Order(), |s.answered| + |s.pending|)
    ensures |s.answered| + |s.pending| <= |s.Order()|
    ensures forall i :: 0 <= i < |s.pending| ==> s.Order()[|s.answered| + i] == s.pending[i]
  {
    hide Ascending, KeysAre;
  }

  /** The first `i` queries of the list have been given this result, and no others. */
  ghost predicate MarkedUpTo(q: map<int, Query>, q': map<int, Query>, ids: seq<int>, i: nat, res: Reply)
    requires i <= |ids|
  {
    Marked(q, q', ids[..i], res)
  }

  lemma MarkNone(queries: map<int, Query>, ids: seq<int>, res: Reply)
    ensures MarkedUpTo(queries, queries, ids, 0, res)
  {
  }

  lemma MarkMore(q: map<int, Query>, q': map<int, Query>, ids: seq<int>, i: nat, res: Reply)
    requires i < |ids| && MarkedUpTo(q, q', ids, i, res) && ids[i] in q
    ensures ids[i] in q' && MarkedUpTo(q, q'[ids[i] := q'[ids[i]].(res := Some(res))], ids, i + 1, res)
  {
    assert ids[..i + 1] == ids[..i] + [ids[i]];
  }

  lemma MarkAll(q: map<int, Query>, q': map<int, Query>, ids: seq<int>, res: Reply)
    requires MarkedUpTo(q, q', ids, |ids|, res)
    ensures Marked(q, q', ids, res)
  {
    assert ids[..|ids|] == ids;
  }

  lemma ReplayIs(s: State, m: State, reply: Reply)
    requires s.waiting != [] && Logged(s.log, s.waiting) && s.waiting[0] in s.queries
    requires m.server == s.server && m.history == RunHistory(s.history, s.log, [s.waiting[0]], reply.Failed?)
    requires m.replies == s.replies && m.unfinished == s.unfinished
    requires m.queries == if reply.Failed? then s.queries
                          else s.queries[s.waiting[0] := s.queries[s.waiting[0]].(res := Some(reply))]
    requires m.first == m.second == HeadOf(s.waiting[1..], End)
    requires m.numWaiting == s.numWaiting - 1 && m.lastId == s.lastId && m.dummy == s.dummy
    requires var fence := if m.first.End? then s.waiting[0] + 1 else m.first.id;
             m.error == if reply.Failed? && fence < s.error then fence else s.error
    requires m.answered == s.answered + [s.waiting[0]] && m.pending == s.pending && m.waiting == s.waiting[1..]
    requires m.log == s.log && m.issued == RunIssued(s.issued, [s.waiting[0]], reply.Failed?) && m.next == s.next
    requires m.retaining == s.retaining && m.registered == s.registered && m.lost == s.lost && m.silent == s.silent
    requires m.mute == s.mute
    ensures m == s.Replay(reply)
  {
    hide RunHistory, RunIssued, Logged, HeadOf;
  }

  lemma SilentIs(s: State, m: State, ran: bool)
    requires s.waiting != [] && Logged(s.log, s.waiting) && s.waiting[0] in s.queries
    requires var failed := s.server.answer(s.history, s.log[s.waiting[0] - 1]).Failed?;
             if ran then
               && m.history == RunHistory(s.history, s.log, [s.waiting[0]], failed)
               && m.issued == RunIssued(s.issued, [s.waiting[0]], failed)
             else m.history == s.history && m.issued == s.issued
    requires m.server == s.server && m.replies == s.replies && m.unfinished == s.unfinished && m.queries == s.queries
    requires m.first == m.second == HeadOf(s.waiting[1..], End)
    requires m.numWaiting == s.numWaiting - 1 && m.lastId == s.lastId && m.dummy == s.dummy
    requires var fence := if m.first.End? then s.waiting[0] + 1 else m.first.id;
             m.error == if fence < s.error then fence else s.error
    requires m.answered == s.answered + [s.waiting[0]] && m.pending == s.pending && m.waiting == s.waiting[1..]
    requires m.log == s.log && m.next == s.next && m.lost == s.lost + [s.waiting[0]]
    requires m.silent == s.silent + [s.log[s.waiting[0] - 1]] && m.mute == s.mute - 1
    requires m.retaining == s.retaining && m.registered == s.registered
    ensures m == s.ReplaySilent(ran)
  {
    hide RunHistory, RunIssued, Logged, HeadOf;
  }

  lemma BlamedFrom(s: State, m: State, n: nat, c: nat)
    requires BlamedAt(s, m, n, c)
    ensures Blamed(s, m, n)
  {
  }

  lemma ReplayingBounds(s: State, n: nat)
    requires Replaying(s, s, n, 0) && 0 < n
    ensures s.waiting != [] && s.first == s.second == At(s.waiting[0])
  {
    hide State.Ledger, State.Stored, State.Fence, State.InFlight, Unissued, Blank, State.Onward, Succeeded, SameResults,
      KeysAre, Culprit, Ascending;
  }

  lemma PendingCount(s: State, texts: seq<string>)
    requires AreTexts(s.log, s.Order(), |s.answered|, |s.answered| + |s.pending|, texts)
    ensures |texts| == |s.pending|
  {
  }

  lemma DummyFacts(s: State)
    requires s.Good() && s.dummy
    ensures s.Shape() && s.replies != [] && s.pending != [] && s.second == HeadOf(s.waiting, End)
    ensures s.replies[0].Rows? ==> s.replies[0].rows == ["1"]
    ensures s.replies[0].Rows? ==> DummyDone(s, s.(replies := s.replies[1..], dummy := false))
    ensures s.replies[0].Failed? ==> s.replies == [s.replies[0]]
  {
    hide State.Shape, State.Ledger, State.Stored, Unissued, Blank, State.Fence, Consistent, State.Received,
      State.OnTheWay;
    if s.replies[0].Rows? {
      DummyKeeps(s);
    } else {
      RefusedFacts(s);
    }
    Ordered(s);
    PartLogged(s);
  }

  lemma PartLogged(s: State)
    requires Known(s, s.pending)
    ensures Logged(s.log, s.pending)
  {
  }

  lemma TakenBackCulprit(s: State, q: map<int, Query>)
    requires var t, n := TakenBack(s, q), |s.pending|;
             && Replaying(t, t, n, 0)
             && Culprit(t.server, t.history, Texts(t.log, t.waiting[..n])) < n
    ensures CulpritOf(TakenBack(s, q), |s.pending|) < |s.pending|
  {
    hide Culprit;
  }

  /** What the invariant says about the bounds. */
  lemma Bounds(s: State)
    requires s.Good()
    ensures s.first == s.second <==> s.pending == []
    ensures s.first == PositionAt(s.Order(), |s.answered|)
    ensures s.second == PositionAt(s.Order(), |s.answered| + |s.pending|)
    ensures |s.Order()| == |s.answered| + |s.pending| + |s.waiting|
    ensures Ascending(s.Order())
    ensures s.pending == [] ==> !s.dummy
  {
    hide State.Ledger, State.Stored, Unissued, Blank, State.Fence, Consistent, State.OnTheWay, KeysAre, State.Refused;
    Ordered(s);
    PendingBounds(s);
  }

  lemma DummyNext(s: State, s': State)
    requires DummyDone(s, s')
    ensures s'.Good() && s.Received(s') && !s'.dummy
    ensures s'.pending == [] || (s'.pending == s.pending && s'.answered == s.answered)
  {
    hide State.Good, State.Received, Succeeded, Failing, Culprit;
  }

  lemma StopReached(s: State, t: State, target: nat)
    requires s.Received(t) && t.Good() && target <= |s.Order()| && t.first == PositionAt(s.Order(), target)
    ensures |t.answered| == target
  {
    hide State.Good, Ascending, PositionAt, State.Order;
    Bounds(t);
    PositionsDiffer(s.Order(), |t.answered|, target);
  }

  lemma ReceivedMore(s: State, s': State)
    requires s.Received(s')
    ensures |s.answered| <= |s'.answered|
  {
  }

  /** The query is the only one, and no failure will fence it off. */
  ghost predicate Lone(s: State, id: int) {
    s.Order() == [id] && id < QID_LIMIT && !s.Doomed()
  }

  lemma LoneReceived(s: State, t: State, id: int)
    requires Lone(s, id) && s.Received(t)
    ensures Lone(t, id)
  {
    hide State.Doomed, SameResults;
  }

  lemma LoneIssued(s: State, t: State, id: int)
    requires Lone(s, id) && Issued(s, t)
    ensures Lone(t, id)
  {
    hide State.Good, State.Onward;
    if s.error == QID_LIMIT {
      LoneSucceeds(s.(unfinished := false), id);
    }
  }

  lemma LoneSucceeds(s: State, id: int)
    requires s.Order() == [id]
    ensures !s.Fails()
  {
    assert |s.answered| + |s.pending| + |s.waiting| == |s.Order()| == 1;
    hide State.Ready, Texts, Batch;
  }

  /** Receiving and sending, in any combination. */
  ghost predicate Sent(s: State, s': State) {
    && s'.Good() && s.Onward(s') && s'.Order() == s.Order() && s'.log == s.log && s'.lastId == s.lastId
    && s'.retaining == s.retaining && s.answered <= s'.answered
    && (forall id :: Lone(s, id) ==> Lone(s', id))
    && s.Attends(s')
  }

  lemma SentSelf(s: State)
    requires s.Good()
    ensures Sent(s, s) && s.Received(s)
  {
    hide State.Good, Lone;
    ReceivedSelf(s);
  }

  lemma SentReceived(s: State, t: State)
    requires t.Good() && s.Received(t)
    ensures Sent(s, t) && s.numWaiting <= t.numWaiting
  {
    hide State.Good, State.Order, State.Doomed, Lone;
    forall id | Lone(s, id) ensures Lone(t, id) {
      LoneReceived(s, t, id);
    }
  }

  lemma SentTrans(s: State, t: State, u: State)
    requires Sent(s, t) && Sent(t, u)
    ensures Sent(s, u)
  {
    hide State.Good, State.Order, Lone;
    OnwardTrans(s, t, u);
  }

  lemma SentIssued(s: State, t: State, u: State)
    requires Sent(s, t) && Issued(t, u)
    ensures Sent(s, u)
  {
    hide State.Good, State.Order, State.Doomed, State.Fails, Lone;
    OnwardTrans(s, t, u);
    forall id | Lone(s, id) ensures Lone(u, id) {
      LoneIssued(t, u, id);
    }
  }

  /** The server is not left idle: some query is pending, unless none waits or there has been an error.
    * (An error at the last id there is cannot be told from none.) */
  ghost predicate AtWork(s: State) {
    s.pending != [] || s.numWaiting == 0 || s.error < QID_LIMIT || s.waiting == [QID_LIMIT]
  }

  lemma IssuedAtWork(s: State, t: State)
    requires Issued(s, t)
    ensures AtWork(t) && (t.waiting == [] || t.error < QID_LIMIT)
  {
    hide State.Good, State.Onward, State.Order;
  }

  /** What came in after sending everything leaves nothing waiting, or was an error. */
  lemma ReceivedAtWork(s: State, t: State)
    requires s.Received(t) && t.Good() && (s.waiting == [] || s.error < QID_LIMIT)
    ensures AtWork(t)
  {
    hide State.Ledger, State.Stored, Unissued, Blank, Consistent, State.InFlight, State.Halted, SameResults;
    NumWaitingBound(t);
    Ordered(t);
    if t.error == QID_LIMIT && t.waiting != [] {
      LastOnly(t);
    }
  }

  lemma LastOnly(t: State)
    requires t.Shape() && t.waiting != [] && QID_LIMIT <= t.waiting[0]
    ensures t.waiting == [QID_LIMIT]
  {
    hide Ascending, KeysAre;
    Ordered(t);
    WaitingAtMost(t);
    AscendingAt(t.waiting);
  }

  lemma WaitingAtMost(t: State)
    requires t.Shape()
    ensures forall i :: 0 <= i < |t.waiting| ==> t.waiting[i] <= QID_LIMIT
  {
    Ordered(t);
  }

  lemma AscendingAt(s: seq<int>)
    requires Ascending(s)
    ensures |s| > 1 ==> s[0] < s[1]
  {
  }

  lemma ErasedAtWork(s: State, i: nat)
    requires AtWork(s) && i < |s.answered|
    ensures AtWork(s.Erase(i))
  {
  }

  lemma RetainFacts(s: State, max: int)
    requires s.Good() && 0 <= max
    ensures s.(retaining := max).Good() && Sent(s.(retaining := max), s.(retaining := max))
  {
    hide State.Shape, State.Ledger, State.Stored, State.Fence, State.InFlight, Unissued, Blank, Consistent;
    SettingsKeep(s, s.registered, max);
    SentSelf(s.(retaining := max));
  }

  /** Every query is answered or behind the fence. */
  ghost predicate Settled(s: State) {
    s.pending == [] && forall i :: 0 <= i < |s.waiting| ==> s.error <= s.waiting[i]
  }

  lemma SettledUnsent(s: State)
    requires s.Good() && s.pending == [] && (s.numWaiting == 0 || s.error != QID_LIMIT)
    ensures Settled(s)
  {
    hide State.Shape, State.Ledger, State.Stored, Unissued, Blank, Consistent, State.InFlight, State.Halted;
  }

  lemma AllReceived(s: State, t: State)
    requires s.Good() && s.Received(t) && t.Good()
    requires t.pending == [] || |s.answered| + |s.pending| <= |t.answered|
    ensures t.pending == []
  {
    hide State.Good;
    Bounds(s);
    Bounds(t);
  }

  lemma SettledReceived(s: State, t: State)
    requires s.Received(t) && t.Good() && s.waiting == [] && t.pending == []
    ensures Settled(t)
  {
    hide State.Ledger, State.Stored, Unissued, Blank, Consistent, State.InFlight, State.Fence, SameResults;
    Ordered(t);
  }

  /** After sending everything and receiving all answers, the fence is up exactly if the batch has met a
    * failure. */
  lemma FenceForetold(s: State, t: State, u: State)
    requires s.error == QID_LIMIT && Issued(s, t) && t.Received(u) && u.pending == []
    ensures s.lastId < QID_LIMIT - 1 ==> (u.error < QID_LIMIT <==> s.Fails())
  {
    hide State.Good, State.Onward, State.Order, SameResults;
    FailsAlike(s);
  }

  lemma FailsAlike(s: State)
    ensures s.(unfinished := false).Fails() <==> s.Fails()
  {
    hide Logged, Ascending, Texts, Batch;
  }

  /** Receiving and sending, and then leaving the transaction. */
  ghost predicate Finished(s: State, s': State) {
    && s'.Good() && s.Onward(s') && !s'.registered
    && Sent(s, s'.(registered := s.registered && s'.Replays() == s.Replays()))
  }

  lemma DetachKeeps(s: State, t: State)
    requires Sent(s, t)
    ensures Finished(s, t.(registered := false)) && (Settled(t) ==> Settled(t.(registered := false)))
  {
    hide State.Good;
    GoodRetaining(t);
    SettingsKeep(t, false, t.retaining);
    var u := t.(registered := false);
    assert u == t.(registered := false, retaining := t.retaining);
    assert u.(registered := s.registered && u.Replays() == s.Replays()) == t;
  }

  lemma FlushFacts(s: State, t: State)
    requires s.Good() && Sent(s, t) && t.pending == []
    ensures var u := t.Clear(); u.Good() && s.Onward(u) && u.(registered := false).Good()
    ensures t.queries == map[] ==> t.Order() == []
  {
    hide State.Shape, State.Ledger, State.Stored, State.Fence, State.InFlight, Unissued, Blank, Consistent;
    ClearKeeps(t);
    OnwardTrans(s, t, t.Clear());
    SettingsKeep(t.Clear(), false, t.retaining);
    assert t.Clear().(registered := false) == t.Clear().(registered := false, retaining := t.retaining);
    if t.Order() != [] {
      OrderOfSome(t);
    }
  }

  lemma OrderOfSome(s: State)
    requires s.Shape() && s.Order() != []
    ensures s.queries != map[]
  {
    assert s.Order()[0] in s.Order();
  }

  lemma AnsweredBelow(s: State, id: int)
    requires s.Good() && id in s.answered
    ensures id < s.error || (s.error == QID_LIMIT == id && s.first.End?)
  {
    hide State.Ledger, State.Stored, Unissued, Blank, Consistent, State.InFlight, State.Halted;
    Ordered(s);
  }

  /** The queries whose answers are in are exactly those before the first bound and the fence, or all if
    * nothing is left to receive. */
  lemma AnsweredExactly(s: State, id: int)
    requires s.Good() && id in s.queries
    ensures id in s.answered <==> s.first.End? || (id < s.first.id && id < s.error)
  {
    hide State.Good;
    WhereIs(s, id);
    if id in s.answered {
      AnsweredBelow(s, id);
    }
  }

  /** Where a query stands, by its id and the bounds. */
  lemma WhereIs(s: State, id: int)
    requires s.Good() && id in s.queries
    ensures id in s.answered || id in s.pending || id in s.waiting
    ensures id in s.waiting <==> s.second.At? && s.second.id <= id
    ensures s.pending != [] ==> s.first.At? && (id in s.answered <==> id < s.first.id)
    ensures s.first.At? ==> (id in s.answered <==> id < s.first.id)
    ensures s.first.End? ==> id in s.answered
    ensures exists k :: 0 <= k < |s.Order()| && s.Order()[k] == id
  {
    hide State.Ledger, State.Stored, Unissued, Blank, Consistent, State.InFlight, State.Fence;
    Ordered(s);
    assert KeysAre(s.queries, s.Order());
    assert id in s.Order();
    hide State.Shape, KeysAre;
  }

  lemma WaitingStays(s: State, t: State, id: int)
    requires s.Received(t) && id in s.waiting
    ensures id in t.waiting
  {
    hide SameResults;
    var order, n := s.Order(), |s.waiting|;
    assert order[|order| - n..] == s.waiting;
    assert t.Order()[|order| - |t.waiting|..] == t.waiting;
    var j :| 0 <= j < n && s.waiting[j] == id;
    assert t.waiting[|t.waiting| - n + j] == order[|order| - n + j] == id;
  }

  lemma WaitsReal(s: State, id: int)
    requires s.Good() && s.error == QID_LIMIT && id in s.waiting && id < QID_LIMIT
    ensures 0 < s.numWaiting
  {
    hide State.Shape, State.Ledger, State.Stored, Unissued, Blank, Consistent, State.InFlight;
  }

  lemma FencedOff(s: State, id: int)
    requires s.Good() && s.error != QID_LIMIT && id in s.waiting
    ensures s.error <= id
  {
    hide State.Shape, State.Ledger, State.Stored, Unissued, Blank, Consistent, State.InFlight, State.Halted;
  }

  /** After receiving up to a query it is answered, or fenced off. */
  lemma ReceivedUpTo(s: State, t: State, k: nat)
    requires s.Good() && s.Received(t) && t.Good() && k < |s.Order()| && s.Order()[k] !in s.waiting
    requires t.pending == [] || k < |t.answered|
    ensures s.Order()[k] in t.answered || t.error <= s.Order()[k]
  {
    hide State.Good, SameResults, Ascending;
    Bounds(t);
    GoodShape(t);
    hide State.Shape;
    Ordered(t);
    var id := s.Order()[k];
    if k < |t.answered| {
      assert t.Order()[k] == t.answered[k];
    } else {
      var j := k - |t.answered|;
      assert t.waiting[j] == id;
      assert id in t.waiting;
      LeastFirst(t.waiting, j);
    }
  }

  lemma FencedIdle(s: State)
    requires s.Good() && s.error < QID_LIMIT
    ensures s.pending == []
  {
  }

  lemma PendingNotWaiting(s: State, id: int)
    requires s.Good() && (id in s.answered || id in s.pending)
    ensures id !in s.waiting
  {
    hide State.Shape, State.Ledger, State.Stored, Unissued, Blank, Consistent, State.InFlight, State.Fence, Ascending;
    Ordered(s);
  }

  lemma ReceivedPrefix(s: State, t: State)
    requires s.Received(t)
    ensures s.answered <= t.answered
  {
  }

  lemma LeastFirst(s: seq<int>, j: nat)
    requires Ascending(s) && j < |s|
    ensures s[0] <= s[j]
  {
  }

  lemma AnsweredStays(s: State, t: State, id: int)
    requires s.answered <= t.answered && id in s.answered
    ensures id in t.answered
  {
    var j :| 0 <= j < |s.answered| && s.answered[j] == id;
    assert t.answered[j] == id;
  }

  /** History entry k is the server's answer to a query: the reply for a result, some failure for an
    * error.  Or the query failed because there was no answer to it. */
  ghost predicate Vouched(s: State, r: Outcome, k: nat) {
    match r
    case Value(id, reply) => reply.Rows? && s.AnsweredAt(id, k, reply)
    case SqlError(id, reply) =>
      reply.Failed? && (id in s.lost || (s.RanAt(id, k) && AnswerAt(s.server, s.history, k).Failed?))
    case _ => true
  }

  /** Some history entry vouches for the outcome. */
  ghost predicate VouchedFor(s: State, r: Outcome) {
    exists k: nat :: Vouched(s, r, k)
  }

  /** The server itself failed the query. */
  ghost predicate FailedByServer(s: State, id: int) {
    exists k: nat :: s.RanAt(id, k) && AnswerAt(s.server, s.history, k).Failed?
  }

  /** An error means that the server failed that very query, or that there was no answer when the query's
    * text was run by itself.  If there always was an answer, it means that the server failed it. */
  lemma TrueError(s: State, id: int, reply: Reply)
    requires s.Good() && VouchedFor(s, SqlError(id, reply))
    ensures FailedByServer(s, id) || (id in s.lost && 1 <= id <= |s.log| && s.log[id - 1] in s.silent)
    ensures s.silent == [] ==> FailedByServer(s, id)
  {
    hide State.Good, State.RanAt;
    var k: nat :| Vouched(s, SqlError(id, reply), k);
    if id in s.lost {
      GoodSilenced(s);
      LostIsSilent(s.log, s.lost, s.silent, id);
    }
  }

  lemma GoodSilenced(s: State)
    requires s.Good()
    ensures Silenced(s.log, s.lost, s.silent)
  {
    hide State.Shape, State.Ledger, State.Stored, State.Fence, State.InFlight, Unissued, Blank, Consistent;
  }

  lemma LostIsSilent(log: seq<string>, lost: seq<int>, silent: seq<string>, id: int)
    requires Silenced(log, lost, silent) && id in lost
    ensures silent != [] && 1 <= id <= |log| && log[id - 1] in silent
  {
    var i :| 0 <= i < |lost| && lost[i] == id;
    var last := silent[|silent| - |lost|..];
    assert last[i] == Texts(log, lost)[i] == log[id - 1];
    assert silent[|silent| - |lost| + i] == last[i];
  }

  /** The fence is up because the last thing the server did was to fail a query before it, unless there was
    * no answer to such a query. */
  lemma TrueFence(s: State)
    requires s.Good() && s.error < QID_LIMIT
    ensures || s.Halted(s.error)
            || exists id :: id in s.lost && id < s.error && 1 <= id <= |s.log| && s.log[id - 1] in s.silent
    ensures s.silent == [] ==> s.Halted(s.error)
  {
    hide State.Shape, State.Ledger, State.Stored, State.InFlight, Unissued, Blank, Consistent, State.Halted, Silenced;
    GoodSilenced(s);
    if !s.Halted(s.error) {
      var id :| id in s.lost && id < s.error;
      LostIsSilent(s.log, s.lost, s.silent, id);
    }
  }

  /** No query is given up as unanswered but for a silence at that time. */
  lemma NoSilence(s: State, s': State)
    requires s.Onward(s') && s'.silent == s.silent
    ensures s'.lost == s.lost
  {
  }

  /** What retrieving a query does.  A result is the server's own answer to that very query. */
  ghost predicate Retrieved(s: State, id: int, s': State, r: Outcome) {
    && s'.Good() && s.Onward(s') && s'.log == s.log && s'.retaining == s.retaining && s.Attends(s')
    && !r.Done? && (r.Unknown? <==> id !in s.queries)
    && (r.Unknown? ==> s' == s)
    && (id in s.queries && s.error <= id ==> r.Fenced?)
    && (r.Fenced? ==> s'.error <= id && s'.Order() == s.Order() && !Lone(s, id))
    && (r.Broken? ==> s'.Order() == s.Order())
    && (r.Value? || r.SqlError? ==>
          && r.id == id < s.error && id < s'.error && s'.queries.Keys == s.queries.Keys - {id}
          && VouchedFor(s', r))
  }

  /** The last id that can be given to a query means that there is no fence; so that query can never be
    * retrieved. */
  lemma LimitNotRetrieved(s: State, s': State, r: Outcome)
    requires s.Good() && Retrieved(s, QID_LIMIT, s', r)
    ensures if QID_LIMIT in s.queries then r.Fenced? else r.Unknown?
  {
    hide State.Good, State.Order, State.Onward;
    NumWaitingBound(s);
  }

  /** The outcome that a stored result stands for. */
  function OutcomeOf(id: int, reply: Reply): (r: Outcome)
    ensures r.Value? || r.SqlError?
  {
    if reply.Failed? then SqlError(id, reply) else Value(id, reply)
  }

  lemma StoredVouches(s: State, id: int)
    requires s.Stored() && id in s.answered
    ensures id in s.queries && s.queries[id].res.Some?
    ensures exists k: nat :: Vouched(s, OutcomeOf(id, s.queries[id].res.value), k)
  {
    hide State.AnsweredAt;
    assert s.Holds(id);
    if id in s.lost && s.queries[id].res.value.Failed? {
      assert Vouched(s, OutcomeOf(id, s.queries[id].res.value), 0);
    } else {
      var k: nat :| s.RanAt(id, k) && Agrees(s.queries[id].res.value, AnswerAt(s.server, s.history, k));
      VouchedFrom(s, id, k, s.queries[id].res.value);
    }
  }

  lemma VouchedFrom(s: State, id: int, k: nat, reply: Reply)
    requires s.RanAt(id, k) && Agrees(reply, AnswerAt(s.server, s.history, k))
    ensures Vouched(s, OutcomeOf(id, reply), k)
  {
  }

  lemma VouchedSame(s: State, t: State, r: Outcome, k: nat)
    requires Vouched(s, r, k) && s.server == t.server && s.history <= t.history && s.issued <= t.issued
    requires s.lost <= t.lost
    ensures Vouched(t, r, k)
  {
    if r.Value? || (r.SqlError? && r.id !in s.lost) {
      assert t.history[..k] == s.history[..k];
    }
  }

  /** Taking out an answered query gives a true outcome. */
  lemma RetrieveFacts(s: State, id: int, u: State, i: nat)
    requires s.Good() && id in s.queries && Sent(s, u) && i < |u.answered| && u.answered[i] == id
    requires id < s.error && id < u.error
    ensures id in u.queries && u.queries[id].res.Some?
    ensures Retrieved(s, id, u.Erase(i), OutcomeOf(id, u.queries[id].res.value))
  {
    hide State.Shape, State.Ledger, State.Fence, State.InFlight, Unissued, Blank, Consistent, Vouched, State.Holds;
    EraseKeeps(u, i);
    StoredVouches(u, id);
    var r := OutcomeOf(id, u.queries[id].res.value);
    var k: nat :| Vouched(u, r, k);
    VouchedSame(u, u.Erase(i), r, k);
    SameKeys(s, u);
    OnwardTrans(s, u, u.Erase(i));
  }

  /** The query comes before all others. */
  ghost predicate Oldest(queries: map<int, Query>, id: int) {
    id in queries && forall other :: other in queries ==> id <= other
  }

  lemma NotRetrieved(s: State, t: State, id: int)
    requires s.Good() && (t == s || Sent(s, t))
    ensures t.Good()
    ensures id !in s.queries ==> Retrieved(s, id, s, Unknown)
    ensures id in s.queries ==> id in t.queries && (id < s.error ==> Retrieved(s, id, t, Broken))
    ensures id in s.queries && t.error <= id ==> Retrieved(s, id, t, Fenced)
  {
    hide State.Good;
    OnwardHere(s);
    GoodShape(s);
    GoodShape(t);
    SameKeys(s, t);
  }

  lemma OnwardHere(s: State)
    requires s.Good()
    ensures s.Onward(s)
  {
  }

  lemma IssuedAnswered(s: State, t: State)
    requires Issued(s, t)
    ensures t.answered == s.answered && t.error == s.error
  {
  }

  lemma SomeOrder(s: State)
    requires KeysAre(s.queries, s.Order())
    ensures s.Order() == [] ==> s.queries == map[]
  {
    if s.Order() == [] {
      assert forall id :: id !in s.queries;
    }
  }

  lemma OldestFirst(s: State)
    requires s.Good() && s.queries != map[]
    ensures s.Order() != [] && s.Order()[0] in s.queries
    ensures forall id :: id in s.queries ==> s.Order()[0] <= id
  {
    hide State.Ledger, State.Stored, Unissued, Blank, Consistent, State.InFlight, State.Fence;
    var order := s.Order();
    assert KeysAre(s.queries, order);
    SomeOrder(s);
    assert order[0] in order;
  }

  lemma SameKeys(s: State, t: State)
    requires s.Shape() && t.Shape() && s.Order() == t.Order()
    ensures s.queries.Keys == t.queries.Keys
  {
    hide Ascending;
    assert forall id :: id in s.queries <==> id in s.Order();
    assert forall id :: id in t.queries <==> id in t.Order();
  }

  /** What flushing does.  A fence that is up stays where it is.  Afterwards it is up exactly if it was,
    * or if receiving what was pending met a failure; with the last id given out, it may then be at the
    * limit, which cannot be told from none. */
  ghost predicate Flushed(s: State, s': State) {
    && s'.Good() && s.Onward(s') && s'.queries == map[] && s'.Order() == [] && s'.log == s.log && s'.lastId == s.lastId
    && !s'.registered && s.Replays() <= s'.Replays()
    && s'.pending == []
    && (s.error < QID_LIMIT || s.pending == [] ==> s'.error == s.error)
    && (s'.error < QID_LIMIT ==> s.Doomed())
    && (s.lastId < QID_LIMIT - 1 && s.Doomed() ==> s'.error < QID_LIMIT)
  }

  lemma FlushedFrom(s: State, t: State)
    requires s.Good() && Sent(s, t) && s.Received(t)
    requires t.pending == []
    ensures Flushed(s, t.Clear().(registered := false))
    ensures t.queries == map[] ==> Flushed(s, t.(registered := false))
  {
    hide State.Good;
    FenceUpTo(s);
    FlushFacts(s, t);
    DetachKeeps(s, t);
  }

  lemma ClearIs(s: State, t: State)
    requires t == s.(queries := map[], first := End, second := End, numWaiting := 0, dummy := false,
                     answered := [], pending := [], waiting := [])
    ensures t == s.Clear()
  {
  }

  lemma EmptyIdle(s: State)
    requires s.Good() && s.queries == map[]
    ensures s.pending == []
  {
    hide State.Ledger, State.Stored, Unissued, Blank, Consistent, State.InFlight, State.Fence, Ascending;
    if s.Order() != [] {
      OrderOfSome(s);
    }
  }

  /** What Insert does. */
  ghost predicate Inserted(s: State, text: string, s': State, r: Insertion) {
    && s'.Good() && s.Onward(s')
    && (r.Overflow? <==> s.lastId == QID_LIMIT)
    && (r.Overflow? ==> s' == s.(registered := true))
    && (!r.Overflow? ==>
          && r.id == s.lastId + 1 == s'.lastId && s'.log == s.log + [text] && s'.Order() == s.Order() + [r.id]
          && s'.retaining == s.retaining && s.answered <= s'.answered && s.(registered := true).Attends(s')
          && (s.queries == map[] && !s.Doomed() && r.id < QID_LIMIT ==> Lone(s', r.id)))
  }

  /** The first query of a pipeline that has met no failure. */
  lemma FirstIsLone(s: State, text: string)
    requires s.Good() && s.queries == map[] && !s.Doomed() && s.lastId + 1 < QID_LIMIT
    ensures Lone(s.(registered := true).Insert(text), s.lastId + 1)
  {
    EmptyIdle(s);
    NothingLeft(s);
  }

  lemma NothingLeft(s: State)
    requires s.Good() && s.queries == map[]
    ensures s.Order() == []
  {
    hide State.Ledger, State.Stored, Unissued, Blank, Consistent, State.InFlight, State.Fence, Ascending;
    if s.Order() != [] {
      OrderOfSome(s);
    }
  }

  lemma InsertFacts(s: State, text: string)
    requires s.Good()
    ensures var t := s.(registered := true);
            && t.Shape() && s.lastId <= QID_LIMIT && 0 <= s.retaining
            && (s.lastId == QID_LIMIT ==> Inserted(s, text, t, Overflow))
            && (s.lastId < QID_LIMIT ==> t.Insert(text).Good())
  {
    hide State.Shape, State.Ledger, State.Stored, State.Fence, State.InFlight, Unissued, Blank;
    var t := s.(registered := true);
    SettingsKeep(s, true, s.retaining);
    GoodShape(t);
    FenceDown(s);
    if s.lastId < QID_LIMIT {
      InsertKeeps(t, text);
    }
  }

  lemma InsertIs(s: State, t: State, text: string)
    requires var id := s.lastId + 1;
             t == s.(registered := true, queries := s.queries[id := Query(text, None)],
                     first := if s.second.End? && s.first.End? then At(id) else s.first,
                     second := if s.second.End? then At(id) else s.second,
                     lastId := id, numWaiting := s.numWaiting + 1, waiting := s.waiting + [id], log := s.log + [text])
    ensures t == s.(registered := true).Insert(text)
  {
  }

  lemma InsertedMore(s: State, text: string, t: State, u: State)
    requires s.Good() && t.Good() && s.lastId < QID_LIMIT
    requires t == s.(registered := true).Insert(text) && (u == t || Sent(t, u))
    ensures Inserted(s, text, u, Added(u.lastId)) && Inserted(s, text, u, Lost(u.lastId))
  {
    hide State.Good;
    GoodRetaining(s);
    SettingsKeep(s, true, s.retaining);
    InsertKeeps(s.(registered := true), text);
    OnwardTrans(s, t, u);
    hide Lone, State.Doomed;
    if s.queries == map[] && !s.Doomed() && s.lastId + 1 < QID_LIMIT {
      FirstIsLone(s, text);
    }
  }

  lemma TakenBackIs(s: State, q: map<int, Query>, t: State)
    requires t == s.(replies := [], unfinished := false, dummy := false, queries := q, second := s.first,
                     numWaiting := s.numWaiting + |s.pending|, pending := [], waiting := s.pending + s.waiting,
                     registered := false)
    ensures t == TakenBack(s, q)
  {
  }

  lemma ReplayBound(s: State, m: State, n: nat, i: nat)
    requires Replaying(s, m, n, i)
    ensures i <= n
  {
  }

  lemma ExecIsRun(h: History, log: seq<string>, id: int, failed: bool)
    requires 1 <= id <= |log|
    ensures Logged(log, [id])
    ensures h + [Ran(log[id - 1])] + (if failed then [RolledBack(1)] else []) == RunHistory(h, log, [id], failed)
  {
    assert RanAll(Texts(log, [id])) == [Ran(log[id - 1])];
  }

  lemma LoggedHead(log: seq<string>, ids: seq<int>)
    requires Logged(log, ids) && ids != []
    ensures 1 <= ids[0] <= |log|
  {
  }

  lemma RunIsMore(h: History, statement: string, failed: bool)
    ensures h + [Ran(statement)] + (if failed then [RolledBack(1)] else []) != h
  {
    assert |h + [Ran(statement)] + if failed then [RolledBack(1)] else []| > |h|;
  }

  /** What the shape says about one position of the order. */
  lemma OrderAt(s: State, k: nat)
    requires s.Shape() && k < |s.Order()|
    ensures s.Order()[k] in s.queries && 1 <= s.Order()[k] <= |s.log|
    ensures s.queries[s.Order()[k]].text == s.log[s.Order()[k] - 1]
    ensures PositionAt(s.Order(), k) == At(s.Order()[k])
    ensures Succ(s.queries.Keys, s.Order()[k]) == PositionAt(s.Order(), k + 1)
  {
    var order := s.Order();
    assert order[k] in order;
    SuccIsNext(s.queries.Keys, order, k);
  }

  class Pipeline {
    const session: Session
    var queries: map<int, Query>
    var first: Iter
    var second: Iter
    var retaining: int
    var numWaiting: int
    var lastId: int
    var dummyPending: bool
    var error: int
    var registered: bool

    ghost var answered: seq<int>
    ghost var pending: seq<int>
    ghost var waiting: seq<int>
    ghost var log: seq<string>
    ghost var issued: seq<int>
    ghost var next: nat
    // The queries that were run by themselves without getting an answer.
    ghost var lost: seq<int>

    /** The state of the pipeline and its session, as a value. */
    ghost function Now(): State
      reads this, session`history, session`replies, session`unfinished, session`mute, session`silent
    {
      State(session.server, session.history, session.replies, session.unfinished,
            queries, first, second, numWaiting, lastId, dummyPending, error,
            answered, pending, waiting, log, issued, next, retaining, registered, lost, session.silent,
            session.mute)
    }

    /** The state in the middle of a replay, while the second bound is left behind. */
    ghost function Midway(): State
      reads this, session`history, session`replies, session`unfinished, session`mute, session`silent
    {
      Now().(second := first)
    }

    lemma Logs()
      ensures Now().log == log && Now().registered == registered
      ensures Now().silent == session.silent && Now().mute == session.mute
      ensures Valid() <==> Now().Good()
    {
    }

    lemma Bounded()
      ensures Now().first == Midway().first == first && Now().second == second
      ensures Now().queries == queries && Now().waiting == waiting
      ensures first == second ==> Midway() == Now()
    {
    }

    ghost predicate Valid()
      reads this, session`history, session`replies, session`unfinished, session`mute, session`silent
    {
      Now().Good()
    }

    /** What there was to read has been read: nothing is pending, or the connection has been asked again, and
      * was busy. */
    ghost predicate Drained(polls: seq<bool>)
      reads this`pending, session`polls
    {
      pending == [] || (polls < session.polls && session.polls[|session.polls| - 1])
    }

    predicate HavePending()
      reads this
    {
      second != first
    }

    constructor (session: Session)
      requires Consistent(session.server)
      requires session.replies == []
      ensures Valid() && fresh(this) && this.session == session
      ensures log == [] && answered == pending == waiting == [] && queries == map[]
      ensures error == QID_LIMIT && lastId == numWaiting == retaining == 0 && !dummyPending && registered && lost == []
    {
      this.session := session;
      queries, first, second := map[], End, End;
      retaining, numWaiting, lastId, dummyPending, error := 0, 0, 0, false, QID_LIMIT;
      registered := true;
      answered, pending, waiting, log := [], [], [], [];
      issued, next, lost := seq(|session.history|, _ => 0), 0, [];
    }

    method Attach()
      modifies this`registered
      ensures registered
    {
      if !registered {
        registered := true;
      }
    }

    method Detach()
      modifies this`registered
      ensures !registered
    {
      if registered {
        registered := false;
      }
    }

    /** Lowers the fence to this query, unless it is lower already. */
    method SetErrorAt(id: int)
      modifies this`error
      ensures error == if id < old(error) then id else old(error)
    {
      if id < error {
        error := id;
      }
    }

    /** Reads the next reply, if any, and files it under the oldest pending query. */
    method ObtainResult() returns (more: bool)
      requires Valid() && !dummyPending
      modifies this, session`replies, session`unfinished
      ensures Obtained(old(Now()), Now(), more)
    {
      hide State.Good, Succ, Obtained, Empty;
      ghost var s := Now();
      ObtainKeeps(s);
      var r := session.GetResult();
      if r.None? {
        if HavePending() {
          GiveUp();
        }
        return false;
      }
      // There cannot be more results than queries, nor two results for one query.
      assert HavePending() && Empty(queries[first.id].res);
      File(r.value);
      return true;
    }

    /** The pending queries will not be answered: the fence goes up at the oldest. */
    method GiveUp()
      requires pending != [] && first == At(pending[0])
      modifies this`error, this`second, this`pending, this`waiting
      ensures Now() == old(Now()).GiveUp().(unfinished := old(session.unfinished))
    {
      SetErrorAt(first.id);
      second := first;
      waiting, pending := pending + waiting, [];
    }

    /** Stores the result of the oldest pending query and moves on to the next. */
    method File(reply: Reply)
      requires pending != [] && first == At(pending[0]) && pending[0] in queries
      modifies this`queries, this`first, this`answered, this`pending, this`next
      ensures queries == old(queries[pending[0] := queries[pending[0]].(res := Some(reply))])
      ensures first == Succ(old(queries).Keys, old(pending)[0])
      ensures answered == old(answered) + [old(pending)[0]] && pending == old(pending)[1..] && next == old(next) + 1
    {
      hide Succ;
      var id := first.id;
      queries := queries[id := queries[id].(res := Some(reply))];
      assert queries.Keys == old(queries).Keys;
      first := Succ(queries.Keys, id);
      answered, pending, next := answered + [id], pending[1..], next + 1;
    }

    /** Reads whatever replies are available without waiting. */
    method GetFurtherAvailableResults() returns (ok: bool)
      requires Valid() && !dummyPending
      modifies this, session`replies, session`unfinished, session`losses, session`polls
      ensures Valid() && !dummyPending && old(Now()).Received(Now())
      ensures old(pending) == [] ==> pending == [] && answered == old(answered)
      ensures old(session.polls) <= session.polls
      ensures ok ==> pending == [] || UntilBusy(old(session.polls), session.polls, |answered| - |old(answered)|)
      ensures session.losses == old(session.losses) - if ok then 0 else 1
    {
      hide State.Good, State.Received, Obtained;
      ghost var s := Now();
      ReceivedSelf(s);
      while true
        invariant NeverBusy(old(session.polls), session.polls, |answered| - |old(answered)|)
        invariant Valid() && !dummyPending && s.Received(Now())
        invariant old(pending) == [] ==> pending == [] && answered == old(answered)
        invariant session.losses == old(session.losses)
        decreases |pending|
      {
        ghost var polls := session.polls;
        var busy := session.IsBusy();
        assert session.polls[..|polls|] == polls;
        if busy {
          return true;
        }
        ghost var t := Now();
        var more := ObtainResult();
        ObtainedOne(t, Now(), more);
        ReceivedTrans(s, t, Now());
        if !more {
          return true;
        }
        ok := session.ConsumeInput();
        if !ok {
          return;
        }
      }
      return true;
    }

    /** The texts of the queries from one position up to another. */
    static method Collect(queries: map<int, Query>, from: Iter, to: Iter, ghost s: State, ghost i: nat, ghost j: nat)
      returns (texts: seq<string>)
      requires s.Shape() && s.queries == queries && i <= j <= |s.Order()|
      requires from == PositionAt(s.Order(), i) && to == PositionAt(s.Order(), j)
      ensures AreTexts(s.log, s.Order(), i, j, texts)
    {
      hide Succ, State.Shape, State.Order, AreTexts, PositionAt, Ascending;
      OrderAscends(s);
      NoTexts(s.log, s.Order(), i);
      ghost var k := i;
      var here := from;
      texts := [];
      while here != to
        invariant i <= k <= j && here == PositionAt(s.Order(), k) && AreTexts(s.log, s.Order(), i, k, texts)
        decreases j - k
      {
        OrderAt(s, k);
        OneMoreText(s.log, s.Order(), i, k, texts);
        texts := texts + [queries[here.id].text];
        here := Succ(queries.Keys, here.id);
        k := k + 1;
      }
      PositionsDiffer(s.Order(), k, j);
    }

    /** Sends all waiting queries to the server as one batch, if the connection holds. */
    method SendWaiting() returns (ok: bool)
      requires Now().Shape() && Now().Ready() && pending == []
      requires !session.unfinished && session.replies == []
      modifies this`first, this`second, this`numWaiting, this`dummyPending, this`pending, this`waiting, this`issued,
               this`next, session`history, session`replies, session`unfinished, session`losses
      ensures ok ==>
                && (session.history, session.replies) == (old(Now()).Send().history, old(Now()).Send().replies)
                && session.unfinished
                && first == old(second) && second == End && numWaiting == old(numWaiting) - |old(waiting)|
                && dummyPending == (|old(waiting)| > 1) && pending == old(waiting) && waiting == []
                && issued == old(Now()).Send().issued && next == |old(session.history)|
      ensures !ok ==> Now() == old(Now())
      ensures session.losses == old(session.losses) - if ok then 0 else 1
    {
      hide State.Shape, State.Ready, State.Send, Session.Outcome, AreTexts, PositionAt, State.Order, Texts, Ascending,
        Logged, KeysAre;
      ghost var s := Now();
      SendFacts(s);
      OutcomeIsSend(s);
      var oldest := second;
      var texts := Collect(queries, oldest, End, s, |answered|, |s.Order()|);
      var prependDummy := |texts| > 1;
      ok := session.StartExec(texts, prependDummy);
      if !ok {
        return;
      }
      dummyPending := prependDummy;
      first := oldest;
      second := End;
      numWaiting := numWaiting - |texts|;
      pending, waiting, issued, next := waiting, [], s.Send().issued, |s.history|;
    }

    /** Sends the waiting queries, unless there has been an error. */
    method Issue() returns (ok: bool)
      requires Valid() && pending == [] && 0 < numWaiting
      modifies this, session
      ensures ok ==> Issued(old(Now()), Now())
      ensures !ok ==> Valid() && old(Now()).Received(Now()) && pending == []
      ensures session.polls == old(session.polls)
      ensures session.losses == old(session.losses) - if ok then 0 else 1
    {
      hide State.Good, State.Received, Issued, Obtained, State.File, State.Shape, State.Ready, State.Send;
      ghost var s := Now();
      IssueKeeps(s);
      NoDummy(s);
      var more := ObtainResult();
      ObtainedNothing(s, Now(), more);
      if error < QID_LIMIT {
        return true;
      }
      SendMore(Now());
      ok := SendWaiting();
    }

    /** Gives all queries from one position up to another the same result. */
    static method Mark(queries: map<int, Query>, from: Iter, to: Iter, res: Reply, ghost s: State)
      returns (marked: map<int, Query>)
      requires s.Shape() && s.queries == queries && from == s.first && to == s.second
      ensures Marked(queries, marked, s.pending, res)
    {
      hide *;
      PendingBounds(s);
      OrderAscends(s);
      ghost var a, i, ids := |s.answered|, 0, s.pending;
      var here := from;
      marked := queries;
      MarkNone(queries, ids, res);
      while here != to
        invariant i <= |ids| && here == PositionAt(s.Order(), a + i)
        invariant MarkedUpTo(queries, marked, ids, i, res)
        decreases |ids| - i
      {
        OrderAt(s, a + i);
        MarkMore(queries, marked, ids, i, res);
        marked := marked[here.id := marked[here.id].(res := Some(res))];
        here := Succ(queries.Keys, here.id);
        i := i + 1;
      }
      PositionsDiffer(s.Order(), a + i, a + |ids|);
      MarkAll(queries, marked, ids, res);
    }

    /** Runs a query by itself, in the transaction. */
    method Execute(query: string, ghost id: int) returns (reply: Option<Reply>, ghost ran: bool)
      requires 1 <= id <= |log| && query == log[id - 1] && !session.unfinished && session.replies == []
      modifies this`issued, session`history, session`mute, session`silent
      ensures Logged(log, [id])
      ensures session.silent == old(session.silent) + if reply.Some? then [] else [query]
      ensures session.mute == old(session.mute) - if reply.Some? then 0 else 1
      ensures var answer := session.server.answer(old(session.history), query);
              && (reply.Some? ==> ran && reply.value == answer)
              && session.history == (if ran then RunHistory(old(session.history), log, [id], answer.Failed?)
                                     else old(session.history))
              && issued == (if ran then RunIssued(old(issued), [id], answer.Failed?) else old(issued))
    {
      hide RunHistory, RunIssued;
      ghost var h, answer := session.history, session.server.answer(session.history, query);
      reply := session.Exec(query);
      ran := session.history != h;
      ExecIsRun(h, log, id, answer.Failed?);
      RunIsMore(h, query, answer.Failed?);
      issued := if ran then RunIssued(issued, [id], answer.Failed?) else issued;
    }

    /** Runs the oldest taken-back query by itself.  Its answer replaces the stored failure; if it
      * fails again, or there is no answer, both bounds move past it and the fence goes up behind it. */
    method ReplayOne() returns (reply: Option<Reply>, ghost ran: bool)
      requires waiting != [] && first == At(waiting[0]) && Logged(log, waiting) && waiting[0] in queries
      requires queries[waiting[0]].text == log[waiting[0] - 1]
      requires Succ(queries.Keys, waiting[0]) == HeadOf(waiting[1..], End)
      requires !registered && !session.unfinished && session.replies == []
      modifies this`queries, this`first, this`second, this`numWaiting, this`error, this`answered, this`waiting,
               this`issued, this`lost, session`history, session`mute, session`silent
      ensures var answer := session.server.answer(old(session.history), log[old(waiting)[0] - 1]);
              && (reply.Some? ==> ran && reply.value == answer)
              && session.history
                 == (if ran then RunHistory(old(session.history), log, [old(waiting)[0]], answer.Failed?)
                     else old(session.history))
              && issued == (if ran then RunIssued(old(issued), [old(waiting)[0]], answer.Failed?) else old(issued))
      ensures answered == old(answered) + [old(waiting)[0]] && waiting == old(waiting)[1..]
      ensures numWaiting == old(numWaiting) - 1 && first == HeadOf(waiting, End)
      ensures lost == if reply.Some? then old(lost) else old(lost) + [old(waiting)[0]]
      ensures session.silent == old(session.silent) + if reply.Some? then [] else [log[old(waiting)[0] - 1]]
      ensures session.mute == old(session.mute) - if reply.Some? then 0 else 1
      ensures reply.Some? && reply.value.Rows? ==>
                && queries == old(queries[waiting[0] := queries[waiting[0]].(res := Some(reply.value))])
                && second == old(second) && error == old(error)
      ensures reply.None? || reply.value.Failed? ==>
                && queries == old(queries) && second == first
                && var fence := if first.End? then old(waiting)[0] + 1 else first.id;
                   error == if fence < old(error) then fence else old(error)
    {
      hide *;
      LoggedHead(log, waiting);
      numWaiting := numWaiting - 1;
      var query := queries[first.id].text;
      var thud := first.id;
      reply, ran := Execute(query, thud);
      answered, waiting := answered + [thud], waiting[1..];
      if reply.Some? && reply.value.Rows? {
        queries := queries[thud := queries[thud].(res := reply)];
        assert queries.Keys == old(queries).Keys;
        first := Succ(queries.Keys, thud);
      } else {
        Blame(thud, reply.None?);
      }
    }

    /** The query at the bounds has failed, or there was no answer to it: both bounds move past it, and
      * the fence goes up behind it. */
    method Blame(thud: int, silent: bool)
      requires thud in queries
      modifies this`first, this`second, this`error, this`lost
      ensures first == second == Succ(queries.Keys, thud)
      ensures var fence := if first.End? then thud + 1 else first.id;
              error == if fence < old(error) then fence else old(error)
      ensures lost == if silent then old(lost) + [thud] else old(lost)
    {
      hide Succ;
      if silent {
        lost := lost + [thud];
      }
      first := Succ(queries.Keys, thud);
      second := first;
      SetErrorAt(if first.End? then thud + 1 else first.id);
    }

    /** One round of the replay: whether to go on. */
    method ReplayNext(ghost s: State, ghost n: nat, ghost i: nat) returns (more: bool)
      requires Replaying(s, Midway(), n, i) && i < n && Failing(s.queries, s.waiting[..n])
      requires !registered && !session.unfinished && session.replies == []
      modifies this`queries, this`first, this`second, this`numWaiting, this`error, this`answered, this`waiting,
               this`issued, this`lost, session`history, session`mute, session`silent
      ensures !more ==> BlamedAt(s, Now(), n, i)
      ensures more ==> Replaying(s, Midway(), n, i + 1) && second == old(second)
    {
      hide State.Good, State.Shape, Ascending, Failing, Texts, Replaying, BlamedAt, Culprit, State.Replay,
        State.ReplaySilent, HeadOf, Succ, Logged, RunHistory, RunIssued;
      ghost var m := Midway();
      ReplayingHead(s, m, n, i);
      var reply, ran := ReplayOne();
      if reply.None? {
        SilentIs(m, Now(), ran);
        SilentStep(s, m, n, i, ran);
        return false;
      }
      ReplayIs(m, Midway(), reply.value);
      ReplayStep(s, m, n, i, reply.value);
      assert reply.value.Failed? ==> Midway() == Now();
      return reply.value.Rows?;
    }

    /** Runs the first `n` waiting queries, those of a refused batch, one at a time until one
      * fails, or there is no answer.  Otherwise the second bound is left behind the first. */
    method ReplayBatch(stop: Iter, ghost n: nat) returns (caught: bool)
      requires Replaying(Now(), Now(), n, 0) && Failing(queries, waiting[..n]) && Ascending(waiting)
      requires 0 < n && stop == HeadOf(waiting[n..], End)
      requires !registered && !session.unfinished && session.replies == []
      modifies this`queries, this`first, this`second, this`numWaiting, this`error, this`answered, this`waiting,
               this`issued, this`lost, session`history, session`mute, session`silent
      ensures caught ==> Blamed(old(Now()), Now(), n)
      ensures !caught ==> Replaying(old(Now()), Midway(), n, n) && CulpritOf(old(Now()), n) == n
      ensures !caught ==> second == old(second) && first == stop && second != first
    {
      hide *;
      ghost var s, i := Now(), 0;
      ReplayingBounds(s, n);
      Bounded();
      while true
        invariant i < n && Replaying(s, Midway(), n, i) && second == s.second
        invariant !registered && !session.unfinished && session.replies == []
        decreases n - i
      {
        var more := ReplayNext(s, n, i);
        if !more {
          BlamedFrom(s, Now(), n, i);
          return true;
        }
        i := i + 1;
        ReplayStops(s, Midway(), n, i);
        Bounded();
        if first == stop {
          return false;
        }
        ReplayBound(s, Midway(), n, i);
      }
      return false;
    }

    /** Takes back a batch that the server refused: its queries wait again, all with the batch's
      * error for a result. */
    method TakeBack(res: Reply)
      requires Now().Shape() && !session.unfinished && session.replies == []
      modifies this`queries, this`numWaiting, this`second, this`pending, this`waiting, this`registered
      ensures Marked(old(queries), queries, old(pending), res)
      ensures numWaiting == old(numWaiting) + |old(pending)| && second == first && !registered
      ensures pending == [] && waiting == old(pending) + old(waiting)
    {
      hide State.Shape, Marked, AreTexts, PositionAt;
      ghost var s := Now();
      PendingBounds(s);
      var marked := Mark(queries, first, second, res, s);
      var texts := Collect(queries, first, second, s, |answered|, |answered| + |pending|);
      queries := marked;
      // As many as there are texts from the first bound to the second.
      PendingCount(s, texts);
      numWaiting := numWaiting + |texts|;
      second := first;
      registered := false;
      pending, waiting := [], pending + waiting;
    }

    /** The batch has been refused with this error: takes it back and replays it. */
    method Replay(res: Reply, ghost s: State)
      requires s.Good() && s.dummy && s.replies == [res] && res.Failed?
      requires Now() == s.(replies := [], unfinished := false, dummy := false)
      modifies this, session`history, session`mute, session`silent
      ensures DummyDone(s, Now())
    {
      hide State.Good, State.Shape, DummyDone, Replaying, Blamed, Marked, Failing, Ascending, Culprit, State.TakeBack,
        HeadOf, CulpritOf, TakenBack;
      DummyFacts(s);
      SameShape(s, Now());
      var stop := second;
      TakeBack(res);
      TakenBackReady(s, queries, res);
      TakenBackIs(s, queries, Now());
      ghost var q := queries;
      TakenBackCulprit(s, q);
      var caught := ReplayBatch(stop, |s.pending|);
      DummyFalls(s, q, res, Now());
    }

    /** Reads the reply to the dummy query.  If the server refused the batch, replays it. */
    method ObtainDummy()
      requires Valid() && dummyPending
      modifies this, session`history, session`replies, session`unfinished, session`mute, session`silent
      ensures DummyDone(old(Now()), Now())
    {
      hide State.Good, DummyDone;
      ghost var s := Now();
      DummyFacts(s);
      var r := session.GetResult();
      dummyPending := false;
      // "Pipeline got no result from backend when it expected one" cannot happen,
      assert r.Some?;
      if r.value.Rows? {
        // nor can the dummy query have more than one row, or another value.
        assert |r.value.rows| == 1 && r.value.rows[0] == "1";
      } else {
        var none := session.GetResult();
        Replay(r.value, s);
      }
    }

    /** Receives whatever results happen to be available. */
    method ReceiveIfAvailable() returns (ok: bool)
      requires Valid()
      modifies this, session
      ensures Valid() && old(Now()).Received(Now())
      ensures old(pending) == [] ==> pending == [] && answered == old(answered)
      ensures ok ==> old(session.polls) < session.polls && Drained(old(session.polls))
      ensures old(session.polls) <= session.polls
      ensures ok && session.polls[|old(session.polls)|] ==> Now() == old(Now())
      ensures session.losses == old(session.losses) - if ok then 0 else 1
    {
      hide State.Good, State.Received, DummyDone;
      ghost var s := Now();
      ReceivedSelf(s);
      Bounds(s);
      ok := session.ConsumeInput();
      if !ok {
        return;
      }
      var busy := session.IsBusy();
      if busy {
        return true;
      }
      if dummyPending {
        ObtainDummy();
        DummyNext(s, Now());
      }
      ghost var t := Now();
      Bounds(t);
      if HavePending() {
        ok := GetFurtherAvailableResults();
        ReceivedTrans(s, t, Now());
      }
    }

    /** Receives results until the first bound is at a position or there are no more. */
    method ReceiveReplies(stop: Iter)
      requires Valid() && !dummyPending
      modifies this, session`replies, session`unfinished
      ensures Valid() && !dummyPending && old(Now()).Received(Now())
      ensures pending == [] || first == stop
    {
      hide State.Good, State.Received, State.File, State.GiveUp;
      ghost var s := Now();
      var more := ObtainResult();
      while more && first != stop
        invariant Valid() && s.Received(Now()) && !dummyPending && (more || pending == [])
        decreases more, |pending|
      {
        ghost var t := Now();
        more := ObtainResult();
        ReceivedTrans(s, t, Now());
      }
    }

    /** Receives results up to a position in or at the end of the pending range, if possible, and
      * then whatever else is available. */
    method Receive(stop: Iter, ghost target: nat) returns (ok: bool)
      requires Valid() && target <= |Now().Order()| && stop == PositionAt(Now().Order(), target)
      modifies this, session
      ensures Valid() && old(Now()).Received(Now()) && !dummyPending
      ensures pending == [] || target <= |answered|
      ensures session.losses == old(session.losses) - if ok then 0 else 1
    {
      hide State.Good, State.Received, DummyDone, State.Order, PositionAt;
      ghost var s := Now();
      ghost var t := s;
      ReceivedSelf(s);
      if dummyPending {
        ObtainDummy();
        DummyNext(s, Now());
        t := Now();
      }
      ReceiveReplies(stop);
      ReceivedTrans(s, t, Now());
      t := Now();
      ok := true;
      if first == stop {
        StopReached(s, t, target);
        ok := GetFurtherAvailableResults();
        ReceivedTrans(s, t, Now());
        ReceivedMore(t, Now());
      }
    }

    /** Receives the results of all queries that have been sent. */
    method ReceivePending() returns (ok: bool)
      requires Valid()
      modifies this, session
      ensures Valid() && old(Now()).Received(Now()) && Sent(old(Now()), Now()) && pending == []
      ensures old(pending) == [] ==> ok && Now() == old(Now())
      ensures session.losses == old(session.losses) - if ok then 0 else 1
    {
      hide State.Good, State.Received, Sent, PositionAt;
      ghost var s := Now();
      SentSelf(s);
      Bounds(s);
      ok := true;
      if HavePending() {
        ok := Receive(second, |answered| + |pending|);
        SentReceived(s, Now());
        AllReceived(s, Now());
      }
    }

    /** Puts a new query at the end of the map. */
    method AddQuery(text: string)
      modifies this`queries, this`first, this`second, this`numWaiting, this`lastId, this`waiting, this`log
      ensures lastId == old(lastId) + 1 && queries == old(queries)[lastId := Query(text, None)]
      ensures first == if old(first).End? && old(second).End? then At(lastId) else old(first)
      ensures second == if old(second).End? then At(lastId) else old(second)
      ensures numWaiting == old(numWaiting) + 1 && waiting == old(waiting) + [lastId] && log == old(log) + [text]
    {
      lastId := lastId + 1;
      queries := queries[lastId := Query(text, None)];
      if second.End? {
        second := At(lastId);
        if first.End? {
          first := At(lastId);
        }
      }
      numWaiting := numWaiting + 1;
      waiting, log := waiting + [lastId], log + [text];
    }

    /** Adds a query.  It is sent once more queries wait than the pipeline may retain. */
    method Insert(text: string) returns (r: Insertion)
      requires Valid()
      modifies this, session
      ensures Inserted(old(Now()), text, Now(), r)
      ensures r.Added? ==> numWaiting <= retaining || AtWork(Now())
      ensures old(numWaiting) < retaining ==>
                && unchanged(session)
                && (!r.Overflow? ==> Now() == old(Now()).(registered := true).Insert(text))
      ensures r.Added? && old(pending != [] && retaining <= numWaiting) ==> old(session.polls) < session.polls
      ensures session.losses == old(session.losses) - if !r.Lost? then 0 else 1
    {
      hide State.Good, State.Shape, Inserted, State.Insert, AtWork;
      ghost var s := Now();
      InsertFacts(s, text);
      Attach();
      if lastId == QID_LIMIT {
        return Overflow;
      }
      AddQuery(text);
      ghost var t := Now();
      InsertIs(s, t, text);
      var ok := true;
      if retaining < numWaiting {
        ok := SendIfIdle();
      }
      InsertedMore(s, text, t, Now());
      r := if ok then Added(lastId) else Lost(lastId);
    }

    /** Makes room on the connection if possible, and sends the waiting queries if there is room. */
    method SendIfIdle() returns (ok: bool)
      requires Valid() && 0 < numWaiting
      modifies this, session
      ensures Sent(old(Now()), Now())
      ensures ok ==> AtWork(Now())
      ensures ok && old(pending) != [] ==> old(session.polls) < session.polls
      ensures old(pending) == [] ==> session.polls == old(session.polls)
      ensures session.losses == old(session.losses) - if ok then 0 else 1
    {
      hide State.Good, State.Received, Issued, State.Onward, Sent;
      ghost var s := Now();
      SentSelf(s);
      Bounds(s);
      if HavePending() {
        ok := ReceiveIfAvailable();
        SentReceived(s, Now());
        if !ok {
          return;
        }
      }
      ghost var t := Now();
      Bounds(t);
      ok := true;
      if !HavePending() {
        ok := Issue();
        if !ok {
          SentReceived(t, Now());
          SentTrans(s, t, Now());
          return;
        }
        SentIssued(s, t, Now());
        IssuedAtWork(t, Now());
      }
    }

    /** Sends what is waiting, if nothing is pending. */
    method Resume() returns (ok: bool)
      requires Valid()
      modifies this, session
      ensures Sent(old(Now()), Now())
      ensures ok ==> AtWork(Now())
      ensures ok ==> Drained(old(session.polls))
      ensures old(pending == [] && numWaiting == 0) ==> ok && Now() == old(Now()) && unchanged(session)
      ensures session.losses == old(session.losses) - if ok then 0 else 1
    {
      hide State.Good, State.Received, Issued, State.Onward, Sent;
      ghost var s := Now();
      SentSelf(s);
      Bounds(s);
      ok := true;
      if HavePending() {
        ok := ReceiveIfAvailable();
        SentReceived(s, Now());
        if !ok {
          return;
        }
      }
      ghost var t := Now();
      Bounds(t);
      NumWaitingBound(t);
      if !HavePending() && numWaiting != 0 {
        ok := SendAndReceive();
        SentTrans(s, t, Now());
      }
    }

    method SendAndReceive() returns (ok: bool)
      requires Valid() && pending == [] && 0 < numWaiting
      modifies this, session
      ensures Sent(old(Now()), Now())
      ensures ok ==> AtWork(Now())
      ensures ok ==> Drained(old(session.polls))
      ensures session.losses == old(session.losses) - if ok then 0 else 1
    {
      hide State.Good, State.Received, State.Onward, State.Order, Sent, AtWork;
      ghost var s := Now();
      SentSelf(s);
      ok := Issue();
      if !ok {
        SentReceived(s, Now());
        return;
      }
      ghost var t := Now();
      SentIssued(s, s, t);
      IssuedAtWork(s, t);
      ok := ReceiveIfAvailable();
      SentReceived(t, Now());
      ReceivedAtWork(t, Now());
      SentTrans(s, t, Now());
    }

    /** Sets how many queries may be kept waiting, and returns the old number; a negative number is
      * an error. */
    method Retain(max: int) returns (was: Option<int>, ok: bool)
      requires Valid()
      modifies this, session
      ensures was == if max < 0 then None else Some(old(retaining))
      ensures max < 0 ==> ok && Now() == old(Now())
      ensures max >= 0 ==> Sent(old(Now()).(retaining := max), Now())
      ensures max >= 0 && ok ==> numWaiting < max || AtWork(Now())
      ensures old(numWaiting) < max ==>
                unchanged(session) && (max >= 0 ==> Now() == old(Now()).(retaining := max))
      ensures ok && 0 <= max <= old(numWaiting) ==> Drained(old(session.polls))
      ensures session.losses == old(session.losses) - if ok then 0 else 1
    {
      hide State.Good, Sent, AtWork;
      if max < 0 {
        return None, true;
      }
      RetainFacts(Now(), max);
      was, ok := Some(retaining), true;
      retaining := max;
      if numWaiting >= retaining {
        ok := Resume();
      }
    }

    /** Waits until every query has been answered, or fenced off by an error. */
    method Complete() returns (ok: bool)
      requires Valid()
      modifies this, session
      ensures if ok then Finished(old(Now()), Now()) && Settled(Now()) else Sent(old(Now()), Now())
      ensures ok && old(pending == [] && 0 < numWaiting && error == QID_LIMIT && lastId < QID_LIMIT - 1) ==>
                (error < QID_LIMIT <==> old(Now()).Fails())
      ensures session.losses == old(session.losses) - if ok then 0 else 1
    {
      hide State.Good, State.Received, Issued, Sent, Finished, Settled, State.Fails;
      ghost var s := Now();
      ok := ReceivePending();
      if !ok {
        return;
      }
      ghost var t := Now();
      NumWaitingBound(t);
      if numWaiting != 0 && error == QID_LIMIT {
        ok := SendAndWait();
        SentTrans(s, t, Now());
        if !ok {
          return;
        }
      } else {
        SettledUnsent(t);
      }
      DetachKeeps(s, Now());
      Detach();
      ok := true;
    }

    method SendAndWait() returns (ok: bool)
      requires Valid() && pending == [] && 0 < numWaiting && error == QID_LIMIT
      modifies this, session
      ensures Sent(old(Now()), Now())
      ensures ok ==> Settled(Now())
      ensures ok && old(lastId) < QID_LIMIT - 1 ==> (error < QID_LIMIT <==> old(Now()).Fails())
      ensures session.losses == old(session.losses) - if ok then 0 else 1
    {
      hide State.Good, State.Received, Sent, Settled, Ascending, State.Onward;
      ghost var s := Now();
      SentSelf(s);
      ok := Issue();
      if !ok {
        SentReceived(s, Now());
        return;
      }
      ghost var t := Now();
      SentIssued(s, s, t);
      Bounds(t);
      ok := Receive(End, |t.Order()|);
      SentReceived(t, Now());
      SentTrans(s, t, Now());
      AllReceived(t, Now());
      SettledReceived(t, Now());
      FenceForetold(s, t, Now());
    }

    /** Makes sure that a query has been sent, unless the fence is in the way. */
    method SendFor(id: int) returns (ok: bool)
      requires Valid() && id in queries && id < error
      modifies this, session
      ensures Sent(old(Now()), Now())
      ensures ok ==> id in answered || id in pending || error <= id
      ensures id in old(answered) ==> ok && Now() == old(Now()) && session.polls == old(session.polls)
      ensures session.losses == old(session.losses) - if ok then 0 else 1
    {
      hide State.Good, State.Received, Sent, State.Order, PositionAt, Ascending, State.Onward;
      ghost var s := Now();
      SentSelf(s);
      WhereIs(s, id);
      Bounds(s);
      if id in answered {
        PendingNotWaiting(s, id);
      }
      NumWaitingBound(s);
      if !second.End? && id >= second.id {
        ok := ReceivePending();
        if !ok {
          return;
        }
        WaitingStays(s, Now(), id);
        ghost var t := Now();
        if error == QID_LIMIT {
          WaitsReal(t, id);
          ok := Issue();
          if !ok {
            SentReceived(t, Now());
            SentTrans(s, t, Now());
            return;
          }
          SentIssued(s, t, Now());
        } else {
          FencedOff(t, id);
        }
      }
      return true;
    }

    /** Makes sure that a query that has been sent has its answer, unless the fence is in the way;
      * or else receives at least what is available. */
    method ReceiveFor(id: int) returns (ok: bool)
      requires Valid() && id in queries && (id in answered || id in pending || error <= id < QID_LIMIT)
      modifies this, session
      ensures Sent(old(Now()), Now())
      ensures ok ==> id in answered || error <= id
      ensures ok && id in old(answered) ==> Drained(old(session.polls))
      ensures ok && old(pending != [] && id in answered) ==> old(session.polls) < session.polls
      ensures session.losses == old(session.losses) - if ok then 0 else 1
    {
      hide State.Good, State.Received, Sent, PositionAt, Ascending, State.Onward, Succ;
      ghost var s := Now();
      SentSelf(s);
      WhereIs(s, id);
      Bounds(s);
      ok := true;
      if HavePending() {
        if id >= first.id {
          if error < QID_LIMIT {
            FencedIdle(s);
          }
          PendingNotWaiting(s, id);
          ghost var k: nat :| k < |s.Order()| && s.Order()[k] == id;
          GoodShape(s);
          OrderAt(s, k);
          var suc := Succ(queries.Keys, id);
          ok := Receive(suc, k + 1);
          SentReceived(s, Now());
          ReceivedUpTo(s, Now(), k);
        } else {
          ok := ReceiveIfAvailable();
          SentReceived(s, Now());
          ReceivedPrefix(s, Now());
          AnsweredStays(s, Now(), id);
        }
      }
    }

    /** Doesn't leave the server idle if there are queries waiting. */
    method IssueIfIdle() returns (ok: bool)
      requires Valid()
      modifies this, session
      ensures Sent(old(Now()), Now())
      ensures ok ==> AtWork(Now()) && answered == old(answered) && error == old(error)
      ensures session.polls == old(session.polls)
      ensures session.losses == old(session.losses) - if ok then 0 else 1
    {
      hide State.Good, State.Received, Issued, Sent;
      ghost var t := Now();
      SentSelf(t);
      Bounds(t);
      NumWaitingBound(t);
      ok := true;
      if numWaiting != 0 && !HavePending() && error == QID_LIMIT {
        ok := Issue();
        if !ok {
          SentReceived(t, Now());
          return;
        }
        SentIssued(t, t, Now());
        IssuedAnswered(t, Now());
        IssuedAtWork(t, Now());
      }
    }

    /** Takes an answered query out of the map. */
    method Take(id: int, ghost i: nat) returns (r: Outcome)
      requires i < |answered| && answered[i] == id && id in queries && queries[id].res.Some?
      modifies this`queries, this`answered
      ensures r == OutcomeOf(id, old(queries)[id].res.value)
      ensures Now() == old(Now()).Erase(i)
    {
      var res := queries[id].res.value;
      queries := queries - {id};
      answered := answered[..i] + answered[i + 1..];
      r := OutcomeOf(id, res);
    }

    /** The result of a query; its entry is erased. */
    method Retrieve(id: int) returns (r: Outcome)
      requires Valid()
      modifies this, session
      ensures Retrieved(old(Now()), id, Now(), r)
      ensures r.Value? || r.SqlError? ==> AtWork(Now())
      ensures (r.Value? || r.SqlError?) && old(pending != [] && id in answered) ==> old(session.polls) < session.polls
      ensures session.losses == old(session.losses) - if !r.Broken? then 0 else 1
    {
      hide State.Good, Sent, State.Order, State.Erase, Retrieved, OutcomeOf, Issued, State.Onward;
      ghost var s := Now();
      NumWaitingBound(s);
      NotRetrieved(s, s, id);
      if id !in queries {
        return Unknown;
      }
      if id >= error {
        return Fenced;
      }
      var ok := SendFor(id);
      ghost var t := Now();
      NotRetrieved(s, t, id);
      if !ok {
        return Broken;
      }
      ok := ReceiveFor(id);
      SentTrans(s, t, Now());
      t := Now();
      NotRetrieved(s, t, id);
      if !ok {
        return Broken;
      }
      if id >= error {
        return Fenced;
      }
      ok := IssueIfIdle();
      SentTrans(s, t, Now());
      if !ok {
        NotRetrieved(s, Now(), id);
        return Broken;
      }
      ghost var i: nat :| i < |answered| && answered[i] == id;
      RetrieveFacts(s, id, Now(), i);
      ErasedAtWork(Now(), i);
      r := Take(id, i);
    }

    /** The result of the oldest query; it is an error to ask an empty pipeline. */
    method RetrieveOldest() returns (r: Outcome)
      requires Valid()
      modifies this, session
      ensures old(queries) == map[] ==> r == Unknown && Now() == old(Now())
      ensures old(queries) != map[] ==>
                exists id :: Oldest(old(queries), id) && Retrieved(old(Now()), id, Now(), r)
      ensures session.losses == old(session.losses) - if !r.Broken? then 0 else 1
    {
      hide State.Good, Retrieved, State.Order;
      if queries == map[] {
        return Unknown;
      }
      OldestFirst(Now());
      var oldest :| oldest in queries && forall id :: id in queries ==> oldest <= id;
      assert Oldest(queries, oldest);
      r := Retrieve(oldest);
    }

    method Forget()
      modifies this`queries, this`first, this`second, this`numWaiting, this`dummyPending, this`answered, this`pending,
               this`waiting
      ensures queries == map[] && first == second == End && numWaiting == 0 && !dummyPending
      ensures answered == pending == waiting == []
    {
      first, second := End, End;
      numWaiting := 0;
      dummyPending := false;
      queries := map[];
      answered, pending, waiting := [], [], [];
    }

    /** Forgets all queries and results. */
    method Flush() returns (ok: bool)
      requires Valid()
      modifies this, session
      ensures ok ==> Flushed(old(Now()), Now())
      ensures !ok ==> Sent(old(Now()), Now())
      ensures session.losses == old(session.losses) - if ok then 0 else 1
    {
      hide State.Good, Sent, Flushed, State.Received, State.Clear;
      ghost var s := Now();
      SentSelf(s);
      if queries != map[] {
        ok := ReceivePending();
        if !ok {
          return;
        }
        ghost var t := Now();
        FlushedFrom(s, t);
        Forget();
        ClearIs(t, Now());
      } else {
        EmptyIdle(s);
        FlushedFrom(s, s);
      }
      Detach();
      ok := true;
    }

    /** Whether a query's result is in; it is an error to ask about an unknown query. */
    method IsFinished(id: int) returns (finished: Option<bool>)
      requires Valid()
      ensures finished.None? <==> id !in queries
      ensures finished.Some? ==> (finished.value <==> id in answered)
    {
      if id !in queries {
        return None;
      }
      AnsweredExactly(Now(), id);
      return Some(first.End? || (id < first.id && id < error));
    }
  }

  /** A query that is inserted after a flush can be retrieved exactly if, before the flush, no failure had
    * raised the fence or was still to come in from the pending queries: flushing does not clear the error.
    * The last id can never be retrieved.  This can be done unless the connection is lost or there are no
    * more ids. */
  method QueryAfterFlush(pipeline: Pipeline, text: string) returns (r: Outcome, done: bool)
    requires pipeline.Valid()
    modifies pipeline, pipeline.session
    ensures pipeline.session.losses <= old(pipeline.session.losses)
    ensures done <==> pipeline.session.losses == old(pipeline.session.losses) && old(pipeline.lastId) < QID_LIMIT
    ensures done ==> !r.Unknown? && !r.Broken?
    ensures done && old(pipeline.lastId) < QID_LIMIT - 1 ==> (r.Fenced? <==> old(pipeline.Now()).Doomed())
    ensures done && old(pipeline.lastId) == QID_LIMIT - 1 ==> r.Fenced?
  {
    hide State.Good, Retrieved, State.Onward, State.Order, State.Doomed, AtWork, Lone;
    ghost var s := pipeline.Now();
    FenceUpTo(s);
    done := pipeline.Flush();
    r := Broken;
    if done {
      ghost var t := pipeline.Now();
      var insertion := pipeline.Insert(text);
      done := insertion.Added?;
      if done {
        ghost var u := pipeline.Now();
        r := pipeline.Retrieve(insertion.id);
        done := !r.Broken?;
        AfterFlush(s, t, text, u, insertion, pipeline.Now(), r);
      }
    }
  }

  lemma AfterFlush(s: State, t: State, text: string, u: State, insertion: Insertion, v: State, r: Outcome)
    requires s.Good() && Flushed(s, t) && Inserted(t, text, u, insertion) && insertion.Added?
    requires Retrieved(u, insertion.id, v, r)
    ensures !r.Unknown?
    ensures s.lastId < QID_LIMIT - 1 ==> (r.Fenced? <==> s.Doomed())
    ensures s.lastId == QID_LIMIT - 1 ==> r.Fenced?
  {
    hide State.Good;
    NewKnown(t, text, u, insertion);
    FlushedDoom(s, t);
    FenceUpTo(t);
    FenceUpTo(u);
  }

  lemma NewKnown(s: State, text: string, s': State, insertion: Insertion)
    requires Inserted(s, text, s', insertion) && !insertion.Overflow?
    ensures insertion.id in s'.queries
  {
    GoodShape(s');
    assert KeysAre(s'.queries, s'.Order());
    assert s'.Order()[|s.Order()|] == insertion.id;
    assert insertion.id in s'.Order();
  }

  lemma FlushedDoom(s: State, t: State)
    requires Flushed(s, t)
    ensures t.Doomed() <==> t.error < QID_LIMIT
  {
    hide State.Good;
  }

  lemma FenceUpTo(s: State)
    requires s.Good()
    ensures s.error <= QID_LIMIT && (s.error < QID_LIMIT ==> s.error <= s.lastId + 1) && s.lastId <= QID_LIMIT
  {
  }

  /** A server that fails the statement "bad" and no other. */
  function Picky(): Server {
    Server((h, statement) => if statement == "bad" then Failed("bad") else Rows([]), (h, statements) => false)
  }

  /** A failing batch, a flush, and then a query that is never answered although the server would. */
  method StaleError() returns (r: Outcome)
    ensures r == Fenced
  {
    hide State.Good, State.Onward, State.Order, Settled, AtWork, Lone, State.Fails;
    var session := new Session(Picky(), [], 0, 0);
    var pipeline := new Pipeline(session);
    var was, ok := pipeline.Retain(2);
    var bad := pipeline.Insert("bad");
    var good := pipeline.Insert("good");
    BadBatch(pipeline.Now());
    ok := pipeline.Complete();
    r, ok := QueryAfterFlush(pipeline, "good");
  }

  lemma BadBatch(s: State)
    requires s.server == Picky() && s.history == [] && s.waiting == [1, 2] && s.log == ["bad", "good"]
    ensures s.Fails()
  {
    assert Texts(s.log, s.waiting)[0] == "bad";
  }

  /** A call of the pipeline's interface. */
  datatype Call =
    | CallInsert(text: string)
    | CallRetrieve(id: int)
    | CallRetrieveOldest
    | CallRetain(max: int)
    | CallResume
    | CallComplete
    | CallFlush

  predicate IsResult(r: Outcome) {
    r.Value? || r.SqlError?
  }

  /** What a call does.  Its outcome is that of the query that was asked for. */
  ghost predicate Made(s: State, call: Call, s': State, r: Outcome) {
    && s'.Good() && s.Onward(s')
    && match call
       case CallInsert(text) =>
         exists insertion ::
           Inserted(s, text, s', insertion) && r == if insertion.Lost? then Broken else Done
       case CallRetrieve(id) => Retrieved(s, id, s', r)
       case CallRetrieveOldest =>
         if s.queries == map[] then r == Unknown && s' == s
         else exists id :: Oldest(s.queries, id) && Retrieved(s, id, s', r)
       case CallRetain(max) =>
         if max < 0 then r == Done && s' == s
         else (r == Broken || (r == Done && (s'.numWaiting < max || AtWork(s')))) && Sent(s.(retaining := max), s')
       case CallResume => (r == Broken || (r == Done && AtWork(s'))) && Sent(s, s')
       case CallComplete => if r == Broken then Sent(s, s') else r == Done && Finished(s, s') && Settled(s')
       case CallFlush => if r == Broken then Sent(s, s') else r == Done && Flushed(s, s')
  }

  /** The calls have been made one after the other, from one state to another. */
  ghost predicate RunOf(s: State, calls: seq<Call>, outcomes: seq<Outcome>, s': State)
    decreases |calls|
  {
    && |outcomes| == |calls|
    && if calls == [] then s' == s
       else
         var n := |calls| - 1;
         exists t :: RunOf(s, calls[..n], outcomes[..n], t) && Made(t, calls[n], s', outcomes[n])
  }

  lemma RunMore(s: State, calls: seq<Call>, outcomes: seq<Outcome>, t: State, call: Call, u: State, r: Outcome)
    requires RunOf(s, calls, outcomes, t) && Made(t, call, u, r)
    ensures RunOf(s, calls + [call], outcomes + [r], u)
  {
    hide Made;
    assert (calls + [call])[..|calls|] == calls && (outcomes + [r])[..|calls|] == outcomes;
  }

  /** Whether the pipeline holds its transaction after a call, if it held it before or not: an insertion
    * takes hold of it, completing and flushing let it go. */
  predicate HeldAfter(held: bool, call: Call, r: Outcome) {
    match call
    case CallInsert(_) => true
    case CallComplete => held && r.Broken?
    case CallFlush => held && r.Broken?
    case _ => held
  }

  predicate Held(held: bool, calls: seq<Call>, outcomes: seq<Outcome>)
    requires |calls| == |outcomes|
  {
    if calls == [] then held
    else
      var n := |calls| - 1;
      HeldAfter(Held(held, calls[..n], outcomes[..n]), calls[n], outcomes[n])
  }

  lemma HeldMore(held: bool, calls: seq<Call>, outcomes: seq<Outcome>, call: Call, r: Outcome)
    requires |calls| == |outcomes|
    ensures Held(held, calls + [call], outcomes + [r]) == HeldAfter(Held(held, calls, outcomes), call, r)
  {
    assert (calls + [call])[..|calls|] == calls && (outcomes + [r])[..|calls|] == outcomes;
  }

  /** The pipeline holds its transaction as it should, unless a refused batch was replayed meanwhile; then
    * it does not. */
  lemma MadeHeld(s: State, call: Call, s': State, r: Outcome)
    requires s.Good() && Made(s, call, s', r)
    ensures s.Replays() <= s'.Replays()
    ensures s'.registered <==> HeldAfter(s.registered, call, r) && s'.Replays() == s.Replays()
  {
    hide State.Good, State.Onward, State.Order, State.Doomed, Lone, VouchedFor, AtWork, Settled, Refusals;
  }

  /** How many calls ended because the connection broke. */
  function Breaks(outcomes: seq<Outcome>): nat {
    if outcomes == [] then 0
    else Breaks(outcomes[..|outcomes| - 1]) + if outcomes[|outcomes| - 1].Broken? then 1 else 0
  }

  lemma BreaksMore(outcomes: seq<Outcome>, r: Outcome)
    ensures Breaks(outcomes + [r]) == Breaks(outcomes) + if r.Broken? then 1 else 0
  {
    assert (outcomes + [r])[..|outcomes|] == outcomes;
  }

  /** The texts of the queries that the calls insert. */
  function InsertedTexts(calls: seq<Call>): seq<string> {
    if calls == [] then []
    else
      var n := |calls| - 1;
      InsertedTexts(calls[..n]) + if calls[n].CallInsert? then [calls[n].text] else []
  }

  /** As many as there are ids for. */
  function AtMost(texts: seq<string>, n: int): seq<string> {
    if n < 0 then [] else if |texts| <= n then texts else texts[..n]
  }

  lemma AtMostMore(log: seq<string>, texts: seq<string>, limit: nat, text: string)
    requires |log| <= limit
    ensures var l := log + AtMost(texts, limit - |log|);
            && |l| <= limit
            && log + AtMost(texts + [text], limit - |log|) == if |l| < limit then l + [text] else l
  {
  }

  /** What is added to the log. */
  lemma MadeLog(s: State, call: Call, s': State, r: Outcome)
    requires s.Good() && Made(s, call, s', r)
    ensures |s.log| == s.lastId && s.lastId <= s'.lastId
    ensures s'.log == s.log + if call.CallInsert? && |s.log| < QID_LIMIT then [call.text] else []
  {
    hide State.Good, State.Order, State.Doomed, Lone;
    GoodShape(s);
    GoodShape(s');
    hide Ascending, KeysAre;
  }

  /** A query that has been retrieved is gone, and does not come back. */
  lemma MadeGone(s: State, call: Call, s': State, r: Outcome)
    requires s.Good() && Made(s, call, s', r)
    ensures IsResult(r) ==> r.id in s.queries && r.id <= s.lastId && r.id !in s'.queries
    ensures forall id :: id in s'.queries && id !in s.queries ==> s.lastId < id
  {
    hide State.Good, State.Onward, State.Doomed, Lone, VouchedFor;
    GoodShape(s);
    GoodShape(s');
    KeysOfOrder(s);
    KeysOfOrder(s');
    hide State.Shape;
  }

  lemma KeysOfOrder(s: State)
    requires s.Shape()
    ensures forall id :: id in s.queries <==> id in s.Order()
    ensures forall id :: id in s.queries ==> id <= s.lastId
  {
    hide Ascending;
  }

  /** Each query that has been retrieved is known no more, and no query has been retrieved twice. */
  ghost predicate OnceEach(s: State, outcomes: seq<Outcome>) {
    && (forall i :: 0 <= i < |outcomes| && IsResult(outcomes[i]) ==>
          outcomes[i].id !in s.queries && outcomes[i].id <= s.lastId)
    && (forall i, j :: 0 <= i < j < |outcomes| && IsResult(outcomes[i]) && IsResult(outcomes[j]) ==>
          outcomes[i].id != outcomes[j].id)
  }

  lemma OnceMore(s: State, outcomes: seq<Outcome>, call: Call, s': State, r: Outcome)
    requires s.Good() && OnceEach(s, outcomes) && Made(s, call, s', r)
    ensures OnceEach(s', outcomes + [r])
  {
    hide State.Good, Made;
    MadeGone(s, call, s', r);
    MadeLog(s, call, s', r);
  }

  lemma MadeAsked(s: State, call: Call, s': State, r: Outcome)
    requires Made(s, call, s', r) && IsResult(r)
    ensures call.CallRetrieve? || call.CallRetrieveOldest?
    ensures call.CallRetrieve? ==> r.id == call.id
    ensures call.CallRetrieveOldest? ==> Oldest(s.queries, r.id)
    ensures VouchedFor(s', r)
  {
    hide State.Good, State.Onward, State.Order, Lone, VouchedFor;
  }

  lemma MadeVouched(s: State, call: Call, s': State, r: Outcome)
    requires Made(s, call, s', r)
    ensures VouchedFor(s', r)
  {
    hide Made;
    if IsResult(r) {
      MadeAsked(s, call, s', r);
    } else {
      assert Vouched(s', r, 0);
    }
  }

  lemma MadeOnward(s: State, call: Call, s': State, r: Outcome)
    requires Made(s, call, s', r)
    ensures s'.Good() && s.Onward(s')
  {
    hide State.Good, State.Onward;
  }

  /** Makes any calls, in any order.  Whatever the batching, the timing and the order of retrieval,
    * every result that comes out is the server's own answer to the query that was asked for, and comes
    * out once.  Every error is the server's own failure of it, if no query that was run by itself went
    * unanswered.  The log has the texts that were inserted, in order.  As many calls are broken off as
    * the connection is lost. */
  method Run(pipeline: Pipeline, calls: seq<Call>) returns (outcomes: seq<Outcome>)
    requires pipeline.Valid()
    modifies pipeline, pipeline.session
    ensures pipeline.Valid() && old(pipeline.Now()).Onward(pipeline.Now())
    ensures |outcomes| == |calls| && RunOf(old(pipeline.Now()), calls, outcomes, pipeline.Now())
    ensures forall i :: 0 <= i < |calls| && IsResult(outcomes[i]) ==>
              && (calls[i].CallRetrieve? || calls[i].CallRetrieveOldest?)
              && (calls[i].CallRetrieve? ==> outcomes[i].id == calls[i].id)
    ensures forall i :: 0 <= i < |outcomes| ==> VouchedFor(pipeline.Now(), outcomes[i])
    ensures forall i :: 0 <= i < |outcomes| && outcomes[i].SqlError? && pipeline.session.silent == [] ==>
              FailedByServer(pipeline.Now(), outcomes[i].id)
    ensures old(pipeline.session.mute) == 0 ==> pipeline.session.silent == old(pipeline.session.silent)
    ensures OnceEach(pipeline.Now(), outcomes)
    ensures pipeline.log == old(pipeline.log) + AtMost(InsertedTexts(calls), QID_LIMIT - |old(pipeline.log)|)
    ensures pipeline.session.losses == old(pipeline.session.losses) - Breaks(outcomes)
    ensures pipeline.Now().Replays() == old(pipeline.Now()).Replays() ==>
              pipeline.registered == Held(old(pipeline.registered), calls, outcomes)
  {
    hide *;
    outcomes := [];
    ghost var s := pipeline.Now();
    NoBreaks();
    pipeline.Logs();
    RunStarts(s, calls);
    for i := 0 to |calls|
      invariant pipeline.Now().Good() && pipeline.Now().log == pipeline.log
      invariant RunSoFar(s, calls[..i], outcomes, pipeline.Now())
      invariant pipeline.session.losses == old(pipeline.session.losses) - Breaks(outcomes)
    {
      ghost var t := pipeline.Now();
      var r := MakeCall(pipeline, calls[i]);
      MadeOnward(t, calls[i], pipeline.Now(), r);
      RunStep(s, calls[..i], outcomes, t, calls[i], pipeline.Now(), r);
      pipeline.Logs();
      BreaksMore(outcomes, r);
      assert calls[..i + 1] == calls[..i] + [calls[i]];
      outcomes := outcomes + [r];
    }
    assert calls[..|calls|] == calls;
    pipeline.Logs();
    RunDone(s, calls, outcomes, pipeline.Now());
    NotMute(s, pipeline.Now());
  }

  lemma NoBreaks()
    ensures Breaks([]) == 0
  {
  }

  /** If every query that is run by itself gets an answer, none is silent. */
  lemma NotMute(s: State, t: State)
    requires s.Onward(t) && 0 <= t.mute
    ensures s.mute == 0 ==> t.silent == s.silent && t.lost == s.lost
  {
  }

  /** What Run keeps. */
  ghost predicate RunSoFar(s: State, calls: seq<Call>, outcomes: seq<Outcome>, t: State) {
    && t.Good() && s.Onward(t) && RunOf(s, calls, outcomes, t)
    && (forall i :: 0 <= i < |calls| && IsResult(outcomes[i]) ==>
          && (calls[i].CallRetrieve? || calls[i].CallRetrieveOldest?)
          && (calls[i].CallRetrieve? ==> outcomes[i].id == calls[i].id))
    && (forall i :: 0 <= i < |outcomes| ==> VouchedFor(t, outcomes[i]))
    && OnceEach(t, outcomes)
    && s.Replays() <= t.Replays() && |calls| == |outcomes|
    && (t.Replays() == s.Replays() ==> t.registered == Held(s.registered, calls, outcomes))
    && |s.log| <= QID_LIMIT && t.log == s.log + AtMost(InsertedTexts(calls), QID_LIMIT - |s.log|)
  }

  lemma RunStarts(s: State, calls: seq<Call>)
    requires s.Good()
    ensures RunSoFar(s, calls[..0], [], s)
  {
    OnwardHere(s);
    GoodShape(s);
    hide State.Good, State.Onward;
  }

  lemma RunStep(s: State, calls: seq<Call>, outcomes: seq<Outcome>, t: State, call: Call, u: State, r: Outcome)
    requires RunSoFar(s, calls, outcomes, t) && Made(t, call, u, r)
    ensures RunSoFar(s, calls + [call], outcomes + [r], u)
  {
    hide State.Good, State.Onward, Made, VouchedFor, OnceEach, RunOf, AtMost, InsertedTexts, Held, HeldAfter,
      State.Replays;
    RunMore(s, calls, outcomes, t, call, u, r);
    MadeOnward(t, call, u, r);
    MadeVouched(t, call, u, r);
    OnwardTrans(s, t, u);
    OnceMore(t, outcomes, call, u, r);
    MadeLog(t, call, u, r);
    MadeHeld(t, call, u, r);
    HeldMore(s.registered, calls, outcomes, call, r);
    RunLength(s, calls, outcomes, t);
    forall i | 0 <= i < |outcomes| ensures VouchedFor(u, outcomes[i]) {
      VouchedOnward(t, u, outcomes[i]);
    }
    if IsResult(r) {
      MadeAsked(t, call, u, r);
    }
    LogStep(s.log, calls, t.log, call, u.log);
  }

  lemma LogStep(log: seq<string>, calls: seq<Call>, log': seq<string>, call: Call, log'': seq<string>)
    requires |log| <= QID_LIMIT && log' == log + AtMost(InsertedTexts(calls), QID_LIMIT - |log|)
    requires log'' == log' + if call.CallInsert? && |log'| < QID_LIMIT then [call.text] else []
    ensures log'' == log + AtMost(InsertedTexts(calls + [call]), QID_LIMIT - |log|)
  {
    hide AtMost;
    assert (calls + [call])[..|calls|] == calls;
    assert InsertedTexts(calls) + [] == InsertedTexts(calls) && log' + [] == log';
    if call.CallInsert? {
      AtMostMore(log, InsertedTexts(calls), QID_LIMIT, call.text);
    }
  }

  lemma RunLength(s: State, calls: seq<Call>, outcomes: seq<Outcome>, t: State)
    requires RunOf(s, calls, outcomes, t)
    ensures |outcomes| == |calls|
  {
  }

  lemma RunDone(s: State, calls: seq<Call>, outcomes: seq<Outcome>, t: State)
    requires RunSoFar(s, calls, outcomes, t)
    ensures s.Onward(t) && |outcomes| == |calls| && RunOf(s, calls, outcomes, t) && OnceEach(t, outcomes)
    ensures forall i :: 0 <= i < |calls| && IsResult(outcomes[i]) ==>
              && (calls[i].CallRetrieve? || calls[i].CallRetrieveOldest?)
              && (calls[i].CallRetrieve? ==> outcomes[i].id == calls[i].id)
    ensures forall i :: 0 <= i < |outcomes| ==> VouchedFor(t, outcomes[i])
    ensures forall i :: 0 <= i < |outcomes| && outcomes[i].SqlError? && t.silent == [] ==>
              FailedByServer(t, outcomes[i].id)
    ensures t.log == s.log + AtMost(InsertedTexts(calls), QID_LIMIT - |s.log|)
    ensures t.Replays() == s.Replays() ==> t.registered == Held(s.registered, calls, outcomes)
  {
    hide State.Good, State.Onward, VouchedFor, OnceEach, FailedByServer, RunOf, Held, State.Replays;
    RunLength(s, calls, outcomes, t);
    forall i | 0 <= i < |outcomes| && outcomes[i].SqlError? && t.silent == []
      ensures FailedByServer(t, outcomes[i].id)
    {
      TrueError(t, outcomes[i].id, outcomes[i].reply);
    }
  }

  lemma VouchedOnward(s: State, t: State, r: Outcome)
    requires VouchedFor(s, r) && s.Onward(t)
    ensures VouchedFor(t, r)
  {
    hide Vouched;
    var k: nat :| Vouched(s, r, k);
    VouchedSame(s, t, r, k);
  }

  /** Makes one call. */
  method MakeCall(pipeline: Pipeline, call: Call) returns (r: Outcome)
    requires pipeline.Now().Good()
    modifies pipeline, pipeline.session
    ensures Made(old(pipeline.Now()), call, pipeline.Now(), r)
    ensures pipeline.session.losses == old(pipeline.session.losses) - if r.Broken? then 1 else 0
  {
    hide State.Good, State.Onward, State.Order, Retrieved, Lone, State.Doomed, AtWork, Settled;
    ghost var s := pipeline.Now();
    OnwardHere(s);
    var ok := true;
    match call {
      case CallInsert(text) =>
        var insertion := pipeline.Insert(text);
        ok := !insertion.Lost?;
      case CallRetrieve(id) =>
        r := pipeline.Retrieve(id);
        RetrievedOnward(s, id, pipeline.Now(), r);
        return;
      case CallRetrieveOldest =>
        r := pipeline.RetrieveOldest();
        if s.queries != map[] {
          ghost var id :| Oldest(s.queries, id) && Retrieved(s, id, pipeline.Now(), r);
          RetrievedOnward(s, id, pipeline.Now(), r);
        }
        return;
      case CallRetain(max) =>
        RetainOnward(s, max);
        var was;
        was, ok := pipeline.Retain(max);
      case CallResume =>
        ok := pipeline.Resume();
      case CallComplete =>
        ok := pipeline.Complete();
      case CallFlush =>
        ok := pipeline.Flush();
    }
    r := if ok then Done else Broken;
  }

  lemma RetrievedOnward(s: State, id: int, s': State, r: Outcome)
    requires Retrieved(s, id, s', r)
    ensures s'.Good() && s.Onward(s')
  {
    hide State.Good, State.Onward;
  }

  lemma RetainOnward(s: State, max: int)
    requires s.Good()
    ensures max >= 0 ==> forall t :: Sent(s.(retaining := max), t) ==> t.Good() && s.Onward(t)
  {
    hide State.Good;
  }

  /** While nothing has been rolled back, the answer to a query is the one it would get if the same
    * queries were simply executed one after the other. */
  lemma PlainExecution(s: State, id: int, reply: Reply, k: nat)
    requires s.Good() && s.AnsweredAt(id, k, reply) && id != 0
    requires forall j :: 0 <= j < k ==> s.history[j].Ran?
    ensures 1 <= id <= |s.log|
    ensures var before := seq(k, j requires 0 <= j < k => s.history[j].statement);
            reply == s.server.answer(RanAll(before), s.log[id - 1])
  {
    hide State.Shape, State.Stored, Unissued, Blank, Consistent, State.InFlight, State.Fence, InOrder;
    var before := seq(k, j requires 0 <= j < k => s.history[j].statement);
    assert s.history[..k] == RanAll(before);
  }

  /** No query runs twice, and queries run in the order in which they were inserted. */
  lemma OnceInOrder(s: State, id: int, k: nat, id': int, k': nat)
    requires s.Good() && s.RanAt(id, k) && s.RanAt(id', k') && id != 0 && id' != 0
    ensures k < k' <==> id < id'
    ensures k == k' <==> id == id'
  {
    hide State.Shape, State.Stored, Unissued, Blank, Consistent, State.InFlight, State.Fence, RanTexts;
  }
}

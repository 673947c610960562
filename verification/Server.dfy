/** The database server as a pipeline sees it, and the libpq session that carries its answers.
  *
  * The server is any function from the history of a session to an answer.  Statements that were
  * sent as one string form a batch: the server answers them one by one up to and including the
  * first failure, then rolls the batch back.  It may also refuse a whole batch before running any
  * of it, as it does when some statement does not parse.
  */
module Server {
  import opened Wrappers

  /** The answer to one statement: rows of text, or an error message. */
  datatype Reply = Rows(rows: seq<string>) | Failed(message: string)

  /** What happened in the database: a statement ran, or the batch whose last `count` statements
    * ran was rolled back because it failed. */
  datatype Step = Ran(statement: string) | RolledBack(count: nat)

  type History = seq<Step>

  /** A server: its answer to a statement after a history, and whether it refuses a batch. */
  datatype Server = Server(answer: (History, string) -> Reply, refuses: (History, seq<string>) -> bool)

  function RanAll(statements: seq<string>): (h: History)
    ensures |h| == |statements|
    ensures forall k :: 0 <= k < |h| ==> h[k] == Ran(statements[k])
  {
    seq(|statements|, k requires 0 <= k < |statements| => Ran(statements[k]))
  }

  /** The answers to a batch: everything up to and including the first failure. */
  function Batch(server: Server, h: History, statements: seq<string>): (replies: seq<Reply>)
    ensures |replies| <= |statements|
    ensures statements != [] ==> replies != []
    ensures |replies| < |statements| ==> replies[|replies| - 1].Failed?
    decreases |statements|
  {
    if statements == [] then []
    else
      var reply := server.answer(h, statements[0]);
      if reply.Failed? then [reply]
      else [reply] + Batch(server, h + [Ran(statements[0])], statements[1..])
  }

  /** How many statements succeed when they are run one at a time, until one fails. */
  function Culprit(server: Server, h: History, statements: seq<string>): (n: nat)
    ensures n <= |statements|
    decreases |statements|
  {
    if statements == [] || server.answer(h, statements[0]).Failed? then 0
    else 1 + Culprit(server, h + [Ran(statements[0])], statements[1..])
  }

  /** The server's answer to the statement at index `k` of a history. */
  function AnswerAt(server: Server, h: History, k: nat): Reply
    requires k < |h| && h[k].Ran?
  {
    server.answer(h[..k], h[k].statement)
  }

  /** A server that refuses a batch refuses it for a reason: running the batch one statement at a
    * time also meets a failure. */
  ghost predicate Consistent(server: Server) {
    forall h, statements ::
      server.refuses(h, statements) ==> Culprit(server, h + [RolledBack(0)], statements) < |statements|
  }

  /** The k-th answer of a batch is the answer to its k-th statement, after those before it. */
  lemma {:induction false} BatchAnswers(server: Server, h: History, statements: seq<string>, k: nat)
    requires k < |Batch(server, h, statements)|
    ensures Batch(server, h, statements)[k] == server.answer(h + RanAll(statements[..k]), statements[k])
    ensures Batch(server, h, statements)[k].Failed? ==> k == |Batch(server, h, statements)| - 1
    decreases |statements|
  {
    if k == 0 {
      assert h + RanAll(statements[..0]) == h;
    } else {
      var rest := statements[1..];
      BatchAnswers(server, h + [Ran(statements[0])], rest, k - 1);
      assert h + [Ran(statements[0])] + RanAll(rest[..k - 1]) == h + RanAll(statements[..k]);
    }
  }

  /** The libpq connection: the replies the client has not read yet, and what the server did. */
  class Session {
    const server: Server
    var history: History
    var replies: seq<Reply>
    // Whether the client has yet to read the null result that ends the last batch.
    var unfinished: bool
    // How many more times the connection will be lost: any number.
    var losses: nat
    // How many more statements that are run by themselves will get no answer: any number.
    var mute: nat
    // Those that got none.
    ghost var silent: seq<string>
    // The answers so far to whether reading would block.
    ghost var polls: seq<bool>

    constructor (server: Server, history: History, losses: nat, mute: nat)
      ensures this.server == server && this.history == history && replies == [] && !unfinished
      ensures this.losses == losses && this.mute == mute && silent == [] && polls == []
    {
      this.server, this.history, replies, unfinished := server, history, [], false;
      this.losses, this.mute, silent, polls := losses, mute, [], [];
    }

    /** What the server does with one string of statements: the history and the replies. */
    static function Outcome(server: Server, h: History, statements: seq<string>, dummy: bool): (History, seq<Reply>)
    {
      if dummy && server.refuses(h, statements) then
        (h + [RolledBack(0)], [Failed("refused")])
      else
        var answers := Batch(server, h, statements);
        var n := |answers|;
        var ran := h + RanAll(statements[..n]);
        (if n > 0 && answers[n - 1].Failed? then ran + [RolledBack(n)] else ran,
         (if dummy then [Rows(["1"])] else []) + answers)
    }

    /** Sends a string of statements, with the dummy query in front if asked.  libpq accepts it
      * only when the previous batch has been read to its end; even then, the connection may be lost. */
    method StartExec(statements: seq<string>, dummy: bool) returns (ok: bool)
      requires !unfinished && replies == []
      modifies this`history, this`replies, this`unfinished, this`losses
      ensures losses == old(losses) - if ok then 0 else 1
      ensures ok ==> (history, replies) == Outcome(server, old(history), statements, dummy) && unfinished
      ensures !ok ==> history == old(history) && replies == [] && !unfinished
    {
      ok := Holds();
      if !ok {
        return;
      }
      var (h, r) := Outcome(server, history, statements, dummy);
      history, replies, unfinished := h, r, true;
    }

    /** The next reply, or None once the batch is exhausted. */
    method GetResult() returns (reply: Option<Reply>)
      modifies this`replies, this`unfinished
      ensures old(replies) == [] ==> reply == None && replies == [] && !unfinished
      ensures old(replies) != [] ==>
                reply == Some(old(replies)[0]) && replies == old(replies)[1..] && unfinished == old(unfinished)
    {
      if replies == [] {
        unfinished := false;
        return None;
      }
      reply, replies := Some(replies[0]), replies[1..];
    }

    /** Runs one statement by itself and waits for its answer.  There may be none: the statement may not
      * have been sent, or the connection lost before or after the server ran it. */
    method Exec(statement: string) returns (reply: Option<Reply>)
      requires !unfinished && replies == []
      modifies this`history, this`mute, this`silent
      ensures silent == old(silent) + if reply.Some? then [] else [statement]
      ensures mute == old(mute) - if reply.Some? then 0 else 1
      ensures var answer := server.answer(old(history), statement);
              var ran := old(history) + [Ran(statement)] + if answer.Failed? then [RolledBack(1)] else [];
              if reply.Some? then reply.value == answer && history == ran
              else history == old(history) || history == ran
    {
      var answer := server.answer(history, statement);
      var ran := history + [Ran(statement)] + if answer.Failed? then [RolledBack(1)] else [];
      if mute > 0 {
        var heard: bool, sent: bool := *, *;
        if !heard {
          history := if sent then ran else history;
          mute, silent := mute - 1, silent + [statement];
          return None;
        }
      }
      history := ran;
      return Some(answer);
    }

    /** Whether reading a result would block: any answer is possible. */
    method IsBusy() returns (busy: bool)
      modifies this`polls
      ensures polls == old(polls) + [busy]
    {
      busy := *;
      polls := polls + [busy];
    }

    /** Reads from the socket; false means that the connection broke. */
    method ConsumeInput() returns (ok: bool)
      modifies this`losses
      ensures losses == old(losses) - if ok then 0 else 1
    {
      ok := Holds();
    }

    /** Whether the connection holds this time. */
    method Holds() returns (ok: bool)
      modifies this`losses
      ensures losses == old(losses) - if ok then 0 else 1
    {
      ok := true;
      if losses > 0 {
        ok := *;
        losses := if ok then losses else losses - 1;
      }
    }
  }
}

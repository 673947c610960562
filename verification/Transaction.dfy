/** Transactions: commit, abort, close, command execution, focus registration and pending errors, over
  * a connection that may be lost at any step. */
module Transaction {

  datatype Status = Active | Aborted | Committed | InDoubt

  /** How an operation ends: normally, or with one of these errors. */
  datatype Thrown =
    | Nothing | Failure | UsageError | InDoubtError | BrokenConnection | SqlError | CompletionUnknown

  datatype Command = BeginCommand | CommitCommand | RollbackCommand | Query

  datatype Reply = NoReply | Accepted | Rejected | Uncertain

  /** What comes of sending a command: whether it got to the server, whether the server carried it out,
    * what came back, whether the connection is still open then, and whether the reply could be
    * processed and pending input read. */
  datatype RawExchange = Exchange(sent: bool, executed: bool, reply: Reply, open: bool, drained: bool)

  /** The server replies only to what it got, accepts what it carried out, and does not reject it. */
  predicate Sane(e: RawExchange) {
    && (e.executed ==> e.sent) && (e.reply != NoReply ==> e.sent)
    && (e.reply == Accepted ==> e.executed) && (e.reply == Rejected ==> !e.executed)
  }

  type Exchange = e: RawExchange | Sane(e) witness Exchange(false, false, NoReply, false, false)

  /** A reply is lost only along with the connection. */
  predicate Orderly(e: Exchange) {
    && (e.sent && e.reply == NoReply ==> !e.open)
    && (e.reply == Accepted && !e.drained ==> !e.open)
  }

  /** What the client library makes of an exchange. */
  function Raised(e: Exchange): Thrown {
    match e.reply
    case NoReply => if e.open then Failure else BrokenConnection
    case Rejected => SqlError
    case Uncertain => CompletionUnknown
    case Accepted => if e.drained then Nothing else BrokenConnection
  }

  /** What the error tells about the exchange. */
  lemma RaisedMeans(e: Exchange)
    ensures Raised(e) == Nothing <==> e.reply == Accepted && e.drained
    ensures Raised(e) == SqlError <==> e.reply == Rejected
    ensures Raised(e) == CompletionUnknown <==> e.reply == Uncertain
    ensures Raised(e) == Failure <==> e.reply == NoReply && e.open
    ensures Raised(e) == BrokenConnection <==> (e.reply == NoReply && !e.open) || (e.reply == Accepted && !e.drained)
    ensures Raised(Actual(false, e)) == BrokenConnection && !Actual(false, e).sent
  {
  }

  /** On a closed connection nothing can be sent. */
  function Actual(open: bool, e: Exchange): Exchange {
    if open then e else Exchange(false, false, NoReply, false, false)
  }

  /** A command that was sent: the transaction that sent it, its status then, whether nothing held its
    * focus, and whether the connection was open. */
  datatype Entry = Entry(owner: Transaction, command: Command, status: Status, free: bool, open: bool)

  class Connection {
    var open: bool
    var trans: Transaction?
    // All that was sent.
    var log: seq<Entry>

    constructor ()
      ensures open && trans == null && log == []
    {
      open, trans, log := true, null, [];
    }

    /** Sends a command for a transaction and processes the reply. */
    method Exec(t: Transaction, c: Command, e: Exchange) returns (r: Thrown)
      modifies this`open, this`log
      ensures r == Raised(Actual(old(open), e)) && open == Actual(old(open), e).open
      ensures log == old(log) + Recorded(old(open), e, Entry(t, c, t.status, t.focus == null, old(open)))
    {
      var actual := Actual(open, e);
      if actual.sent {
        log := log + [Entry(t, c, t.status, t.focus == null, open)];
      }
      open := actual.open;
      r := Raised(actual);
    }

    method RegisterTransaction(t: Transaction) returns (r: Thrown)
      modifies this`trans
      ensures r == if old(trans) == null then Nothing else UsageError
      ensures trans == if old(trans) == null then t else old(trans)
    {
      if trans != null {
        return UsageError;
      }
      trans := t;
      return Nothing;
    }

    method UnregisterTransaction(t: Transaction)
      modifies this`trans
      ensures trans == null
    {
      trans := null;
    }
  }

  /** Something that occupies a transaction: a stream, a pipeline, a command. */
  class Focus {
    const trans: Transaction
    var registered: bool

    constructor (trans: Transaction)
      ensures this.trans == trans && !registered
    {
      this.trans, registered := trans, false;
    }

    method RegisterMe() returns (r: Thrown)
      requires trans.Valid() && (this in trans.guests || !registered)
      modifies this`registered, trans`focus, trans`guests
      ensures trans.Valid() && this in trans.guests && trans.guests == old(trans.guests) + {this}
      ensures r == if old(trans.focus) == null then Nothing else UsageError
      ensures trans.focus == if r == Nothing then this else old(trans.focus)
    {
      trans.guests := trans.guests + {this};
      r := trans.RegisterFocus(this);
      if r == Nothing {
        registered := true;
      }
    }

    method UnregisterMe()
      requires trans.Valid() && (this in trans.guests || !registered)
      modifies this`registered, trans`focus
      ensures trans.Valid() && !registered
      ensures trans.focus == if old(trans.focus) == this then null else old(trans.focus)
    {
      trans.UnregisterFocus(this);
      registered := false;
    }
  }

  /** The commands that end a transaction. */
  predicate Ending(c: Command) {
    c == CommitCommand || c == RollbackCommand
  }

  /** The transaction has been ended at most once. */
  ghost predicate EndedOnce(log: seq<Command>) {
    forall i, j :: 0 <= i < j < |log| && Ending(log[i]) ==> !Ending(log[j])
  }

  /** What a status says about the commands that were sent, and about the server having committed. */
  ghost predicate Truthful(status: Status, log: seq<Command>, committed: bool, orderly: bool) {
    && EndedOnce(log)
    && (status == Active ==> CommitCommand !in log && RollbackCommand !in log)
    && (status == Committed ==> committed)
    && (status == InDoubt ==> RollbackCommand !in log)
    && (status == Aborted && orderly ==> !committed)
    && (committed ==> CommitCommand in log)
  }

  /** The commands that a transaction sent. */
  ghost function Own(log: seq<Entry>, t: Transaction): seq<Command> {
    if log == [] then []
    else
      var n := |log| - 1;
      Own(log[..n], t) + if log[n].owner == t then [log[n].command] else []
  }

  lemma OwnMore(log: seq<Entry>, t: Transaction, e: Entry)
    ensures Own(log + [e], t) == Own(log, t) + if e.owner == t then [e.command] else []
  {
    assert (log + [e])[..|log|] == log;
  }

  /** How commands are sent: on an open connection; to end a transaction only while it is active, and to
    * commit only if nothing holds its focus; and a query always holds the focus itself. */
  predicate Fair(e: Entry) {
    && e.open
    && (Ending(e.command) ==> e.status == Active)
    && (e.command == CommitCommand ==> e.free)
    && (e.command == Query ==> !e.free)
  }

  ghost predicate AllFair(log: seq<Entry>, t: Transaction) {
    forall k :: 0 <= k < |log| && log[k].owner == t ==> Fair(log[k])
  }

  lemma {:induction false} NoneOwn(log: seq<Entry>, t: Transaction)
    requires forall k :: 0 <= k < |log| ==> log[k].owner != t
    ensures Own(log, t) == [] && AllFair(log, t)
  {
    if log != [] {
      NoneOwn(log[..|log| - 1], t);
    }
  }

  /** Only this transaction has sent anything. */
  ghost predicate Adds(log: seq<Entry>, log': seq<Entry>, t: Transaction) {
    log <= log' && forall k :: |log| <= k < |log'| ==> log'[k].owner == t
  }

  /** What reaches the server. */
  function Sent(open: bool, e: Exchange, c: Command): seq<Command> {
    if Actual(open, e).sent then [c] else []
  }

  /** What is in the log after an exchange. */
  function Recorded(open: bool, e: Exchange, entry: Entry): seq<Entry> {
    if Actual(open, e).sent then [entry] else []
  }

  lemma OwnSent(log: seq<Entry>, t: Transaction, open: bool, e: Exchange, entry: Entry)
    requires entry.owner == t
    ensures Own(log + Recorded(open, e, entry), t) == Own(log, t) + Sent(open, e, entry.command)
    ensures AllFair(log, t) && (Actual(open, e).sent ==> Fair(entry)) ==> AllFair(log + Recorded(open, e, entry), t)
    ensures Adds(log, log + Recorded(open, e, entry), t)
  {
    hide Own;
    OwnMore(log, t, entry);
    assert log + [] == log;
  }

  lemma AddsTrans(log: seq<Entry>, log': seq<Entry>, log'': seq<Entry>, t: Transaction)
    requires Adds(log, log', t) && Adds(log', log'', t)
    ensures Adds(log, log'', t)
  {
  }

  lemma AddsNothing(log: seq<Entry>, t: Transaction)
    ensures Adds(log, log, t)
  {
  }

  /** Sending a command that ends the transaction, for the first time. */
  lemma Ended(log: seq<Command>, c: Command)
    requires CommitCommand !in log && RollbackCommand !in log
    ensures EndedOnce(log + [c]) && EndedOnce(log) && log + [] == log
    ensures CommitCommand in log + [c] <==> c == CommitCommand
    ensures RollbackCommand in log + [c] <==> c == RollbackCommand
  {
    assert forall i :: 0 <= i < |log| ==> log[i] in log;
    assert (log + [c])[|log|] == c;
  }

  /** Sending any other command leaves it true. */
  lemma StillTruthful(status: Status, log: seq<Command>, committed: bool, orderly: bool, c: Command)
    requires Truthful(status, log, committed, orderly) && !Ending(c)
    ensures Truthful(status, log + [c], committed, orderly) && log + [] == log
  {
  }

  /** What can be seen of a transaction. */
  datatype View = View(status: Status, focus: Focus?, pending: bool, registered: bool, open: bool,
                       trans: Transaction?, log: seq<Command>, committed: bool)
  {
    /** No longer registered with the connection. */
    function Gone(): View {
      this.(registered := false, trans := if registered then null else trans)
    }
  }

  /** After an exchange with the server. */
  function Exchanged(v: View, e: Exchange, c: Command): View {
    v.(log := v.log + Sent(v.open, e, c), open := Actual(v.open, e).open)
  }

  /** Beginning, if the connection has no other transaction. */
  function Starting(v: View, t: Transaction, e: Exchange): (View, Thrown) {
    if v.trans != null then (v, UsageError)
    else
      var w := v.(registered := true, trans := t, pending := false);
      if v.pending then (w, Failure) else (Exchanged(w, e, BeginCommand), Raised(Actual(v.open, e)))
  }

  function Committing(v: View, e: Exchange): (View, Thrown) {
    if v.pending then (v.(pending := false), Failure)
    else
      match v.status
      case Aborted => (v, UsageError)
      case Committed => (v, Nothing)
      case InDoubt => (v, InDoubtError)
      case Active =>
        if v.focus != null then (v, Failure)
        else if !v.open then (v, BrokenConnection)
        else
          var w := Exchanged(v, e, CommitCommand).(committed := e.executed);
          if e.reply == Accepted && e.drained then (w.(status := Committed).Gone(), Nothing)
          else if e.reply == Uncertain || !e.open then (w.(status := InDoubt), InDoubtError)
          else (w.(status := Aborted), Raised(e))
  }

  function Aborting(v: View, e: Exchange): (View, Thrown) {
    match v.status
    case Active =>
      var w := if v.pending then v else Exchanged(v, e, RollbackCommand);
      (w.(status := Aborted, pending := false).Gone(), Nothing)
    case Aborted => (v, Nothing)
    case Committed => (v, UsageError)
    case InDoubt => (v, Nothing)
  }

  function Closing(v: View, e: Exchange): View {
    var w := v.(pending := false).Gone();
    if v.status == Active then Aborting(w, e).0 else w
  }

  function Executing(v: View, e: Exchange): (View, Thrown) {
    if v.pending then (v.(pending := false), Failure)
    else if v.focus != null || v.status != Active then (v, UsageError)
    else (Exchanged(v, e, Query), Raised(Actual(v.open, e)))
  }

  function ExecutingParams(v: View, e: Exchange): (View, Thrown) {
    if v.focus != null then (v, UsageError) else (Exchanged(v, e, Query), Raised(Actual(v.open, e)))
  }

  class Transaction {
    const conn: Connection
    var status: Status
    var focus: Focus?
    var registered: bool
    var pendingError: bool

    // The server has carried out the commit.
    ghost var committed: bool
    // The reply to the commit was not lost on a connection that stayed open.
    ghost var orderly: bool
    // All that ever were registered as the focus.
    ghost var guests: set<Focus>

    /** The commands that were sent for this transaction. */
    ghost function Log(): seq<Command>
      reads conn`log
    {
      Own(conn.log, this)
    }

    ghost function Seen(): View
      reads this, conn`open, conn`log, conn`trans
    {
      View(status, focus, pendingError, registered, conn.open, conn.trans, Log(), committed)
    }

    /** At most one of the guests, the focus, is registered.  Whatever was sent was sent fairly, and the
      * status tells the truth about it. */
    ghost predicate Valid()
      reads this, conn`trans, conn`log, guests
    {
      && (forall f :: f in guests ==> f.trans == this && (f.registered <==> f == focus))
      && (focus != null ==> focus in guests)
      && (registered ==> conn.trans == this)
      && AllFair(conn.log, this)
      && Truthful(status, Log(), committed, orderly)
    }

    constructor (conn: Connection)
      ensures this.conn == conn && status == Active && focus == null && !registered && !pendingError
      ensures Log() == [] && !committed && orderly && guests == {} && Valid()
    {
      this.conn, status, focus, registered, pendingError := conn, Active, null, false, false;
      committed, orderly, guests := false, true, {};
      new;
      NoneOwn(conn.log, this);
    }

    /** Registers with the connection, and begins. */
    method Start(e: Exchange) returns (r: Thrown)
      requires Valid() && status == Active && !registered
      modifies this`registered, this`pendingError, conn
      ensures Adds(old(conn.log), conn.log, this)
      ensures Valid() && registered == (old(conn.trans) == null)
      ensures (Seen(), r) == Starting(old(Seen()), this, e)
      ensures conn.log == old(conn.log)
                          + if old(conn.trans != null || pendingError) then []
                            else Recorded(old(conn.open), e, Entry(this, BeginCommand, Active, focus == null, true))
      ensures r == if !registered then UsageError
                   else if old(pendingError) then Failure else Raised(Actual(old(conn.open), e))
    {
      hide Own, AllFair, Truthful;
      r := conn.RegisterTransaction(this);
      if r != Nothing {
        return;
      }
      registered := true;
      StillTruthful(status, Log(), committed, orderly, BeginCommand);
      r := DirectExec(BeginCommand, e);
    }

    method RegisterFocus(newFocus: Focus) returns (r: Thrown)
      modifies this`focus
      ensures r == if old(focus) == null then Nothing else UsageError
      ensures focus == if old(focus) == null then newFocus else old(focus)
    {
      if focus != null {
        return UsageError;
      }
      focus := newFocus;
      return Nothing;
    }

    /** Does not mind if something else, or nothing, is the focus. */
    method UnregisterFocus(oldFocus: Focus)
      modifies this`focus
      ensures focus == if old(focus) == oldFocus then null else old(focus)
    {
      if focus == oldFocus {
        focus := null;
      }
    }

    /** Only the first error is kept. */
    method RegisterPendingError(nonempty: bool)
      modifies this`pendingError
      ensures pendingError == (old(pendingError) || nonempty)
    {
      if !pendingError && nonempty {
        pendingError := true;
      }
    }

    /** A pending error is thrown once. */
    method CheckPendingError() returns (r: Thrown)
      modifies this`pendingError
      ensures !pendingError && r == if old(pendingError) then Failure else Nothing
    {
      if pendingError {
        pendingError := false;
        return Failure;
      }
      return Nothing;
    }

    /** Sends a command, unless an error is pending. */
    method DirectExec(c: Command, e: Exchange) returns (r: Thrown)
      modifies this`pendingError, conn`open, conn`log
      ensures !pendingError
      ensures r == if old(pendingError) then Failure else Raised(Actual(old(conn.open), e))
      ensures Log() == old(Log()) + if old(pendingError) then [] else Sent(old(conn.open), e, c)
      ensures conn.log == old(conn.log) + if old(pendingError) then []
                                          else Recorded(old(conn.open), e, Entry(this, c, status, focus == null, true))
      ensures AllFair(old(conn.log), this) && Fair(Entry(this, c, status, focus == null, true)) ==>
                AllFair(conn.log, this)
      ensures Adds(old(conn.log), conn.log, this)
      ensures conn.open == if old(pendingError) then old(conn.open) else Actual(old(conn.open), e).open
    {
      hide Own, AllFair;
      r := CheckPendingError();
      if r != Nothing {
        return;
      }
      OwnSent(conn.log, this, conn.open, e, Entry(this, c, status, focus == null, conn.open));
      r := conn.Exec(this, c, e);
    }

    /** Commits, and tells a refusal from an unknown outcome. */
    method DoCommit(e: Exchange) returns (r: Thrown)
      requires !pendingError && conn.open
      modifies this`pendingError, conn`open, conn`log
      ensures !pendingError && Log() == old(Log()) + Sent(true, e, CommitCommand) && conn.open == e.open
      ensures AllFair(old(conn.log), this) && focus == null && status == Active ==> AllFair(conn.log, this)
      ensures Adds(old(conn.log), conn.log, this)
      ensures r == Nothing <==> e.reply == Accepted && e.drained
      ensures r == InDoubtError <==> e.reply == Uncertain || (!e.open && !(e.reply == Accepted && e.drained))
      ensures r != Nothing && r != InDoubtError ==> r == Raised(e)
    {
      hide Own, AllFair;
      r := DirectExec(CommitCommand, e);
      match r {
        case Nothing =>
        case CompletionUnknown =>
          return InDoubtError;
        case _ =>
          if !conn.open {
            return InDoubtError;
          }
      }
    }

    /** Commits, if the transaction is active, nothing holds the focus and the connection is open.  The
      * status then says what is known: committed only if the server acknowledged it, aborted only if
      * it failed on a connection that stayed open, and in doubt otherwise.  The server may have
      * committed an aborted transaction exactly if it carried out the commit and the reply was lost
      * although the connection stayed open.  A commit that fails leaves the transaction registered. */
    method Commit(e: Exchange) returns (r: Thrown)
      requires Valid()
      modifies this`status, this`registered, this`pendingError, this`committed, this`orderly, conn
      ensures Adds(old(conn.log), conn.log, this)
      ensures (Seen(), r) == Committing(old(Seen()), e)
      ensures Valid() && !pendingError
      ensures var attempted := old(!pendingError && status == Active && focus == null && conn.open);
              if attempted then
                && Log() == old(Log()) + (if e.sent then [CommitCommand] else []) && committed == e.executed
                && conn.open == e.open
                && r == (if status == Committed then Nothing else if status == InDoubt then InDoubtError else Raised(e))
                && (status == Committed <==> e.reply == Accepted && e.drained)
                && (status == InDoubt <==> e.reply == Uncertain || (!e.open && !(e.reply == Accepted && e.drained)))
                && status != Active
                && (status == Aborted && committed <==> e.executed && !Orderly(e))
                && registered == (old(registered) && status != Committed)
              else
                && status == old(status) && Log() == old(Log()) && committed == old(committed)
                && conn.open == old(conn.open) && registered == old(registered)
      ensures old(pendingError) ==> r == Failure
      ensures old(!pendingError && status == Aborted) ==> r == UsageError
      ensures old(!pendingError && status == Committed) ==> r == Nothing
      ensures old(!pendingError && status == InDoubt) ==> r == InDoubtError
      ensures old(!pendingError && status == Active && focus != null) ==> r == Failure
      ensures old(!pendingError && status == Active && focus == null && !conn.open) ==> r == BrokenConnection
    {
      hide Own, AllFair, Truthful;
      r := CheckPendingError();
      if r != Nothing {
        return;
      }
      match status {
        case Active =>
        case Aborted => return UsageError;
        case Committed => return Nothing;
        case InDoubt => return InDoubtError;
      }
      if focus != null {
        return Failure;
      }
      if !conn.open {
        return BrokenConnection;
      }
      r := Attempt(e);
    }

    /** The commit itself. */
    method Attempt(e: Exchange) returns (r: Thrown)
      requires Valid() && !pendingError && status == Active && focus == null && conn.open
      modifies this`status, this`registered, this`pendingError, this`committed, this`orderly, conn
      ensures Adds(old(conn.log), conn.log, this)
      ensures Valid() && !pendingError
      ensures Log() == old(Log()) + Sent(true, e, CommitCommand) && committed == e.executed && conn.open == e.open
      ensures (status, r) == if e.reply == Accepted && e.drained then (Committed, Nothing)
                             else if e.reply == Uncertain || !e.open then (InDoubt, InDoubtError)
                             else (Aborted, Raised(e))
      ensures registered == (old(registered) && status != Committed)
      ensures conn.trans == if old(registered) && status == Committed then null else old(conn.trans)
    {
      hide Own, AllFair, EndedOnce;
      Ended(Log(), CommitCommand);
      committed, orderly := e.executed, Orderly(e);
      r := DoCommit(e);
      if r == InDoubtError {
        status := InDoubt;
        return;
      }
      if r != Nothing {
        status := Aborted;
        return;
      }
      status := Committed;
      Close(e);
    }

    /** Aborts.  A transaction that was active is then aborted and closed, whatever came of the command;
      * which is not even sent if an error is pending. */
    method Abort(e: Exchange) returns (r: Thrown)
      requires Valid()
      modifies this`status, this`registered, this`pendingError, conn
      ensures Adds(old(conn.log), conn.log, this)
      ensures (Seen(), r) == Aborting(old(Seen()), e)
      ensures Valid()
      ensures old(status) == Active ==>
                && status == Aborted && !registered && !pendingError && r == Nothing
                && Log() == old(Log()) + if old(pendingError) then [] else Sent(old(conn.open), e, RollbackCommand)
      ensures old(status) != Active ==>
                && status == old(status) && Log() == old(Log()) && registered == old(registered)
                && r == if status == Committed then UsageError else Nothing
      ensures conn.open ==> old(conn.open)
      decreases if status == Active then 2 else 1
    {
      hide Own, AllFair, EndedOnce;
      match status {
        case Active =>
          Ended(Log(), RollbackCommand);
          var ignored := DirectExec(RollbackCommand, e);
        case Aborted =>
          return Nothing;
        case Committed =>
          return UsageError;
        case InDoubt =>
          return Nothing;
      }
      status := Aborted;
      Close(e);
      return Nothing;
    }

    /** Closes, and first aborts a transaction that is active. */
    method Close(e: Exchange)
      requires Valid()
      modifies this`status, this`registered, this`pendingError, conn
      ensures Adds(old(conn.log), conn.log, this)
      ensures Seen() == Closing(old(Seen()), e)
      ensures Valid() && !registered && !pendingError && status != Active
      ensures old(status) == Active ==>
                status == Aborted && Log() == old(Log()) + Sent(old(conn.open), e, RollbackCommand)
      ensures old(status) != Active ==> status == old(status) && Log() == old(Log()) && conn.open == old(conn.open)
      ensures conn.open ==> old(conn.open)
      decreases if status == Active then 3 else 0
    {
      hide Own, AllFair, EndedOnce, Truthful;
      var ignored := CheckPendingError();
      if registered {
        registered := false;
        conn.UnregisterTransaction(this);
      }
      if status != Active {
        return;
      }
      ignored := Abort(e);
    }

    /** Executes a query, as the focus of the transaction while it lasts. */
    method Exec(e: Exchange) returns (r: Thrown)
      requires Valid()
      modifies this`pendingError, this`focus, this`guests, conn`open, conn`log
      ensures Adds(old(conn.log), conn.log, this)
      ensures (Seen(), r) == Executing(old(Seen()), e)
      ensures Valid() && !pendingError && focus == old(focus)
      ensures old(guests) <= guests && fresh(guests - old(guests))
      ensures var allowed := old(!pendingError && focus == null && status == Active);
              if allowed then
                r == Raised(Actual(old(conn.open), e)) && Log() == old(Log()) + Sent(old(conn.open), e, Query)
              else
                && r == (if old(pendingError) then Failure else UsageError)
                && Log() == old(Log()) && conn.open == old(conn.open)
      ensures conn.open ==> old(conn.open)
      ensures old(!pendingError && focus == null && status == Active && conn.open) && e.reply == Rejected ==>
                r == SqlError
    {
      hide Own, AllFair, Truthful;
      r := CheckPendingError();
      if r != Nothing {
        return;
      }
      var cmd := new Focus(this);
      r := cmd.RegisterMe();
      if r != Nothing {
        return;
      }
      if status != Active {
        r := UsageError;
      } else {
        StillTruthful(status, Log(), committed, orderly, Query);
        r := DirectExec(Query, e);
      }
      cmd.UnregisterMe();
    }

    /** Executes a query with parameters, or a prepared one.  Here nothing checks that the transaction is
      * still active, or that no error is pending. */
    method ExecParams(e: Exchange) returns (r: Thrown)
      requires Valid()
      modifies this`focus, this`guests, conn`open, conn`log
      ensures Adds(old(conn.log), conn.log, this)
      ensures (Seen(), r) == ExecutingParams(old(Seen()), e)
      ensures Valid() && focus == old(focus)
      ensures old(guests) <= guests && fresh(guests - old(guests))
      ensures if old(focus) == null then
                r == Raised(Actual(old(conn.open), e)) && Log() == old(Log()) + Sent(old(conn.open), e, Query)
              else
                r == UsageError && Log() == old(Log()) && conn.open == old(conn.open)
      ensures conn.open ==> old(conn.open)
    {
      hide Own, AllFair, Truthful;
      var cmd := new Focus(this);
      r := cmd.RegisterMe();
      if r != Nothing {
        return;
      }
      StillTruthful(status, Log(), committed, orderly, Query);
      OwnSent(conn.log, this, conn.open, e, Entry(this, Query, status, focus == null, conn.open));
      r := conn.Exec(this, Query, e);
      cmd.UnregisterMe();
    }
  }

  datatype Op =
    | DoCommit(e: Exchange) | DoAbort(e: Exchange) | DoClose(e: Exchange)
    | DoExec(e: Exchange) | DoExecParams(e: Exchange)
    | Occupy(who: nat) | Release(who: nat) | Report | Disconnect

  /** These belong to the transaction, and are not registered without it knowing. */
  ghost predicate Known(t: Transaction, foci: seq<Focus>)
    reads t`guests, foci
  {
    forall f :: f in foci ==> f.trans == t && (f in t.guests || !f.registered)
  }

  /** What an operation makes of what can be seen, and what it throws. */
  function Next(v: View, foci: seq<Focus>, op: Op): (View, Thrown) {
    match op
    case DoCommit(e) => Committing(v, e)
    case DoAbort(e) => Aborting(v, e)
    case DoClose(e) => (Closing(v, e), Nothing)
    case DoExec(e) => Executing(v, e)
    case DoExecParams(e) => ExecutingParams(v, e)
    case Occupy(who) =>
      if who >= |foci| then (v, Nothing)
      else if v.focus == null then (v.(focus := foci[who]), Nothing)
      else (v, UsageError)
    case Release(who) => (if who < |foci| && v.focus == foci[who] then v.(focus := null) else v, Nothing)
    case Report => (v.(pending := true), Nothing)
    case Disconnect => (v.(open := false), Nothing)
  }

  /** What all operations make of it, one after the other. */
  function After(v: View, foci: seq<Focus>, ops: seq<Op>): (View, seq<Thrown>) {
    if ops == [] then (v, [])
    else
      var n := |ops| - 1;
      var (w, thrown) := After(v, foci, ops[..n]);
      var (u, r) := Next(w, foci, ops[n]);
      (u, thrown + [r])
  }

  /** A status other than active is never left, and nothing but queries is sent then. */
  lemma {:induction false} ClosedStays(v: View, foci: seq<Focus>, ops: seq<Op>)
    requires v.status != Active
    ensures var w := After(v, foci, ops).0;
            && w.status == v.status && w.committed == v.committed && v.log <= w.log
            && forall k :: |v.log| <= k < |w.log| ==> w.log[k] == Query
  {
    hide Next;
    if ops != [] {
      var n := |ops| - 1;
      ClosedStays(v, foci, ops[..n]);
      ClosedNext(After(v, foci, ops[..n]).0, foci, ops[n]);
    }
  }

  lemma ClosedNext(v: View, foci: seq<Focus>, op: Op)
    requires v.status != Active
    ensures var w := Next(v, foci, op).0;
            w.status == v.status && w.committed == v.committed && (w.log == v.log || w.log == v.log + [Query])
  {
  }

  /** What was acknowledged is never taken back: however a transaction goes on after a commit that
    * returned normally, it remains committed. */
  lemma CommittedForGood(v: View, foci: seq<Focus>, e: Exchange, ops: seq<Op>)
    requires v.status == Active && Committing(v, e).1 == Nothing
    ensures var w := After(Committing(v, e).0, foci, ops).0;
            w.status == Committed && w.committed && v.log <= w.log && RollbackCommand !in w.log[|v.log|..]
  {
    var u := Committing(v, e).0;
    ClosedStays(u, foci, ops);
    var w := After(u, foci, ops).0;
    assert u.log == v.log + [CommitCommand];
    forall k | |v.log| <= k < |w.log| ensures w.log[k] != RollbackCommand {
      assert k == |v.log| ==> w.log[k] == u.log[k] == CommitCommand;
    }
  }

  /** One step of a run: an operation on the transaction, a focus coming, going or reporting an error, or
    * the connection breaking. */
  method Step(t: Transaction, foci: seq<Focus>, op: Op) returns (r: Thrown)
    requires t.Valid() && Known(t, foci)
    modifies t, t.conn, foci
    ensures t.Valid() && Known(t, foci)
    ensures (t.Seen(), r) == Next(old(t.Seen()), foci, op)
    ensures Adds(old(t.conn.log), t.conn.log, t) && old(t.guests) <= t.guests
    ensures forall f :: f in t.guests ==> f in old(t.guests) || f in foci || fresh(f)
  {
    hide Committing, Aborting, Closing, Executing, ExecutingParams, Own, AllFair, Truthful;
    r := Nothing;
    match op {
      case DoCommit(e) =>
        r := t.Commit(e);
      case DoAbort(e) =>
        r := t.Abort(e);
      case DoClose(e) =>
        t.Close(e);
      case DoExec(e) =>
        r := t.Exec(e);
      case DoExecParams(e) =>
        r := t.ExecParams(e);
      case Occupy(who) =>
        if who < |foci| {
          r := foci[who].RegisterMe();
        }
      case Release(who) =>
        if who < |foci| {
          foci[who].UnregisterMe();
        }
      case Report =>
        t.RegisterPendingError(true);
      case Disconnect =>
        t.conn.open := false;
    }
  }

  /** Over every run: what can be seen is what the operations make of it, one after the other.  A status
    * other than active is never left, a status never lies, and everything that was sent meanwhile was
    * sent by this transaction, and fairly: a commit only while it was active with nothing in focus, on an
    * open connection.  At most one command ended it. */
  method Run(t: Transaction, foci: seq<Focus>, ops: seq<Op>) returns (thrown: seq<Thrown>)
    requires t.Valid() && Known(t, foci)
    modifies t, t.conn, foci
    ensures t.Valid() && Known(t, foci)
    ensures (t.Seen(), thrown) == After(old(t.Seen()), foci, ops)
    ensures old(t.status) != Active ==> t.status == old(t.status) && t.committed == old(t.committed)
    ensures old(t.conn.log) <= t.conn.log && EndedOnce(t.Log())
    ensures forall k :: |old(t.conn.log)| <= k < |t.conn.log| ==> t.conn.log[k].owner == t && Fair(t.conn.log[k])
  {
    hide Next;
    var i := 0;
    thrown := [];
    while i < |ops|
      invariant i <= |ops| && t.Valid() && Known(t, foci)
      invariant (t.Seen(), thrown) == After(old(t.Seen()), foci, ops[..i])
      invariant Adds(old(t.conn.log), t.conn.log, t)
    {
      assert ops[..i + 1][..i] == ops[..i];
      var r := Step(t, foci, ops[i]);
      thrown := thrown + [r];
      i := i + 1;
    }
    assert ops[..i] == ops;
    if old(t.status) != Active {
      ClosedStays(old(t.Seen()), foci, ops);
    }
  }

  /** No operation begins a transaction. */
  lemma {:induction false} NeverBegins(v: View, foci: seq<Focus>, ops: seq<Op>)
    ensures var w := After(v, foci, ops).0;
            v.log <= w.log && forall k :: |v.log| <= k < |w.log| ==> w.log[k] != BeginCommand
  {
    hide Next;
    if ops != [] {
      var n := |ops| - 1;
      NeverBegins(v, foci, ops[..n]);
      NextCommand(After(v, foci, ops[..n]).0, foci, ops[n]);
    }
  }

  lemma NextCommand(v: View, foci: seq<Focus>, op: Op)
    ensures var w := Next(v, foci, op).0;
            || w.log == v.log
            || w.log == v.log + [Query] || w.log == v.log + [CommitCommand] || w.log == v.log + [RollbackCommand]
  {
    hide Committing, Aborting, Closing, Executing, ExecutingParams;
    if op.DoCommit? {
      CommittingLog(v, op.e);
    } else if op.DoAbort? || op.DoClose? {
      AbortingLog(v, op.e);
    } else if op.DoExec? || op.DoExecParams? {
      ExecutingLog(v, op.e);
    }
  }

  lemma CommittingLog(v: View, e: Exchange)
    ensures Committing(v, e).0.log == v.log || Committing(v, e).0.log == v.log + [CommitCommand]
  {
  }

  lemma AbortingLog(v: View, e: Exchange)
    ensures Aborting(v, e).0.log == v.log || Aborting(v, e).0.log == v.log + [RollbackCommand]
    ensures Closing(v, e).log == v.log || Closing(v, e).log == v.log + [RollbackCommand]
  {
  }

  lemma ExecutingLog(v: View, e: Exchange)
    ensures Executing(v, e).0.log == v.log || Executing(v, e).0.log == v.log + [Query]
    ensures ExecutingParams(v, e).0.log == v.log || ExecutingParams(v, e).0.log == v.log + [Query]
  {
  }

  /** A new transaction begins normally only by sending the command for it. */
  lemma StartSends(v: View, t: Transaction, e: Exchange)
    requires v.log == []
    ensures var (w, r) := Starting(v, t, e);
            && (r == Nothing <==> v.trans == null && !v.pending && Raised(Actual(v.open, e)) == Nothing)
            && (r == Nothing ==> w.log == [BeginCommand])
            && (w.log == [] || w.log == [BeginCommand])
  {
  }

  method MakeFoci(t: Transaction, n: nat) returns (foci: seq<Focus>)
    requires t.Valid()
    ensures fresh(foci) && Known(t, foci) && |foci| == n
  {
    foci := [];
    for i := 0 to n
      invariant fresh(foci) && Known(t, foci) && |foci| == i
    {
      var f := new Focus(t);
      foci := foci + [f];
    }
  }

  /** A transaction as it is before it begins. */
  function Unbegun(open: bool, trans: Transaction?): View {
    View(Active, null, false, false, open, trans, [], false)
  }

  /** A whole transaction: it begins, and then any operations come.  If it has begun, then the first command
    * that it sent is the one that begins it, and it sends no other of that kind. */
  method Whole(conn: Connection, e: Exchange, n: nat, ops: seq<Op>)
    returns (r: Thrown, t: Transaction, foci: seq<Focus>, thrown: seq<Thrown>)
    modifies conn
    ensures fresh(t) && fresh(foci) && t.conn == conn && t.Valid()
    ensures r == Nothing <==> old(conn.trans) == null && Raised(Actual(old(conn.open), e)) == Nothing
    ensures var (v, begun) := Starting(Unbegun(old(conn.open), old(conn.trans)), t, e);
            && r == begun
            && if r == Nothing then |foci| == n && (t.Seen(), thrown) == After(v, foci, ops) else t.Seen() == v
    ensures r != Nothing ==> RollbackCommand !in t.Log() && CommitCommand !in t.Log() && |t.Log()| <= 1
    ensures r == Nothing ==>
              && t.Log() != [] && t.Log()[0] == BeginCommand
              && forall k :: 0 < k < |t.Log()| ==> t.Log()[k] != BeginCommand
  {
    hide Own, AllFair, Truthful, EndedOnce, Next, After, Starting;
    foci, thrown := [], [];
    t := new Transaction(conn);
    ghost var v := t.Seen();
    r := t.Start(e);
    StartSends(v, t, e);
    if r == Nothing {
      foci := MakeFoci(t, n);
      ghost var w := t.Seen();
      thrown := Run(t, foci, ops);
      NeverBegins(w, foci, ops);
    }
  }
}

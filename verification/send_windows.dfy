/**
 * The send windows of a server connection under WINDOW_UPDATE, DATA, and changes of the
 * initial window size (section 6.9.2 of RFC 7540).
 */
module SendWindows {
  import opened Flow
  import opened Ints

  const INITIAL_CONN_WINDOW: int := 65535

  datatype Result = Done | StreamError | ConnectionError

  // What a stream's window was credited with by the peer, and the DATA sent on it.
  datatype Account = Account(granted: int, sent: int)

  // What a window ought to be.
  function Balance(initial: int, a: Account): int {
    initial + a.granted - a.sent
  }

  // The window is the balance, and fits in 32 bits whatever the initial size becomes.
  ghost predicate Kept(n: int, initial: int, a: Account) {
    n == Balance(initial, a) && n <= MAX_WINDOW && a.granted - a.sent >= -MAX_WINDOW
  }

  lemma KeptInt32(n: int, initial: int, a: Account)
    requires Kept(n, initial, a) && 0 <= initial <= MAX_WINDOW
    ensures Int32(n) && -MAX_WINDOW <= n
  {
  }

  // A change of the initial size: the window can overflow, but never underflow.
  lemma ChangeFits(n: int, initial: int, a: Account, val: int)
    requires Kept(n, initial, a) && 0 <= initial <= MAX_WINDOW && 0 <= val <= MAX_WINDOW
    ensures Int32(n) && Int32(val - initial) && (Int32(n + (val - initial)) <==> Balance(val, a) <= MAX_WINDOW)
    ensures Int32(n + (val - initial)) ==> Kept(n + (val - initial), val, a)
  {
  }

  class ServerWindows {
    const conn: Outflow
    var streams: map<nat, Outflow>
    var initial: int
    ghost var connAccount: Account
    ghost var accounts: map<nat, Account>

    // The objects are as they should be, apart from their counts.
    ghost predicate Wired()
      reads this, conn, streams.Values
    {
      && conn.conn == null && Int32(conn.n) && accounts.Keys == streams.Keys
      && (forall id :: id in streams ==> streams[id] != conn && streams[id].conn == conn)
      && (forall id, id' :: id in streams && id' in streams && id != id' ==> streams[id] != streams[id'])
    }

    // Every window is its balance.
    ghost predicate Valid()
      reads this, conn, streams.Values
    {
      && Wired() && 0 <= initial <= MAX_WINDOW
      && Kept(conn.n, INITIAL_CONN_WINDOW, connAccount)
      && forall id :: id in streams ==> Kept(streams[id].n, initial, accounts[id])
    }

    constructor (initial: int)
      requires 0 <= initial <= MAX_WINDOW
      ensures Valid() && streams == map[] && conn.n == INITIAL_CONN_WINDOW
    {
      var c := new Outflow(null);
      var ok := c.Add(INITIAL_CONN_WINDOW);
      conn, streams, this.initial := c, map[], initial;
      connAccount, accounts := Account(0, 0), map[];
    }

    method NewStream(id: nat)
      requires Valid() && id !in streams
      modifies this`streams, this`accounts
      ensures Valid() && id in streams && fresh(streams[id]) && streams == old(streams)[id := streams[id]]
      ensures accounts == old(accounts)[id := Account(0, 0)] && streams[id].n == initial
    {
      var f := new Outflow(conn);
      var ok := f.Add(initial);
      streams := streams[id := f];
      accounts := accounts[id := Account(0, 0)];
    }

    method CloseStream(id: nat)
      requires Valid()
      modifies this`streams, this`accounts
      ensures Valid() && streams == old(streams) - {id} && accounts == old(accounts) - {id}
    {
      streams := streams - {id};
      accounts := accounts - {id};
    }

    // WINDOW_UPDATE on a stream; nothing happens if it is closed.
    method StreamUpdate(id: nat, inc: int) returns (r: Result)
      requires Valid() && 0 < inc <= MAX_WINDOW
      modifies this`accounts, streams.Values
      ensures Valid() && (r == StreamError <==> id in streams && Balance(initial, old(accounts[id])) + inc > MAX_WINDOW)
      ensures r == Done <==> r != StreamError
      ensures accounts == if id in streams && r == Done then
                            old(accounts)[id := Account(old(accounts)[id].granted + inc, old(accounts)[id].sent)]
                          else old(accounts)
    {
      if id !in streams {
        return Done;
      }
      KeptInt32(streams[id].n, initial, accounts[id]);
      var f := streams[id];
      var ok := f.Add(inc);
      if !ok {
        return StreamError;
      }
      accounts := accounts[id := Account(accounts[id].granted + inc, accounts[id].sent)];
      return Done;
    }

    method ConnUpdate(inc: int) returns (r: Result)
      requires Valid() && 0 < inc <= MAX_WINDOW
      modifies this`connAccount, conn`n
      ensures Valid() && (r == ConnectionError <==> Balance(INITIAL_CONN_WINDOW, old(connAccount)) + inc > MAX_WINDOW)
      ensures r == Done <==> r != ConnectionError
      ensures connAccount == if r == Done then Account(old(connAccount).granted + inc, old(connAccount).sent) else old(connAccount)
    {
      var ok := conn.Add(inc);
      if !ok {
        return ConnectionError;
      }
      connAccount := Account(connAccount.granted + inc, connAccount.sent);
      return Done;
    }

    // DATA of k bytes.
    method Send(id: nat, k: int)
      requires Valid() && id in streams && 0 <= k <= streams[id].Available()
      modifies this`accounts, this`connAccount, streams.Values, conn
      ensures Valid() && streams == old(streams)
      ensures accounts == old(accounts)[id := Account(old(accounts)[id].granted, old(accounts)[id].sent + k)]
      ensures connAccount == Account(old(connAccount).granted, old(connAccount).sent + k)
    {
      KeptInt32(streams[id].n, initial, accounts[id]);
      var f := streams[id];
      f.Take(k);
      accounts := accounts[id := Account(accounts[id].granted, accounts[id].sent + k)];
      connAccount := Account(connAccount.granted, connAccount.sent + k);
    }

    // A new initial window size changes the windows of all streams by the difference. It is an
    // error exactly if one of them would become too large; the connection does not survive that.
    method SetInitialWindowSize(val: int) returns (r: Result)
      requires Valid() && 0 <= val <= MAX_WINDOW
      modifies this`initial, streams.Values
      ensures r == Done || r == ConnectionError
      ensures r == ConnectionError <==> exists id :: id in accounts && Balance(val, accounts[id]) > MAX_WINDOW
      ensures r == Done ==> Valid() && initial == val
    {
      hide Int32, Balance;
      var was := initial;
      initial := val;
      var growth := val - was;
      var ids := streams.Keys;
      while ids != {}
        invariant ids <= streams.Keys && Wired() && initial == val && conn.n == old(conn.n)
        invariant forall id :: id in streams && id !in ids ==> Kept(streams[id].n, val, accounts[id])
        invariant forall id :: id in ids ==> Kept(streams[id].n, was, accounts[id])
        decreases ids
      {
        var id :| id in ids;
        ChangeFits(streams[id].n, was, accounts[id], val);
        var f := streams[id];
        var ok := f.Add(growth);
        if !ok {
          return ConnectionError;
        }
        ids := ids - {id};
      }
      return Done;
    }
  }
}

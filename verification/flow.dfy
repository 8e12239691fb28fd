/** Flow-control windows: what a receiver has granted, and what a sender may still use. */
module Flow {
  import opened Ints

  const MAX_WINDOW: int := 0x7fff_ffff
  const MIN_REFRESH: int := 4096

  // ---------------------------------------------------------------- receiving

  // avail is what the peer may send; unsent is credit withheld from it so far.
  datatype In = In(avail: int, unsent: int)

  predicate ValidIn(f: In) {
    0 <= f.avail && 0 <= f.unsent && f.avail + f.unsent <= MAX_WINDOW
  }

  // Whether withheld credit is still too little to be worth a frame.
  predicate Withhold(unsent: int, avail: int) {
    unsent < MIN_REFRESH && unsent < avail
  }

  // The receive window after n more bytes were consumed, and the increment to announce.
  function Refund(f: In, n: nat): (In, int) {
    var u := f.unsent + n;
    if Withhold(u, f.avail) then (In(f.avail, u), 0) else (In(f.avail + u, 0), u)
  }

  class Inflow {
    var avail: int
    var unsent: int

    function State(): In
      reads this
    {
      In(avail, unsent)
    }

    constructor (n: int)
      requires 0 <= n <= MAX_WINDOW
      ensures State() == In(n, 0)
    {
      avail, unsent := n, 0;
    }

    // The source panics on a negative n, and on a window beyond 2^31-1.
    method Add(n: int) returns (connAdd: int)
      requires ValidIn(State()) && 0 <= n && avail + unsent + n <= MAX_WINDOW
      modifies this
      ensures ValidIn(State()) && (State(), connAdd) == Refund(old(State()), n)
    {
      hide Wrap;
      var u := unsent + n;
      WrapSmall(u);
      WrapSmall(avail + u);
      unsent := Wrap(u);
      if unsent < MIN_REFRESH && unsent < avail {
        return 0;
      }
      avail := Wrap(avail + unsent);
      unsent := 0;
      return Wrap(u);
    }

    method Take(n: nat) returns (ok: bool)
      requires ValidIn(State()) && n < 0x1_0000_0000
      modifies this
      ensures ok <==> n <= old(avail)
      ensures State() == if ok then In(old(avail) - n, old(unsent)) else old(State())
    {
      hide Wrap;
      if n > Uint32(avail) {
        return false;
      }
      WrapSmall(n);
      WrapSmall(avail - n);
      avail := Wrap(avail - Wrap(n));
      return true;
    }
  }

  // Both windows or neither.
  method TakeInflows(f1: Inflow, f2: Inflow, n: nat) returns (ok: bool)
    requires f1 != f2 && ValidIn(f1.State()) && ValidIn(f2.State()) && n < 0x1_0000_0000
    modifies f1, f2
    ensures ok <==> n <= old(f1.avail) && n <= old(f2.avail)
    ensures f1.State() == if ok then In(old(f1.avail) - n, old(f1.unsent)) else old(f1.State())
    ensures f2.State() == if ok then In(old(f2.avail) - n, old(f2.unsent)) else old(f2.State())
  {
    hide Wrap;
    if n > Uint32(f1.avail) || n > Uint32(f2.avail) {
      return false;
    }
    WrapSmall(n);
    WrapSmall(f1.avail - n);
    WrapSmall(f2.avail - n);
    f1.avail := Wrap(f1.avail - Wrap(n));
    f2.avail := Wrap(f2.avail - Wrap(n));
    return true;
  }

  // Credit is never lost: what is refunded is either announced or withheld; and it is withheld
  // exactly while it is little and the peer has strictly more than that left to send.
  lemma RefundConserves(f: In, n: nat)
    requires ValidIn(f)
    ensures var (f', inc) := Refund(f, n);
            && f'.avail == f.avail + inc
            && f'.avail + f'.unsent == f.avail + f.unsent + n
            && 0 <= inc && 0 <= f'.unsent
            && (f'.unsent == 0 || (f'.unsent < MIN_REFRESH && f'.unsent < f'.avail))
            && (inc > 0 <==> f.unsent + n >= MIN_REFRESH || (f.unsent + n > 0 && f.unsent + n >= f.avail))
  {
  }

  // ---------------------------------------------------------------- sending

  // outflow.add: the 32-bit sum, accepted by comparing signs.
  function Grow(n: int, d: int): (int, bool)
    requires Int32(n) && Int32(d)
  {
    var sum := Wrap(n + d);
    if (sum > d) == (n > 0) then (sum, true) else (n, false)
  }

  // It succeeds exactly if the true sum fits in 32 bits, and then it is the true sum.
  lemma GrowExact(n: int, d: int)
    requires Int32(n) && Int32(d)
    ensures Grow(n, d) == if Int32(n + d) then (n + d, true) else (n, false)
  {
    if n + d > MAX_WINDOW {
      assert Wrap(n + d) == n + d - 0x1_0000_0000;
    } else if n + d < -0x8000_0000 {
      assert Wrap(n + d) == n + d + 0x1_0000_0000;
    } else {
      assert Wrap(n + d) == n + d;
    }
  }

  class Outflow {
    var n: int
    // The window of the connection, shared by its streams; null for that window itself.
    var conn: Outflow?

    ghost predicate Valid()
      reads this, conn
    {
      && Int32(n)
      && (conn != null ==> conn != this && Int32(conn.n) && conn.conn == null)
    }

    constructor (conn: Outflow?)
      requires conn != null ==> Int32(conn.n) && conn.conn == null
      ensures n == 0 && this.conn == conn && Valid()
    {
      n, this.conn := 0, conn;
    }

    function Available(): (a: int)
      reads this, conn
      ensures a <= n && (conn != null ==> a <= conn.n)
      ensures a == n || (conn != null && a == conn.n)
    {
      if conn != null && conn.n < n then conn.n else n
    }

    // The source panics if more than available is taken.
    method Take(k: int)
      requires Valid() && 0 <= k <= Available()
      modifies this`n, if conn == null then {} else {conn}
      ensures Valid() && n == old(n) - k
      ensures conn == old(conn) && (conn != null ==> conn.n == old(conn.n) - k && conn.conn == null)
    {
      n := n - k;
      if conn != null {
        conn.n := conn.n - k;
      }
    }

    method Add(d: int) returns (ok: bool)
      requires Valid() && Int32(d)
      modifies this`n
      ensures Valid() && ok == Int32(old(n) + d) && n == if ok then old(n) + d else old(n)
    {
      GrowExact(n, d);
      var sum := Wrap(n + d);
      if (sum > d) == (n > 0) {
        n := sum;
        return true;
      }
      return false;
    }

    // One turn of awaitFlowControl: take what may be sent of maxBytes, if anything may.
    method TakeSome(maxBytes: int, maxFrameSize: int) returns (taken: int)
      requires Valid() && 0 < maxBytes && 0 < maxFrameSize
      modifies this`n, if conn == null then {} else {conn}
      ensures Valid() && conn == old(conn)
      ensures old(Available()) <= 0 ==> taken == 0
      ensures old(Available()) > 0 ==>
                && 0 < taken <= old(Available()) && taken <= maxBytes && taken <= maxFrameSize
                && (taken == old(Available()) || taken == maxBytes || taken == maxFrameSize)
      ensures n == old(n) - taken && (conn != null ==> conn.n == old(conn.n) - taken)
    {
      taken := 0;
      var a := Available();
      if a > 0 {
        taken := a;
        if taken > maxBytes {
          taken := maxBytes;
        }
        if taken > maxFrameSize {
          taken := maxFrameSize;
        }
        Take(taken);
      }
    }
  }
}

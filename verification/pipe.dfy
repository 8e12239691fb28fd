/**
 * The pipe between the connection, which writes the body of a stream, and the handler, which
 * reads it. It may be closed, which lets the reader finish first, or broken, which does not.
 */
module Pipes {
  import opened Options
  import opened Bits
  import opened WriteQueues
  import opened DataBuffers

  // Errors and hooks are known by number. unread counts the bytes dropped when the pipe broke.
  datatype State = State(buf: Option<Bytes>, unread: nat, err: Option<nat>, breakErr: Option<nat>, readFn: Option<nat>)

  // A read that would have to wait is Blocked. A hook may run before an error is returned.
  datatype ReadResult = Got(data: Bytes) | Failed(err: nat, hook: Option<nat>) | Blocked

  predicate Closed(s: State) {
    s.err.Some? || s.breakErr.Some?
  }

  const NEW_PIPE: State := State(None, 0, None, None, None)

  function WithBuffer(s: State): State {
    if Closed(s) then s else s.(buf := Some([]))
  }

  function Written(s: State, d: Bytes): (State, bool) {
    if Closed(s) || s.buf.None? then (s, false) else (s.(buf := Some(s.buf.value + d)), true)
  }

  function Prefix(d: Bytes, n: nat): Bytes {
    if n < |d| then d[..n] else d
  }

  function Readout(s: State, n: nat): (State, ReadResult) {
    if s.breakErr.Some? then (s, Failed(s.breakErr.value, None))
    else if s.buf.Some? && |s.buf.value| > 0 then
      var got := Prefix(s.buf.value, n);
      (s.(buf := Some(s.buf.value[|got|..])), Got(got))
    else if s.err.Some? then (s.(buf := None, readFn := None), Failed(s.err.value, s.readFn))
    else (s, Blocked)
  }

  function Shut(s: State, err: nat, fn: Option<nat>): State {
    if s.err.Some? then s else s.(err := Some(err), readFn := fn)
  }

  function Broken(s: State, err: nat): State {
    if s.breakErr.Some? then s
    else s.(breakErr := Some(err), readFn := None, buf := None,
            unread := s.unread + (if s.buf.Some? then |s.buf.value| else 0))
  }

  function Length(s: State): nat {
    if s.buf.Some? then |s.buf.value| else s.unread
  }

  // ---------------------------------------------------------------- runs

  datatype Call = SetBuffer | Write(d: Bytes) | Read(n: nat) | Close(err: nat, fn: Option<nat>) | Break(err: nat)

  // What happened so far: the bytes accepted and delivered, and the hooks that ran.
  datatype History = History(accepted: Bytes, delivered: Bytes, hooks: seq<nat>)

  // The buffer is set once.
  predicate Legal(s: State, c: Call) {
    c.SetBuffer? ==> s.buf.None?
  }

  function Do(s: State, h: History, c: Call): (State, History) {
    match c
    case SetBuffer => (WithBuffer(s), h)
    case Write(d) => (Written(s, d).0, if Written(s, d).1 then h.(accepted := h.accepted + d) else h)
    case Read(n) =>
      (Readout(s, n).0,
       match Readout(s, n).1
       case Got(d) => h.(delivered := h.delivered + d)
       case Failed(_, Some(f)) => h.(hooks := h.hooks + [f])
       case _ => h)
    case Close(err, fn) => (Shut(s, err, fn), h)
    case Break(err) => (Broken(s, err), h)
  }

  ghost predicate Inv(s: State, h: History) {
    && |h.delivered| <= |h.accepted| && h.delivered == h.accepted[..|h.delivered|]
    && (s.breakErr.None? ==> s.unread == 0 && h.accepted[|h.delivered|..] == (if s.buf.Some? then s.buf.value else []))
    && (s.breakErr.Some? ==> s.buf.None? && s.unread == |h.accepted| - |h.delivered|)
    && |h.hooks| <= 1
    && (s.breakErr.None? && s.readFn.Some? ==> s.err.Some? && h.hooks == [])
    && (s.breakErr.None? && s.err.None? ==> h.hooks == [])
    && (s.breakErr.None? && h.hooks != [] ==> h.delivered == h.accepted)
  }

  lemma DoKeeps(s: State, h: History, c: Call)
    requires Inv(s, h) && Legal(s, c)
    ensures var (s', h') := Do(s, h, c); Inv(s', h')
  {
    var (s', h') := Do(s, h, c);
    match c
    case Write(d) =>
      if Written(s, d).1 {
        assert h'.accepted[|h.delivered|..] == h.accepted[|h.delivered|..] + d;
        assert h'.accepted[..|h.delivered|] == h.accepted[..|h.delivered|];
      }
    case Read(n) =>
      if Readout(s, n).1.Got? {
        var got := Readout(s, n).1.data;
        assert s.buf.value == h.accepted[|h.delivered|..];
        assert got == s.buf.value[..|got|];
        assert h.delivered + got == h.accepted[..|h.delivered| + |got|];
      }
    case _ =>
  }

  ghost predicate LegalRun(s: State, h: History, calls: seq<Call>)
    decreases |calls|
  {
    calls == [] || (Legal(s, calls[0]) && LegalRun(Do(s, h, calls[0]).0, Do(s, h, calls[0]).1, calls[1..]))
  }

  function After(s: State, h: History, calls: seq<Call>): (State, History)
    decreases |calls|
  {
    if calls == [] then (s, h) else After(Do(s, h, calls[0]).0, Do(s, h, calls[0]).1, calls[1..])
  }

  lemma {:induction false} RunKeeps(s: State, h: History, calls: seq<Call>)
    requires Inv(s, h) && LegalRun(s, h, calls)
    ensures Inv(After(s, h, calls).0, After(s, h, calls).1)
    decreases |calls|
  {
    hide Inv, Do, Legal;
    if calls != [] {
      DoKeeps(s, h, calls[0]);
      RunKeeps(Do(s, h, calls[0]).0, Do(s, h, calls[0]).1, calls[1..]);
    }
  }

  // The errors first given are the ones that stay.
  lemma {:induction false} ErrorsStay(s: State, h: History, calls: seq<Call>)
    ensures s.err.Some? ==> After(s, h, calls).0.err == s.err
    ensures s.breakErr.Some? ==> After(s, h, calls).0.breakErr == s.breakErr
    decreases |calls|
  {
    if calls != [] {
      ErrorsStay(Do(s, h, calls[0]).0, Do(s, h, calls[0]).1, calls[1..]);
    }
  }

  // The hook of the first Close.
  function HookOf(calls: seq<Call>): Option<nat> {
    if calls == [] then None else if calls[0].Close? then calls[0].fn else HookOf(calls[1..])
  }

  // Of a pipe that is not broken, the hook is still to run or has run, once it is closed.
  ghost predicate Hooked(s: State, h: History, fn: Option<nat>) {
    && (s.err.None? ==> h.hooks == [])
    && (s.err.Some? && s.breakErr.None? ==> if h.hooks == [] then s.readFn == fn else fn.Some? && h.hooks == [fn.value] && s.readFn.None?)
  }

  lemma {:induction false} RunHook(s: State, h: History, calls: seq<Call>, fn: Option<nat>)
    requires Hooked(s, h, fn)
    ensures Hooked(After(s, h, calls).0, After(s, h, calls).1, if s.err.Some? then fn else HookOf(calls))
    decreases |calls|
  {
    if calls != [] {
      var fn' := if s.err.None? && calls[0].Close? then calls[0].fn else fn;
      RunHook(Do(s, h, calls[0]).0, Do(s, h, calls[0]).1, calls[1..], fn');
    }
  }

  const NO_HISTORY: History := History([], [], [])

  // A byte FIFO. Over any calls: what was read is a prefix of what was written; the length is
  // the number of bytes not read; a read fails with the error of Close only when all has been
  // read, and with the error of Break as soon as there is one; the hook of Close runs with the
  // first failure of the former kind, and not again.
  lemma PipeRun(calls: seq<Call>, n: nat)
    requires LegalRun(NEW_PIPE, NO_HISTORY, calls)
    ensures var (s, h) := After(NEW_PIPE, NO_HISTORY, calls);
            && |h.delivered| <= |h.accepted| && h.delivered == h.accepted[..|h.delivered|]
            && Length(s) == |h.accepted| - |h.delivered|
            && |h.hooks| <= 1
            && match Readout(s, n).1
               case Got(d) => s.breakErr.None? && h.delivered + d <= h.accepted && (n > 0 ==> d != [])
               case Failed(e, hook) =>
                 if s.breakErr.Some? then e == s.breakErr.value && hook.None?
                 else
                   && Some(e) == s.err && h.delivered == h.accepted
                   && (if h.hooks == [] then hook == HookOf(calls) else hook.None? && HookOf(calls) == Some(h.hooks[0]))
               case Blocked => !Closed(s) && h.delivered == h.accepted
  {
    hide Do, Legal;
    RunKeeps(NEW_PIPE, NO_HISTORY, calls);
    RunHook(NEW_PIPE, NO_HISTORY, calls, None);
    var (s, h) := After(NEW_PIPE, NO_HISTORY, calls);
    assert h.accepted == h.accepted[..|h.delivered|] + h.accepted[|h.delivered|..];
  }

  // ---------------------------------------------------------------- the pipe

  class Pipe {
    var b: DataBuffer?
    var unread: nat
    var err: Option<nat>
    var breakErr: Option<nat>
    var readFn: Option<nat>

    ghost predicate Valid()
      reads this, b, if b == null then {} else (set x | x in b.chunks)
    {
      b != null ==> b.Valid()
    }

    ghost function View(): State
      reads this, b
    {
      State(if b == null then None else Some(b.Contents()), unread, err, breakErr, readFn)
    }

    constructor ()
      ensures Valid() && View() == NEW_PIPE
    {
      b, unread, err, breakErr, readFn := null, 0, None, None, None;
    }

    method SetBuffer(expected: int)
      requires Valid()
      modifies this`b
      ensures Valid() && View() == WithBuffer(old(View()))
    {
      if err.Some? || breakErr.Some? {
        return;
      }
      b := new DataBuffer(expected);
    }

    method Len() returns (n: nat)
      requires Valid()
      ensures n == Length(View())
    {
      if b == null {
        return unread;
      }
      SizeIs(b);
      return b.Len();
    }

    // One turn of Read, without waiting. hook tells whether readFn was called.
    method Read(p: array<Byte>) returns (n: nat, r: ReadResult)
      requires Valid() && (b != null ==> p !in b.chunks)
      modifies this, b, p
      ensures Valid() && (View(), r) == Readout(old(View()), p.Length)
      ensures r.Got? ==> n <= p.Length && r.data == p[..n]
    {
      if breakErr.Some? {
        return 0, Failed(breakErr.value, None);
      }
      if b != null {
        SizeIs(b);
        if b.Len() > 0 {
          var ok;
          n, ok := b.Read(p);
          assert p[..n] == Prefix(old(View()).buf.value, p.Length);
          return n, Got(p[..n]);
        }
      }
      if err.Some? {
        var hook := readFn;
        readFn := None;
        b := null;
        return 0, Failed(err.value, hook);
      }
      return 0, Blocked;
    }

    method Write(d: Bytes) returns (ok: bool)
      requires Valid()
      modifies b, if b == null then {} else (set x | x in b.chunks)
      ensures Valid() && (View(), ok) == Written(old(View()), d)
    {
      if err.Some? || breakErr.Some? || b == null {
        return false;
      }
      var n := b.Write(d);
      return true;
    }

    // closeWithError, for the error that is returned after all has been read.
    method CloseWithError(e: nat, fn: Option<nat>)
      requires Valid()
      modifies this`err, this`readFn
      ensures Valid() && View() == Shut(old(View()), e, fn)
    {
      if err.Some? {
        return;
      }
      readFn := fn;
      err := Some(e);
    }

    // closeWithError, for the error that is returned at once.
    method BreakWithError(e: nat)
      requires Valid()
      modifies this
      ensures Valid() && View() == Broken(old(View()), e)
    {
      if breakErr.Some? {
        return;
      }
      readFn := None;
      if b != null {
        SizeIs(b);
        unread := unread + b.Len();
      }
      b := null;
      breakErr := Some(e);
    }
  }

  lemma SizeIs(b: DataBuffer)
    requires b.Valid()
    ensures b.size == |b.Contents()|
  {
    UnreadSize(b.d, b.r, b.w, b.size);
  }
}

/**
 What `Client.Call` does with the invokers a selector gives it: retrying (Failover, Failtry) and
 fanning out (Broadcast, Forking), and the one-invoker cache of the direct selector.
 */
module ClientModes {
  import opened Common
  import opened Session
  import ServerContext

  const CONNECT: int := -2
  const ERR_BROADCAST := RpcError(0, "some invokers return Error")
  const ERR_FORKING := RpcError(0, "all invokers return Error")

  type InvokerId = nat

  // ---------------------------------------------------------------- Failover

  /** One turn of the retry loop: the selector had nothing, or the call on an invoker ended. */
  datatype Attempt = NoInvoker(text: string) | Called(inv: InvokerId, err: Option<RpcError>)

  /** Errors after which another invoker would not help: the connection was shut down on purpose,
      or the server itself answered. */
  predicate Final(e: RpcError) {
    e.typ == SHUTDOWN.typ || e.typ > 0
  }

  /** The loop goes on after this turn, if tries are left. */
  predicate Retryable(a: Attempt) {
    a.NoInvoker? || (a.err.Some? && !Final(a.err.value))
  }

  /** The invokers given to `HandleFailed`, in order. */
  function HandledBy(attempts: seq<Attempt>): seq<InvokerId> {
    if attempts == [] then []
    else
      var a := attempts[|attempts| - 1];
      HandledBy(attempts[..|attempts| - 1]) + if a.Called? && a.err.Some? then [a.inv] else []
  }

  /** What `Call` reports after these turns. */
  function Report(last: Attempt): Option<RpcError> {
    if last.NoInvoker? then Some(RpcError(CONNECT, last.text)) else last.err
  }

  /** The turns that Failover takes out of everything the environment has in store. */
  ghost predicate FailoverRun(env: seq<Attempt>, maxTry: nat, tries: nat) {
    && 1 <= tries <= maxTry <= |env|
    && (forall k :: 0 <= k < tries - 1 ==> Retryable(env[k]))
    && (tries < maxTry ==> !Retryable(env[tries - 1]))
  }

  /** `Call` in mode Failover, over any selector: `env[k]` is what turn `k` would meet. */
  method Failover(env: seq<Attempt>, maxTry: nat)
      returns (result: Option<RpcError>, tries: nat, handled: seq<InvokerId>)
    requires 1 <= maxTry <= |env|
    ensures FailoverRun(env, maxTry, tries)
    ensures result == Report(env[tries - 1])
    ensures handled == HandledBy(env[..tries])
  {
    var selectErr: Option<string> := None;
    var rpcErr: Option<RpcError> := None;
    var left := maxTry;
    tries, handled := 0, [];
    while left > 0
      invariant 0 <= left && tries + left == maxTry
      invariant forall k :: 0 <= k < tries ==> Retryable(env[k])
      invariant handled == HandledBy(env[..tries])
      invariant tries > 0 ==>
                  if env[tries - 1].NoInvoker? then selectErr == Some(env[tries - 1].text)
                  else selectErr.None? && rpcErr == env[tries - 1].err
    {
      var a := env[tries];
      assert env[..tries + 1][..tries] == env[..tries];
      tries := tries + 1;
      left := left - 1;
      if a.NoInvoker? {
        selectErr := Some(a.text);
      } else {
        selectErr := None;
        rpcErr := a.err;
        if rpcErr.None? {
          return None, tries, handled;
        }
        handled := handled + [a.inv];
        if Final(rpcErr.value) {
          break;
        }
      }
    }
    result := if selectErr.Some? then Some(RpcError(CONNECT, selectErr.value)) else rpcErr;
  }

  /** Failover reports success exactly when its last turn succeeded, and then no earlier turn did. After a
      shutdown (type -1) or an error sent by a server (a positive type) there is no further turn; after any
      other error, or without an invoker, there is one as long as tries are left. */
  lemma FailoverIsHonest(env: seq<Attempt>, maxTry: nat, tries: nat)
    requires FailoverRun(env, maxTry, tries)
    ensures Report(env[tries - 1]).None? <==> env[tries - 1].Called? && env[tries - 1].err.None?
    ensures Report(env[tries - 1]).None? <==> exists k :: 0 <= k < tries && env[k].Called? && env[k].err.None?
    ensures forall k :: 0 <= k < tries && env[k].Called? && env[k].err.Some? ==>
              var t := env[k].err.value.typ;
              (t == -1 || t > 0 ==> k == tries - 1) && (t <= 0 && t != -1 ==> k < tries - 1 || tries == maxTry)
    ensures forall k :: 0 <= k < tries && env[k].NoInvoker? ==> k < tries - 1 || tries == maxTry
    ensures Report(env[tries - 1])
            == match env[tries - 1] case NoInvoker(text) => Some(RpcError(-2, text)) case Called(_, err) => err
    ensures |HandledBy(env[..tries])| <= tries
  {
    if Report(env[tries - 1]).None? {
      assert env[tries - 1].Called?;
    }
    HandledBound(env[..tries]);
  }

  /** Whatever fault a server answers with, the client sees an error after which Failover does not go on. */
  lemma ServerFaultIsLast(env: seq<Attempt>, maxTry: nat, tries: nat, k: nat,
                          seqno: nat, method_: string, f: ServerContext.Failure)
    requires FailoverRun(env, maxTry, tries) && k < tries
    requires var seen := ServerContext.Conclude(ServerContext.ToWire(seqno, method_, ServerContext.Fault(f)));
             seen.SeenError? ==> env[k].Called? && env[k].err == Some(RpcError(seen.typ, seen.msg))
    ensures k == tries - 1 && Report(env[k]) == Some(RpcError(f.typ, f.msg))
  {
    ServerContext.ErrorSurvives(seqno, method_, ServerContext.Fault(f));
    FailoverIsHonest(env, maxTry, tries);
  }

  /** `HandleFailed` gets exactly the invokers whose calls failed, in order. */
  lemma {:induction false} HandledInOrder(a: seq<Attempt>, b: seq<Attempt>, inv: InvokerId, err: RpcError, text: string)
    ensures HandledBy(a + b) == HandledBy(a) + HandledBy(b)
    ensures HandledBy([Called(inv, Some(err))]) == [inv]
    ensures HandledBy([Called(inv, None)]) == [] && HandledBy([NoInvoker(text)]) == []
  {
    assert forall x: Attempt :: [x][..0] == [];
    if b == [] {
      assert a + b == a;
    } else {
      var n := |b| - 1;
      assert (a + b)[..|a| + n] == a + b[..n];
      HandledInOrder(a, b[..n], inv, err, text);
    }
  }

  lemma {:induction false} HandledBound(attempts: seq<Attempt>)
    ensures |HandledBy(attempts)| <= |attempts|
  {
    if attempts != [] {
      HandledBound(attempts[..|attempts| - 1]);
    }
  }

  /** The errors that the client makes up itself. */
  lemma ClientErrors()
    ensures SHUTDOWN == RpcError(-1, "connection is shut down") && CONNECT == -2
    ensures ERR_BROADCAST == RpcError(0, "some invokers return Error")
    ensures ERR_FORKING == RpcError(0, "all invokers return Error")
  {
  }

  // ---------------------------------------------------------------- the direct selector

  /** What the outside world does: the n-th dial fails with a text or not, the n-th call made on an
      open invoker fails with an error or not. */
  datatype World = World(dial: nat -> Option<string>, call: nat -> Option<RpcError>)

  class DirectSelector {
    var invoker: Option<InvokerId>
    var dials: nat              // dials made so far; a successful one creates the invoker of that number
    var calls: nat              // calls made on open invokers
    var closed: set<InvokerId>

    ghost predicate Valid()
      reads this
    {
      && (invoker.Some? ==> invoker.value < dials && invoker.value !in closed)
      && (forall i :: i in closed ==> i < dials)
    }

    constructor ()
      ensures Valid() && invoker.None? && dials == 0 && calls == 0 && closed == {}
    {
      invoker, dials, calls, closed := None, 0, 0, {};
    }

    method Select(w: World) returns (inv: Option<InvokerId>, err: Option<string>)
      requires Valid()
      modifies this`invoker, this`dials
      ensures Valid() && inv == invoker && (inv.None? <==> err.Some?)
      ensures old(invoker).Some? ==> inv == old(invoker) && dials == old(dials)
      ensures old(invoker).None? ==>
                dials == old(dials) + 1 && err == w.dial(old(dials)) && (inv.Some? ==> inv.value == old(dials))
    {
      if invoker.Some? {
        return invoker, None;
      }
      err := w.dial(dials);
      inv := if err.None? then Some(dials) else None;
      dials := dials + 1;
      invoker := inv;
    }

    /** `Invoker.Call`: refused on a closed connection, otherwise up to the world. */
    method CallOn(inv: InvokerId, w: World) returns (err: Option<RpcError>)
      modifies this`calls
      ensures err == (if inv in closed then Some(SHUTDOWN) else w.call(old(calls)))
      ensures calls == old(calls) + if inv in closed then 0 else 1
    {
      if inv in closed {
        return Some(SHUTDOWN);
      }
      err := w.call(calls);
      calls := calls + 1;
    }

    method HandleFailed(inv: InvokerId)
      requires Valid() && inv < dials
      modifies this`invoker, this`closed
      ensures Valid() && invoker.None? && closed == old(closed) + {inv}
    {
      closed := closed + {inv};
      invoker := None;
    }

    /** One turn of the loop: select, call, and hand a failed invoker back. */
    method Turn(w: World) returns (a: Attempt)
      requires Valid()
      modifies this
      ensures Valid() && old(dials) <= dials && old(calls) <= calls
      ensures a.Called? ==>
                && a.inv < dials
                && (if old(invoker).None? then a.inv >= old(dials) else a.inv == old(invoker).value)
      ensures closed == old(closed) + if a.Called? && a.err.Some? then {a.inv} else {}
      ensures if a.Called? && a.err.None?
              then invoker == Some(a.inv) && calls == old(calls) + 1 && w.call(old(calls)).None?
              else invoker.None?
    {
      var inv, err := Select(w);
      if err.Some? {
        return NoInvoker(err.value);
      }
      var result := CallOn(inv.value, w);
      a := Called(inv.value, result);
      if result.Some? {
        HandleFailed(inv.value);
      }
    }

    /** Failover driven by this selector: after the first turn every call goes to an invoker dialled
        during this very run, so no retry ever meets a closed connection. */
    method Failover(w: World, maxTry: nat) returns (result: Option<RpcError>, trace: seq<Attempt>)
      requires Valid() && maxTry >= 1
      modifies this
      ensures Valid()
      ensures FailoverRun(trace, |trace|, |trace|) && |trace| <= maxTry && result == Report(trace[|trace| - 1])
      ensures |trace| < maxTry ==> !Retryable(trace[|trace| - 1])
      ensures forall k :: 0 <= k < |trace| - 1 && trace[k].Called? ==>
                trace[k].err.Some? && trace[k].err.value.typ <= 0 && trace[k].err.value.typ != -1
      ensures |trace| == maxTry || (trace[|trace| - 1].Called?
                                    && var err := trace[|trace| - 1].err;
                                       err.None? || err.value.typ == -1 || err.value.typ > 0)
      ensures NewlyDialled(trace, old(dials), dials)
      ensures forall i :: i in closed <==> i in old(closed) || i in HandledBy(trace)
      ensures result.None? ==> invoker == Some(trace[|trace| - 1].inv) && calls > old(calls) && w.call(calls - 1).None?
      ensures old(calls) <= calls
    {
      hide NewlyDialled;
      hide HandledBy;
      hide Retryable;
      trace, result := [], None;
      NoTurnYet(dials);
      var left := maxTry;
      while left > 0
        invariant 0 <= left && |trace| + left == maxTry && Valid() && old(dials) <= dials && old(calls) <= calls
        invariant |trace| > 0 ==> invoker.None? && result.Some? && result == Report(trace[|trace| - 1])
        invariant |trace| == 0 ==> dials == old(dials)
        invariant forall k :: 0 <= k < |trace| ==> Retryable(trace[k])
        invariant NewlyDialled(trace, old(dials), dials)
        invariant forall i :: i in closed <==> i in old(closed) || i in HandledBy(trace)
      {
        ghost var n := dials;
        var a := Turn(w);
        left := left - 1;
        OneMoreTurn(trace, a, old(dials), n, dials);
        trace := trace + [a];
        result := Report(a);
        WhenRetried(a);
        FinalIs(trace);
        if result.None? || (a.Called? && Final(result.value)) {
          return;
        }
      }
      FinalIs(trace);
    }

    static lemma FinalIs(trace: seq<Attempt>)
      ensures forall k :: 0 <= k < |trace| && Retryable(trace[k]) && trace[k].Called? ==>
                trace[k].err.Some? && trace[k].err.value.typ <= 0 && trace[k].err.value.typ != -1
      ensures forall k :: 0 <= k < |trace| && !Retryable(trace[k]) ==>
                trace[k].Called?
                && (trace[k].err.None? || trace[k].err.value.typ == -1 || trace[k].err.value.typ > 0)
    {
    }

    static lemma WhenRetried(a: Attempt)
      ensures Retryable(a) <==> !(Report(a).None? || (a.Called? && Final(Report(a).value)))
    {
    }

    /** All invokers of the trace exist and differ, and all but the first turn's were dialled after
        the first `from` dials. */
    static ghost predicate NewlyDialled(trace: seq<Attempt>, from: nat, dials: nat) {
      && (forall k :: 0 <= k < |trace| && trace[k].Called? ==> trace[k].inv < dials)
      && (forall k :: 1 <= k < |trace| && trace[k].Called? ==> from <= trace[k].inv)
      && (forall j, k :: 0 <= j < k < |trace| && trace[j].Called? && trace[k].Called? ==> trace[j].inv != trace[k].inv)
    }

    static lemma NoTurnYet(n: nat)
      ensures NewlyDialled([], n, n) && HandledBy([]) == []
    {
    }

    static lemma OneMoreTurn(trace: seq<Attempt>, a: Attempt, from: nat, before: nat, after: nat)
      requires NewlyDialled(trace, from, before) && from <= before <= after
      requires a.Called? ==> a.inv < after && (trace != [] ==> a.inv >= before)
      ensures NewlyDialled(trace + [a], from, after)
      ensures HandledBy(trace + [a]) == HandledBy(trace) + if a.Called? && a.err.Some? then [a.inv] else []
    {
      assert (trace + [a])[..|trace|] == trace;
    }

    /** Failtry keeps its invoker, but `HandleFailed` has closed it: whatever the number of tries, it
        succeeds exactly when it gets an invoker at all and the first call on it succeeds. A second
        call only ever turns the first error into a shutdown. */
    method Failtry(w: World, maxTry: nat) returns (result: Option<RpcError>, made: nat)
      requires Valid() && maxTry >= 1
      modifies this
      ensures Valid() && made <= 2 && calls == old(calls) + if made == 0 then 0 else 1
      ensures made == 0 <==> NoneToDial(old(invoker), w, old(dials), maxTry)
      ensures result.None? <==> !NoneToDial(old(invoker), w, old(dials), maxTry) && w.call(old(calls)).None?
      ensures made == 2 ==> result.Some? && result.value == SHUTDOWN
      ensures made == 0 ==> result == Some(RpcError(CONNECT, w.dial(old(dials) + maxTry - 1).value))
      ensures made == 1 ==> result == w.call(old(calls))
      ensures var err := w.call(old(calls));
              && (err.Some? && (err.value.typ == -1 || err.value.typ > 0) ==> made <= 1)
              && (old(invoker).Some? && maxTry >= 2 && err.Some? && err.value.typ <= 0 && err.value.typ != -1 ==>
                    made == 2)
    {
      var left := maxTry;
      var inv: Option<InvokerId> := None;
      var selectErr: Option<string> := None;
      var rpcErr: Option<RpcError> := None;
      made := 0;
      while left > 0
        invariant 0 <= left <= maxTry && Valid() && made <= 1
        invariant inv.Some? <==> made == 1
        invariant made == 0 ==> calls == old(calls) && dials == old(dials) + (maxTry - left) && invoker == old(invoker)
        invariant made == 0 && left < maxTry ==>
                    NoneToDial(old(invoker), w, old(dials), maxTry - left) && selectErr == w.dial(dials - 1)
        invariant old(invoker).Some? && left < maxTry ==> made == 1 && left == maxTry - 1
        invariant made == 1 ==> calls == old(calls) + 1 && inv.value in closed && inv.value < dials
                                && selectErr.None? && rpcErr == w.call(old(calls)) && rpcErr.Some?
                                    && !Final(rpcErr.value)
                                && !NoneToDial(old(invoker), w, old(dials), maxTry)
      {
        left := left - 1;
        if inv.None? {
          inv, selectErr := Select(w);
          Dialled(old(invoker), w, old(dials), maxTry, left, inv, selectErr);
        }
        if inv.Some? {
          rpcErr := CallOn(inv.value, w);
          made := made + 1;
          if rpcErr.None? {
            return None, made;
          }
          HandleFailed(inv.value);
          if Final(rpcErr.value) {
            break;
          }
        }
      }
      result := if selectErr.Some? then Some(RpcError(CONNECT, selectErr.value)) else rpcErr;
    }

    /** There is no invoker, and the next `n` dials all fail. */
    static predicate NoneToDial(inv: Option<InvokerId>, w: World, dials: nat, n: nat) {
      inv.None? && forall k :: dials <= k < dials + n ==> w.dial(k).Some?
    }

    static lemma Dialled(old': Option<InvokerId>, w: World, dials: nat, maxTry: nat, left: nat,
                         inv: Option<InvokerId>, err: Option<string>)
      requires left < maxTry && (inv.None? <==> err.Some?)
      requires old'.Some? ==> inv == old'
      requires old'.None? ==> err == w.dial(dials + (maxTry - left - 1))
      requires maxTry - left - 1 > 0 ==> NoneToDial(old', w, dials, maxTry - left - 1)
      ensures inv.None? ==> NoneToDial(old', w, dials, maxTry - left) && err == w.dial(dials + (maxTry - left) - 1)
      ensures inv.Some? ==> !NoneToDial(old', w, dials, maxTry)
    {
      var k := maxTry - left - 1;
      assert NoneToDial(old', w, dials, maxTry) ==> w.dial(dials + k).Some?;
    }
  }

  /** The modes `Client.Call` serves through `Select`. */
  datatype RetryMode = Failover | Failfast | Failtry

  /** `Client.Call` outside the fan-out modes, with the direct selector. A report of success stands
      for a call that succeeded exactly in the modes that have a loop: Failfast reports success
      without dialling or calling anything. */
  method Call(sel: DirectSelector, mode: RetryMode, w: World, maxTry: nat) returns (result: Option<RpcError>)
    requires sel.Valid() && maxTry >= 1
    modifies sel
    ensures sel.Valid()
    ensures !mode.Failfast? && result.None? ==> exists n :: old(sel.calls) <= n < sel.calls && w.call(n).None?
    ensures mode.Failfast? ==> result.None? && sel.calls == old(sel.calls) && sel.dials == old(sel.dials)
  {
    result := None;
    if mode.Failover? {
      var trace;
      result, trace := sel.Failover(w, maxTry);
    } else if mode.Failtry? {
      var made;
      result, made := sel.Failtry(w, maxTry);
    }
  }

  // ---------------------------------------------------------------- fan-out

  ghost predicate Distinct(s: seq<nat>) {
    forall i, j :: 0 <= i < j < |s| ==> s[i] != s[j]
  }

  ghost predicate Below(s: seq<nat>, n: nat) {
    forall i :: 0 <= i < |s| ==> s[i] < n
  }

  lemma {:induction false} DistinctBelow(s: seq<nat>, n: nat)
    requires Distinct(s) && Below(s, n)
    ensures |s| <= n
    ensures |s| == n ==> forall c :: 0 <= c < n ==> c in s
    decreases n
  {
    var first := if s == [] then 0 else s[0];
    assert s != [] ==> first < n;
    if n > 0 {
      if exists i :: 0 <= i < |s| && s[i] == n - 1 {
        var i :| 0 <= i < |s| && s[i] == n - 1;
        var rest := s[..i] + s[i + 1..];
        DistinctBelow(rest, n - 1);
        assert forall c :: c in rest ==> c in s;
      } else {
        DistinctBelow(s, n - 1);
      }
    }
  }

  ghost function Concat(bursts: seq<seq<nat>>): seq<nat> {
    if bursts == [] then [] else bursts[0] + Concat(bursts[1..])
  }

  /** The channel all calls of one fan-out share. The other goroutines run between any two looks at it:
      `bursts` are the completions that land before each further look, in any grouping. */
  class DoneChannel {
    const cap: nat
    var bursts: seq<seq<nat>>
    var queue: seq<nat>
    var dropped: seq<nat>
    ghost var landed: seq<nat>
    ghost var received: seq<nat>

    constructor (cap: nat, bursts: seq<seq<nat>>)
      ensures this.cap == cap && Valid() && received == [] && All() == Concat(bursts)
    {
      this.cap := cap;
      this.bursts, queue, dropped, landed, received := bursts, [], [], [], [];
    }

    /** Nothing has been lost or reordered. */
    ghost predicate Valid()
      reads this
    {
      dropped == [] && received + queue == landed
    }

    /** Every completion there is or will be, in order. */
    ghost function All(): seq<nat>
      reads this
    {
      landed + Concat(bursts)
    }

    /** `Call.done` never blocks: with the buffer full, the completion is thrown away. */
    method Push(c: nat)
      modifies this`queue, this`dropped, this`landed
      ensures landed == old(landed) + [c]
      ensures old(Valid()) && |old(landed)| < cap ==> Valid()
    {
      landed := landed + [c];
      if |queue| < cap {
        queue := queue + [c];
      } else {
        dropped := dropped + [c];
      }
    }

    /** The next burst lands. */
    method Land()
      requires Valid() && |All()| <= cap && bursts != []
      modifies this`queue, this`dropped, this`landed, this`bursts
      ensures Valid() && All() == old(All()) && |bursts| < |old(bursts)| && received == old(received)
    {
      hide Concat;
      var burst := bursts[0];
      ghost var rest := Concat(bursts[1..]);
      assert Concat(bursts) == burst + rest by {
        FirstBurst(bursts);
      }
      bursts := bursts[1..];
      var k := 0;
      while k < |burst|
        invariant 0 <= k <= |burst| && Valid() && landed == old(landed) + burst[..k]
        invariant received == old(received) && bursts == old(bursts)[1..]
      {
        Push(burst[k]);
        k := k + 1;
      }
      assert burst[..k] == burst;
    }

    static lemma FirstBurst(bursts: seq<seq<nat>>)
      requires bursts != []
      ensures Concat(bursts) == bursts[0] + Concat(bursts[1..])
    {
    }

    static lemma NoBurst(bursts: seq<seq<nat>>)
      requires bursts == []
      ensures Concat(bursts) == []
    {
    }

    /** `<-done`: the completions come out one by one in the order in which they happen, and a receiver
        waits for ever exactly when it has had them all. */
    method Receive() returns (c: Option<nat>)
      requires Valid() && |All()| <= cap && received <= All()
      modifies this
      ensures Valid() && All() == old(All())
      ensures c.None? <==> old(received) == old(All())
      ensures c.Some? ==> |old(received)| < |All()| && c.value == All()[|old(received)|]
      ensures received == All()[..|received|] && |received| == |old(received)| + if c.Some? then 1 else 0
    {
      hide Concat;
      while true
        invariant Valid() && All() == old(All()) && received == old(received) <= All()
        decreases |bursts|
      {
        if bursts != [] {
          Land();
        }
        if queue != [] {
          c := Some(queue[0]);
          assert landed[|received|] == queue[0];
          received, queue := received + [queue[0]], queue[1..];
          return;
        }
        if bursts == [] {
          NoBurst(bursts);
          return None;
        }
      }
    }
  }

  /** How a fan-out call ends, if it does. */
  datatype FanOut = Waits | Ends(err: Option<RpcError>)

  /** The channel as `make(chan *Call, l)` creates it, for calls each of which completes at most once. */
  ghost predicate Ready(done: DoneChannel, calls: nat)
    reads done
  {
    done.Valid() && done.cap == calls && done.received == [] && Distinct(done.All()) && Below(done.All(), calls)
  }

  /** `invokerBroadCast`, where call `c` ends with `err[c]`: however the completions are ordered and timed,
      none is dropped; success is reported exactly when every call has completed and none has failed;
      the loop waits for ever only while a call is missing. */
  method BroadCast(err: seq<Option<RpcError>>, done: DoneChannel) returns (r: FanOut)
    requires Ready(done, |err|)
    modifies done
    ensures done.dropped == []
    ensures r == Ends(None) <==> |old(done.All())| == |err| && forall c :: 0 <= c < |err| ==> err[c].None?
    ensures r == Ends(Some(ERR_BROADCAST)) <==> exists c :: c in old(done.All()) && err[c].Some?
    ensures r == Waits ==> |old(done.All())| < |err|
    ensures r.Ends? ==> r.err in {None, Some(ERR_BROADCAST)}
  {
    ghost var all := done.All();
    DistinctBelow(all, |err|);
    r := ReceiveAll(err, done);
    if r == Ends(None) {
      AllFine(err, all);
    }
  }

  /** The receiving loop of Broadcast: it stops at the first completion that is a failure. */
  method ReceiveAll(err: seq<Option<RpcError>>, done: DoneChannel) returns (r: FanOut)
    requires Ready(done, |err|) && |done.All()| <= |err|
    modifies done
    ensures done.dropped == [] && r in {Waits, Ends(None), Ends(Some(ERR_BROADCAST))}
    ensures r == Waits ==> |old(done.All())| < |err|
    ensures r == Ends(None) ==> |old(done.All())| == |err|
    ensures r == Ends(Some(ERR_BROADCAST)) ==> exists c :: c in old(done.All()) && err[c].Some?
    ensures r != Ends(Some(ERR_BROADCAST)) ==> forall k :: 0 <= k < |old(done.All())| ==> err[old(done.All())[k]].None?
  {
    ghost var all := done.All();
    hide Concat;
    hide Distinct;
    var l := |err|;
    while l > 0
      invariant 0 <= l <= |err| && done.Valid() && done.All() == all && |done.received| == |err| - l
      invariant done.received == all[..|done.received|] && |done.received| <= |all|
      invariant forall k :: 0 <= k < |done.received| ==> err[all[k]].None?
    {
      var c := done.Receive();
      if c.None? {
        assert all[..|done.received|] == all;
        return Waits;
      }
      if err[c.value].Some? {
        assert c.value in all;
        return Ends(Some(ERR_BROADCAST));
      }
      l := l - 1;
    }
    r := Ends(None);
  }

  lemma AllFine(err: seq<Option<RpcError>>, all: seq<nat>)
    requires Below(all, |err|) && (forall c :: 0 <= c < |err| ==> c in all)
    requires forall k :: 0 <= k < |all| ==> err[all[k]].None?
    ensures forall c :: 0 <= c < |err| ==> err[c].None?
  {
    forall c | 0 <= c < |err| ensures err[c].None? {
      assert c in all;
      var k :| 0 <= k < |all| && all[k] == c;
    }
  }

  /** `invokerForking`: the first success wins, and failure is reported exactly when every call has
      failed. No invoker at all also counts as success. */
  method Forking(err: seq<Option<RpcError>>, done: DoneChannel) returns (r: FanOut)
    requires Ready(done, |err|)
    modifies done
    ensures done.dropped == []
    ensures r == Ends(None) <==> |err| == 0 || exists c :: c in old(done.All()) && err[c].None?
    ensures r == Ends(Some(ERR_FORKING)) <==>
              |err| > 0 && |old(done.All())| == |err| && forall c :: 0 <= c < |err| ==> err[c].Some?
    ensures r == Waits ==> |old(done.All())| < |err|
    ensures r.Ends? ==> r.err in {None, Some(ERR_FORKING)}
  {
    ghost var all := done.All();
    DistinctBelow(all, |err|);
    hide Concat;
    hide Distinct;
    if |err| == 0 {
      return Ends(None);
    }
    var l := |err|;
    while l > 0
      invariant 0 <= l <= |err| && done.Valid() && done.All() == all && |done.received| == |err| - l
      invariant done.received == all[..|done.received|] && |done.received| <= |all|
      invariant forall k :: 0 <= k < |done.received| ==> err[all[k]].Some?
    {
      var c := done.Receive();
      if c.None? {
        assert all[..|done.received|] == all;
        return Waits;
      }
      if err[c.value].None? {
        assert c.value in all;
        return Ends(None);
      }
      l := l - 1;
    }
    r := Ends(Some(ERR_FORKING));
  }

  // ---------------------------------------------------------------- fan-out over sessions

  /** One call of a fan-out: call number `c` of a connection that has run through `steps`. */
  datatype Leg = Leg(service: (Payload, Payload) -> bool, steps: seq<Step>, c: nat)

  ghost predicate Sound(l: Leg) {
    Run(l.service, l.steps).Some? && l.c < |Run(l.service, l.steps).value.calls|
  }

  ghost function CallOf(l: Leg): Session.Call
    requires Sound(l)
  {
    Run(l.service, l.steps).value.calls[l.c]
  }

  /** `send` has returned and the connection is gone, so that nothing can happen to the call any more. */
  ghost predicate Over(l: Leg)
    requires Sound(l)
  {
    Run(l.service, l.steps).value.input == Ended && CallOf(l).stage == Returned
  }

  /** `done` lists the completions of the legs: leg `c` appears as often as its call was signalled. */
  ghost predicate Completions(legs: seq<Leg>, done: seq<nat>) {
    && (forall c :: 0 <= c < |legs| ==> Sound(legs[c]) && multiset(done)[c] == CallOf(legs[c]).signals)
    && Below(done, |legs|)
  }

  /** That no call completes twice is what the session protocol guarantees; so is that none is missing. */
  lemma SessionsCompleteOnce(legs: seq<Leg>, done: seq<nat>)
    requires Completions(legs, done)
    ensures Distinct(done)
    ensures (forall c :: 0 <= c < |legs| ==> Over(legs[c])) ==> |done| == |legs|
    ensures forall c :: 0 <= c < |legs| && Over(legs[c]) ==> CallOf(legs[c]).verdict != Unset
  {
    forall c | 0 <= c < |legs|
      ensures multiset(done)[c] <= 1
      ensures Over(legs[c]) ==> multiset(done)[c] == 1 && CallOf(legs[c]).verdict != Unset
    {
      var l := legs[c];
      SignalledAtMostOnce(l.service, l.steps, l.c);
      if Over(l) {
        SignalledExactlyOnce(l.service, l.steps, l.c);
      }
    }
    OnceMeansDistinct(done, |legs|);
    if forall c :: 0 <= c < |legs| ==> Over(legs[c]) {
      EachPresent(done, |legs|);
    }
  }

  lemma OnceMeansDistinct(done: seq<nat>, n: nat)
    requires Below(done, n) && forall c :: 0 <= c < n ==> multiset(done)[c] <= 1
    ensures Distinct(done)
  {
    forall i, j | 0 <= i < j < |done| ensures done[i] != done[j] {
      var a, b := done[..j], done[j..];
      assert done == a + b;
      assert a[i] == done[i] && b[0] == done[j];
      assert done[i] in multiset(a) && done[j] in multiset(b);
      assert multiset(done)[done[j]] == multiset(a)[done[j]] + multiset(b)[done[j]];
    }
  }

  lemma EachPresent(done: seq<nat>, n: nat)
    requires Below(done, n) && Distinct(done) && forall c :: 0 <= c < n ==> multiset(done)[c] == 1
    ensures |done| == n
  {
    forall c | 0 <= c < n ensures c in done {
      assert c in multiset(done);
    }
    DistinctBelow(done, n);
    Covers(done, n);
  }

  lemma {:induction false} Covers(s: seq<nat>, n: nat)
    requires forall c :: 0 <= c < n ==> c in s
    ensures |s| >= n
  {
    if n > 0 {
      assert n - 1 in s;
      var i :| 0 <= i < |s| && s[i] == n - 1;
      var rest := s[..i] + s[i + 1..];
      forall c | 0 <= c < n - 1 ensures c in rest {
        assert c in s;
        var j :| 0 <= j < |s| && s[j] == c;
        assert j < i ==> rest[j] == c;
        assert j > i ==> rest[j - 1] == c;
      }
      Covers(rest, n - 1);
    }
  }

  /** The results that the completed calls of the legs carry. Whether that is an error does not depend on
      when one looks (`Session.OutcomeIsSettled`). */
  ghost predicate Results(legs: seq<Leg>, err: seq<Option<RpcError>>) {
    && |err| == |legs|
    && forall c :: 0 <= c < |legs| && Sound(legs[c]) && CallOf(legs[c]).signals == 1 ==>
         (err[c].Some? <==> CallOf(legs[c]).verdict.Failed?)
  }

  ghost predicate AllOver(legs: seq<Leg>) {
    forall c :: 0 <= c < |legs| ==> Sound(legs[c]) && Over(legs[c])
  }

  /** Broadcast over any runs of its connections: it reports success only if every call holds a reply;
      once all calls are over it returns, with success exactly if every call holds a reply. */
  method BroadCastCalls(ghost legs: seq<Leg>, err: seq<Option<RpcError>>, done: DoneChannel) returns (r: FanOut)
    requires Results(legs, err) && done.Valid() && done.cap == |legs| && done.received == []
    requires Completions(legs, done.All())
    modifies done
    ensures done.dropped == []
    ensures r == Ends(None) ==> forall c :: 0 <= c < |legs| ==> CallOf(legs[c]).verdict.Fine?
    ensures AllOver(legs) ==> r.Ends? && (r.err.None? <==> forall c :: 0 <= c < |legs| ==>
              CallOf(legs[c]).verdict.Fine?)
  {
    ghost var all := done.All();
    SessionsCompleteOnce(legs, all);
    DistinctBelow(all, |legs|);
    Finished(legs, all);
    r := BroadCast(err, done);
  }

  /** Forking over any runs of its connections: success means that a call holds a reply (or that there is
      no invoker); once all calls are over it returns, with success exactly in that case. */
  method ForkingCalls(ghost legs: seq<Leg>, err: seq<Option<RpcError>>, done: DoneChannel) returns (r: FanOut)
    requires Results(legs, err) && done.Valid() && done.cap == |legs| && done.received == []
    requires Completions(legs, done.All())
    modifies done
    ensures done.dropped == []
    ensures r == Ends(None) ==> |legs| == 0 || exists c :: 0 <= c < |legs| && CallOf(legs[c]).verdict.Fine?
    ensures AllOver(legs) ==>
              r.Ends? && (r.err.None? <==> |legs| == 0 || exists c :: 0 <= c < |legs| && CallOf(legs[c]).verdict.Fine?)
  {
    ghost var all := done.All();
    SessionsCompleteOnce(legs, all);
    DistinctBelow(all, |legs|);
    Finished(legs, all);
    r := Forking(err, done);
  }

  /** A leg that shows up on the channel has a result. */
  lemma Finished(legs: seq<Leg>, done: seq<nat>)
    requires Completions(legs, done)
    ensures forall c :: c in done ==> c < |legs| && CallOf(legs[c]).signals == 1
                                      && (CallOf(legs[c]).verdict.Fine? || CallOf(legs[c]).verdict.Failed?)
  {
    forall c | c in done
      ensures c < |legs| && CallOf(legs[c]).signals == 1
              && (CallOf(legs[c]).verdict.Fine? || CallOf(legs[c]).verdict.Failed?)
    {
      assert c in multiset(done);
      var l := legs[c];
      RunKeepsInv(l.service, l.steps);
      assert CallInv(l.service, Run(l.service, l.steps).value, l.c);
    }
  }
}

/**
 * The NIO endpoint: how many pollers it runs, the round-robin choice of a poller for each
 * accepted connection, and the start-up and shut-down sequences. Thread start, the acceptor
 * loop, the dispatcher pool and the idle-connection cleaner are represented by their phase.
 */
module NioEndpoints {
  import opened JavaInts
  import opened NioPollers
  import opened ThreadFactories

  /** `Math.min(2, availableProcessors)`. */
  function PollerCount(processors: int): (r: int)
    requires processors >= 1
    ensures 1 <= r <= 2 && r <= processors
    ensures processors >= 2 ==> r == 2
  {
    if processors < 2 then processors else 2
  }

  /**
   * The poller index `getPoller` computes from the rotation value `next`: when the list size is a
   * power of two (`(size & size - 1) == 0`) it masks with `count - 1`, otherwise it takes the
   * remainder shifted into `[0, size)`.
   */
  function PollerIndex(next: int, size: int, count: int): int
    requires IsInt32(next) && 1 <= size <= INT_MAX && 1 <= count <= INT_MAX
  {
    if JavaAnd(size, size - 1) == 0 then JavaAnd(next, count - 1)
    else JavaRem(Wrap32(JavaRem(next, size) + size), size)
  }

  /** The mask path picks `next` modulo the size, negative rotation values included. */
  lemma MaskIsModulo(next: int, size: int)
    requires IsInt32(next) && 1 <= size <= INT_MAX && JavaAnd(size, size - 1) == 0
    ensures JavaAnd(next, size - 1) == next % size
  {
    JavaAndNonNegative(size, size - 1);
    var k := PowerOfTwoExponent(size);
    LowMaskBits(next, k);
  }

  /** The low `k` bits of an `int`'s pattern are the `int` modulo 2^k. */
  lemma LowMaskBits(next: int, k: nat)
    requires k <= 32
    ensures BitAnd(Unsigned32(next), Unsigned32(Pow2(k) - 1)) == next % Pow2(k)
  {
    Pow2AtMost32(k);
    ModUnique(Pow2(k) - 1, TWO_32, 0, Pow2(k) - 1);
    BitAndLowMask(Unsigned32(next), k);
    ModOfUnsigned(next, k);
  }

  /** The general path also picks `next` modulo the size while `next % size + size` cannot overflow. */
  lemma RemainderIsModulo(next: int, size: int)
    requires IsInt32(next) && 1 <= size <= 0x4000_0000
    ensures JavaRem(Wrap32(JavaRem(next, size) + size), size) == next % size
  {
    assert IsInt32(JavaRem(next, size) + size);
    JavaRemNormalized(next, size);
  }

  /**
   * When the list holds as many pollers as were configured, `getPoller` picks the rotation value
   * modulo the number of pollers, on both paths.
   */
  lemma {:induction false} PollerIndexIsModulo(next: int, size: int)
    requires IsInt32(next) && 1 <= size <= 0x4000_0000
    ensures PollerIndex(next, size, size) == next % size
    ensures 0 <= PollerIndex(next, size, size) < size
  {
    if JavaAnd(size, size - 1) == 0 {
      MaskIsModulo(next, size);
    } else {
      RemainderIsModulo(next, size);
    }
  }

  /**
   * The rotation counter starts at 0 and wraps at 2^32 calls; the k-th call (from 0) sees
   * `Wrap32(k)`. With a power-of-two number of pollers the choice is exactly round-robin for
   * ever; with any number it is round-robin until the counter first overflows.
   */
  lemma {:induction false} RoundRobin(k: nat, size: int)
    requires 1 <= size <= 0x4000_0000
    requires JavaAnd(size, size - 1) == 0 || k <= INT_MAX
    ensures PollerIndex(Wrap32(k), size, size) == k % size
  {
    PollerIndexIsModulo(Wrap32(k), size);
    if k > INT_MAX {
      JavaAndNonNegative(size, size - 1);
      var j := PowerOfTwoExponent(size);
      WrapKeepsLowBits(k, j);
    }
  }

  lemma WrapKeepsLowBits(x: int, j: nat)
    requires j <= 32
    ensures Wrap32(x) % Pow2(j) == x % Pow2(j)
  {
    var w := Wrap32(x);
    var q := (w - x) / TWO_32;
    assert w == q * TWO_32 + x;
    ModAddMultiple(x, q, TWO_32);
    assert Unsigned32(w) == Unsigned32(x);
    ModOfUnsigned(w, j);
    ModOfUnsigned(x, j);
  }

  /** With the endpoint's own poller count (one or two, both powers of two) the rotation never skips. */
  lemma EndpointRoundRobin(k: nat, processors: int)
    requires processors >= 1
    ensures PollerIndex(Wrap32(k), PollerCount(processors), PollerCount(processors)) == k % PollerCount(processors)
  {
    var n := PollerCount(processors);
    assert Unsigned32(n) == n && Unsigned32(n - 1) == n - 1;
    assert BitAnd(1, 0) == 0;
    assert BitAnd(2, 1) == 2 * BitAnd(1, 0) + 0;
    assert JavaAnd(n, n - 1) == 0;
    RoundRobin(k, n);
  }

  /** The life of the dispatcher pool and of the idle-connection cleaner. */
  datatype Phase = Absent | Running | Stopped

  /** A null-checked `shutdown()`: what was never created stays absent. */
  function StopIfPresent(p: Phase): Phase
  {
    if p == Absent then Absent else Stopped
  }

  /** The listening channel: not created, open (bound or not) or closed. */
  datatype ServerChannel = NoServer | Open(bound: bool) | Closed

  /** A null-checked `close()` of the listening channel. */
  function CloseIfPresent(c: ServerChannel): ServerChannel
  {
    if c == NoServer then NoServer else Closed
  }

  /** Which step of start-up throws, if any; the I/O outcome is an input to the model. */
  datatype StartFailure = NoFailure | OpenFails | BindFails | SelectorFails(index: nat)

  /** The task ids handed to the thread factories. */
  const ACCEPTOR_TASK: TaskId := 0

  function PollerTask(i: nat): TaskId { i + 1 }

  class NioEndpoint {
    const pollerCount: int
    const keepAliveTimeout: int
    const acceptorFactory: DefaultThreadFactory
    const pollerFactory: DefaultThreadFactory
    var isRunning: bool
    /** Whether `nioPollers` has been created; `pollers` is its contents. */
    var pollerListCreated: bool
    var pollers: seq<NioPoller>
    var pollerRotate: int
    var dispatcher: Phase
    var server: ServerChannel
    var cleaner: Phase
    /** The threads started so far, in order. */
    var threads: seq<Thread>

    /** The pollers in the list. */
    ghost function PollerSet(): set<NioPoller>
      reads this`pollers
    {
      set i | 0 <= i < |pollers| :: pollers[i]
    }

    /** The wrappers the pollers own. */
    ghost function WrapperSet(): set<SocketWrapper>
      reads this`pollers, set i | 0 <= i < |pollers| :: pollers[i]
    {
      set i, w | 0 <= i < |pollers| && w in pollers[i].sockets.Values :: w
    }

    ghost function Footprint(): set<object>
      reads this`pollers, set i | 0 <= i < |pollers| :: pollers[i]
    {
      (set i | 0 <= i < |pollers| :: pollers[i] as object) +
      (set i, w | 0 <= i < |pollers| && w in pollers[i].sockets.Values :: w as object)
    }

    ghost predicate Valid()
      reads this`pollerRotate, this`pollerListCreated, this`pollers, acceptorFactory, pollerFactory
      reads set i | 0 <= i < |pollers| :: pollers[i]
    {
      1 <= pollerCount <= 2 && IsInt32(pollerRotate) && |pollers| <= pollerCount &&
      (!pollerListCreated ==> pollers == []) &&
      acceptorFactory != pollerFactory && acceptorFactory.Valid() && pollerFactory.Valid() &&
      acceptorFactory.generator == FixedName("NioAcceptor") && acceptorFactory.priority == NORM_PRIORITY &&
      pollerFactory.generator == NumberedPrefix("NioPoller") && pollerFactory.priority == NORM_PRIORITY &&
      (forall i, j :: 0 <= i < j < |pollers| ==> pollers[i] != pollers[j]) &&
      (forall i :: 0 <= i < |pollers| ==> pollers[i].Valid())
    }

    /** Every poller exists: the state `start` reaches when nothing failed. */
    ghost predicate Started()
      reads this`pollerListCreated, this`pollers
    {
      pollerListCreated && |pollers| == pollerCount
    }

    constructor (processors: int, keepAliveTimeout: int)
      requires processors >= 1
      ensures Valid() && fresh(acceptorFactory) && fresh(pollerFactory)
      ensures pollerCount == PollerCount(processors) && this.keepAliveTimeout == keepAliveTimeout
      ensures acceptorFactory.generator == FixedName("NioAcceptor") && !acceptorFactory.daemon
      ensures pollerFactory.generator == NumberedPrefix("NioPoller") && !pollerFactory.daemon
      ensures acceptorFactory.priority == NORM_PRIORITY && pollerFactory.priority == NORM_PRIORITY
      ensures acceptorFactory.threadCounter == 1 && pollerFactory.threadCounter == 1
      ensures isRunning && !pollerListCreated && pollers == [] && pollerRotate == 0
      ensures dispatcher == Absent && server == NoServer && cleaner == Absent && threads == []
    {
      var acceptors := CreateWithFixedName("NioAcceptor", false, NORM_PRIORITY);
      var pollerThreads := CreateWithNumberedPrefix("NioPoller", false, NORM_PRIORITY);
      pollerCount := PollerCount(processors);
      this.keepAliveTimeout := keepAliveTimeout;
      acceptorFactory := acceptors;
      pollerFactory := pollerThreads;
      isRunning := true;
      pollerListCreated := false;
      pollers := [];
      pollerRotate := 0;
      dispatcher := Absent;
      server := NoServer;
      cleaner := Absent;
      threads := [];
    }

    /**
     * Creates the pollers in order, each with a daemon thread from the poller factory. Opening
     * the selector of poller `failAt` throws; the pollers created before it stay in the list.
     */
    method InitPoller(failAt: int) returns (ok: bool)
      requires Valid()
      modifies this`pollerListCreated, this`pollers, this`threads, pollerFactory
      ensures Valid() && pollerListCreated
      ensures ok <==> !(0 <= failAt < pollerCount)
      ensures |pollers| == if ok then pollerCount else failAt
      ensures forall i :: 0 <= i < |pollers| ==> fresh(pollers[i])
      ensures PollersCreated(old(threads), old(pollerFactory.threadCounter))
    {
      pollerListCreated := true;
      pollers := [];
      var i := 0;
      while i < pollerCount
        invariant 0 <= i <= pollerCount && |pollers| == i && Valid() && pollerListCreated
        invariant forall j :: 0 <= j < i ==> fresh(pollers[j]) && IsNewPoller(pollers[j])
        invariant threads == old(threads) + PollerThreads(old(pollerFactory.threadCounter), i)
        invariant pollerFactory.threadCounter == Iterate(old(pollerFactory.threadCounter), i)
        invariant !(0 <= failAt < i)
      {
        if i == failAt {
          return false;
        }
        PollerThreadsSnoc(old(pollerFactory.threadCounter), i);
        ghost var before := pollers;
        AddPoller(i);
        assert forall j :: 0 <= j < i ==> pollers[j] == before[j];
        assert pollerFactory.threadCounter == Iterate(old(pollerFactory.threadCounter), i + 1);
        i := i + 1;
      }
      ok := true;
    }

    /**
     * What `initPoller` leaves behind, from the threads and the poller factory's counter it
     * started with: new pollers, each with a thread from the factory, named in order.
     */
    ghost predicate PollersCreated(threads0: seq<Thread>, counter0: int)
      reads this`pollers, this`threads, pollerFactory, set i | 0 <= i < |pollers| :: pollers[i]
    {
      (forall i :: 0 <= i < |pollers| ==> IsNewPoller(pollers[i])) &&
      threads == threads0 + PollerThreads(counter0, |pollers|) &&
      pollerFactory.threadCounter == Iterate(counter0, |pollers|)
    }

    /** A poller as its constructor leaves it: no connections, no events, an open selector. */
    ghost predicate IsNewPoller(p: NioPoller)
      reads p
    {
      p.keepAliveTimeout == keepAliveTimeout && p.sockets == map[] && p.events == [] && p.selectorOpen
    }

    /** One turn of the `initPoller` loop: poller `i` and its daemon thread. */
    method AddPoller(i: nat)
      requires Valid() && pollerListCreated && |pollers| == i < pollerCount
      modifies this`pollers, this`threads, pollerFactory
      ensures Valid() && |pollers| == i + 1 && pollers[..i] == old(pollers) && fresh(pollers[i]) && IsNewPoller(pollers[i])
      ensures threads == old(threads) +
        [Thread(NameFor(NumberedPrefix("NioPoller"), old(pollerFactory.threadCounter)), PollerTask(i), true, NORM_PRIORITY)]
      ensures pollerFactory.threadCounter == Wrap32(old(pollerFactory.threadCounter) + 1)
    {
      var poller := new NioPoller(keepAliveTimeout);
      var t := pollerFactory.NewThread(PollerTask(i));
      threads := threads + [t.(daemon := true)];
      ghost var before := pollers;
      assert forall j :: 0 <= j < i ==> before[j] != poller && before[j].Valid();
      pollers := pollers + [poller];
      assert pollers[..i] == before && pollers[i] == poller;
      AppendedPollerValid();
    }

    /** Appending a new, valid poller keeps the list distinct and valid. */
    lemma AppendedPollerValid()
      requires 1 <= |pollers| <= pollerCount <= 2 && IsInt32(pollerRotate) && pollerListCreated
      requires acceptorFactory != pollerFactory && acceptorFactory.Valid() && pollerFactory.Valid()
      requires acceptorFactory.generator == FixedName("NioAcceptor") && acceptorFactory.priority == NORM_PRIORITY
      requires pollerFactory.generator == NumberedPrefix("NioPoller") && pollerFactory.priority == NORM_PRIORITY
      requires forall j :: 0 <= j < |pollers| - 1 ==> pollers[j] != pollers[|pollers| - 1] && pollers[j].Valid()
      requires pollers[|pollers| - 1].Valid()
      ensures Valid()
    {
    }

    /** Starts the acceptor's daemon thread, named by the acceptor factory. */
    method InitAcceptor()
      requires Valid()
      modifies acceptorFactory, this`threads
      ensures Valid()
      ensures threads == old(threads) + [Thread("NioAcceptor", ACCEPTOR_TASK, true, NORM_PRIORITY)]
    {
      var t := acceptorFactory.NewThread(ACCEPTOR_TASK);
      threads := threads + [t.(daemon := true)];
    }

    /**
     * `start` as written: dispatcher, listening channel, pollers, acceptor, cleaner. When a step
     * throws, the handler calls `close`, which dereferences the cleaner first; the cleaner is
     * created by the last step, so that call always throws (`npe`) and nothing is released.
     */
    method StartAsWritten(failure: StartFailure) returns (npe: bool)
      requires Valid() && !pollerListCreated && dispatcher == Absent && server == NoServer && cleaner == Absent
      modifies this`isRunning, this`pollerListCreated, this`pollers, this`threads
      modifies this`dispatcher, this`server, this`cleaner, acceptorFactory, pollerFactory
      ensures Valid()
      ensures npe <==> failure != NoFailure && !(failure.SelectorFails? && failure.index >= pollerCount)
      ensures !npe ==> Started() && isRunning == old(isRunning) && server == Open(true) && dispatcher == Running && cleaner == Running
      ensures npe ==> !isRunning && dispatcher == Running && cleaner == Absent
      ensures npe && failure == BindFails ==> server == Open(false)
      ensures npe && failure.SelectorFails? ==>
        server == Open(true) && forall i :: 0 <= i < |pollers| ==> pollers[i].selectorOpen
    {
      dispatcher := Running;
      if failure == OpenFails {
        npe := CloseAsWritten();
        return;
      }
      server := Open(false);
      if failure == BindFails {
        npe := CloseAsWritten();
        return;
      }
      server := Open(true);
      var ok := InitPoller(if failure.SelectorFails? then failure.index else -1);
      if !ok {
        npe := CloseAsWritten();
        return;
      }
      InitAcceptor();
      cleaner := Running;
      npe := false;
    }

    /**
     * `close` as written: it clears the running flag, then stops the cleaner, closes every
     * poller, stops the dispatcher and closes the listening channel. Each step dereferences its
     * object without a null check, so the first absent one throws (`npe`) and ends the sequence.
     */
    method CloseAsWritten() returns (npe: bool)
      requires Valid()
      modifies this`isRunning, this`cleaner, this`dispatcher, this`server, Footprint()
      ensures Valid() && !isRunning
      ensures npe <==> old(cleaner) == Absent || !pollerListCreated || old(dispatcher) == Absent || old(server) == NoServer
      ensures old(cleaner) == Absent ==> cleaner == Absent && dispatcher == old(dispatcher) && server == old(server)
      ensures old(cleaner) == Absent ==> forall i :: 0 <= i < |pollers| ==> pollers[i].selectorOpen == old(pollers[i].selectorOpen)
      ensures !npe ==> cleaner == Stopped && dispatcher == Stopped && server == Closed && AllPollersClosed()
    {
      isRunning := false;
      if cleaner == Absent {
        return true;
      }
      cleaner := Stopped;
      if !pollerListCreated {
        return true;
      }
      ClosePollers();
      if dispatcher == Absent {
        return true;
      }
      dispatcher := Stopped;
      if server == NoServer {
        return true;
      }
      server := Closed;
      npe := false;
    }

    /** Every poller has closed its selector, dropped its events and closed its connections. */
    ghost predicate AllPollersClosed()
      reads this`pollers, set i | 0 <= i < |pollers| :: pollers[i]
      reads set i, w | 0 <= i < |pollers| && w in pollers[i].sockets.Values :: w
    {
      forall i :: 0 <= i < |pollers| ==>
        !pollers[i].selectorOpen && pollers[i].events == [] && pollers[i].readInterest == map[] &&
        forall w :: w in pollers[i].sockets.Values ==> !w.open && !w.connected
    }

    /** Closes the pollers in list order. */
    method ClosePollers()
      requires Valid()
      modifies PollerSet()`events, PollerSet()`readInterest, PollerSet()`selectorOpen
      modifies WrapperSet()`open, WrapperSet()`connected
      ensures Valid() && AllPollersClosed()
      ensures forall i :: 0 <= i < |pollers| ==> pollers[i].sockets == old(pollers[i].sockets)
      ensures forall i, w :: 0 <= i < |pollers| && w in pollers[i].sockets.Values ==>
        w.working == old(w.working) && w.waitBegin == old(w.waitBegin)
    {
      var k := 0;
      while k < |pollers|
        invariant 0 <= k <= |pollers| && Valid()
        invariant forall i :: 0 <= i < |pollers| ==> pollers[i].sockets == old(pollers[i].sockets)
        invariant forall i :: 0 <= i < k ==>
          !pollers[i].selectorOpen && pollers[i].events == [] && pollers[i].readInterest == map[] &&
          forall w :: w in pollers[i].sockets.Values ==> !w.open && !w.connected
      {
        pollers[k].Close();
        k := k + 1;
      }
    }

    /** Nothing is left running: the state every `close` reaches. */
    ghost predicate ShutDown()
      reads this`isRunning, this`cleaner, this`dispatcher, this`server, this`pollers
      reads set i | 0 <= i < |pollers| :: pollers[i]
      reads set i, w | 0 <= i < |pollers| && w in pollers[i].sockets.Values :: w
    {
      !isRunning && cleaner != Running && dispatcher != Running && server in {NoServer, Closed} && AllPollersClosed()
    }

    /**
     * A `close` that skips what was never created: after it every created part is stopped or
     * closed, whichever start-up step failed. The pollers keep their socket maps and the wrappers
     * their bookkeeping. On an endpoint already shut down it changes nothing: the phases stay as
     * they were, and `AllPollersClosed` before and after pins every poller field it may write.
     */
    method Close()
      requires Valid()
      modifies this`isRunning, this`cleaner, this`dispatcher, this`server
      modifies PollerSet()`events, PollerSet()`readInterest, PollerSet()`selectorOpen
      modifies WrapperSet()`open, WrapperSet()`connected
      ensures Valid() && !isRunning && pollers == old(pollers)
      ensures cleaner == StopIfPresent(old(cleaner)) && dispatcher == StopIfPresent(old(dispatcher))
      ensures server == CloseIfPresent(old(server))
      ensures AllPollersClosed() && ShutDown()
      ensures forall i :: 0 <= i < |pollers| ==>
        pollers[i].sockets == old(pollers[i].sockets) && pollers[i].dispatched == old(pollers[i].dispatched) &&
        pollers[i].wakeupPending == old(pollers[i].wakeupPending)
      ensures forall i, w :: 0 <= i < |pollers| && w in pollers[i].sockets.Values ==>
        w.working == old(w.working) && w.waitBegin == old(w.waitBegin)
      ensures old(ShutDown()) ==> cleaner == old(cleaner) && dispatcher == old(dispatcher) && server == old(server)
    {
      isRunning := false;
      cleaner := StopIfPresent(cleaner);
      ClosePollers();
      dispatcher := StopIfPresent(dispatcher);
      server := CloseIfPresent(server);
    }

    /** `start` with the null-safe `close` as its handler: a failed start releases all it acquired. */
    method Start(failure: StartFailure) returns (ok: bool)
      requires Valid() && !pollerListCreated && dispatcher == Absent && server == NoServer && cleaner == Absent
      modifies this`isRunning, this`pollerListCreated, this`pollers, this`threads
      modifies this`dispatcher, this`server, this`cleaner, acceptorFactory, pollerFactory
      ensures Valid()
      ensures ok <==> failure == NoFailure || (failure.SelectorFails? && failure.index >= pollerCount)
      ensures ok ==> Started() && isRunning == old(isRunning) && server == Open(true) && dispatcher == Running && cleaner == Running
      ensures !ok ==> !isRunning && dispatcher == Stopped && cleaner == Absent && AllPollersClosed()
      ensures !ok ==> server == if failure == OpenFails then NoServer else Closed
    {
      dispatcher := Running;
      if failure == OpenFails {
        Close();
        return false;
      }
      server := Open(false);
      if failure == BindFails {
        Close();
        return false;
      }
      server := Open(true);
      ok := InitPoller(if failure.SelectorFails? then failure.index else -1);
      if !ok {
        Close();
        return;
      }
      InitAcceptor();
      cleaner := Running;
    }

    /** Picks the next poller in rotation and advances the counter, wrapping as an `int` does. */
    method GetPoller() returns (idx: int)
      requires Valid() && Started()
      modifies this`pollerRotate
      ensures Valid()
      ensures idx == PollerIndex(old(pollerRotate), |pollers|, pollerCount)
      ensures idx == old(pollerRotate) % |pollers| && 0 <= idx < |pollers|
      ensures pollerRotate == Wrap32(old(pollerRotate) + 1)
    {
      var size := |pollers|;
      var next := pollerRotate;
      pollerRotate := Wrap32(pollerRotate + 1);
      if JavaAnd(size, size - 1) == 0 {
        idx := JavaAnd(next, pollerCount - 1);
        MaskIsModulo(next, size);
      } else {
        idx := JavaRem(Wrap32(JavaRem(next, size) + size), size);
        RemainderIsModulo(next, size);
      }
    }

    /**
     * Hands a newly accepted connection to the next poller in rotation, as a new socket: the
     * chosen poller stores a fresh wrapper, queues its event and is woken. Its selector, its
     * registrations and its dispatch list stay as they were, and no other poller changes.
     */
    method RegisterToPoller(ch: ChannelId, now: int) returns (idx: int)
      requires Valid() && Started()
      modifies this`pollerRotate, PollerSet()`sockets, PollerSet()`events, PollerSet()`wakeupPending
      ensures Valid() && pollers == old(pollers)
      ensures idx == old(pollerRotate) % |pollers| && 0 <= idx < |pollers|
      ensures pollerRotate == Wrap32(old(pollerRotate) + 1)
      ensures ch in pollers[idx].sockets && fresh(pollers[idx].sockets[ch])
      ensures pollers[idx].sockets == old(pollers[idx].sockets)[ch := pollers[idx].sockets[ch]]
      ensures pollers[idx].sockets[ch].waitBegin == now && !pollers[idx].sockets[ch].working
      ensures pollers[idx].sockets[ch].open && pollers[idx].sockets[ch].connected
      ensures pollers[idx].events == old(pollers[idx].events) + [pollers[idx].sockets[ch]]
      ensures pollers[idx].wakeupPending
      ensures forall i :: 0 <= i < |pollers| ==>
        pollers[i].readInterest == old(pollers[i].readInterest) && pollers[i].selectorOpen == old(pollers[i].selectorOpen) &&
        pollers[i].dispatched == old(pollers[i].dispatched)
      ensures forall i :: 0 <= i < |pollers| && i != idx ==>
        pollers[i].sockets == old(pollers[i].sockets) && pollers[i].events == old(pollers[i].events) &&
        pollers[i].wakeupPending == old(pollers[i].wakeupPending)
    {
      idx := GetPoller();
      var poller := pollers[idx];
      var ok := poller.Register(ch, true, now);
    }
  }

  /** The threads the poller factory makes for pollers `0 .. n-1`, starting from counter `c`. */
  function PollerThreads(c: int, n: nat): seq<Thread>
  {
    if n == 0 then []
    else PollerThreads(c, n - 1) + [Thread(NameFor(NumberedPrefix("NioPoller"), Iterate(c, n - 1)), PollerTask(n - 1), true, NORM_PRIORITY)]
  }

  /** The numbered counter after `n` more names. */
  function Iterate(c: int, n: nat): int
  {
    if n == 0 then c else Wrap32(Iterate(c, n - 1) + 1)
  }

  lemma PollerThreadsSnoc(c: int, n: nat)
    ensures PollerThreads(c, n + 1) ==
      PollerThreads(c, n) + [Thread(NameFor(NumberedPrefix("NioPoller"), Iterate(c, n)), PollerTask(n), true, NORM_PRIORITY)]
  {
  }
}

/**
 * The NIO poller's connection bookkeeping, single-threaded: the map from channel to socket
 * wrapper, the FIFO queue of registration events, the selector's read registrations and the
 * idle reaper's sweep. Channels are ids; the clock is the `now` parameter.
 */
module NioPollers {
  import opened Wrappers

  type ChannelId = nat

  /**
   * One accepted connection: the wrapper's `working` flag and `waitBegin` timestamp, and the
   * open/connected status of its channel.
   */
  class SocketWrapper {
    const channel: ChannelId
    var working: bool
    var waitBegin: int
    var open: bool
    var connected: bool

    constructor (channel: ChannelId, now: int)
      ensures this.channel == channel && !working && waitBegin == now && open && connected
    {
      this.channel := channel;
      working := false;
      waitBegin := now;
      open := true;
      connected := true;
    }

    /** Closes the channel; closing a closed channel changes nothing. */
    method Close()
      modifies this`open, this`connected
      ensures !open && !connected
    {
      open := false;
      connected := false;
    }
  }

  /** The part of a wrapper the poller and the reaper look at, as a value. */
  datatype WrapperView = WrapperView(working: bool, waitBegin: int, open: bool, connected: bool)

  ghost function ViewOf(w: SocketWrapper): WrapperView
    reads w
  {
    WrapperView(w.working, w.waitBegin, w.open, w.connected)
  }

  /** What one step of the reaper's sweep does with one entry. */
  datatype ReapVerdict = Keep | Drop | CloseAndDrop

  function Verdict(v: WrapperView, now: int, timeout: int): ReapVerdict
  {
    if !v.connected then Drop
    else if v.working then Keep
    else if now - v.waitBegin > timeout then CloseAndDrop
    else Keep
  }

  /** The entry's state once the sweep has dealt with it. */
  function AfterSweep(v: WrapperView, now: int, timeout: int): WrapperView
  {
    if Verdict(v, now, timeout) == CloseAndDrop then v.(open := false, connected := false) else v
  }

  /** The entries a sweep keeps. */
  function SweepTable(t: map<ChannelId, WrapperView>, now: int, timeout: int): (r: map<ChannelId, WrapperView>)
  {
    map ch | ch in t && Verdict(t[ch], now, timeout) == Keep :: t[ch]
  }

  /** A sweep leaves only connected entries that are working or not yet idle too long. */
  lemma SweepKeepsOnlyLive(t: map<ChannelId, WrapperView>, now: int, timeout: int)
    ensures forall ch :: ch in SweepTable(t, now, timeout) ==>
      ch in t && t[ch].connected && (t[ch].working || now - t[ch].waitBegin <= timeout)
    ensures forall ch :: ch in t && t[ch].connected && t[ch].working ==> ch in SweepTable(t, now, timeout)
  {
  }

  /** Sweeping twice at the same time removes nothing more than sweeping once. */
  lemma SweepIdempotent(t: map<ChannelId, WrapperView>, now: int, timeout: int)
    ensures SweepTable(SweepTable(t, now, timeout), now, timeout) == SweepTable(t, now, timeout)
  {
    var once := SweepTable(t, now, timeout);
    var twice := SweepTable(once, now, timeout);
    assert twice.Keys == once.Keys;
  }

  /** An idle entry that is closed at `now` would be closed at every later time too. */
  lemma ReapMonotone(v: WrapperView, now: int, later: int, timeout: int)
    requires now <= later && Verdict(v, now, timeout) == CloseAndDrop
    ensures Verdict(v, later, timeout) == CloseAndDrop
  {
  }

  /** A connection registered at `begin` survives every sweep within the keep-alive timeout. */
  lemma RegisteredSurvivesTimeout(v: WrapperView, begin: int, now: int, timeout: int)
    requires v.connected && v.waitBegin == begin && now - begin <= timeout
    ensures Verdict(v, now, timeout) == Keep
  {
  }

  /** The wrappers among `evs` whose channel is open. */
  ghost function OpenAmong(evs: seq<SocketWrapper>): set<SocketWrapper>
    reads set i | 0 <= i < |evs| :: evs[i]
  {
    set i | 0 <= i < |evs| && evs[i].open :: evs[i]
  }

  /** The selector's read registrations after running the events `evs` in order on an open selector. */
  function Drained(interest: map<ChannelId, SocketWrapper>, evs: seq<SocketWrapper>, open: set<SocketWrapper>): map<ChannelId, SocketWrapper>
  {
    if evs == [] then interest
    else
      var m := Drained(interest, evs[..|evs| - 1], open);
      var w := evs[|evs| - 1];
      if w in open then m[w.channel := w] else m
  }

  /**
   * After a drain the selector watches exactly the channels it watched before plus those of
   * the open events, and each newly watched channel carries the wrapper of its last open event.
   */
  lemma DrainedRegistrations(interest: map<ChannelId, SocketWrapper>, evs: seq<SocketWrapper>, open: set<SocketWrapper>)
    ensures forall ch :: ch in Drained(interest, evs, open) <==>
      ch in interest || exists j :: 0 <= j < |evs| && evs[j] in open && evs[j].channel == ch
    ensures forall j :: (0 <= j < |evs| && evs[j] in open &&
                         forall k :: j < k < |evs| && evs[k] in open ==> evs[k].channel != evs[j].channel) ==>
      evs[j].channel in Drained(interest, evs, open) && Drained(interest, evs, open)[evs[j].channel] == evs[j]
    ensures forall ch :: ch in interest && (forall j :: 0 <= j < |evs| && evs[j] in open ==> evs[j].channel != ch) ==>
      ch in Drained(interest, evs, open) && Drained(interest, evs, open)[ch] == interest[ch]
    ensures forall ch :: ch in Drained(interest, evs, open) ==>
      Drained(interest, evs, open)[ch] in interest.Values || Drained(interest, evs, open)[ch] in evs
  {
    DrainedKeys(interest, evs, open);
    DrainedLastWins(interest, evs, open);
    DrainedKeepsUntouched(interest, evs, open);
    DrainedValues(interest, evs, open);
  }

  lemma {:induction false} DrainedKeys(interest: map<ChannelId, SocketWrapper>, evs: seq<SocketWrapper>, open: set<SocketWrapper>)
    ensures forall ch :: ch in Drained(interest, evs, open) <==>
      ch in interest || exists j :: 0 <= j < |evs| && evs[j] in open && evs[j].channel == ch
    decreases |evs|
  {
    if evs != [] {
      var init := evs[..|evs| - 1];
      DrainedKeys(interest, init, open);
      assert forall j :: 0 <= j < |init| ==> init[j] == evs[j];
    }
  }

  lemma {:induction false} DrainedLastWins(interest: map<ChannelId, SocketWrapper>, evs: seq<SocketWrapper>, open: set<SocketWrapper>)
    ensures forall j :: (0 <= j < |evs| && evs[j] in open &&
                         forall k :: j < k < |evs| && evs[k] in open ==> evs[k].channel != evs[j].channel) ==>
      evs[j].channel in Drained(interest, evs, open) && Drained(interest, evs, open)[evs[j].channel] == evs[j]
    decreases |evs|
  {
    if evs != [] {
      var init := evs[..|evs| - 1];
      DrainedLastWins(interest, init, open);
      assert forall j :: 0 <= j < |init| ==> init[j] == evs[j];
    }
  }

  lemma {:induction false} DrainedKeepsUntouched(interest: map<ChannelId, SocketWrapper>, evs: seq<SocketWrapper>, open: set<SocketWrapper>)
    ensures forall ch :: ch in interest && (forall j :: 0 <= j < |evs| && evs[j] in open ==> evs[j].channel != ch) ==>
      ch in Drained(interest, evs, open) && Drained(interest, evs, open)[ch] == interest[ch]
    decreases |evs|
  {
    if evs != [] {
      var init := evs[..|evs| - 1];
      DrainedKeepsUntouched(interest, init, open);
      assert forall j :: 0 <= j < |init| ==> init[j] == evs[j];
    }
  }

  lemma {:induction false} DrainedValues(interest: map<ChannelId, SocketWrapper>, evs: seq<SocketWrapper>, open: set<SocketWrapper>)
    ensures forall ch :: ch in Drained(interest, evs, open) ==>
      Drained(interest, evs, open)[ch] in interest.Values || Drained(interest, evs, open)[ch] in evs
    decreases |evs|
  {
    if evs != [] {
      var init := evs[..|evs| - 1];
      DrainedValues(interest, init, open);
      assert forall j :: 0 <= j < |init| ==> init[j] == evs[j];
    }
  }

  /** The wrappers in `ws` whose channel is open. */
  ghost function OpenIn(ws: set<SocketWrapper>): set<SocketWrapper>
    reads ws
  {
    set w | w in ws && w.open
  }

  /**
   * The registrations a selection keeps: closing a channel cancels its key, and the next
   * selection drops every cancelled key before it reports ready channels.
   */
  function Uncancelled(interest: map<ChannelId, SocketWrapper>, open: set<SocketWrapper>): map<ChannelId, SocketWrapper>
  {
    map ch | ch in interest && interest[ch] in open :: interest[ch]
  }

  /** The wrappers attached to the ready channels the selector watches, in order. */
  function Selected(interest: map<ChannelId, SocketWrapper>, ready: seq<ChannelId>): (r: seq<SocketWrapper>)
    ensures |r| <= |ready|
    ensures forall w :: w in r ==> exists ch :: ch in ready && ch in interest && interest[ch] == w
  {
    if ready == [] then []
    else
      var rest := Selected(interest, ready[..|ready| - 1]);
      var ch := ready[|ready| - 1];
      if ch in interest then rest + [interest[ch]] else rest
  }

  lemma SelectedSnoc(interest: map<ChannelId, SocketWrapper>, ready: seq<ChannelId>, ch: ChannelId)
    ensures Selected(interest, ready + [ch]) ==
      if ch in interest then Selected(interest, ready) + [interest[ch]] else Selected(interest, ready)
  {
    assert (ready + [ch])[..|ready|] == ready;
  }

  /** Every watched ready channel's attachment is among the selected wrappers. */
  lemma {:induction false} SelectedHasEveryWatched(interest: map<ChannelId, SocketWrapper>, ready: seq<ChannelId>)
    ensures forall i :: 0 <= i < |ready| && ready[i] in interest ==> interest[ready[i]] in Selected(interest, ready)
  {
    if ready != [] {
      var init := ready[..|ready| - 1];
      SelectedHasEveryWatched(interest, init);
      forall i | 0 <= i < |ready| && ready[i] in interest
        ensures interest[ready[i]] in Selected(interest, ready)
      {
        if i < |init| {
          assert init[i] == ready[i];
        }
      }
    }
  }

  /** The position of the first event whose channel is open. */
  function FirstOpen(evs: seq<SocketWrapper>, open: set<SocketWrapper>): (r: Option<nat>)
    ensures r.Some? ==> r.value < |evs| && evs[r.value] in open
    ensures r.Some? ==> forall j :: 0 <= j < r.value ==> evs[j] !in open
    ensures r.None? ==> forall j :: 0 <= j < |evs| ==> evs[j] !in open
  {
    if evs == [] then None
    else if evs[0] in open then Some(0)
    else match FirstOpen(evs[1..], open)
      case None => None
      case Some(k) => Some(k + 1)
  }

  class NioPoller {
    const keepAliveTimeout: int
    /** Every connection this poller owns, by channel. */
    var sockets: map<ChannelId, SocketWrapper>
    /** Pending registration events, oldest first; each event carries one wrapper. */
    var events: seq<SocketWrapper>
    /** The selector's read registrations: channel and attached wrapper. */
    var readInterest: map<ChannelId, SocketWrapper>
    var selectorOpen: bool
    /** Set by `selector.wakeup()`: the next selection returns at once. */
    var wakeupPending: bool
    /** Wrappers handed to the endpoint for processing, in order. */
    var dispatched: seq<SocketWrapper>

    ghost predicate Valid()
      reads this`sockets
    {
      forall ch :: ch in sockets ==> sockets[ch].channel == ch
    }

    constructor (keepAliveTimeout: int)
      ensures Valid() && this.keepAliveTimeout == keepAliveTimeout
      ensures sockets == map[] && events == [] && readInterest == map[] && dispatched == []
      ensures selectorOpen && !wakeupPending
    {
      this.keepAliveTimeout := keepAliveTimeout;
      sockets := map[];
      events := [];
      readInterest := map[];
      selectorOpen := true;
      wakeupPending := false;
      dispatched := [];
    }

    /**
     * A new socket gets a fresh wrapper stored under its channel; a returning keep-alive socket
     * reuses its stored wrapper and stops working. Either way the idle clock restarts, one event
     * for the wrapper joins the tail of the queue and the selector is woken. A returning socket
     * with no stored wrapper is a null dereference (`ok` false) and nothing changes.
     */
    method Register(ch: ChannelId, isNewSocket: bool, now: int) returns (ok: bool)
      requires Valid()
      modifies this`sockets, this`events, this`wakeupPending
      modifies (if !isNewSocket && ch in sockets then {sockets[ch]} else {})`working
      modifies (if !isNewSocket && ch in sockets then {sockets[ch]} else {})`waitBegin
      ensures Valid()
      ensures ok <==> isNewSocket || ch in old(sockets)
      ensures ok ==> ch in sockets && sockets[ch].waitBegin == now && !sockets[ch].working
      ensures ok ==> events == old(events) + [sockets[ch]] && wakeupPending
      ensures ok && isNewSocket ==>
        fresh(sockets[ch]) && sockets == old(sockets)[ch := sockets[ch]] && sockets[ch].open && sockets[ch].connected
      ensures ok && !isNewSocket ==> sockets == old(sockets)
      ensures !ok ==> sockets == old(sockets) && events == old(events) && wakeupPending == old(wakeupPending)
    {
      var wrapper: SocketWrapper;
      if isNewSocket {
        wrapper := new SocketWrapper(ch, now);
        sockets := sockets[ch := wrapper];
      } else {
        if ch !in sockets {
          return false;
        }
        wrapper := sockets[ch];
        wrapper.working := false;
      }
      wrapper.waitBegin := now;
      events := events + [wrapper];
      wakeupPending := true;
      ok := true;
    }

    /**
     * Runs one registration event: while the wrapper's channel is open, the selector records
     * read interest in it with the wrapper attached. Registering with a closed selector throws
     * (`ok` false); an event for a closed channel does nothing.
     */
    method RunEvent(w: SocketWrapper) returns (ok: bool)
      modifies this`readInterest
      ensures ok <==> !w.open || selectorOpen
      ensures readInterest == if w.open && selectorOpen then old(readInterest)[w.channel := w] else old(readInterest)
    {
      ok := true;
      if w.open {
        if !selectorOpen {
          return false;
        }
        readInterest := readInterest[w.channel := w];
      }
    }

    /**
     * One drain of the event queue. It runs as many events as the queue held when it started,
     * oldest first; `late` are events other threads offer meanwhile, which stay queued. An event
     * registers read interest, with its wrapper attached, only when the channel is still open.
     * On a closed selector the first event with an open channel throws (`ok` false) and the
     * drain stops there.
     */
    method Events(late: seq<SocketWrapper>) returns (ok: bool)
      modifies this`events, this`readInterest
      ensures selectorOpen ==> ok && events == late && readInterest == Drained(old(readInterest), old(events), old(OpenAmong(events)))
      ensures !selectorOpen ==> readInterest == old(readInterest)
      ensures !selectorOpen && FirstOpen(old(events), old(OpenAmong(events))).None? ==> ok && events == late
      ensures !selectorOpen && FirstOpen(old(events), old(OpenAmong(events))).Some? ==>
        !ok && events == old(events)[FirstOpen(old(events), old(OpenAmong(events))).value + 1..] + late
    {
      ghost var initial := events;
      ghost var open := OpenAmong(events);
      var size := |events|;
      events := events + late;
      var i := 0;
      while i < size
        invariant 0 <= i <= size && size == |initial|
        invariant events == (initial + late)[i..]
        invariant selectorOpen ==> readInterest == Drained(old(readInterest), initial[..i], open)
        invariant !selectorOpen ==> readInterest == old(readInterest) && forall j :: 0 <= j < i ==> initial[j] !in open
      {
        var w := events[0];
        events := events[1..];
        assert w == initial[i] && events == (initial + late)[i + 1..] by {
          assert (initial + late)[i] == initial[i];
          assert (initial + late)[i..][1..] == (initial + late)[i + 1..];
        }
        assert w.open <==> w in open;
        ok := RunEvent(w);
        if !ok {
          FirstOpenIs(initial, open, i);
          return;
        }
        assert initial[..i + 1][..i] == initial[..i];
        i := i + 1;
      }
      assert initial[..size] == initial;
      ok := true;
    }

    /** A read-ready connection is marked working before it is handed to the endpoint. */
    method ProcessSocket(w: SocketWrapper)
      requires Valid()
      modifies this`dispatched, w`working
      ensures Valid()
      ensures w.working && dispatched == old(dispatched) + [w]
    {
      w.working := true;
      dispatched := dispatched + [w];
    }

    /**
     * Handles the selected keys in order: each ready channel the selector watches hands its
     * attached wrapper to `ProcessSocket`.
     */
    method ProcessSelected(ready: seq<ChannelId>)
      requires Valid()
      modifies this`dispatched, (set i | 0 <= i < |ready| && ready[i] in readInterest :: readInterest[ready[i]])`working
      ensures Valid()
      ensures dispatched == old(dispatched) + Selected(readInterest, ready)
      ensures forall i :: 0 <= i < |ready| && ready[i] in readInterest ==> readInterest[ready[i]].working
      ensures forall w :: w in readInterest.Values && w !in Selected(readInterest, ready) ==> w.working == old(w.working)
    {
      var i := 0;
      while i < |ready|
        invariant 0 <= i <= |ready| && Valid()
        invariant dispatched == old(dispatched) + Selected(readInterest, ready[..i])
        invariant forall j :: 0 <= j < i && ready[j] in readInterest ==> readInterest[ready[j]].working
      {
        SelectedSnoc(readInterest, ready[..i], ready[i]);
        assert ready[..i + 1] == ready[..i] + [ready[i]];
        if ready[i] in readInterest {
          ProcessSocket(readInterest[ready[i]]);
        }
        i := i + 1;
      }
      assert ready[..i] == ready;
      SelectedHasEveryWatched(readInterest, ready);
    }

    /** The selection's first step: the keys of closed channels leave the registrations. */
    method DropCancelled()
      modifies this`readInterest
      ensures readInterest == Uncancelled(old(readInterest), OpenIn(old(readInterest).Values))
      ensures readInterest.Values <= old(readInterest).Values
      ensures forall w :: w in readInterest.Values ==> w.open
    {
      readInterest := map ch | ch in readInterest && readInterest[ch].open :: readInterest[ch];
    }

    /**
     * `selector.select()` on an open selector and the loop over its selected keys: the pending
     * wake-up is consumed, the keys of closed channels are dropped, and every ready channel
     * still watched has its wrapper processed.
     */
    method Select(ready: seq<ChannelId>)
      requires Valid()
      modifies this`readInterest, this`wakeupPending, this`dispatched, readInterest.Values`working
      ensures Valid() && !wakeupPending
      ensures readInterest == Uncancelled(old(readInterest), OpenIn(old(readInterest).Values))
      ensures dispatched == old(dispatched) + Selected(readInterest, ready)
      ensures forall w :: w in readInterest.Values ==> w.open
      ensures forall w :: w in Selected(readInterest, ready) ==> w.working && w.open
      ensures forall w :: w in old(readInterest.Values) && w !in Selected(readInterest, ready) ==> w.working == old(w.working)
    {
      wakeupPending := false;
      DropCancelled();
      ProcessSelected(ready);
    }

    /**
     * One turn of the poller thread while the endpoint runs: drain the event queue, then select
     * and process the channels `ready` reports. A closed selector ends the turn quietly, as the
     * thread catches the exception; `selector.select()` consumes a pending wake-up and drops the
     * keys of closed channels, so only open connections are dispatched.
     */
    method PollOnce(late: seq<SocketWrapper>, ready: seq<ChannelId>)
      requires Valid()
      modifies this`events, this`readInterest, this`wakeupPending, this`dispatched
      modifies (readInterest.Values + set i | 0 <= i < |events| :: events[i])`working
      ensures Valid() && sockets == old(sockets)
      ensures !old(selectorOpen) ==>
        dispatched == old(dispatched) && readInterest == old(readInterest) && wakeupPending == old(wakeupPending) &&
        forall w :: w in old(readInterest.Values) || w in old(events) ==> w.working == old(w.working)
      ensures !old(selectorOpen) && FirstOpen(old(events), old(OpenAmong(events))).None? ==> events == late
      ensures !old(selectorOpen) && FirstOpen(old(events), old(OpenAmong(events))).Some? ==>
        events == old(events)[FirstOpen(old(events), old(OpenAmong(events))).value + 1..] + late
      ensures old(selectorOpen) ==>
        events == late && !wakeupPending &&
        readInterest == Uncancelled(Drained(old(readInterest), old(events), old(OpenAmong(events))),
                                    OpenIn(Drained(old(readInterest), old(events), old(OpenAmong(events))).Values)) &&
        dispatched == old(dispatched) + Selected(readInterest, ready)
      ensures old(selectorOpen) ==> forall w :: w in readInterest.Values ==> w.open
      ensures old(selectorOpen) ==> forall w :: w in Selected(readInterest, ready) ==> w.working && w.open
      ensures old(selectorOpen) ==> forall w ::
        (w in old(readInterest.Values) || w in old(events)) && w !in Selected(readInterest, ready) ==> w.working == old(w.working)
    {
      ghost var evs, open, interest := events, OpenAmong(events), readInterest;
      var ok := Events(late);
      if !ok || !selectorOpen {
        return;
      }
      DrainedRegistrations(interest, evs, open);
      Select(ready);
    }

    /** One step of the sweep, on the entry stored under `ch`. */
    method Reap(ch: ChannelId, now: int)
      requires ch in sockets
      modifies this`sockets, {sockets[ch]}`open, {sockets[ch]}`connected
      ensures Verdict(old(ViewOf(sockets[ch])), now, keepAliveTimeout) == Keep ==> sockets == old(sockets)
      ensures Verdict(old(ViewOf(sockets[ch])), now, keepAliveTimeout) != Keep ==> sockets == old(sockets) - {ch}
      ensures ViewOf(old(sockets[ch])) == AfterSweep(old(ViewOf(sockets[ch])), now, keepAliveTimeout)
    {
      var w := sockets[ch];
      if !w.connected {
        sockets := sockets - {ch};
      } else if w.working {
      } else if now - w.waitBegin > keepAliveTimeout {
        w.Close();
        sockets := sockets - {ch};
      }
    }

    /**
     * The reaper's sweep: a disconnected entry is dropped without closing; a working entry is
     * kept untouched; an idle entry is closed and dropped exactly when `now - waitBegin` exceeds
     * the keep-alive timeout; every other entry stays.
     */
    method CleanTimeoutSockets(now: int)
      requires Valid()
      modifies this`sockets, sockets.Values`open, sockets.Values`connected
      ensures Valid()
      ensures forall ch :: ch in sockets ==> ch in old(sockets) && sockets[ch] == old(sockets)[ch]
      ensures forall ch :: ch in old(sockets) ==>
        (ch in sockets <==> Verdict(old(ViewOf(sockets[ch])), now, keepAliveTimeout) == Keep)
      ensures forall ch :: ch in old(sockets) ==>
        ViewOf(old(sockets)[ch]) == AfterSweep(old(ViewOf(sockets[ch])), now, keepAliveTimeout)
    {
      ghost var table := sockets;
      var todo := sockets.Keys;
      while todo != {}
        invariant todo <= table.Keys
        invariant forall ch :: ch in table ==> table[ch].channel == ch
        invariant forall ch :: ch in sockets ==> ch in table && sockets[ch] == table[ch]
        invariant forall ch :: ch in table ==>
          (ch in sockets <==> ch in todo || Verdict(old(ViewOf(table[ch])), now, keepAliveTimeout) == Keep)
        invariant forall ch :: ch in table ==>
          ViewOf(table[ch]) == if ch in todo then old(ViewOf(table[ch])) else AfterSweep(old(ViewOf(table[ch])), now, keepAliveTimeout)
        decreases todo
      {
        var ch :| ch in todo;
        Reap(ch, now);
        todo := todo - {ch};
      }
    }

    /** Closes every owned connection, empties the event queue and closes the selector. */
    method Close()
      requires Valid()
      modifies this`events, this`readInterest, this`selectorOpen, sockets.Values`open, sockets.Values`connected
      ensures Valid()
      ensures forall ch :: ch in sockets ==> !sockets[ch].open && !sockets[ch].connected
      ensures events == [] && !selectorOpen && readInterest == map[]
    {
      var todo := sockets.Keys;
      while todo != {}
        invariant todo <= sockets.Keys
        invariant forall ch :: ch in sockets && ch !in todo ==> !sockets[ch].open && !sockets[ch].connected
        decreases todo
      {
        var ch :| ch in todo;
        sockets[ch].Close();
        todo := todo - {ch};
      }
      events := [];
      readInterest := map[];
      selectorOpen := false;
    }
  }

  lemma FirstOpenIs(evs: seq<SocketWrapper>, open: set<SocketWrapper>, i: nat)
    requires i < |evs| && evs[i] in open
    requires forall j :: 0 <= j < i ==> evs[j] !in open
    ensures FirstOpen(evs, open) == Some(i)
  {
    var r := FirstOpen(evs, open);
    assert r.Some?;
  }
}

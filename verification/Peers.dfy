/** Peers coming and going: one lifecycle goroutine per peer, the channel they report on, and the
    handler that keeps the tables of connected peers. */
module Peers {
  import opened BlockNodes

  datatype Peer = Peer(id: nat, inbound: bool, persistent: bool, group: string)

  datatype Action = Add | Done

  datatype Event = Event(action: Action, peer: Peer)

  datatype Call = NewPeer(peer: Peer) | DonePeer(peer: Peer)

  /** Where the lifecycle goroutine of a peer is: waiting for the handshake or a disconnect, between
      sending the add event and recording that it did, waiting for the disconnect, or finished. */
  datatype Phase = Waiting | AddSent | Settled | DoneSent

  datatype Local = Local(phase: Phase, connected: bool, versionKnown: bool, peerAdded: bool)

  /** What has happened to the events of a peer. */
  datatype Trace = Trace(addSent: bool, addHandled: bool, doneHandled: bool)

  // -------------------------------------------------------- specification

  /** The events of one peer in the channel. */
  function Pending(queue: seq<Event>, p: Peer): seq<Action> {
    if queue == [] then []
    else (if queue[0].peer == p then [queue[0].action] else []) + Pending(queue[1..], p)
  }

  lemma {:induction false} PendingAppend(queue: seq<Event>, e: Event, p: Peer)
    ensures Pending(queue + [e], p) == Pending(queue, p) + if e.peer == p then [e.action] else []
  {
    if queue == [] {
      assert queue + [e] == [e];
    } else {
      assert (queue + [e])[1..] == queue[1..] + [e];
      PendingAppend(queue[1..], e, p);
    }
  }

  /** The calls to the sync manager about one peer. */
  function CallsOf(calls: seq<Call>, p: Peer): seq<Call> {
    if calls == [] then []
    else CallsOf(calls[..|calls| - 1], p) + if calls[|calls| - 1].peer == p then [calls[|calls| - 1]] else []
  }

  lemma CallsAppend(calls: seq<Call>, c: Call, p: Peer)
    ensures CallsOf(calls + [c], p) == CallsOf(calls, p) + if c.peer == p then [c] else []
  {
    assert (calls + [c])[..|calls|] == calls;
  }

  type PeerMap = map<nat, Peer>

  datatype PeerState = PeerState(inbound: PeerMap, outbound: PeerMap, persistent: PeerMap, groups: map<string, int>)
  {
    function Count(): nat {
      |inbound| + |outbound| + |persistent|
    }

    predicate Has(p: Peer) {
      (p.id in inbound && inbound[p.id] == p) || (p.id in outbound && outbound[p.id] == p)
      || (p.id in persistent && persistent[p.id] == p)
    }

    /** Each table holds its own kind of peers, under their ids. */
    ghost predicate Sorted() {
      && (forall i <- inbound :: inbound[i].id == i && inbound[i].inbound)
      && (forall i <- outbound :: outbound[i].id == i && !outbound[i].inbound && !outbound[i].persistent)
      && (forall i <- persistent :: persistent[i].id == i && !persistent[i].inbound && persistent[i].persistent)
    }

    /** The count of a group is the number of outbound and persistent peers in it. */
    ghost predicate Grouped() {
      forall g :: GroupCount(groups, g) == |InGroup(outbound, g)| + |InGroup(persistent, g)|
    }
  }

  function GroupCount(groups: map<string, int>, g: string): int {
    if g in groups then groups[g] else 0
  }

  function InGroup(m: PeerMap, g: string): set<nat> {
    set i | i in m && m[i].group == g
  }

  /** The table that a peer belongs to, with or without it. */
  function Put(t: PeerState, p: Peer): PeerState {
    if p.inbound then t.(inbound := t.inbound[p.id := p])
    else
      var groups := t.groups[p.group := GroupCount(t.groups, p.group) + 1];
      if p.persistent then t.(persistent := t.persistent[p.id := p], groups := groups)
      else t.(outbound := t.outbound[p.id := p], groups := groups)
  }

  function Take(t: PeerState, p: Peer): PeerState {
    if p.inbound then t.(inbound := t.inbound - {p.id})
    else
      var groups := t.groups[p.group := GroupCount(t.groups, p.group) - 1];
      if p.persistent then t.(persistent := t.persistent - {p.id}, groups := groups)
      else t.(outbound := t.outbound - {p.id}, groups := groups)
  }

  lemma PutSize(m: PeerMap, p: Peer)
    requires p.id !in m
    ensures |m[p.id := p]| == |m| + 1
  {
    assert m[p.id := p].Keys == m.Keys + {p.id};
    assert |m[p.id := p].Keys| == |m[p.id := p]| && |m.Keys| == |m|;
  }

  lemma PutGroup(m: PeerMap, p: Peer, g: string)
    requires p.id !in m
    ensures |InGroup(m[p.id := p], g)| == |InGroup(m, g)| + if p.group == g then 1 else 0
  {
    assert InGroup(m[p.id := p], g) == if p.group == g then InGroup(m, g) + {p.id} else InGroup(m, g);
  }

  lemma TakeSize(m: PeerMap, p: Peer)
    requires p.id in m && m[p.id] == p
    ensures |m - {p.id}| == |m| - 1
  {
    assert (m - {p.id}).Keys == m.Keys - {p.id};
    assert |(m - {p.id}).Keys| == |m - {p.id}| && |m.Keys| == |m|;
  }

  lemma TakeGroup(m: PeerMap, p: Peer, g: string)
    requires p.id in m && m[p.id] == p
    ensures |InGroup(m - {p.id}, g)| == |InGroup(m, g)| - if p.group == g then 1 else 0
  {
    assert InGroup(m - {p.id}, g) == if p.group == g then InGroup(m, g) - {p.id} else InGroup(m, g);
  }

  /** No table has a peer under this id. */
  predicate Free(t: PeerState, id: nat) {
    id !in t.inbound && id !in t.outbound && id !in t.persistent
  }

  lemma PutKeeps(t: PeerState, p: Peer)
    requires t.Sorted() && t.Grouped() && Free(t, p.id) && (p.inbound ==> !p.persistent)
    ensures var u := Put(t, p);
            u.Sorted() && u.Grouped() && u.Count() == t.Count() + 1 && forall q :: u.Has(q) <==> t.Has(q) || q == p
  {
    hide InGroup, GroupCount, PeerState.Sorted, PeerState.Has, PeerState.Grouped;
    PutSorted(t, p);
    PutGrouped(t, p);
    PutCount(t, p);
  }

  lemma PutSorted(t: PeerState, p: Peer)
    requires t.Sorted() && Free(t, p.id) && (p.inbound ==> !p.persistent)
    ensures Put(t, p).Sorted() && forall q :: Put(t, p).Has(q) <==> t.Has(q) || q == p
  {
  }

  lemma PutCount(t: PeerState, p: Peer)
    requires Free(t, p.id)
    ensures Put(t, p).Count() == t.Count() + 1
  {
    PutSize(if p.inbound then t.inbound else if p.persistent then t.persistent else t.outbound, p);
  }

  lemma PutGrouped(t: PeerState, p: Peer)
    requires t.Grouped() && Free(t, p.id)
    ensures Put(t, p).Grouped()
  {
    hide InGroup;
    forall g
      ensures GroupCount(Put(t, p).groups, g) == |InGroup(Put(t, p).outbound, g)| + |InGroup(Put(t, p).persistent, g)|
    {
      PutGroup(t.persistent, p, g);
      PutGroup(t.outbound, p, g);
    }
  }

  lemma TakeKeeps(t: PeerState, p: Peer)
    requires t.Sorted() && t.Grouped() && t.Has(p)
    ensures var u := Take(t, p);
            u.Sorted() && u.Grouped() && u.Count() == t.Count() - 1 && forall q :: u.Has(q) <==> t.Has(q) && q != p
  {
    hide InGroup, GroupCount, PeerState.Sorted, PeerState.Has, PeerState.Grouped;
    TakeSorted(t, p);
    TakeGrouped(t, p);
    TakeCount(t, p);
  }

  lemma TakeSorted(t: PeerState, p: Peer)
    requires t.Sorted() && t.Has(p)
    ensures Take(t, p).Sorted() && forall q :: Take(t, p).Has(q) <==> t.Has(q) && q != p
  {
  }

  lemma TakeCount(t: PeerState, p: Peer)
    requires t.Sorted() && t.Has(p)
    ensures Take(t, p).Count() == t.Count() - 1
  {
    TakeSize(if p.inbound then t.inbound else if p.persistent then t.persistent else t.outbound, p);
  }

  lemma TakeGrouped(t: PeerState, p: Peer)
    requires t.Sorted() && t.Has(p) && t.Grouped()
    ensures Take(t, p).Grouped()
  {
    hide InGroup;
    var u := Take(t, p);
    forall g ensures GroupCount(u.groups, g) == |InGroup(u.outbound, g)| + |InGroup(u.persistent, g)| {
      if p.inbound {
      } else if p.persistent {
        TakeGroup(t.persistent, p, g);
      } else {
        TakeGroup(t.outbound, p, g);
      }
    }
  }

  /** How the state of the goroutine of a peer fits with the events it sent. */
  ghost predicate PhaseOk(l: Local, t: Trace) {
    && (t.addSent ==> l.versionKnown)
    && (l.phase == Waiting ==> !t.addSent)
    && (l.phase == AddSent ==> t.addSent)
    && (l.peerAdded <==> t.addSent && l.phase != AddSent)
    && (t.addHandled ==> t.addSent)
    && (t.doneHandled ==> l.phase == DoneSent && t.addHandled == t.addSent)
  }

  /** The events of a peer in the channel: the add before the done. */
  function Awaited(add: bool, done: bool): seq<Action> {
    if add && done then [Add, Done] else if add then [Add] else if done then [Done] else []
  }

  /** The calls about a peer: at most one NewPeer, once the add was handled, and exactly one DonePeer
      when the done was handled and an add was sent. */
  ghost predicate CallsOk(l: Local, t: Trace, calls: seq<Call>, p: Peer) {
    var news := if calls != [] && calls[0] == NewPeer(p) then 1 else 0;
    && (news == 1 ==> t.addHandled)
    && calls[news..] == if t.doneHandled && l.peerAdded then [DonePeer(p)] else []
  }

  ghost predicate Life(l: Local, t: Trace, pending: seq<Action>, calls: seq<Call>, p: Peer, listed: bool) {
    && PhaseOk(l, t) && CallsOk(l, t, calls, p)
    && pending == Awaited(t.addSent && !t.addHandled, l.phase == DoneSent && !t.doneHandled)
    && (listed ==> t.addHandled && !t.doneHandled && calls == [NewPeer(p)])
  }

  /** Events, calls and tables are about known peers; ids tell peers apart; only outbound peers are
      persistent. */
  ghost predicate Known(local: map<Peer, Local>, queue: seq<Event>, calls: seq<Call>, state: PeerState) {
    && (forall e <- queue :: e.peer in local)
    && (forall c <- calls :: c.peer in local)
    && (forall p :: state.Has(p) ==> p in local)
    && (forall p, q | p in local && q in local :: p.id == q.id ==> p == q)
    && (forall p <- local :: p.inbound ==> !p.persistent)
  }

  ghost predicate Lives(local: map<Peer, Local>, trace: map<Peer, Trace>, queue: seq<Event>, calls: seq<Call>,
                        state: PeerState)
  {
    && local.Keys == trace.Keys
    && forall p <- local :: Life(local[p], trace[p], Pending(queue, p), CallsOf(calls, p), p, state.Has(p))
  }

  /** A step that concerns one peer. */
  lemma StepOne(local: map<Peer, Local>, trace: map<Peer, Trace>, queue: seq<Event>, calls: seq<Call>, state: PeerState,
                p: Peer, l: Local, t: Trace, queue': seq<Event>, calls': seq<Call>, state': PeerState)
    requires Lives(local, trace, queue, calls, state)
    requires forall q <- local :: q != p ==>
               && Pending(queue', q) == Pending(queue, q) && CallsOf(calls', q) == CallsOf(calls, q)
               && (state'.Has(q) <==> state.Has(q))
    requires Life(l, t, Pending(queue', p), CallsOf(calls', p), p, state'.Has(p))
    ensures Lives(local[p := l], trace[p := t], queue', calls', state')
  {
  }

  lemma LifeOf(local: map<Peer, Local>, trace: map<Peer, Trace>, queue: seq<Event>, calls: seq<Call>, state: PeerState,
               p: Peer)
    requires Lives(local, trace, queue, calls, state) && p in local
    ensures p in trace && Life(local[p], trace[p], Pending(queue, p), CallsOf(calls, p), p, state.Has(p))
  {
  }

  lemma Unlisted(local: map<Peer, Local>, queue: seq<Event>, calls: seq<Call>, state: PeerState, p: Peer)
    requires Known(local, queue, calls, state) && state.Sorted() && p in local && !state.Has(p)
    ensures Free(state, p.id)
  {
    if p.id in state.inbound {
      assert state.Has(state.inbound[p.id]);
    }
    if p.id in state.outbound {
      assert state.Has(state.outbound[p.id]);
    }
    if p.id in state.persistent {
      assert state.Has(state.persistent[p.id]);
    }
  }

  lemma {:induction false} PendingNone(queue: seq<Event>, p: Peer)
    requires forall e <- queue :: e.peer != p
    ensures Pending(queue, p) == []
  {
    if queue != [] {
      PendingNone(queue[1..], p);
    }
  }

  lemma {:induction false} CallsNone(calls: seq<Call>, p: Peer)
    requires forall c <- calls :: c.peer != p
    ensures CallsOf(calls, p) == []
  {
    if calls != [] {
      CallsNone(calls[..|calls| - 1], p);
    }
  }

  /** A peer that just connected. */
  lemma NoTrace(local: map<Peer, Local>, queue: seq<Event>, calls: seq<Call>, state: PeerState, p: Peer)
    requires Known(local, queue, calls, state) && p !in local
    ensures Life(Local(Waiting, true, false, false), Trace(false, false, false), Pending(queue, p), CallsOf(calls, p),
                 p, state.Has(p))
  {
    PendingNone(queue, p);
    CallsNone(calls, p);
  }

  lemma KnownMore(local: map<Peer, Local>, queue: seq<Event>, calls: seq<Call>, state: PeerState, p: Peer, l: Local)
    requires Known(local, queue, calls, state)
    requires p in local || ((forall q <- local :: q.id != p.id) && (p.inbound ==> !p.persistent))
    ensures Known(local[p := l], queue, calls, state)
  {
  }

  /** A step of the goroutine of one peer, which may send an event. */
  lemma GoStep(local: map<Peer, Local>, trace: map<Peer, Trace>, queue: seq<Event>, calls: seq<Call>, state: PeerState,
               p: Peer, l: Local, t: Trace, queue': seq<Event>)
    requires Known(local, queue, calls, state) && Lives(local, trace, queue, calls, state) && p in local
    requires queue' == queue || (queue' == queue + [Event(Add, p)]) || (queue' == queue + [Event(Done, p)])
    requires Life(l, t, if |queue'| == |queue| then Pending(queue, p) else Pending(queue, p) + [queue'[|queue|].action],
                  CallsOf(calls, p), p, state.Has(p))
    ensures Known(local[p := l], queue', calls, state) && Lives(local[p := l], trace[p := t], queue', calls, state)
  {
    hide Life, Pending, CallsOf, PeerState.Has, Lives;
    if queue' != queue {
      forall q ensures Pending(queue', q) == Pending(queue, q) + if q == p then [queue'[|queue|].action] else [] {
        PendingAppend(queue, queue'[|queue|], q);
      }
    }
    StepOne(local, trace, queue, calls, state, p, l, t, queue', calls, state);
    KnownMore(local, queue, calls, state, p, l);
  }

  class Server {
    const maxPeers: nat
    var local: map<Peer, Local>
    var queue: seq<Event>                     // the channel of lifecycle events
    var state: PeerState
    var calls: seq<Call>                      // calls to the sync manager so far
    ghost var trace: map<Peer, Trace>

    ghost predicate Valid()
      reads this
    {
      && Known(local, queue, calls, state) && state.Sorted() && state.Grouped() && state.Count() <= maxPeers
      && Lives(local, trace, queue, calls, state)
    }

    constructor (maxPeers: nat)
      ensures Valid() && local == map[] && this.maxPeers == maxPeers
    {
      this.maxPeers := maxPeers;
      local := map[];
      queue := [];
      state := PeerState(map[], map[], map[], map[]);
      calls := [];
      trace := map[];
    }

    // ------------------------------------------------- lifecycle goroutine

    /** A new connection, under an id not used before. */
    method Connect(p: Peer)
      requires Valid() && (forall q <- local :: q.id != p.id) && (p.inbound ==> !p.persistent)
      modifies `local, `trace
      ensures Valid() && local == old(local)[p := Local(Waiting, true, false, false)]
    {
      hide Life, Known, Lives, Pending, CallsOf, PeerState.Has, PeerState.Sorted, PeerState.Grouped;
      NoTrace(local, queue, calls, state, p);
      KnownMore(local, queue, calls, state, p, Local(Waiting, true, false, false));
      StepOne(local, trace, queue, calls, state, p, Local(Waiting, true, false, false), Trace(false, false, false),
              queue, calls, state);
      local := local[p := Local(Waiting, true, false, false)];
      trace := trace[p := Trace(false, false, false)];
    }

    /** The version message of the peer arrives. */
    method Version(p: Peer)
      requires Valid() && p in local
      modifies `local, `trace
      ensures Valid() && local == old(local)[p := old(local[p]).(versionKnown := true)]
    {
      hide Known, Lives, Pending, CallsOf, PeerState.Has, PeerState.Sorted, PeerState.Grouped;
      LifeOf(local, trace, queue, calls, state, p);
      GoStep(local, trace, queue, calls, state, p, local[p].(versionKnown := true), trace[p], queue);
      local, trace := local[p := local[p].(versionKnown := true)], trace[p := trace[p]];
    }

    /** The connection ends, by either side. */
    method Disconnect(p: Peer)
      requires Valid() && p in local
      modifies `local, `trace
      ensures Valid() && local == old(local)[p := old(local[p]).(connected := false)]
    {
      hide Known, Lives, Pending, CallsOf, PeerState.Has, PeerState.Sorted, PeerState.Grouped;
      LifeOf(local, trace, queue, calls, state, p);
      GoStep(local, trace, queue, calls, state, p, local[p].(connected := false), trace[p], queue);
      local, trace := local[p := local[p].(connected := false)], trace[p := trace[p]];
    }

    /** The handshake is complete: the add event is sent. */
    method SendAdd(p: Peer)
      requires Valid() && p in local && local[p].phase == Waiting && local[p].versionKnown
      modifies `local, `queue, `trace
      ensures Valid() && queue == old(queue) + [Event(Add, p)]
      ensures local == old(local)[p := old(local[p]).(phase := AddSent)]
    {
      hide Known, Lives, Pending, CallsOf, PeerState.Has, PeerState.Sorted, PeerState.Grouped;
      LifeOf(local, trace, queue, calls, state, p);
      ghost var t := trace[p].(addSent := true);
      GoStep(local, trace, queue, calls, state, p, local[p].(phase := AddSent), t, queue + [Event(Add, p)]);
      local, trace, queue := local[p := local[p].(phase := AddSent)], trace[p := t], queue + [Event(Add, p)];
    }

    /** The goroutine records that it sent the add event. */
    method MarkAdded(p: Peer)
      requires Valid() && p in local && local[p].phase == AddSent
      modifies `local, `trace
      ensures Valid() && local == old(local)[p := old(local[p]).(phase := Settled, peerAdded := true)]
    {
      hide Known, Lives, Pending, CallsOf, PeerState.Has, PeerState.Sorted, PeerState.Grouped;
      LifeOf(local, trace, queue, calls, state, p);
      GoStep(local, trace, queue, calls, state, p, local[p].(phase := Settled, peerAdded := true), trace[p], queue);
      local, trace := local[p := local[p].(phase := Settled, peerAdded := true)], trace[p := trace[p]];
    }

    /** The peer is gone before the handshake was complete. */
    method GiveUp(p: Peer)
      requires Valid() && p in local && local[p].phase == Waiting && !local[p].connected
      modifies `local, `trace
      ensures Valid() && local == old(local)[p := old(local[p]).(phase := Settled)]
    {
      hide Known, Lives, Pending, CallsOf, PeerState.Has, PeerState.Sorted, PeerState.Grouped;
      LifeOf(local, trace, queue, calls, state, p);
      GoStep(local, trace, queue, calls, state, p, local[p].(phase := Settled), trace[p], queue);
      local, trace := local[p := local[p].(phase := Settled)], trace[p := trace[p]];
    }

    /** The peer is gone: the done event is sent. */
    method SendDone(p: Peer)
      requires Valid() && p in local && local[p].phase == Settled && !local[p].connected
      modifies `local, `queue, `trace
      ensures Valid() && queue == old(queue) + [Event(Done, p)]
      ensures local == old(local)[p := old(local[p]).(phase := DoneSent)]
    {
      hide Known, Lives, Pending, CallsOf, PeerState.Has, PeerState.Sorted, PeerState.Grouped;
      LifeOf(local, trace, queue, calls, state, p);
      GoStep(local, trace, queue, calls, state, p, local[p].(phase := DoneSent), trace[p], queue + [Event(Done, p)]);
      local, trace, queue := local[p := local[p].(phase := DoneSent)], trace[p := trace[p]], queue + [Event(Done, p)];
    }
    // -------------------------------------------------------- peer handler

    /** Handles an add event.  The peer is listed, and announced to the sync manager, unless it is gone
        already, unwanted (by its user agent, or banned) or one too many. */
    method HandleAddPeer(unwanted: bool)
      requires Valid() && queue != [] && queue[0].action == Add
      modifies this
      ensures Valid() && queue == old(queue)[1..]
      ensures var p := old(queue[0]).peer;
              && p in old(local) && !old(state).Has(p)
              && if old(local[p]).connected && !unwanted && old(state.Count()) < maxPeers
                 then state == Put(old(state), p) && calls == old(calls) + [NewPeer(p)] && local == old(local)
                 else state == old(state) && calls == old(calls)
                      && local == old(local)[p := old(local[p]).(connected := false)]
    {
      hide Known, Lives, Pending, CallsOf, PeerState.Has, PeerState.Sorted, PeerState.Grouped, Life;
      var p := queue[0].peer;
      HeadKnown(local, queue, calls, state);
      LifeOf(local, trace, queue, calls, state, p);
      AddFacts(local[p], trace[p], queue, CallsOf(calls, p), p, state.Has(p));
      ghost var t := trace[p].(addHandled := true);
      if !local[p].connected || unwanted || state.Count() >= maxPeers {
        var l := local[p].(connected := false);
        AddRefused(local[p], trace[p], queue, CallsOf(calls, p), p, state.Has(p));
        PopStep(local, trace, queue, calls, state, p, l, t, calls, state);
        local, trace, queue := local[p := l], trace[p := t], queue[1..];
        return;
      }
      Unlisted(local, queue, calls, state, p);
      KnownFlags(local, queue, calls, state, p);
      PutKeeps(state, p);
      assert [] + [NewPeer(p)] == [NewPeer(p)];
      AddAccepted(local[p], trace[p], queue, CallsOf(calls, p), p, state.Has(p));
      CallsAppend(calls, NewPeer(p), p);
      PopStep(local, trace, queue, calls, state, p, local[p], t, calls + [NewPeer(p)], Put(state, p));
      assert local[p := local[p]] == local;
      queue, trace := queue[1..], trace[p := t];
      if p.inbound {
        state := state.(inbound := state.inbound[p.id := p]);
      } else {
        state := state.(groups := state.groups[p.group := GroupCount(state.groups, p.group) + 1]);
        if p.persistent {
          state := state.(persistent := state.persistent[p.id := p]);
        } else {
          state := state.(outbound := state.outbound[p.id := p]);
        }
      }
      calls := calls + [NewPeer(p)];
    }

    /** Handles a done event: the peer leaves its table, if it is still there, and the sync manager
        hears of it if an add event was sent. */
    method HandleDonePeer()
      requires Valid() && queue != [] && queue[0].action == Done
      modifies this
      ensures Valid() && queue == old(queue)[1..] && local == old(local)
      ensures var p := old(queue[0]).peer;
              && p in local && !state.Has(p)
              && state == (if old(state).Has(p) then Take(old(state), p) else old(state))
              && calls == (if local[p].peerAdded then old(calls) + [DonePeer(p)] else old(calls))
              && p in trace && trace[p].doneHandled
    {
      hide Known, Lives, Pending, CallsOf, PeerState.Has, PeerState.Sorted, PeerState.Grouped, Life, Take;
      var p := queue[0].peer;
      HeadKnown(local, queue, calls, state);
      LifeOf(local, trace, queue, calls, state, p);
      InKind(local, queue, calls, state, p);
      ghost var t := trace[p].(doneHandled := true);
      ghost var next := if state.Has(p) then Take(state, p) else state;
      ghost var said := if local[p].peerAdded then calls + [DonePeer(p)] else calls;
      DoneHandled(local[p], trace[p], queue, CallsOf(calls, p), p, state.Has(p));
      CallsAppend(calls, DonePeer(p), p);
      if state.Has(p) {
        TakeKeeps(state, p);
      }
      PopStep(local, trace, queue, calls, state, p, local[p], t, said, next);
      assert local[p := local[p]] == local;
      queue, trace := queue[1..], trace[p := t];
      if p.id in Home(state, p) {
        state := Unlist(state, p, !p.inbound && local[p].versionKnown);
      }
      if local[p].peerAdded {
        calls := calls + [DonePeer(p)];
      }
    }

    // ------------------------------------------------------------- queries

    /** One peer was taken out of its table and disconnected, and nothing else changed. */
    twostate predicate Gone(p: Peer)
      reads this
    {
      && state == Take(old(state), p) && p in old(local)
      && local == old(local)[p := old(local)[p].(connected := false)]
    }

    /** Drops one listed peer that matches, if there is any, and disconnects it. */
    method DisconnectPeer(list: PeerMap, matches: Peer -> bool) returns (gone: Option<Peer>)
      requires Valid() && (list == state.inbound || list == state.outbound || list == state.persistent)
      modifies `state, `local, `trace
      ensures Valid()
      ensures gone.None? ==> unchanged(this) && forall i <- list :: !matches(list[i])
      ensures gone.Some? ==>
                var p := gone.value;
                && p.id in list && list[p.id] == p && matches(p) && Gone(p) && state.Count() < old(state.Count())
    {
      hide Known, Lives, Pending, CallsOf, PeerState.Grouped, Life, Take;
      var todo := list.Keys;
      while todo != {}
        invariant todo <= list.Keys && forall i <- list :: i in todo || !matches(list[i])
      {
        var i :| i in todo;
        if matches(list[i]) {
          assert state.Has(list[i]);
          Listed(local, queue, calls, state, list[i]);
          DropPeer(list[i]);
          return Some(list[i]);
        }
        todo := todo - {i};
      }
      gone := None;
    }

    method DropPeer(p: Peer)
      requires Valid() && p in local && state.Has(p)
      modifies `state, `local, `trace
      ensures Valid() && state == Take(old(state), p) && !state.Has(p) && state.Count() < old(state.Count())
      ensures local == old(local)[p := old(local[p]).(connected := false)]
    {
      hide Known, Lives, Pending, CallsOf, PeerState.Has, PeerState.Sorted, PeerState.Grouped, Take;
      LifeOf(local, trace, queue, calls, state, p);
      TakeKeeps(state, p);
      var l := local[p].(connected := false);
      DropStep(local, trace, queue, calls, state, p, l, Take(state, p));
      state, local, trace := Take(state, p), local[p := l], trace[p := trace[p]];
    }

    /** Removes a persistent peer. */
    method RemoveNode(matches: Peer -> bool) returns (found: bool)
      requires Valid()
      modifies `state, `local, `trace
      ensures Valid()
      ensures found <==> exists i <- old(state.persistent) :: matches(old(state.persistent)[i])
      ensures !found ==> unchanged(this)
      ensures found ==> exists i <- old(state.persistent) ::
                          matches(old(state.persistent)[i]) && Gone(old(state.persistent)[i])
    {
      hide Known, Lives, PeerState.Has, PeerState.Sorted, PeerState.Grouped, Take;
      var gone := DisconnectPeer(state.persistent, matches);
      found := gone.Some?;
    }

    /** Disconnects one matching inbound peer or, if there is none, all matching outbound peers. */
    method DisconnectNode(matches: Peer -> bool) returns (found: bool)
      requires Valid()
      modifies `state, `local, `trace
      ensures Valid()
      ensures found <==> (exists i <- old(state.inbound) :: matches(old(state.inbound)[i]))
                         || (exists i <- old(state.outbound) :: matches(old(state.outbound)[i]))
      ensures !found ==> unchanged(this)
      ensures (exists i <- old(state.inbound) :: matches(old(state.inbound)[i])) ==>
                exists i <- old(state.inbound) :: matches(old(state.inbound)[i]) && Gone(old(state.inbound)[i])
      ensures (forall i <- old(state.inbound) :: !matches(old(state.inbound)[i])) ==>
                && Culled(old(state), state, matches) && (forall i <- state.outbound :: !matches(state.outbound[i]))
                && Cut(old(state), state, old(local), local)
    {
      hide Known, Lives, PeerState.Has, PeerState.Sorted, PeerState.Grouped, Take, PeerState.Count;
      var gone := DisconnectPeer(state.inbound, matches);
      if gone.Some? {
        return true;
      }
      ghost var was, known := state, local;
      CulledNot(state, matches);
      CutNone(state, local);
      gone := DisconnectPeer(state.outbound, matches);
      found := gone.Some?;
      if gone.Some? {
        CulledStep(was, was, gone.value, matches);
        CutStep(was, was, known, known, gone.value, matches);
      }
      while gone.Some?
        invariant Valid() && Culled(was, state, matches) && Cut(was, state, known, local)
        invariant gone.None? ==> forall i <- state.outbound :: !matches(state.outbound[i])
        invariant !found ==> gone.None? && unchanged(this)
        decreases gone.Some?, state.Count()
      {
        ghost var now, mid := state, local;
        gone := DisconnectPeer(state.outbound, matches);
        if gone.Some? {
          CulledStep(was, now, gone.value, matches);
          CutStep(was, now, known, mid, gone.value, matches);
        }
      }
    }
  }

  /** Only matching outbound peers left their table. */
  ghost predicate Culled(was: PeerState, now: PeerState, matches: Peer -> bool) {
    && now.inbound == was.inbound && now.persistent == was.persistent
    && (forall i <- now.outbound :: i in was.outbound && now.outbound[i] == was.outbound[i])
    && (forall i <- was.outbound :: i in now.outbound || matches(was.outbound[i]))
  }

  /** Exactly the outbound peers that left their table lost their connection. */
  ghost predicate Cut(was: PeerState, now: PeerState, before: map<Peer, Local>, after: map<Peer, Local>) {
    && after.Keys == before.Keys
    && forall p <- before ::
         after[p] == if p.id in was.outbound && was.outbound[p.id] == p && p.id !in now.outbound
                     then before[p].(connected := false) else before[p]
  }

  lemma CutNone(t: PeerState, local: map<Peer, Local>)
    ensures Cut(t, t, local, local)
  {
  }

  lemma CutStep(was: PeerState, now: PeerState, before: map<Peer, Local>, after: map<Peer, Local>, p: Peer,
                matches: Peer -> bool)
    requires Cut(was, now, before, after) && Culled(was, now, matches) && now.Sorted()
    requires p.id in now.outbound && now.outbound[p.id] == p && p in after
    ensures Cut(was, Take(now, p), before, after[p := after[p].(connected := false)])
  {
  }

  lemma CulledNot(t: PeerState, matches: Peer -> bool)
    ensures Culled(t, t, matches)
  {
  }

  lemma CulledStep(was: PeerState, now: PeerState, p: Peer, matches: Peer -> bool)
    requires Culled(was, now, matches) && now.Sorted() && p.id in now.outbound && now.outbound[p.id] == p && matches(p)
    ensures Culled(was, Take(now, p), matches)
  {
  }

  lemma Listed(local: map<Peer, Local>, queue: seq<Event>, calls: seq<Call>, state: PeerState, p: Peer)
    requires Known(local, queue, calls, state) && state.Has(p)
    ensures p in local
  {
  }

  /** The table a peer belongs in. */
  function Home(state: PeerState, p: Peer): PeerMap {
    if p.persistent then state.persistent else if p.inbound then state.inbound else state.outbound
  }

  /** The table of a peer without it, and the group count lowered if asked to. */
  function Unlist(state: PeerState, p: Peer, lower: bool): PeerState {
    var groups := if lower then state.groups[p.group := GroupCount(state.groups, p.group) - 1] else state.groups;
    if p.persistent then state.(persistent := state.persistent - {p.id}, groups := groups)
    else if p.inbound then state.(inbound := state.inbound - {p.id}, groups := groups)
    else state.(outbound := state.outbound - {p.id}, groups := groups)
  }

  /** A known peer is listed exactly when its table has its id. */
  lemma InKind(local: map<Peer, Local>, queue: seq<Event>, calls: seq<Call>, state: PeerState, p: Peer)
    requires Known(local, queue, calls, state) && state.Sorted() && p in local
    ensures state.Has(p) <==> p.id in Home(state, p)
    ensures Take(state, p) == Unlist(state, p, !p.inbound)
  {
    if p.id in Home(state, p) {
      assert state.Has(Home(state, p)[p.id]);
    }
  }

  lemma DoneHandled(l: Local, t: Trace, queue: seq<Event>, calls: seq<Call>, p: Peer, listed: bool)
    requires queue != [] && queue[0] == Event(Done, p) && Life(l, t, Pending(queue, p), calls, p, listed)
    ensures listed ==> l.versionKnown
    ensures Life(l, t.(doneHandled := true), Pending(queue[1..], p),
                 if l.peerAdded then calls + [DonePeer(p)] else calls, p, false)
  {
    assert Pending(queue, p)[0] == Done;
    assert Pending(queue, p)[1..] == Pending(queue[1..], p);
  }

  lemma DropStep(local: map<Peer, Local>, trace: map<Peer, Trace>, queue: seq<Event>, calls: seq<Call>,
                 state: PeerState, p: Peer, l: Local, state': PeerState)
    requires Known(local, queue, calls, state) && Lives(local, trace, queue, calls, state) && p in local
    requires l == local[p].(connected := false) && forall q :: state'.Has(q) <==> state.Has(q) && q != p
    ensures p in trace && Known(local[p := l], queue, calls, state')
    ensures Lives(local[p := l], trace[p := trace[p]], queue, calls, state')
  {
    hide Pending, CallsOf, PeerState.Has;
    LifeOf(local, trace, queue, calls, state, p);
    StepOne(local, trace, queue, calls, state, p, l, trace[p], queue, calls, state');
  }

  lemma HeadKnown(local: map<Peer, Local>, queue: seq<Event>, calls: seq<Call>, state: PeerState)
    requires Known(local, queue, calls, state) && queue != []
    ensures queue[0].peer in local && Known(local, queue[1..], calls, state)
  {
  }

  lemma KnownFlags(local: map<Peer, Local>, queue: seq<Event>, calls: seq<Call>, state: PeerState, p: Peer)
    requires Known(local, queue, calls, state) && p in local
    ensures p.inbound ==> !p.persistent
  {
  }

  /** An add event in front means that the peer is not listed and nothing was said about it yet. */
  lemma AddFacts(l: Local, t: Trace, queue: seq<Event>, calls: seq<Call>, p: Peer, listed: bool)
    requires queue != [] && queue[0] == Event(Add, p) && Life(l, t, Pending(queue, p), calls, p, listed)
    ensures !listed && calls == [] && t.addSent && !t.addHandled
  {
    assert Pending(queue, p)[0] == Add;
  }

  lemma AddRefused(l: Local, t: Trace, queue: seq<Event>, calls: seq<Call>, p: Peer, listed: bool)
    requires queue != [] && queue[0] == Event(Add, p) && Life(l, t, Pending(queue, p), calls, p, listed)
    ensures Life(l.(connected := false), t.(addHandled := true), Pending(queue[1..], p), calls, p, listed)
  {
    AddFacts(l, t, queue, calls, p, listed);
    assert Pending(queue, p)[1..] == Pending(queue[1..], p);
  }

  lemma AddAccepted(l: Local, t: Trace, queue: seq<Event>, calls: seq<Call>, p: Peer, listed: bool)
    requires queue != [] && queue[0] == Event(Add, p) && Life(l, t, Pending(queue, p), calls, p, listed)
    ensures Life(l, t.(addHandled := true), Pending(queue[1..], p), [NewPeer(p)], p, true)
  {
    AddFacts(l, t, queue, calls, p, listed);
    assert Pending(queue, p)[1..] == Pending(queue[1..], p);
  }

  /** The handler takes the event in front. */
  lemma PopStep(local: map<Peer, Local>, trace: map<Peer, Trace>, queue: seq<Event>, calls: seq<Call>, state: PeerState,
                p: Peer, l: Local, t: Trace, calls': seq<Call>, state': PeerState)
    requires Known(local, queue, calls, state) && Lives(local, trace, queue, calls, state) && p in local
    requires queue != [] && queue[0].peer == p
    requires calls' == calls || calls' == calls + [NewPeer(p)] || calls' == calls + [DonePeer(p)]
    requires forall q :: q != p ==> (state'.Has(q) <==> state.Has(q))
    requires Life(l, t, Pending(queue[1..], p), CallsOf(calls', p), p, state'.Has(p))
    ensures Known(local[p := l], queue[1..], calls', state')
            && Lives(local[p := l], trace[p := t], queue[1..], calls', state')
  {
    hide Life, CallsOf, PeerState.Has, Lives;
    forall q | q != p
      ensures CallsOf(calls', q) == CallsOf(calls, q)
    {
      if calls' != calls {
        CallsAppend(calls, calls'[|calls|], q);
      }
    }
    StepOne(local, trace, queue, calls, state, p, l, t, queue[1..], calls', state');
  }

  /** What holds in every reachable state: the tables are within the limit, a peer is in at most one
      of them, the group counts are right, and once the done event of a peer is handled, the peer is
      in no table and a NewPeer for it was followed by exactly one DonePeer. */
  lemma Protocol(s: Server, p: Peer, g: string)
    requires s.Valid()
    ensures s.state.Count() <= s.maxPeers
    ensures GroupCount(s.state.groups, g) == |InGroup(s.state.outbound, g)| + |InGroup(s.state.persistent, g)|
    ensures p.id in s.state.inbound && s.state.inbound[p.id] == p ==>
              !(p.id in s.state.outbound && s.state.outbound[p.id] == p)
              && !(p.id in s.state.persistent && s.state.persistent[p.id] == p)
    ensures p.id in s.state.outbound && s.state.outbound[p.id] == p ==>
              !(p.id in s.state.persistent && s.state.persistent[p.id] == p)
    ensures p in s.trace && s.trace[p].doneHandled ==>
              && !s.state.Has(p)
              && (NewPeer(p) in CallsOf(s.calls, p) ==> CallsOf(s.calls, p) == [NewPeer(p), DonePeer(p)])
    ensures p in s.trace && !s.trace[p].doneHandled ==> CallsOf(s.calls, p) == [] || CallsOf(s.calls, p) == [NewPeer(p)]
  {
    hide Pending, CallsOf, Known;
    if p in s.trace {
      var calls := CallsOf(s.calls, p);
      LifeOf(s.local, s.trace, s.queue, s.calls, s.state, p);
      if calls != [] && calls[0] == NewPeer(p) {
        assert calls == [NewPeer(p)] + calls[1..];
      } else {
        assert calls == calls[0..];
      }
    }
  }

  datatype Step =
    | PeerConnects(peer: Peer)
    | VersionArrives(peer: Peer)
    | PeerLeaves(peer: Peer)
    | AddIsSent(peer: Peer)
    | AddIsMarked(peer: Peer)
    | HandshakeFails(peer: Peer)
    | DoneIsSent(peer: Peer)
    | EventIsHandled(unwanted: bool)
    | RemoveQuery(matches: Peer -> bool)
    | DisconnectQuery(matches: Peer -> bool)

  /** Every interleaving of the goroutines, the handler and the queries keeps the state valid. */
  method Run(s: Server, schedule: seq<Step>)
    requires s.Valid()
    modifies s
    ensures s.Valid()
  {
    var i := 0;
    while i < |schedule|
      invariant 0 <= i <= |schedule| && s.Valid()
    {
      if schedule[i].EventIsHandled? || schedule[i].RemoveQuery? || schedule[i].DisconnectQuery? {
        HandlerStep(s, schedule[i]);
      } else {
        PeerStep(s, schedule[i]);
      }
      i := i + 1;
    }
  }

  /** A step outside the handler, if the peer is where the step needs it. */
  method PeerStep(s: Server, step: Step)
    requires s.Valid() && !step.EventIsHandled? && !step.RemoveQuery? && !step.DisconnectQuery?
    modifies s
    ensures s.Valid()
  {
    hide Known, Lives, PeerState.Sorted, PeerState.Grouped;
    var p := step.peer;
    if step.PeerConnects? {
      if (forall q <- s.local :: q.id != p.id) && (p.inbound ==> !p.persistent) {
        s.Connect(p);
      }
    } else if p in s.local {
      var phase := s.local[p].phase;
      if step.VersionArrives? {
        s.Version(p);
      } else if step.PeerLeaves? {
        s.Disconnect(p);
      } else if step.AddIsSent? && phase == Waiting && s.local[p].versionKnown {
        s.SendAdd(p);
      } else if step.AddIsMarked? && phase == AddSent {
        s.MarkAdded(p);
      } else if step.HandshakeFails? && phase == Waiting && !s.local[p].connected {
        s.GiveUp(p);
      } else if step.DoneIsSent? && phase == Settled && !s.local[p].connected {
        s.SendDone(p);
      }
    }
  }

  method HandlerStep(s: Server, step: Step)
    requires s.Valid() && (step.EventIsHandled? || step.RemoveQuery? || step.DisconnectQuery?)
    modifies s
    ensures s.Valid()
  {
    hide Known, Lives, PeerState.Sorted, PeerState.Grouped, Put, Take, PeerState.Has;
    if step.RemoveQuery? {
      var _ := s.RemoveNode(step.matches);
    } else if step.DisconnectQuery? {
      var _ := s.DisconnectNode(step.matches);
    } else if s.queue != [] {
      if s.queue[0].action == Add {
        s.HandleAddPeer(step.unwanted);
      } else {
        s.HandleDonePeer();
      }
    }
  }
}

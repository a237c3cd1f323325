/**
 Connection slots of the notifications gateway. The code of a handler between two awaits is one step,
 and the steps of different sockets, and the drops of sockets, interleave freely.

 `slot` is history, for stating who holds what; no step reads it.
 */
module SocketSlots {
  import opened Wrappers

  /** Which await `handleConnection` is suspended in. */
  datatype Stage = ResolvingSession | Joining(address: string) | Settled

  datatype Slot = NeverTaken | Held(address: string) | Released(address: string)

  datatype Socket = Socket(connected: bool, stage: Stage, dataAddress: Option<string>, slot: Slot)

  type Counters = map<string, nat>

  datatype Gateway = Gateway(connectionsByAddress: Counters, sockets: map<nat, Socket>)

  function Count(c: Counters, address: string): nat { if address in c then c[address] else 0 }

  function ReleaseSlot(c: Counters, address: string): Counters {
    if Count(c, address) <= 1 then c - {address} else c[address := Count(c, address) - 1]
  }

  datatype Action =
    | Connects(id: nat, allowed: bool, hasToken: bool)     // handleConnection up to its first await
    | SessionResolves(id: nat, address: Option<string>)    // up to the join, or to the end
    | SessionThrows(id: nat)
    | JoinSucceeds(id: nat)
    | JoinFails(id: nat)
    | Drops(id: nat)                                       // the client goes away

  predicate Enabled(g: Gateway, a: Action) {
    match a
    case Connects(id, _, _) => id !in g.sockets
    case SessionResolves(id, _) => id in g.sockets && g.sockets[id].stage == ResolvingSession
    case SessionThrows(id) => id in g.sockets && g.sockets[id].stage == ResolvingSession
    case JoinSucceeds(id) => id in g.sockets && g.sockets[id].stage.Joining?
    case JoinFails(id) => id in g.sockets && g.sockets[id].stage.Joining?
    case Drops(id) => id in g.sockets && g.sockets[id].connected
  }

  /** A disconnect event: mark the socket gone and, if it had joined, release its slot. */
  function Disconnect(g: Gateway, id: nat): Gateway
    requires id in g.sockets
  {
    var s := g.sockets[id];
    if !s.connected then g
    else if s.dataAddress.None? then g.(sockets := g.sockets[id := s.(connected := false)])
    else Gateway(ReleaseSlot(g.connectionsByAddress, s.dataAddress.value),
                 g.sockets[id := s.(connected := false, slot := Released(s.dataAddress.value))])
  }

  function WithStage(g: Gateway, id: nat, stage: Stage): Gateway
    requires id in g.sockets
  {
    g.(sockets := g.sockets[id := g.sockets[id].(stage := stage)])
  }

  function TakeSlot(g: Gateway, id: nat, address: string): Gateway
    requires id in g.sockets
  {
    Gateway(g.connectionsByAddress[address := Count(g.connectionsByAddress, address) + 1],
            g.sockets[id := g.sockets[id].(stage := Joining(address), slot := Held(address))])
  }

  function FailJoin(g: Gateway, id: nat, address: string): Gateway
    requires id in g.sockets
  {
    Gateway(ReleaseSlot(g.connectionsByAddress, address),
            g.sockets[id := g.sockets[id].(stage := Settled, slot := Released(address))])
  }

  function Next(g: Gateway, cap: nat, a: Action): Gateway
    requires Enabled(g, a)
  {
    match a
    case Connects(id, allowed, hasToken) =>
      if allowed && hasToken then g.(sockets := g.sockets[id := Socket(true, ResolvingSession, None, NeverTaken)])
      else g.(sockets := g.sockets[id := Socket(false, Settled, None, NeverTaken)])
    case SessionResolves(id, address) =>
      if address.None? || address.value == "" then Disconnect(WithStage(g, id, Settled), id)
      else if !g.sockets[id].connected then WithStage(g, id, Settled)
      else if Count(g.connectionsByAddress, address.value) >= cap then Disconnect(WithStage(g, id, Settled), id)
      else TakeSlot(g, id, address.value)
    case SessionThrows(id) => WithStage(g, id, Settled)
    case JoinSucceeds(id) =>
      g.(sockets := g.sockets[id := g.sockets[id].(stage := Settled, dataAddress := Some(g.sockets[id].stage.address))])
    case JoinFails(id) => Disconnect(FailJoin(g, id, g.sockets[id].stage.address), id)
    case Drops(id) => Disconnect(g, id)
  }

  const Booted := Gateway(map[], map[])

  predicate Runs(g: Gateway, cap: nat, run: seq<Action>)
    decreases |run|
  {
    run == [] || (Enabled(g, run[0]) && Runs(Next(g, cap, run[0]), cap, run[1..]))
  }

  function Exec(g: Gateway, cap: nat, run: seq<Action>): Gateway
    requires Runs(g, cap, run)
    decreases |run|
  {
    if run == [] then g else Exec(Next(g, cap, run[0]), cap, run[1..])
  }

  // ---------------------------------------------------------------- the counter counts slots

  function Holders(g: Gateway, address: string): set<nat> {
    set id | id in g.sockets && g.sockets[id].slot == Held(address)
  }

  /** How a socket's handler, its `client.data.address` and its slot go together. */
  predicate SocketOk(s: Socket) {
    && (s.stage == ResolvingSession ==> s.dataAddress.None? && s.slot == NeverTaken)
    && (s.stage.Joining? ==> s.dataAddress.None? && s.slot == Held(s.stage.address))
    && (s.stage == Settled && s.dataAddress.None? ==> !s.slot.Held?)
    && (s.dataAddress.Some? ==> s.slot == Held(s.dataAddress.value) || s.slot == Released(s.dataAddress.value))
    && (s.dataAddress.Some? && s.connected ==> s.slot.Held?)
  }

  predicate SocketsOk(g: Gateway) { forall id | id in g.sockets :: SocketOk(g.sockets[id]) }

  /** The counter of one address is the number of sockets holding a slot for it; zero is never stored. */
  predicate CounterOk(g: Gateway, cap: nat, address: string) {
    && Count(g.connectionsByAddress, address) == |Holders(g, address)| <= cap
    && (address in g.connectionsByAddress ==> g.connectionsByAddress[address] > 0)
  }

  ghost predicate CountersOk(g: Gateway, cap: nat) { forall address: string :: CounterOk(g, cap, address) }

  ghost predicate Inv(g: Gateway, cap: nat) { SocketsOk(g) && CountersOk(g, cap) }

  /** Changing one socket moves it into or out of an address's holders, and nobody else. */
  lemma HoldersAfter(g: Gateway, id: nat, s: Socket, c: Counters, address: string)
    ensures Holders(Gateway(c, g.sockets[id := s]), address)
         == if s.slot == Held(address) then Holders(g, address) + {id} else Holders(g, address) - {id}
  {}

  lemma SlotUntouched(g: Gateway, cap: nat, id: nat, s: Socket)
    requires CountersOk(g, cap)
    requires forall address :: s.slot == Held(address) <==> id in Holders(g, address)
    ensures CountersOk(g.(sockets := g.sockets[id := s]), cap)
  {
    var g' := g.(sockets := g.sockets[id := s]);
    forall address: string ensures CounterOk(g', cap, address) {
      HoldersAfter(g, id, s, g.connectionsByAddress, address);
      assert CounterOk(g, cap, address);
      assert Holders(g', address) == Holders(g, address);
    }
  }

  lemma SlotTaken(g: Gateway, cap: nat, id: nat, s: Socket, taken: string)
    requires CountersOk(g, cap) && Count(g.connectionsByAddress, taken) < cap
    requires id in g.sockets && !g.sockets[id].slot.Held? && s.slot == Held(taken)
    ensures CountersOk(Gateway(g.connectionsByAddress[taken := Count(g.connectionsByAddress, taken) + 1],
                               g.sockets[id := s]), cap)
  {
    var c := g.connectionsByAddress[taken := Count(g.connectionsByAddress, taken) + 1];
    var g' := Gateway(c, g.sockets[id := s]);
    forall address: string ensures CounterOk(g', cap, address) {
      HoldersAfter(g, id, s, c, address);
      assert CounterOk(g, cap, address);
      assert id !in Holders(g, address);
    }
  }

  lemma SlotReleased(g: Gateway, cap: nat, id: nat, s: Socket, freed: string)
    requires CountersOk(g, cap)
    requires id in g.sockets && g.sockets[id].slot == Held(freed) && !s.slot.Held?
    ensures CountersOk(Gateway(ReleaseSlot(g.connectionsByAddress, freed), g.sockets[id := s]), cap)
  {
    var c := ReleaseSlot(g.connectionsByAddress, freed);
    var g' := Gateway(c, g.sockets[id := s]);
    forall address: string ensures CounterOk(g', cap, address) {
      HoldersAfter(g, id, s, c, address);
      assert CounterOk(g, cap, address);
      assert id in Holders(g, freed);
    }
  }

  lemma DisconnectKeepsInv(g: Gateway, cap: nat, id: nat)
    requires Inv(g, cap) && id in g.sockets
    ensures Inv(Disconnect(g, id), cap)
  {
    var s := g.sockets[id];
    if s.connected {
      if s.dataAddress.Some? {
        SlotReleased(g, cap, id, s.(connected := false, slot := Released(s.dataAddress.value)), s.dataAddress.value);
      } else {
        SlotUntouched(g, cap, id, s.(connected := false));
      }
    }
  }

  lemma SettleKeepsInv(g: Gateway, cap: nat, id: nat)
    requires Inv(g, cap) && id in g.sockets && g.sockets[id].stage == ResolvingSession
    ensures Inv(WithStage(g, id, Settled), cap)
  {
    SlotUntouched(g, cap, id, g.sockets[id].(stage := Settled));
  }

  lemma ResolveKeepsInv(g: Gateway, cap: nat, id: nat, address: Option<string>)
    requires Inv(g, cap) && Enabled(g, SessionResolves(id, address))
    ensures Inv(Next(g, cap, SessionResolves(id, address)), cap)
  {
    var s := g.sockets[id];
    if address.Some? && address.value != "" && s.connected && Count(g.connectionsByAddress, address.value) < cap {
      SlotTaken(g, cap, id, s.(stage := Joining(address.value), slot := Held(address.value)), address.value);
    } else {
      SettleKeepsInv(g, cap, id);
      DisconnectKeepsInv(WithStage(g, id, Settled), cap, id);
    }
  }

  lemma JoinKeepsInv(g: Gateway, cap: nat, id: nat)
    requires Inv(g, cap) && id in g.sockets && g.sockets[id].stage.Joining?
    ensures Inv(Next(g, cap, JoinSucceeds(id)), cap) && Inv(Next(g, cap, JoinFails(id)), cap)
  {
    var s := g.sockets[id];
    var address := s.stage.address;
    SlotUntouched(g, cap, id, s.(stage := Settled, dataAddress := Some(address)));
    SlotReleased(g, cap, id, s.(stage := Settled, slot := Released(address)), address);
    DisconnectKeepsInv(FailJoin(g, id, address), cap, id);
  }

  lemma InvStep(g: Gateway, cap: nat, a: Action)
    requires Inv(g, cap) && Enabled(g, a)
    ensures Inv(Next(g, cap, a), cap)
  {
    match a {
      case Connects(id, allowed, hasToken) =>
        SlotUntouched(g, cap, id, Next(g, cap, a).sockets[id]);
      case SessionResolves(id, address) => ResolveKeepsInv(g, cap, id, address);
      case SessionThrows(id) => SettleKeepsInv(g, cap, id);
      case JoinSucceeds(id) => JoinKeepsInv(g, cap, id);
      case JoinFails(id) => JoinKeepsInv(g, cap, id);
      case Drops(id) => DisconnectKeepsInv(g, cap, id);
    }
  }

  lemma {:induction false} InvOverRun(g: Gateway, cap: nat, run: seq<Action>)
    requires Inv(g, cap) && Runs(g, cap, run)
    ensures Inv(Exec(g, cap, run), cap)
    decreases |run|
  {
    if run != [] {
      InvStep(g, cap, run[0]);
      InvOverRun(Next(g, cap, run[0]), cap, run[1..]);
    }
  }

  lemma InvAtBoot(cap: nat)
    ensures Inv(Booted, cap)
  {
    forall address: string ensures CounterOk(Booted, cap, address) { assert Holders(Booted, address) == {}; }
  }

  // ---------------------------------------------------------------- exactly once, and the leak

  /** A slot moves only from never taken to held to released. */
  predicate SlotAdvances(before: Slot, after: Slot) {
    after == before
    || (before == NeverTaken && after.Held?)
    || (before.Held? && after == Released(before.address))
  }

  /** Each slot is released once at most, for the address it was taken for, and never taken again. */
  lemma SlotsAdvanceEachStep(g: Gateway, cap: nat, a: Action, id: nat)
    requires SocketsOk(g) && Enabled(g, a) && id in g.sockets
    ensures id in Next(g, cap, a).sockets
    ensures SlotAdvances(g.sockets[id].slot, Next(g, cap, a).sockets[id].slot)
  {}

  /** A slot held by a socket that is gone and whose handler has ended: nothing will release it. */
  predicate Leaked(g: Gateway, id: nat) {
    id in g.sockets && g.sockets[id].slot.Held? && !g.sockets[id].connected && g.sockets[id].stage == Settled
  }

  /** The one step that leaks: the join succeeds for a socket that dropped while it was pending. */
  predicate JoinsTheDead(g: Gateway, a: Action, id: nat) {
    a == JoinSucceeds(id) && id in g.sockets && !g.sockets[id].connected
  }

  lemma LeakStep(g: Gateway, cap: nat, a: Action, id: nat)
    requires SocketsOk(g) && Enabled(g, a)
    ensures Leaked(Next(g, cap, a), id) <==> Leaked(g, id) || JoinsTheDead(g, a, id)
  {}

  predicate SometimeJoinsTheDead(g: Gateway, cap: nat, run: seq<Action>, id: nat)
    requires Runs(g, cap, run)
    decreases |run|
  {
    run != [] && (JoinsTheDead(g, run[0], id) || SometimeJoinsTheDead(Next(g, cap, run[0]), cap, run[1..], id))
  }

  /**
   Over every run: a slot leaks exactly when its socket dropped while its join was pending and the
   join then succeeded; once leaked it stays so for ever.
   */
  lemma {:induction false} LeaksIffJoinedAfterDrop(g: Gateway, cap: nat, run: seq<Action>, id: nat)
    requires Inv(g, cap) && Runs(g, cap, run)
    ensures Leaked(Exec(g, cap, run), id) <==> Leaked(g, id) || SometimeJoinsTheDead(g, cap, run, id)
    decreases |run|
  {
    if run != [] {
      InvStep(g, cap, run[0]);
      LeakStep(g, cap, run[0], id);
      LeaksIffJoinedAfterDrop(Next(g, cap, run[0]), cap, run[1..], id);
    }
  }

  /** The sockets of an address that are joining it or in its room. */
  function LiveHolders(g: Gateway, address: string): set<nat> {
    set id | id in g.sockets
          && (g.sockets[id].stage == Joining(address)
              || (g.sockets[id].connected && g.sockets[id].dataAddress == Some(address)))
  }

  /**
   The gateway's promise: unless some join succeeded after its socket's drop, at any moment of any run
   the counter of an address is exactly the number of sockets joining or joined, and at most the cap.
   */
  lemma CounterIsLiveSockets(cap: nat, run: seq<Action>, address: string)
    requires Runs(Booted, cap, run)
    requires forall id: nat :: !SometimeJoinsTheDead(Booted, cap, run, id)
    ensures var g := Exec(Booted, cap, run);
            && Count(g.connectionsByAddress, address) == |LiveHolders(g, address)| <= cap
            && (address in g.connectionsByAddress <==> LiveHolders(g, address) != {})
  {
    var g := Exec(Booted, cap, run);
    InvAtBoot(cap);
    InvOverRun(Booted, cap, run);
    assert CounterOk(g, cap, address);
    HoldersAreLiveOrLeaked(g, address);
    forall id: nat ensures id !in LeakedHolders(g, address) { LeaksIffJoinedAfterDrop(Booted, cap, run, id); }
    assert LiveHolders(g, address) == Holders(g, address);
  }

  /** A resolved session gets a slot exactly when its socket is still open and fewer than `cap` others hold one. */
  lemma SlotGrantedIffRoom(g: Gateway, cap: nat, id: nat, address: string)
    requires Inv(g, cap) && address != "" && Enabled(g, SessionResolves(id, Some(address)))
    ensures Holders(Next(g, cap, SessionResolves(id, Some(address))), address)
         == if g.sockets[id].connected && |Holders(g, address)| < cap
            then Holders(g, address) + {id} else Holders(g, address)
  {
    assert CounterOk(g, cap, address) && SocketOk(g.sockets[id]);
    var g' := Next(g, cap, SessionResolves(id, Some(address)));
    assert g'.sockets == g.sockets[id := g'.sockets[id]];
    HoldersAfter(g, id, g'.sockets[id], g'.connectionsByAddress, address);
  }

  /** Once every socket has gone and every handler has ended, nothing is left in the map. */
  lemma AllSlotsComeBack(cap: nat, run: seq<Action>)
    requires Runs(Booted, cap, run)
    requires forall id: nat :: !SometimeJoinsTheDead(Booted, cap, run, id)
    requires var g := Exec(Booted, cap, run);
             forall id | id in g.sockets :: !g.sockets[id].connected && g.sockets[id].stage == Settled
    ensures Exec(Booted, cap, run).connectionsByAddress == map[]
  {
    var g := Exec(Booted, cap, run);
    forall address: string ensures address !in g.connectionsByAddress {
      CounterIsLiveSockets(cap, run, address);
      assert LiveHolders(g, address) == {};
    }
  }

  function LeakedHolders(g: Gateway, address: string): set<nat> { set id | id in Holders(g, address) && Leaked(g, id) }

  lemma HoldersAreLiveOrLeaked(g: Gateway, address: string)
    requires SocketsOk(g)
    ensures Holders(g, address) == LiveHolders(g, address) + LeakedHolders(g, address)
    ensures LiveHolders(g, address) !! LeakedHolders(g, address)
  {
    forall id: nat
      ensures id in Holders(g, address) <==> id in LiveHolders(g, address) || id in LeakedHolders(g, address)
      ensures !(id in LiveHolders(g, address) && id in LeakedHolders(g, address))
    {
      assert id in g.sockets ==> SocketOk(g.sockets[id]);
    }
  }

  /** In every run, the counter exceeds the live sockets by exactly the leaked ones. */
  lemma CounterIsLivePlusLeaked(cap: nat, run: seq<Action>, address: string)
    requires Runs(Booted, cap, run)
    ensures var g := Exec(Booted, cap, run);
            Count(g.connectionsByAddress, address) == |LiveHolders(g, address)| + |LeakedHolders(g, address)|
  {
    var g := Exec(Booted, cap, run);
    InvAtBoot(cap);
    InvOverRun(Booted, cap, run);
    assert CounterOk(g, cap, address);
    HoldersAreLiveOrLeaked(g, address);
  }

  /** An address whose leaked slots fill the cap is shut out: no later session of its own ever gets a slot. */
  lemma FullOfLeaksShutsOut(g: Gateway, cap: nat, address: string, id: nat)
    requires Inv(g, cap) && Enabled(g, SessionResolves(id, Some(address)))
    requires cap <= |LeakedHolders(g, address)|
    ensures var g' := Next(g, cap, SessionResolves(id, Some(address)));
            && !g'.sockets[id].connected && g'.sockets[id].stage == Settled
            && g'.connectionsByAddress == g.connectionsByAddress
  {
    SubsetSize(LeakedHolders(g, address), Holders(g, address));
    assert CounterOk(g, cap, address);
  }

  lemma {:induction false} SubsetSize(a: set<nat>, b: set<nat>)
    requires a <= b
    ensures |a| <= |b|
  {
    assert b == a + (b - a);
  }

  /** A shortest leaking run: one socket drops between taking its slot and its join. */
  lemma ADropDuringTheJoinLeaks(cap: nat, address: string)
    requires cap >= 1 && address != ""
    ensures var run := [Connects(0, true, true), SessionResolves(0, Some(address)), Drops(0), JoinSucceeds(0)];
            && Runs(Booted, cap, run)
            && Leaked(Exec(Booted, cap, run), 0)
            && Count(Exec(Booted, cap, run).connectionsByAddress, address) == 1
            && LiveHolders(Exec(Booted, cap, run), address) == {}
  {
    var g1 := Next(Booted, cap, Connects(0, true, true));
    var g2 := Next(g1, cap, SessionResolves(0, Some(address)));
    var g3 := Next(g2, cap, Drops(0));
    var g4 := Next(g3, cap, JoinSucceeds(0));
    assert Runs(g4, cap, []) && Runs(g3, cap, [JoinSucceeds(0)]);
    assert Runs(g2, cap, [Drops(0), JoinSucceeds(0)]);
    assert Runs(g1, cap, [SessionResolves(0, Some(address)), Drops(0), JoinSucceeds(0)]);
    assert Exec(g2, cap, [Drops(0), JoinSucceeds(0)]) == g4;
    assert Exec(g1, cap, [SessionResolves(0, Some(address)), Drops(0), JoinSucceeds(0)]) == g4;
  }
}

/** `NotificationsGateway`: the handlers that `SocketSlots` interleaves, on the mutable counter map. */
module NotificationsGateway {
  import opened Wrappers
  import opened SocketSlots

  class SocketGateway {
    const maxConnsPerAddress: nat
    var connectionsByAddress: Counters
    var sockets: map<nat, Socket>

    ghost function State(): Gateway
      reads this
    {
      Gateway(connectionsByAddress, sockets)
    }

    constructor (maxConnsPerAddress: nat)
      ensures this.maxConnsPerAddress == maxConnsPerAddress && State() == Booted
    {
      this.maxConnsPerAddress := maxConnsPerAddress;
      connectionsByAddress, sockets := map[], map[];
    }

    method ReleaseSlot(address: string)
      modifies this`connectionsByAddress
      ensures connectionsByAddress == SocketSlots.ReleaseSlot(old(connectionsByAddress), address)
    {
      var current := if address in connectionsByAddress then connectionsByAddress[address] else 0;
      if current <= 1 {
        connectionsByAddress := connectionsByAddress - {address};
      } else {
        connectionsByAddress := connectionsByAddress[address := current - 1];
      }
    }

    /** The transport closes the socket, if it is open, and fires `handleDisconnect`. */
    method HandleDisconnect(id: nat)
      requires id in sockets
      modifies this
      ensures State() == Disconnect(old(State()), id)
    {
      var client := sockets[id];
      if !client.connected { return; }
      sockets := sockets[id := client.(connected := false)];
      if client.dataAddress.Some? {
        ReleaseSlot(client.dataAddress.value);
        sockets := sockets[id := client.(connected := false, slot := Released(client.dataAddress.value))];
      }
    }

    /** `handleConnection` up to its first await. */
    method HandleConnection(id: nat, allowed: bool, hasToken: bool)
      requires id !in sockets
      modifies this
      ensures State() == Next(old(State()), maxConnsPerAddress, Connects(id, allowed, hasToken))
    {
      sockets := sockets[id := Socket(true, ResolvingSession, None, NeverTaken)];
      if !(allowed && hasToken) {
        sockets := sockets[id := sockets[id].(stage := Settled)];
        HandleDisconnect(id);
        assert sockets == old(sockets)[id := Socket(false, Settled, None, NeverTaken)];
      }
    }

    /** `handleConnection` from the session lookup to the join. */
    method AfterSession(id: nat, address: Option<string>)
      requires Enabled(State(), SessionResolves(id, address))
      modifies this
      ensures State() == Next(old(State()), maxConnsPerAddress, SessionResolves(id, address))
    {
      var client := sockets[id];
      if address == None || address == Some("") {
        sockets := sockets[id := client.(stage := Settled)];
        HandleDisconnect(id);
        return;
      }
      if !client.connected {
        sockets := sockets[id := client.(stage := Settled)];
        return;
      }
      var current := if address.value in connectionsByAddress then connectionsByAddress[address.value] else 0;
      if current >= maxConnsPerAddress {
        sockets := sockets[id := client.(stage := Settled)];
        HandleDisconnect(id);
        return;
      }
      connectionsByAddress := connectionsByAddress[address.value := current + 1];
      sockets := sockets[id := client.(stage := Joining(address.value), slot := Held(address.value))];
    }

    /** `handleConnection` after the join, resolved or rejected. */
    method AfterJoin(id: nat, joined: bool)
      requires id in sockets && sockets[id].stage.Joining?
      modifies this
      ensures State() == Next(old(State()), maxConnsPerAddress, if joined then JoinSucceeds(id) else JoinFails(id))
    {
      var client := sockets[id];
      var address := client.stage.address;
      if joined {
        sockets := sockets[id := client.(stage := Settled, dataAddress := Some(address))];
      } else {
        ReleaseSlot(address);
        sockets := sockets[id := client.(stage := Settled, slot := Released(address))];
        HandleDisconnect(id);
      }
    }
  }
}

/** The sockets a connection keeps to its upstreams, keyed by printed address. */
module Upstreams {
  import opened Options
  import opened Addresses

  class Socket {
    const peer: Address
    var connected: bool

    constructor (address: Address)
      ensures peer == address && !connected
    {
      peer := address;
      connected := false;
    }
  }

  class Connections {
    var upstreams: map<string, Socket>

    /** Every socket is kept under the text of the address it was opened for. */
    ghost predicate Valid()
      reads this
    {
      forall key :: key in upstreams ==> WellFormed(upstreams[key].peer) && key == Print(upstreams[key].peer)
    }

    constructor ()
      ensures Valid() && upstreams == map[]
    {
      upstreams := map[];
    }

    /** The socket for an address: the one kept, if it is still connected, else a new one that is kept in
        its place once connected. It is always a socket opened for that very address, and the sockets of
        all other addresses stay. `created` and `connects` tell what the system calls do. */
    method GetUpstreamSocket(addr: Option<Address>, created: bool, connects: bool) returns (sock: Socket?)
      requires Valid() && (addr.Some? ==> WellFormed(addr.value))
      modifies this
      ensures Valid()
      ensures sock != null ==> addr.Some? && sock.peer == addr.value && sock.connected
      ensures sock == null <==> addr.None? || !(Kept(old(upstreams), addr.value) || (created && connects))
      ensures sock != null ==>
        if Kept(old(upstreams), addr.value) then
          sock == old(upstreams)[Print(addr.value)] && upstreams == old(upstreams)
        else fresh(sock) && upstreams == old(upstreams)[Print(addr.value) := sock]
      ensures sock == null ==> upstreams == old(upstreams)
      ensures forall other :: WellFormed(other) && addr != Some(other) ==>
        (Print(other) in upstreams <==> Print(other) in old(upstreams))
        && (Print(other) in upstreams ==> upstreams[Print(other)] == old(upstreams)[Print(other)])
    {
      if addr.None? {
        return null;
      }
      var key := Print(addr.value);
      if key in upstreams {
        PrintInjective(upstreams[key].peer, addr.value);
        if upstreams[key].connected {
          return upstreams[key];
        }
      }
      if !created {
        return null;
      }
      sock := new Socket(addr.value);
      if !connects {
        return null;
      }
      sock.connected := true;
      upstreams := upstreams[key := sock];
      forall other | WellFormed(other) && Print(other) == key
        ensures other == addr.value
      {
        PrintInjective(other, addr.value);
      }
    }
  }

  /** A connected socket is kept for the address. */
  predicate Kept(upstreams: map<string, Socket>, addr: Address)
    reads upstreams.Values
  {
    Print(addr) in upstreams && upstreams[Print(addr)].connected
  }
}

/** The tables of the simulated network, each call one critical section. */
module Labrpc {
  import opened Options

  class Server {
    var count: nat

    constructor ()
      ensures count == 0
    {
      count := 0;
    }

    /** The part of a dispatch under the server's lock: every incoming RPC is counted, known service or not. */
    method Dispatch()
      modifies this
      ensures count == old(count) + 1
    {
      count := count + 1;
    }
  }

  class Network {
    var reliable: bool
    var ends: set<string>
    var enabled: map<string, bool>
    var servers: map<nat, Server?>
    var connections: map<string, Option<nat>>
    var count: nat
    var bytes: nat

    constructor ()
      ensures reliable && ends == {} && enabled == map[] && servers == map[] && connections == map[]
      ensures count == 0 && bytes == 0
    {
      reliable, ends, enabled, servers, connections := true, {}, map[], map[], map[];
      count, bytes := 0, 0;
    }

    /** `fatal` is the abort on an end name used twice. */
    method MakeEnd(endname: string) returns (fatal: bool)
      modifies this`ends, this`enabled, this`connections
      ensures fatal == (endname in old(ends))
      ensures fatal ==> ends == old(ends) && enabled == old(enabled) && connections == old(connections)
      ensures !fatal ==>
                && ends == old(ends) + {endname}
                && enabled == old(enabled)[endname := false]
                && connections == old(connections)[endname := None]
    {
      if endname in ends { return true; }
      ends := ends + {endname};
      enabled := enabled[endname := false];
      connections := connections[endname := None];
      return false;
    }

    method AddServer(servername: nat, rs: Server)
      modifies this`servers
      ensures servers == old(servers)[servername := rs]
    {
      servers := servers[servername := rs];
    }

    method DeleteServer(servername: nat)
      modifies this`servers
      ensures servers == old(servers)[servername := null]
    {
      servers := servers[servername := null];
    }

    method Connect(endname: string, servername: nat)
      modifies this`connections
      ensures connections == old(connections)[endname := Some(servername)]
    {
      connections := connections[endname := Some(servername)];
    }

    method Enable(endname: string, on: bool)
      modifies this`enabled
      ensures enabled == old(enabled)[endname := on]
    {
      enabled := enabled[endname := on];
    }

    method ReadEndnameInfo(endname: string)
      returns (on: bool, servername: Option<nat>, server: Server?, isReliable: bool)
      ensures on == Lookup(enabled, endname, false)
      ensures servername == Lookup(connections, endname, None)
      ensures server == if servername.Some? then Lookup(servers, servername.value, null) else null
      ensures isReliable == reliable
    {
      on := Lookup(enabled, endname, false);
      servername := Lookup(connections, endname, None);
      server := null;
      if servername.Some? { server := Lookup(servers, servername.value, null); }
      isReliable := reliable;
    }

    /** Dead means disabled, or no longer registered as this very object. */
    method IsServerDead(endname: string, servername: nat, server: Server?) returns (dead: bool)
      ensures !dead <==> Lookup(enabled, endname, false) && Lookup(servers, servername, null) == server
    {
      if !Lookup(enabled, endname, false) || Lookup(servers, servername, null) != server { return true; }
      return false;
    }
  }
}

/** The desired state of a router and the NATS publisher that sends it. */
module Publisher {
  import opened Wrappers
  import opened ExternalPeer
  import opened FipIndex
  import opened RouterStore
  import opened Text

  datatype PrefixAdvertisement = PrefixAdvertisement(prefix: string)

  datatype DesiredState = DesiredState(peers: seq<PeerConfig>, prefixes: seq<PrefixAdvertisement>)

  const EMPTY_STATE := DesiredState([], [])

  function SubjectFor(uuid: string): string {
    "weft.router." + uuid + ".config"
  }

  lemma SubjectForInjective(u: string, v: string)
    requires SubjectFor(u) == SubjectFor(v)
    ensures u == v
  {
    var p, s := |"weft.router."|, |".config"|;
    assert u == SubjectFor(u)[p..|SubjectFor(u)| - s];
    assert v == SubjectFor(v)[p..|SubjectFor(v)| - s];
  }

  /** The host route of an address, or "" when the text is not an address. */
  function SingleHostCIDR(lib: IpLib, ip: string): string {
    match lib.parseAddr(ip)
    case None => ""
    case Some(V4(text)) => text + "/32"
    case Some(V6(text)) => text + "/128"
  }

  /** The routers a weft-router process listens for, with an External that names a peer. */
  predicate Announces(lib: IpLib, r: Router) {
    r.kind == "egress" && r.backend == "gobgp" && ParseExternalPeer(lib, r.external).Some?
  }

  function OperatorRoutes(prefixes: seq<string>): seq<PrefixAdvertisement> {
    seq(|prefixes|, i requires 0 <= i < |prefixes| => PrefixAdvertisement(prefixes[i]))
  }

  function HostRoutes(lib: IpLib, addrs: seq<string>): seq<PrefixAdvertisement> {
    if addrs == [] then []
    else
      var cidr := SingleHostCIDR(lib, addrs[|addrs| - 1]);
      HostRoutes(lib, addrs[..|addrs| - 1]) + if cidr != "" then [PrefixAdvertisement(cidr)] else []
  }

  /** state is the desired state of r when the floating-IP table is t. */
  ghost predicate IsStateFor(lib: IpLib, r: Router, t: Table, state: DesiredState) {
    if Announces(lib, r) then
      && state.peers == [ParseExternalPeer(lib, r.external).value]
      && exists addrs ::
           IsLookup(t, NetSet(r.networks), addrs) &&
             state.prefixes == OperatorRoutes(r.prefixes) + HostRoutes(lib, addrs)
    else state == EMPTY_STATE
  }

  /** The desired state is a function of the router and the table. */
  lemma {:induction false} StateForUnique(lib: IpLib, r: Router, t: Table, a: DesiredState, b: DesiredState)
    requires IsStateFor(lib, r, t, a) && IsStateFor(lib, r, t, b)
    ensures a == b
  {
    if Announces(lib, r) {
      var x :| IsLookup(t, NetSet(r.networks), x) && a.prefixes == OperatorRoutes(r.prefixes) + HostRoutes(lib, x);
      var y :| IsLookup(t, NetSet(r.networks), y) && b.prefixes == OperatorRoutes(r.prefixes) + HostRoutes(lib, y);
      LookupUnique(t, NetSet(r.networks), x, y);
    }
  }

  // ---- The same state as a set of prefixes ----

  ghost function PrefixSet(state: DesiredState): set<string> {
    set p | p in state.prefixes :: p.prefix
  }

  /** The host routes of the active addresses on the router's networks. */
  ghost function FipRoutes(lib: IpLib, networks: seq<string>, t: Table): set<string> {
    set n, a | n in networks && n != "" && a in AddrSet(t, n) && SingleHostCIDR(lib, a) != "" :: SingleHostCIDR(lib, a)
  }

  /** What r should announce: its own prefixes and one host route per active address on its networks. */
  ghost function AnnouncedSet(lib: IpLib, r: Router, t: Table): set<string> {
    (set p | p in r.prefixes) + FipRoutes(lib, r.networks, t)
  }

  lemma {:induction false} HostRoutesSet(lib: IpLib, addrs: seq<string>)
    ensures (set p | p in HostRoutes(lib, addrs) :: p.prefix)
         == set a | a in addrs && SingleHostCIDR(lib, a) != "" :: SingleHostCIDR(lib, a)
  {
    if addrs != [] {
      var init, last := addrs[..|addrs| - 1], addrs[|addrs| - 1];
      HostRoutesSet(lib, init);
      assert addrs == init + [last];
      var cidr := SingleHostCIDR(lib, last);
      var tail := if cidr != "" then [PrefixAdvertisement(cidr)] else [];
      assert HostRoutes(lib, addrs) == HostRoutes(lib, init) + tail;
      assert forall p :: p in HostRoutes(lib, addrs) <==> p in HostRoutes(lib, init) || p in tail;
      assert forall a :: a in addrs <==> a in init || a == last;
      var lhs := set p | p in HostRoutes(lib, addrs) :: p.prefix;
      var lhs0 := set p | p in HostRoutes(lib, init) :: p.prefix;
      var rhs := set a | a in addrs && SingleHostCIDR(lib, a) != "" :: SingleHostCIDR(lib, a);
      assert lhs == lhs0 + (if cidr != "" then {cidr} else {}) by {
        if cidr != "" { assert PrefixAdvertisement(cidr) in HostRoutes(lib, addrs); }
        forall x | x in lhs0 ensures x in lhs {
          var p :| p in HostRoutes(lib, init) && p.prefix == x;
          assert p in HostRoutes(lib, addrs);
        }
      }
      var rhs0 := set a | a in init && SingleHostCIDR(lib, a) != "" :: SingleHostCIDR(lib, a);
      assert rhs == rhs0 + (if cidr != "" then {cidr} else {});
    }
  }

  lemma StatePrefixes(lib: IpLib, r: Router, t: Table, state: DesiredState)
    requires Announces(lib, r) && IsStateFor(lib, r, t, state)
    ensures PrefixSet(state) == AnnouncedSet(lib, r, t)
  {
    var addrs :| IsLookup(t, NetSet(r.networks), addrs) &&
      state.prefixes == OperatorRoutes(r.prefixes) + HostRoutes(lib, addrs);
    LookupAddresses(t, NetSet(r.networks), addrs);
    HostRoutesSet(lib, addrs);
    var own := OperatorRoutes(r.prefixes);
    var fips := set p | p in HostRoutes(lib, addrs) :: p.prefix;
    assert (set p | p in own :: p.prefix) == set p | p in r.prefixes by {
      forall x | x in r.prefixes ensures PrefixAdvertisement(x) in own {
        var i :| 0 <= i < |r.prefixes| && r.prefixes[i] == x;
        assert own[i] == PrefixAdvertisement(x);
      }
    }
    assert forall p :: p in state.prefixes <==> p in own || p in HostRoutes(lib, addrs);
    assert PrefixSet(state) == (set p | p in own :: p.prefix) + fips;
    assert fips == FipRoutes(lib, r.networks, t);
  }

  // ---- What a message says, in terms of the rows and the address library ----

  /** x is the host route of an address: 32 bits wide for IPv4, 128 for IPv6. */
  ghost predicate IsHostRoute(lib: IpLib, a: string, x: string) {
    match lib.parseAddr(a)
    case Some(V4(text)) => x == text + "/32"
    case Some(V6(text)) => x == text + "/128"
    case None => false
  }

  /** x is the host route of a floating IP announced on one of the router's networks. */
  ghost predicate IsFipRoute(lib: IpLib, r: Router, t: Table, x: string) {
    exists u, n, a :: n in r.networks && ActiveAt(t, u, n, a) && IsHostRoute(lib, a, x)
  }

  /** The message names one peer and, as a set, the router's own prefixes and its host routes, and nothing else. */
  ghost predicate SaysAll(lib: IpLib, r: Router, t: Table, state: DesiredState) {
    && |state.peers| == 1 && Shape(lib, TrimSpace(r.external), state.peers[0])
    && forall x :: Mentions(state, x) <==> x in r.prefixes || IsFipRoute(lib, r, t, x)
  }

  ghost predicate Mentions(state: DesiredState, x: string) {
    exists i :: 0 <= i < |state.prefixes| && state.prefixes[i].prefix == x
  }

  /** Who is told what: a gobgp egress router with a usable peer everything, any other router nothing. */
  ghost predicate Tells(lib: IpLib, r: Router, t: Table, state: DesiredState) {
    if r.kind == "egress" && r.backend == "gobgp" && HasPeer(lib, r) then SaysAll(lib, r, t, state)
    else state.peers == [] && state.prefixes == []
  }

  ghost predicate HasPeer(lib: IpLib, r: Router) {
    exists p :: Shape(lib, TrimSpace(r.external), p)
  }

  lemma FipRouteMeaning(lib: IpLib, r: Router, t: Table, x: string)
    ensures x in FipRoutes(lib, r.networks, t) <==> IsFipRoute(lib, r, t, x)
  {
    if x in FipRoutes(lib, r.networks, t) {
      var n, a :| n in r.networks && n != "" && a in AddrSet(t, n) && SingleHostCIDR(lib, a) != ""
        && SingleHostCIDR(lib, a) == x;
      AddrSetMeaning(t, n);
      var u :| ActiveAt(t, u, n, a);
      assert IsHostRoute(lib, a, x);
    }
    if u, n, a :| n in r.networks && ActiveAt(t, u, n, a) && IsHostRoute(lib, a, x) {
      AddrSetMeaning(t, n);
      assert a in AddrSet(t, n) && SingleHostCIDR(lib, a) == x;
    }
  }

  /** The desired state of a router tells exactly that. */
  lemma StateMeaning(lib: IpLib, r: Router, t: Table, state: DesiredState)
    requires Lawful(lib) && IsStateFor(lib, r, t, state)
    ensures Tells(lib, r, t, state)
  {
    forall p ensures ParseExternalPeer(lib, r.external) == Some(p) <==> Shape(lib, TrimSpace(r.external), p) {
      ParseExternalPeerMeaning(lib, r.external, p);
    }
    if Announces(lib, r) {
      var peer := ParseExternalPeer(lib, r.external).value;
      assert Shape(lib, TrimSpace(r.external), peer);
      StatePrefixes(lib, r, t, state);
      forall x ensures Mentions(state, x) <==> x in r.prefixes || IsFipRoute(lib, r, t, x) {
        FipRouteMeaning(lib, r, t, x);
        MentionsSet(state, x);
      }
    }
  }

  lemma MentionsSet(state: DesiredState, x: string)
    ensures Mentions(state, x) <==> x in PrefixSet(state)
  {
    if Mentions(state, x) {
      var i :| 0 <= i < |state.prefixes| && state.prefixes[i].prefix == x;
      assert state.prefixes[i] in state.prefixes;
    }
  }

  class NATS {
    const lib: IpLib
    var fips: Index?                      // null stands for NoopFIPLookup
    var wire: map<string, DesiredState>   // the last message sent on each subject

    constructor (lib: IpLib)
      ensures this.lib == lib && fips == null && wire == map[]
    {
      this.lib := lib;
      fips, wire := null, map[];
    }

    ghost predicate Valid()
      reads this, fips
    {
      fips != null ==> fips.Valid()
    }

    /** The table behind the current lookup; the no-op lookup reads as the empty table. */
    ghost function LookupTable(): Table
      reads this, fips
    {
      if fips == null then map[] else fips.byUUID
    }

    method SetFIPLookup(idx: Index?)
      modifies this`fips
      ensures fips == idx
    {
      fips := idx;
    }

    method StateFor(r: Router) returns (state: DesiredState)
      requires Valid()
      ensures IsStateFor(lib, r, LookupTable(), state)
      ensures Lawful(lib) ==> Tells(lib, r, LookupTable(), state)
    {
      state := DesiredStateFor(r);
      if Lawful(lib) { StateMeaning(lib, r, LookupTable(), state); }
    }

    method DesiredStateFor(r: Router) returns (state: DesiredState)
      requires Valid()
      ensures IsStateFor(lib, r, LookupTable(), state)
    {
      if r.kind != "egress" || r.backend != "gobgp" {
        return EMPTY_STATE;
      }
      var peer := ParseExternalPeer(lib, r.external);
      if peer.None? {
        return EMPTY_STATE;
      }
      var own := OwnPrefixes(r.prefixes);
      var addrs := LookUp(r.networks);
      var prefixes := AppendHostRoutes(own, addrs);
      return DesiredState([peer.value], prefixes);
    }

    static method OwnPrefixes(texts: seq<string>) returns (prefixes: seq<PrefixAdvertisement>)
      ensures prefixes == OperatorRoutes(texts)
    {
      prefixes := [];
      for i := 0 to |texts|
        invariant prefixes == OperatorRoutes(texts)[..i]
      {
        prefixes := prefixes + [PrefixAdvertisement(texts[i])];
      }
    }

    /** The current lookup; the no-op one finds nothing. */
    method LookUp(networks: seq<string>) returns (addrs: seq<string>)
      requires Valid()
      ensures IsLookup(LookupTable(), NetSet(networks), addrs)
    {
      if fips == null {
        assert ActiveOver(map[], NetSet(networks)) == {};
        return [];
      }
      addrs := fips.ActiveFIPsInNetworks(networks);
    }

    /** One host route per looked-up address, after the router's own prefixes. */
    method AppendHostRoutes(own: seq<PrefixAdvertisement>, addrs: seq<string>)
      returns (prefixes: seq<PrefixAdvertisement>)
      ensures prefixes == own + HostRoutes(lib, addrs)
    {
      prefixes := own;
      for i := 0 to |addrs|
        invariant prefixes == own + HostRoutes(lib, addrs[..i])
      {
        assert addrs[..i + 1][..i] == addrs[..i];
        var cidr := SingleHostCIDR(lib, addrs[i]);
        if cidr != "" {
          prefixes := prefixes + [PrefixAdvertisement(cidr)];
        }
      }
      assert addrs[..|addrs|] == addrs;
    }

    /** Sends the desired state, unless there is nothing to act on. */
    method Publish(r: Router)
      requires Valid()
      modifies this`wire
      ensures forall s :: s != SubjectFor(r.uuid) ==>
        (s in wire <==> s in old(wire)) && (s in wire ==> wire[s] == old(wire)[s])
      ensures Announces(lib, r) ==>
        SubjectFor(r.uuid) in wire && IsStateFor(lib, r, LookupTable(), wire[SubjectFor(r.uuid)])
      ensures !Announces(lib, r) ==> wire == old(wire)
      ensures Lawful(lib) && r.kind == "egress" && r.backend == "gobgp" && HasPeer(lib, r) ==>
        var subject := "weft.router." + r.uuid + ".config";
        subject in wire && Tells(lib, r, LookupTable(), wire[subject])
      ensures Lawful(lib) && !(r.kind == "egress" && r.backend == "gobgp" && HasPeer(lib, r)) ==> wire == old(wire)
    {
      var state := StateFor(r);
      if |state.peers| == 0 && |state.prefixes| == 0 {
        return;
      }
      wire := wire[SubjectFor(r.uuid) := state];
    }

    method Withdraw(uuid: string)
      modifies this`wire
      ensures wire == old(wire)[SubjectFor(uuid) := EMPTY_STATE]
      ensures
        var subject := "weft.router." + uuid + ".config";
        subject in wire && wire[subject].peers == [] && wire[subject].prefixes == []
    {
      wire := wire[SubjectFor(uuid) := EMPTY_STATE];
    }
  }
}

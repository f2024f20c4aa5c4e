/** The Router.External string: a bare peer address, or an ASN and an address joined by a colon. */
module ExternalPeer {
  import opened Wrappers
  import opened Text

  datatype PeerConfig = PeerConfig(address: string, remoteASN: nat)

  /**
   The address library calls the code relies on: ParseIP accepts a text or not, ParseAddr also tells the
   family and the canonical text.
   */
  datatype Addr = V4(text: string) | V6(text: string)

  datatype IpLib = IpLib(parseIP: string -> bool, parseAddr: string -> Option<Addr>)

  const ASN_BOUND := 0x1_0000_0000

  function ParseExternalPeer(lib: IpLib, external: string): Option<PeerConfig> {
    ParseTrimmed(lib, TrimSpace(external))
  }

  function ParseTrimmed(lib: IpLib, s: string): Option<PeerConfig> {
    if s == "" then None
    else
      var i := LastIndex(s, ':');
      if i >= 0 then
        if lib.parseIP(s) then Some(PeerConfig(s, 0))
        else
          match ParseUint(s[..i], ASN_BOUND)
          case None => None
          case Some(asn) => if lib.parseIP(s[i + 1..]) then Some(PeerConfig(s[i + 1..], asn)) else None
      else if lib.parseIP(s) then Some(PeerConfig(s, 0))
      else None
  }

  // ---- Address text ----

  /** One dotted-quad field: 0 to 255 with no leading zero. */
  predicate IsOctet(s: string) {
    1 <= |s| <= 3 && AllDigits(s) && (|s| > 1 ==> s[0] != '0') && Value(s) <= 255
  }

  ghost predicate IsIPv4(s: string) {
    exists a, b, c, d :: IsOctet(a) && IsOctet(b) && IsOctet(c) && IsOctet(d) && s == Quad(a, b, c, d)
  }

  function Quad(a: string, b: string, c: string, d: string): string {
    a + "." + b + "." + c + "." + d
  }

  predicate Plain(c: char) {
    c != ':' && !IsSpace(c)
  }

  lemma QuadChars(a: string, b: string, c: string, d: string)
    requires IsOctet(a) && IsOctet(b) && IsOctet(c) && IsOctet(d)
    ensures Quad(a, b, c, d) != "" && forall i :: 0 <= i < |Quad(a, b, c, d)| ==> Plain(Quad(a, b, c, d)[i])
  {
    forall ch | IsDigit(ch) || ch == '.' ensures Plain(ch) {}
    assert forall i :: 0 <= i < |a| ==> IsDigit(a[i]);
    assert forall i :: 0 <= i < |Quad(a, b, c, d)| ==> IsDigit(Quad(a, b, c, d)[i]) || Quad(a, b, c, d)[i] == '.';
  }

  lemma IPv4Chars(s: string)
    requires IsIPv4(s)
    ensures s != "" && NoSpace(s) && forall i :: 0 <= i < |s| ==> s[i] != ':'
  {
    var a, b, c, d :| IsOctet(a) && IsOctet(b) && IsOctet(c) && IsOctet(d) && s == Quad(a, b, c, d);
    QuadChars(a, b, c, d);
    assert forall i :: 0 <= i < |s| ==> Plain(s[i]);
  }

  ghost predicate TwoColons(s: string) {
    exists i, j :: 0 <= i < j < |s| && s[i] == s[j] == ':'
  }

  /**
   What address text looks like (RFC 4291, section 2.2): without a colon it is a dotted quad; with one, it has
   at least two. No address contains white space or is empty. Every dotted quad is an address.
   */
  ghost predicate AddressLaw(lib: IpLib, s: string) {
    && (IsIPv4(s) ==> lib.parseIP(s))
    && (lib.parseIP(s) ==> s != "" && NoSpace(s) && (if ':' in s then TwoColons(s) else IsIPv4(s)))
  }

  ghost predicate Lawful(lib: IpLib) {
    forall s {:trigger AddressLaw(lib, s)} :: AddressLaw(lib, s)
  }

  /** The laws can be met: the library that knows IPv4 only meets them. */
  lemma LawsAreConsistent()
    ensures exists lib :: Lawful(lib)
  {
    ghost var lib := IpLib(s => IsIPv4(s), s => None);
    forall s ensures AddressLaw(lib, s) {
      if IsIPv4(s) { IPv4Chars(s); }
    }
    assert Lawful(lib);
  }

  /** `<asn>:<peer>` with exactly the peer's text after the colon. */
  function Joined(asnText: string, peer: string): string {
    asnText + ":" + peer
  }

  /** The text is an ASN, a colon and an IPv4 address that together give p. */
  ghost predicate JoinedForm(s: string, p: PeerConfig) {
    exists asnText: string ::
      && s == Joined(asnText, p.address) && IsIPv4(p.address)
      && asnText != "" && AllDigits(asnText) && Value(asnText) == p.remoteASN < 0x1_0000_0000
  }

  lemma JoinedFormWitness(s: string, p: PeerConfig, asnText: string)
    requires s == Joined(asnText, p.address) && IsIPv4(p.address)
    requires asnText != "" && AllDigits(asnText) && Value(asnText) == p.remoteASN < 0x1_0000_0000
    ensures JoinedForm(s, p)
  {}

  lemma JoinedColon(asnText: string, peer: string)
    requires AllDigits(asnText) && forall i :: 0 <= i < |peer| ==> peer[i] != ':'
    ensures forall i :: 0 <= i < |Joined(asnText, peer)| && Joined(asnText, peer)[i] == ':' ==> i == |asnText|
    ensures LastIndex(Joined(asnText, peer), ':') == |asnText|
    ensures Joined(asnText, peer)[..|asnText|] == asnText && Joined(asnText, peer)[|asnText| + 1..] == peer
  {
    var s := Joined(asnText, peer);
    assert s[|asnText|] == ':';
    forall i | 0 <= i < |s| && i != |asnText| ensures s[i] != ':' {
      if i < |asnText| { assert IsDigit(asnText[i]); } else { assert s[i] == peer[i - |asnText| - 1]; }
    }
  }

  lemma JoinedFormParses(lib: IpLib, s: string, p: PeerConfig)
    requires Lawful(lib) && JoinedForm(s, p)
    ensures !lib.parseIP(s) && s != "" && LastIndex(s, ':') >= 0
    ensures ParseUint(s[..LastIndex(s, ':')], ASN_BOUND) == Some(p.remoteASN)
    ensures s[LastIndex(s, ':') + 1..] == p.address && lib.parseIP(p.address)
  {
    var asnText: string :|
      && s == Joined(asnText, p.address) && IsIPv4(p.address)
      && asnText != "" && AllDigits(asnText) && Value(asnText) == p.remoteASN < 0x1_0000_0000;
    IPv4Chars(p.address);
    JoinedColon(asnText, p.address);
    assert s[|asnText|] == ':';
    assert AddressLaw(lib, s) && AddressLaw(lib, p.address);
  }

  /** What the colon-split branch accepts after the last colon has no colon, so it is IPv4. */
  lemma PeerIsIPv4(lib: IpLib, s: string)
    requires Lawful(lib) && LastIndex(s, ':') >= 0 && lib.parseIP(s[LastIndex(s, ':') + 1..])
    ensures IsIPv4(s[LastIndex(s, ':') + 1..])
  {
    assert AddressLaw(lib, s[LastIndex(s, ':') + 1..]);
    assert ':' !in s[LastIndex(s, ':') + 1..];
  }

  lemma SplitIsJoined(s: string, i: int, p: PeerConfig)
    requires i == LastIndex(s, ':') >= 0
    requires ParseUint(s[..i], ASN_BOUND) == Some(p.remoteASN)
    requires s[i + 1..] == p.address && IsIPv4(p.address)
    ensures JoinedForm(s, p)
  {
    assert s == Joined(s[..i], p.address);
    JoinedFormWitness(s, p, s[..i]);
  }

  /** The two accepted shapes of trimmed text and what each means. */
  ghost predicate Shape(lib: IpLib, s: string, p: PeerConfig) {
    (lib.parseIP(s) && p == PeerConfig(s, 0)) || JoinedForm(s, p)
  }

  lemma AcceptedShape(lib: IpLib, s: string, p: PeerConfig)
    requires Lawful(lib) && ParseTrimmed(lib, s) == Some(p)
    ensures Shape(lib, s, p)
  {
    if !lib.parseIP(s) {
      PeerIsIPv4(lib, s);
      SplitIsJoined(s, LastIndex(s, ':'), p);
    }
  }

  lemma ShapeAccepted(lib: IpLib, s: string, p: PeerConfig)
    requires Lawful(lib) && Shape(lib, s, p)
    ensures ParseTrimmed(lib, s) == Some(p)
  {
    assert AddressLaw(lib, s);
    if JoinedForm(s, p) {
      JoinedFormParses(lib, s, p);
    }
  }

  /**
   The parser accepts exactly two shapes of trimmed text and gives each its meaning: a bare address, unchanged
   and with ASN 0, or a 32-bit ASN and an IPv4 address around one colon.
   */
  lemma ParseExternalPeerMeaning(lib: IpLib, external: string, p: PeerConfig)
    requires Lawful(lib)
    ensures ParseExternalPeer(lib, external) == Some(p) <==> Shape(lib, TrimSpace(external), p)
  {
    var s := TrimSpace(external);
    if ParseExternalPeer(lib, external) == Some(p) {
      AcceptedShape(lib, s, p);
    }
    if Shape(lib, s, p) {
      ShapeAccepted(lib, s, p);
    }
  }

  /** Printing an ASN and an IPv4 address and parsing them back recovers both, for every 32-bit ASN. */
  lemma ExternalPeerRoundTrip(lib: IpLib, asn: nat, ip: string)
    requires Lawful(lib) && asn < 0x1_0000_0000 && IsIPv4(ip)
    ensures ParseExternalPeer(lib, Joined(Decimal(asn), ip)) == Some(PeerConfig(ip, asn))
  {
    var s := Joined(Decimal(asn), ip);
    ValueOfDecimal(asn);
    IPv4Chars(ip);
    JoinedFormWitness(s, PeerConfig(ip, asn), Decimal(asn));
    forall i | 0 <= i < |s| ensures !IsSpace(s[i]) {
      if i < |Decimal(asn)| { assert IsDigit(s[i]); }
    }
    TrimSpaceIdentity(s);
    ParseExternalPeerMeaning(lib, s, PeerConfig(ip, asn));
  }

  /** Any bare valid address, of either family, comes back unchanged with ASN 0. */
  lemma BareAddressUnchanged(lib: IpLib, ip: string)
    requires Lawful(lib) && lib.parseIP(ip)
    ensures ParseExternalPeer(lib, ip) == Some(PeerConfig(ip, 0))
  {
    assert AddressLaw(lib, ip);
    TrimSpaceIdentity(ip);
    ParseExternalPeerMeaning(lib, ip, PeerConfig(ip, 0));
  }
}

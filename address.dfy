/** The 6-byte endpoint `Address` and its packing as (id, port): the id is the `int`
    stored at bytes 0..4 and the port the `short` stored at bytes 4..6. */
module Addresses {
  import opened Wire

  const AddressSize: nat := 6

  type Address = a: seq<byte> | |a| == AddressSize witness [0, 0, 0, 0, 0, 0]

  /** The all-zero sentinel address. */
  const NullAddr: Address := [0, 0, 0, 0, 0, 0]

  /** Packs an id and a port into an address (`getAddressFromIPAndPort`). */
  function GetAddressFromIPAndPort(ip: int, port: int): Address
  {
    IntBytes(ip) + ShortBytes(port)
  }

  /** The id `addOrUpdateMember` reads out of an address. */
  function IdOf(a: Address): (id: int)
    ensures IsInt(id)
  {
    Signed(a[..IntSize])
  }

  /** The port `addOrUpdateMember` reads out of an address (a `short`, sign-extended). */
  function PortOf(a: Address): (port: int)
    ensures IsShort(port)
  {
    Signed(a[IntSize..])
  }

  /** Packing a representable (id, port) and reading the two fields back gives them back. */
  lemma AddressRoundTrip(ip: int, port: int)
    requires IsInt(ip) && IsShort(port)
    ensures IdOf(GetAddressFromIPAndPort(ip, port)) == ip
    ensures PortOf(GetAddressFromIPAndPort(ip, port)) == port
  {
    var a := GetAddressFromIPAndPort(ip, port);
    assert a[..IntSize] == IntBytes(ip);
    assert a[IntSize..] == ShortBytes(port);
    BytesRoundTrip(ip, IntSize);
    BytesRoundTrip(port, ShortSize);
  }

  /** Every address is the packing of its own id and port: the packing is a bijection. */
  lemma AddressOfParts(a: Address)
    ensures GetAddressFromIPAndPort(IdOf(a), PortOf(a)) == a
  {
    SignedRoundTrip(a[..IntSize]);
    SignedRoundTrip(a[IntSize..]);
    assert a[..IntSize] + a[IntSize..] == a;
  }

  /** Comparing packed addresses is comparing (id, port) keys. */
  lemma AddressMatchesKey(id: int, port: int, a: Address)
    requires IsInt(id) && IsShort(port)
    ensures GetAddressFromIPAndPort(id, port) == a <==> id == IdOf(a) && port == PortOf(a)
  {
    AddressRoundTrip(id, port);
    AddressOfParts(a);
  }

  /** `isNullAddress`: all six bytes are zero. */
  predicate IsNullAddress(a: Address)
  {
    a == NullAddr
  }

  /** The null address is exactly the packing of id 0 and port 0. */
  lemma NullAddressIsZeroKey(a: Address)
    ensures IsNullAddress(a) <==> IdOf(a) == 0 && PortOf(a) == 0
  {
    assert NullAddr == GetAddressFromIPAndPort(0, 0);
    AddressMatchesKey(0, 0, a);
  }

  /** `getJoinAddress`: the introducer is id 1, port 0. */
  function GetJoinAddress(): (a: Address)
    ensures IdOf(a) == 1 && PortOf(a) == 0
    ensures !IsNullAddress(a)
  {
    AddressRoundTrip(1, 0);
    NullAddressIsZeroKey(GetAddressFromIPAndPort(1, 0));
    GetAddressFromIPAndPort(1, 0)
  }
}

/**
  The network addresses that the driver keys its NAT2.5 database with, and their hash.
 */
module Nat25Address {
  import opened Nat25Spec
  import opened Nat25

  const MAX_NETWORK_ADDR_LEN := 17

  /** A network address: a protocol tag followed by that protocol's own address. */
  type NetAddr = a: seq<Byte> | |a| == MAX_NETWORK_ADDR_LEN
    witness seq(MAX_NETWORK_ADDR_LEN, _ => 0 as Byte)

  const NAT25_IPV4: Byte := 1
  const NAT25_IPV6: Byte := 2
  const NAT25_IPX: Byte := 3
  const NAT25_APPLE: Byte := 4
  const NAT25_PPPOE: Byte := 5

  function Xor(s: seq<Byte>): Byte {
    if s == [] then 0 else s[0] ^ Xor(s[1..])
  }

  /** The bytes of a network address that its protocol hashes. */
  function HashedPart(a: NetAddr): seq<Byte> {
    if a[0] == NAT25_IPV4 then a[7..11]
    else if a[0] == NAT25_IPX then a[1..11]
    else if a[0] == NAT25_APPLE then a[1..4]
    else if a[0] == NAT25_PPPOE then a[0..9]
    else if a[0] == NAT25_IPV6 then a[1..17]
    else a
  }

  /** `__nat25_network_hash`. */
  function Hash(a: NetAddr): (h: nat)
    ensures h < NAT25_HASH_SIZE
  {
    (Xor(HashedPart(a)) & 0x0F) as nat
  }

  /** The driver's own table. */
  method NewBridge(ck: Clock) returns (b: Bridge<NetAddr>)
    requires ck.Ok()
    ensures fresh(b) && b.Valid() && b.db == map[] && b.Held() == Unset(NO_MAC, NO_IP) && b.ck == ck
    ensures forall a :: b.h(a) == Hash(a)
  {
    b := new Bridge(ck, a => Hash(a));
  }
}

/** The table of attached networks, class AddressData of rest_router.py. */
module AddressTable {
  import opened Bits
  import opened Options
  import opened Seqs
  import opened Ipv4

  datatype Address = Address(id: nat, nw: Ip, len: nat, gw: Ip)

  function NetOf(a: Address): Net {
    (a.nw, a.len)
  }

  /** The dictionary, keyed by the text of the network address and prefix length */
  type Addresses = map<Net, Address>

  /** An entry is filed under its network, which is that of its gateway address. */
  ghost predicate EntryOk(key: Net, a: Address) {
    key == NetOf(a) && a.len <= 32 && InNet(a.gw, key)
  }

  ghost predicate Apart(a: Net, b: Net)
    requires a.1 <= 32 && b.1 <= 32
  {
    forall x :: !(InNet(x, a) && InNet(x, b))
  }

  /** Registered networks are pairwise disjoint sets of addresses, and no two have one id. */
  ghost predicate TableOk(t: Addresses, nextId: nat) {
    && (forall k :: k in t ==> EntryOk(k, t[k]) && 1 <= t[k].id < nextId)
    && (forall j, k :: j in t && k in t && j != k ==> Apart(j, k) && t[j].id != t[k].id)
  }

  /** The two gateway tests of AddressData.add */
  predicate GatewayTests(other: Address, gw: Ip, len: nat)
    requires other.len <= 32 && len <= 32
  {
    other.nw == ApplyMask(gw, other.len) || ApplyMask(gw, len) == ApplyMask(other.gw, len)
  }

  /** The gateway tests find an overlap exactly when the networks have an address in common. */
  lemma TestsAreExact(other: Address, gw: Ip, len: nat)
    requires other.len <= 32 && len <= 32 && InNet(other.gw, NetOf(other))
    ensures GatewayTests(other, gw, len) <==> !Apart(NetOf(other), (ApplyMask(gw, len), len))
  {
    hide ApplyMask;
    var a, b := NetOf(other), (ApplyMask(gw, len), len);
    if other.nw == ApplyMask(gw, other.len) {
      assert InNet(gw, a) && InNet(gw, b);
    }
    if ApplyMask(gw, len) == ApplyMask(other.gw, len) {
      assert InNet(other.gw, a) && InNet(other.gw, b);
    }
    if !Apart(a, b) {
      var x :| InNet(x, a) && InNet(x, b);
      if a.1 <= b.1 {
        Nested(a, b, x, gw);
      } else {
        Nested(b, a, x, other.gw);
      }
    }
  }

  /** An address is in at most one registered network. */
  lemma AtMostOne(t: Addresses, nextId: nat, ip: Ip, j: Net, k: Net)
    requires TableOk(t, nextId) && j in t && k in t && j.1 <= 32 && k.1 <= 32 && InNet(ip, j) && InNet(ip, k)
    ensures j == k
  {
    assert j != k ==> Apart(j, k);
  }

  /** The entry that get_data(ip) finds: there is at most one, so the order of the dictionary is immaterial. */
  ghost predicate Finds(t: Addresses, ip: Ip, r: Option<Address>) {
    match r
    case None => forall k :: k in t && k.1 <= 32 ==> !InNet(ip, k)
    case Some(a) => NetOf(a) in t && t[NetOf(a)] == a && a.len <= 32 && InNet(ip, NetOf(a))
  }

  lemma FindsIsUnique(t: Addresses, nextId: nat, ip: Ip, r: Option<Address>, r': Option<Address>)
    requires TableOk(t, nextId) && Finds(t, ip, r) && Finds(t, ip, r')
    ensures r == r'
  {
    hide InNet;
    if r.Some? && r'.Some? {
      AtMostOne(t, nextId, ip, NetOf(r.value), NetOf(r'.value));
    }
  }

  /** The address is in an attached network. */
  ghost predicate Attached(t: Addresses, ip: Ip) {
    exists k :: k in t && k.1 <= 32 && InNet(ip, k)
  }

  ghost predicate SameNet(t: Addresses, a: Ip, b: Ip) {
    exists k :: k in t && k.1 <= 32 && InNet(a, k) && InNet(b, k)
  }

  /** The address is one of the router's own. */
  ghost predicate IsOwn(t: Addresses, ip: Ip) {
    exists k :: k in t && t[k].gw == ip
  }

  /** The network of the gateway address has no address in common with a registered one. */
  ghost predicate Fits(t: Addresses, gw: Ip, netmask: nat)
    requires netmask <= 32
  {
    forall k :: k in t ==> k.1 <= 32 && Apart(k, (ApplyMask(gw, netmask), netmask))
  }

  function NewAddress(id: nat, gw: Ip, netmask: nat): Address
    requires netmask <= 32
  {
    Address(id, ApplyMask(gw, netmask), netmask, gw)
  }

  datatype AddResult = Added(address: Address) | Overlaps(id: nat) | IllegalNetmask

  /** The counter after handing out an id: it wraps at 32 bits and skips the default id 0. */
  function NextId(id: nat): nat {
    var n := And(id + 1, UINT32_MAX);
    if n == 0 then 1 else n
  }

  lemma NextIdSmall(id: nat)
    requires id < UINT32_MAX
    ensures NextId(id) == id + 1
  {
    WordSize();
    AndLowMask(id + 1, 32);
    QuotientRemainder(id + 1, Pow2(32), 0, id + 1);
  }

  class AddressData {
    var entries: Addresses
    var addressId: nat

    ghost predicate Valid()
      reads this
    {
      addressId >= 1 && TableOk(entries, addressId)
    }

    constructor ()
      ensures Valid() && entries == map[] && addressId == 1
    {
      entries := map[];
      addressId := 1;
    }

    /** add: register the network of a gateway address, unless it has an address in common with a
        registered one. */
    method Add(gw: Ip, netmask: int) returns (r: AddResult)
      requires Valid() && addressId < UINT32_MAX
      modifies this
      ensures Valid()
      ensures r == IllegalNetmask <==> !(0 <= netmask <= 32)
      ensures !r.Added? ==> entries == old(entries) && addressId == old(addressId)
      ensures r.Overlaps? ==>
        (exists k :: k in entries && entries[k].id == r.id && k.1 <= 32 && !Apart(k, (ApplyMask(gw, netmask), netmask)))
      ensures r.Added? ==>
        && Fits(old(entries), gw, netmask)
        && r.address == NewAddress(old(addressId), gw, netmask)
        && entries == old(entries)[NetOf(r.address) := r.address]
        && addressId == old(addressId) + 1
    {
      hide ApplyMask, Apart;
      if !(0 <= netmask <= 32) {
        return IllegalNetmask;
      }
      var nw := ApplyMask(gw, netmask);
      var key: Net := (nw, netmask);
      var keys := Enumerate(entries.Keys);
      for i := 0 to |keys|
        invariant entries == old(entries) && addressId == old(addressId)
        invariant forall j :: 0 <= j < i ==> keys[j].1 <= 32 && Apart(keys[j], key)
      {
        assert keys[i] in keys;
        var other := entries[keys[i]];
        assert EntryOk(keys[i], other);
        TestsAreExact(other, gw, netmask);
        if GatewayTests(other, gw, netmask) {
          return Overlaps(other.id);
        }
      }
      forall k | k in entries ensures k.1 <= 32 && Apart(k, key) {
        assert k in keys;
      }
      var address := Address(addressId, nw, netmask, gw);
      AddKeepsTable(entries, addressId, address);
      NextIdSmall(addressId);
      entries := entries[key := address];
      addressId := NextId(addressId);
      return Added(address);
    }

    method GetByIp(ip: Ip) returns (r: Option<Address>)
      requires Valid()
      ensures Finds(entries, ip, r)
      ensures r.Some? <==> exists k :: k in entries && k.1 <= 32 && InNet(ip, k)
      ensures r.Some? ==> exists k :: k in entries && k.1 <= 32 && InNet(ip, k) && entries[k] == r.value
    {
      hide ApplyMask;
      var keys := Enumerate(entries.Keys);
      for i := 0 to |keys|
        invariant forall j :: 0 <= j < i ==> keys[j].1 <= 32 && !InNet(ip, keys[j])
      {
        assert keys[i] in keys;
        var a := entries[keys[i]];
        assert EntryOk(keys[i], a);
        if ApplyMask(ip, a.len) == a.nw {
          return Some(a);
        }
      }
      forall k | k in entries ensures k.1 <= 32 && !InNet(ip, k) {
        assert k in keys;
      }
      return None;
    }

    method GetById(id: nat) returns (r: Option<Address>)
      requires Valid()
      ensures r.None? ==> forall k :: k in entries ==> entries[k].id != id
      ensures r.Some? ==> NetOf(r.value) in entries && entries[NetOf(r.value)] == r.value && r.value.id == id
    {
      hide InNet, Apart;
      var keys := Enumerate(entries.Keys);
      for i := 0 to |keys|
        invariant forall j :: 0 <= j < i ==> entries[keys[j]].id != id
      {
        assert keys[i] in keys;
        if entries[keys[i]].id == id {
          assert EntryOk(keys[i], entries[keys[i]]);
          return Some(entries[keys[i]]);
        }
      }
      forall k | k in entries ensures entries[k].id != id {
        assert k in keys;
      }
      return None;
    }

    /** delete: remove the entry with this id, if there is one. */
    method Delete(id: nat)
      requires Valid()
      modifies this
      ensures Valid() && addressId == old(addressId)
      ensures entries == map k | k in old(entries) && old(entries)[k].id != id :: old(entries)[k]
    {
      hide InNet, Apart;
      var r := GetById(id);
      if r.Some? {
        entries := entries - {NetOf(r.value)};
      }
    }
  }

  lemma AddKeepsTable(t: Addresses, nextId: nat, a: Address)
    requires TableOk(t, nextId) && nextId >= 1 && a.id == nextId && EntryOk(NetOf(a), a)
    requires forall k :: k in t ==> k.1 <= 32 && Apart(k, NetOf(a))
    ensures TableOk(t[NetOf(a) := a], nextId + 1)
  {
    hide InNet;
    var t', n := t[NetOf(a) := a], NetOf(a);
    forall j, k | j in t' && k in t' && j != k
      ensures j.1 <= 32 && k.1 <= 32 && Apart(j, k) && t'[j].id != t'[k].id
    {
      if j == n {
        ApartSymmetric(k, j);
      }
    }
  }

  lemma ApartSymmetric(a: Net, b: Net)
    requires a.1 <= 32 && b.1 <= 32 && Apart(a, b)
    ensures Apart(b, a)
  {
  }
}

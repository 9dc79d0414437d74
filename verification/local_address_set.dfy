/** The local-address list: which interface prefixes count as local to the host and are kept out of
    redirection. Setup and the incremental update both compute it with this one definition. */
module LocalAddressSet {
  import opened Types

  /** netip.Addr.IsGlobalUnicast, left uninterpreted. */
  type Classifier = Addr -> bool

  /** A prefix is local when its interface is the loopback "lo" or its address is global unicast. */
  predicate IsLocal(ifname: string, p: Prefix, isGlobalUnicast: Classifier)
  {
    ifname == "lo" || isGlobalUnicast(p.addr)
  }

  /** The local prefixes of one interface, in the interface's own order; on the loopback, all of them. */
  function LocalPrefixes(ifname: string, prefixes: seq<Prefix>, isGlobalUnicast: Classifier): (kept: seq<Prefix>)
    ensures ifname == "lo" ==> kept == prefixes
  {
    if prefixes == [] then []
    else
      (if IsLocal(ifname, prefixes[0], isGlobalUnicast) then [prefixes[0]] else [])
      + LocalPrefixes(ifname, prefixes[1..], isGlobalUnicast)
  }

  /** The local-address list of a snapshot: interface by interface, each interface's local prefixes. */
  function LocalAddresses(interfaces: seq<Interface>, isGlobalUnicast: Classifier): (local: seq<Prefix>)
    ensures OnlyLoopback(interfaces) ==> local == AllPrefixes(interfaces)
  {
    if interfaces == [] then []
    else
      LocalPrefixes(interfaces[0].name, interfaces[0].addresses, isGlobalUnicast)
      + LocalAddresses(interfaces[1..], isGlobalUnicast)
  }

  /** Every prefix of the snapshot, interface by interface. */
  function AllPrefixes(interfaces: seq<Interface>): (all: seq<Prefix>)
  {
    if interfaces == [] then [] else interfaces[0].addresses + AllPrefixes(interfaces[1..])
  }

  /** Every interface of the snapshot is the loopback. */
  predicate OnlyLoopback(interfaces: seq<Interface>)
  {
    interfaces == [] || (interfaces[0].name == "lo" && OnlyLoopback(interfaces[1..]))
  }

  /** A prefix of one interface is kept exactly when it is local. */
  lemma {:induction false} LocalPrefixesMembership(ifname: string, prefixes: seq<Prefix>, isGlobalUnicast: Classifier)
    ensures forall p :: p in LocalPrefixes(ifname, prefixes, isGlobalUnicast) <==>
              p in prefixes && IsLocal(ifname, p, isGlobalUnicast)
  {
    if prefixes != [] {
      LocalPrefixesMembership(ifname, prefixes[1..], isGlobalUnicast);
      assert prefixes == [prefixes[0]] + prefixes[1..];
    }
  }

  /** The list holds exactly the local prefixes of the snapshot: every prefix of "lo" and every
      global-unicast prefix of any interface, and nothing else. */
  lemma {:induction false} LocalAddressesMembership(interfaces: seq<Interface>, isGlobalUnicast: Classifier)
    ensures forall p :: p in LocalAddresses(interfaces, isGlobalUnicast) <==>
              exists i :: 0 <= i < |interfaces| && p in interfaces[i].addresses
                          && IsLocal(interfaces[i].name, p, isGlobalUnicast)
  {
    if interfaces != [] {
      LocalAddressesMembership(interfaces[1..], isGlobalUnicast);
      LocalPrefixesMembership(interfaces[0].name, interfaces[0].addresses, isGlobalUnicast);
      assert forall i :: 1 <= i < |interfaces| ==> interfaces[i] == interfaces[1..][i - 1];
    }
  }

  /** The per-interface filter keeps order: filtering a concatenation concatenates the filtered parts. */
  lemma {:induction false} LocalPrefixesAppend(ifname: string, a: seq<Prefix>, b: seq<Prefix>, isGlobalUnicast: Classifier)
    ensures LocalPrefixes(ifname, a + b, isGlobalUnicast)
            == LocalPrefixes(ifname, a, isGlobalUnicast) + LocalPrefixes(ifname, b, isGlobalUnicast)
  {
    if a == [] {
      assert a + b == b;
    } else {
      var head := if IsLocal(ifname, a[0], isGlobalUnicast) then [a[0]] else [];
      assert (a + b)[0] == a[0];
      assert (a + b)[1..] == a[1..] + b;
      LocalPrefixesAppend(ifname, a[1..], b, isGlobalUnicast);
      assert LocalPrefixes(ifname, a + b, isGlobalUnicast) == head + LocalPrefixes(ifname, a[1..] + b, isGlobalUnicast);
      assert LocalPrefixes(ifname, a, isGlobalUnicast) == head + LocalPrefixes(ifname, a[1..], isGlobalUnicast);
    }
  }

  /** A single prefix is kept exactly when it is local. */
  lemma LocalPrefixesSingle(ifname: string, p: Prefix, isGlobalUnicast: Classifier)
    ensures LocalPrefixes(ifname, [p], isGlobalUnicast) == if IsLocal(ifname, p, isGlobalUnicast) then [p] else []
  {
  }

  /** The list is the concatenation, interface by interface, of the snapshot's parts. */
  lemma {:induction false} LocalAddressesAppend(xs: seq<Interface>, ys: seq<Interface>, isGlobalUnicast: Classifier)
    ensures LocalAddresses(xs + ys, isGlobalUnicast)
            == LocalAddresses(xs, isGlobalUnicast) + LocalAddresses(ys, isGlobalUnicast)
  {
    if xs == [] {
      assert xs + ys == ys;
    } else {
      var head := LocalPrefixes(xs[0].name, xs[0].addresses, isGlobalUnicast);
      assert (xs + ys)[0] == xs[0];
      assert (xs + ys)[1..] == xs[1..] + ys;
      LocalAddressesAppend(xs[1..], ys, isGlobalUnicast);
      assert LocalAddresses(xs + ys, isGlobalUnicast) == head + LocalAddresses(xs[1..] + ys, isGlobalUnicast);
      assert LocalAddresses(xs, isGlobalUnicast) == head + LocalAddresses(xs[1..], isGlobalUnicast);
    }
  }

  /** A loopback interface contributes all of its prefixes, verbatim, at its own place in the list. */
  lemma LoopbackBlock(interfaces: seq<Interface>, i: nat, isGlobalUnicast: Classifier)
    requires i < |interfaces| && interfaces[i].name == "lo"
    ensures LocalAddresses(interfaces, isGlobalUnicast)
            == LocalAddresses(interfaces[..i], isGlobalUnicast)
               + interfaces[i].addresses
               + LocalAddresses(interfaces[i + 1..], isGlobalUnicast)
  {
    var it := interfaces[i];
    assert interfaces == interfaces[..i] + ([it] + interfaces[i + 1..]);
    LocalAddressesAppend(interfaces[..i], [it] + interfaces[i + 1..], isGlobalUnicast);
    LocalAddressesAppend([it], interfaces[i + 1..], isGlobalUnicast);
    assert [it][1..] == [];
  }
}

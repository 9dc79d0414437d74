/** The data model of the auto-redirect firewall-rule engine: the redirect policy,
    interface snapshots, the abstract nftables operations the engine emits, and the
    kernel oracle that decides which of them fail. */
module Types {

  /** An unsigned 32-bit firewall mark, as the Go code's uint32. */
  newtype uint32 = x: int | 0 <= x < 0x1_0000_0000

  datatype IpFamily = IPv4 | IPv6

  /** An address is kept abstract: only its family and an opaque value. */
  datatype Addr = Addr(family: IpFamily, value: nat)

  /** An address prefix; equality is exact (address, length) equality, as for netip.Prefix. */
  datatype Prefix = Prefix(addr: Addr, length: nat)

  /** One entry of an interface snapshot: only the name and the prefixes are read. */
  datatype Interface = Interface(name: string, addresses: seq<Prefix>)

  /** The redirect policy, supplied once at setup and read-only afterwards. */
  datatype Config = Config(
    tableName: string,
    tunName: string,
    includeInterface: seq<string>,
    excludeInterface: seq<string>,
    markMode: bool,
    inputMark: uint32,
    enableIPv4: bool,
    enableIPv6: bool)

  /** nftables table families used by the engine. */
  datatype TableFamily = INet | TableIPv4 | TableIPv6

  datatype Hook = HookOutput | HookPrerouting

  datatype ChainType = NatType | RouteType | FilterType

  /** A base chain: its name, hook point, numeric priority and type. */
  datatype Chain = Chain(name: string, hook: Hook, priority: int, chainType: ChainType)

  /** The extra match a redirect rule may carry in front of its action. */
  datatype Guard = Unguarded | OifNameIs(ifname: string)

  /** Abstract rule kinds. The helpers behind ExcludeRules, Unreachable, Redirect and Mark are
      not part of this model; each stands for whatever rules its helper appends to the chain. */
  datatype Rule =
    | ExcludeRules
    | Unreachable
    | Redirect(guard: Guard)
    | Mark
      /** Skip packets whose destination is in the named local-address set. */
    | ExcludeDestSet(family: TableFamily, setName: string)
      /** l4proto == UDP, ct mark == ctMark, copy the ct mark to the packet mark, counter. */
    | UdpCtMarkCopy(ctMark: uint32)

  /** One operation on the nftables connection or on the network monitor, in program order. */
  datatype Op =
    | Open
    | AddTable(tableName: string, tableFamily: TableFamily)
    | ListTable(listName: string, listFamily: TableFamily)
    | DelTable(delName: string, delFamily: TableFamily)
    | CreateAddressSets(update: bool)
    | CreateLocalAddressSets(addresses: seq<Prefix>, previous: seq<Prefix>)
    | AddChain(chain: Chain)
    | AddRule(chainName: string, rule: Rule)
    | ConfigureOpenWRT(revert: bool)
    | Flush
    | Close
    | RegisterCallback
    | UnregisterCallback

  datatype Error = Error(message: string)

  datatype Outcome = Ok | Err(error: Error)

  /** The kernel and the helpers not shown: for every operation, whether it fails and how. */
  type Kernel = Op -> Outcome

  /** The operations whose error the engine looks at. The results of building chains, of the
      rule helpers other than the exclude-rule helper, and of closing, if any, are discarded. */
  predicate Fallible(op: Op)
  {
    || op.Open?
    || op.ListTable?
    || op.CreateAddressSets?
    || op.CreateLocalAddressSets?
    || (op.AddRule? && op.rule.ExcludeRules?)
    || op.ConfigureOpenWRT?
    || op.Flush?
  }

  /** An operation goes through when its error is not looked at or the kernel lets it succeed. */
  predicate Succeeds(op: Op, kernel: Kernel)
  {
    !Fallible(op) || kernel(op).Ok?
  }
}

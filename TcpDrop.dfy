/** The XDP program attached to a network interface. It reads the frame at
    fixed offsets (a 14-byte Ethernet header, a 20-byte IPv4 header without
    options, then the TCP header), and drops TCP traffic whose source or
    destination port is the configured one. */
module TcpDrop {
  import opened Bytes
  import opened ByteOrder

  const ETH_HLEN := 14   // sizeof(struct ethhdr)
  const IP_HLEN := 20    // sizeof(struct iphdr)
  const TCP_HLEN := 20   // sizeof(struct tcphdr)
  const TOTAL_SIZE := ETH_HLEN + IP_HLEN + TCP_HLEN
  const IPPROTO_TCP := 6

  /** Offsets into the frame of the fields the program reads. */
  const PROTOCOL_OFFSET := ETH_HLEN + 9
  const SOURCE_OFFSET := ETH_HLEN + IP_HLEN
  const DEST_OFFSET := ETH_HLEN + IP_HLEN + 2
  /** The EtherType field, which the program never reads. */
  const ETHERTYPE_OFFSET := 12

  datatype XdpAction = XdpDrop | XdpPass {
    /** The kernel's `enum xdp_action` value. */
    function Code(): (r: int) { if XdpDrop? then 1 else 2 }
  }

  /** The verdict and the ports printed by `bpf_printk` on the way. */
  datatype XdpResult = XdpResult(action: XdpAction, trace: seq<U16>)

  const Pass := XdpResult(XdpPass, [])

  /** `(__u16)*port`: the map holds a `__u32`; C converts it to the one
      16-bit value congruent to it modulo 65536. */
  function DropPort(value: U32): (r: U16)
    ensures (value - r) % 0x1_0000 == 0
    ensures value < 0x1_0000 ==> r == value
  {
    Low16(value)
  }

  /** `tcp->source` / `tcp->dest` as loaded on the host. */
  function HostField(frame: seq<Byte>, offset: nat): (r: U16)
    requires offset + 1 < |frame|
  {
    HostLoad16(frame[offset], frame[offset + 1])
  }

  /** `xdp_drop_tcp_port`: `targetPort` is what the map lookup of key 0
      returns. */
  function XdpDropTcpPort(frame: seq<Byte>, targetPort: Option<U32>): (r: XdpResult)
    ensures r.action == XdpPass ==> r.trace == []
    ensures r.action == XdpDrop ==> targetPort.Some? && r.trace == [DropPort(targetPort.value)]
  {
    if |frame| < TOTAL_SIZE then Pass
    else if frame[PROTOCOL_OFFSET] != IPPROTO_TCP then Pass
    else if targetPort.None? then Pass
    else
      var dropPort := DropPort(targetPort.value);
      if HostField(frame, SOURCE_OFFSET) == Swap16(dropPort) || HostField(frame, DEST_OFFSET) == Swap16(dropPort)
      then XdpResult(XdpDrop, [dropPort])
      else Pass
  }

  /** The source and destination ports of the frame, in network byte order. */
  function SourcePort(frame: seq<Byte>): (r: U16)
    requires |frame| >= TOTAL_SIZE
  {
    NetworkOrder16(frame[SOURCE_OFFSET], frame[SOURCE_OFFSET + 1])
  }

  function DestPort(frame: seq<Byte>): (r: U16)
    requires |frame| >= TOTAL_SIZE
  {
    NetworkOrder16(frame[DEST_OFFSET], frame[DEST_OFFSET + 1])
  }

  /** The reference rule: a frame long enough for all three fixed headers,
      whose protocol byte says TCP, with a configured port whose low 16 bits
      equal its source or its destination port. */
  predicate Dropped(frame: seq<Byte>, targetPort: Option<U32>)
  {
    && |frame| >= TOTAL_SIZE
    && frame[PROTOCOL_OFFSET] == IPPROTO_TCP
    && targetPort.Some?
    && (SourcePort(frame) == targetPort.value % 0x1_0000 || DestPort(frame) == targetPort.value % 0x1_0000)
  }

  /** A host-order field equals `htons(p)` exactly when the wire value is `p`. */
  lemma FieldMatches(frame: seq<Byte>, offset: nat, p: U16)
    requires offset + 1 < |frame|
    ensures HostField(frame, offset) == Swap16(p)
            <==> NetworkOrder16(frame[offset], frame[offset + 1]) == p
  {
    SwapCompare(HostField(frame, offset), p);
    NtohsOfHostLoad(frame[offset], frame[offset + 1]);
  }

  /** The program drops a frame exactly when the reference rule does, and
      answers XDP_DROP (1) on those frames and XDP_PASS (2) on all others. */
  lemma XdpVerdict(frame: seq<Byte>, targetPort: Option<U32>)
    ensures XdpDropTcpPort(frame, targetPort).action == XdpDrop <==> Dropped(frame, targetPort)
    ensures XdpDropTcpPort(frame, targetPort).action.Code() == if Dropped(frame, targetPort) then 1 else 2
  {
    if |frame| >= TOTAL_SIZE && targetPort.Some? {
      FieldMatches(frame, SOURCE_OFFSET, DropPort(targetPort.value));
      FieldMatches(frame, DEST_OFFSET, DropPort(targetPort.value));
    }
  }

  /** Frames shorter than the three fixed headers pass. */
  lemma ShortFramePasses(frame: seq<Byte>, targetPort: Option<U32>)
    requires |frame| < TOTAL_SIZE
    ensures XdpDropTcpPort(frame, targetPort) == Pass
  {
  }

  /** A frame whose byte 23 is not 6 passes. */
  lemma NonTcpPasses(frame: seq<Byte>, targetPort: Option<U32>)
    requires |frame| >= TOTAL_SIZE && frame[PROTOCOL_OFFSET] != IPPROTO_TCP
    ensures XdpDropTcpPort(frame, targetPort) == Pass
  {
  }

  /** Without a map entry every frame passes. */
  lemma UnconfiguredPasses(frame: seq<Byte>)
    ensures XdpDropTcpPort(frame, None) == Pass
  {
  }

  /** The EtherType is never consulted: rewriting it changes nothing, so a
      non-IPv4 frame with a 6 at byte 23 is judged like a TCP/IPv4 one. */
  lemma EtherTypeIgnored(frame: seq<Byte>, targetPort: Option<U32>, e0: Byte, e1: Byte)
    requires |frame| >= TOTAL_SIZE
    ensures XdpDropTcpPort(frame[ETHERTYPE_OFFSET := e0][ETHERTYPE_OFFSET + 1 := e1], targetPort)
            == XdpDropTcpPort(frame, targetPort)
  {
  }

  /** Configured values above 65535 act as their low 16 bits. */
  lemma ConfiguredPortAliases(frame: seq<Byte>, v: U32, w: U32)
    requires v % 0x1_0000 == w % 0x1_0000
    ensures XdpDropTcpPort(frame, Some(v)) == XdpDropTcpPort(frame, Some(w))
  {
  }

  /** An array map's entry exists from creation and reads as zero until the
      loader writes it; such a record drops TCP frames with a source or
      destination port of 0 and nothing else. */
  lemma ZeroRecordDropsPortZero(frame: seq<Byte>)
    ensures XdpDropTcpPort(frame, Some(0)).action == XdpDrop
            <==> |frame| >= TOTAL_SIZE && frame[PROTOCOL_OFFSET] == IPPROTO_TCP
                 && (SourcePort(frame) == 0 || DestPort(frame) == 0)
  {
    var zero: Option<U32> := Some(0);
    assert zero.value % 0x1_0000 == 0;
    XdpVerdict(frame, zero);
  }

  /** The `uint32(*port)` conversion the loader applies to its `-port` flag
      before the map write. */
  function TargetPortValue(portFlag: U64): (r: U32)
    ensures DropPort(r) == portFlag % 0x1_0000
    ensures portFlag < 0x1_0000_0000 ==> r == portFlag
  {
    Low16OfLow32(portFlag);
    Low32(portFlag)
  }

  /** Across the loader's 32-bit cast and the program's 16-bit cast, a
      `-port` flag value acts as itself modulo 65536. */
  lemma PortFlagActsModulo65536(frame: seq<Byte>, portFlag: U64)
    ensures DropPort(TargetPortValue(portFlag)) == portFlag % 0x1_0000
    ensures XdpDropTcpPort(frame, Some(TargetPortValue(portFlag))).action == XdpDrop
            <==> |frame| >= TOTAL_SIZE && frame[PROTOCOL_OFFSET] == IPPROTO_TCP
                 && (SourcePort(frame) == portFlag % 0x1_0000 || DestPort(frame) == portFlag % 0x1_0000)
  {
    XdpVerdict(frame, Some(TargetPortValue(portFlag)));
  }
}

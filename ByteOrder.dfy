/** Byte order as the eBPF programs see it. The programs are built for the
    native target of an x86_64 host, which is little-endian: a 16-bit field
    loaded from memory has its first byte as the low half, and `bpf_htons` /
    `bpf_ntohs` swap the two bytes. */
module ByteOrder {
  import opened Bytes

  function Hi(x: U16): (r: Byte) { x / 0x100 }
  function Lo(x: U16): (r: Byte) { x % 0x100 }

  /** The 16-bit value whose high byte is `hi` and low byte is `lo`. */
  function Pack(hi: Byte, lo: Byte): (r: U16)
  {
    hi * 0x100 + lo
  }

  /** Packing and splitting undo each other, in both directions. The facts
      are lemmas rather than postconditions of `Pack`, so that evaluating
      `Pack` on constants stays cheap. */
  lemma PartsOfPack(hi: Byte, lo: Byte)
    ensures Hi(Pack(hi, lo)) == hi && Lo(Pack(hi, lo)) == lo
  {
  }

  lemma PackOfParts(x: U16)
    ensures Pack(Hi(x), Lo(x)) == x
  {
  }

  /** `bpf_htons` and `bpf_ntohs` on a little-endian host. */
  function Swap16(x: U16): (r: U16)
  {
    Pack(Lo(x), Hi(x))
  }

  /** The swap exchanges the high and low bytes. */
  lemma SwapExchangesBytes(x: U16)
    ensures Hi(Swap16(x)) == Lo(x) && Lo(Swap16(x)) == Hi(x)
  {
    PartsOfPack(Lo(x), Hi(x));
  }

  /** The swap is an involution, so htons and ntohs are the same function and
      each undoes the other. */
  lemma SwapInvolutive(x: U16)
    ensures Swap16(Swap16(x)) == x
  {
    SwapExchangesBytes(x);
    SwapExchangesBytes(Swap16(x));
    PackOfParts(x);
  }

  /** Comparing a wire field with `htons(p)` is the same as comparing
      `ntohs(field)` with `p`. */
  lemma SwapCompare(field: U16, p: U16)
    ensures field == Swap16(p) <==> Swap16(field) == p
  {
    SwapInvolutive(field);
    SwapInvolutive(p);
  }

  /** The port carried by two wire bytes, in network (big-endian) order. */
  function NetworkOrder16(b0: Byte, b1: Byte): (r: U16) { Pack(b0, b1) }

  /** What a `__u16` load of those two bytes yields on a little-endian host. */
  function HostLoad16(b0: Byte, b1: Byte): (r: U16) { Pack(b1, b0) }

  /** `ntohs` of a host load recovers the network-order value. */
  lemma NtohsOfHostLoad(b0: Byte, b1: Byte)
    ensures Swap16(HostLoad16(b0, b1)) == NetworkOrder16(b0, b1)
  {
    PackOfParts(Swap16(HostLoad16(b0, b1)));
  }
}

/** Packets and flow keys (pcap_decode/models.py). */
module Models {
  import opened Basics
  import opened SequenceNumbers

  datatype Flags = Flags(syn: bool, fin: bool, rst: bool)

  const NO_FLAGS := Flags(false, false, false)

  /** Python's `a <= b` on strings: lexicographic by code point. */
  predicate StringLe(a: string, b: string) {
    a == [] || (b != [] && (a[0] < b[0] || (a[0] == b[0] && StringLe(a[1..], b[1..]))))
  }

  lemma {:induction false} StringLeAntisymmetric(a: string, b: string)
    requires StringLe(a, b) && StringLe(b, a)
    ensures a == b
  {
    if a != [] {
      StringLeAntisymmetric(a[1..], b[1..]);
      assert a == [a[0]] + a[1..] && b == [b[0]] + b[1..];
    }
  }

  lemma {:induction false} StringLeTotal(a: string, b: string)
    ensures StringLe(a, b) || StringLe(b, a)
  {
    if a != [] && b != [] {
      StringLeTotal(a[1..], b[1..]);
    }
  }

  datatype FlowKey = FlowKey(srcIp: string, srcPort: int, dstIp: string, dstPort: int, proto: string) {
    function Reverse(): FlowKey {
      FlowKey(dstIp, dstPort, srcIp, srcPort, proto)
    }

    /** Python's tuple comparison `(src_ip, src_port) <= (dst_ip, dst_port)`. */
    predicate Ordered() {
      if srcIp == dstIp then srcPort <= dstPort else StringLe(srcIp, dstIp)
    }

    function Normalized(): FlowKey {
      if Ordered() then this else Reverse()
    }
  }

  /** The two directions of a flow share one key, and a key is its own normal form. */
  lemma {:induction false} NormalizedIsDirectionNeutral(f: FlowKey)
    ensures f.Reverse().Normalized() == f.Normalized()
    ensures f.Normalized().Normalized() == f.Normalized()
  {
    if f.srcIp != f.dstIp {
      StringLeTotal(f.srcIp, f.dstIp);
      if StringLe(f.srcIp, f.dstIp) && StringLe(f.dstIp, f.srcIp) {
        StringLeAntisymmetric(f.srcIp, f.dstIp);
      }
    }
  }

  /** Equal keys mean the same flow up to direction. */
  lemma {:induction false} SameKeyIff(f: FlowKey, g: FlowKey)
    ensures f.Normalized() == g.Normalized() <==> f == g || f == g.Reverse()
  {
    NormalizedIsDirectionNeutral(f);
    NormalizedIsDirectionNeutral(g);
  }

  /** `None` in `srcIp` and `dstIp` stands for a missing or empty address, in `tcpFlags` for a missing or empty dict. */
  datatype Packet = Packet(
    frameNumber: int,
    timestamp: real,
    linkType: int,
    rawData: bytes,
    ipVersion: Option<int>,
    srcIp: Option<string>,
    dstIp: Option<string>,
    ipProto: Option<int>,
    ipId: Option<int>,
    ipFragOffset: nat,
    ipMoreFrags: bool,
    transportProto: Option<string>,
    srcPort: Option<int>,
    dstPort: Option<int>,
    seqNum: Option<u32>,
    ackNum: Option<u32>,
    tcpFlags: Option<Flags>,
    payload: bytes)
  {
    function Flow(): Option<FlowKey> {
      if srcIp.Some? && dstIp.Some? && srcPort.Some? && dstPort.Some? then
        Some(FlowKey(srcIp.value, srcPort.value, dstIp.value, dstPort.value,
                     if transportProto.Some? then transportProto.value else "UNKNOWN"))
      else None
    }
  }
}

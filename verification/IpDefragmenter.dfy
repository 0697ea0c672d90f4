/** IPv4 defragmentation: collect by key, sort by offset, merge, stop at the last fragment (RFC 791 section 3.2). */
module IpDefragmenter {
  import opened Basics
  import opened Models
  import StableSort

  datatype FragmentKey = FragmentKey(srcIp: string, dstIp: string, proto: int, id: int)

  datatype Fragment = Fragment(offset: nat, moreFrags: bool, data: bytes, timestamp: real) {
    function End(): nat {
      offset + |data|
    }
  }

  type Table = map<FragmentKey, seq<Fragment>>

  function FragmentOffset(f: Fragment): int {
    f.offset
  }

  predicate IsFragment(p: Packet) {
    && p.ipVersion == Some(4) && (p.ipFragOffset != 0 || p.ipMoreFrags)
    && p.srcIp.Some? && p.dstIp.Some? && p.ipProto.Some? && p.ipId.Some?
  }

  function KeyOf(p: Packet): FragmentKey
    requires IsFragment(p)
  {
    FragmentKey(p.srcIp.value, p.dstIp.value, p.ipProto.value, p.ipId.value)
  }

  function FragmentOf(p: Packet): Fragment {
    Fragment(p.ipFragOffset, p.ipMoreFrags, p.payload, p.timestamp)
  }

  predicate HasLast(frags: seq<Fragment>) {
    exists i :: 0 <= i < |frags| && !frags[i].moreFrags
  }

  /** The merge loop from its `i`-th fragment on, with `rebuilt` merged so far. */
  function Merge(sorted: seq<Fragment>, i: nat, rebuilt: bytes): Option<bytes>
    requires i <= |sorted|
    decreases |sorted| - i
  {
    if i == |sorted| then None
    else
      var f := sorted[i];
      if f.offset > |rebuilt| then None
      else
        var overlap := |rebuilt| - f.offset;
        var grown := if overlap < |f.data| then rebuilt + f.data[overlap..] else rebuilt;
        if !f.moreFrags && f.End() == |grown| then Some(grown)
        else Merge(sorted, i + 1, grown)
  }

  function Rebuild(frags: seq<Fragment>): Option<bytes> {
    if HasLast(frags) then Merge(StableSort.Sort(frags, FragmentOffset), 0, []) else None
  }

  /** The packet that replaces the fragments: the arriving one with the rebuilt payload. */
  function Rebuilt(p: Packet, payload: bytes): Packet {
    p.(ipVersion := Some(4), ipFragOffset := 0, ipMoreFrags := false, payload := payload)
  }

  function Pending(table: Table, key: FragmentKey): seq<Fragment> {
    if key in table then table[key] else []
  }

  function Process(table: Table, p: Packet): (Table, Option<Packet>) {
    if !IsFragment(p) then (table, Some(p))
    else
      var frags := Pending(table, KeyOf(p)) + [FragmentOf(p)];
      match Rebuild(frags)
      case None => (table[KeyOf(p) := frags], None)
      case Some(payload) => (table - {KeyOf(p)}, Some(Rebuilt(p, payload)))
  }

  class Defragmenter {
    var fragments: map<FragmentKey, seq<Fragment>>

    constructor ()
      ensures fragments == map[]
    {
      fragments := map[];
    }

    method ProcessPacket(p: Packet) returns (r: Option<Packet>)
      modifies this
      ensures (fragments, r) == Process(old(fragments), p)
    {
      if p.ipVersion != Some(4) || (p.ipFragOffset == 0 && !p.ipMoreFrags) {
        return Some(p);
      }
      if p.srcIp.None? || p.dstIp.None? || p.ipProto.None? || p.ipId.None? {
        return Some(p);
      }
      var key := KeyOf(p);
      ghost var before := fragments;
      fragments := fragments[key := Pending(fragments, key) + [FragmentOf(p)]];
      var frags := fragments[key];
      assert fragments - {key} == before - {key};
      var hasLast := exists i :: 0 <= i < |frags| && !frags[i].moreFrags;
      if !hasLast {
        return None;
      }
      var sorted := StableSort.Sort(frags, FragmentOffset);
      var currOffset, rebuilt := 0, [];
      for i := 0 to |sorted|
        invariant currOffset == |rebuilt| && fragments == before[key := frags]
        invariant Rebuild(frags) == Merge(sorted, i, rebuilt)
      {
        var f := sorted[i];
        if f.offset > currOffset {
          return None;
        }
        var overlap := currOffset - f.offset;
        if overlap < |f.data| {
          var chunk := f.data[overlap..];
          rebuilt := rebuilt + chunk;
          currOffset := currOffset + |chunk|;
        }
        if !f.moreFrags && f.offset + |f.data| == currOffset {
          fragments := fragments - {key};
          return Some(Rebuilt(p, rebuilt));
        }
      }
      return None;
    }
  }
}

/** The values the tracker stores: infohashes, peer ids, addresses and peers. */
module Storage {
  import opened Bytes

  datatype Option<+T> = None | Some(value: T)

  // Go's fixed-size byte arrays.
  type Bytes4 = s: seq<Byte> | |s| == 4 witness [0, 0, 0, 0]
  type Bytes16 = s: seq<Byte> | |s| == 16 witness seq(16, _ => 0)
  type Bytes20 = s: seq<Byte> | |s| == 20 witness seq(20, _ => 0)

  datatype Hash = Hash(bytes: Bytes20)
  datatype PeerID = PeerID(bytes: Bytes20)

  /** netip.Addr without the zero address and without zones. */
  datatype Addr = V4(b4: Bytes4) | V6(b6: Bytes16) {
    predicate Is6() {
      V6?
    }

    function AsSlice(): seq<Byte> {
      if V4? then b4 else b6
    }
  }

  /** netip.AddrFromSlice. */
  function AddrFromSlice(bs: seq<Byte>): (r: Option<Addr>)
    ensures r.Some? <==> |bs| == 4 || |bs| == 16
    ensures r.Some? ==> r.value.AsSlice() == bs
  {
    if |bs| == 4 then Some(V4(bs)) else if |bs| == 16 then Some(V6(bs)) else None
  }

  /** The fields of a stored peer. */
  datatype Entry = Entry(complete: bool, ip: Addr, port: uint16, lastSeen: int64)
}

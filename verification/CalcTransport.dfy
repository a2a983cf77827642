/** `TCalcTransport`: a transport that only counts what is written to it, in 32 bits. */
module CalcTransport {
  import opened ByteStrings
  import opened CompactProtocol

  class TCalcTransport {
    var written: nat
    ghost var since: Bytes  // the bytes written since the last flush

    ghost predicate Valid()
      reads this
    {
      written == Mod32(|since|)
    }

    constructor ()
      ensures Valid() && since == []
    {
      written := 0;
      since := [];
    }

    /** Counting does not depend on how the bytes are cut into writes. */
    method WriteVirt(buf: Bytes)
      requires Valid()
      modifies this
      ensures Valid() && since == old(since) + buf
      ensures written == (old(written) + |buf|) % 0x1_0000_0000
    {
      written := Mod32(written + |buf|);
      since := since + buf;
    }

    method Flush()
      modifies this
      ensures Valid() && since == [] && written == 0
    {
      written := 0;
      since := [];
    }

    method Size() returns (size: nat)
      requires Valid()
      ensures size == |since| % 0x1_0000_0000
    {
      size := written;
    }
  }
}

/** `BucketID`: a histogram bucket's number as a tag value that sorts like the number. */
module BucketIds {
  import opened ByteStrings
  import opened Decimals

  method BucketID(bucketId: nat) returns (id: Bytes)
    ensures id == Padded(bucketId, 4)
    ensures |id| >= 4 && (forall c :: c in id ==> 48 <= c <= 57) && AllDigits(id) && ValueOf(id) == bucketId
    ensures |id| > 4 ==> id[0] != 48
  {
    PaddedRoundTrip(bucketId, 4);
    if bucketId > 0 {
      NoLeadingZero(bucketId);
    }
    var len := |Decimal(bucketId)|;
    len := if len < 4 then 4 else len;
    id := Padded(bucketId, len);
  }

  /** Seven is printed as "0007" in ASCII. */
  lemma SevenPadded()
    ensures Padded(7, 4) == [48, 48, 48, 55]
  {
  }

  /** The ID parses back to the number, and is as long as the number or four characters. */
  lemma BucketIdRoundTrip(i: nat)
    ensures AllDigits(Padded(i, 4)) && ValueOf(Padded(i, 4)) == i
    ensures |Padded(i, 4)| == if |Decimal(i)| > 4 then |Decimal(i)| else 4
  {
    PaddedRoundTrip(i, 4);
  }

  /** Among IDs of equal length string order is numeric order. */
  lemma BucketIdOrder(i: nat, j: nat)
    requires |Padded(i, 4)| == |Padded(j, 4)|
    ensures StringLess(Padded(i, 4), Padded(j, 4)) <==> i < j
  {
    PaddedRoundTrip(i, 4);
    PaddedRoundTrip(j, 4);
    OrderAgrees(Padded(i, 4), Padded(j, 4));
  }
}

/** The shared-memory segment as the two programs use it: a price map goes in, the same map comes out. The updater
    writes through the whole segment, the server reads through its own, smaller mapping. */
module PriceSegment {
  import opened Prices
  import opened Octets
  import Shm = SharedMemory

  /** How a price in cents travels as a double. */
  datatype Codec = Codec(bits: int -> Shm.Bits64, cents: Shm.Bits64 -> int)

  /** No more records than the reader's declared size holds. */
  const CAPACITY := 84

  /** What fits the segment: int codes, prices that a double carries, and no more than the reader's size holds. */
  ghost predicate Carries(codec: Codec, kvs: Listing) {
    && |kvs| <= CAPACITY
    && forall i :: 0 <= i < |kvs| ==> IsInt32(kvs[i].0) && codec.cents(codec.bits(kvs[i].1)) == kvs[i].1
  }

  predicate Int32Codes(kvs: Listing) {
    forall i :: 0 <= i < |kvs| ==> IsInt32(kvs[i].0)
  }

  function RecordsOf(codec: Codec, kvs: Listing): (records: Shm.Records)
    requires Int32Codes(kvs)
    ensures |records| == |kvs|
    ensures forall i :: 0 <= i < |kvs| ==> records[i] == (kvs[i].0, codec.bits(kvs[i].1))
  {
    seq(|kvs|, i requires 0 <= i < |kvs| => (kvs[i].0 as Shm.Code, codec.bits(kvs[i].1)))
  }

  function BitsOf(codec: Codec, m: map<int, int>): (bits: map<Shm.Code, Shm.Bits64>)
    requires forall c :: c in m ==> IsInt32(c)
  {
    map c: Shm.Code | c in m :: codec.bits(m[c])
  }

  class Segment {
    const bytes: array<Byte>
    const codec: Codec
    /** The pairs that were written last. */
    ghost var kvs: Listing

    ghost predicate Valid()
      reads this, bytes
    {
      && bytes.Length == Shm.WRITER_SIZE
      && Carries(codec, kvs) && Lists(MapOf(kvs), kvs)
      && Shm.Image(RecordsOf(codec, kvs)) <= bytes[..]
    }

    ghost function Held(): map<int, int>
      reads this
    {
      MapOf(kvs)
    }

    /** A segment just created holds no price. */
    constructor (c: Codec)
      ensures Valid() && fresh(bytes) && codec == c && Held() == map[]
    {
      codec := c;
      kvs := [];
      var segment := new Byte[Shm.WRITER_SIZE](_ => 0);
      bytes := segment;
      new;
      var ok := Shm.WritePrices(segment, []);
      assert RecordsOf(c, []) == [];
      assert bytes[..Shm.Size(0)] == Shm.Image([]);
    }

    /** write_prices_to_shm. */
    method Write(prices: map<int, int>, pairs: Listing)
      requires Valid() && Lists(prices, pairs) && Carries(codec, pairs)
      modifies this`kvs, bytes
      ensures Valid() && Held() == prices
    {
      ListingRebuildsMap(prices, pairs);
      var records := RecordsOf(codec, pairs);
      var ok := Shm.WritePrices(bytes, records);
      kvs := pairs;
      assert bytes[..Shm.Size(|records|)] == Shm.Image(records);
    }

    /** load_prices_from_shm, through the reader's own mapping. */
    method Read() returns (prices: map<int, int>)
      requires Valid()
      ensures prices == Held()
    {
      var view := new Byte[Shm.READER_SIZE](i requires 0 <= i < Shm.READER_SIZE reads bytes => bytes[i]);
      assert view[..] == bytes[..Shm.READER_SIZE];
      ghost var records := RecordsOf(codec, kvs);
      ViewHolds(Shm.Image(records), bytes[..], view[..]);
      RecordsList(codec, MapOf(kvs), kvs);
      Shm.ImageRoundTrip(BitsOf(codec, MapOf(kvs)), records, view[..]);
      assert view[..][..Shm.COUNT_SIZE] == view[..Shm.COUNT_SIZE];
      var ok, cache := Shm.LoadPrices(view);
      prices := map c: int | c in cache :: codec.cents(cache[c]);
      BitsReadBack(codec, MapOf(kvs), kvs);
    }
  }

  lemma ViewHolds(image: seq<Byte>, whole: seq<Byte>, view: seq<Byte>)
    requires image <= whole && |image| <= |view| && view <= whole
    ensures image <= view
  {
  }

  lemma RecordsList(codec: Codec, m: map<int, int>, kvs: Listing)
    requires Lists(m, kvs) && Carries(codec, kvs)
    ensures forall c :: c in m ==> IsInt32(c)
    ensures Shm.Lists(BitsOf(codec, m), RecordsOf(codec, kvs))
  {
    forall c | c in m
      ensures IsInt32(c)
    {
      var i :| 0 <= i < |kvs| && kvs[i] == (c, m[c]);
    }
    var bits, records := BitsOf(codec, m), RecordsOf(codec, kvs);
    forall c | c in bits
      ensures (c, bits[c]) in records
    {
      var i :| 0 <= i < |kvs| && kvs[i] == (c as int, m[c]);
      assert records[i] == (c, bits[c]);
    }
    Shm.EightBytes();
  }

  lemma BitsReadBack(codec: Codec, m: map<int, int>, kvs: Listing)
    requires Lists(m, kvs) && Carries(codec, kvs) && forall c :: c in m ==> IsInt32(c)
    ensures (map c: int | c in BitsOf(codec, m) :: codec.cents(BitsOf(codec, m)[c])) == m
  {
    forall c | c in m
      ensures codec.cents(codec.bits(m[c])) == m[c]
    {
      var i :| 0 <= i < |kvs| && kvs[i] == (c, m[c]);
    }
  }
}

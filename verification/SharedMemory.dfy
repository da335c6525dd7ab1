/** The shared-memory price segment: an 8-byte count, then 12-byte records, little-endian. */
module SharedMemory {
  import opened Arithmetic
  import opened Octets

  const COUNT_SIZE := 8
  const CODE_SIZE := 4
  const PRICE_SIZE := 8
  const RECORD_SIZE := 12

  /** The sizes the two programs declare for the same segment. */
  const READER_SIZE := 1024
  const WRITER_SIZE := 2048

  /** A double is carried as the 64 bits of its representation. */
  type Bits64 = n: int | 0 <= n < 0x1_0000_0000_0000_0000

  type Code = n: int | -0x8000_0000 <= n < 0x8000_0000

  type Records = seq<(Code, Bits64)>

  function Power256(k: nat): nat
    ensures Power256(k) >= 1
  {
    if k == 0 then 1 else 256 * Power256(k - 1)
  }

  /** The k low bytes of n, least significant first. */
  function Encode(n: nat, k: nat): (bytes: seq<Byte>)
    ensures |bytes| == k
  {
    if k == 0 then [] else [n % 256] + Encode(n / 256, k - 1)
  }

  function Decode(bytes: seq<Byte>): nat {
    if bytes == [] then 0 else bytes[0] + 256 * Decode(bytes[1..])
  }

  lemma {:induction false} DecodeEncode(n: nat, k: nat)
    requires n < Power256(k)
    ensures Decode(Encode(n, k)) == n
  {
    if k > 0 {
      assert n / 256 < Power256(k - 1);
      DecodeEncode(n / 256, k - 1);
      assert Encode(n, k)[1..] == Encode(n / 256, k - 1);
    }
  }

  /** The 32-bit pattern of an int. */
  function ToUnsigned(c: Code): nat {
    if c < 0 then c + 0x1_0000_0000 else c
  }

  function ToSigned(n: nat): Code
    requires n < 0x1_0000_0000
  {
    if n < 0x8000_0000 then n else n - 0x1_0000_0000
  }

  function EncodeRecord(kv: (Code, Bits64)): (bytes: seq<Byte>)
    ensures |bytes| == RECORD_SIZE
  {
    Encode(ToUnsigned(kv.0), CODE_SIZE) + Encode(kv.1, PRICE_SIZE)
  }

  lemma FourBytes()
    ensures Power256(4) == 0x1_0000_0000
  {
  }

  lemma EightBytes()
    ensures Power256(8) == 0x1_0000_0000_0000_0000
  { }

  lemma {:induction false} DecodeBound(bytes: seq<Byte>)
    ensures Decode(bytes) < Power256(|bytes|)
  {
    if bytes != [] {
      DecodeBound(bytes[1..]);
    }
  }

  function DecodeCode(bytes: seq<Byte>): Code
    requires |bytes| == CODE_SIZE
  {
    DecodeBound(bytes);
    FourBytes();
    ToSigned(Decode(bytes))
  }

  function DecodePrice(bytes: seq<Byte>): Bits64
    requires |bytes| == PRICE_SIZE
  {
    DecodeBound(bytes);
    EightBytes();
    Decode(bytes)
  }

  lemma RecordRoundTrip(kv: (Code, Bits64))
    ensures DecodeCode(EncodeRecord(kv)[..CODE_SIZE]) == kv.0
    ensures DecodePrice(EncodeRecord(kv)[CODE_SIZE..]) == kv.1
  {
    FourBytes();
    EightBytes();
    var a, b := Encode(ToUnsigned(kv.0), CODE_SIZE), Encode(kv.1, PRICE_SIZE);
    assert (a + b)[..CODE_SIZE] == a && (a + b)[CODE_SIZE..] == b;
    DecodeEncode(ToUnsigned(kv.0), CODE_SIZE);
    DecodeEncode(kv.1, PRICE_SIZE);
  }

  function EncodeRecords(kvs: Records): (bytes: seq<Byte>)
    ensures |bytes| == RECORD_SIZE * |kvs|
  {
    if kvs == [] then [] else EncodeRecords(kvs[..|kvs| - 1]) + EncodeRecord(kvs[|kvs| - 1])
  }

  function Size(n: nat): nat {
    COUNT_SIZE + RECORD_SIZE * n
  }

  /** What the writer leaves at the front of the segment. */
  function Image(kvs: Records): (bytes: seq<Byte>)
    ensures |bytes| == Size(|kvs|)
  {
    Encode(|kvs|, COUNT_SIZE) + EncodeRecords(kvs)
  }

  function RecordAt(bytes: seq<Byte>, i: nat): (Code, Bits64)
    requires Size(i + 1) <= |bytes|
  {
    var p := Size(i);
    (DecodeCode(bytes[p..p + CODE_SIZE]), DecodePrice(bytes[p + CODE_SIZE..p + RECORD_SIZE]))
  }

  /** The map the reader builds from the first n records. */
  function MapAt(bytes: seq<Byte>, n: nat): map<Code, Bits64>
    requires Size(n) <= |bytes|
  {
    if n == 0 then map[]
    else
      var r := RecordAt(bytes, n - 1);
      MapAt(bytes, n - 1)[r.0 := r.1]
  }

  // ---------- The programs' loops ----------

  /** memcpy into the segment. */
  method Store(segment: array<Byte>, p: nat, bytes: seq<Byte>)
    requires p + |bytes| <= segment.Length
    modifies segment
    ensures segment[..] == old(segment[..p]) + bytes + old(segment[p + |bytes|..])
  {
    var i := 0;
    while i < |bytes|
      invariant 0 <= i <= |bytes|
      invariant forall k :: 0 <= k < p ==> segment[k] == old(segment[k])
      invariant forall k :: p <= k < p + i ==> segment[k] == bytes[k - p]
      invariant forall k :: p + i <= k < segment.Length ==> segment[k] == old(segment[k])
    {
      segment[p + i] := bytes[i];
      i := i + 1;
    }
    assert segment[..p] == old(segment[..p]);
    assert segment[p..p + |bytes|] == bytes;
    assert segment[p + |bytes|..] == old(segment[p + |bytes|..]);
    assert segment[..] == segment[..p] + segment[p..p + |bytes|] + segment[p + |bytes|..];
  }

  /** One record, copied to where the pointer stands. */
  method StoreRecord(segment: array<Byte>, p: nat, kv: (Code, Bits64))
    requires p + RECORD_SIZE <= segment.Length
    modifies segment
    ensures segment[..p + RECORD_SIZE] == old(segment[..p]) + EncodeRecord(kv)
    ensures segment[p + RECORD_SIZE..] == old(segment[p + RECORD_SIZE..])
  {
    Store(segment, p, EncodeRecord(kv));
    ghost var whole := segment[..];
    assert whole[..p + RECORD_SIZE] == old(segment[..p]) + EncodeRecord(kv);
    assert whole[p + RECORD_SIZE..] == old(segment[p + RECORD_SIZE..]);
  }

  lemma ImageGrows(kvs: Records, i: nat)
    requires i < |kvs|
    ensures Encode(|kvs|, COUNT_SIZE) + EncodeRecords(kvs[..i + 1]) ==
            (Encode(|kvs|, COUNT_SIZE) + EncodeRecords(kvs[..i])) + EncodeRecord(kvs[i])
  {
    assert kvs[..i + 1][..i] == kvs[..i];
  }

  /** write_prices_to_shm: the pointer moves record by record; ok is false at the first store that would leave the
      segment. */
  method WritePrices(segment: array<Byte>, kvs: Records) returns (ok: bool)
    requires segment.Length >= COUNT_SIZE
    modifies segment
    ensures ok <==> Size(|kvs|) <= segment.Length
    ensures ok ==> segment[..Size(|kvs|)] == Image(kvs) && segment[Size(|kvs|)..] == old(segment[Size(|kvs|)..])
  {
    ghost var before := segment[..];
    Store(segment, 0, Encode(|kvs|, COUNT_SIZE));
    var p := COUNT_SIZE;
    var i := 0;
    assert kvs[..0] == [];
    while i < |kvs|
      invariant 0 <= i <= |kvs|
      invariant p == Size(i) <= segment.Length
      invariant segment[..p] == Encode(|kvs|, COUNT_SIZE) + EncodeRecords(kvs[..i])
      invariant segment[p..] == before[p..]
    {
      if p + RECORD_SIZE > segment.Length {
        return false;
      }
      StoreRecord(segment, p, kvs[i]);
      ImageGrows(kvs, i);
      assert segment[p + RECORD_SIZE..] == before[p..][RECORD_SIZE..];
      p := p + RECORD_SIZE;
      i := i + 1;
    }
    assert kvs[..i] == kvs;
    ok := true;
  }

  /** load_prices_from_shm: ok is false at the first load that would leave the segment. */
  method LoadPrices(segment: array<Byte>) returns (ok: bool, cache: map<Code, Bits64>)
    requires segment.Length >= COUNT_SIZE
    ensures var count := Decode(segment[..COUNT_SIZE]);
            && (ok <==> Size(count) <= segment.Length)
            && (ok ==> cache == MapAt(segment[..], count))
  {
    cache := map[];
    var count := Decode(segment[..COUNT_SIZE]);
    var p := COUNT_SIZE;
    var i := 0;
    while i < count
      invariant 0 <= i <= count
      invariant p == Size(i) <= segment.Length
      invariant cache == MapAt(segment[..], i)
    {
      if p + RECORD_SIZE > segment.Length {
        return false, cache;
      }
      assert segment[..][p..p + CODE_SIZE] == segment[p..p + CODE_SIZE];
      assert segment[..][p + CODE_SIZE..p + RECORD_SIZE] == segment[p + CODE_SIZE..p + RECORD_SIZE];
      var code := DecodeCode(segment[p..p + CODE_SIZE]);
      var price := DecodePrice(segment[p + CODE_SIZE..p + RECORD_SIZE]);
      cache := cache[code := price];
      p := p + RECORD_SIZE;
      i := i + 1;
    }
    ok := true;
  }

  // ---------- Round trip ----------

  /** kvs runs through m, each key once, in some order. */
  ghost predicate Lists(m: map<Code, Bits64>, kvs: Records) {
    && (forall i :: 0 <= i < |kvs| ==> kvs[i].0 in m && kvs[i].1 == m[kvs[i].0])
    && (forall c :: c in m ==> (c, m[c]) in kvs)
    && |kvs| < Power256(COUNT_SIZE)
  }

  lemma {:induction false} ImageRecord(kvs: Records, bytes: seq<Byte>, i: nat)
    requires i < |kvs| && EncodeRecords(kvs) <= bytes
    ensures bytes[RECORD_SIZE * i..RECORD_SIZE * (i + 1)] == EncodeRecord(kvs[i])
  {
    var n := |kvs| - 1;
    var init := EncodeRecords(kvs[..n]);
    assert init <= bytes by {
      assert bytes[..RECORD_SIZE * |kvs|] == EncodeRecords(kvs);
      assert bytes[..RECORD_SIZE * n] == EncodeRecords(kvs)[..RECORD_SIZE * n] == init;
    }
    if i < n {
      ImageRecord(kvs[..n], bytes, i);
    } else {
      assert bytes[..RECORD_SIZE * |kvs|] == EncodeRecords(kvs);
      assert bytes[RECORD_SIZE * i..RECORD_SIZE * (i + 1)] == EncodeRecords(kvs)[RECORD_SIZE * i..];
    }
  }

  lemma RecordParts(bytes: seq<Byte>, p: nat, r: seq<Byte>)
    requires |r| == RECORD_SIZE && p + RECORD_SIZE <= |bytes| && bytes[p..p + RECORD_SIZE] == r
    ensures bytes[p..p + CODE_SIZE] == r[..CODE_SIZE]
    ensures bytes[p + CODE_SIZE..p + RECORD_SIZE] == r[CODE_SIZE..]
  {
  }

  lemma ImageBody(kvs: Records, bytes: seq<Byte>)
    requires Image(kvs) <= bytes
    ensures EncodeRecords(kvs) <= bytes[COUNT_SIZE..]
  {
    assert bytes[..Size(|kvs|)] == Image(kvs);
    assert bytes[COUNT_SIZE..][..RECORD_SIZE * |kvs|] == Image(kvs)[COUNT_SIZE..] == EncodeRecords(kvs);
  }

  lemma {:induction false} ReadsRecord(kvs: Records, bytes: seq<Byte>, i: nat)
    requires i < |kvs| && Image(kvs) <= bytes
    ensures Size(i + 1) <= |bytes| && RecordAt(bytes, i) == kvs[i]
  {
    ImageBody(kvs, bytes);
    ImageRecord(kvs, bytes[COUNT_SIZE..], i);
    RecordRoundTrip(kvs[i]);
    assert bytes[COUNT_SIZE..][RECORD_SIZE * i..RECORD_SIZE * (i + 1)] == bytes[Size(i)..Size(i) + RECORD_SIZE];
    RecordParts(bytes, Size(i), EncodeRecord(kvs[i]));
  }

  /** The map built from the first n written records holds exactly those. */
  lemma {:induction false} MapAtHolds(kvs: Records, bytes: seq<Byte>, n: nat, m: map<Code, Bits64>)
    requires Lists(m, kvs) && Image(kvs) <= bytes && n <= |kvs|
    ensures forall c :: c in MapAt(bytes, n) ==> c in m && MapAt(bytes, n)[c] == m[c]
    ensures forall i :: 0 <= i < n ==> kvs[i].0 in MapAt(bytes, n)
  {
    if n > 0 {
      MapAtHolds(kvs, bytes, n - 1, m);
      ReadsRecord(kvs, bytes, n - 1);
    }
  }

  lemma CountRoundTrip(kvs: Records, bytes: seq<Byte>)
    requires |kvs| < Power256(COUNT_SIZE) && Image(kvs) <= bytes
    ensures Decode(bytes[..COUNT_SIZE]) == |kvs|
  {
    DecodeEncode(|kvs|, COUNT_SIZE);
    assert bytes[..Size(|kvs|)] == Image(kvs);
    assert bytes[..COUNT_SIZE] == Image(kvs)[..COUNT_SIZE] == Encode(|kvs|, COUNT_SIZE);
  }

  /** For every map and every iteration order, a reader whose view holds the image rebuilds exactly the map. */
  lemma {:induction false} ImageRoundTrip(m: map<Code, Bits64>, kvs: Records, bytes: seq<Byte>)
    requires Lists(m, kvs) && Image(kvs) <= bytes
    ensures Decode(bytes[..COUNT_SIZE]) == |kvs|
    ensures MapAt(bytes, |kvs|) == m
  {
    CountRoundTrip(kvs, bytes);
    MapAtHolds(kvs, bytes, |kvs|, m);
    forall c | c in m
      ensures c in MapAt(bytes, |kvs|)
    {
      var i :| 0 <= i < |kvs| && kvs[i] == (c, m[c]);
    }
  }

  /** Writer and reader on one segment of the writer's size, the reader mapping only its own declared size:
      84 prices is exactly what the reader can take, 170 what the writer can. */
  method Publish(m: map<Code, Bits64>, kvs: Records) returns (written: bool, loaded: bool, cache: map<Code, Bits64>)
    requires Lists(m, kvs)
    ensures written <==> |kvs| <= 170
    ensures written ==> (loaded <==> |kvs| <= 84)
    ensures written && loaded ==> cache == m
  {
    var segment := new Byte[WRITER_SIZE](_ => 0);
    written := WritePrices(segment, kvs);
    loaded, cache := false, map[];
    if written {
      var view := new Byte[READER_SIZE](i requires 0 <= i < READER_SIZE reads segment => segment[i]);
      assert view[..COUNT_SIZE] == segment[..COUNT_SIZE];
      assert Image(kvs) <= segment[..];
      CountRoundTrip(kvs, segment[..]);
      assert segment[..][..COUNT_SIZE] == segment[..COUNT_SIZE];
      loaded, cache := LoadPrices(view);
      if loaded {
        assert view[..] == segment[..READER_SIZE];
        assert Image(kvs) <= view[..];
        ImageRoundTrip(m, kvs, view[..]);
      }
    }
  }

  // ---------- The layout ----------

  lemma {:induction false} EncodeAt(n: nat, k: nat, j: nat)
    requires j < k
    ensures Encode(n, k)[j] == n / Power256(j) % 256
  {
    if j > 0 {
      EncodeAt(n / 256, k - 1, j - 1);
      DivideTwice(n, 256, Power256(j - 1));
    }
  }

  lemma RecordByte(kvs: Records, i: nat, j: nat)
    requires i < |kvs| && j < 12
    ensures Image(kvs)[8 + 12 * i + j] == EncodeRecord(kvs[i])[j]
  {
    var body := EncodeRecords(kvs);
    ImageRecord(kvs, body, i);
    assert body[12 * i..12 * (i + 1)][j] == EncodeRecord(kvs[i])[j];
  }

  /** Byte j of record i, and of the count before the records: all numbers low byte first, negative codes in two's
      complement. */
  lemma {:induction false} ImageLayout(kvs: Records, i: nat, j: nat)
    ensures j < 8 ==> Image(kvs)[j] == |kvs| / Power256(j) % 256
    ensures i < |kvs| && j < 4 ==>
              Image(kvs)[8 + 12 * i + j] ==
              (if kvs[i].0 < 0 then kvs[i].0 + 0x1_0000_0000 else kvs[i].0) / Power256(j) % 256
    ensures i < |kvs| && j < 8 ==> Image(kvs)[8 + 12 * i + 4 + j] == kvs[i].1 / Power256(j) % 256
  {
    if j < 8 {
      EncodeAt(|kvs|, 8, j);
    }
    if i < |kvs| && j < 4 {
      RecordByte(kvs, i, j);
      EncodeAt(ToUnsigned(kvs[i].0), 4, j);
    }
    if i < |kvs| && j < 8 {
      RecordByte(kvs, i, 4 + j);
      EncodeAt(kvs[i].1, 8, j);
    }
  }
}

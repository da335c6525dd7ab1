/** The 12-byte gps_frame from the STM32 through the BeagleBone to the server, on little-endian hosts: packed, reversed,
    decoded, re-encoded and decoded again, each time as the program there does it. */
module FramePath {
  import opened Octets

  /** A packed gps_frame in memory. A float is carried as its four bytes in memory order. */
  datatype GpsFrame = GpsFrame(deviceId: UInt16, cordX: seq<Byte>, cordY: seq<Byte>, status: UInt16)

  predicate WellFormed(f: GpsFrame) {
    |f.cordX| == 4 && |f.cordY| == 4
  }

  function Low(w: UInt16): Byte {
    w % 0x100
  }

  function High(w: UInt16): Byte {
    w / 0x100
  }

  /** A 16-bit load of two bytes. */
  function Load16(lo: Byte, hi: Byte): UInt16 {
    0x100 * (hi as int) + lo
  }

  /** swap16, htons and ntohs: of the left shift the sixteen bits keep the low byte. */
  function Swap16(v: UInt16): UInt16 {
    Load16(High(v), Low(v))
  }

  function Load32(b: seq<Byte>): UInt32
    requires |b| == 4
  {
    0x100_0000 * (b[3] as int) + 0x1_0000 * (b[2] as int) + 0x100 * (b[1] as int) + b[0]
  }

  function Store32(w: UInt32): seq<Byte> {
    [w % 0x100, w / 0x100 % 0x100, w / 0x1_0000 % 0x100, w / 0x100_0000]
  }

  /** ntohl: the four shifted and masked bytes change places. */
  function Swap32(w: UInt32): UInt32 {
    var b := Store32(w);
    Load32([b[3], b[2], b[1], b[0]])
  }

  /** memcpy of the packed struct. */
  function Pack(f: GpsFrame): (bytes: seq<Byte>)
    requires WellFormed(f)
    ensures |bytes| == FRAME_SIZE
  {
    [Low(f.deviceId), High(f.deviceId)] + f.cordX + f.cordY + [Low(f.status), High(f.status)]
  }

  function Unpack(bytes: seq<Byte>): (f: GpsFrame)
    requires |bytes| == FRAME_SIZE
    ensures WellFormed(f)
  {
    GpsFrame(Load16(bytes[0], bytes[1]), bytes[2..6], bytes[6..10], Load16(bytes[10], bytes[11]))
  }

  function Reverse<T>(s: seq<T>): (r: seq<T>)
    ensures |r| == |s|
    ensures forall i :: 0 <= i < |s| ==> r[i] == s[|s| - 1 - i]
  {
    if s == [] then [] else [s[|s| - 1]] + Reverse(s[..|s| - 1])
  }

  lemma ReverseTwice<T>(s: seq<T>)
    ensures Reverse(Reverse(s)) == s
  {
  }

  /** The STM32's SwapEndian: swap cells from both ends. */
  method SwapEndian(data: array<Byte>)
    modifies data
    ensures data[..] == Reverse(old(data[..]))
  {
    var n := data.Length;
    var i := 0;
    while i < n / 2
      invariant 0 <= i <= n / 2
      invariant forall k :: 0 <= k < i ==> data[k] == old(data[n - 1 - k]) && data[n - 1 - k] == old(data[k])
      invariant forall k :: i <= k < n - i ==> data[k] == old(data[k])
    {
      var temp := data[i];
      data[i] := data[n - i - 1];
      data[n - i - 1] := temp;
      i := i + 1;
    }
  }

  /** swap_float: fill a float's bytes one by one from the other end. */
  method SwapFloat(b: seq<Byte>) returns (f: seq<Byte>)
    requires |b| == 4
    ensures f == Reverse(b)
  {
    var u := new Byte[4];
    u[0] := b[3];
    u[1] := b[2];
    u[2] := b[1];
    u[3] := b[0];
    f := u[..];
  }

  /** i2c_read_frame: None when the bus read did not return twelve bytes. */
  method I2cReadFrame(raw: seq<Byte>) returns (ok: bool, frame: GpsFrame)
    ensures ok <==> |raw| == FRAME_SIZE
    ensures ok ==> frame == I2cDecode(raw)
  {
    ok := |raw| == FRAME_SIZE;
    frame := GpsFrame(0, [], [], 0);
    if ok {
      var status := Swap16(Load16(raw[0], raw[1]));
      var y := SwapFloat(raw[2..6]);
      var x := SwapFloat(raw[6..10]);
      var id := Swap16(Load16(raw[10], raw[11]));
      frame := GpsFrame(id, x, y, status);
    }
  }

  function I2cDecode(raw: seq<Byte>): GpsFrame
    requires |raw| == FRAME_SIZE
  {
    GpsFrame(Swap16(Load16(raw[10], raw[11])), Reverse(raw[6..10]), Reverse(raw[2..6]), Swap16(Load16(raw[0], raw[1])))
  }

  /** The daemon's re-encoding for the pipe: only the 16-bit fields go to network order. */
  function DaemonEncode(f: GpsFrame): GpsFrame {
    f.(deviceId := Swap16(f.deviceId), status := Swap16(f.status))
  }

  /** float_from_big_endian: the four bytes as a word, byte-swapped. */
  function FloatFromBigEndian(b: seq<Byte>): seq<Byte>
    requires |b| == 4
  {
    Store32(Swap32(Load32(b)))
  }

  /** The server's decoding of the bytes it received. */
  function ServerDecode(bytes: seq<Byte>): GpsFrame
    requires |bytes| == FRAME_SIZE
  {
    var raw := Unpack(bytes);
    GpsFrame(Swap16(raw.deviceId), FloatFromBigEndian(raw.cordX), FloatFromBigEndian(raw.cordY), Swap16(raw.status))
  }

  lemma LoadParts(lo: Byte, hi: Byte)
    ensures Low(Load16(lo, hi)) == lo && High(Load16(lo, hi)) == hi
  {
  }

  lemma PartsLoad(w: UInt16)
    ensures Load16(Low(w), High(w)) == w
  {
  }

  lemma WordBytes(w: UInt16)
    ensures Load16(Low(w), High(w)) == w
    ensures Swap16(Swap16(w)) == w
  {
    PartsLoad(w);
    LoadParts(High(w), Low(w));
  }

  lemma StoreLoad(b: seq<Byte>)
    requires |b| == 4
    ensures Store32(Load32(b)) == b
  {
    var w := Load32(b);
    assert w / 0x100_0000 == b[3];
    assert w / 0x1_0000 == 0x100 * (b[3] as int) + b[2];
    assert w / 0x100 == 0x1_0000 * (b[3] as int) + 0x100 * (b[2] as int) + b[1];
  }

  lemma FloatIsReversed(b: seq<Byte>)
    requires |b| == 4
    ensures FloatFromBigEndian(b) == Reverse(b)
  {
    StoreLoad(b);
    StoreLoad([b[3], b[2], b[1], b[0]]);
    FourReversed(b, [b[3], b[2], b[1], b[0]]);
  }

  /** The BeagleBone undoes what the STM32 did: all four fields arrive. */
  lemma BusRoundTrip(f: GpsFrame)
    requires WellFormed(f)
    ensures I2cDecode(Reverse(Pack(f))) == f
  {
    ReversedFields(f);
    SwappedWord(f.deviceId);
    SwappedWord(f.status);
    ReverseTwice(f.cordX);
    ReverseTwice(f.cordY);
  }

  /** What the BeagleBone finds where in the reversed frame. */
  lemma ReversedFields(f: GpsFrame)
    requires WellFormed(f)
    ensures var raw := Reverse(Pack(f));
            && raw[0] == High(f.status) && raw[1] == Low(f.status)
            && raw[10] == High(f.deviceId) && raw[11] == Low(f.deviceId)
            && raw[2..6] == Reverse(f.cordY) && raw[6..10] == Reverse(f.cordX)
  {
  }

  lemma SwappedWord(w: UInt16)
    ensures Swap16(Load16(High(w), Low(w))) == w
  {
    PartsLoad(w);
    LoadParts(High(w), Low(w));
  }

  /** What reaches the ledger: the bytes the STM32 sent, decoded and re-encoded by the daemon, forwarded by
      the client untouched, decoded by the server. */
  function Delivered(f: GpsFrame): GpsFrame
    requires WellFormed(f)
  {
    ServerDecode(Pack(DaemonEncode(I2cDecode(Reverse(Pack(f))))))
  }

  lemma UnpackPack(f: GpsFrame)
    requires WellFormed(f)
    ensures Unpack(Pack(f)) == f
  {
    var p := Pack(f);
    assert p[2..6] == f.cordX && p[6..10] == f.cordY;
    PartsLoad(f.deviceId);
    PartsLoad(f.status);
  }

  /** Identity and status survive the three machines; each coordinate arrives with its bytes reversed. */
  lemma PathReversesCoordinates(f: GpsFrame)
    requires WellFormed(f)
    ensures Delivered(f) == GpsFrame(f.deviceId, Reverse(f.cordX), Reverse(f.cordY), f.status)
  {
    BusRoundTrip(f);
    UnpackPack(DaemonEncode(f));
    WordBytes(f.deviceId);
    WordBytes(f.status);
    FloatIsReversed(f.cordX);
    FloatIsReversed(f.cordY);
  }

  predicate Mirror(b: seq<Byte>)
    requires |b| == 4
  {
    b[0] == b[3] && b[1] == b[2]
  }

  /** So a frame arrives intact exactly when the bytes of both coordinates read the same from either end. */
  lemma PathIsFaithfulIff(f: GpsFrame)
    requires WellFormed(f)
    ensures Delivered(f) == f <==> Mirror(f.cordX) && Mirror(f.cordY)
  {
    PathReversesCoordinates(f);
    MirrorIff(f.cordX);
    MirrorIff(f.cordY);
  }

  lemma MirrorIff(b: seq<Byte>)
    requires |b| == 4
    ensures Reverse(b) == b <==> Mirror(b)
  { }

  /** The first coordinate of the generator, 31.962 in single precision, is one that does not survive. */
  lemma FirstCoordinateIsLost(f: GpsFrame)
    requires WellFormed(f) && f.cordX == [0x2D, 0xB2, 0xFF, 0x41]
    ensures Delivered(f) != f && Delivered(f).cordX == [0x41, 0xFF, 0xB2, 0x2D]
  {
    var r := [0x41, 0xFF, 0xB2, 0x2D];
    assert Reverse(f.cordX) == r && r[0] != f.cordX[0] by {
      FourReversed(f.cordX, r);
    }
    PathReversesCoordinates(f);
  }

  lemma FourReversed(b: seq<Byte>, r: seq<Byte>)
    requires |b| == |r| == 4 && r[0] == b[3] && r[1] == b[2] && r[2] == b[1] && r[3] == b[0]
    ensures Reverse(b) == r
  {
  }

  /** A daemon that also put the coordinates in network order, as the client's log comment believes it does, would be
      faithful. */
  lemma NetworkOrderWouldBeFaithful(f: GpsFrame)
    requires WellFormed(f)
    ensures var g := DaemonEncode(I2cDecode(Reverse(Pack(f))));
            ServerDecode(Pack(g.(cordX := Reverse(g.cordX), cordY := Reverse(g.cordY)))) == f
  {
    BusRoundTrip(f);
    var g := DaemonEncode(f);
    UnpackPack(g.(cordX := Reverse(g.cordX), cordY := Reverse(g.cordY)));
    WordBytes(f.deviceId);
    WordBytes(f.status);
    FloatIsReversed(Reverse(f.cordX));
    FloatIsReversed(Reverse(f.cordY));
    ReverseTwice(f.cordX);
    ReverseTwice(f.cordY);
  }

  /** In memory words come low byte first, between the daemon and the server high byte first. */
  lemma PackedInOrder(f: GpsFrame)
    requires WellFormed(f)
    ensures Pack(f) == [f.deviceId % 256, f.deviceId / 256] + f.cordX + f.cordY + [f.status % 256, f.status / 256]
    ensures Pack(DaemonEncode(f)) ==
            [f.deviceId / 256, f.deviceId % 256] + f.cordX + f.cordY + [f.status / 256, f.status % 256]
  {
    LoadParts(High(f.deviceId), Low(f.deviceId));
    LoadParts(High(f.status), Low(f.status));
  }

  /** What the two decoders find in twelve bytes, byte by byte. */
  lemma DecodedByByte(b: seq<Byte>)
    requires |b| == 12
    ensures I2cDecode(b) == GpsFrame(256 * (b[10] as int) + b[11], [b[9], b[8], b[7], b[6]], [b[5], b[4], b[3], b[2]],
                                     256 * (b[0] as int) + b[1])
    ensures ServerDecode(b) == GpsFrame(256 * (b[0] as int) + b[1], [b[5], b[4], b[3], b[2]], [b[9], b[8], b[7], b[6]],
                                        256 * (b[10] as int) + b[11])
  {
    WordByByte(b[0], b[1]);
    WordByByte(b[10], b[11]);
    FloatIsReversed(b[2..6]);
    FloatIsReversed(b[6..10]);
    FourReversed(b[2..6], [b[5], b[4], b[3], b[2]]);
    FourReversed(b[6..10], [b[9], b[8], b[7], b[6]]);
  }

  lemma WordByByte(first: Byte, second: Byte)
    ensures Swap16(Load16(first, second)) == 256 * (first as int) + second
  {
    LoadParts(first, second);
  }
}

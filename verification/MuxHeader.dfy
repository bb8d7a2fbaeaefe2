/** The frame headers of the mux transport: version 1 of the protocol, and versions 2 and later. */
module MuxHeader {
  import opened Bytes

  const V1_HEADER_SIZE: nat := 7
  const V2_HEADER_SIZE_MIN: nat := 6
  const V2_HEADER_SIZE_MAX: nat := 14

  /** Types of data are below this value, which is added to the version of the protocol. */
  const DATA_TYPE_MAX: nat := 10

  datatype Header = Header(dataType: byte, id: byte, num: u16)

  datatype WriteResult = Written | WriteInvalid | NoBufferSpace

  /** A buffer with a fixed capacity, used up to `len`. */
  class Buffer {
    const data: array<byte>
    var len: nat

    ghost predicate Valid()
      reads this
    {
      len <= data.Length
    }

    ghost function Contents(): seq<byte>
      requires Valid()
      reads this, data
    {
      data[..len]
    }

    constructor (capacity: nat)
      ensures Valid() && Contents() == [] && data.Length == capacity && fresh(data)
    {
      data := new byte[capacity];
      len := 0;
    }

    /** Writes bytes at a cursor after the used part. */
    method Put(at: nat, bytes: seq<byte>)
      requires Valid() && len <= at && at + |bytes| <= data.Length
      modifies data
      ensures data[..at + |bytes|] == old(data[..at]) + bytes
    {
      forall i | 0 <= i < |bytes| {
        data[at + i] := bytes[i];
      }
    }

    /** Version 2 and later: the version with its offset, the type, the identifier, the sequence
        number in 16 bits and the length of the payload. */
    method EncodeV2(h: Header, protoV: u32, payloadLen: u32) returns (res: WriteResult, headerLen: nat)
      requires Valid()
      modifies `len, data
      ensures res == if protoV > 0xFFFF_FFFF - DATA_TYPE_MAX then WriteInvalid
                     else if data.Length - old(len) < V2_HEADER_SIZE_MAX then NoBufferSpace else Written
      ensures Valid()
      ensures res == Written ==>
        Contents() == old(Contents()) + BytesV2(h, protoV, payloadLen) && headerLen == |BytesV2(h, protoV, payloadLen)|
      ensures res != Written ==> Contents() == old(Contents())
    {
      hide WriteVarint, LittleEndian;
      headerLen := 0;
      if protoV > 0xFFFF_FFFF - DATA_TYPE_MAX {
        return WriteInvalid, 0;
      }
      if data.Length - len < V2_HEADER_SIZE_MAX {
        return NoBufferSpace, 0;
      }
      var version, size := WriteVarint(protoV + DATA_TYPE_MAX), WriteVarint(payloadLen);
      ghost var before := Contents();
      var at := len;
      Put(at, version);
      at := at + |version|;
      Put(at, [h.dataType, h.id]);
      at := at + 2;
      Put(at, [(h.num % 256) as byte, (h.num / 256) as byte]);
      at := at + 2;
      Put(at, size);
      at := at + |size|;
      headerLen := at - len;
      TwoBytes(h.num);
      assert data[..at] == before + BytesV2(h, protoV, payloadLen);
      len := at;
      res := Written;
    }

    /** Version 1: the type, the identifier, the low byte of the sequence number and the length of
        the whole frame in 32 bits. */
    method EncodeV1(h: Header, frameSize: u32) returns (res: WriteResult)
      requires Valid()
      modifies this, data
      ensures res == if data.Length - old(len) < V1_HEADER_SIZE then WriteInvalid else Written
      ensures Valid()
      ensures Contents() == if res == Written then old(Contents()) + BytesV1(h, frameSize) else old(Contents())
    {
      if data.Length - len < V1_HEADER_SIZE {
        return WriteInvalid;
      }
      ghost var before := Contents();
      data[len] := h.dataType;
      data[len + 1] := h.id;
      data[len + 2] := (h.num % 256) as byte;
      data[len + 3] := (frameSize % 256) as byte;
      data[len + 4] := (frameSize / 0x100 % 256) as byte;
      data[len + 5] := (frameSize / 0x1_0000 % 256) as byte;
      data[len + 6] := (frameSize / 0x100_0000 % 256) as byte;
      FourBytes(frameSize);
      assert data[..len + 7] == before + BytesV1(h, frameSize);
      len := len + V1_HEADER_SIZE;
      return Written;
    }
  }

  // ----- Formats -----

  function BytesV1(h: Header, frameSize: u32): (r: seq<byte>)
    ensures |r| == V1_HEADER_SIZE
  {
    [h.dataType, h.id, (h.num % 256) as byte] + LittleEndian(frameSize, 4)
  }

  function BytesV2(h: Header, protoV: nat, payloadLen: nat): seq<byte> {
    WriteVarint(protoV + DATA_TYPE_MAX) + [h.dataType, h.id] + LittleEndian(h.num, 2) + WriteVarint(payloadLen)
  }

  /** A header read: its length and that of the payload announced. */
  datatype Parsed = Parsed(header: Header, headerLen: nat, payloadLen: nat)

  function ParseV1(buf: seq<byte>): Option<Parsed>
    requires |buf| >= V1_HEADER_SIZE
  {
    var frameLen := FromLittleEndian(buf[3..7]);
    if frameLen < V1_HEADER_SIZE then None
    else Some(Parsed(Header(buf[0], buf[1], buf[2] as u16), V1_HEADER_SIZE, frameLen - V1_HEADER_SIZE))
  }

  function ParseV2(buf: seq<byte>): (r: Option<Parsed>)
    ensures r.Some? ==> V2_HEADER_SIZE_MIN <= r.value.headerLen <= V2_HEADER_SIZE_MAX && r.value.headerLen <= |buf|
  {
    if buf == [] || buf[0] as nat < DATA_TYPE_MAX then None
    else match ReadVarint(buf)
      case None => None
      case Some((version, len)) =>
        if version < DATA_TYPE_MAX + 2 || |buf| - len < 5 then None
        else match ReadVarint(buf[len + 4..])
          case None => None
          case Some((payloadLen, sizeLen)) =>
            Some(Parsed(Header(buf[len], buf[len + 1], buf[len + 2] as nat + 256 * buf[len + 3] as nat),
                        len + 4 + sizeLen, payloadLen))
  }

  /** The decoder of version 2 and later, with its cursor. It refuses what starts with a type of
      version 1, and versions below 2. */
  method DecodeV2(buf: seq<byte>) returns (r: Option<Parsed>)
    ensures r == ParseV2(buf)
  {
    var data := buf;
    if buf == [] || data[0] as nat < DATA_TYPE_MAX {
      return None;
    }
    var ok, protoV, len := ReadProtoV(data);
    if !ok {
      return None;
    }
    data := data[len..];
    if protoV < 2 {
      return None;
    }
    if |data| < 5 {
      return None;
    }
    var dataType, id := data[0], data[1];
    var num := data[2] as nat + 256 * data[3] as nat;
    data := data[4..];
    assert buf[len..][4..] == buf[len + 4..];
    var size := ReadVarint(data);
    if size == None {
      return None;
    }
    data := data[size.value.1..];
    return Some(Parsed(Header(dataType, id, num), |buf| - |data|, size.value.0));
  }

  /** The version of the protocol at the start of a frame: a value below the offset is a type of
      version 1, which has no version data. */
  method ReadProtoV(src: seq<byte>) returns (ok: bool, protoV: nat, len: nat)
    ensures ok == ReadVarint(src).Some?
    ensures ok ==> var (v, n) := ReadVarint(src).value;
      if v < DATA_TYPE_MAX then protoV == 1 && len == 0 else protoV == v - DATA_TYPE_MAX && len == n
    ensures len <= |src|
  {
    ok, protoV, len := false, 0, 0;
    var r := ReadVarint(src);
    if r.Some? {
      ok := true;
      if r.value.0 < DATA_TYPE_MAX {
        protoV, len := 1, 0;
      } else {
        protoV, len := r.value.0 - DATA_TYPE_MAX, r.value.1;
      }
    }
  }

  method DecodeV1(buf: seq<byte>) returns (r: Option<Parsed>)
    requires |buf| >= V1_HEADER_SIZE
    ensures r == ParseV1(buf)
  {
    var frameLen := buf[3] as nat + 0x100 * buf[4] as nat + 0x1_0000 * buf[5] as nat + 0x100_0000 * buf[6] as nat;
    FromFourBytes(buf[3..7]);
    if frameLen < V1_HEADER_SIZE {
      return None;
    }
    return Some(Parsed(Header(buf[0], buf[1], buf[2] as u16), V1_HEADER_SIZE, frameLen - V1_HEADER_SIZE));
  }

  // ----- The formats in bytes -----

  /** The header of version 1: the type, the identifier, the low byte of the number, and the length of
      the frame in four bytes. A length below 7 is refused. */
  lemma BytesOfV1(h: Header, n: u32, buf: seq<byte>)
    ensures BytesV1(h, n) == [h.dataType, h.id, (h.num % 256) as byte, (n % 256) as byte, (n / 0x100 % 256) as byte,
                              (n / 0x1_0000 % 256) as byte, (n / 0x100_0000 % 256) as byte]
    ensures |buf| >= 7 ==> (ParseV1(buf) == None <==>
      buf[3] as nat + 0x100 * buf[4] as nat + 0x1_0000 * buf[5] as nat + 0x100_0000 * buf[6] as nat < 7)
  {
    FourBytes(n);
    if |buf| >= 7 {
      FromFourBytes(buf[3..7]);
    }
  }

  /** The header of version 2 or later: the version plus 10 and the length of the payload as integers of
      variable length, and between them the type, the identifier and the number, low byte first. */
  lemma BytesOfV2(h: Header, protoV: nat, n: nat)
    ensures BytesV2(h, protoV, n) ==
      WriteVarint(protoV + 10) + [h.dataType, h.id, (h.num % 256) as byte, (h.num / 256) as byte] + WriteVarint(n)
    ensures protoV == 2 ==> BytesV2(h, protoV, n)[0] == 12
    ensures protoV == 2 && n < 0x80 ==>
      BytesV2(h, protoV, n) == [12, h.dataType, h.id, (h.num % 256) as byte, (h.num / 256) as byte, n as byte]
  {
    TwoBytes(h.num);
  }

  /** A frame whose first byte is below 12 is not of version 2 or later. */
  lemma RefusedV2(buf: seq<byte>)
    ensures buf != [] && buf[0] < 12 ==> ParseV2(buf) == None
  {
    hide FromLittleEndian;
  }

  // ----- Round trips -----

  lemma FirstByte(n: nat)
    ensures WriteVarint(n)[0] as nat >= if n < 0x80 then n else 0x80
  {
  }

  /** A header of version 2 or later is read back exactly, with its length, whatever follows it; one
      with a smaller version is refused. */
  lemma RoundTripV2(h: Header, protoV: u32, payloadLen: u32, after: seq<byte>)
    requires protoV <= 0xFFFF_FFFF - DATA_TYPE_MAX
    ensures ParseV2(BytesV2(h, protoV, payloadLen) + after) ==
      if protoV >= 2 then Some(Parsed(h, |BytesV2(h, protoV, payloadLen)|, payloadLen)) else None
  {
    hide ReadVarint, WriteVarint, LittleEndian;
    var version, size := WriteVarint(protoV + DATA_TYPE_MAX), WriteVarint(payloadLen);
    var middle := [h.dataType, h.id] + LittleEndian(h.num, 2);
    var buf := BytesV2(h, protoV, payloadLen) + after;
    assert buf == version + (middle + size + after);
    VarintRoundTrip(protoV + DATA_TYPE_MAX, middle + size + after);
    FirstByte(protoV + DATA_TYPE_MAX);
    TwoBytes(h.num);
    assert buf[|version| + 4..] == size + after;
    VarintRoundTrip(payloadLen, after);
  }

  /** Nothing that starts with a type of version 1 is ever taken for a frame of version 2, whole or
      not, and the headers of version 1 do start so. */
  lemma V1IsNotV2(buf: seq<byte>, h: Header, frameSize: u32, after: seq<byte>)
    ensures buf != [] && buf[0] as nat < DATA_TYPE_MAX ==> ParseV2(buf) == None
    ensures h.dataType as nat < DATA_TYPE_MAX ==> ParseV2(BytesV1(h, frameSize) + after) == None
  {
    hide ReadVarint;
  }

  /** A header of version 1 is read back with its sequence number modulo 256, if the frame is at
      least as long as its header. */
  lemma RoundTripV1(h: Header, frameSize: u32, after: seq<byte>)
    ensures ParseV1(BytesV1(h, frameSize) + after) ==
      if frameSize < V1_HEADER_SIZE then None
      else Some(Parsed(h.(num := h.num % 256), V1_HEADER_SIZE, frameSize - V1_HEADER_SIZE))
  {
    hide LittleEndian, FromLittleEndian;
    var buf := BytesV1(h, frameSize) + after;
    assert Pow256(4) == 0x1_0000_0000;
    LittleEndianRoundTrip(frameSize, 4);
    assert buf[3..7] == LittleEndian(frameSize, 4);
  }
}

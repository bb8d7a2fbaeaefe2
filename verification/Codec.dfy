/** The encoding of the arguments of a command, driven by its description, and its decoding. */
module Codec {
  import opened Bytes

  // ----- Values -----

  /** The types of arguments of a description, and a code that is none of them. */
  datatype ArgType =
    | I8 | U8 | I16 | U16 | I32 | U32 | I64 | U64 | Float | Double | String | Enum | Binary
    | UnknownType

  /** How many bytes a number of this type takes; 0 for the other types. Floating-point numbers are
      taken as their bits. */
  function Width(t: ArgType): nat {
    match t
    case I8 => 1 case U8 => 1
    case I16 => 2 case U16 => 2
    case I32 => 4 case U32 => 4 case Float => 4 case Enum => 4
    case I64 => 8 case U64 => 8 case Double => 8
    case _ => 0
  }

  predicate Signed(t: ArgType) {
    t == I8 || t == I16 || t == I32 || t == I64 || t == Enum
  }

  /** An argument: a number, a string that may be missing, or a block of bytes. */
  datatype Value =
    | Number(t: ArgType, v: int)
    | Text(cstr: Option<seq<byte>>)
    | Block(bytes: seq<byte>)
  {
    function Type(): ArgType {
      match this
      case Number(t, _) => t
      case Text(_) => String
      case Block(_) => Binary
    }

    /** Whether the C type of the argument can hold the value. */
    predicate Valid() {
      match this
      case Number(t, v) =>
        Width(t) > 0 && (if Signed(t) then 0 <= 2 * v + Pow256(Width(t)) < 2 * Pow256(Width(t)) else 0 <= v < Pow256(Width(t)))
      case Text(s) => s.Some? ==> 0 !in s.value
      case Block(b) => |b| < 0x1_0000_0000
    }

    /** A missing string is sent as an empty one. */
    function Normal(): Value {
      if this == Text(None) then Text(Some([])) else this
    }
  }

  /** The two's complement of a number of `w` bytes. */
  function ToUnsigned(v: int, w: nat): int {
    if v < 0 then v + Pow256(w) else v
  }

  function FromUnsigned(t: ArgType, d: nat): int {
    if Signed(t) && 2 * d >= Pow256(Width(t)) then d - Pow256(Width(t)) else d
  }

  // ----- The format -----

  function EncodeValue(v: Value): (r: seq<byte>)
    requires v.Valid()
  {
    match v
    case Number(t, n) => LittleEndian(ToUnsigned(n, Width(t)), Width(t))
    case Text(s) => (if s.Some? then s.value else []) + [0]
    case Block(b) => LittleEndian(|b|, 4) + b
  }

  function EncodeValues(vs: seq<Value>): seq<byte>
    requires forall v <- vs :: v.Valid()
  {
    if vs == [] then [] else EncodeValue(vs[0]) + EncodeValues(vs[1..])
  }

  /** The place of the first zero byte at or after `pos`. */
  function FindNul(data: seq<byte>, pos: nat): (r: Option<nat>)
    ensures r.Some? ==> pos <= r.value < |data| && data[r.value] == 0 && 0 !in data[pos..r.value]
    ensures r == None ==> forall i :: pos <= i < |data| ==> data[i] != 0
    decreases |data| - pos
  {
    if pos >= |data| then None
    else if data[pos] == 0 then Some(pos)
    else
      var r := FindNul(data, pos + 1);
      assert r.Some? ==> data[pos..r.value] == [data[pos]] + data[pos + 1..r.value];
      r
  }

  /** Reads a value of the given type at `off`: the value and the place after it. */
  function DecodeValue(t: ArgType, data: seq<byte>, off: nat): (r: Option<(Value, nat)>)
    ensures r.Some? ==> off <= r.value.1 <= |data|
  {
    if Width(t) > 0 then
      if off + Width(t) > |data| then None
      else Some((Number(t, FromUnsigned(t, FromLittleEndian(data[off..off + Width(t)]))), off + Width(t)))
    else if t == String then
      match FindNul(data, off)
      case None => None
      case Some(pos) => Some((Text(Some(data[off..pos])), pos + 1))
    else if t == Binary then
      if off + 4 > |data| then None
      else
        var len := FromLittleEndian(data[off..off + 4]);
        if off + 4 + len > |data| then None
        else Some((Block(data[off + 4..off + 4 + len]), off + 4 + len))
    else None
  }

  function DecodeValues(ts: seq<ArgType>, data: seq<byte>, off: nat): (r: Option<(seq<Value>, nat)>)
    ensures r.Some? ==> off <= r.value.1 && |r.value.0| == |ts|
    ensures r.Some? && off <= |data| ==> r.value.1 <= |data|
  {
    if ts == [] then Some(([], off))
    else
      match DecodeValue(ts[0], data, off)
      case None => None
      case Some((v, off1)) =>
        match DecodeValues(ts[1..], data, off1)
        case None => None
        case Some((vs, off2)) => Some(([v] + vs, off2))
  }

  /** Where the reading of a value stops: after it, or, when it is not all there, where it began; but a
      block whose length is there stops after the length. */
  function Stop(t: ArgType, data: seq<byte>, off: nat): nat {
    match DecodeValue(t, data, off)
    case Some((_, end)) => end
    case None => if t == Binary && off + 4 <= |data| then off + 4 else off
  }

  /** Where the reading of values stops: after all of them, or at the first that is not all there. */
  function StopAll(ts: seq<ArgType>, data: seq<byte>, off: nat): nat {
    if ts == [] then off
    else if DecodeValue(ts[0], data, off) == None then Stop(ts[0], data, off)
    else StopAll(ts[1..], data, Stop(ts[0], data, off))
  }

  lemma StopAtEnd(t: ArgType, data: seq<byte>, off: nat)
    ensures DecodeValue(t, data, off).Some? ==> Stop(t, data, off) == DecodeValue(t, data, off).value.1
  {
  }

  /** Reading never goes beyond the end of the data, also when it fails; a reader that is beyond it
      already stays where it is. */
  lemma {:induction false} StopBound(ts: seq<ArgType>, data: seq<byte>, off: nat)
    ensures off <= |data| ==> off <= StopAll(ts, data, off) <= |data|
    ensures off > |data| ==> StopAll(ts, data, off) == off
  {
    if ts != [] && DecodeValue(ts[0], data, off).Some? {
      StopBound(ts[1..], data, Stop(ts[0], data, off));
    }
  }

  // ----- Round trips -----

  lemma NumberRoundTrip(t: ArgType, v: int)
    requires Number(t, v).Valid()
    ensures 0 <= ToUnsigned(v, Width(t)) < Pow256(Width(t))
    ensures FromUnsigned(t, ToUnsigned(v, Width(t))) == v
  {
  }

  lemma NumberFromBytes(t: ArgType, d: nat)
    requires Width(t) > 0 && d < Pow256(Width(t))
    ensures Number(t, FromUnsigned(t, d)).Valid() && ToUnsigned(FromUnsigned(t, d), Width(t)) == d
  {
  }

  lemma FindNulAt(data: seq<byte>, pos: nat, at: nat)
    requires pos <= at < |data| && data[at] == 0 && 0 !in data[pos..at]
    ensures FindNul(data, pos) == Some(at)
  {
  }

  /** Decoding at the place of an encoded value gives it back, whatever is before and after it. */
  lemma ValueRoundTrip(v: Value, before: seq<byte>, after: seq<byte>)
    requires v.Valid()
    ensures DecodeValue(v.Type(), before + EncodeValue(v) + after, |before|)
      == Some((v.Normal(), |before| + |EncodeValue(v)|))
  {
    hide LittleEndian, FromLittleEndian, FindNul, ToUnsigned, FromUnsigned;
    var code, off := EncodeValue(v), |before|;
    var data := before + code + after;
    assert data[off..off + |code|] == code;
    match v
    case Number(t, n) =>
      NumberRoundTrip(t, n);
      LittleEndianRoundTrip(ToUnsigned(n, Width(t)), Width(t));
    case Text(s) =>
      var text := if s.Some? then s.value else [];
      assert data[off..off + |text|] == text;
      FindNulAt(data, off, off + |text|);
    case Block(b) =>
      LittleEndianRoundTrip(|b|, 4);
      assert data[off..off + 4] == LittleEndian(|b|, 4);
      assert data[off + 4..off + 4 + |b|] == b;
  }

  function Types(vs: seq<Value>): (r: seq<ArgType>)
    ensures |r| == |vs|
  {
    seq(|vs|, i requires 0 <= i < |vs| => vs[i].Type())
  }

  function Normals(vs: seq<Value>): (r: seq<Value>)
    ensures |r| == |vs|
  {
    seq(|vs|, i requires 0 <= i < |vs| => vs[i].Normal())
  }

  /** Decoding the encoding of any arguments of any types gives them back and stops right after them. */
  lemma {:induction false} ValuesRoundTrip(vs: seq<Value>, before: seq<byte>, after: seq<byte>)
    requires forall v <- vs :: v.Valid()
    ensures DecodeValues(Types(vs), before + EncodeValues(vs) + after, |before|)
      == Some((Normals(vs), |before| + |EncodeValues(vs)|))
  {
    hide DecodeValue, EncodeValue;
    if vs != [] {
      assert vs[0] in vs && forall v <- vs[1..] :: v in vs;
      var code, rest := EncodeValue(vs[0]), EncodeValues(vs[1..]);
      ValueRoundTrip(vs[0], before, rest + after);
      ValuesRoundTrip(vs[1..], before + code, after);
      var data := before + EncodeValues(vs) + after;
      assert data == before + code + (rest + after) == (before + code) + rest + after;
      assert Types(vs)[1..] == Types(vs[1..]);
      assert Normals(vs) == [vs[0].Normal()] + Normals(vs[1..]);
    } else {
      assert Types(vs) == [] && Normals(vs) == [];
    }
  }

  /** What is decoded encodes to the very bytes that were read: no two encodings of one value. */
  lemma ValueCanonical(t: ArgType, data: seq<byte>, off: nat)
    requires DecodeValue(t, data, off).Some?
    ensures var (v, end) := DecodeValue(t, data, off).value;
      v.Valid() && v.Type() == t && EncodeValue(v) == data[off..end]
  {
    hide LittleEndian, FromLittleEndian;
    if Width(t) > 0 {
      var bytes := data[off..off + Width(t)];
      FromLittleEndianRoundTrip(bytes);
      NumberFromBytes(t, FromLittleEndian(bytes));
    } else if t == String {
      var pos := FindNul(data, off).value;
      assert data[off..pos + 1] == data[off..pos] + [0];
    } else {
      assert Pow256(4) == 0x1_0000_0000;
      FromLittleEndianRoundTrip(data[off..off + 4]);
      var len := FromLittleEndian(data[off..off + 4]);
      assert data[off..off + 4 + len] == data[off..off + 4] + data[off + 4..off + 4 + len];
    }
  }

  lemma {:induction false} ValuesCanonical(ts: seq<ArgType>, data: seq<byte>, off: nat)
    requires DecodeValues(ts, data, off).Some? && off <= |data|
    ensures var (vs, end) := DecodeValues(ts, data, off).value;
      (forall v <- vs :: v.Valid()) && Types(vs) == ts && EncodeValues(vs) == data[off..end]
  {
    hide DecodeValue, EncodeValue;
    if ts != [] {
      var (v, off1) := DecodeValue(ts[0], data, off).value;
      ValueCanonical(ts[0], data, off);
      ValuesCanonical(ts[1..], data, off1);
      var (vs, end) := DecodeValues(ts[1..], data, off1).value;
      assert ([v] + vs)[1..] == vs;
      assert Types([v] + vs) == [v.Type()] + Types(vs);
      assert data[off..end] == data[off..off1] + data[off1..end];
    } else {
      assert Types([]) == [];
    }
  }

  // ----- Commands -----

  /** The description of a command: its identifiers and the types of its arguments. */
  datatype Desc = Desc(prj: byte, cls: byte, cmd: u16, args: seq<ArgType>)

  function Header(d: Desc): (r: seq<byte>)
    ensures |r| == 4
  {
    [d.prj, d.cls] + LittleEndian(d.cmd, 2)
  }

  function EncodeCmd(d: Desc, vs: seq<Value>): seq<byte>
    requires forall v <- vs :: v.Valid()
  {
    Header(d) + EncodeValues(vs)
  }

  /** Decodes a command with a description: the identifiers have to be its own. */
  function DecodeCmd(d: Desc, buf: seq<byte>): (r: Option<seq<Value>>)
  {
    if |buf| < 4 || buf[..4] != Header(d) then None
    else match DecodeValues(d.args, buf, 4) case None => None case Some((vs, _)) => Some(vs)
  }

  /** Decoding an encoded command, with anything after it, gives its arguments back. */
  lemma CmdRoundTrip(d: Desc, vs: seq<Value>, after: seq<byte>)
    requires (forall v <- vs :: v.Valid()) && Types(vs) == d.args
    ensures DecodeCmd(d, EncodeCmd(d, vs) + after) == Some(Normals(vs))
  {
    hide DecodeValues, EncodeValues, LittleEndian;
    ValuesRoundTrip(vs, Header(d), after);
    assert (EncodeCmd(d, vs) + after)[..4] == Header(d);
  }

  /** A command that decodes is the encoding of what it decodes to, followed by bytes that are
      ignored. */
  lemma CmdCanonical(d: Desc, buf: seq<byte>)
    requires DecodeCmd(d, buf).Some?
    ensures var vs := DecodeCmd(d, buf).value;
      (forall v <- vs :: v.Valid()) && Types(vs) == d.args && EncodeCmd(d, vs) <= buf
  {
    hide DecodeValues, EncodeValues, LittleEndian;
    ValuesCanonical(d.args, buf, 4);
    var (vs, end) := DecodeValues(d.args, buf, 4).value;
    assert buf[..end] == buf[..4] + buf[4..end];
  }

  // ----- The format in bytes -----

  /** Which numbers an argument of each type can be. */
  lemma Ranges(n: int)
    ensures Number(I8, n).Valid() <==> -0x80 <= n < 0x80
    ensures Number(U8, n).Valid() <==> 0 <= n < 0x100
    ensures Number(I16, n).Valid() <==> -0x8000 <= n < 0x8000
    ensures Number(U16, n).Valid() <==> 0 <= n < 0x1_0000
    ensures Number(I32, n).Valid() <==> -0x8000_0000 <= n < 0x8000_0000
    ensures Number(U32, n).Valid() <==> 0 <= n < 0x1_0000_0000
    ensures Number(I64, n).Valid() <==> -0x8000_0000_0000_0000 <= n < 0x8000_0000_0000_0000
    ensures Number(U64, n).Valid() <==> 0 <= n < 0x1_0000_0000_0000_0000
    ensures Number(Enum, n).Valid() <==> -0x8000_0000 <= n < 0x8000_0000
    ensures Number(Float, n).Valid() <==> 0 <= n < 0x1_0000_0000
    ensures Number(Double, n).Valid() <==> 0 <= n < 0x1_0000_0000_0000_0000
    ensures forall t :: t == String || t == Binary || t == UnknownType ==> !Number(t, n).Valid()
  {
    Powers();
    hide Pow256;
  }

  lemma Powers()
    ensures Pow256(1) == 0x100 && Pow256(2) == 0x1_0000 && Pow256(4) == 0x1_0000_0000
    ensures Pow256(8) == 0x1_0000_0000_0000_0000
  {
    assert Pow256(4) == 0x1_0000_0000;
    assert Pow256(6) == 0x1_0000_0000_0000;
  }

  /** Adding a multiple of 256 to a part of a number does not change its low byte. */
  lemma SameByte(n: int, p: nat, k: int, m: int)
    requires p > 0 && m == n + 256 * k * p
    ensures m / p % 256 == n / p % 256
  {
    var d, r := n / p, n % p;
    assert m == p * (d + 256 * k) + r;
    Quotient(m, p, d + 256 * k, r);
    assert (d + 256 * k) % 256 == d % 256;
  }

  lemma Quotient(m: int, p: nat, d: int, r: int)
    requires 0 <= r < p && m == p * d + r
    ensures m / p == d
  {
    var q, t := m / p, m % p;
    assert m == p * q + t;
    Distributes(p, q, d);
    if q != d {
      NotSmall(p, q - d);
    }
  }

  lemma Distributes(p: nat, q: int, d: int)
    ensures p * (q - d) == p * q - p * d
  {
  }

  lemma NotSmall(p: int, x: int)
    requires x != 0 && p >= 0
    ensures p * x >= p || p * x <= -p
  {
    if x > 0 {
      assert p * (x - 1) >= 0;
    } else {
      assert p * (-x - 1) >= 0;
    }
  }

  /** Numbers are sent in two's complement, least significant byte first: one byte for 8-bit types. */
  lemma BytesOf8Bits(t: ArgType, n: int)
    requires (t == I8 || t == U8) && Number(t, n).Valid()
    ensures EncodeValue(Number(t, n)) == [(n % 256) as byte]
  {
    Powers();
    OneByte(ToUnsigned(n, 1), 1);
  }

  /** Two bytes for 16-bit types. */
  lemma BytesOf16Bits(t: ArgType, n: int)
    requires (t == I16 || t == U16) && Number(t, n).Valid()
    ensures EncodeValue(Number(t, n)) == [(n % 256) as byte, (n / 0x100 % 256) as byte]
  {
    Powers();
    TwoBytes(ToUnsigned(n, 2));
  }

  /** Four bytes for 32-bit types, enumerations and the bits of a single-precision number. */
  lemma BytesOf32Bits(t: ArgType, n: int)
    requires (t == I32 || t == U32 || t == Enum || t == Float) && Number(t, n).Valid()
    ensures EncodeValue(Number(t, n)) ==
      [(n % 256) as byte, (n / 0x100 % 256) as byte, (n / 0x1_0000 % 256) as byte, (n / 0x100_0000 % 256) as byte]
  {
    Powers();
    var u := ToUnsigned(n, 4);
    FourBytes(u);
    if n < 0 {
      SameByte(n, 1, 0x100_0000, u);
      SameByte(n, 0x100, 0x1_0000, u);
      SameByte(n, 0x1_0000, 0x100, u);
      SameByte(n, 0x100_0000, 1, u);
    }
  }

  /** Eight bytes for 64-bit types and the bits of a double-precision number. */
  lemma BytesOf64Bits(t: ArgType, n: int)
    requires (t == I64 || t == U64 || t == Double) && Number(t, n).Valid()
    ensures EncodeValue(Number(t, n)) ==
      [(n % 256) as byte, (n / 0x100 % 256) as byte, (n / 0x1_0000 % 256) as byte, (n / 0x100_0000 % 256) as byte,
       (n / 0x1_0000_0000 % 256) as byte, (n / 0x100_0000_0000 % 256) as byte,
       (n / 0x1_0000_0000_0000 % 256) as byte, (n / 0x100_0000_0000_0000 % 256) as byte]
  {
    Powers();
    var u := ToUnsigned(n, 8);
    EightBytes(u);
    if n < 0 {
      SameByte(n, 1, 0x100_0000_0000_0000, u);
      SameByte(n, 0x100, 0x1_0000_0000_0000, u);
      SameByte(n, 0x1_0000, 0x100_0000_0000, u);
      SameByte(n, 0x100_0000, 0x1_0000_0000, u);
      SameByte(n, 0x1_0000_0000, 0x100_0000, u);
      SameByte(n, 0x100_0000_0000, 0x1_0000, u);
      SameByte(n, 0x1_0000_0000_0000, 0x100, u);
      SameByte(n, 0x100_0000_0000_0000, 1, u);
    }
  }

  /** A string is sent with a zero byte after it, a missing one as that byte alone, a block with its
      length in four bytes before it. */
  lemma BytesOfOthers(text: seq<byte>, block: seq<byte>)
    requires 0 !in text && |block| < 0x1_0000_0000
    ensures EncodeValue(Text(Some(text))) == text + [0] && EncodeValue(Text(None)) == [0]
    ensures EncodeValue(Block(block)) ==
      [(|block| % 256) as byte, (|block| / 0x100 % 256) as byte,
       (|block| / 0x1_0000 % 256) as byte, (|block| / 0x100_0000 % 256) as byte] + block
  {
    FourBytes(|block|);
  }

  /** A command begins with one byte for its project, one for its class and two for its number in it. */
  lemma BytesOfHeader(d: Desc)
    ensures Header(d) == [d.prj, d.cls, (d.cmd % 256) as byte, (d.cmd / 256) as byte]
  {
    TwoBytes(d.cmd);
  }

  // ----- The encoder -----

  /** Allocation step of the buffer. */
  const ALLOC_STEP: nat := 256

  class Encoder {
    /** The memory of the buffer; its length is the capacity. */
    var data: array<byte>
    var off: nat

    ghost predicate Valid()
      reads this
    {
      off <= data.Length && data.Length % ALLOC_STEP == 0
    }

    /** The bytes written. */
    ghost function Written(): seq<byte>
      requires Valid()
      reads this, data
    {
      data[..off]
    }

    constructor ()
      ensures Valid() && Written() == [] && fresh(data) && data.Length == ALLOC_STEP
    {
      data := new byte[ALLOC_STEP];
      off := 0;
    }

    /** Makes the capacity at least `capacity`, a multiple of the step. */
    method EnsureCapacity(capacity: nat)
      requires Valid()
      modifies this
      ensures Valid() && Written() == old(Written()) && off == old(off) && data.Length >= capacity
      ensures data == old(data) || fresh(data)
      ensures data.Length > old(data.Length) ==> data.Length < capacity + 256 && data.Length % 256 == 0
    {
      if capacity <= data.Length {
        return;
      }
      var aligned := capacity + ALLOC_STEP - 1;
      aligned := aligned - aligned % ALLOC_STEP;
      var larger := new byte[aligned];
      forall i | 0 <= i < data.Length {
        larger[i] := data[i];
      }
      assert larger[..off] == data[..off];
      data := larger;
    }

    method Write(p: seq<byte>)
      requires Valid()
      modifies this, data
      ensures Valid() && Written() == old(Written()) + p && (data == old(data) || fresh(data))
    {
      EnsureCapacity(off + |p|);
      forall i | 0 <= i < |p| {
        data[off + i] := p[i];
      }
      off := off + |p|;
    }

    /** The bytes written, for the caller. */
    method Take() returns (buf: seq<byte>)
      requires Valid()
      ensures buf == Written()
    {
      buf := data[..off];
    }

    /** Writes an argument of a known type. */
    method WriteValue(v: Value)
      requires Valid() && v.Valid()
      modifies this, data
      ensures Valid() && Written() == old(Written()) + EncodeValue(v) && (data == old(data) || fresh(data))
    {
      match v
      case Number(t, n) =>
        Write(LittleEndian(ToUnsigned(n, Width(t)), Width(t)));
      case Text(s) =>
        var text := if s.Some? then s.value else [];
        Write(text + [0]);
      case Block(b) =>
        Write(LittleEndian(|b|, 4));
        Write(b);
        assert Written() == old(Written()) + (LittleEndian(|b|, 4) + b);
    }
  }

  /** Encodes a command: the number and the types of the arguments have to be those of the
      description. */
  method Encode(d: Desc, argv: seq<Value>) returns (res: Errno, buf: seq<byte>)
    requires forall v <- argv :: v.Valid()
    ensures res == if Types(argv) == d.args then Success else EInval
    ensures res == Success ==> buf == EncodeCmd(d, argv)
  {
    hide EncodeValue, EncodeValues, LittleEndian, Types, Header, Encoder.Written;
    buf := [];
    if |argv| != |d.args| {
      TypesMatch(argv, d.args);
      return EInval, [];
    }
    var enc := new Encoder();
    WriteHeader(enc, d);
    EncodeValuesNone(argv, d);
    for i := 0 to |d.args|
      invariant enc.Valid() && fresh(enc) && fresh(enc.data)
      invariant forall v <- argv[..i] :: v.Valid()
      invariant enc.Written() == Header(d) + EncodeValues(argv[..i])
      invariant forall k :: 0 <= k < i ==> argv[k].Type() == d.args[k]
    {
      if d.args[i] != argv[i].Type() {
        TypesMatch(argv, d.args);
        return EInval, [];
      }
      assert argv[i] in argv;
      enc.WriteValue(argv[i]);
      assert argv[..i + 1] == argv[..i] + [argv[i]];
      EncodeValuesAppend(argv[..i], argv[i]);
    }
    assert argv[..|argv|] == argv;
    TypesMatch(argv, d.args);
    buf := enc.Take();
    return Success, buf;
  }

  /** Writes the identifiers of a command. */
  method WriteHeader(enc: Encoder, d: Desc)
    requires enc.Valid() && enc.Written() == []
    modifies enc, enc.data
    ensures enc.Valid() && enc.Written() == Header(d) && (enc.data == old(enc.data) || fresh(enc.data))
  {
    hide LittleEndian, Encoder.Written;
    enc.Write([d.prj]);
    enc.Write([d.cls]);
    enc.Write(LittleEndian(d.cmd, 2));
    assert [] + [d.prj] + [d.cls] == [d.prj, d.cls];
  }

  lemma EncodeValuesNone(vs: seq<Value>, d: Desc)
    ensures vs[..0] == [] && EncodeValues([]) == [] && Header(d) == Header(d) + []
  {
  }

  lemma TypesMatch(vs: seq<Value>, ts: seq<ArgType>)
    ensures Types(vs) == ts <==> |vs| == |ts| && forall k :: 0 <= k < |vs| ==> vs[k].Type() == ts[k]
  {
    if Types(vs) == ts {
      forall k | 0 <= k < |vs| ensures vs[k].Type() == ts[k] {
        assert Types(vs)[k] == ts[k];
      }
    }
  }

  lemma {:induction false} EncodeValuesAppend(vs: seq<Value>, v: Value)
    requires v.Valid() && forall w <- vs :: w.Valid()
    ensures EncodeValues(vs + [v]) == EncodeValues(vs) + EncodeValue(v)
  {
    hide EncodeValue;
    if vs == [] {
      assert [v][1..] == [];
    } else {
      assert (vs + [v])[1..] == vs[1..] + [v];
      EncodeValuesAppend(vs[1..], v);
    }
  }

  // ----- The decoder -----

  class Decoder {
    const cdata: seq<byte>
    var off: nat

    constructor (buf: seq<byte>)
      ensures cdata == buf && off == 0
    {
      cdata, off := buf, 0;
    }

    /** The next `n` bytes, if there are as many. */
    method Read(n: nat) returns (p: Option<seq<byte>>)
      modifies this
      ensures p == if old(off) + n > |cdata| then None else Some(cdata[old(off)..old(off) + n])
      ensures off == if p.Some? then old(off) + n else old(off)
    {
      if off + n > |cdata| {
        return None;
      }
      p := Some(cdata[off..off + n]);
      off := off + n;
    }

    /** A string up to its zero byte. */
    method ReadCstr() returns (p: Option<seq<byte>>)
      modifies this
      ensures match FindNul(cdata, old(off))
        case None => p == None && off == old(off)
        case Some(pos) => p == Some(cdata[old(off)..pos]) && off == pos + 1
    {
      var pos := off;
      while pos < |cdata|
        invariant off == old(off) && off <= pos
        invariant FindNul(cdata, off) == FindNul(cdata, pos)
      {
        if cdata[pos] == 0 {
          p := Some(cdata[off..pos]);
          off := pos + 1;
          return;
        }
        pos := pos + 1;
      }
      return None;
    }

    /** A value of the given type. */
    method ReadValue(t: ArgType) returns (r: Option<Value>)
      modifies this
      ensures match DecodeValue(t, cdata, old(off))
        case None => r == None
        case Some((v, end)) => r == Some(v)
      ensures off == Stop(t, cdata, old(off))
    {
      hide FromLittleEndian, FindNul, FromUnsigned;
      r := None;
      if Width(t) > 0 {
        var p := Read(Width(t));
        if p.Some? {
          r := Some(Number(t, FromUnsigned(t, FromLittleEndian(p.value))));
        }
      } else if t == String {
        var p := ReadCstr();
        if p.Some? {
          r := Some(Text(p));
        }
      } else if t == Binary {
        var len := Read(4);
        if len.Some? {
          var p := Read(FromLittleEndian(len.value));
          if p.Some? {
            r := Some(Block(p.value));
          }
        }
      }
    }

    /** Values of the given types. */
    method ReadValues(ts: seq<ArgType>) returns (r: Option<seq<Value>>)
      modifies this
      ensures match DecodeValues(ts, cdata, old(off))
        case None => r == None
        case Some((vs, end)) => r == Some(vs)
      ensures off == StopAll(ts, cdata, old(off))
    {
      hide DecodeValue, Stop;
      var vs := [];
      assert ts[0..] == ts;
      PrefixedNone(DecodeValues(ts, cdata, off));
      for i := 0 to |ts|
        invariant DecodeValues(ts, cdata, old(off)) == Prefixed(vs, DecodeValues(ts[i..], cdata, off))
        invariant StopAll(ts, cdata, old(off)) == StopAll(ts[i..], cdata, off)
      {
        assert ts[i..][0] == ts[i] && ts[i..][1..] == ts[i + 1..];
        StopAtEnd(ts[i], cdata, off);
        ghost var off0 := off;
        var v := ReadValue(ts[i]);
        if v == None {
          return None;
        }
        PrefixedTwice(vs, [v.value], DecodeValues(ts[i + 1..], cdata, off));
        vs := vs + [v.value];
      }
      assert vs + [] == vs;
      return Some(vs);
    }
  }

  /** A decoded list after other values. */
  function Prefixed(vs: seq<Value>, r: Option<(seq<Value>, nat)>): Option<(seq<Value>, nat)> {
    match r case None => None case Some((ws, end)) => Some((vs + ws, end))
  }

  lemma PrefixedNone(r: Option<(seq<Value>, nat)>)
    ensures Prefixed([], r) == r
  {
    if r.Some? {
      assert [] + r.value.0 == r.value.0;
    }
  }

  lemma PrefixedTwice(a: seq<Value>, b: seq<Value>, r: Option<(seq<Value>, nat)>)
    ensures Prefixed(a, Prefixed(b, r)) == Prefixed(a + b, r)
  {
    if r.Some? {
      assert a + (b + r.value.0) == (a + b) + r.value.0;
    }
  }

  /** Decodes a command with a description. The offset `off` at the end is within the buffer. */
  method Decode(d: Desc, buf: seq<byte>) returns (res: Errno, values: seq<Value>, ghost off: nat)
    ensures off <= |buf|
    ensures res == if DecodeCmd(d, buf).Some? then Success else EInval
    ensures res == Success ==> values == DecodeCmd(d, buf).value
  {
    hide DecodeValues, FromLittleEndian, LittleEndian;
    values := [];
    var dec := new Decoder(buf);
    var prj := dec.Read(1);
    if prj == None { return EInval, [], dec.off; }
    var cls := dec.Read(1);
    if cls == None { return EInval, [], dec.off; }
    var cmd := dec.Read(2);
    if cmd == None { return EInval, [], dec.off; }
    HeaderRead(d, buf);
    if prj.value[0] != d.prj || cls.value[0] != d.cls || FromLittleEndian(cmd.value) != d.cmd {
      return EInval, [], dec.off;
    }
    StopBound(d.args, buf, dec.off);
    var r := dec.ReadValues(d.args);
    if r == None { return EInval, [], dec.off; }
    return Success, r.value, dec.off;
  }

  /** Comparing the three identifiers is comparing the four bytes. */
  lemma HeaderRead(d: Desc, buf: seq<byte>)
    requires |buf| >= 4
    ensures buf[..4] == Header(d) <==> buf[0] == d.prj && buf[1] == d.cls && FromLittleEndian(buf[2..4]) == d.cmd
  {
    hide LittleEndian, FromLittleEndian;
    assert Pow256(2) == 0x1_0000;
    LittleEndianRoundTrip(d.cmd, 2);
    FromLittleEndianRoundTrip(buf[2..4]);
    assert buf[..4] == [buf[0], buf[1]] + buf[2..4];
    if buf[..4] == Header(d) {
      assert buf[0] == Header(d)[0] && buf[1] == Header(d)[1];
      assert buf[2..4] == Header(d)[2..];
    }
  }

  /** Decodes the arguments without looking at the identifiers, given the description found for them.
      It skips the identifiers without looking at the length either: the offset `off` at the end is
      within the buffer if and only if the decoder was not reached or the buffer has the four bytes. */
  method GetValues(d: Desc, buf: seq<byte>, maxCount: nat) returns (res: Errno, values: seq<Value>, ghost off: nat)
    ensures res == if |d.args| <= maxCount && DecodeValues(d.args, buf, 4).Some? then Success else EInval
    ensures res == Success ==> values == DecodeValues(d.args, buf, 4).value.0
    ensures |d.args| <= maxCount && DecodeCmd(d, buf).Some? ==> res == Success && values == DecodeCmd(d, buf).value
    ensures off <= |buf| <==> |d.args| > maxCount || |buf| >= 4
  {
    hide DecodeValues, StopAll;
    if |d.args| > maxCount {
      return EInval, [], 0;
    }
    var dec := new Decoder(buf);
    dec.off := dec.off + 4;
    StopBound(d.args, buf, 4);
    var r := dec.ReadValues(d.args);
    if r == None { return EInval, [], dec.off; }
    return Success, r.value, dec.off;
  }
}

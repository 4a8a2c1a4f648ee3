/** Protocol Buffers wire format as server/collectors/starlink_stub.py reads it
    (Protocol Buffers Encoding guide, sections "Base 128 Varints", "Message
    Structure" and "Packed Repeated Fields"), with a printer. */
module Wire {

  type Byte = b: int | 0 <= b < 256

  type Bytes = seq<Byte>

  /** data[i:] and data[:n] of Python, which never fail. */
  function Drop(data: Bytes, i: nat): Bytes {
    if i <= |data| then data[i..] else []
  }

  function Take(data: Bytes, n: nat): Bytes {
    if n <= |data| then data[..n] else data
  }

  // ----- varints -----

  /** Seven bits a byte, least significant first; a missing end counts as the end. */
  function VarintValue(data: Bytes): nat {
    if data == [] then 0
    else if data[0] < 128 then data[0]
    else data[0] - 128 + 128 * VarintValue(data[1..])
  }

  function VarintLength(data: Bytes): (n: nat)
    ensures n <= |data|
    ensures data != [] ==> n > 0
  {
    if data == [] then 0
    else if data[0] >= 128 then 1 + VarintLength(data[1..])
    else 1
  }

  function EncodeVarint(n: nat): (data: Bytes)
    ensures data != []
  {
    if n < 128 then [n] else [128 + n % 128] + EncodeVarint(n / 128)
  }

  lemma {:induction false} VarintRoundTrip(n: nat, rest: Bytes)
    ensures VarintValue(EncodeVarint(n) + rest) == n
    ensures VarintLength(EncodeVarint(n) + rest) == |EncodeVarint(n)|
  {
    var data := EncodeVarint(n) + rest;
    if n >= 128 {
      VarintRoundTrip(n / 128, rest);
      assert data[1..] == EncodeVarint(n / 128) + rest;
    }
  }

  /** The guide's example. */
  lemma ThreeHundred()
    ensures EncodeVarint(300) == [172, 2] && VarintValue([172, 2]) == 300
  {
    assert EncodeVarint(2) == [2];
    assert [172, 2][1..] == [2];
  }

  function Pow2(n: nat): (p: nat)
    ensures p > 0
  {
    if n == 0 then 1 else 2 * Pow2(n - 1)
  }

  lemma Pow2Plus7(n: nat)
    ensures Pow2(n + 7) == 128 * Pow2(n)
  {
    assert Pow2(n + 7) == 2 * Pow2(n + 6) == 4 * Pow2(n + 5) == 8 * Pow2(n + 4);
    assert Pow2(n + 4) == 2 * Pow2(n + 3) == 4 * Pow2(n + 2) == 8 * Pow2(n + 1) == 16 * Pow2(n);
  }

  /** The number that these bits below p and the digits above them make. */
  function Completed(result: nat, p: nat, high: nat): nat {
    result + p * high
  }

  /** The bits decoded so far lie below p and complete to total with what rest holds. */
  ghost predicate Decoding(result: nat, p: nat, rest: Bytes, total: nat) {
    result < p && Completed(result, p, VarintValue(rest)) == total
  }

  /** Seven more bits, in front of those decoded so far. */
  function WithBits(result: nat, bits: nat, p: nat): nat {
    result + bits * p
  }

  /** The bits written by each turn lie above those written before, so the source's
      bitwise or is an addition here. */
  method DecodeVarint(data: Bytes, start: nat) returns (result: nat, pos: nat)
    ensures result == VarintValue(Drop(data, start))
    ensures pos == start + VarintLength(Drop(data, start))
  {
    result, pos := 0, start;
    var shift := 0;
    ghost var total, length := VarintValue(Drop(data, start)), VarintLength(Drop(data, start));
    while pos < |data|
      invariant pos + VarintLength(Drop(data, pos)) == start + length
      invariant Decoding(result, Pow2(shift), Drop(data, pos), total)
      decreases |data| - pos
    {
      var byte := data[pos];
      ghost var rest := Drop(data, pos);
      assert rest[0] == byte && rest[1..] == Drop(data, pos + 1);
      if byte < 128 {
        DecodeLast(result, Pow2(shift), rest, total);
      } else {
        DecodeMore(result, Pow2(shift), rest, total);
      }
      Pow2Plus7(shift);
      pos := pos + 1;
      result := WithBits(result, byte % 128, Pow2(shift));
      if byte < 128 {
        return;
      }
      shift := shift + 7;
    }
    assert Drop(data, pos) == [];
  }

  lemma DecodeLast(result: nat, p: nat, rest: Bytes, total: nat)
    requires rest != [] && rest[0] < 128 && Decoding(result, p, rest, total)
    ensures WithBits(result, rest[0] % 128, p) == total
  {
    assert VarintValue(rest) == rest[0] == rest[0] % 128;
  }

  lemma DecodeMore(result: nat, p: nat, rest: Bytes, total: nat)
    requires rest != [] && rest[0] >= 128 && Decoding(result, p, rest, total)
    ensures Decoding(WithBits(result, rest[0] % 128, p), 128 * p, rest[1..], total)
  {
    var low, high := rest[0] % 128, VarintValue(rest[1..]);
    assert VarintValue(rest) == low + 128 * high;
    Accumulate(result, p, low, high);
  }

  lemma Accumulate(result: nat, p: nat, low: nat, high: nat)
    requires low < 128 && result < p
    ensures Completed(WithBits(result, low, p), 128 * p, high) == Completed(result, p, low + 128 * high)
    ensures WithBits(result, low, p) < 128 * p
  {
    Regroup(p, low, high);
    Below(p, low);
  }

  lemma Regroup(p: nat, low: nat, high: nat)
    ensures low * p + (128 * p) * high == p * (low + 128 * high)
  {
    assert p * (low + 128 * high) == p * low + p * (128 * high);
  }

  lemma Below(p: nat, low: nat)
    requires low < 128
    ensures low * p <= 127 * p
  {
  }

  // ----- fields -----

  datatype Field =
    | VarintField(num: nat, value: nat)
    | Fixed64(num: nat, bytes: Bytes)
    | LengthDelimited(num: nat, payload: Bytes)
    | Fixed32(num: nat, bytes: Bytes)

  /** One field after its tag byte, and what follows it; None stops the reader. */
  datatype Read = Stop | Next(field: Field, rest: Bytes)

  function ReadDelimited(num: nat, data: Bytes, length: nat): (r: Read)
    ensures r.Next? && |r.rest| <= |data|
  {
    Next(LengthDelimited(num, Take(data, length)), Drop(data, length))
  }

  function ReadField(tag: Byte, data: Bytes): (r: Read)
    ensures r.Next? ==> |r.rest| <= |data|
  {
    var num := tag / 8;
    match tag % 8
    case 0 => Next(VarintField(num, VarintValue(data)), Drop(data, VarintLength(data)))
    case 1 => Next(Fixed64(num, Take(data, 8)), Drop(data, 8))
    case 2 => ReadDelimited(num, Drop(data, VarintLength(data)), VarintValue(data))
    case 5 => Next(Fixed32(num, Take(data, 4)), Drop(data, 4))
    case _ => Stop
  }

  function ReadFields(data: Bytes): seq<Field>
    decreases |data|
  {
    if data == [] then []
    else match ReadField(data[0], data[1..])
      case Stop => []
      case Next(field, rest) => [field] + ReadFields(rest)
  }

  /** The fields from index i on. */
  lemma FieldsAt(data: Bytes, i: nat)
    requires i < |data|
    ensures ReadFields(Drop(data, i)) ==
            match ReadField(data[i], Drop(data, i + 1))
            case Stop => []
            case Next(field, rest) => [field] + ReadFields(rest)
  {
    var here := Drop(data, i);
    assert here[0] == data[i] && here[1..] == Drop(data, i + 1);
  }

  method ReadDelimitedAt(num: nat, data: Bytes, start: nat) returns (read: Read, next: nat)
    ensures var rest := Drop(data, start);
            read == ReadDelimited(num, Drop(rest, VarintLength(rest)), VarintValue(rest))
    ensures next >= start && read.rest == Drop(data, next)
  {
    DropDrop(data, start, VarintLength(Drop(data, start)));
    var length, i := DecodeVarint(data, start);
    DropDrop(data, i, length);
    return ReadDelimited(num, Drop(data, i), length), i + length;
  }

  method ReadVarintAt(num: nat, data: Bytes, start: nat) returns (read: Read, next: nat)
    ensures var rest := Drop(data, start);
            read == Next(VarintField(num, VarintValue(rest)), Drop(rest, VarintLength(rest)))
    ensures next >= start && read.rest == Drop(data, next)
  {
    DropDrop(data, start, VarintLength(Drop(data, start)));
    var value, i := DecodeVarint(data, start);
    return Next(VarintField(num, value), Drop(data, i)), i;
  }

  /** The field-by-field walk that both loops of the parser make: one field at index
      i, and the index after it. */
  method ReadNext(data: Bytes, start: nat) returns (read: Read, next: nat)
    requires start < |data|
    ensures read == ReadField(data[start], Drop(data, start + 1))
    ensures read.Next? ==> next > start && read.rest == Drop(data, next)
  {
    var fieldNumber, wireType := data[start] / 8, data[start] % 8;
    var i := start + 1;
    if wireType == 2 {
      read, next := ReadDelimitedAt(fieldNumber, data, i);
    } else if wireType == 0 {
      read, next := ReadVarintAt(fieldNumber, data, i);
    } else if wireType == 5 {
      DropDrop(data, i, 4);
      return Next(Fixed32(fieldNumber, Take(Drop(data, i), 4)), Drop(data, i + 4)), i + 4;
    } else if wireType == 1 {
      DropDrop(data, i, 8);
      return Next(Fixed64(fieldNumber, Take(Drop(data, i), 8)), Drop(data, i + 8)), i + 8;
    } else {
      return Stop, start;
    }
  }

  lemma DropDrop(data: Bytes, i: nat, j: nat)
    ensures Drop(Drop(data, i), j) == Drop(data, i + j)
  {
  }

  /** Field numbers whose tag fits one byte. */
  predicate WellFormed(f: Field) {
    1 <= f.num <= 15 && (f.Fixed32? ==> |f.bytes| == 4) && (f.Fixed64? ==> |f.bytes| == 8)
  }

  function WriteField(f: Field): (data: Bytes)
    requires WellFormed(f)
    ensures data != []
  {
    match f
    case VarintField(num, value) => [8 * num] + EncodeVarint(value)
    case Fixed64(num, bytes) => [8 * num + 1] + bytes
    case LengthDelimited(num, payload) => [8 * num + 2] + (EncodeVarint(|payload|) + payload)
    case Fixed32(num, bytes) => [8 * num + 5] + bytes
  }

  /** The tags of fields 1 to 4, one of each wire type. */
  lemma TagBytes(payload: Bytes, four: Bytes, eight: Bytes)
    requires |four| == 4 && |eight| == 8 && |payload| == 3
    ensures WriteField(VarintField(1, 300)) == [8, 172, 2]
    ensures WriteField(LengthDelimited(2, payload)) == [18, 3] + payload
    ensures WriteField(Fixed64(3, eight)) == [25] + eight
    ensures WriteField(Fixed32(4, four)) == [37] + four
  {
    ThreeHundred();
    assert EncodeVarint(3) == [3];
    assert [18] + ([3] + payload) == [18, 3] + payload;
  }

  predicate AllWellFormed(fields: seq<Field>) {
    forall f | f in fields :: WellFormed(f)
  }

  function WriteFields(fields: seq<Field>): Bytes
    requires AllWellFormed(fields)
  {
    if fields == [] then [] else WriteField(fields[0]) + WriteFields(fields[1..])
  }

  lemma VarintFieldRoundTrip(num: nat, value: nat, rest: Bytes)
    requires 1 <= num <= 15
    ensures ReadField(8 * num, EncodeVarint(value) + rest) == Next(VarintField(num, value), rest)
  {
    VarintRoundTrip(value, rest);
  }

  lemma ReadsDelimited(num: nat, data: Bytes, payload: Bytes, rest: Bytes)
    requires 1 <= num <= 15
    requires VarintValue(data) == |payload| && Drop(data, VarintLength(data)) == payload + rest
    ensures ReadField(8 * num + 2, data) == Next(LengthDelimited(num, payload), rest)
  {
    DropPrefix(payload, rest);
  }

  lemma DelimitedRoundTrip(num: nat, head: Bytes, payload: Bytes, rest: Bytes)
    requires 1 <= num <= 15 && head == EncodeVarint(|payload|)
    ensures ReadField(8 * num + 2, head + payload + rest) == Next(LengthDelimited(num, payload), rest)
  {
    var data := head + (payload + rest);
    assert head + payload + rest == data;
    VarintRoundTrip(|payload|, payload + rest);
    DropPrefix(head, payload + rest);
    ReadsDelimited(num, data, payload, rest);
  }

  lemma DropPrefix(a: Bytes, b: Bytes)
    ensures Drop(a + b, |a|) == b && Take(a + b, |a|) == a
  {
  }

  lemma FixedRoundTrip(f: Field, rest: Bytes)
    requires WellFormed(f) && (f.Fixed32? || f.Fixed64?)
    ensures ReadField(if f.Fixed32? then 8 * f.num + 5 else 8 * f.num + 1, f.bytes + rest) == Next(f, rest)
  {
    var data := f.bytes + rest;
    assert Take(data, |f.bytes|) == f.bytes && Drop(data, |f.bytes|) == rest;
  }

  lemma FieldRoundTrip(f: Field, rest: Bytes)
    requires WellFormed(f)
    ensures ReadField(WriteField(f)[0], WriteField(f)[1..] + rest) == Next(f, rest)
  {
    var body := WriteField(f)[1..];
    if f.VarintField? {
      assert body == EncodeVarint(f.value);
      VarintFieldRoundTrip(f.num, f.value, rest);
    } else if f.LengthDelimited? {
      assert body == EncodeVarint(|f.payload|) + f.payload;
      DelimitedRoundTrip(f.num, EncodeVarint(|f.payload|), f.payload, rest);
    } else {
      assert body == f.bytes;
      FixedRoundTrip(f, rest);
    }
  }

  lemma ReadsFirst(f: Field, more: Bytes)
    requires WellFormed(f)
    ensures ReadFields(WriteField(f) + more) == [f] + ReadFields(more)
  {
    var w := WriteField(f);
    var data := w + more;
    assert data[0] == w[0] && data[1..] == w[1..] + more;
    FieldRoundTrip(f, more);
  }

  /** Printing then reading gives back every field, whatever the fields are. */
  lemma {:induction false} FieldsRoundTrip(fields: seq<Field>)
    requires AllWellFormed(fields)
    ensures ReadFields(WriteFields(fields)) == fields
  {
    if fields != [] {
      ReadsFirst(fields[0], WriteFields(fields[1..]));
      FieldsRoundTrip(fields[1..]);
      assert fields == [fields[0]] + fields[1..];
    }
  }

  // ----- the standard tag -----

  function WireType(f: Field): nat {
    match f
    case VarintField(_, _) => 0
    case Fixed64(_, _) => 1
    case LengthDelimited(_, _) => 2
    case Fixed32(_, _) => 5
  }

  function FieldBody(f: Field): Bytes {
    match f
    case VarintField(_, value) => EncodeVarint(value)
    case Fixed64(_, bytes) => bytes
    case LengthDelimited(_, payload) => EncodeVarint(|payload|) + payload
    case Fixed32(_, bytes) => bytes
  }

  /** Any field of the standard: its number is not limited to one byte. */
  predicate StandardField(f: Field) {
    f.num >= 1 && (f.Fixed32? ==> |f.bytes| == 4) && (f.Fixed64? ==> |f.bytes| == 8)
  }

  /** The standard printer: the tag is a varint. */
  function StdWrite(f: Field): Bytes {
    EncodeVarint(8 * f.num + WireType(f)) + FieldBody(f)
  }

  lemma SmallTag(f: Field)
    requires StandardField(f) && f.num <= 15
    ensures ReadFields(StdWrite(f)) == [f]
  {
    assert StdWrite(f) == WriteField(f) + [];
    ReadsFirst(f, []);
    assert ReadFields([]) == [];
  }

  /** The digits of a tag to the base 128, the last one marked as continued. */
  lemma TagDigits(num: nat, wireType: nat)
    requires wireType < 8
    ensures (8 * num + wireType) / 128 == num / 16
    ensures 128 + (8 * num + wireType) % 128 == 8 * (16 + num % 16) + wireType
  {
    var q, r := num / 16, num % 16;
    assert 8 * num + wireType == 128 * q + (8 * r + wireType);
  }

  lemma TagParts(num: nat, wireType: nat)
    requires wireType < 8
    ensures (8 * num + wireType) / 8 == num && (8 * num + wireType) % 8 == wireType
  {
  }

  lemma LongVarint(n: nat, low: nat, high: nat)
    requires n >= 128 && n / 128 == high && 128 + n % 128 == low
    ensures low < 256 && EncodeVarint(n) == [low as Byte] + EncodeVarint(high)
  {
  }

  /** The reader takes the first byte of a longer tag for the whole tag, so the number
      it sees lies between 16 and 31. */
  lemma FirstTagByte(f: Field) returns (tag: Byte, after: Bytes)
    requires StandardField(f) && f.num >= 16
    ensures StdWrite(f) == [tag] + after && tag == 8 * (16 + f.num % 16) + WireType(f)
    ensures after == EncodeVarint(f.num / 16) + FieldBody(f)
  {
    var low, high := 8 * (16 + f.num % 16) + WireType(f), EncodeVarint(f.num / 16);
    TagDigits(f.num, WireType(f));
    LongVarint(8 * f.num + WireType(f), low, f.num / 16);
    tag, after := low, high + FieldBody(f);
    assert ([tag] + high) + FieldBody(f) == [tag] + after;
  }

  /** A field numbered 16 to 31 that is read under its own number has the rest of its
      tag as its value, so that something of it is left over: one byte of value 1,
      which reads as another field. */
  lemma LeftOver(f: Field, after: Bytes)
    requires StandardField(f) && 16 <= f.num <= 31 && after == [1] + FieldBody(f)
    ensures var read := ReadField(8 * f.num + WireType(f), after);
            read.Next? && (read.field == f ==> read.rest == [1])
  {
    assert after[0] == 1 && after[1..] == FieldBody(f);
    assert VarintValue(after) == 1 && VarintLength(after) == 1;
    if f.LengthDelimited? {
      assert Drop(after, 1) == FieldBody(f);
      assert EncodeVarint(1) == [1];
      if Take(FieldBody(f), 1) == f.payload {
        assert |f.payload| == 1;
        assert FieldBody(f) == [1] + f.payload;
        assert f.payload == [1];
      }
    } else if f.VarintField? {
      assert Drop(after, 1) == FieldBody(f);
      assert EncodeVarint(1) == [1];
    } else {
      var n := |f.bytes|;
      if Take(after, n) == f.bytes {
        AllOnes(after, f.bytes);
        assert Drop(after, n) == [f.bytes[n - 1]];
      }
    }
  }

  /** A sequence that shifting leaves in place is constant. */
  lemma {:induction false} AllOnes(after: Bytes, bytes: Bytes)
    requires after == [1] + bytes && Take(after, |bytes|) == bytes
    ensures forall i | 0 <= i < |bytes| :: bytes[i] == 1
  {
    for k := 0 to |bytes|
      invariant forall i | 0 <= i < k :: bytes[i] == 1
    {
      assert bytes[k] == after[k];
      assert k > 0 ==> after[k] == bytes[k - 1];
    }
  }

  lemma NotAlone(data: Bytes, f: Field)
    requires data != []
    requires var read := ReadField(data[0], data[1..]);
             read.Next? && read.field == f ==> ReadFields(read.rest) != []
    ensures ReadFields(data) != [f]
  {
    var read := ReadField(data[0], data[1..]);
    if read.Next? {
      assert ReadFields(data) == [read.field] + ReadFields(read.rest);
      assert ([read.field] + ReadFields(read.rest))[0] == read.field;
    }
  }

  lemma OneByteIsAField()
    ensures ReadFields([1]) != []
  {
    assert ReadField(1, []).Next?;
  }

  lemma ReadsNumber(tag: Byte, data: Bytes)
    ensures var read := ReadField(tag, data); read.Next? ==> read.field.num == tag / 8
  {
  }

  /** What the reader makes of a field numbered 16 or more is never the field alone. */
  lemma LongTag(f: Field)
    requires StandardField(f) && f.num >= 16
    ensures ReadFields(StdWrite(f)) != [f]
  {
    var tag, after := FirstTagByte(f);
    var data := StdWrite(f);
    assert data[0] == tag && data[1..] == after;
    TagParts(16 + f.num % 16, WireType(f));
    ReadsNumber(tag, after);
    if f.num <= 31 {
      assert f.num / 16 == 1 && EncodeVarint(1) == [1];
      assert tag == 8 * f.num + WireType(f);
      LeftOver(f, after);
      OneByteIsAField();
    }
    NotAlone(data, f);
  }

  /** A field printed with a standard tag is read back iff its number is at most 15. */
  lemma ReadBackIff(f: Field)
    requires StandardField(f)
    ensures ReadFields(StdWrite(f)) == [f] <==> f.num <= 15
  {
    if f.num <= 15 {
      SmallTag(f);
    } else {
      LongTag(f);
    }
  }

  /** An example: what follows the first byte of field 16's tag is read as an empty
      submessage number 7. */
  lemma TwoByteTagMisread()
    ensures EncodeVarint(8 * 16) + EncodeVarint(58) == [128, 1, 58]
    ensures ReadFields([128, 1, 58]) == [VarintField(16, 1), LengthDelimited(7, [])]
  {
    var data: Bytes := [128, 1, 58];
    assert data[1..] == [1, 58];
    assert VarintLength(data[1..]) == 1 && VarintValue(data[1..]) == 1;
    assert Drop(data[1..], 1) == [58];
    assert ReadField(58, []) == Next(LengthDelimited(7, []), []);
    var tail: Bytes := [58];
    assert tail[1..] == [];
    assert ReadFields(tail) == [LengthDelimited(7, [])];
  }
}

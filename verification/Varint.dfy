/** The hand-written protobuf codec of the gRPC benchmark service: base-128 varints, the field
    loop of the request decoders, and the sum replies. */
module Varint {

  type Byte = b: int | 0 <= b < 256

  /** `x << shift`. */
  function ShiftLeft(x: nat, shift: nat): (y: nat) {
    if shift == 0 then x else 2 * ShiftLeft(x, shift - 1)
  }

  const TWO63: int := 0x8000_0000_0000_0000
  const TWO64: int := 0x1_0000_0000_0000_0000

  /** Bitwise or of two naturals. */
  function BitOr(a: nat, b: nat): (c: nat)
    decreases a + b
  {
    if a == 0 then b else if b == 0 then a
    else 2 * BitOr(a / 2, b / 2) + (if a % 2 == 1 || b % 2 == 1 then 1 else 0)
  }

  /** Or-ing in bits above all bits of `a` adds them. */
  lemma {:induction false} BitOrAbove(a: nat, b: nat, shift: nat)
    requires a < ShiftLeft(1, shift)
    ensures BitOr(a, ShiftLeft(b, shift)) == a + ShiftLeft(b, shift)
  {
    if shift > 0 && a > 0 {
      BitOrAbove(a / 2, b, shift - 1);
      assert BitOr(0, ShiftLeft(b, shift)) == ShiftLeft(b, shift);
    }
  }

  lemma {:induction false} ShiftAdds(x: nat, y: nat, shift: nat)
    ensures ShiftLeft(x + y, shift) == ShiftLeft(x, shift) + ShiftLeft(y, shift)
  {
    if shift > 0 {
      ShiftAdds(x, y, shift - 1);
    }
  }

  lemma {:induction false} ShiftZero(shift: nat)
    ensures ShiftLeft(0, shift) == 0
  {
    if shift > 0 {
      ShiftZero(shift - 1);
    }
  }

  lemma {:induction false} ShiftSeven(x: nat, shift: nat)
    ensures ShiftLeft(x, shift + 7) == ShiftLeft(128 * x, shift) == 128 * ShiftLeft(x, shift)
  {
    if shift == 0 {
      assert ShiftLeft(x, 7) == 2 * ShiftLeft(x, 6) == 4 * ShiftLeft(x, 5) == 8 * ShiftLeft(x, 4);
      assert ShiftLeft(x, 4) == 2 * ShiftLeft(x, 3) == 4 * ShiftLeft(x, 2) == 8 * ShiftLeft(x, 1);
    } else {
      ShiftSeven(x, shift - 1);
    }
  }

  // ---- Varints -------------------------------------------------------------------------------------

  /** The value of the varint at `i` and the index after it; bytes that run out end it too. */
  function VarintAt(buf: seq<Byte>, i: nat): (r: (nat, nat))
    ensures i <= r.1 && (i < |buf| ==> i < r.1 <= |buf|)
    decreases |buf| - i
  {
    if i >= |buf| then (0, i)
    else if buf[i] < 128 then (buf[i], i + 1)
    else
      var rest := VarintAt(buf, i + 1);
      (buf[i] % 128 + 128 * rest.0, rest.1)
  }

  /** The varint of a natural number. */
  function Encode(n: nat): (bytes: seq<Byte>)
    ensures |bytes| >= 1
  {
    if n < 128 then [n] else [n % 128 + 128] + Encode(n / 128)
  }

  /** What has been read, with more digits to come above it. */
  ghost function Total(result: nat, shift: nat, more: nat): nat { result + ShiftLeft(more, shift) }

  /** One turn of the read loop moves a digit from the rest into the result. */
  lemma ReadStep(result: nat, shift: nat, digit: nat, more: nat)
    requires digit < 128 && result < ShiftLeft(1, shift)
    ensures var next := BitOr(result, ShiftLeft(digit, shift));
            && next < ShiftLeft(1, shift + 7)
            && Total(result, shift, digit + 128 * more) == Total(next, shift + 7, more)
  {
    BitOrAbove(result, digit, shift);
    ShiftAdds(digit, 128 * more, shift);
    ShiftSeven(more, shift);
    ShiftSeven(1, shift);
    ShiftAdds(digit, 1, shift);
    ShiftAdds(digit + 1, 127 - digit, shift);
  }

  /** The part of the varint from `start` that stands before `i` has been read into `result`. */
  ghost predicate ReadUpTo(buf: seq<Byte>, start: nat, i: nat, result: nat, shift: nat) {
    && result < ShiftLeft(1, shift)
    && VarintAt(buf, start).0 == Total(result, shift, VarintAt(buf, i).0)
    && VarintAt(buf, start).1 == VarintAt(buf, i).1
  }

  /** One turn of the loop; the byte without the continuation bit is the last. */
  lemma ReadTurn(buf: seq<Byte>, start: nat, i: nat, result: nat, shift: nat)
    requires i < |buf| && ReadUpTo(buf, start, i, result, shift)
    ensures var next := BitOr(result, ShiftLeft(buf[i] % 128, shift));
            if buf[i] < 128 then (next, i + 1) == VarintAt(buf, start) else ReadUpTo(buf, start, i + 1, next, shift + 7)
  {
    var byte := buf[i];
    var more := if byte < 128 then 0 else VarintAt(buf, i + 1).0;
    assert VarintAt(buf, i).0 == byte % 128 + 128 * more;
    ReadStep(result, shift, byte % 128, more);
    ShiftZero(shift + 7);
  }

  /** `_read_varint`. */
  method ReadVarint(buf: seq<Byte>, start: nat) returns (result: nat, i: nat)
    ensures (result, i) == VarintAt(buf, start)
  {
    result, i := 0, start;
    var shift := 0;
    while i < |buf|
      invariant ReadUpTo(buf, start, i, result, shift)
    {
      var byte := buf[i];
      ReadTurn(buf, start, i, result, shift);
      i := i + 1;
      result := BitOr(result, ShiftLeft(byte % 128, shift));
      if byte < 128 {
        return;
      }
      shift := shift + 7;
    }
    ShiftZero(shift);
  }

  /** The 64-bit two's complement pattern of a value. */
  function Pattern(value: int): (n: int) {
    if value < 0 then value + TWO64 else value
  }

  /** The `v` of the write loop after `n` turns. */
  function Shifted(v: int, n: nat): (w: int) { if n == 0 then v else Shifted(v, n - 1) / 128 }

  /** `v >> 7` of a negative value is negative, so below -2^64 the write loop never reaches its end. */
  lemma {:induction false} NegativeNeverEnds(value: int, n: nat)
    requires value < -TWO64
    ensures Shifted(Pattern(value), n) < 0
  {
    if n > 0 {
      NegativeNeverEnds(value, n - 1);
    }
  }

  /** `_write_varint`. */
  method WriteVarint(value: int) returns (out: seq<Byte>)
    requires value >= -TWO64
    ensures out == Encode(Pattern(value))
  {
    var v := if value < 0 then value + TWO64 else value;
    out := [];
    while true
      invariant v >= 0 && Encode(Pattern(value)) == out + Encode(v)
      decreases v
    {
      var byte := v % 128;
      ghost var before := v;
      v := v / 128;
      if v != 0 {
        assert Encode(before) == [byte + 128] + Encode(v);
        out := out + [byte + 128];
      } else {
        out := out + [byte];
        return;
      }
    }
  }

  /** The varint of `n` stands at `i`, followed by anything. */
  ghost predicate EncodedAt(buf: seq<Byte>, i: nat, n: nat) {
    i + |Encode(n)| <= |buf| && buf[i..i + |Encode(n)|] == Encode(n)
  }

  /** Reading what was written, before any suffix, gives the number and stops exactly at its end. */
  lemma {:induction false} ReadEncoded(buf: seq<Byte>, i: nat, n: nat)
    requires EncodedAt(buf, i, n)
    ensures VarintAt(buf, i) == (n, i + |Encode(n)|)
    decreases n
  {
    var bytes := Encode(n);
    assert bytes[0] == buf[i];
    if n >= 128 {
      assert bytes[1..] == Encode(n / 128);
      assert buf[i + 1..i + |bytes|] == buf[i..i + |bytes|][1..];
      ReadEncoded(buf, i + 1, n / 128);
    }
  }

  /** The numbers below this take at most `k` bytes. */
  function Limit(k: nat): (n: nat) { if k == 0 then 1 else 128 * Limit(k - 1) }

  lemma {:induction false} EncodedLength(n: nat, k: nat)
    requires k >= 1 && n < Limit(k)
    ensures |Encode(n)| <= k
  {
    if n >= 128 {
      assert k > 1;
      EncodedLength(n / 128, k - 1);
    }
  }

  /** Ten bytes hold any 64-bit pattern. */
  lemma TenBytes(value: int)
    requires -TWO64 <= value < TWO64
    ensures |Encode(Pattern(value))| <= 10
  {
    assert Limit(2) == 0x4000;
    assert Limit(4) == 0x1000_0000;
    assert Limit(6) == 0x400_0000_0000;
    assert Limit(8) == 0x100_0000_0000_0000;
    assert Limit(10) == 0x40_0000_0000_0000_0000;
    EncodedLength(Pattern(value), 10);
  }

  // ---- Messages ------------------------------------------------------------------------------------

  /** The sign rule of the decoders. */
  function Signed(n: nat): (value: int)
    ensures value >= -TWO63
  {
    if n >= TWO63 then n - TWO64 else n
  }

  /** One field: what a varint field carries, and the index after it. Other wire types are skipped,
      and an unknown one ends the message. */
  function FieldStep(msg: seq<Byte>, i: nat): (r: (seq<(nat, int)>, nat))
    requires i < |msg|
    ensures i < r.1 && |r.0| <= 1
  {
    var tag := VarintAt(msg, i);
    var wire := tag.0 % 8;
    var next := VarintAt(msg, tag.1);
    if wire == 0 then ([(tag.0 / 8, Signed(next.0))], next.1)
    else if wire == 2 then ([], next.1 + next.0)
    else if wire == 5 then ([], tag.1 + 4)
    else if wire == 1 then ([], tag.1 + 8)
    else ([], |msg|)
  }

  /** The varint fields of a message in order. */
  function Fields(msg: seq<Byte>, i: nat): (fields: seq<(nat, int)>)
    decreases |msg| - i
  {
    if i >= |msg| then [] else FieldStep(msg, i).0 + Fields(msg, FieldStep(msg, i).1)
  }

  /** The last value of a field, or a default. */
  function LastOf(fields: seq<(nat, int)>, number: nat, default: int): (value: int) {
    if fields == [] then default
    else LastOf(fields[1..], number, if fields[0].0 == number then fields[0].1 else default)
  }

  /** One turn of the decoders' loop: read a tag, then the value or what to skip. */
  method ReadField(msg: seq<Byte>, i: nat) returns (here: seq<(nat, int)>, next: nat)
    requires i < |msg|
    ensures (here, next) == FieldStep(msg, i)
  {
    var tag;
    tag, next := ReadVarint(msg, i);
    var field, wire := tag / 8, tag % 8;
    here := [];
    if wire == 0 {
      var val: int;
      val, next := ReadVarint(msg, next);
      if val >= TWO63 {
        val := val - TWO64;
      }
      here := [(field, val)];
    } else if wire == 2 {
      var length;
      length, next := ReadVarint(msg, next);
      next := next + length;
    } else if wire == 5 {
      next := next + 4;
    } else if wire == 1 {
      next := next + 8;
    } else {
      next := |msg|;
    }
  }

  /** `decode_stream_request`, whose first two components are `decode_sum_request`. */
  method DecodeStreamRequest(msg: seq<Byte>) returns (a: int, b: int, count: int)
    ensures a == LastOf(Fields(msg, 0), 1, 0) && b == LastOf(Fields(msg, 0), 2, 0) && count == LastOf(Fields(msg, 0), 3, 0)
  {
    a, b, count := 0, 0, 0;
    var i := 0;
    while i < |msg|
      invariant LastOf(Fields(msg, 0), 1, 0) == LastOf(Fields(msg, i), 1, a)
      invariant LastOf(Fields(msg, 0), 2, 0) == LastOf(Fields(msg, i), 2, b)
      invariant LastOf(Fields(msg, 0), 3, 0) == LastOf(Fields(msg, i), 3, count)
      decreases |msg| - i
    {
      var here, next := ReadField(msg, i);
      ghost var rest := Fields(msg, next);
      if here == [] {
        assert [] + rest == rest;
      } else {
        var (field, val) := here[0];
        LastOfCons((field, val), rest, 1, a);
        LastOfCons((field, val), rest, 2, b);
        LastOfCons((field, val), rest, 3, count);
        if field == 1 {
          a := val;
        } else if field == 2 {
          b := val;
        } else if field == 3 {
          count := val;
        }
      }
      i := next;
    }
  }

  /** `decode_sum_request`. */
  method DecodeSumRequest(msg: seq<Byte>) returns (a: int, b: int)
    ensures (a, b) == SumRequest(msg)
    ensures a >= -TWO63 && b >= -TWO63
  {
    var count;
    a, b, count := DecodeStreamRequest(msg);
    LastOfBound(msg, 0, 1, 0);
    LastOfBound(msg, 0, 2, 0);
  }

  function SumRequest(msg: seq<Byte>): (r: (int, int)) {
    (LastOf(Fields(msg, 0), 1, 0), LastOf(Fields(msg, 0), 2, 0))
  }

  /** Every decoded value is at least -2^63, on any bytes. */
  lemma {:induction false} LastOfBound(msg: seq<Byte>, i: nat, number: nat, default: int)
    requires default >= -TWO63
    ensures LastOf(Fields(msg, i), number, default) >= -TWO63
    decreases |msg| - i
  {
    if i < |msg| {
      var (here, next) := FieldStep(msg, i);
      var rest := Fields(msg, next);
      if here == [] {
        assert [] + rest == rest;
        LastOfBound(msg, next, number, default);
      } else {
        LastOfCons(here[0], rest, number, default);
        LastOfBound(msg, next, number, if here[0].0 == number then here[0].1 else default);
      }
    }
  }

  /** `encode_sum_reply`: at most eleven bytes for a 64-bit result, which a decoder reads back if and only if
      it fits 64 signed bits. */
  method EncodeSumReply(result: int) returns (reply: seq<Byte>)
    requires result >= -TWO64
    ensures reply == Reply(result)
    ensures result < TWO64 ==> |reply| <= 11
    ensures SumRequest(reply) == (result, 0) <==> -TWO63 <= result < TWO63
  {
    ReplyRoundTrip(result);
    if result < TWO64 {
      TenBytes(result);
    }
    var bytes := WriteVarint(result);
    reply := [8] + bytes;
  }

  function Reply(result: int): (bytes: seq<Byte>)
    requires result >= -TWO64
  {
    [8] + Encode(Pattern(result))
  }

  /** `get_sum`: it ends on every request, because the sum of two decoded fields is at least -2^64. */
  method GetSum(request: seq<Byte>) returns (reply: seq<Byte>)
    ensures var r := SumRequest(request); r.0 + r.1 >= -TWO64 && reply == Reply(r.0 + r.1)
  {
    var a, b := DecodeSumRequest(request);
    reply := EncodeSumReply(a + b);
  }

  /** `stream_sum`: exactly `count` replies, none for a count of zero or less. */
  method StreamSum(request: seq<Byte>) returns (replies: seq<seq<Byte>>)
    ensures var count := LastOf(Fields(request, 0), 3, 0); |replies| == if count > 0 then count else 0
    ensures var r := SumRequest(request);
            forall i :: 0 <= i < |replies| ==> r.0 + r.1 + i >= -TWO64 && replies[i] == Reply(r.0 + r.1 + i)
  {
    var a, b, count := DecodeStreamRequest(request);
    LastOfBound(request, 0, 1, 0);
    LastOfBound(request, 0, 2, 0);
    replies := [];
    for i := 0 to if count > 0 then count else 0
      invariant |replies| == i
      invariant forall k :: 0 <= k < i ==> replies[k] == Reply(a + b + k)
    {
      var reply := EncodeSumReply(a + b + i);
      replies := replies + [reply];
    }
  }

  // ---- The wire format -------------------------------------------------------------------------------

  /** A field as the protobuf encoding writes it; groups and reserved wire types are not written. */
  datatype WireField =
    | AsVarint(number: nat, bits: nat)
    | AsBytes(number: nat, payload: seq<Byte>)
    | AsFixed32(number: nat, payload: seq<Byte>)
    | AsFixed64(number: nat, payload: seq<Byte>)

  predicate WellFormed(f: WireField) {
    (f.AsFixed32? ==> |f.payload| == 4) && (f.AsFixed64? ==> |f.payload| == 8)
  }

  function WireType(f: WireField): (w: nat)
    ensures w < 8
  {
    match f case AsVarint(_, _) => 0 case AsFixed64(_, _) => 1 case AsBytes(_, _) => 2 case AsFixed32(_, _) => 5
  }

  function TagOf(f: WireField): (tag: nat)
    ensures tag / 8 == f.number && tag % 8 == WireType(f)
  {
    8 * f.number + WireType(f)
  }

  function Tail(f: WireField): (bytes: seq<Byte>) {
    match f
    case AsVarint(_, bits) => Encode(bits)
    case AsBytes(_, payload) => Encode(|payload|) + payload
    case AsFixed32(_, payload) => payload
    case AsFixed64(_, payload) => payload
  }

  function Written(f: WireField): (bytes: seq<Byte>) { Encode(TagOf(f)) + Tail(f) }

  function WrittenAll(fields: seq<WireField>): (bytes: seq<Byte>) {
    if fields == [] then [] else Written(fields[0]) + WrittenAll(fields[1..])
  }

  function SeenOf(f: WireField): (seen: seq<(nat, int)>) {
    if f.AsVarint? then [(f.number, Signed(f.bits))] else []
  }

  /** What a decoder is to see: the varint fields in order. */
  function Seen(fields: seq<WireField>): (seen: seq<(nat, int)>) {
    if fields == [] then [] else SeenOf(fields[0]) + Seen(fields[1..])
  }

  /** `bytes` stand in `msg` at `i`. */
  ghost predicate StandsAt(msg: seq<Byte>, i: nat, bytes: seq<Byte>) {
    i + |bytes| <= |msg| && msg[i..i + |bytes|] == bytes
  }

  lemma StandsApart(msg: seq<Byte>, i: nat, a: seq<Byte>, b: seq<Byte>)
    requires StandsAt(msg, i, a + b)
    ensures StandsAt(msg, i, a) && StandsAt(msg, i + |a|, b)
  {
    var both := msg[i..i + |a + b|];
    assert both[..|a|] == a && both[|a|..] == b;
    assert msg[i..i + |a|] == both[..|a|];
    assert msg[i + |a|..i + |a| + |b|] == both[|a|..];
  }

  lemma ReadAt(msg: seq<Byte>, i: nat, n: nat)
    requires StandsAt(msg, i, Encode(n))
    ensures i < |msg| && VarintAt(msg, i) == (n, i + |Encode(n)|)
  {
    ReadEncoded(msg, i, n);
  }

  /** The payload of a field reads as its wire type wants it. */
  ghost predicate TailReads(msg: seq<Byte>, k: nat, f: WireField) {
    var next := VarintAt(msg, k);
    match f
    case AsVarint(_, bits) => next == (bits, k + |Tail(f)|)
    case AsBytes(_, _) => next.1 + next.0 == k + |Tail(f)|
    case AsFixed32(_, _) => |Tail(f)| == 4
    case AsFixed64(_, _) => |Tail(f)| == 8
  }

  lemma TailRead(msg: seq<Byte>, k: nat, f: WireField)
    requires WellFormed(f) && StandsAt(msg, k, Tail(f))
    ensures TailReads(msg, k, f)
  {
    if f.AsVarint? {
      ReadAt(msg, k, f.bits);
    } else if f.AsBytes? {
      StandsApart(msg, k, Encode(|f.payload|), f.payload);
      ReadAt(msg, k, |f.payload|);
    }
  }

  lemma TagAndTail(msg: seq<Byte>, i: nat, f: WireField)
    requires WellFormed(f) && StandsAt(msg, i, Written(f))
    ensures i < |msg| && var k := i + |Encode(TagOf(f))|;
            VarintAt(msg, i) == (TagOf(f), k) && TailReads(msg, k, f) && i + |Written(f)| == k + |Tail(f)|
  {
    StandsApart(msg, i, Encode(TagOf(f)), Tail(f));
    ReadAt(msg, i, TagOf(f));
    TailRead(msg, i + |Encode(TagOf(f))|, f);
  }

  lemma StepByType(msg: seq<Byte>, i: nat, k: nat, f: WireField)
    requires i < |msg| && VarintAt(msg, i) == (TagOf(f), k) && TailReads(msg, k, f)
    ensures FieldStep(msg, i) == (SeenOf(f), k + |Tail(f)|)
  {
  }

  /** Whatever follows, one turn of the field loop reads a written field: the value of a varint field, and
      nothing of any other, and it stops at its end. */
  lemma FieldStepWritten(msg: seq<Byte>, i: nat, f: WireField)
    requires WellFormed(f) && StandsAt(msg, i, Written(f))
    ensures i < |msg| && FieldStep(msg, i) == (SeenOf(f), i + |Written(f)|)
  {
    TagAndTail(msg, i, f);
    StepByType(msg, i, i + |Encode(TagOf(f))|, f);
  }

  /** From `i` on the loop meets exactly these fields. */
  ghost predicate Meets(msg: seq<Byte>, i: nat, fields: seq<WireField>)
    decreases |fields|
  {
    if fields == [] then i == |msg|
    else i < |msg| && FieldStep(msg, i).0 == SeenOf(fields[0]) && Meets(msg, FieldStep(msg, i).1, fields[1..])
  }

  lemma {:induction false} MeetsSeen(msg: seq<Byte>, i: nat, fields: seq<WireField>)
    requires Meets(msg, i, fields)
    ensures Fields(msg, i) == Seen(fields)
    decreases |fields|
  {
    if fields != [] {
      MeetsSeen(msg, FieldStep(msg, i).1, fields[1..]);
    }
  }

  /** The fields stand one after the other from `i` to the end. */
  ghost predicate LaidOut(msg: seq<Byte>, i: nat, fields: seq<WireField>)
    decreases |fields|
  {
    if fields == [] then i == |msg|
    else StandsAt(msg, i, Written(fields[0])) && LaidOut(msg, i + |Written(fields[0])|, fields[1..])
  }

  lemma {:induction false} WrittenLaidOut(before: seq<Byte>, fields: seq<WireField>)
    ensures LaidOut(before + WrittenAll(fields), |before|, fields)
    decreases |fields|
  {
    if fields != [] {
      var here, rest := Written(fields[0]), WrittenAll(fields[1..]);
      var msg := before + WrittenAll(fields);
      assert msg == before + here + rest && StandsAt(msg, |before|, here) by {
        StandsBetween(before, here, rest);
      }
      WrittenLaidOut(before + here, fields[1..]);
    }
  }

  lemma StandsBetween(a: seq<Byte>, b: seq<Byte>, c: seq<Byte>)
    ensures a + (b + c) == a + b + c && StandsAt(a + (b + c), |a|, b)
  {
  }

  lemma {:induction false} LaidOutMeets(msg: seq<Byte>, i: nat, fields: seq<WireField>)
    requires LaidOut(msg, i, fields) && forall k :: 0 <= k < |fields| ==> WellFormed(fields[k])
    ensures Meets(msg, i, fields)
    decreases |fields|
  {
    if fields != [] {
      LaidOutMeets(msg, i + |Written(fields[0])|, fields[1..]);
      MeetsOneMore(msg, i, fields);
    }
  }

  lemma MeetsOneMore(msg: seq<Byte>, i: nat, fields: seq<WireField>)
    requires fields != [] && WellFormed(fields[0]) && StandsAt(msg, i, Written(fields[0]))
    requires Meets(msg, i + |Written(fields[0])|, fields[1..])
    ensures Meets(msg, i, fields)
  {
    FieldStepWritten(msg, i, fields[0]);
    MeetsCons(msg, i, fields);
  }

  lemma MeetsCons(msg: seq<Byte>, i: nat, fields: seq<WireField>)
    requires fields != [] && i < |msg| && FieldStep(msg, i).0 == SeenOf(fields[0])
    requires Meets(msg, FieldStep(msg, i).1, fields[1..])
    ensures Meets(msg, i, fields)
  {
  }

  /** Decoding a message of any written fields gives its varint fields in order and skips the others. */
  lemma FieldsWritten(fields: seq<WireField>)
    requires forall k :: 0 <= k < |fields| ==> WellFormed(fields[k])
    ensures Fields(WrittenAll(fields), 0) == Seen(fields)
  {
    WrittenLaidOut([], fields);
    assert [] + WrittenAll(fields) == WrittenAll(fields);
    LaidOutMeets(WrittenAll(fields), 0, fields);
    MeetsSeen(WrittenAll(fields), 0, fields);
  }

  // ---- Round trips -----------------------------------------------------------------------------------

  /** A varint field with a one-byte tag at `i` is the next field of the message. */
  lemma FieldAt(msg: seq<Byte>, i: nat, number: nat, n: nat, end: nat)
    requires i < |msg| && 1 <= number < 16 && msg[i] == 8 * number && VarintAt(msg, i + 1) == (n, end)
    ensures FieldStep(msg, i) == ([(number, Signed(n))], end)
  {
    assert VarintAt(msg, i) == (8 * number, i + 1);
  }

  /** The sign rule undoes the two's complement pattern exactly on the signed 64-bit range. */
  lemma SignedPattern(value: int)
    requires value >= -TWO64
    ensures Signed(Pattern(value)) == value <==> -TWO63 <= value < TWO63
  {
  }

  /** Decoding an encoded reply gives the result back if and only if it fits 64 signed bits. */
  lemma ReplyRoundTrip(result: int)
    requires result >= -TWO64
    ensures SumRequest(Reply(result)) == (result, 0) <==> -TWO63 <= result < TWO63
  {
    ReplyFields(result);
    SignedPattern(result);
  }

  lemma ReplyFields(result: int)
    requires result >= -TWO64
    ensures SumRequest(Reply(result)) == (Signed(Pattern(result)), 0)
  {
    var msg, n := Reply(result), Pattern(result);
    assert msg[1..1 + |Encode(n)|] == Encode(n);
    ReadEncoded(msg, 1, n);
    FieldAt(msg, 0, 1, n, |msg|);
    assert Fields(msg, |msg|) == [];
    assert Fields(msg, 0) == [(1, Signed(n))] + [];
    LastOfCons((1, Signed(n)), [], 1, 0);
    LastOfCons((1, Signed(n)), [], 2, 0);
  }

  /** Outside that range the decoder answers modulo 2^64: for example 2^63 comes back negative. */
  lemma ReplyWraps()
    ensures SumRequest(Reply(TWO63)).0 == -TWO63
  {
    ReplyFields(TWO63);
  }

  /** A request as a client encodes it: fields 1 and 2. */
  function Request(a: int, b: int): (msg: seq<Byte>)
    requires a >= -TWO64 && b >= -TWO64
  {
    [8] + Encode(Pattern(a)) + ([16] + Encode(Pattern(b)))
  }

  /** Every pair of signed 64-bit operands is decoded as sent. */
  lemma RequestRoundTrip(a: int, b: int)
    requires -TWO63 <= a < TWO63 && -TWO63 <= b < TWO63
    ensures SumRequest(Request(a, b)) == (a, b)
  {
    RequestFields(a, b);
    LastOfCons((1, a), [(2, b)], 1, 0);
    LastOfCons((1, a), [(2, b)], 2, 0);
    assert [(2, b)] == [(2, b)] + [];
    LastOfCons((2, b), [], 1, a);
    LastOfCons((2, b), [], 2, 0);
  }

  lemma RequestFields(a: int, b: int)
    requires -TWO63 <= a < TWO63 && -TWO63 <= b < TWO63
    ensures Fields(Request(a, b), 0) == [(1, a)] + [(2, b)]
  {
    var x, y := Pattern(a), Pattern(b);
    var msg, k := Request(a, b), 1 + |Encode(x)|;
    assert msg[0] == 8 && msg[1..k] == Encode(x);
    assert msg[k] == 16 && msg[k + 1..k + 1 + |Encode(y)|] == Encode(y);
    SignedPattern(a);
    SignedPattern(b);
    ReadEncoded(msg, 1, x);
    ReadEncoded(msg, k + 1, y);
    TwoFields(msg, x, k, y);
  }

  lemma TwoFields(msg: seq<Byte>, x: nat, k: nat, y: nat)
    requires 0 < k < |msg| && msg[0] == 8 && msg[k] == 16
    requires VarintAt(msg, 1) == (x, k) && VarintAt(msg, k + 1) == (y, |msg|)
    ensures Fields(msg, 0) == [(1, Signed(x))] + [(2, Signed(y))]
  {
    FieldAt(msg, 0, 1, x, k);
    FieldAt(msg, k, 2, y, |msg|);
    assert Fields(msg, |msg|) == [];
    assert Fields(msg, k) == [(2, Signed(y))];
  }

  lemma LastOfCons(f: (nat, int), rest: seq<(nat, int)>, number: nat, default: int)
    ensures LastOf([f] + rest, number, default) == LastOf(rest, number, if f.0 == number then f.1 else default)
  {
    assert ([f] + rest)[1..] == rest;
  }
}

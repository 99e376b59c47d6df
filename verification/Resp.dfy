/** The wire protocol of resp.go: "Simple strings", "Errors", "Integers", "Bulk strings" and
    "Arrays" of the Redis serialization protocol specification, and "Maps" of RESP3. */
module Resp {
  import opened Bytes
  import Decimal

  const CR: byte := 13
  const LF: byte := 10
  const SIMPLE: byte := 43
  const ERROR: byte := 45
  const INTEGER: byte := 58
  const BULK: byte := 36
  const ARRAY: byte := 42
  const MAP: byte := 37
  const CRLF: bytes := [CR, LF]

  const MAX_LINE: nat := 0x10_0000
  const MAX_BULK: nat := 0x400_0000
  const MAX_ARGS: nat := 1024

  datatype Resp =
    | Simple(data: bytes)
    | Error(data: bytes)
    | Integer(value: int)
    | Bulk(data: bytes)
    | NullBulk
    | Array(items: seq<Resp>)
    | NullArray
    | Map(items: seq<Resp>)
    | NullMap

  datatype Fault =
    | EndOfInput | MalformedLine | LineTooLong | InvalidLength | InvalidArray | InvalidMap
    | InvalidBulk | BadTerminator | NullMember | InvalidInteger | InvalidInline

  datatype Result<+T> = Ok(value: T) | Err(fault: Fault)

  // ---------------------------------------------------------------- lines

  function NewlineAt(b: bytes): (i: nat)
    ensures i <= |b|
    ensures i < |b| ==> b[i] == LF
    ensures LF !in b[..i]
  {
    if b == [] || b[0] == LF then 0
    else
      var i := 1 + NewlineAt(b[1..]);
      assert b[..i] == [b[0]] + b[1..][..i - 1];
      i
  }

  /** readRESPLine: up to the first newline, which a carriage return must precede. */
  function ReadLine(input: bytes): (r: Result<(bytes, bytes)>)
    ensures r.Ok? ==> |r.value.1| < |input| && |r.value.0| <= MAX_LINE && LF !in r.value.0
  {
    var i := NewlineAt(input);
    if i == |input| then Err(EndOfInput)
    else if i == 0 || input[i - 1] != CR then Err(MalformedLine)
    else if i - 1 > MAX_LINE then Err(LineTooLong)
    else
      assert input[..i - 1] <= input[..i];
      Ok((input[..i - 1], input[i + 1..]))
  }

  /** readRESPInt: a line that parses as a 32-bit integer. */
  function ReadLength(input: bytes): (r: Result<(int, bytes)>)
    ensures r.Ok? ==> |r.value.1| < |input|
  {
    match ReadLine(input)
    case Err(f) => Err(f)
    case Ok((line, rest)) =>
      match Decimal.Parse(line)
      case None => Err(InvalidLength)
      case Some(n) => if -0x8000_0000 <= n < 0x8000_0000 then Ok((n, rest)) else Err(InvalidLength)
  }

  // ---------------------------------------------------------------- inline commands

  function TokenEnd(b: bytes): (i: nat)
    ensures i <= |b|
    ensures forall j :: 0 <= j < i ==> !IsSpace(b[j])
    ensures b != [] && !IsSpace(b[0]) ==> i > 0
  {
    if b == [] || IsSpace(b[0]) then 0 else 1 + TokenEnd(b[1..])
  }

  /** strings.Fields on ASCII text. */
  function Fields(b: bytes): (r: seq<bytes>)
    ensures forall i :: 0 <= i < |r| ==> |r[i]| <= |b|
    decreases |b|
  {
    if b == [] then []
    else if IsSpace(b[0]) then Fields(b[1..])
    else [b[..TokenEnd(b)]] + Fields(b[TokenEnd(b)..])
  }

  function Bulks(parts: seq<bytes>): (r: seq<Resp>)
    ensures |r| == |parts| && forall i :: 0 <= i < |r| ==> r[i] == Bulk(parts[i])
  {
    seq(|parts|, i requires 0 <= i < |parts| => Bulk(parts[i]))
  }

  function ReadInline(prefix: byte, input: bytes): (r: Result<(Resp, bytes)>)
    ensures r.Ok? ==> |r.value.1| < |input| && r.value.0.Array?
  {
    match ReadLine(input)
    case Err(f) => Err(f)
    case Ok((line, rest)) =>
      var parts := Fields([prefix] + line);
      if |parts| == 0 || |parts| > MAX_ARGS then Err(InvalidInline) else Ok((Array(Bulks(parts)), rest))
  }

  // ---------------------------------------------------------------- values

  function ReadBulk(input: bytes): (r: Result<(Resp, bytes)>)
    ensures r.Ok? ==> |r.value.1| < |input|
  {
    match ReadLength(input)
    case Err(f) => Err(f)
    case Ok((length, rest)) =>
      if length == -1 then Ok((NullBulk, rest))
      else if length < 0 || length > MAX_BULK then Err(InvalidBulk)
      else if |rest| < length + 2 then Err(EndOfInput)
      else if rest[length..length + 2] != CRLF then Err(BadTerminator)
      else Ok((Bulk(rest[..length]), rest[length + 2..]))
  }

  function ReadScalar(prefix: byte, input: bytes): (r: Result<(Resp, bytes)>)
    requires prefix in {SIMPLE, ERROR, INTEGER}
    ensures r.Ok? ==> |r.value.1| < |input|
  {
    match ReadLine(input)
    case Err(f) => Err(f)
    case Ok((line, rest)) =>
      if prefix == SIMPLE then Ok((Simple(line), rest))
      else if prefix == ERROR then Ok((Error(line), rest))
      else match Decimal.ParseInt64(line)
        case None => Err(InvalidInteger)
        case Some(n) => Ok((Integer(n), rest))
  }

  /** readRESP: one value and what follows it. On every finite input it ends, with an error
      or having consumed at least one byte. */
  function Read(input: bytes): (r: Result<(Resp, bytes)>)
    ensures r.Ok? ==> |r.value.1| < |input|
    decreases |input|, 0
  {
    if input == [] then Err(EndOfInput)
    else
      var prefix, body := input[0], input[1..];
      if prefix == ARRAY || prefix == MAP then ReadContainer(prefix, body)
      else if prefix == BULK then ReadBulk(body)
      else if prefix in {SIMPLE, ERROR, INTEGER} then ReadScalar(prefix, body)
      else ReadInline(prefix, body)
  }

  function ReadContainer(prefix: byte, body: bytes): (r: Result<(Resp, bytes)>)
    requires prefix == ARRAY || prefix == MAP
    ensures r.Ok? ==> |r.value.1| < |body|
    decreases |body|, 0
  {
    match ReadLength(body)
    case Err(f) => Err(f)
    case Ok((count, rest)) =>
      if count < 0 || count > MAX_ARGS then Err(if prefix == ARRAY then InvalidArray else InvalidMap)
      else match ReadItems(if prefix == ARRAY then count else 2 * count, rest)
        case Err(f) => Err(f)
        case Ok((items, end)) => Ok((if prefix == ARRAY then Array(items) else Map(items), end))
  }

  /** The item loop of an array or map: `n` values, none of them null. */
  function ReadItems(n: nat, input: bytes): (r: Result<(seq<Resp>, bytes)>)
    ensures r.Ok? ==> |r.value.1| <= |input| && |r.value.0| == n
    decreases |input|, n + 1
  {
    if n == 0 then Ok(([], input))
    else match Read(input)
      case Err(f) => Err(f)
      case Ok((item, rest)) =>
        if item.NullBulk? then Err(NullMember)
        else match ReadItems(n - 1, rest)
          case Err(f) => Err(f)
          case Ok((items, end)) => Ok(([item] + items, end))
  }

  // ---------------------------------------------------------------- writing

  /** bytes.ReplaceAll of CR and LF by nothing. */
  function Sanitize(data: bytes): (r: bytes)
    ensures CR !in r && LF !in r
    ensures |r| <= |data|
    ensures r == data <==> CR !in data && LF !in data
  {
    if data == [] then []
    else
      var rest := Sanitize(data[1..]);
      if data[0] == CR || data[0] == LF then rest
      else
        assert data == [data[0]] + data[1..];
        assert [data[0]] + rest == data <==> rest == data[1..] by {
          assert ([data[0]] + rest)[1..] == rest;
        }
        [data[0]] + rest
  }

  function Header(prefix: byte, n: int): bytes { [prefix] + Decimal.Format(n) + CRLF }

  /** writeRESP; a map with an odd number of members is refused. */
  function Write(v: Resp): Option<bytes> {
    match v
    case Simple(data) => Some([SIMPLE] + Sanitize(data) + CRLF)
    case Error(data) => Some([ERROR] + Sanitize(data) + CRLF)
    case Integer(n) => Some(Header(INTEGER, n))
    case Bulk(data) => Some(Header(BULK, |data|) + data + CRLF)
    case NullBulk => Some(Header(BULK, -1))
    case NullArray => Some(Header(ARRAY, -1))
    case NullMap => Some(Header(MAP, -1))
    case Array(items) =>
      (match WriteItems(items) case None => None case Some(body) => Some(Header(ARRAY, |items|) + body))
    case Map(items) =>
      if |items| % 2 != 0 then None
      else match WriteItems(items) case None => None case Some(body) => Some(Header(MAP, |items| / 2) + body)
  }

  function WriteItems(items: seq<Resp>): Option<bytes> {
    if items == [] then Some([])
    else match Write(items[0])
      case None => None
      case Some(head) => match WriteItems(items[1..]) case None => None case Some(tail) => Some(head + tail)
  }

  /** Exactly the values the reader gives back. */
  predicate Readable(v: Resp) {
    match v
    case Simple(data) => CR !in data && LF !in data && |data| <= MAX_LINE
    case Error(data) => CR !in data && LF !in data && |data| <= MAX_LINE
    case Integer(n) => MIN_INT64 <= n <= MAX_INT64
    case Bulk(data) => |data| <= MAX_BULK
    case NullBulk => true
    case NullArray => false
    case NullMap => false
    case Array(items) => |items| <= MAX_ARGS && ItemsReadable(items)
    case Map(items) => |items| <= 2 * MAX_ARGS && ItemsReadable(items)
  }

  predicate ItemsReadable(items: seq<Resp>) {
    items == [] || (!items[0].NullBulk? && Readable(items[0]) && ItemsReadable(items[1..]))
  }

  // ---------------------------------------------------------------- round trip

  lemma {:induction false} NewlineAfter(line: bytes, rest: bytes)
    requires LF !in line
    ensures NewlineAt(line + [LF] + rest) == |line|
  {
    var b := line + [LF] + rest;
    assert b[..|line|] == line && b[|line|] == LF;
    assert b[|line|] in b[..|line| + 1];
  }

  /** A newline-free line comes back exactly when it is within the limit. */
  lemma ReadLineBack(line: bytes, rest: bytes)
    requires LF !in line
    ensures ReadLine(line + CRLF + rest) == if |line| <= MAX_LINE then Ok((line, rest)) else Err(LineTooLong)
  {
    var b := line + CRLF + rest;
    assert b == (line + [CR]) + [LF] + rest;
    NewlineAfter(line + [CR], rest);
    assert b[..|line|] == line;
    assert b[|line| + 2..] == rest;
  }

  /** What reading back the bytes of `v` may give: an error, or a value and exactly what
      follows, the value being `v` itself when and only when `v` is readable. */
  ghost predicate ReadsBack(v: Resp, r: Result<(Resp, bytes)>, rest: bytes) {
    && (Readable(v) ==> r.Ok?)
    && (r.Ok? ==> r.value.1 == rest && (r.value.0 == v <==> Readable(v)) && (r.value.0.NullBulk? <==> v.NullBulk?))
  }

  ghost predicate ItemsReadBack(items: seq<Resp>, r: Result<(seq<Resp>, bytes)>, rest: bytes) {
    && (ItemsReadable(items) ==> r.Ok?)
    && (r.Ok? ==> r.value.1 == rest && (r.value.0 == items <==> ItemsReadable(items)))
  }

  lemma ReadBackScalar(prefix: byte, line: bytes, rest: bytes)
    requires prefix in {SIMPLE, ERROR, INTEGER} && LF !in line
    ensures Read([prefix] + line + CRLF + rest) ==
            if |line| > MAX_LINE then Err(LineTooLong) else ReadScalar(prefix, line + CRLF + rest)
  {
    var input := [prefix] + line + CRLF + rest;
    assert input[1..] == line + CRLF + rest;
    ReadLineBack(line, rest);
  }

  /** A printed length comes back, or is refused because it is not a 32-bit integer. */
  lemma LengthBack(n: int, rest: bytes)
    ensures var r := ReadLength(Decimal.Format(n) + CRLF + rest);
            if -0x8000_0000 <= n < 0x8000_0000 then r == Ok((n, rest)) else r.Err?
  {
    var line := Decimal.Format(n);
    Decimal.FormatIsPrintable(n);
    Decimal.ParseInvertsFormat(n);
    ReadLineBack(line, rest);
    if -0x8000_0000 <= n < 0x8000_0000 { Decimal.Format64Length(n); }
  }

  lemma ReadBackSimple(v: Resp, rest: bytes)
    requires v.Simple? || v.Error?
    ensures ReadsBack(v, Read(Write(v).value + rest), rest)
  {
    var line := Sanitize(v.data);
    var prefix := if v.Simple? then SIMPLE else ERROR;
    ReadBackScalar(prefix, line, rest);
    ReadLineBack(line, rest);
    assert Write(v).value + rest == [prefix] + line + CRLF + rest;
  }

  lemma ReadBackInteger(v: Resp, rest: bytes)
    requires v.Integer?
    ensures ReadsBack(v, Read(Write(v).value + rest), rest)
  {
    var line := Decimal.Format(v.value);
    Decimal.FormatIsPrintable(v.value);
    Decimal.ParseInvertsFormat(v.value);
    ReadBackScalar(INTEGER, line, rest);
    ReadLineBack(line, rest);
    if Readable(v) { Decimal.Format64Length(v.value); }
    assert Write(v).value + rest == [INTEGER] + line + CRLF + rest;
  }

  lemma ReadBackBulk(v: Resp, rest: bytes)
    requires v.Bulk? || v.NullBulk?
    ensures ReadsBack(v, Read(Write(v).value + rest), rest)
  {
    var n := if v.Bulk? then |v.data| else -1;
    var tail := if v.Bulk? then v.data + CRLF + rest else rest;
    var input := Write(v).value + rest;
    assert input[1..] == Decimal.Format(n) + CRLF + tail;
    LengthBack(n, tail);
    if v.Bulk? {
      assert tail[..n] == v.data && tail[n..n + 2] == CRLF && tail[n + 2..] == rest;
    }
  }

  lemma ReadBackNullContainer(v: Resp, rest: bytes)
    requires v.NullArray? || v.NullMap?
    ensures ReadsBack(v, Read(Write(v).value + rest), rest)
  {
    var input := Write(v).value + rest;
    assert input[1..] == Decimal.Format(-1) + CRLF + rest;
    LengthBack(-1, rest);
  }

  lemma {:induction false} ReadBackItems(items: seq<Resp>, rest: bytes)
    requires WriteItems(items).Some?
    ensures ItemsReadBack(items, ReadItems(|items|, WriteItems(items).value + rest), rest)
    decreases items
  {
    if items == [] {
      assert WriteItems(items).value + rest == rest;
    } else {
      var tail := WriteItems(items[1..]).value + rest;
      assert WriteItems(items).value + rest == Write(items[0]).value + tail;
      ReadBack(items[0], tail);
      ReadBackItems(items[1..], rest);
      assert items == [items[0]] + items[1..];
    }
  }

  /** The RESP round trip: reading the bytes written for `v`, whatever follows them, gives
      `v` and exactly what follows if and only if `v` is readable. */
  lemma {:induction false} ReadBack(v: Resp, rest: bytes)
    requires Write(v).Some?
    ensures ReadsBack(v, Read(Write(v).value + rest), rest)
    decreases v
  {
    match v
    case Simple(_) => ReadBackSimple(v, rest);
    case Error(_) => ReadBackSimple(v, rest);
    case Integer(_) => ReadBackInteger(v, rest);
    case Bulk(_) => ReadBackBulk(v, rest);
    case NullBulk => ReadBackBulk(v, rest);
    case NullArray => ReadBackNullContainer(v, rest);
    case NullMap => ReadBackNullContainer(v, rest);
    case Array(items) => ReadBackItems(items, rest); ReadBackContainer(v, rest);
    case Map(items) => ReadBackItems(items, rest); ReadBackContainer(v, rest);
  }

  lemma ContainerBack(prefix: byte, n: nat, size: nat, body: bytes)
    requires prefix == ARRAY || prefix == MAP
    requires size == if prefix == ARRAY then n else 2 * n
    ensures var r := Read(Header(prefix, n) + body);
            var ri := ReadItems(size, body);
            if n > MAX_ARGS || ri.Err? then r.Err?
            else r == Ok((if prefix == ARRAY then Array(ri.value.0) else Map(ri.value.0), ri.value.1))
  {
    var input := Header(prefix, n) + body;
    assert input[0] == prefix && input[1..] == Decimal.Format(n) + CRLF + body;
    LengthBack(n, body);
  }

  lemma ReadBackContainer(v: Resp, rest: bytes)
    requires v.Array? || v.Map?
    requires Write(v).Some?
    requires ItemsReadBack(v.items, ReadItems(|v.items|, WriteItems(v.items).value + rest), rest)
    ensures ReadsBack(v, Read(Write(v).value + rest), rest)
  {
    var prefix := if v.Array? then ARRAY else MAP;
    var n := if v.Array? then |v.items| else |v.items| / 2;
    var body := WriteItems(v.items).value;
    assert Write(v).value + rest == Header(prefix, n) + (body + rest);
    ContainerBack(prefix, n, |v.items|, body + rest);
  }

  // ---------------------------------------------------------------- pipelines

  /** A client's requests, one after another. */
  function ReadAll(n: nat, input: bytes): Result<(seq<Resp>, bytes)> {
    if n == 0 then Ok(([], input))
    else match Read(input)
      case Err(f) => Err(f)
      case Ok((v, rest)) => match ReadAll(n - 1, rest)
        case Err(f) => Err(f)
        case Ok((vs, end)) => Ok(([v] + vs, end))
  }

  predicate AllReadable(vs: seq<Resp>) { forall v <- vs :: Readable(v) }

  /** Any pipelined sequence of readable values decodes to itself and nothing else. */
  lemma {:induction false} PipelineDecodes(vs: seq<Resp>, rest: bytes)
    requires AllReadable(vs) && WriteItems(vs).Some?
    ensures ReadAll(|vs|, WriteItems(vs).value + rest) == Ok((vs, rest))
    decreases |vs|
  {
    if vs == [] {
      assert WriteItems(vs).value + rest == rest;
    } else {
      var tail := WriteItems(vs[1..]).value + rest;
      assert WriteItems(vs).value + rest == Write(vs[0]).value + tail;
      ReadBack(vs[0], tail);
      PipelineDecodes(vs[1..], rest);
      assert vs == [vs[0]] + vs[1..];
    }
  }

  lemma WriteIsNonEmpty(v: Resp)
    ensures Write(v).Some? ==> Write(v).value != []
  {
  }

  /** Two different pipelines of readable values, of whatever lengths, never share their bytes. */
  lemma {:induction false} PipelinesDiffer(vs: seq<Resp>, ws: seq<Resp>)
    requires AllReadable(vs) && AllReadable(ws)
    requires WriteItems(vs).Some? && WriteItems(vs) == WriteItems(ws)
    ensures vs == ws
    decreases |vs|
  {
    if vs != [] { WriteIsNonEmpty(vs[0]); }
    if ws != [] { WriteIsNonEmpty(ws[0]); }
    if vs != [] && ws != [] {
      ReadBack(vs[0], WriteItems(vs[1..]).value);
      ReadBack(ws[0], WriteItems(ws[1..]).value);
      PipelinesDiffer(vs[1..], ws[1..]);
      assert vs == [vs[0]] + vs[1..] && ws == [ws[0]] + ws[1..];
    }
  }

  // ---------------------------------------------------------------- limits

  /** Whatever the reader returns is within its limits, all the way down. */
  predicate Bounded(v: Resp) {
    match v
    case Simple(data) => |data| <= MAX_LINE
    case Error(data) => |data| <= MAX_LINE
    case Integer(n) => MIN_INT64 <= n <= MAX_INT64
    case Bulk(data) => |data| <= MAX_BULK
    case Array(items) => |items| <= MAX_ARGS && AllBounded(items)
    case Map(items) => |items| <= 2 * MAX_ARGS && AllBounded(items)
    case _ => true
  }

  predicate AllBounded(items: seq<Resp>) {
    items == [] || (Bounded(items[0]) && AllBounded(items[1..]))
  }

  lemma {:induction false} BoundedAt(items: seq<Resp>, i: nat)
    requires AllBounded(items) && i < |items|
    ensures Bounded(items[i])
    decreases i
  {
    if i > 0 { BoundedAt(items[1..], i - 1); }
  }

  lemma {:induction false} BulksAreBounded(parts: seq<bytes>)
    requires forall i :: 0 <= i < |parts| ==> |parts[i]| <= MAX_BULK
    ensures AllBounded(Bulks(parts))
    decreases |parts|
  {
    if parts != [] {
      BulksAreBounded(parts[1..]);
      assert Bulks(parts)[1..] == Bulks(parts[1..]);
    }
  }

  lemma InlineIsBounded(prefix: byte, input: bytes)
    ensures ReadInline(prefix, input).Ok? ==> Bounded(ReadInline(prefix, input).value.0)
  {
    var line := ReadLine(input);
    if line.Ok? && |Fields([prefix] + line.value.0)| <= MAX_ARGS { BulksAreBounded(Fields([prefix] + line.value.0)); }
  }

  lemma ContainerIsBounded(prefix: byte, body: bytes)
    requires prefix == ARRAY || prefix == MAP
    requires var length := ReadLength(body);
             length.Ok? && 0 <= length.value.0 <= MAX_ARGS ==>
               var r := ReadItems(if prefix == ARRAY then length.value.0 else 2 * length.value.0, length.value.1);
               r.Ok? ==> AllBounded(r.value.0)
    ensures ReadContainer(prefix, body).Ok? ==> Bounded(ReadContainer(prefix, body).value.0)
  {
  }

  lemma {:induction false} ReadIsBounded(input: bytes)
    ensures Read(input).Ok? ==> Bounded(Read(input).value.0)
    decreases |input|, 0
  {
    if input != [] {
      var prefix, body := input[0], input[1..];
      if prefix == ARRAY || prefix == MAP {
        var length := ReadLength(body);
        if length.Ok? && 0 <= length.value.0 <= MAX_ARGS {
          ItemsAreBounded(if prefix == ARRAY then length.value.0 else 2 * length.value.0, length.value.1);
        }
        ContainerIsBounded(prefix, body);
      } else {
        InlineIsBounded(prefix, body);
      }
    }
  }

  lemma {:induction false} ItemsAreBounded(n: nat, input: bytes)
    ensures var r := ReadItems(n, input); r.Ok? ==> AllBounded(r.value.0)
    decreases |input|, n + 1
  {
    if n > 0 {
      ReadIsBounded(input);
      if Read(input).Ok? {
        var (item, rest) := Read(input).value;
        ItemsAreBounded(n - 1, rest);
        if ReadItems(n - 1, rest).Ok? {
          var items := ReadItems(n - 1, rest).value.0;
          assert ([item] + items)[1..] == items;
        }
      }
    }
  }
}

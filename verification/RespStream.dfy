/** readRESP and writeRESP as they run: over a reader that loses the bytes it returns and a
    writer that gains the bytes it is given. */
module RespStream {
  import opened Bytes
  import opened Resp
  import Decimal

  ghost function Joined(done: seq<Resp>, r: Result<(seq<Resp>, bytes)>): Result<(seq<Resp>, bytes)> {
    match r case Err(f) => Err(f) case Ok((items, end)) => Ok((done + items, end))
  }

  lemma JoinedNil(r: Result<(seq<Resp>, bytes)>)
    ensures Joined([], r) == r
  {
    if r.Ok? { assert [] + r.value.0 == r.value.0; }
  }

  /** One turn of the item loop. */
  lemma ItemStep(done: seq<Resp>, n: nat, input: bytes)
    requires n > 0
    ensures Joined(done, ReadItems(n, input)) ==
            match Read(input)
            case Err(f) => Err(f)
            case Ok((item, rest)) =>
              if item.NullBulk? then Err(NullMember) else Joined(done + [item], ReadItems(n - 1, rest))
  {
    match Read(input)
    case Err(_) =>
    case Ok((item, rest)) =>
      if !item.NullBulk? && ReadItems(n - 1, rest).Ok? {
        var items := ReadItems(n - 1, rest).value.0;
        assert done + ([item] + items) == done + [item] + items;
      }
  }

  lemma FirstNewline(b: bytes, i: nat)
    requires i < |b| && b[i] == LF && LF !in b[..i]
    ensures NewlineAt(b) == i
  {
    var j := NewlineAt(b);
    assert forall m :: 0 <= m < i ==> b[m] == b[..i][m];
    assert forall m :: 0 <= m < j ==> b[m] == b[..j][m];
  }

  lemma NoNewline(b: bytes)
    requires LF !in b
    ensures NewlineAt(b) == |b|
  {
  }

  class Reader {
    var input: bytes

    constructor (input: bytes)
      ensures this.input == input
    {
      this.input := input;
    }

    /** ReadBytes('\n'): everything up to and including the first newline, if there is one. */
    method ReadBytes() returns (line: bytes, ended: bool)
      modifies this
      ensures line + input == old(input) && (ended ==> line == [] || LF !in line)
      ensures !ended ==> |line| == NewlineAt(old(input)) + 1 && line[|line| - 1] == LF
      ensures ended <==> NewlineAt(old(input)) == |old(input)|
    {
      line := [];
      while input != []
        invariant line + input == old(input) && LF !in line
        decreases |input|
      {
        var c := input[0];
        line, input := line + [c], input[1..];
        if c == LF {
          FirstNewline(old(input), |line| - 1);
          return line, false;
        }
      }
      NoNewline(old(input));
      return line, true;
    }

    /** readRESPLine: the carriage return is checked before the limit. */
    method Line() returns (r: Result<bytes>)
      modifies this
      ensures match ReadLine(old(input))
              case Ok((line, rest)) => r == Ok(line) && input == rest
              case Err(f) => r == Err(f)
    {
      var line, ended := ReadBytes();
      if ended { return Err(EndOfInput); }
      assert line == old(input)[..|line|] && input == old(input)[|line|..];
      if |line| < 2 || line[|line| - 2] != CR { return Err(MalformedLine); }
      line := line[..|line| - 2];
      assert line == old(input)[..NewlineAt(old(input)) - 1];
      if |line| > MAX_LINE { return Err(LineTooLong); }
      return Ok(line);
    }

    method Length() returns (r: Result<int>)
      modifies this
      ensures match ReadLength(old(input))
              case Ok((n, rest)) => r == Ok(n) && input == rest
              case Err(f) => r == Err(f)
    {
      var line := Line();
      if line.Err? { return Err(line.fault); }
      var n := Decimal.Parse(line.value);
      if n.None? || n.value < -0x8000_0000 || n.value >= 0x8000_0000 { return Err(InvalidLength); }
      return Ok(n.value);
    }

    method BulkBody() returns (r: Result<Resp>)
      modifies this
      ensures match ReadBulk(old(input))
              case Ok((v, rest)) => r == Ok(v) && input == rest
              case Err(f) => r == Err(f)
    {
      var length := Length();
      if length.Err? { return Err(length.fault); }
      var n := length.value;
      if n == -1 { return Ok(NullBulk); }
      if n < 0 || n > MAX_BULK { return Err(InvalidBulk); }
      if |input| < n + 2 { return Err(EndOfInput); }
      var data, terminator := input[..n], input[n..n + 2];
      input := input[n + 2..];
      if terminator != CRLF { return Err(BadTerminator); }
      return Ok(Bulk(data));
    }

    /** readRESP consumes exactly the bytes of one value, or reports the same fault. */
    method Value() returns (r: Result<Resp>)
      modifies this
      ensures match Read(old(input))
              case Ok((v, rest)) => r == Ok(v) && input == rest
              case Err(f) => r == Err(f)
      decreases |input|, 0
    {
      if input == [] { return Err(EndOfInput); }
      var prefix := input[0];
      input := input[1..];
      if prefix == ARRAY || prefix == MAP {
        r := ContainerBody(prefix);
      } else if prefix == BULK {
        r := BulkBody();
      } else if prefix == SIMPLE || prefix == ERROR || prefix == INTEGER {
        r := ScalarBody(prefix);
      } else {
        r := InlineBody(prefix);
      }
    }

    method ScalarBody(prefix: byte) returns (r: Result<Resp>)
      requires prefix in {SIMPLE, ERROR, INTEGER}
      modifies this
      ensures match ReadScalar(prefix, old(input))
              case Ok((v, rest)) => r == Ok(v) && input == rest
              case Err(f) => r == Err(f)
    {
      var line := Line();
      if line.Err? { return Err(line.fault); }
      if prefix == INTEGER {
        var n := Decimal.ParseInt64(line.value);
        if n.None? { return Err(InvalidInteger); }
        return Ok(Integer(n.value));
      }
      return Ok(if prefix == SIMPLE then Simple(line.value) else Error(line.value));
    }

    method InlineBody(prefix: byte) returns (r: Result<Resp>)
      modifies this
      ensures match ReadInline(prefix, old(input))
              case Ok((v, rest)) => r == Ok(v) && input == rest
              case Err(f) => r == Err(f)
    {
      var line := Line();
      if line.Err? { return Err(line.fault); }
      var parts := Fields([prefix] + line.value);
      if |parts| == 0 || |parts| > MAX_ARGS { return Err(InvalidInline); }
      var items: seq<Resp> := [];
      for i := 0 to |parts|
        invariant items == Bulks(parts)[..i]
      {
        items := items + [Bulk(parts[i])];
      }
      assert items == Bulks(parts);
      return Ok(Array(items));
    }

    method ContainerBody(prefix: byte) returns (r: Result<Resp>)
      requires prefix == ARRAY || prefix == MAP
      modifies this
      ensures match ReadContainer(prefix, old(input))
              case Ok((v, rest)) => r == Ok(v) && input == rest
              case Err(f) => r == Err(f)
      decreases |input|, 0
    {
      var length := Length();
      if length.Err? { return Err(length.fault); }
      if length.value < 0 || length.value > MAX_ARGS {
        return Err(if prefix == ARRAY then InvalidArray else InvalidMap);
      }
      var items := Items(if prefix == ARRAY then length.value else 2 * length.value);
      if items.Err? { return Err(items.fault); }
      return Ok(if prefix == ARRAY then Array(items.value) else Map(items.value));
    }

    method Items(count: nat) returns (r: Result<seq<Resp>>)
      modifies this
      ensures match ReadItems(count, old(input))
              case Ok((items, rest)) => r == Ok(items) && input == rest
              case Err(f) => r == Err(f)
      decreases |input|, 1
    {
      var items: seq<Resp> := [];
      JoinedNil(ReadItems(count, input));
      for i := 0 to count
        invariant |input| <= |old(input)|
        invariant Joined(items, ReadItems(count - i, input)) == ReadItems(count, old(input))
      {
        ItemStep(items, count - i, input);
        var item := Value();
        if item.Err? { return Err(item.fault); }
        if item.value.NullBulk? { return Err(NullMember); }
        items := items + [item.value];
      }
      assert items + [] == items;
      return Ok(items);
    }
  }

  class Writer {
    var out: bytes

    constructor ()
      ensures out == []
    {
      out := [];
    }

    method Emit(part: bytes)
      modifies this
      ensures out == old(out) + part
    {
      out := out + part;
    }

    method Scalar(v: Resp)
      requires !v.Array? && !v.Map?
      modifies this
      ensures Write(v).Some? && out == old(out) + Write(v).value
    {
      match v
      case Simple(data) => Emit([SIMPLE] + Sanitize(data) + CRLF);
      case Error(data) => Emit([ERROR] + Sanitize(data) + CRLF);
      case Integer(n) => Emit(Header(INTEGER, n));
      case Bulk(data) => Emit(Header(BULK, |data|) + data + CRLF);
      case NullBulk => Emit(Header(BULK, -1));
      case NullArray => Emit(Header(ARRAY, -1));
      case NullMap => Emit(Header(MAP, -1));
    }

    /** writeRESP appends exactly the bytes of the value, or reports an odd map. */
    method Value(v: Resp) returns (ok: bool)
      modifies this
      ensures ok == Write(v).Some?
      ensures ok ==> out == old(out) + Write(v).value
      decreases v, 0
    {
      if !v.Array? && !v.Map? {
        Scalar(v);
        return true;
      }
      if v.Map? && |v.items| % 2 != 0 { return false; }
      var header := if v.Array? then Header(ARRAY, |v.items|) else Header(MAP, |v.items| / 2);
      Emit(header);
      ok := Items(v, v.items);
      if ok { AppendTwice(old(out), header, WriteItems(v.items).value); }
    }

    method Items(ghost container: Resp, items: seq<Resp>) returns (ok: bool)
      requires (container.Array? || container.Map?) && container.items == items
      modifies this
      ensures ok == WriteItems(items).Some?
      ensures ok ==> out == old(out) + WriteItems(items).value
      decreases container, 0, 0
    {
      assert items[0..] == items;
      for i := 0 to |items|
        invariant Appended(out, WriteItems(items[i..])) == Appended(old(out), WriteItems(items))
      {
        WriteStep(out, items, i);
        ok := Value(items[i]);
        if !ok { return false; }
      }
      assert out + [] == out;
      return true;
    }
  }

  ghost function Appended(out: bytes, part: Option<bytes>): Option<bytes> {
    match part case None => None case Some(b) => Some(out + b)
  }

  lemma AppendTwice(a: bytes, b: bytes, c: bytes)
    ensures a + b + c == a + (b + c)
  {
  }

  /** One turn of the writer's item loop. */
  lemma WriteStep(out: bytes, items: seq<Resp>, i: nat)
    requires i < |items|
    ensures Appended(out, WriteItems(items[i..])) ==
            match Write(items[i])
            case None => None
            case Some(head) => Appended(out + head, WriteItems(items[i + 1..]))
  {
    assert items[i..][1..] == items[i + 1..];
    if Write(items[i]).Some? && WriteItems(items[i + 1..]).Some? {
      AppendTwice(out, Write(items[i]).value, WriteItems(items[i + 1..]).value);
    }
  }
}

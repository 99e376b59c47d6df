/** The bytes of the protocol, written out: what each value looks like on the wire, and what the
    reader makes of those bytes. */
module Wire {
  import opened Bytes
  import opened Resp
  import Decimal

  /** Decimal text: a minus for a negative number, digits from 48 to 57, no leading zero. */
  function Text(n: int): bytes
    decreases if n < 0 then 1 - n else n
  {
    if n < 0 then [45] + Text(-n) else if n < 10 then [48 + n] else Text(n / 10) + [48 + n % 10]
  }

  lemma {:induction false} TextIsFormat(n: int)
    ensures Decimal.Format(n) == Text(n)
    decreases if n < 0 then 1 - n else n
  {
    if n < 0 {
      TextIsFormat(-n);
    } else if n >= 10 {
      TextIsFormat(n / 10);
    }
  }

  /** The data without carriage returns and line feeds. */
  function Strip(data: bytes): bytes {
    if data == [] then [] else (if data[0] == 13 || data[0] == 10 then [] else [data[0]]) + Strip(data[1..])
  }

  lemma {:induction false} StripIsSanitize(data: bytes)
    ensures Sanitize(data) == Strip(data)
  {
    if data != [] { StripIsSanitize(data[1..]); }
  }

  lemma {:induction false} StripKeeps(data: bytes)
    requires 13 !in data && 10 !in data
    ensures Strip(data) == data
  {
    StripIsSanitize(data);
  }

  // ---------------------------------------------------------------- writing

  /** The wire form of a value; only a map whose members do not pair up has none. */
  function Form(v: Resp): Option<bytes> {
    match v
    case Simple(data) => Some([43] + Strip(data) + [13, 10])
    case Error(data) => Some([45] + Strip(data) + [13, 10])
    case Integer(n) => Some([58] + Text(n) + [13, 10])
    case Bulk(data) => Some([36] + Text(|data|) + [13, 10] + data + [13, 10])
    case NullBulk => Some([36, 45, 49, 13, 10])
    case NullArray => Some([42, 45, 49, 13, 10])
    case NullMap => Some([37, 45, 49, 13, 10])
    case Array(items) =>
      (match Forms(items) case None => None case Some(body) => Some([42] + Text(|items|) + [13, 10] + body))
    case Map(items) =>
      if |items| % 2 != 0 then None
      else match Forms(items) case None => None case Some(body) => Some([37] + Text(|items| / 2) + [13, 10] + body)
  }

  function Forms(items: seq<Resp>): Option<bytes> {
    if items == [] then Some([])
    else match Form(items[0])
      case None => None
      case Some(head) => match Forms(items[1..]) case None => None case Some(tail) => Some(head + tail)
  }

  lemma ScalarForm(v: Resp)
    requires !v.Array? && !v.Map?
    ensures Write(v) == Form(v)
  {
    match v
    case Simple(data) => StripIsSanitize(data);
    case Error(data) => StripIsSanitize(data);
    case Integer(n) => TextIsFormat(n);
    case Bulk(data) => TextIsFormat(|data|);
    case NullBulk => NullForm(BULK);
    case NullArray => NullForm(ARRAY);
    case NullMap => NullForm(MAP);
  }

  lemma NullForm(mark: byte)
    ensures Header(mark, -1) == [mark, 45, 49, 13, 10]
  {
    TextIsFormat(-1);
    assert Text(1) == [49];
    assert Text(-1) == [45] + [49];
  }

  /** What is written for a value is its wire form, at every depth. */
  lemma {:induction false} WritesForm(v: Resp)
    ensures Write(v) == Form(v)
    decreases v
  {
    match v
    case Array(items) =>
      WritesForms(items);
      TextIsFormat(|items|);
    case Map(items) =>
      WritesForms(items);
      TextIsFormat(|items| / 2);
    case _ => ScalarForm(v);
  }

  lemma {:induction false} WritesForms(items: seq<Resp>)
    ensures WriteItems(items) == Forms(items)
    decreases items
  {
    if items != [] {
      WritesForm(items[0]);
      WritesForms(items[1..]);
    }
  }

  // ---------------------------------------------------------------- reading

  /** Within the reader's limits: lines of a megabyte, bulks of 64, 1024 members, no null inside. */
  predicate Fitting(v: Resp) {
    match v
    case Simple(data) => 13 !in data && 10 !in data && |data| <= 1_048_576
    case Error(data) => 13 !in data && 10 !in data && |data| <= 1_048_576
    case Integer(n) => -9_223_372_036_854_775_808 <= n <= 9_223_372_036_854_775_807
    case Bulk(data) => |data| <= 67_108_864
    case NullBulk => true
    case NullArray => false
    case NullMap => false
    case Array(items) => |items| <= 1024 && AllFitting(items)
    case Map(items) => |items| <= 2048 && AllFitting(items)
  }

  predicate AllFitting(items: seq<Resp>) {
    items == [] || (!items[0].NullBulk? && Fitting(items[0]) && AllFitting(items[1..]))
  }

  lemma {:induction false} FittingIsReadable(v: Resp)
    ensures Fitting(v) <==> Readable(v)
    decreases v
  {
    if v.Array? || v.Map? { AllFittingAreReadable(v.items); }
  }

  lemma {:induction false} AllFittingAreReadable(items: seq<Resp>)
    ensures AllFitting(items) <==> ItemsReadable(items)
    decreases items
  {
    if items != [] {
      FittingIsReadable(items[0]);
      AllFittingAreReadable(items[1..]);
    }
  }

  /** The wire form of a value, whatever follows, is read as that value and what follows, exactly
      when the value is within the limits. */
  lemma ReadsForm(v: Resp, rest: bytes)
    requires Form(v).Some?
    ensures Read(Form(v).value + rest) == Ok((v, rest)) <==> Fitting(v)
  {
    hide Read, Form, Write, Fitting, Readable;
    WritesForm(v);
    FittingIsReadable(v);
    ReadBack(v, rest);
  }

  /** The scalar forms one by one. */
  lemma ReadsScalars(data: bytes, n: int, rest: bytes)
    requires 13 !in data && 10 !in data && |data| <= 1_048_576
    requires -9_223_372_036_854_775_808 <= n <= 9_223_372_036_854_775_807
    ensures Read([43] + data + [13, 10] + rest) == Ok((Simple(data), rest))
    ensures Read([45] + data + [13, 10] + rest) == Ok((Error(data), rest))
    ensures Read([58] + Text(n) + [13, 10] + rest) == Ok((Integer(n), rest))
    ensures Read([36] + Text(|data|) + [13, 10] + data + [13, 10] + rest) == Ok((Bulk(data), rest))
    ensures Read([36, 45, 49, 13, 10] + rest) == Ok((NullBulk, rest))
  {
    hide Read, Text;
    StripKeeps(data);
    ReadsForm(Simple(data), rest);
    ReadsForm(Error(data), rest);
    ReadsForm(Integer(n), rest);
    ReadsForm(Bulk(data), rest);
    ReadsForm(NullBulk, rest);
  }

  // ---------------------------------------------------------------- refusals

  /** A length that is not one of the admitted ones. */
  lemma RefusesLengths(n: int, rest: bytes)
    requires -0x8000_0000 <= n < 0x8000_0000
    ensures n < -1 || n > 67_108_864 ==> Read([36] + Text(n) + [13, 10] + rest) == Err(InvalidBulk)
    ensures n < 0 || n > 1024 ==> Read([42] + Text(n) + [13, 10] + rest) == Err(InvalidArray)
    ensures n < 0 || n > 1024 ==> Read([37] + Text(n) + [13, 10] + rest) == Err(InvalidMap)
  {
    TextIsFormat(n);
    hide Text, Decimal.Format, ReadItems, ReadLength;
    LengthBack(n, rest);
    var tail := Decimal.Format(n) + CRLF + rest;
    assert ([36] + Text(n) + [13, 10] + rest)[1..] == tail;
    assert ([42] + Text(n) + [13, 10] + rest)[1..] == tail;
    assert ([37] + Text(n) + [13, 10] + rest)[1..] == tail;
  }

  /** A null is no member of an array, and a bulk ends where its length says, with CR LF. */
  lemma RefusesMembers(data: bytes, a: byte, b: byte, rest: bytes)
    requires |data| <= 67_108_864 && [a, b] != [13, 10]
    ensures Read([36] + Text(|data|) + [13, 10] + data + [a, b] + rest) == Err(BadTerminator)
    ensures Read([42, 49, 13, 10, 36, 45, 49, 13, 10] + rest) == Err(NullMember)
  {
    RefusesTerminator(data, a, b, rest);
    NullInside(rest);
  }

  lemma RefusesTerminator(data: bytes, a: byte, b: byte, rest: bytes)
    requires |data| <= 67_108_864 && [a, b] != [13, 10]
    ensures Read([36] + Text(|data|) + [13, 10] + data + [a, b] + rest) == Err(BadTerminator)
  {
    TextIsFormat(|data|);
    hide Text, Decimal.Format, ReadLength;
    var tail := data + [a, b] + rest;
    LengthBack(|data|, tail);
    assert ([36] + Text(|data|) + [13, 10] + data + [a, b] + rest)[1..] == Decimal.Format(|data|) + CRLF + tail;
    assert tail[|data|..|data| + 2] == [a, b];
  }

  lemma NullInside(rest: bytes)
    ensures Read([42, 49, 13, 10, 36, 45, 49, 13, 10] + rest) == Err(NullMember)
  {
    var inner := [36, 45, 49, 13, 10] + rest;
    OneNull(inner, rest);
    assert Text(1) == [49];
    hide Read, Text, ReadItems;
    ArrayFault(1, inner, NullMember);
    assert [42, 49, 13, 10, 36, 45, 49, 13, 10] + rest == [42] + [49] + [13, 10] + inner;
  }

  lemma OneNull(inner: bytes, rest: bytes)
    requires inner == [36, 45, 49, 13, 10] + rest
    ensures ReadItems(1, inner) == Err(NullMember)
  {
    hide Read;
    assert Read(inner) == Ok((NullBulk, rest)) by { ReadsScalars([], 0, rest); }
  }

  lemma ArrayFault(n: nat, body: bytes, f: Fault)
    requires n <= 1024 && ReadItems(n, body) == Err(f)
    ensures Read([42] + Text(n) + [13, 10] + body) == Err(f)
  {
    TextIsFormat(n);
    hide Text, Decimal.Format, ReadLength, ReadItems;
    LengthBack(n, body);
    assert ([42] + Text(n) + [13, 10] + body)[1..] == Decimal.Format(n) + CRLF + body;
  }

  /** A line that opens with none of the six marks is a command of its words. */
  lemma ReadsInline(word: bytes, other: bytes, rest: bytes)
    requires word != [] && word[0] !in {36, 37, 42, 43, 45, 58} && |word| + |other| < 1_048_576 && other != []
    requires forall x <- word + other :: x != 32 && !(9 <= x <= 13)
    ensures Read(word + [32] + other + [13, 10] + rest) == Ok((Array([Bulk(word), Bulk(other)]), rest))
  {
    var line := word[1..] + [32] + other;
    var input := word + [32] + other + [13, 10] + rest;
    assert input[1..] == line + CRLF + rest;
    NoNewlines(word, other);
    ReadLineBack(line, rest);
    assert [word[0]] + line == word + [32] + other;
    TwoWords(word, other);
    hide ReadLine, Fields;
    assert Bulks([word, other]) == [Bulk(word), Bulk(other)];
  }

  lemma NoNewlines(word: bytes, other: bytes)
    requires word != [] && forall x <- word + other :: x != 10
    ensures 10 !in word[1..] + [32] + other
  {
    var line := word[1..] + [32] + other;
    forall i | 0 <= i < |line| ensures line[i] != 10 {
      if i < |word| - 1 { assert line[i] == (word + other)[i + 1] && line[i] in word + other; }
      if i >= |word| { assert line[i] == (word + other)[i] && line[i] in word + other; }
    }
  }

  lemma {:induction false} WordEnds(word: bytes, rest: bytes)
    requires forall i :: 0 <= i < |word| ==> !IsSpace(word[i])
    requires rest == [] || IsSpace(rest[0])
    ensures TokenEnd(word + rest) == |word|
  {
    if word == [] {
      assert word + rest == rest;
    } else {
      assert (word + rest)[1..] == word[1..] + rest;
      WordEnds(word[1..], rest);
    }
  }

  lemma OneWord(word: bytes)
    requires word != [] && forall i :: 0 <= i < |word| ==> !IsSpace(word[i])
    ensures Fields(word) == [word]
  {
    WordEnds(word, []);
    assert word + [] == word;
    assert word[|word|..] == [];
  }

  lemma TwoWords(word: bytes, other: bytes)
    requires word != [] && other != [] && forall x <- word + other :: !IsSpace(x)
    ensures Fields(word + [32] + other) == [word, other]
  {
    var line := word + [32] + other;
    forall i | 0 <= i < |word| ensures !IsSpace(word[i]) { assert word[i] in word + other; }
    forall i | 0 <= i < |other| ensures !IsSpace(other[i]) { assert other[i] in word + other; }
    assert line == word + ([32] + other);
    WordEnds(word, [32] + other);
    assert line[|word|..] == [32] + other && line[..|word|] == word;
    assert ([32] + other)[1..] == other;
    OneWord(other);
  }
}

/** Strings, counters and deadlines as a client sees them, command by command. */
module StringLaws {
  import opened Bytes
  import opened Keyspace
  import opened Resp
  import opened S = CommandSpec
  import opened Client
  import opened Spelling
  import Decimal
  import Deadline
  import Laws
  import I = Interpreter

  /** The string, or none for a key of another type or no key. */
  function Old(oe: Option<Entry>): Option<bytes> {
    match oe case Some(Entry(Str(_, v), _)) => Some(v) case _ => None
  }

  predicate OtherType(oe: Option<Entry>) { oe.Some? && !oe.value.value.Str? }

  function Until(oe: Option<Entry>): Option<int> { match oe case Some(e) => e.deadline case None => None }

  /** An entry that is not past its deadline. */
  predicate Current(oe: Option<Entry>, now: int) {
    oe.Some? && oe.value.deadline.Some? ==> now < oe.value.deadline.value
  }

  function Shown(v: Option<bytes>): Resp { match v case Some(b) => Bulk(b) case None => NullBulk }

  lemma Texts()
    ensures OkReply() == OK && SyntaxError() == SYNTAX && WrongTypeError() == WRONG_TYPE
    ensures NotAnInteger() == NOT_INTEGER && Overflow() == OVERFLOW && BadExpiry() == BAD_EXPIRE
    ensures BadSetExpiry() == BAD_SET_EXPIRE && BadGetExExpiry() == BAD_GETEX_EXPIRE
    ensures HashNotAnInteger() == NOT_HASH_INTEGER
  {
  }

  lemma BytesCodec()
    ensures S.P.BYTES_CODEC == Ascii("bytes")
  {
    assert Ascii("bytes") == [98, 121, 116, 101, 115];
  }

  // ---------------------------------------------------------------- values

  lemma GetLaw(oe: Option<Entry>, words: seq<Arg>, now: int64)
    ensures Meant("GET", oe, words, now) ==
            Out(oe, if |words| != 2 then SYNTAX else if OtherType(oe) then WRONG_TYPE else Shown(Old(oe)))
  {
    StringNames();
    Texts();
    hide I.CommandOf, Ascii, OK, SYNTAX, WRONG_TYPE;
  }

  lemma StrLenLaw(oe: Option<Entry>, words: seq<Arg>, now: int64)
    ensures Meant("STRLEN", oe, words, now) ==
            Out(oe, if |words| != 2 then SYNTAX
                    else if OtherType(oe) then WRONG_TYPE
                    else Integer(if Old(oe).Some? then |Old(oe).value| else 0))
  {
    StringNames();
    Texts();
    hide I.CommandOf, Ascii;
  }

  datatype SetOption = Nx | Xx | Get | KeepTtl | Expiry(name: string, amount: int64)

  function Unit(name: string): int { if name == "EX" || name == "EXAT" then SECOND else MILLISECOND }

  predicate Absolute(name: string) { name == "EXAT" || name == "PXAT" }

  function At(o: SetOption, now: int): int
    requires o.Expiry?
  {
    (if Absolute(o.name) then 0 else now) +
    (if Unit(o.name) == SECOND then o.amount * SECOND else o.amount * MILLISECOND)
  }

  /** The words from the i-th on spell these options. */
  predicate Spelt(words: seq<Arg>, i: nat, options: seq<SetOption>)
    decreases |options|
  {
    if options == [] then i == |words|
    else
      i < |words| &&
      match options[0]
      case Nx => Upper(words[i]) == Ascii("NX") && Spelt(words, i + 1, options[1..])
      case Xx => Upper(words[i]) == Ascii("XX") && Spelt(words, i + 1, options[1..])
      case Get => Upper(words[i]) == Ascii("GET") && Spelt(words, i + 1, options[1..])
      case KeepTtl => Upper(words[i]) == Ascii("KEEPTTL") && Spelt(words, i + 1, options[1..])
      case Expiry(name, n) =>
        && name in {"EX", "PX", "EXAT", "PXAT"}
        && Upper(words[i]) == Ascii(name)
        && i + 1 < |words| && Decimal.ParseInt64(words[i + 1]) == Some(n)
        && Spelt(words, i + 2, options[1..])
  }

  /** NX and XX exclude each other, a deadline is given once, and KEEPTTL may not follow it. */
  predicate Clash(first: SetOption, later: SetOption) {
    (first.Nx? && later.Xx?) || (first.Xx? && later.Nx?) || (first.Expiry? && (later.Expiry? || later.KeepTtl?))
  }

  predicate Timely(o: SetOption, now: int) { o.Expiry? ==> o.amount > 0 && Fits(At(o, now)) }

  predicate Agree(options: seq<SetOption>, now: int) {
    options == [] ||
    (Timely(options[0], now) && Agree(options[1..], now) && forall later <- options[1..] :: !Clash(options[0], later))
  }

  /** What the options so far have settled, against one more. */
  predicate Against(o: SetOptions, option: SetOption) {
    (o.nx && option.Xx?) || (o.xx && option.Nx?) || (o.hasExpiry && (option.Expiry? || option.KeepTtl?))
  }

  function Adding(o: SetOptions, option: SetOption, now: int): SetOptions
    requires Timely(option, now)
  {
    match option
    case Nx => o.(nx := true)
    case Xx => o.(xx := true)
    case Get => o.(get := true)
    case KeepTtl => o.(keepTTL := true)
    case Expiry(_, _) => o.(hasExpiry := true, expiresAt := At(option, now))
  }

  /** A positive amount is a deadline when the product and the sum fit. */
  lemma PositiveLaw(name: bytes, n: int64, now: int64, unit: int, absolute: bool)
    requires UnitOf(name) == unit && IsAbsolute(name) == absolute && now >= 0
    requires unit == SECOND || unit == MILLISECOND
    ensures var at := (if absolute then 0 else now) + n * unit;
            PositiveDeadline(name, n, now) == if n > 0 && Fits(at) then Some(at) else None
  {
    hide UnitOf, IsAbsolute, Deadline.FromCommand;
    Deadline.FromCommandIsExact(now, unit, absolute, n);
  }

  lemma FlagStep(words: seq<Arg>, i: nat, o: SetOptions, option: SetOption, options: seq<SetOption>, now: int64)
    requires !option.Expiry? && Spelt(words, i, [option] + options)
    ensures ParseSet(words, i, o, now) ==
            if Against(o, option) then Bad(SYNTAX) else ParseSet(words, i + 1, Adding(o, option, now), now)
    ensures Spelt(words, i + 1, options)
  {
    assert ([option] + options)[1..] == options;
    Flags(o);
    Texts();
    hide Upper, Ascii, IsUnitName, AddFlag, SYNTAX;
    assert "NX" in {"NX", "XX", "GET", "KEEPTTL"} && "XX" in {"NX", "XX", "GET", "KEEPTTL"};
    assert "GET" in {"NX", "XX", "GET", "KEEPTTL"} && "KEEPTTL" in {"NX", "XX", "GET", "KEEPTTL"};
  }

  lemma PositiveOption(o: SetOption, now: int64)
    requires o.Expiry? && now >= 0
    requires UnitOf(Ascii(o.name)) == Unit(o.name) && IsAbsolute(Ascii(o.name)) == Absolute(o.name)
    ensures PositiveDeadline(Ascii(o.name), o.amount, now) == if Timely(o, now) then Some(At(o, now)) else None
  {
    hide Ascii, UnitOf, IsAbsolute, PositiveDeadline, Absolute;
    PositiveLaw(Ascii(o.name), o.amount, now, Unit(o.name), Absolute(o.name));
  }

  lemma AddExpiryLaw(o: SetOptions, option: SetOption, text: Arg, now: int64)
    requires option.Expiry? && option.name in {"EX", "PX", "EXAT", "PXAT"} && now >= 0
    requires Decimal.ParseInt64(text) == Some(option.amount)
    ensures AddExpiry(o, Ascii(option.name), text, now) ==
            if !Timely(option, now) then Bad(BAD_SET_EXPIRE) else Good(Adding(o, option, now))
  {
    hide Ascii, PositiveDeadline, Decimal.ParseInt64, At, Fits, BAD_SET_EXPIRE;
    Texts();
    UnitsByName(option.name);
    PositiveOption(option, now);
  }

  lemma ExpiryStep(words: seq<Arg>, i: nat, o: SetOptions, option: SetOption, options: seq<SetOption>, now: int64)
    requires option.Expiry? && Spelt(words, i, [option] + options) && now >= 0
    ensures ParseSet(words, i, o, now) ==
            if Against(o, option) then Bad(SYNTAX)
            else if !Timely(option, now) then Bad(BAD_SET_EXPIRE)
            else ParseSet(words, i + 2, Adding(o, option, now), now)
    ensures Spelt(words, i + 2, options)
  {
    assert ([option] + options)[1..] == options;
    Texts();
    UnitsByName(option.name);
    hide Upper, Ascii, IsUnitName, AddExpiry, Adding, Timely, SYNTAX, BAD_SET_EXPIRE, Decimal.ParseInt64;
    AddExpiryLaw(o, option, words[i + 1], now);
  }

  lemma UnitsByName(name: string)
    requires name in {"EX", "PX", "EXAT", "PXAT"}
    ensures IsUnitName(Ascii(name)) && UnitOf(Ascii(name)) == Unit(name) && IsAbsolute(Ascii(name)) == Absolute(name)
    ensures Unit(name) == SECOND || Unit(name) == MILLISECOND
  {
    Units();
    hide Ascii, IsUnitName, UnitOf, IsAbsolute;
  }

  /** What the options mean together. */
  function Chosen(o: SetOptions, options: seq<SetOption>, now: int): SetOptions
    requires Agree(options, now)
    decreases |options|
  {
    if options == [] then o else Chosen(Adding(o, options[0], now), options[1..], now)
  }

  lemma {:induction false} OptionsLaw(words: seq<Arg>, i: nat, o: SetOptions, options: seq<SetOption>, now: int64)
    requires Spelt(words, i, options) && now >= 0
    ensures var r := ParseSet(words, i, o, now);
            && (r.Good? <==> Agree(options, now) && forall option <- options :: !Against(o, option))
            && (r.Good? ==> r.value == Chosen(o, options, now))
    decreases |options|
  {
    hide Upper, Ascii, IsUnitName, AddFlag, AddExpiry, At, Fits;
    if options != [] {
      var first, rest := options[0], options[1..];
      assert options == [first] + rest;
      if first.Expiry? {
        ExpiryStep(words, i, o, first, rest, now);
      } else {
        FlagStep(words, i, o, first, rest, now);
      }
      if !Against(o, first) && Timely(first, now) {
        OptionsLaw(words, i + if first.Expiry? then 2 else 1, Adding(o, first, now), rest, now);
        Onwards(o, first, rest, now);
      }
    }
  }

  lemma Onwards(o: SetOptions, first: SetOption, rest: seq<SetOption>, now: int)
    requires Timely(first, now)
    ensures (forall later <- rest :: !Against(Adding(o, first, now), later)) <==>
            (forall later <- rest :: !Against(o, later) && !Clash(first, later))
  {
  }

  function ExpiryIn(options: seq<SetOption>, now: int): Option<int> {
    if options == [] then None
    else if options[0].Expiry? then Some(At(options[0], now)) else ExpiryIn(options[1..], now)
  }

  lemma {:induction false} ChosenLaw(o: SetOptions, options: seq<SetOption>, now: int)
    requires Agree(options, now) && forall option <- options :: !Against(o, option)
    ensures var r := Chosen(o, options, now);
            && r.nx == (o.nx || Nx in options) && r.xx == (o.xx || Xx in options)
            && r.get == (o.get || Get in options) && r.keepTTL == (o.keepTTL || KeepTtl in options)
            && r.hasExpiry == (o.hasExpiry || ExpiryIn(options, now).Some?)
            && r.expiresAt == (if ExpiryIn(options, now).Some? then ExpiryIn(options, now).value else o.expiresAt)
    decreases |options|
  {
    hide At, Fits;
    if options != [] {
      Onwards(o, options[0], options[1..], now);
      ChosenLaw(Adding(o, options[0], now), options[1..], now);
      forall x ensures x in options <==> x == options[0] || x in options[1..] { First(options, x); }
      if o.hasExpiry || options[0].Expiry? { NoExpiry(options[1..], now); }
    }
  }

  lemma First(options: seq<SetOption>, x: SetOption)
    requires options != []
    ensures x in options <==> x == options[0] || x in options[1..]
  {
    assert options == [options[0]] + options[1..];
  }

  lemma NoExpiry(options: seq<SetOption>, now: int)
    ensures (forall option <- options :: !option.Expiry?) ==> ExpiryIn(options, now).None?
  {
  }

  /** What SET leaves and replies, by the options that were given. */
  function SetOutcome(oe: Option<Entry>, payload: bytes, options: seq<SetOption>, now: int): Out {
    if (Nx in options && oe.Some?) || (Xx in options && oe.None?) then Out(oe, NullBulk)
    else if Get in options && OtherType(oe) then Out(oe, WRONG_TYPE)
    else
      var given := ExpiryIn(options, now);
      var deadline := if given.Some? then given else if KeepTtl in options then Until(oe) else None;
      Out(if deadline.Some? && deadline.value <= now then None else Text(payload, deadline),
          if Get in options then Shown(Old(oe)) else OK)
  }

  lemma SetOutcomeLaw(oe: Option<Entry>, payload: bytes, o: SetOptions, options: seq<SetOption>, now: int)
    requires Current(oe, now)
    requires o.nx == (Nx in options) && o.xx == (Xx in options)
    requires o.get == (Get in options) && o.keepTTL == (KeepTtl in options)
    requires o.hasExpiry == ExpiryIn(options, now).Some?
    requires o.hasExpiry ==> o.expiresAt == ExpiryIn(options, now).value
    ensures Out(SetEntry(oe, payload, o, now), SetReply(oe, o)) == SetOutcome(oe, payload, options, now)
  {
    Texts();
    BytesCodec();
    hide Ascii, ExpiryIn;
  }

  /** SET with any options: refused when they clash; NX wants no key and XX wants one; GET wants a
      string and replies with it; the deadline is the one given, the old one for KEEPTTL, or none. */
  lemma SetLaw(oe: Option<Entry>, words: seq<Arg>, options: seq<SetOption>, now: int64)
    requires |words| >= 3 && Spelt(words, 3, options) && Current(oe, now) && now >= 0
    ensures var out := Meant("SET", oe, words, now);
            if Agree(options, now) then out == SetOutcome(oe, words[2], options, now)
            else out.entry == oe && out.reply.Error?
  {
    hide Meant, Ascii, ParseSet, Chosen, Agree, Spelt, ExpiryIn, SetEntry, SetReply, SetOutcome;
    OptionsLaw(words, 3, NO_OPTIONS, options, now);
    if Agree(options, now) {
      ChosenLaw(NO_OPTIONS, options, now);
      SetOutcomeLaw(oe, words[2], Chosen(NO_OPTIONS, options, now), options, now);
    } else {
      ClashIsError(words, 3, NO_OPTIONS, now);
    }
    SetMeant(oe, words, now);
  }

  lemma {:induction false} ClashIsError(words: seq<Arg>, i: nat, o: SetOptions, now: int64)
    ensures ParseSet(words, i, o, now).Bad? ==> ParseSet(words, i, o, now).reply.Error?
    decreases |words| - i
  {
    hide Upper, Ascii, IsUnitName, PositiveDeadline, Decimal.ParseInt64;
    if i < |words| {
      var name := Upper(words[i]);
      if IsUnitName(name) {
        if i + 1 < |words| && AddExpiry(o, name, words[i + 1], now).Good? {
          ClashIsError(words, i + 2, AddExpiry(o, name, words[i + 1], now).value, now);
        }
      } else if AddFlag(o, name).Good? {
        ClashIsError(words, i + 1, AddFlag(o, name).value, now);
      }
    }
  }

  lemma SetMeant(oe: Option<Entry>, words: seq<Arg>, now: int64)
    requires |words| >= 3
    ensures var r := ParseSet(words, 3, NO_OPTIONS, now);
            Meant("SET", oe, words, now) ==
            if r.Bad? then Out(oe, r.reply) else Out(SetEntry(oe, words[2], r.value, now), SetReply(oe, r.value))
  {
    StringNames();
    hide I.CommandOf, Ascii, ParseSet, SetEntry, SetReply;
  }

  lemma SetNxLaw(oe: Option<Entry>, words: seq<Arg>, now: int64)
    ensures Meant("SETNX", oe, words, now) ==
            if |words| != 3 then Out(oe, SYNTAX)
            else if oe.Some? then Out(oe, Integer(0)) else Out(Text(words[2], None), Integer(1))
  {
    StringNames();
    Texts();
    BytesCodec();
    hide I.CommandOf, Ascii;
  }

  lemma SetExUnitLaw(oe: Option<Entry>, words: seq<Arg>, now: int64, n: int64, milliseconds: bool, unit: int)
    requires |words| == 4 && Decimal.ParseInt64(words[2]) == Some(n) && now >= 0
    requires unit == if milliseconds then MILLISECOND else SECOND
    requires UnitOf(Ascii(if milliseconds then "PX" else "EX")) == unit
    requires !IsAbsolute(Ascii(if milliseconds then "PX" else "EX"))
    ensures var at := now + n * unit;
            SetEX(oe, words, milliseconds, now) ==
            if n > 0 && Fits(at) then Out(Text(words[3], Some(at)), OK) else Out(oe, BAD_SET_EXPIRE)
  {
    hide Ascii, UnitOf, IsAbsolute, PositiveDeadline, Decimal.ParseInt64;
    Texts();
    BytesCodec();
    PositiveLaw(Ascii(if milliseconds then "PX" else "EX"), n, now, unit, false);
  }

  /** SETEX counts seconds and PSETEX milliseconds; the value comes after the time. */
  lemma SetExLaw(oe: Option<Entry>, words: seq<Arg>, now: int64, n: int64)
    requires |words| == 4 && Decimal.ParseInt64(words[2]) == Some(n) && now >= 0
    ensures var at := now + n * SECOND;
            Meant("SETEX", oe, words, now) ==
            if n > 0 && Fits(at) then Out(Text(words[3], Some(at)), OK) else Out(oe, BAD_SET_EXPIRE)
    ensures var at := now + n * MILLISECOND;
            Meant("PSETEX", oe, words, now) ==
            if n > 0 && Fits(at) then Out(Text(words[3], Some(at)), OK) else Out(oe, BAD_SET_EXPIRE)
  {
    hide I.CommandOf, Ascii, Meant, SetEX, Text, OK, BAD_SET_EXPIRE, Decimal.ParseInt64;
    assert Meant("SETEX", oe, words, now) == SetEX(oe, words, false, now) by {
      StringNames();
      MeantIs("SETEX", I.SetEX(false), oe, words, now);
    }
    assert Meant("PSETEX", oe, words, now) == SetEX(oe, words, true, now) by {
      StringNames();
      MeantIs("PSETEX", I.SetEX(true), oe, words, now);
    }
    hide UnitOf, IsAbsolute;
    Units();
    SetExUnitLaw(oe, words, now, n, false, SECOND);
    SetExUnitLaw(oe, words, now, n, true, MILLISECOND);
  }

  lemma GetSetLaw(oe: Option<Entry>, words: seq<Arg>, now: int64)
    ensures Meant("GETSET", oe, words, now) ==
            if |words| != 3 then Out(oe, SYNTAX)
            else if OtherType(oe) then Out(oe, WRONG_TYPE) else Out(Text(words[2], None), Shown(Old(oe)))
  {
    StringNames();
    Texts();
    BytesCodec();
    hide I.CommandOf, Ascii;
  }

  lemma GetDelLaw(oe: Option<Entry>, words: seq<Arg>, now: int64)
    ensures Meant("GETDEL", oe, words, now) ==
            if |words| != 2 then Out(oe, SYNTAX)
            else if OtherType(oe) then Out(oe, WRONG_TYPE) else Out(None, Shown(Old(oe)))
  {
    StringNames();
    Texts();
    hide I.CommandOf, Ascii;
  }

  lemma AppendLaw(oe: Option<Entry>, words: seq<Arg>, now: int64)
    requires Current(oe, now)
    ensures Meant("APPEND", oe, words, now) ==
            if |words| != 3 then Out(oe, SYNTAX)
            else if OtherType(oe) then Out(oe, WRONG_TYPE)
            else
              var v := (if Old(oe).Some? then Old(oe).value else []) + words[2];
              Out(Text(v, Until(oe)), Integer(|v|))
  {
    StringNames();
    Texts();
    BytesCodec();
    hide I.CommandOf, Ascii;
    if |words| == 3 { assert [] + words[2] == words[2]; }
  }

  lemma GetExPlainLaw(oe: Option<Entry>, words: seq<Arg>, now: int64)
    ensures |words| < 2 ==> Meant("GETEX", oe, words, now) == Out(oe, SYNTAX)
    ensures |words| >= 2 && OtherType(oe) ==> Meant("GETEX", oe, words, now) == Out(oe, WRONG_TYPE)
    ensures |words| >= 2 && oe.None? ==> Meant("GETEX", oe, words, now) == Out(oe, NullBulk)
    ensures |words| == 2 && Old(oe).Some? ==> Meant("GETEX", oe, words, now) == Out(oe, Bulk(Old(oe).value))
    ensures |words| == 3 && Old(oe).Some? && Upper(words[2]) == Ascii("PERSIST") ==>
              Meant("GETEX", oe, words, now) == Out(Some(oe.value.(deadline := None)), Bulk(Old(oe).value))
    ensures |words| > 4 && Old(oe).Some? ==> Meant("GETEX", oe, words, now) == Out(oe, SYNTAX)
  {
    StringNames();
    Texts();
    hide I.CommandOf, Ascii, Upper, GetExpiring;
  }

  /** The deadline an expiry command names, or none when it does not fit. */
  function DeadlineAt(now: int, n: int, unit: int, absolute: bool): int {
    (if absolute then 0 else now) + n * unit
  }

  predicate Reaches(now: int, n: int, unit: int, absolute: bool) {
    Fits(n * unit) && Fits(DeadlineAt(now, n, unit, absolute))
  }

  /** What is left of an entry that is given a deadline. */
  function Ending(oe: Option<Entry>, at: int, now: int): Option<Entry> {
    match oe
    case None => None
    case Some(e) => if at <= now then None else Some(Entry(e.value, Some(at)))
  }

  lemma GetExUnitLaw(oe: Option<Entry>, words: seq<Arg>, now: int64, n: int64, option: string, unit: int,
                     absolute: bool)
    requires |words| == 4 && Upper(words[2]) == Ascii(option) && Decimal.ParseInt64(words[3]) == Some(n)
    requires Old(oe).Some?
    requires IsUnitName(Ascii(option)) && UnitOf(Ascii(option)) == unit && IsAbsolute(Ascii(option)) == absolute
    requires unit == SECOND || unit == MILLISECOND
    requires absolute <==> Ascii(option) != Ascii("EX") && Ascii(option) != Ascii("PX")
    ensures Meant("GETEX", oe, words, now) ==
            if (!absolute && n <= 0) || !Reaches(now, n, unit, absolute) then Out(oe, BAD_GETEX_EXPIRE)
            else Out(Ending(oe, DeadlineAt(now, n, unit, absolute), now), Bulk(Old(oe).value))
  {
    hide I.CommandOf, Ascii, Upper, IsUnitName, UnitOf, IsAbsolute, Deadline.FromCommand, Decimal.ParseInt64, Meant;
    StringNames();
    Texts();
    MeantIs("GETEX", I.GetEx, oe, words, now);
    Deadline.FromCommandIsExact(now, unit, absolute, n);
  }

  lemma OptionsDiffer()
    ensures Ascii("EX") != Ascii("PX") && Ascii("EXAT") != Ascii("EX") && Ascii("EXAT") != Ascii("PX")
    ensures Ascii("PXAT") != Ascii("EX") && Ascii("PXAT") != Ascii("PX")
  {
    assert |Ascii("EXAT")| == 4 && |Ascii("PXAT")| == 4 && |Ascii("EX")| == 2 && |Ascii("PX")| == 2;
    assert Ascii("EX")[0] == 69 && Ascii("PX")[0] == 80;
  }

  /** GETEX reads and sets a deadline: EX and PX from now, which must be ahead, EXAT and PXAT from
      the epoch, where one that has passed removes the key. */
  lemma GetExLaw(oe: Option<Entry>, words: seq<Arg>, now: int64, n: int64)
    requires |words| == 4 && Decimal.ParseInt64(words[3]) == Some(n) && Old(oe).Some?
    ensures Upper(words[2]) == Ascii("EX") ==>
              Meant("GETEX", oe, words, now) ==
              if n <= 0 || !Reaches(now, n, SECOND, false) then Out(oe, BAD_GETEX_EXPIRE)
              else Out(Ending(oe, now + n * SECOND, now), Bulk(Old(oe).value))
    ensures Upper(words[2]) == Ascii("PX") ==>
              Meant("GETEX", oe, words, now) ==
              if n <= 0 || !Reaches(now, n, MILLISECOND, false) then Out(oe, BAD_GETEX_EXPIRE)
              else Out(Ending(oe, now + n * MILLISECOND, now), Bulk(Old(oe).value))
    ensures Upper(words[2]) == Ascii("EXAT") ==>
              Meant("GETEX", oe, words, now) ==
              if !Fits(n * SECOND) then Out(oe, BAD_GETEX_EXPIRE)
              else Out(Ending(oe, n * SECOND, now), Bulk(Old(oe).value))
    ensures Upper(words[2]) == Ascii("PXAT") ==>
              Meant("GETEX", oe, words, now) ==
              if !Fits(n * MILLISECOND) then Out(oe, BAD_GETEX_EXPIRE)
              else Out(Ending(oe, n * MILLISECOND, now), Bulk(Old(oe).value))
  {
    Units();
    OptionsDiffer();
    hide Ascii, Upper, IsUnitName, UnitOf, IsAbsolute, Meant, Ending, BAD_GETEX_EXPIRE, Decimal.ParseInt64;
    var option := Upper(words[2]);
    if option == Ascii("EX") {
      GetExUnitLaw(oe, words, now, n, "EX", SECOND, false);
    } else if option == Ascii("PX") {
      GetExUnitLaw(oe, words, now, n, "PX", MILLISECOND, false);
    } else if option == Ascii("EXAT") {
      GetExUnitLaw(oe, words, now, n, "EXAT", SECOND, true);
    } else if option == Ascii("PXAT") {
      GetExUnitLaw(oe, words, now, n, "PXAT", MILLISECOND, true);
    }
  }

  // ---------------------------------------------------------------- deadlines

  lemma ExpireUnitLaw(oe: Option<Entry>, words: seq<Arg>, now: int64, n: int64, name: string, unit: int, absolute: bool)
    requires |words| == 3 && Decimal.ParseInt64(words[2]) == Some(n)
    requires UnitOf(Ascii(name)) == unit && IsAbsolute(Ascii(name)) == absolute
    requires unit == SECOND || unit == MILLISECOND
    requires I.CommandOf(Ascii(name)) == Some(I.OnKey(I.Expire(Ascii(name))))
    ensures Meant(name, oe, words, now) ==
            if !Reaches(now, n, unit, absolute) then Out(oe, BAD_EXPIRE)
            else Out(Ending(oe, DeadlineAt(now, n, unit, absolute), now), Integer(if oe.Some? then 1 else 0))
  {
    hide Ascii, UnitOf, IsAbsolute, Deadline.FromCommand, Decimal.ParseInt64, Meant, I.CommandOf;
    Texts();
    MeantIs(name, I.Expire(Ascii(name)), oe, words, now);
    Deadline.FromCommandIsExact(now, unit, absolute, n);
  }

  /** EXPIRE and PEXPIRE count from now, EXPIREAT and PEXPIREAT from the epoch, the P forms in
      milliseconds; a deadline that has passed removes the key at once. */
  lemma ExpireLaw(oe: Option<Entry>, words: seq<Arg>, now: int64, n: int64)
    requires |words| == 3 && Decimal.ParseInt64(words[2]) == Some(n)
    ensures Meant("EXPIRE", oe, words, now) ==
            if !Reaches(now, n, SECOND, false) then Out(oe, BAD_EXPIRE)
            else Out(Ending(oe, now + n * SECOND, now), Integer(if oe.Some? then 1 else 0))
    ensures Meant("PEXPIRE", oe, words, now) ==
            if !Reaches(now, n, MILLISECOND, false) then Out(oe, BAD_EXPIRE)
            else Out(Ending(oe, now + n * MILLISECOND, now), Integer(if oe.Some? then 1 else 0))
    ensures Meant("EXPIREAT", oe, words, now) ==
            if !Fits(n * SECOND) then Out(oe, BAD_EXPIRE)
            else Out(Ending(oe, n * SECOND, now), Integer(if oe.Some? then 1 else 0))
    ensures Meant("PEXPIREAT", oe, words, now) ==
            if !Fits(n * MILLISECOND) then Out(oe, BAD_EXPIRE)
            else Out(Ending(oe, n * MILLISECOND, now), Integer(if oe.Some? then 1 else 0))
  {
    hide Ascii, UnitOf, IsAbsolute, Meant, Ending, BAD_EXPIRE, Decimal.ParseInt64, I.CommandOf;
    ExpireUnits();
    DeadlineNames();
    ExpireUnitLaw(oe, words, now, n, "EXPIRE", SECOND, false);
    ExpireUnitLaw(oe, words, now, n, "PEXPIRE", MILLISECOND, false);
    ExpireUnitLaw(oe, words, now, n, "EXPIREAT", SECOND, true);
    ExpireUnitLaw(oe, words, now, n, "PEXPIREAT", MILLISECOND, true);
  }

  /** Whole units that are left, rounded down, and one for what is left of the last. */
  predicate Left(t: int, span: int, unit: int) {
    if span < unit then t == 1 else t * unit <= span < (t + 1) * unit
  }

  lemma RemainingIsLeft(deadline: int, now: int, unit: int)
    requires now < deadline && unit > 0
    ensures Left(Remaining(deadline, now, unit), deadline - now, unit)
  {
    var span := deadline - now;
    if span >= unit { assert span / unit >= 1; }
  }

  /** TTL counts seconds and PTTL milliseconds; -1 is for no deadline and -2 for no key. */
  lemma TtlLaw(oe: Option<Entry>, words: seq<Arg>, now: int64)
    requires |words| == 2 && Current(oe, now)
    ensures Meant("TTL", oe, words, now).entry == Meant("PTTL", oe, words, now).entry == oe
    ensures oe.None? ==> Meant("TTL", oe, words, now).reply == Meant("PTTL", oe, words, now).reply == Integer(-2)
    ensures oe.Some? && oe.value.deadline.None? ==>
              Meant("TTL", oe, words, now).reply == Meant("PTTL", oe, words, now).reply == Integer(-1)
    ensures oe.Some? && oe.value.deadline.Some? ==>
              var seconds, millis := Meant("TTL", oe, words, now).reply, Meant("PTTL", oe, words, now).reply;
              seconds.Integer? && Left(seconds.value, oe.value.deadline.value - now, SECOND) &&
              millis.Integer? && Left(millis.value, oe.value.deadline.value - now, MILLISECOND)
  {
    hide I.CommandOf, Ascii, Meant, Left, Remaining;
    if oe.Some? && oe.value.deadline.Some? {
      RemainingIsLeft(oe.value.deadline.value, now, SECOND);
      RemainingIsLeft(oe.value.deadline.value, now, MILLISECOND);
    }
    DeadlineNames();
    MeantIs("TTL", I.Ttl(false), oe, words, now);
    MeantIs("PTTL", I.Ttl(true), oe, words, now);
  }

  lemma PersistLaw(oe: Option<Entry>, words: seq<Arg>, now: int64)
    requires |words| == 2
    ensures Meant("PERSIST", oe, words, now) ==
            match oe
            case None => Out(None, Integer(0))
            case Some(e) => Out(Some(Entry(e.value, None)), Integer(if e.deadline.Some? then 1 else 0))
  {
    hide I.CommandOf, Ascii, Meant;
    DeadlineNames();
    MeantIs("PERSIST", I.Persist, oe, words, now);
  }

  lemma TypeLaw(oe: Option<Entry>, words: seq<Arg>, now: int64)
    requires |words| == 2
    ensures Meant("TYPE", oe, words, now) ==
            Out(oe, Simple(Ascii(
              if oe.None? then "none"
              else if oe.value.value.Str? then "string"
              else if oe.value.value.Hash? then "hash"
              else if oe.value.value.Members? then "set"
              else "list")))
  {
    hide I.CommandOf, Ascii, Meant;
    DeadlineNames();
    MeantIs("TYPE", I.TypeName, oe, words, now);
  }

  /** SET with one deadline of its own. */
  lemma SetUntilLaw(oe: Option<Entry>, words: seq<Arg>, now: int64, option: SetOption)
    requires |words| == 5 && now >= 0 && Current(oe, now) && option.Expiry? && Spelt(words, 3, [option])
    requires Timely(option, now) && now < At(option, now)
    ensures Meant("SET", oe, words, now) == Out(Text(words[2], Some(At(option, now))), OK)
  {
    hide Meant, At, Timely, Spelt, Text, OK;
    assert [option][1..] == [] && Agree([option], now);
    assert ExpiryIn([option], now) == Some(At(option, now));
    SetLaw(oe, words, [option], now);
  }

  /** What EX asked for is what TTL tells at once, and PX what PTTL tells. */
  lemma SetThenTtl(oe: Option<Entry>, words: seq<Arg>, ask: seq<Arg>, now: int64, n: int64)
    requires |words| == 5 && |ask| == 2 && now >= 0 && n > 0 && Decimal.ParseInt64(words[4]) == Some(n)
    requires Current(oe, now)
    ensures Upper(words[3]) == Ascii("EX") && Fits(now + n * SECOND) ==>
              Meant("TTL", Meant("SET", oe, words, now).entry, ask, now).reply == Integer(n)
    ensures Upper(words[3]) == Ascii("PX") && Fits(now + n * MILLISECOND) ==>
              Meant("PTTL", Meant("SET", oe, words, now).entry, ask, now).reply == Integer(n)
  {
    hide Ascii, Upper, Meant, Decimal.ParseInt64, Left;
    if Upper(words[3]) == Ascii("EX") && Fits(now + n * SECOND) {
      SetUntilLaw(oe, words, now, Expiry("EX", n));
      var after := Text(words[2], Some(now + n * SECOND));
      TtlLaw(after, ask, now);
      LeftOfWhole(n, Meant("TTL", after, ask, now).reply.value, SECOND);
    }
    if Upper(words[3]) == Ascii("PX") && Fits(now + n * MILLISECOND) {
      SetUntilLaw(oe, words, now, Expiry("PX", n));
      var after := Text(words[2], Some(now + n * MILLISECOND));
      TtlLaw(after, ask, now);
      LeftOfWhole(n, Meant("PTTL", after, ask, now).reply.value, MILLISECOND);
    }
  }

  lemma LeftOfWhole(n: int, t: int, unit: int)
    requires unit == SECOND || unit == MILLISECOND
    requires n > 0 && Left(t, n * unit, unit)
    ensures t == n
  {
  }

  /** A key is there until its deadline, and from then on it is not. */
  lemma GoneAtDeadline(ks: Keyspace, k: Arg, at: int, now: int)
    requires k in ks && ks[k].deadline == Some(at)
    ensures k in Tick(ks, now) ==> now < at
    ensures !ks[k].value.Hash? ==> Find(Tick(ks, now), k) == if now < at then Some(ks[k]) else None
  {
    FindTick(ks, k, now);
  }

  // ---------------------------------------------------------------- refusals

  lemma StringRefusals(oe: Option<Entry>, words: seq<Arg>, now: int64)
    ensures |words| < 3 ==> Meant("SET", oe, words, now) == Out(oe, SYNTAX)
    ensures |words| != 4 ==> Meant("SETEX", oe, words, now) == Meant("PSETEX", oe, words, now) == Out(oe, SYNTAX)
    ensures |words| == 4 && Decimal.ParseInt64(words[2]).None? ==>
              Meant("SETEX", oe, words, now) == Meant("PSETEX", oe, words, now) == Out(oe, BAD_SET_EXPIRE)
    ensures |words| == 4 && Decimal.ParseInt64(words[3]).None? && Old(oe).Some? ==>
              Meant("GETEX", oe, words, now) == Out(oe, BAD_GETEX_EXPIRE)
  {
    StringNames();
    Texts();
    hide I.CommandOf, Ascii, Upper, Decimal.ParseInt64;
  }

  lemma CounterRefusals(oe: Option<Entry>, words: seq<Arg>, now: int64)
    ensures |words| != 2 ==> Meant("INCR", oe, words, now) == Meant("DECR", oe, words, now) == Out(oe, SYNTAX)
    ensures |words| != 3 ==> Meant("INCRBY", oe, words, now) == Meant("DECRBY", oe, words, now) == Out(oe, SYNTAX)
  {
    StringNames();
    Texts();
    hide I.CommandOf, Ascii;
  }

  lemma ExpireRefusals(oe: Option<Entry>, words: seq<Arg>, now: int64, name: string)
    requires name in {"EXPIRE", "PEXPIRE", "EXPIREAT", "PEXPIREAT"}
    ensures |words| != 3 ==> Meant(name, oe, words, now) == Out(oe, SYNTAX)
    ensures |words| == 3 && Decimal.ParseInt64(words[2]).None? ==> Meant(name, oe, words, now) == Out(oe, NOT_INTEGER)
  {
    DeadlineNames();
    Texts();
    hide I.CommandOf, Ascii, Decimal.ParseInt64, Meant;
    MeantIs(name, I.Expire(Ascii(name)), oe, words, now);
  }

  lemma DeadlineRefusals(oe: Option<Entry>, words: seq<Arg>, now: int64)
    requires |words| != 2
    ensures Meant("TTL", oe, words, now) == Meant("PTTL", oe, words, now) == Out(oe, SYNTAX)
    ensures Meant("PERSIST", oe, words, now) == Meant("TYPE", oe, words, now) == Out(oe, SYNTAX)
  {
    DeadlineNames();
    Texts();
    hide I.CommandOf, Ascii;
  }

  // ---------------------------------------------------------------- counters

  /** The key holds a number in decimal, or nothing, which counts as zero. */
  predicate Number(oe: Option<Entry>, n: int) {
    !OtherType(oe) && (if Old(oe).Some? then Decimal.Parse(Old(oe).value) == Some(n) else n == 0)
  }

  function Sum(oe: Option<Entry>, n: int): Out {
    if Fits(n) then Out(Text(Decimal.Format(n), Until(oe)), Integer(n)) else Out(oe, OVERFLOW)
  }

  lemma AddedLaw(oe: Option<Entry>, n: int, delta: int, now: int64)
    requires Number(oe, n) && Current(oe, now)
    ensures IncrementBy(oe, delta, now) == Sum(oe, n + delta)
  {
    Texts();
    BytesCodec();
    hide Decimal.Parse, Decimal.Format, Ascii;
  }

  lemma MeantIncr(oe: Option<Entry>, words: seq<Arg>, now: int64)
    requires |words| == 2
    ensures Meant("INCR", oe, words, now) == IncrementBy(oe, 1, now)
    ensures Meant("DECR", oe, words, now) == IncrementBy(oe, -1, now)
  {
    hide I.CommandOf, IncrementBy, Ascii, Meant;
    StringNames();
    MeantIs("INCR", I.Increment(1), oe, words, now);
    MeantIs("DECR", I.Increment(-1), oe, words, now);
  }

  lemma MeantIncrBy(oe: Option<Entry>, words: seq<Arg>, now: int64, d: int64)
    requires |words| == 3 && Decimal.ParseInt64(words[2]) == Some(d)
    ensures Meant("INCRBY", oe, words, now) == IncrementBy(oe, d, now)
    ensures Meant("DECRBY", oe, words, now) == IncrementBy(oe, -(d as int), now)
  {
    hide I.CommandOf, IncrementBy, Ascii, Meant, Decimal.ParseInt64;
    StringNames();
    MeantIs("INCRBY", I.IncrementArg(false), oe, words, now);
    MeantIs("DECRBY", I.IncrementArg(true), oe, words, now);
  }

  /** INCR adds one and DECR takes one. */
  lemma IncrLaw(oe: Option<Entry>, words: seq<Arg>, now: int64, n: int)
    requires |words| == 2 && Number(oe, n) && Current(oe, now)
    ensures Meant("INCR", oe, words, now) == Sum(oe, n + 1)
    ensures Meant("DECR", oe, words, now) == Sum(oe, n - 1)
  {
    hide IncrementBy, Sum, Ascii, Meant;
    MeantIncr(oe, words, now);
    AddedLaw(oe, n, 1, now);
    AddedLaw(oe, n, -1, now);
  }

  /** INCRBY adds its argument and DECRBY takes it away. */
  lemma IncrByLaw(oe: Option<Entry>, words: seq<Arg>, now: int64, n: int, d: int64)
    requires |words| == 3 && Decimal.ParseInt64(words[2]) == Some(d) && Number(oe, n) && Current(oe, now)
    ensures Meant("INCRBY", oe, words, now) == Sum(oe, n + d)
    ensures Meant("DECRBY", oe, words, now) == Sum(oe, n - d)
  {
    hide IncrementBy, Sum, Ascii, Meant, Decimal.ParseInt64;
    MeantIncrBy(oe, words, now, d);
    AddedLaw(oe, n, d, now);
    AddedLaw(oe, n, -(d as int), now);
  }

  /** Text that is no number, an argument that is none, and another type refuse and stay. */
  lemma NoNumberLaw(oe: Option<Entry>, words: seq<Arg>, now: int64)
    ensures |words| == 2 && Old(oe).Some? && Decimal.Parse(Old(oe).value).None? ==>
              Meant("INCR", oe, words, now) == Meant("DECR", oe, words, now) == Out(oe, NOT_INTEGER)
    ensures |words| == 2 && OtherType(oe) ==>
              Meant("INCR", oe, words, now) == Meant("DECR", oe, words, now) == Out(oe, WRONG_TYPE)
    ensures |words| == 3 && Decimal.ParseInt64(words[2]).None? ==>
              Meant("INCRBY", oe, words, now) == Meant("DECRBY", oe, words, now) == Out(oe, NOT_INTEGER)
  {
    StringNames();
    Texts();
    hide I.CommandOf, Ascii, Decimal.Parse, Decimal.ParseInt64;
  }

  datatype CounterRequest = Incr | Decr | IncrBy(amount: int64) | DecrBy(amount: int64)

  function Amount(r: CounterRequest): int {
    match r case Incr => 1 case Decr => -1 case IncrBy(d) => d case DecrBy(d) => -(d as int)
  }

  function NameOf(r: CounterRequest): string {
    match r case Incr => "INCR" case Decr => "DECR" case IncrBy(_) => "INCRBY" case DecrBy(_) => "DECRBY"
  }

  function WordsOf(r: CounterRequest, k: Arg): seq<Arg> {
    var name: Arg := Ascii(NameOf(r));
    match r
    case Incr => [name, k]
    case Decr => [name, k]
    case IncrBy(d) => Decimal.Format64Length(d); [name, k, Decimal.Format(d)]
    case DecrBy(d) => Decimal.Format64Length(d); [name, k, Decimal.Format(d)]
  }

  lemma RequestAdds(oe: Option<Entry>, r: CounterRequest, k: Arg, now: int64)
    ensures Meant(NameOf(r), oe, WordsOf(r, k), now) == IncrementBy(oe, Amount(r), now)
  {
    hide IncrementBy, Ascii, Meant, Decimal.Format, Decimal.Parse;
    var words := WordsOf(r, k);
    match r
    case Incr => MeantIncr(oe, words, now);
    case Decr => MeantIncr(oe, words, now);
    case IncrBy(d) =>
      Decimal.ParseInvertsFormat(d);
      MeantIncrBy(oe, words, now, d);
    case DecrBy(d) =>
      Decimal.ParseInvertsFormat(d);
      MeantIncrBy(oe, words, now, d);
  }

  /** Counter requests for one key, as a client sends them. */
  function Requests(requests: seq<CounterRequest>, k: Arg): (r: seq<seq<Arg>>)
    ensures |r| == |requests|
  {
    seq(|requests|, i requires 0 <= i < |requests| => WordsOf(requests[i], k))
  }

  function Deltas(times: seq<int64>, requests: seq<CounterRequest>): (r: seq<Laws.Delta>)
    requires |times| == |requests|
    ensures |r| == |requests|
  {
    seq(|requests|, i requires 0 <= i < |requests| => Laws.Delta(times[i], Amount(requests[i])))
  }

  lemma RequestSaid(ks: Keyspace, k: Arg, now: int64, r: CounterRequest, matcher: I.Matcher)
    ensures var out := IncrementBy(Find(ks, k), Amount(r), now);
            Said(ks, now, WordsOf(r, k), matcher) == (Assign(ks, k, out.entry), out.reply)
  {
    hide IncrementBy, Ascii, Upper, Meant, Said, Decimal.Format, I.CommandOf;
    RequestAdds(Find(ks, k), r, k, now);
    StringNames();
    AnyCase(Ascii(NameOf(r)), NameOf(r));
    AsciiCaps(NameOf(r));
    SaidOfKey(NameOf(r), ks, now, WordsOf(r, k), matcher);
  }

  lemma {:induction false} CountingCounts(
      ks: Keyspace, k: Arg, times: seq<int64>, requests: seq<CounterRequest>, matcher: I.Matcher)
    requires |times| == |requests|
    ensures var (end, replies) := Talk(ks, times, Requests(requests, k), matcher);
            (Find(end, k), replies) == Laws.CountUp(Find(ks, k), Deltas(times, requests))
    decreases |requests|
  {
    hide Said, IncrementBy, WordsOf, Amount, Later, Tick;
    if requests != [] {
      var now := Tick(ks, times[0]);
      FindTick(ks, k, times[0]);
      RequestSaid(now, k, times[0], requests[0], matcher);
      var out := IncrementBy(Later(Find(ks, k), times[0]), Amount(requests[0]), times[0]);
      var after := Assign(now, k, out.entry);
      CountingCounts(after, k, times[1..], requests[1..], matcher);
      assert Requests(requests, k)[1..] == Requests(requests[1..], k);
      assert Deltas(times, requests)[1..] == Deltas(times[1..], requests[1..]);
    }
  }

  /** A run of INCR, DECR, INCRBY and DECRBY requests is the exact counter of their signed amounts. */
  lemma NamedCounterRun(ks: Keyspace, k: Arg, times: seq<int64>, requests: seq<CounterRequest>, matcher: I.Matcher)
    requires |times| == |requests| && !OtherType(Find(ks, k))
    ensures var (end, replies) := Talk(ks, times, Requests(requests, k), matcher);
            (Laws.CounterOf(Find(end, k)), replies)
            == Laws.CountAll(Laws.CounterOf(Find(ks, k)), Deltas(times, requests))
  {
    CountingCounts(ks, k, times, requests, matcher);
    Laws.CounterRun(Find(ks, k), Deltas(times, requests));
    hide Talk, Deltas, Laws.CountUp, Laws.CountAll, Laws.CounterOf;
  }
}

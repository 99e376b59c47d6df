/** The reference interpreter: every data command over the plain typed keyspace. */
module Interpreter {
  import opened Bytes
  import opened Keyspace
  import opened Resp
  import opened Sorting
  import opened S = CommandSpec
  import Decimal

  datatype KeyCommand =
    | Get | Set | SetNX | SetEX(milliseconds: bool) | GetSet | GetDel | GetEx | StrLen | Append
    | Increment(delta: int) | IncrementArg(decrement: bool)
    | Expire(name: bytes) | Ttl(milliseconds: bool) | Persist | TypeName
    | HSet | HGet | HMGet | HList(part: Part) | HDel | HExists | HLen | HIncrBy
    | SAdd | SRem | SIsMember | SMIsMember | SMembers | SCard
    | Push(left: bool, onlyIfExists: bool) | Range(trim: bool) | LLen | Pop(left: bool)

  datatype Command =
    | OnKey(command: KeyCommand)
    | MGet | MSet | MSetNX | Del | Exists | Scan | KeysMatching | DbSize | Flush

  type Matcher = (bytes, bytes) -> bool

  /** A name as it is spelled. */
  predicate Is(name: bytes, spelling: string) { name == Ascii(spelling) }

  function StringCommandOf(name: bytes): Option<KeyCommand> {
    if Is(name, "GET") then Some(Get)
    else if Is(name, "SET") then Some(Set)
    else if Is(name, "SETNX") then Some(SetNX)
    else if Is(name, "SETEX") then Some(SetEX(false))
    else if Is(name, "PSETEX") then Some(SetEX(true))
    else if Is(name, "GETSET") then Some(GetSet)
    else if Is(name, "GETDEL") then Some(GetDel)
    else if Is(name, "GETEX") then Some(GetEx)
    else if Is(name, "STRLEN") then Some(StrLen)
    else if Is(name, "APPEND") then Some(Append)
    else if Is(name, "INCR") then Some(Increment(1))
    else if Is(name, "DECR") then Some(Increment(-1))
    else if Is(name, "INCRBY") then Some(IncrementArg(false))
    else if Is(name, "DECRBY") then Some(IncrementArg(true))
    else if Is(name, "EXPIRE") || Is(name, "PEXPIRE") || Is(name, "EXPIREAT")
        || Is(name, "PEXPIREAT")
    then Some(Expire(name))
    else if Is(name, "TTL") then Some(Ttl(false))
    else if Is(name, "PTTL") then Some(Ttl(true))
    else if Is(name, "PERSIST") then Some(Persist)
    else if Is(name, "TYPE") then Some(TypeName)
    else None
  }

  function CollectionCommandOf(name: bytes): Option<KeyCommand> {
    if Is(name, "HSET") || Is(name, "HMSET") then Some(HSet)
    else if Is(name, "HGET") then Some(HGet)
    else if Is(name, "HMGET") then Some(HMGet)
    else if Is(name, "HGETALL") then Some(HList(Both))
    else if Is(name, "HKEYS") then Some(HList(Part.Names))
    else if Is(name, "HVALS") then Some(HList(Values))
    else if Is(name, "HDEL") then Some(HDel)
    else if Is(name, "HEXISTS") then Some(HExists)
    else if Is(name, "HLEN") then Some(HLen)
    else if Is(name, "HINCRBY") then Some(HIncrBy)
    else if Is(name, "SADD") then Some(SAdd)
    else if Is(name, "SREM") then Some(SRem)
    else if Is(name, "SISMEMBER") then Some(SIsMember)
    else if Is(name, "SMISMEMBER") then Some(SMIsMember)
    else if Is(name, "SMEMBERS") then Some(SMembers)
    else if Is(name, "SCARD") then Some(SCard)
    else if Is(name, "LPUSH") then Some(Push(true, false))
    else if Is(name, "RPUSH") then Some(Push(false, false))
    else if Is(name, "LPUSHX") then Some(Push(true, true))
    else if Is(name, "RPUSHX") then Some(Push(false, true))
    else if Is(name, "LRANGE") then Some(Range(false))
    else if Is(name, "LTRIM") then Some(Range(true))
    else if Is(name, "LLEN") then Some(LLen)
    else if Is(name, "LPOP") then Some(Pop(true))
    else if Is(name, "RPOP") then Some(Pop(false))
    else None
  }

  /** The data commands of redisDispatch, by upper-cased name. */
  function CommandOf(name: bytes): Option<Command> {
    if StringCommandOf(name).Some? then Some(OnKey(StringCommandOf(name).value))
    else if CollectionCommandOf(name).Some? then Some(OnKey(CollectionCommandOf(name).value))
    else if Is(name, "MGET") then Some(MGet)
    else if Is(name, "MSET") then Some(MSet)
    else if Is(name, "MSETNX") then Some(MSetNX)
    else if Is(name, "DEL") || Is(name, "UNLINK") then Some(Del)
    else if Is(name, "EXISTS") then Some(Exists)
    else if Is(name, "SCAN") then Some(Scan)
    else if Is(name, "KEYS") then Some(KeysMatching)
    else if Is(name, "DBSIZE") then Some(DbSize)
    else if Is(name, "FLUSHDB") || Is(name, "FLUSHALL") then Some(Flush)
    else None
  }

  ghost function OnEntry(c: KeyCommand, oe: Option<Entry>, args: seq<Arg>, now: int64): Out {
    match c
    case Get => S.Get(oe, args)
    case Set => S.Set(oe, args, now)
    case SetNX => S.SetNX(oe, args, now)
    case SetEX(ms) => S.SetEX(oe, args, ms, now)
    case GetSet => S.GetSet(oe, args, now)
    case GetDel => S.GetDel(oe, args)
    case GetEx => S.GetEx(oe, args, now)
    case StrLen => S.StrLen(oe, args)
    case Append => S.Append(oe, args, now)
    case Increment(delta) => S.Increment(oe, args, delta, now)
    case IncrementArg(decrement) => S.IncrementArg(oe, args, decrement, now)
    case Expire(name) => S.Expire(oe, args, name, now)
    case Ttl(ms) => S.Ttl(oe, args, ms, now)
    case Persist => S.Persist(oe, args)
    case TypeName => S.TypeName(oe, args)
    case HSet => S.HSet(oe, args)
    case HGet => S.HGet(oe, args)
    case HMGet => S.HMGet(oe, args)
    case HList(part) => S.HList(oe, args, part)
    case HDel => S.HDel(oe, args)
    case HExists => S.HExists(oe, args)
    case HLen => S.HLen(oe, args)
    case HIncrBy => S.HIncrBy(oe, args)
    case SAdd => S.SAdd(oe, args)
    case SRem => S.SRem(oe, args)
    case SIsMember => S.SIsMember(oe, args)
    case SMIsMember => S.SMIsMember(oe, args)
    case SMembers => S.SMembers(oe, args)
    case SCard => S.SCard(oe, args)
    case Push(left, onlyIfExists) => S.Push(oe, args, left, onlyIfExists)
    case Range(trim) => S.Range(oe, args, trim)
    case LLen => S.LLen(oe, args)
    case Pop(left) => S.Pop(oe, args, left)
  }

  // ---------------------------------------------------------------- several keys

  predicate AnyWrongType(ks: Keyspace, args: seq<Arg>) {
    exists i :: 1 <= i < |args| && StringOf(Find(ks, args[i])).WrongType?
  }

  function StringReply(ks: Keyspace, k: Arg): Resp {
    if StringOf(Find(ks, k)).Found? then Bulk(StringOf(Find(ks, k)).value) else NullBulk
  }

  function StringReplies(ks: Keyspace, names: seq<Arg>): seq<Resp> {
    seq(|names|, i requires 0 <= i < |names| => StringReply(ks, names[i]))
  }

  ghost function MGetReply(ks: Keyspace, args: seq<Arg>): Resp {
    if |args| < 2 then SyntaxError()
    else if AnyWrongType(ks, args) then WrongTypeError()
    else Array(StringReplies(ks, args[1..]))
  }

  /** Pairs are assigned from left to right, so the last of two equal keys wins. */
  function AssignPairs(ks: Keyspace, args: seq<Arg>, i: nat, now: int): Keyspace
    decreases |args| - i
  {
    if i + 1 >= |args| then ks
    else AssignPairs(Assign(ks, args[i], StringUntil(args[i + 1], None, now)), args, i + 2, now)
  }

  predicate AnyNamed(ks: Keyspace, args: seq<Arg>, i: nat)
    decreases |args| - i
  {
    i < |args| && (args[i] in ks || AnyNamed(ks, args, i + 2))
  }

  function CountNamed(ks: Keyspace, args: seq<Arg>, i: nat): nat
    decreases |args| - i
  {
    if i >= |args| then 0 else CountNamed(ks, args, i + 1) + if args[i] in ks then 1 else 0
  }

  function RemoveNamed(ks: Keyspace, args: seq<Arg>, i: nat): Keyspace
    decreases |args| - i
  {
    if i >= |args| then ks else RemoveNamed(ks - {args[i]}, args, i + 1)
  }

  /** How many of the named keys exist when their turn comes. */
  function CountRemoved(ks: Keyspace, args: seq<Arg>, i: nat): nat
    decreases |args| - i
  {
    if i >= |args| then 0
    else (if args[i] in ks then 1 else 0) + CountRemoved(ks - {args[i]}, args, i + 1)
  }

  // ---------------------------------------------------------------- key discovery

  ghost function KeyNames(ks: Keyspace): seq<bytes> { Listing(set k: bytes | k in ks.Keys) }

  function Matching(matcher: Matcher, pattern: bytes, names: seq<bytes>): seq<bytes> {
    if names == [] then []
    else
      var rest := Matching(matcher, pattern, names[..|names| - 1]);
      var name := names[|names| - 1];
      if matcher(pattern, name) then rest + [name] else rest
  }

  datatype ScanOptions = ScanOptions(pattern: bytes, count: nat)

  function ParseNonNegative(b: bytes): (r: Option<nat>)
    ensures r.Some? ==> r.value <= MAX_INT64
  {
    match Decimal.ParseInt64(b) case Some(n) => if n < 0 then None else Some(n) case None => None
  }

  function ParseScan(args: seq<Arg>, index: nat, o: ScanOptions): (r: Parsed<ScanOptions>)
    ensures r.Good? && o.count <= MAX_INT64 ==> r.value.count <= MAX_INT64
    decreases |args| - index
  {
    if index >= |args| then Good(o)
    else
      var name := Upper(args[index]);
      if name != Ascii("MATCH") && name != Ascii("COUNT") && name != Ascii("TYPE") then Bad(SyntaxError())
      else if index + 1 >= |args| then Bad(SyntaxError())
      else if name == Ascii("MATCH") then ParseScan(args, index + 2, o.(pattern := args[index + 1]))
      else if name == Ascii("COUNT") then
        match ParseNonNegative(args[index + 1])
        case None => Bad(NotAnInteger())
        case Some(n) => ParseScan(args, index + 2, o.(count := if n == 0 then 10 else n))
      else ParseScan(args, index + 2, o)
  }

  const SCAN_DEFAULTS: ScanOptions := ScanOptions(Ascii("*"), 10)

  function PageEnd(size: nat, cursor: nat, count: nat): nat {
    if cursor + count > size then size else cursor + count
  }

  function NextCursor(size: nat, cursor: nat, count: nat): nat {
    if PageEnd(size, cursor, count) < size then PageEnd(size, cursor, count) else 0
  }

  function ScanPage(names: seq<bytes>, cursor: nat, count: nat): Resp {
    if cursor >= |names| then Array([Bulk(Ascii("0")), Array([])])
    else Array([Bulk(Decimal.Format(NextCursor(|names|, cursor, count))),
                Array(Bulks(names[cursor..PageEnd(|names|, cursor, count)]))])
  }

  ghost function ScanReply(ks: Keyspace, args: seq<Arg>, matcher: Matcher): Resp {
    if |args| < 2 then SyntaxError()
    else match ParseNonNegative(args[1])
      case None => NotAnInteger()
      case Some(cursor) => match ParseScan(args, 2, SCAN_DEFAULTS)
        case Bad(r) => r
        case Good(o) => ScanPage(Matching(matcher, o.pattern, KeyNames(ks)), cursor, o.count)
  }

  // ---------------------------------------------------------------- one step, one run

  /** One command at time `now`, on the keys that are alive then. */
  ghost function Exec(ks: Keyspace, now: int64, args: seq<Arg>, c: Command, matcher: Matcher): (Keyspace, Resp) {
    match c
    case OnKey(command) =>
      if |args| < 2 then (ks, OnEntry(command, None, args, now).reply)
      else
        var out := OnEntry(command, Find(ks, args[1]), args, now);
        (Assign(ks, args[1], out.entry), out.reply)
    case MGet => (ks, MGetReply(ks, args))
    case MSet =>
      if |args| < 3 || |args| % 2 != 1 then (ks, SyntaxError()) else (AssignPairs(ks, args, 1, now), OkReply())
    case MSetNX =>
      if |args| < 3 || |args| % 2 != 1 then (ks, SyntaxError())
      else if AnyNamed(ks, args, 1) then (ks, Integer(0))
      else (AssignPairs(ks, args, 1, now), Integer(1))
    case Del =>
      if |args| < 2 then (ks, SyntaxError()) else (RemoveNamed(ks, args, 1), Integer(CountRemoved(ks, args, 1)))
    case Exists => (ks, if |args| < 2 then SyntaxError() else Integer(CountNamed(ks, args, 1)))
    case Scan => (ks, ScanReply(ks, args, matcher))
    case KeysMatching =>
      (ks, if |args| != 2 then SyntaxError() else Array(Bulks(Matching(matcher, args[1], KeyNames(ks)))))
    case DbSize => (ks, if |args| != 1 then SyntaxError() else Integer(|ks|))
    case Flush => if |args| > 2 then (ks, SyntaxError()) else (map[], OkReply())
  }

  /** What the code leaves unchecked: a list record counts its items in 32 bits, and SCAN adds
      its cursor and count before it compares them. */
  ghost predicate Answerable(ks: Keyspace, args: seq<Arg>, c: Command, matcher: Matcher) {
    match c
    case OnKey(Push(_, _)) => |args| >= 2 ==> |ItemsIn(Find(ks, args[1]))| + |args| - 2 < TWO32
    case Scan => ScanFits(ks, args, matcher)
    case _ => true
  }

  /** A cursor past the names is answered before the addition. */
  predicate PageFits(size: nat, cursor: nat, count: nat) {
    cursor >= size || cursor + count <= MAX_INT64
  }

  ghost predicate ScanFits(ks: Keyspace, args: seq<Arg>, matcher: Matcher) {
    |args| >= 2 && ParseNonNegative(args[1]).Some? && ParseScan(args, 2, SCAN_DEFAULTS).Good? ==>
      var o := ParseScan(args, 2, SCAN_DEFAULTS).value;
      PageFits(|Matching(matcher, o.pattern, KeyNames(ks))|, ParseNonNegative(args[1]).value, o.count)
  }
}

/** What each single-key command means on the typed keyspace: from the entry of its key (or
    none) to the entry afterwards and the reply. Storage records play no part here. */
module CommandSpec {
  import opened Bytes
  import opened Keyspace
  import opened Resp
  import opened Sorting
  import Decimal
  import Deadline
  import P = Probe

  /** What the reader lets through as a command argument. */
  type Arg = b: bytes | |b| <= MAX_BULK witness []

  datatype Out = Out(entry: Option<Entry>, reply: Resp)

  function Ascii(s: string): bytes {
    seq(|s|, i requires 0 <= i < |s| => (s[i] as int) % 256)
  }

  function Upper(b: bytes): bytes {
    seq(|b|, i requires 0 <= i < |b| => if 97 <= b[i] <= 122 then b[i] - 32 else b[i])
  }

  function SyntaxError(): Resp { Error(Ascii("ERR syntax error")) }
  function WrongTypeError(): Resp {
    Error(Ascii("WRONGTYPE Operation against a key holding the wrong kind of value"))
  }
  function NotAnInteger(): Resp { Error(Ascii("ERR value is not an integer or out of range")) }
  function BadSetExpiry(): Resp { Error(Ascii("ERR invalid expire time in set")) }
  function BadGetExExpiry(): Resp { Error(Ascii("ERR invalid expire time in getex")) }
  function BadExpiry(): Resp { Error(Ascii("ERR invalid expire time")) }
  function Overflow(): Resp { Error(Ascii("ERR increment or decrement would overflow")) }
  function OkReply(): Resp { Simple(Ascii("OK")) }

  // ---------------------------------------------------------------- strings

  function StringOf(oe: Option<Entry>): Lookup<bytes> {
    match oe
    case None => Missing
    case Some(Entry(Str(_, payload), _)) => Found(payload)
    case Some(_) => WrongType
  }

  function DeadlineIn(oe: Option<Entry>): Option<int> {
    match oe case None => None case Some(e) => e.deadline
  }

  /** A string with a deadline; one that is not in the future leaves nothing. */
  function StringUntil(payload: bytes, deadline: Option<int>, now: int): Option<Entry> {
    if Passed(deadline, now) then None else Some(Entry(Str(P.BYTES_CODEC, payload), deadline))
  }

  function Get(oe: Option<Entry>, args: seq<Arg>): Out {
    if |args| != 2 then Out(oe, SyntaxError())
    else match StringOf(oe)
      case Missing => Out(oe, NullBulk)
      case Found(v) => Out(oe, Bulk(v))
      case WrongType => Out(oe, WrongTypeError())
  }

  function StrLen(oe: Option<Entry>, args: seq<Arg>): Out {
    if |args| != 2 then Out(oe, SyntaxError())
    else match StringOf(oe)
      case Missing => Out(oe, Integer(0))
      case Found(v) => Out(oe, Integer(|v|))
      case WrongType => Out(oe, WrongTypeError())
  }

  datatype SetOptions = SetOptions(expiresAt: int64, hasExpiry: bool, nx: bool, xx: bool, get: bool, keepTTL: bool)
  datatype Parsed<+T> = Good(value: T) | Bad(reply: Resp)

  const NO_OPTIONS: SetOptions := SetOptions(0, false, false, false, false, false)

  predicate IsUnitName(name: bytes) {
    name == Ascii("EX") || name == Ascii("PX") || name == Ascii("EXAT") || name == Ascii("PXAT")
  }

  function UnitOf(name: bytes): (u: int)
    ensures u == Deadline.SECOND || u == Deadline.MILLISECOND
  {
    if Ascii("P") <= name then Deadline.MILLISECOND else Deadline.SECOND
  }

  predicate IsAbsolute(name: bytes) {
    |name| >= 2 && name[|name| - 2..] == Ascii("AT")
  }

  /** A relative or absolute expiry given to SET, SETEX or PSETEX, which must be positive. */
  function PositiveDeadline(name: bytes, amount: int64, now: int64): Option<int64> {
    if amount <= 0 then None else Deadline.FromCommand(now, UnitOf(name), IsAbsolute(name), amount)
  }

  function AddFlag(o: SetOptions, flag: bytes): Parsed<SetOptions> {
    if flag == Ascii("NX") then if o.xx then Bad(SyntaxError()) else Good(o.(nx := true))
    else if flag == Ascii("XX") then if o.nx then Bad(SyntaxError()) else Good(o.(xx := true))
    else if flag == Ascii("GET") then Good(o.(get := true))
    else if flag == Ascii("KEEPTTL") then if o.hasExpiry then Bad(SyntaxError()) else Good(o.(keepTTL := true))
    else Bad(SyntaxError())
  }

  function AddExpiry(o: SetOptions, name: bytes, amount: Arg, now: int64): Parsed<SetOptions> {
    match Decimal.ParseInt64(amount)
    case None => Bad(NotAnInteger())
    case Some(n) => match PositiveDeadline(name, n, now)
      case None => Bad(BadSetExpiry())
      case Some(deadline) => Good(o.(expiresAt := deadline, hasExpiry := true))
  }

  /** redisSetOptions from argument `index` on. */
  function ParseSet(args: seq<Arg>, index: nat, o: SetOptions, now: int64): Parsed<SetOptions>
    decreases |args| - index
  {
    if index >= |args| then Good(o)
    else
      var name := Upper(args[index]);
      if IsUnitName(name) then
        if o.hasExpiry || index + 1 >= |args| then Bad(SyntaxError())
        else match AddExpiry(o, name, args[index + 1], now)
          case Bad(r) => Bad(r)
          case Good(o') => ParseSet(args, index + 2, o', now)
      else match AddFlag(o, name)
        case Bad(r) => Bad(r)
        case Good(o') => ParseSet(args, index + 1, o', now)
  }

  /** What can come out of the options of SET: NX and XX exclude each other, an expiry is a positive
      deadline, and KEEPTTL with an expiry means KEEPTTL came first. */
  predicate Consistent(o: SetOptions) {
    !(o.nx && o.xx) && (o.hasExpiry ==> o.expiresAt > 0) && (!o.hasExpiry ==> o.expiresAt == 0)
  }

  lemma {:induction false} ParseSetIsConsistent(args: seq<Arg>, index: nat, o: SetOptions, now: int64)
    requires Consistent(o) && now >= 0
    ensures var r := ParseSet(args, index, o, now);
            && (r.Good? ==> Consistent(r.value))
            && (r.Good? && o.hasExpiry ==> r.value.hasExpiry && r.value.keepTTL == o.keepTTL)
    decreases |args| - index
  {
    hide Upper, Ascii, Decimal.ParseInt64, IsUnitName;
    if index < |args| {
      var name := Upper(args[index]);
      if IsUnitName(name) {
        if !o.hasExpiry && index + 1 < |args| && AddExpiry(o, name, args[index + 1], now).Good? {
          ParseSetIsConsistent(args, index + 2, AddExpiry(o, name, args[index + 1], now).value, now);
        }
      } else if AddFlag(o, name).Good? {
        ParseSetIsConsistent(args, index + 1, AddFlag(o, name).value, now);
      }
    }
  }

  /** SET is refused by NX on a key that exists, by XX on one that does not, and by GET on
      a key that is not a string. */
  predicate SetRefused(oe: Option<Entry>, o: SetOptions) {
    (o.nx && oe.Some?) || (o.xx && oe.None?) || (o.get && StringOf(oe).WrongType?)
  }

  function SetEntry(oe: Option<Entry>, payload: bytes, o: SetOptions, now: int): Option<Entry> {
    if SetRefused(oe, o) then oe
    else StringUntil(payload, if o.hasExpiry then Some(o.expiresAt) else if o.keepTTL then DeadlineIn(oe)
        else None, now)
  }

  function SetReply(oe: Option<Entry>, o: SetOptions): Resp {
    if (o.nx && oe.Some?) || (o.xx && oe.None?) then NullBulk
    else if !o.get then OkReply()
    else match StringOf(oe)
      case WrongType => WrongTypeError()
      case Missing => NullBulk
      case Found(v) => Bulk(v)
  }

  function Set(oe: Option<Entry>, args: seq<Arg>, now: int64): Out {
    if |args| < 3 then Out(oe, SyntaxError())
    else match ParseSet(args, 3, NO_OPTIONS, now)
      case Bad(r) => Out(oe, r)
      case Good(o) => Out(SetEntry(oe, args[2], o, now), SetReply(oe, o))
  }

  function SetNX(oe: Option<Entry>, args: seq<Arg>, now: int64): Out {
    if |args| != 3 then Out(oe, SyntaxError())
    else if oe.Some? then Out(oe, Integer(0))
    else Out(StringUntil(args[2], None, now), Integer(1))
  }

  /** SETEX and PSETEX. */
  function SetEX(oe: Option<Entry>, args: seq<Arg>, milliseconds: bool, now: int64): Out {
    if |args| != 4 then Out(oe, SyntaxError())
    else match Decimal.ParseInt64(args[2])
      case None => Out(oe, BadSetExpiry())
      case Some(n) => match PositiveDeadline(Ascii(if milliseconds then "PX" else "EX"), n, now)
        case None => Out(oe, BadSetExpiry())
        case Some(deadline) => Out(StringUntil(args[3], Some(deadline), now), OkReply())
  }

  function GetSet(oe: Option<Entry>, args: seq<Arg>, now: int64): Out {
    if |args| != 3 then Out(oe, SyntaxError())
    else match StringOf(oe)
      case WrongType => Out(oe, WrongTypeError())
      case Missing => Out(StringUntil(args[2], None, now), NullBulk)
      case Found(v) => Out(StringUntil(args[2], None, now), Bulk(v))
  }

  function GetDel(oe: Option<Entry>, args: seq<Arg>): Out {
    if |args| != 2 then Out(oe, SyntaxError())
    else match StringOf(oe)
      case WrongType => Out(oe, WrongTypeError())
      case Missing => Out(oe, NullBulk)
      case Found(v) => Out(None, Bulk(v))
  }

  function GetEx(oe: Option<Entry>, args: seq<Arg>, now: int64): Out {
    if |args| < 2 then Out(oe, SyntaxError())
    else match StringOf(oe)
    case WrongType => Out(oe, WrongTypeError())
    case Missing => Out(oe, NullBulk)
    case Found(v) =>
      if |args| == 2 then Out(oe, Bulk(v))
      else if |args| == 3 && Upper(args[2]) == Ascii("PERSIST") then Out(PersistIn(oe).0, Bulk(v))
      else if |args| != 4 then Out(oe, SyntaxError())
      else GetExpiring(oe, args[2], args[3], v, now)
  }

  function GetExpiring(oe: Option<Entry>, option: Arg, amount: Arg, value: bytes, now: int64): Out {
    match Decimal.ParseInt64(amount)
    case None => Out(oe, BadGetExExpiry())
    case Some(n) =>
      var name := Upper(option);
      if (name == Ascii("EX") || name == Ascii("PX")) && n <= 0 then Out(oe, BadGetExExpiry())
      else if !IsUnitName(name) then Out(oe, SyntaxError())
      else match Deadline.FromCommand(now, UnitOf(name), IsAbsolute(name), n)
        case None => Out(oe, BadGetExExpiry())
        case Some(deadline) => Out(ExpireIn(oe, deadline, now).0, Bulk(value))
  }

  function Append(oe: Option<Entry>, args: seq<Arg>, now: int64): Out {
    if |args| != 3 then Out(oe, SyntaxError())
    else match StringOf(oe)
      case WrongType => Out(oe, WrongTypeError())
      case Missing => Out(StringUntil(args[2], None, now), Integer(|args[2]|))
      case Found(v) => Out(StringUntil(v + args[2], DeadlineIn(oe), now), Integer(|v| + |args[2]|))
  }

  /** INCR and its relatives: the sum is exact, and refused unless it fits 64 bits. */
  function IncrementBy(oe: Option<Entry>, delta: int, now: int64): Out {
    match StringOf(oe)
    case WrongType => Out(oe, WrongTypeError())
    case Missing => Added(oe, 0, delta, now)
    case Found(v) => match Decimal.Parse(v)
      case None => Out(oe, NotAnInteger())
      case Some(current) => Added(oe, current, delta, now)
  }

  function Added(oe: Option<Entry>, current: int, delta: int, now: int64): Out {
    if !Deadline.Fits(current + delta) then Out(oe, Overflow())
    else Out(StringUntil(Decimal.Format(current + delta), DeadlineIn(oe), now), Integer(current + delta))
  }

  function Increment(oe: Option<Entry>, args: seq<Arg>, delta: int, now: int64): Out {
    if |args| != 2 then Out(oe, SyntaxError()) else IncrementBy(oe, delta, now)
  }

  function IncrementArg(oe: Option<Entry>, args: seq<Arg>, decrement: bool, now: int64): Out {
    if |args| != 3 then Out(oe, SyntaxError())
    else match Decimal.ParseInt64(args[2])
      case None => Out(oe, NotAnInteger())
      case Some(n) =>
        var delta: int := n;
        IncrementBy(oe, if decrement then -delta else delta, now)
  }

  // ---------------------------------------------------------------- deadlines

  function ExpireIn(oe: Option<Entry>, deadline: int, now: int): (Option<Entry>, bool) {
    match oe
    case None => (None, false)
    case Some(e) => if deadline <= now then (None, true) else (Some(e.(deadline := Some(deadline))), true)
  }

  function PersistIn(oe: Option<Entry>): (Option<Entry>, bool) {
    match oe
    case None => (None, false)
    case Some(e) => (Some(e.(deadline := None)), e.deadline.Some?)
  }

  function Flag(b: bool): Resp { Integer(if b then 1 else 0) }

  /** EXPIRE, PEXPIRE, EXPIREAT and PEXPIREAT. */
  function Expire(oe: Option<Entry>, args: seq<Arg>, name: bytes, now: int64): Out {
    if |args| != 3 then Out(oe, SyntaxError())
    else match Decimal.ParseInt64(args[2])
      case None => Out(oe, NotAnInteger())
      case Some(amount) => match Deadline.FromCommand(now, UnitOf(name), IsAbsolute(name), amount)
        case None => Out(oe, BadExpiry())
        case Some(deadline) => Out(ExpireIn(oe, deadline, now).0, Flag(ExpireIn(oe, deadline, now).1))
  }

  function Remaining(deadline: int, now: int, divisor: int): int
    requires divisor > 0
  {
    if (deadline - now) / divisor < 1 then 1 else (deadline - now) / divisor
  }

  function Ttl(oe: Option<Entry>, args: seq<Arg>, milliseconds: bool, now: int64): Out {
    if |args| != 2 then Out(oe, SyntaxError())
    else Out(oe, Integer(
      match oe
      case None => -2
      case Some(e) => match e.deadline
        case None => -1
        case Some(d) => Remaining(d, now, if milliseconds then Deadline.MILLISECOND else Deadline.SECOND)))
  }

  function Persist(oe: Option<Entry>, args: seq<Arg>): Out {
    if |args| != 2 then Out(oe, SyntaxError()) else Out(PersistIn(oe).0, Flag(PersistIn(oe).1))
  }

  function KindName(kind: Kind): bytes {
    match kind
    case NoKind => Ascii("none")
    case StringKind => Ascii("string")
    case HashKind => Ascii("hash")
    case SetKind => Ascii("set")
    case ListKind => Ascii("list")
  }

  function TypeName(oe: Option<Entry>, args: seq<Arg>): Out {
    if |args| != 2 then Out(oe, SyntaxError()) else Out(oe, Simple(KindName(KindOf(oe))))
  }

  // ---------------------------------------------------------------- hashes

  function HashOf(oe: Option<Entry>): Lookup<map<bytes, Field>> {
    match oe
    case None => Missing
    case Some(Entry(Hash(fields), _)) => Found(fields)
    case Some(_) => WrongType
  }

  /** The fields a hash command starts from when the key is a hash or is missing. */
  function FieldsIn(oe: Option<Entry>): map<bytes, Field> {
    if HashOf(oe).Found? then HashOf(oe).value else map[]
  }

  function HashUntil(fields: map<bytes, Field>, deadline: Option<int>): Option<Entry> {
    if fields == map[] then None else Some(Entry(Hash(fields), deadline))
  }

  /** Store field/value pairs from argument `i` on; count the fields that were absent. */
  function StorePairs(fields: map<bytes, Field>, args: seq<Arg>, i: nat): (map<bytes, Field>, nat)
    decreases |args| - i
  {
    if i + 1 >= |args| then (fields, 0)
    else
      var (after, added) := StorePairs(fields[args[i] := Field(args[i + 1], None)], args, i + 2);
      (after, added + if args[i] in fields then 0 else 1)
  }

  function HSet(oe: Option<Entry>, args: seq<Arg>): Out {
    if |args| < 4 || |args| % 2 != 0 then Out(oe, SyntaxError())
    else if HashOf(oe).WrongType? then Out(oe, WrongTypeError())
    else
      var (fields, added) := StorePairs(FieldsIn(oe), args, 2);
      Out(HashUntil(fields, DeadlineIn(oe)), Integer(added))
  }

  function FieldReply(oe: Option<Entry>, f: bytes): Resp {
    if f in FieldsIn(oe) then Bulk(FieldsIn(oe)[f].value) else NullBulk
  }

  function HGet(oe: Option<Entry>, args: seq<Arg>): Out {
    if |args| != 3 then Out(oe, SyntaxError())
    else if HashOf(oe).WrongType? then Out(oe, WrongTypeError())
    else Out(oe, FieldReply(oe, args[2]))
  }

  function FieldReplies(oe: Option<Entry>, fields: seq<Arg>): seq<Resp> {
    seq(|fields|, i requires 0 <= i < |fields| => FieldReply(oe, fields[i]))
  }

  function HMGet(oe: Option<Entry>, args: seq<Arg>): Out {
    if |args| < 3 then Out(oe, SyntaxError())
    else if HashOf(oe).WrongType? then Out(oe, WrongTypeError())
    else Out(oe, Array(FieldReplies(oe, args[2..])))
  }

  function HExists(oe: Option<Entry>, args: seq<Arg>): Out {
    if |args| != 3 then Out(oe, SyntaxError())
    else if HashOf(oe).WrongType? then Out(oe, WrongTypeError())
    else Out(oe, Flag(args[2] in FieldsIn(oe)))
  }

  function DropFields(fields: map<bytes, Field>, args: seq<Arg>, i: nat): (map<bytes, Field>, nat)
    decreases |args| - i
  {
    if i >= |args| then (fields, 0)
    else
      var (after, removed) := DropFields(fields - {args[i]}, args, i + 1);
      (after, removed + if args[i] in fields then 1 else 0)
  }

  function HDel(oe: Option<Entry>, args: seq<Arg>): Out {
    if |args| < 3 then Out(oe, SyntaxError())
    else match HashOf(oe)
      case Missing => Out(oe, Integer(0))
      case WrongType => Out(oe, WrongTypeError())
      case Found(fields) =>
        var (after, removed) := DropFields(fields, args, 2);
        Out(HashUntil(after, DeadlineIn(oe)), Integer(removed))
  }

  datatype Part = Both | Names | Values

  /** The sorted listing of a hash, as HGETALL, HKEYS or HVALS show it. */
  ghost function Show(fields: map<bytes, Field>, names: seq<bytes>, part: Part): seq<Resp>
    requires forall f <- names :: f in fields
  {
    if names == [] then []
    else
      var rest := Show(fields, names[..|names| - 1], part);
      var f := names[|names| - 1];
      match part
      case Both => rest + [Bulk(f), Bulk(fields[f].value)]
      case Names => rest + [Bulk(f)]
      case Values => rest + [Bulk(fields[f].value)]
  }

  ghost function HList(oe: Option<Entry>, args: seq<Arg>, part: Part): Out {
    if |args| != 2 then Out(oe, SyntaxError())
    else if HashOf(oe).WrongType? then Out(oe, WrongTypeError())
    else
      var fields := FieldsIn(oe);
      ListingMembers(fields.Keys);
      Out(oe, Array(Show(fields, Listing(fields.Keys), part)))
  }

  function HLen(oe: Option<Entry>, args: seq<Arg>): Out {
    if |args| != 2 then Out(oe, SyntaxError())
    else if HashOf(oe).WrongType? then Out(oe, WrongTypeError())
    else Out(oe, Integer(|FieldsIn(oe)|))
  }

  function HashNotAnInteger(): Resp { Error(Ascii("ERR hash value is not an integer")) }

  function HIncrBy(oe: Option<Entry>, args: seq<Arg>): Out {
    if |args| != 4 then Out(oe, SyntaxError())
    else match Decimal.ParseInt64(args[3])
      case None => Out(oe, NotAnInteger())
      case Some(delta) => HashIncrement(oe, args[2], delta)
  }

  function HashIncrement(oe: Option<Entry>, f: Arg, delta: int64): Out {
    if HashOf(oe).WrongType? then Out(oe, WrongTypeError())
    else
      var fields := FieldsIn(oe);
      match if f in fields then Decimal.Parse(fields[f].value) else Some(0)
      case None => Out(oe, HashNotAnInteger())
      case Some(current) =>
        if !Deadline.Fits(current + delta) then Out(oe, Overflow())
        else Out(HashUntil(fields[f := Field(Decimal.Format(current + delta), None)], DeadlineIn(oe)),
                 Integer(current + delta))
  }

  // ---------------------------------------------------------------- sets

  function SetOf(oe: Option<Entry>): Lookup<set<bytes>> {
    match oe
    case None => Missing
    case Some(Entry(Members(members), _)) => Found(members)
    case Some(_) => WrongType
  }

  function MembersIn(oe: Option<Entry>): set<bytes> {
    if SetOf(oe).Found? then SetOf(oe).value else {}
  }

  function SetUntil(members: set<bytes>, deadline: Option<int>): Option<Entry> {
    if members == {} then None else Some(Entry(Members(members), deadline))
  }

  function Named(args: seq<Arg>): set<bytes> { set x | x in args }

  /** SADD replies how much the set grew; SREM how much it shrank. */
  function SAdd(oe: Option<Entry>, args: seq<Arg>): Out {
    if |args| < 3 then Out(oe, SyntaxError())
    else if SetOf(oe).WrongType? then Out(oe, WrongTypeError())
    else
      var after := MembersIn(oe) + Named(args[2..]);
      Out(SetUntil(after, DeadlineIn(oe)), Integer(|after| - |MembersIn(oe)|))
  }

  function SRem(oe: Option<Entry>, args: seq<Arg>): Out {
    if |args| < 3 then Out(oe, SyntaxError())
    else match SetOf(oe)
      case Missing => Out(oe, Integer(0))
      case WrongType => Out(oe, WrongTypeError())
      case Found(members) =>
        var after := members - Named(args[2..]);
        Out(SetUntil(after, DeadlineIn(oe)), Integer(|members| - |after|))
  }

  function SIsMember(oe: Option<Entry>, args: seq<Arg>): Out {
    if |args| != 3 then Out(oe, SyntaxError())
    else if SetOf(oe).WrongType? then Out(oe, WrongTypeError())
    else Out(oe, Flag(args[2] in MembersIn(oe)))
  }

  function SMIsMember(oe: Option<Entry>, args: seq<Arg>): Out {
    if |args| < 3 then Out(oe, SyntaxError())
    else if SetOf(oe).WrongType? then Out(oe, WrongTypeError())
    else Out(oe, Array(seq(|args| - 2, i requires 0 <= i < |args| - 2 => Flag(args[i + 2] in MembersIn(oe)))))
  }

  ghost function SMembers(oe: Option<Entry>, args: seq<Arg>): Out {
    if |args| != 2 then Out(oe, SyntaxError())
    else if SetOf(oe).WrongType? then Out(oe, WrongTypeError())
    else Out(oe, Array(Bulks(Listing(MembersIn(oe)))))
  }

  function SCard(oe: Option<Entry>, args: seq<Arg>): Out {
    if |args| != 2 then Out(oe, SyntaxError())
    else if SetOf(oe).WrongType? then Out(oe, WrongTypeError())
    else Out(oe, Integer(|MembersIn(oe)|))
  }

  // ---------------------------------------------------------------- lists

  function ListOf(oe: Option<Entry>): Lookup<seq<bytes>> {
    match oe
    case None => Missing
    case Some(Entry(Items(items), _)) => Found(items)
    case Some(_) => WrongType
  }

  function ItemsIn(oe: Option<Entry>): seq<bytes> {
    if ListOf(oe).Found? then ListOf(oe).value else []
  }

  function ListUntil(items: seq<bytes>, deadline: Option<int>): Option<Entry> {
    if items == [] then None else Some(Entry(Items(items), deadline))
  }

  function Reversed(s: seq<bytes>): (r: seq<bytes>)
    ensures |r| == |s|
  {
    seq(|s|, i requires 0 <= i < |s| => s[|s| - 1 - i])
  }

  /** Each value of LPUSH is pushed in front of the ones before it. */
  function Pushed(oe: Option<Entry>, values: seq<bytes>, left: bool, onlyIfExists: bool): Out {
    if ListOf(oe).WrongType? then Out(oe, WrongTypeError())
    else if onlyIfExists && oe.None? then Out(oe, Integer(0))
    else
      var after := if left then Reversed(values) + ItemsIn(oe) else ItemsIn(oe) + values;
      Out(ListUntil(after, DeadlineIn(oe)), Integer(|after|))
  }

  function Push(oe: Option<Entry>, args: seq<Arg>, left: bool, onlyIfExists: bool): Out {
    if |args| < 3 then Out(oe, SyntaxError()) else Pushed(oe, args[2..], left, onlyIfExists)
  }

  function LLen(oe: Option<Entry>, args: seq<Arg>): Out {
    if |args| != 2 then Out(oe, SyntaxError())
    else if ListOf(oe).WrongType? then Out(oe, WrongTypeError())
    else Out(oe, Integer(|ItemsIn(oe)|))
  }

  /** Indices count from the end when negative; an item is kept when its index lies between. */
  predicate InRange(i: int, length: int, start: int, stop: int) {
    (if start < 0 then length + start else start) <= i <= (if stop < 0 then length + stop else stop)
  }

  function KeepRange(items: seq<bytes>, n: nat, start: int, stop: int): (r: seq<bytes>)
    requires n <= |items|
  {
    if n == 0 then []
    else if InRange(n - 1, |items|, start, stop) then KeepRange(items, n - 1, start, stop) + [items[n - 1]]
    else KeepRange(items, n - 1, start, stop)
  }

  /** LRANGE replies with the kept items, LTRIM keeps them and drops the rest. */
  function Range(oe: Option<Entry>, args: seq<Arg>, trim: bool): Out {
    if |args| != 4 then Out(oe, SyntaxError())
    else
      var start, stop := Decimal.ParseInt64(args[2]), Decimal.ParseInt64(args[3]);
      if start.None? || stop.None? then Out(oe, NotAnInteger())
      else if ListOf(oe).WrongType? then Out(oe, WrongTypeError())
      else
        var items := ItemsIn(oe);
        var kept := KeepRange(items, |items|, start.value, stop.value);
        if trim then Out(ListUntil(kept, DeadlineIn(oe)), OkReply())
        else Out(oe, Array(Bulks(kept)))
  }

  /** LPOP and RPOP, with or without a count. */
  function Pop(oe: Option<Entry>, args: seq<Arg>, left: bool): Out {
    if |args| != 2 && |args| != 3 then Out(oe, SyntaxError())
    else match ListOf(oe)
      case WrongType => Out(oe, WrongTypeError())
      case Missing => Out(oe, if |args| == 3 then Array([]) else NullBulk)
      case Found(items) =>
        var wanted := if |args| == 3 then Decimal.ParseInt64(args[2]) else Some(1);
        if wanted.None? || wanted.value < 0 then Out(oe, NotAnInteger())
        else Popped(items, wanted.value, left, |args| == 3, DeadlineIn(oe))
  }

  /** The `count` items at one end, and the others. */
  function EndItems(items: seq<bytes>, count: nat, left: bool): seq<bytes>
    requires count <= |items|
  {
    if left then items[..count] else items[|items| - count..]
  }

  function OtherItems(items: seq<bytes>, count: nat, left: bool): seq<bytes>
    requires count <= |items|
  {
    if left then items[count..] else items[..|items| - count]
  }

  function Popped(items: seq<bytes>, wanted: nat, left: bool, many: bool, deadline: Option<int>): Out {
    var count := if wanted < |items| then wanted else |items|;
    var popped := EndItems(items, count, left);
    Out(ListUntil(OtherItems(items, count, left), deadline),
        if many then Array(Bulks(popped)) else if popped == [] then NullBulk else Bulk(popped[0]))
  }
}

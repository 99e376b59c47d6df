/** The plain typed keyspace the Redis commands promise: each key holds one value and at most
    one deadline, hash fields may carry deadlines of their own, and what has passed its
    deadline is gone. */
module Keyspace {
  import opened Bytes
  import opened Keys

  datatype Field = Field(value: bytes, deadline: Option<int>)

  datatype Value =
    | Str(codec: bytes, payload: bytes)
    | Hash(fields: map<bytes, Field>)
    | Members(members: set<bytes>)
    | Items(items: seq<bytes>)

  datatype Entry = Entry(value: Value, deadline: Option<int>)

  datatype Kind = NoKind | StringKind | HashKind | SetKind | ListKind

  type Keyspace = map<key, Entry>

  datatype Lookup<+T> = Missing | Found(value: T) | WrongType

  function KindOf(oe: Option<Entry>): Kind {
    match oe
    case None => NoKind
    case Some(e) => match e.value
      case Str(_, _) => StringKind
      case Hash(_) => HashKind
      case Members(_) => SetKind
      case Items(_) => ListKind
  }

  predicate Passed(deadline: Option<int>, now: int) {
    deadline.Some? && now >= deadline.value
  }

  function LiveFields(fields: map<bytes, Field>, now: int): map<bytes, Field> {
    map f <- fields | !Passed(fields[f].deadline, now) :: fields[f]
  }

  /** What is left of an entry at time `now`. */
  function Alive(e: Entry, now: int): Option<Entry> {
    if Passed(e.deadline, now) then None
    else match e.value
      case Hash(fields) =>
        var live := LiveFields(fields, now);
        if live == map[] then None else Some(Entry(Hash(live), e.deadline))
      case _ => Some(e)
  }

  function Later(oe: Option<Entry>, now: int): Option<Entry> {
    match oe case None => None case Some(e) => Alive(e, now)
  }

  function Find(ks: Keyspace, k: key): Option<Entry> {
    if k in ks then Some(ks[k]) else None
  }

  function Assign(ks: Keyspace, k: key, oe: Option<Entry>): Keyspace {
    match oe case None => ks - {k} case Some(e) => ks[k := e]
  }

  /** The keyspace at time `now`: what has passed its deadline is gone. */
  function Tick(ks: Keyspace, now: int): Keyspace {
    map k <- ks | Alive(ks[k], now).Some? :: Alive(ks[k], now).value
  }
}

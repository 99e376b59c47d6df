/** redisDispatch: one command against the store, refining the reference interpreter. */
module Dispatch {
  import opened Bytes
  import opened Keys
  import opened Layout
  import opened Resp
  import opened RedisStorage
  import opened Effects
  import opened View
  import opened S = CommandSpec
  import opened I = Interpreter
  import StringCommands
  import HashCommands
  import SetCommands
  import ListCommands
  import KeyCommands
  import K = KeyspaceCommands
  import P = Probe

  ghost predicate Did(d: Store, d': Store, c: KeyCommand, args: seq<Arg>, now: int64, r: Resp) {
    Performed(d, d', args, now, OnEntry(c, Before(d, args, now), args, now), r)
  }

  method OnString(db: Database, c: KeyCommand, args: seq<Arg>) returns (r: Resp)
    requires Inv(db.engine.data) && db.now >= 0
    requires c.Get? || c.Set? || c.SetNX? || c.SetEX? || c.GetSet? || c.GetDel? || c.GetEx? || c.StrLen? || c.Append?
          || c.Increment? || c.IncrementArg?
    modifies db.engine
    ensures Did(old(db.engine.data), db.engine.data, c, args, db.now, r)
  {
    hide Inv, Performed, Before;
    hide S.Get, S.Set, S.SetNX, S.SetEX, S.GetSet, S.GetDel, S.GetEx, S.StrLen, S.Append, S.Increment, S.IncrementArg;
    hide S.Expire, S.Ttl, S.Persist, S.TypeName, S.HSet, S.HGet, S.HMGet, S.HList, S.HDel, S.HExists, S.HLen, S.HIncrBy;
    hide S.SAdd, S.SRem, S.SIsMember, S.SMIsMember, S.SMembers, S.SCard, S.Push, S.Range, S.LLen, S.Pop;
    match c
    case Get => r := StringCommands.Get(db, args);
    case Set => r := StringCommands.Set(db, args);
    case SetNX => r := StringCommands.SetNX(db, args);
    case SetEX(ms) => r := StringCommands.SetEX(db, args, ms);
    case GetSet => r := StringCommands.GetSet(db, args);
    case GetDel => r := StringCommands.GetDel(db, args);
    case GetEx => r := StringCommands.GetEx(db, args);
    case StrLen => r := StringCommands.StrLen(db, args);
    case Append => r := StringCommands.Append(db, args);
    case Increment(delta) => r := StringCommands.Increment(db, args, delta);
    case IncrementArg(decrement) => r := StringCommands.IncrementArg(db, args, decrement);
  }

  method OnDeadline(db: Database, c: KeyCommand, args: seq<Arg>) returns (r: Resp)
    requires Inv(db.engine.data) && db.now >= 0
    requires c.Expire? || c.Ttl? || c.Persist? || c.TypeName?
    modifies db.engine
    ensures Did(old(db.engine.data), db.engine.data, c, args, db.now, r)
  {
    hide Inv, Performed, Before;
    hide S.Get, S.Set, S.SetNX, S.SetEX, S.GetSet, S.GetDel, S.GetEx, S.StrLen, S.Append, S.Increment, S.IncrementArg;
    hide S.Expire, S.Ttl, S.Persist, S.TypeName, S.HSet, S.HGet, S.HMGet, S.HList, S.HDel, S.HExists, S.HLen, S.HIncrBy;
    hide S.SAdd, S.SRem, S.SIsMember, S.SMIsMember, S.SMembers, S.SCard, S.Push, S.Range, S.LLen, S.Pop;
    match c
    case Expire(name) => r := KeyCommands.Expire(db, args, name);
    case Ttl(ms) => r := KeyCommands.Ttl(db, args, ms);
    case Persist => r := KeyCommands.Persist(db, args);
    case TypeName => r := KeyCommands.TypeName(db, args);
  }

  method OnHash(db: Database, c: KeyCommand, args: seq<Arg>) returns (r: Resp)
    requires Inv(db.engine.data) && db.now >= 0
    requires c.HSet? || c.HGet? || c.HMGet? || c.HList? || c.HDel? || c.HExists? || c.HLen? || c.HIncrBy?
    modifies db.engine
    ensures Did(old(db.engine.data), db.engine.data, c, args, db.now, r)
  {
    hide Inv, Performed, Before;
    hide S.Get, S.Set, S.SetNX, S.SetEX, S.GetSet, S.GetDel, S.GetEx, S.StrLen, S.Append, S.Increment, S.IncrementArg;
    hide S.Expire, S.Ttl, S.Persist, S.TypeName, S.HSet, S.HGet, S.HMGet, S.HList, S.HDel, S.HExists, S.HLen, S.HIncrBy;
    hide S.SAdd, S.SRem, S.SIsMember, S.SMIsMember, S.SMembers, S.SCard, S.Push, S.Range, S.LLen, S.Pop;
    match c
    case HSet => r := HashCommands.HSet(db, args);
    case HGet => r := HashCommands.HGet(db, args);
    case HMGet => r := HashCommands.HMGet(db, args);
    case HList(part) => r := HashCommands.HList(db, args, part);
    case HDel => r := HashCommands.HDel(db, args);
    case HExists => r := HashCommands.HExists(db, args);
    case HLen => r := HashCommands.HLen(db, args);
    case HIncrBy => r := HashCommands.HIncrBy(db, args);
  }

  method OnSet(db: Database, c: KeyCommand, args: seq<Arg>) returns (r: Resp)
    requires Inv(db.engine.data) && db.now >= 0
    requires c.SAdd? || c.SRem? || c.SIsMember? || c.SMIsMember? || c.SMembers? || c.SCard?
    modifies db.engine
    ensures Did(old(db.engine.data), db.engine.data, c, args, db.now, r)
  {
    hide Inv, Performed, Before;
    hide S.Get, S.Set, S.SetNX, S.SetEX, S.GetSet, S.GetDel, S.GetEx, S.StrLen, S.Append, S.Increment, S.IncrementArg;
    hide S.Expire, S.Ttl, S.Persist, S.TypeName, S.HSet, S.HGet, S.HMGet, S.HList, S.HDel, S.HExists, S.HLen, S.HIncrBy;
    hide S.SAdd, S.SRem, S.SIsMember, S.SMIsMember, S.SMembers, S.SCard, S.Push, S.Range, S.LLen, S.Pop;
    match c
    case SAdd => r := SetCommands.SAdd(db, args);
    case SRem => r := SetCommands.SRem(db, args);
    case SIsMember => r := SetCommands.SIsMember(db, args);
    case SMIsMember => r := SetCommands.SMIsMember(db, args);
    case SMembers => r := SetCommands.SMembers(db, args);
    case SCard => r := SetCommands.SCard(db, args);
  }

  method OnList(db: Database, c: KeyCommand, args: seq<Arg>) returns (r: Resp)
    requires Inv(db.engine.data) && db.now >= 0
    requires c.Push? || c.Range? || c.LLen? || c.Pop?
    requires c.Push? ==> |ItemsIn(Before(db.engine.data, args, db.now))| + |args| - 2 < TWO32
    modifies db.engine
    ensures Did(old(db.engine.data), db.engine.data, c, args, db.now, r)
  {
    hide Inv, Performed, Before, ItemsIn, ListCommands.AfterPush, ListCommands.Truncated;
    hide S.Get, S.Set, S.SetNX, S.SetEX, S.GetSet, S.GetDel, S.GetEx, S.StrLen, S.Append, S.Increment, S.IncrementArg;
    hide S.Expire, S.Ttl, S.Persist, S.TypeName, S.HSet, S.HGet, S.HMGet, S.HList, S.HDel, S.HExists, S.HLen, S.HIncrBy;
    hide S.SAdd, S.SRem, S.SIsMember, S.SMIsMember, S.SMembers, S.SCard, S.Push, S.Range, S.LLen, S.Pop;
    match c
    case Push(left, onlyIfExists) =>
      if |args| >= 2 { ListCommands.AfterPushSize(Before(db.engine.data, args, db.now), args[2..], left); }
      r := ListCommands.Push(db, args, left, onlyIfExists);
    case Range(trim) =>
      if trim { r := ListCommands.LTrim(db, args); } else { r := ListCommands.LRange(db, args); }
    case LLen => r := ListCommands.LLen(db, args);
    case Pop(left) => r := ListCommands.Pop(db, args, left);
  }

  /** Every single-key command does to its key what the reference does to the entry. */
  method OnOneKey(db: Database, c: KeyCommand, args: seq<Arg>) returns (r: Resp)
    requires Inv(db.engine.data) && db.now >= 0
    requires c.Push? ==> |ItemsIn(Before(db.engine.data, args, db.now))| + |args| - 2 < TWO32
    modifies db.engine
    ensures Did(old(db.engine.data), db.engine.data, c, args, db.now, r)
  {
    hide Inv, Did, Before, ItemsIn;
    match c
    case SAdd | SRem | SIsMember | SMIsMember | SMembers | SCard => r := OnSet(db, c, args);
    case Push(_, _) | Range(_) | LLen | Pop(_) => r := OnList(db, c, args);
    case HSet | HGet | HMGet | HList(_) | HDel | HExists | HLen | HIncrBy => r := OnHash(db, c, args);
    case Expire(_) | Ttl(_) | Persist | TypeName => r := OnDeadline(db, c, args);
    case _ => r := OnString(db, c, args);
  }

  /** The reply the reference gives; DEL and UNLINK may also count keys that expired without
      having been purged. */
  predicate ReplyOk(c: Command, args: seq<Arg>, expected: Resp, r: Resp) {
    if c.Del? && |args| >= 2 then
      expected.Integer? && r.Integer? && expected.value <= r.value <= |args| - 1
    else r == expected
  }

  lemma DidRefines(d: Store, d': Store, c: KeyCommand, args: seq<Arg>, now: int64, r: Resp, matcher: Matcher)
    requires Inv(d) && Did(d, d', c, args, now, r)
    ensures Keeps(d, d') && (View.View(d', now), r) == Exec(View.View(d, now), now, args, OnKey(c), matcher)
  {
    hide Inv, Plain, View.View, At, P.Look, WellFormed, P.Ok, OnEntry;
    if |args| >= 2 {
      var k: key := args[1];
      ViewFind(d, now, k);
      var out := OnEntry(c, Before(d, args, now), args, now);
      EffectKeepsInv(d, d', k, now, out.entry);
      ViewEffect(d, d', k, now, out.entry);
    }
  }

  /** One command refines one step of the reference interpreter and keeps the invariant. */
  method Run(db: Database, c: Command, args: seq<Arg>) returns (r: Resp)
    requires Inv(db.engine.data) && db.now >= 0
    requires Answerable(View.View(db.engine.data, db.now), args, c, db.matcher)
    modifies db.engine
    ensures Keeps(old(db.engine.data), db.engine.data)
    ensures var (ks, expected) := Exec(View.View(old(db.engine.data), db.now), db.now, args, c, db.matcher);
            View.View(db.engine.data, db.now) == ks && ReplyOk(c, args, expected, r)
  {
    hide Inv, Plain, View.View, At, P.Look, Did, OnEntry, ItemsIn, MGetReply, ScanReply, KeyNames, ScanFits;
    ghost var d := db.engine.data;
    match c
    case OnKey(command) =>
      if |args| >= 2 { ViewFind(d, db.now, args[1]); }
      r := OnKeyFits(db, command, args);
      DidRefines(d, db.engine.data, command, args, db.now, r, db.matcher);
    case MGet => r := K.MGet(db, args);
    case MSet => r := K.MSet(db, args);
    case MSetNX => r := K.MSetNX(db, args);
    case Del =>
      if |args| >= 2 { K.DeleteCountsLingering(d, db.now, args); }
      r := K.Delete(db, args);
    case Exists => r := K.Exists(db, args);
    case Scan =>
      var answer := K.Scan(db, args);
      r := answer.value;
    case KeysMatching => r := K.KeysMatching(db, args);
    case DbSize => r := K.DbSize(db, args);
    case Flush => r := K.Flush(db, args);
  }

  method OnKeyFits(db: Database, c: KeyCommand, args: seq<Arg>) returns (r: Resp)
    requires Inv(db.engine.data) && db.now >= 0
    requires c.Push? && |args| >= 2 ==> |ItemsIn(P.Look(At(db.engine.data, args[1]), db.now))| + |args| - 2 < TWO32
    modifies db.engine
    ensures Did(old(db.engine.data), db.engine.data, c, args, db.now, r)
  {
    hide Inv, Did, At, P.Look;
    r := OnOneKey(db, c, args);
  }
}

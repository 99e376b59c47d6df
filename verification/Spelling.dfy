/** Which command a name on the wire is. The names are told apart by their length and first four
    letters. */
module Spelling {
  import opened Bytes
  import opened S = CommandSpec
  import I = Interpreter

  function LetterAt(b: bytes, i: nat): nat { if i < |b| then b[i] else 0 }

  /** The length and the first four letters, as one number. */
  function Letters(b: bytes): nat {
    |b| + 16 * (LetterAt(b, 0) + 256 * (LetterAt(b, 1) + 256 * (LetterAt(b, 2) + 256 * LetterAt(b, 3))))
  }

  function CharAt(s: string, i: nat): nat { if i < |s| then s[i] as int else 0 }

  lemma Spell(s: string, a: nat, b: nat, c: nat, d: nat)
    requires CharAt(s, 0) == a < 256 && CharAt(s, 1) == b < 256 && CharAt(s, 2) == c < 256 && CharAt(s, 3) == d < 256
    ensures Letters(Ascii(s)) == |s| + 16 * (a + 256 * (b + 256 * (c + 256 * d)))
  {
  }

  /** Names with different letters are different, and a name is itself. */
  lemma Apart(name: string)
    ensures I.Is(Ascii(name), name)
    ensures forall s: string {:trigger I.Is(Ascii(name), s)} ::
              Letters(Ascii(name)) != Letters(Ascii(s)) ==> !I.Is(Ascii(name), s)
  {
  }

  lemma StringLetters()
    ensures Letters(Ascii("GET")) == 88364147
    ensures Letters(Ascii("SET")) == 88364339
    ensures Letters(Ascii("SETNX")) == 21026329909
    ensures Letters(Ascii("SETEX")) == 18610410805
    ensures Letters(Ascii("PSETEX")) == 22621271302
    ensures Letters(Ascii("GETSET")) == 22368506998
    ensures Letters(Ascii("GETDEL")) == 18341975158
    ensures Letters(Ascii("GETEX")) == 18610410613
    ensures Letters(Ascii("STRLEN")) == 20487423286
    ensures Letters(Ascii("APPEND")) == 18606261270
    ensures Letters(Ascii("INCR")) == 22082282644
    ensures Letters(Ascii("DECR")) == 22082245700
    ensures Letters(Ascii("INCRBY")) == 22082282646
    ensures Letters(Ascii("DECRBY")) == 22082245702
  {
    hide Letters, Ascii;
    Spell("GET", 71, 69, 84, 0);
    Spell("SET", 83, 69, 84, 0);
    Spell("SETNX", 83, 69, 84, 78);
    Spell("SETEX", 83, 69, 84, 69);
    Spell("PSETEX", 80, 83, 69, 84);
    Spell("GETSET", 71, 69, 84, 83);
    Spell("GETDEL", 71, 69, 84, 68);
    Spell("GETEX", 71, 69, 84, 69);
    Spell("STRLEN", 83, 84, 82, 76);
    Spell("APPEND", 65, 80, 80, 69);
    Spell("INCR", 73, 78, 67, 82);
    Spell("DECR", 68, 69, 67, 82);
    Spell("INCRBY", 73, 78, 67, 82);
    Spell("DECRBY", 68, 69, 67, 82);
  }

  lemma DeadlineLetters()
    ensures Letters(Ascii("EXPIRE")) == 19680035926
    ensures Letters(Ascii("PEXPIRE")) == 21567395079
    ensures Letters(Ascii("EXPIREAT")) == 19680035928
    ensures Letters(Ascii("PEXPIREAT")) == 21567395081
    ensures Letters(Ascii("TTL")) == 80037187
    ensures Letters(Ascii("PTTL")) == 20489520388
    ensures Letters(Ascii("PERSIST")) == 22366409991
    ensures Letters(Ascii("TYPE")) == 18606298436
  {
    hide Letters, Ascii;
    Spell("EXPIRE", 69, 88, 80, 73);
    Spell("PEXPIRE", 80, 69, 88, 80);
    Spell("EXPIREAT", 69, 88, 80, 73);
    Spell("PEXPIREAT", 80, 69, 88, 80);
    Spell("TTL", 84, 84, 76, 0);
    Spell("PTTL", 80, 84, 84, 76);
    Spell("PERSIST", 80, 69, 82, 83);
    Spell("TYPE", 84, 89, 80, 69);
  }

  lemma HashLetters()
    ensures Letters(Ascii("HSET")) == 22621271172
    ensures Letters(Ascii("HMSET")) == 18609394821
    ensures Letters(Ascii("HGET")) == 22621222020
    ensures Letters(Ascii("HMGET")) == 18596811909
    ensures Letters(Ascii("HGETALL")) == 22621222023
    ensures Letters(Ascii("HKEYS")) == 23963415685
    ensures Letters(Ascii("HVALS")) == 20469605509
    ensures Letters(Ascii("HDEL")) == 20473726084
    ensures Letters(Ascii("HEXISTS")) == 19688346759
    ensures Letters(Ascii("HLEN")) == 21010629764
    ensures Letters(Ascii("HINCRBY")) == 18067264647
  {
    hide Letters, Ascii;
    Spell("HSET", 72, 83, 69, 84);
    Spell("HMSET", 72, 77, 83, 69);
    Spell("HGET", 72, 71, 69, 84);
    Spell("HMGET", 72, 77, 71, 69);
    Spell("HGETALL", 72, 71, 69, 84);
    Spell("HKEYS", 72, 75, 69, 89);
    Spell("HVALS", 72, 86, 65, 76);
    Spell("HDEL", 72, 68, 69, 76);
    Spell("HEXISTS", 72, 69, 88, 73);
    Spell("HLEN", 72, 76, 69, 78);
    Spell("HINCRBY", 72, 73, 78, 67);
  }

  lemma SetLetters()
    ensures Letters(Ascii("SADD")) == 18325181748
    ensures Letters(Ascii("SREM")) == 20742219060
    ensures Letters(Ascii("SISMEMBER")) == 20756862265
    ensures Letters(Ascii("SMISMEMBER")) == 22357005626
    ensures Letters(Ascii("SMEMBERS")) == 20742198584
    ensures Letters(Ascii("SCARD")) == 22080140597
  {
    hide Letters, Ascii;
    Spell("SADD", 83, 65, 68, 68);
    Spell("SREM", 83, 82, 69, 77);
    Spell("SISMEMBER", 83, 73, 83, 77);
    Spell("SMISMEMBER", 83, 77, 73, 83);
    Spell("SMEMBERS", 83, 77, 69, 77);
    Spell("SCARD", 83, 67, 65, 82);
  }

  lemma ListLetters()
    ensures Letters(Ascii("LPUSH")) == 22369600709
    ensures Letters(Ascii("RPUSH")) == 22369600805
    ensures Letters(Ascii("LPUSHX")) == 22369600710
    ensures Letters(Ascii("RPUSHX")) == 22369600806
    ensures Letters(Ascii("LRANGE")) == 21006460102
    ensures Letters(Ascii("LTRIM")) == 19682116805
    ensures Letters(Ascii("LLEN")) == 21010629828
    ensures Letters(Ascii("LPOP")) == 21558002884
    ensures Letters(Ascii("RPOP")) == 21558002980
  {
    hide Letters, Ascii;
    Spell("LPUSH", 76, 80, 85, 83);
    Spell("RPUSH", 82, 80, 85, 83);
    Spell("LPUSHX", 76, 80, 85, 83);
    Spell("RPUSHX", 82, 80, 85, 83);
    Spell("LRANGE", 76, 82, 65, 78);
    Spell("LTRIM", 76, 84, 82, 73);
    Spell("LLEN", 76, 76, 69, 78);
    Spell("LPOP", 76, 80, 79, 80);
    Spell("RPOP", 82, 80, 79, 80);
  }

  lemma KeyspaceLetters()
    ensures Letters(Ascii("MGET")) == 22621222100
    ensures Letters(Ascii("MSET")) == 22621271252
    ensures Letters(Ascii("MSETNX")) == 22621271254
    ensures Letters(Ascii("DEL")) == 79975491
    ensures Letters(Ascii("UNLINK")) == 19675800918
    ensures Letters(Ascii("EXISTS")) == 22357050454
    ensures Letters(Ascii("SCAN")) == 21006398772
    ensures Letters(Ascii("KEYS")) == 22373749940
    ensures Letters(Ascii("DBSIZE")) == 19683091526
    ensures Letters(Ascii("FLUSHDB")) == 22369584231
    ensures Letters(Ascii("FLUSHALL")) == 22369584232
  {
    hide Letters, Ascii;
    Spell("MGET", 77, 71, 69, 84);
    Spell("MSET", 77, 83, 69, 84);
    Spell("MSETNX", 77, 83, 69, 84);
    Spell("DEL", 68, 69, 76, 0);
    Spell("UNLINK", 85, 78, 76, 73);
    Spell("EXISTS", 69, 88, 73, 83);
    Spell("SCAN", 83, 67, 65, 78);
    Spell("KEYS", 75, 69, 89, 83);
    Spell("DBSIZE", 68, 66, 83, 73);
    Spell("FLUSHDB", 70, 76, 85, 83);
    Spell("FLUSHALL", 70, 76, 85, 83);
  }

  lemma String1Commands()
    ensures I.StringCommandOf(Ascii("GET")) == Some(I.Get)
    ensures I.StringCommandOf(Ascii("SET")) == Some(I.Set)
    ensures I.StringCommandOf(Ascii("SETNX")) == Some(I.SetNX)
    ensures I.StringCommandOf(Ascii("SETEX")) == Some(I.SetEX(false))
  {
    StringLetters();
    DeadlineLetters();
    Apart("GET");
    Apart("SET");
    Apart("SETNX");
    Apart("SETEX");
    hide Letters, Ascii, I.Is;
  }

  lemma String2Commands()
    ensures I.StringCommandOf(Ascii("PSETEX")) == Some(I.SetEX(true))
    ensures I.StringCommandOf(Ascii("GETSET")) == Some(I.GetSet)
    ensures I.StringCommandOf(Ascii("GETDEL")) == Some(I.GetDel)
    ensures I.StringCommandOf(Ascii("GETEX")) == Some(I.GetEx)
  {
    StringLetters();
    DeadlineLetters();
    Apart("PSETEX");
    Apart("GETSET");
    Apart("GETDEL");
    Apart("GETEX");
    hide Letters, Ascii, I.Is;
  }

  lemma String3Commands()
    ensures I.StringCommandOf(Ascii("STRLEN")) == Some(I.StrLen)
    ensures I.StringCommandOf(Ascii("APPEND")) == Some(I.Append)
    ensures I.StringCommandOf(Ascii("INCR")) == Some(I.Increment(1))
    ensures I.StringCommandOf(Ascii("DECR")) == Some(I.Increment(-1))
  {
    StringLetters();
    DeadlineLetters();
    Apart("STRLEN");
    Apart("APPEND");
    Apart("INCR");
    Apart("DECR");
    hide Letters, Ascii, I.Is;
  }

  lemma String4Commands()
    ensures I.StringCommandOf(Ascii("INCRBY")) == Some(I.IncrementArg(false))
    ensures I.StringCommandOf(Ascii("DECRBY")) == Some(I.IncrementArg(true))
  {
    StringLetters();
    DeadlineLetters();
    Apart("INCRBY");
    Apart("DECRBY");
    hide Letters, Ascii, I.Is;
  }

  lemma StringNames()
    ensures I.CommandOf(Ascii("GET")) == Some(I.OnKey(I.Get))
    ensures I.CommandOf(Ascii("SET")) == Some(I.OnKey(I.Set))
    ensures I.CommandOf(Ascii("SETNX")) == Some(I.OnKey(I.SetNX))
    ensures I.CommandOf(Ascii("SETEX")) == Some(I.OnKey(I.SetEX(false)))
    ensures I.CommandOf(Ascii("PSETEX")) == Some(I.OnKey(I.SetEX(true)))
    ensures I.CommandOf(Ascii("GETSET")) == Some(I.OnKey(I.GetSet))
    ensures I.CommandOf(Ascii("GETDEL")) == Some(I.OnKey(I.GetDel))
    ensures I.CommandOf(Ascii("GETEX")) == Some(I.OnKey(I.GetEx))
    ensures I.CommandOf(Ascii("STRLEN")) == Some(I.OnKey(I.StrLen))
    ensures I.CommandOf(Ascii("APPEND")) == Some(I.OnKey(I.Append))
    ensures I.CommandOf(Ascii("INCR")) == Some(I.OnKey(I.Increment(1)))
    ensures I.CommandOf(Ascii("DECR")) == Some(I.OnKey(I.Increment(-1)))
    ensures I.CommandOf(Ascii("INCRBY")) == Some(I.OnKey(I.IncrementArg(false)))
    ensures I.CommandOf(Ascii("DECRBY")) == Some(I.OnKey(I.IncrementArg(true)))
  {
    String1Commands();
    String2Commands();
    String3Commands();
    String4Commands();
    hide Letters, Ascii, I.Is, I.StringCommandOf, I.CollectionCommandOf;
  }

  lemma Deadline1Commands()
    ensures I.StringCommandOf(Ascii("EXPIRE")) == Some(I.Expire(Ascii("EXPIRE")))
    ensures I.StringCommandOf(Ascii("PEXPIRE")) == Some(I.Expire(Ascii("PEXPIRE")))
    ensures I.StringCommandOf(Ascii("EXPIREAT")) == Some(I.Expire(Ascii("EXPIREAT")))
    ensures I.StringCommandOf(Ascii("PEXPIREAT")) == Some(I.Expire(Ascii("PEXPIREAT")))
  {
    StringLetters();
    DeadlineLetters();
    Apart("EXPIRE");
    Apart("PEXPIRE");
    Apart("EXPIREAT");
    Apart("PEXPIREAT");
    hide Letters, Ascii, I.Is;
  }

  lemma Deadline2Commands()
    ensures I.StringCommandOf(Ascii("TTL")) == Some(I.Ttl(false))
    ensures I.StringCommandOf(Ascii("PTTL")) == Some(I.Ttl(true))
    ensures I.StringCommandOf(Ascii("PERSIST")) == Some(I.Persist)
    ensures I.StringCommandOf(Ascii("TYPE")) == Some(I.TypeName)
  {
    StringLetters();
    DeadlineLetters();
    Apart("TTL");
    Apart("PTTL");
    Apart("PERSIST");
    Apart("TYPE");
    hide Letters, Ascii, I.Is;
  }

  lemma DeadlineNames()
    ensures I.CommandOf(Ascii("EXPIRE")) == Some(I.OnKey(I.Expire(Ascii("EXPIRE"))))
    ensures I.CommandOf(Ascii("PEXPIRE")) == Some(I.OnKey(I.Expire(Ascii("PEXPIRE"))))
    ensures I.CommandOf(Ascii("EXPIREAT")) == Some(I.OnKey(I.Expire(Ascii("EXPIREAT"))))
    ensures I.CommandOf(Ascii("PEXPIREAT")) == Some(I.OnKey(I.Expire(Ascii("PEXPIREAT"))))
    ensures I.CommandOf(Ascii("TTL")) == Some(I.OnKey(I.Ttl(false)))
    ensures I.CommandOf(Ascii("PTTL")) == Some(I.OnKey(I.Ttl(true)))
    ensures I.CommandOf(Ascii("PERSIST")) == Some(I.OnKey(I.Persist))
    ensures I.CommandOf(Ascii("TYPE")) == Some(I.OnKey(I.TypeName))
  {
    Deadline1Commands();
    Deadline2Commands();
    hide Letters, Ascii, I.Is, I.StringCommandOf, I.CollectionCommandOf;
  }

  lemma Hash1IsNoString()
    ensures I.StringCommandOf(Ascii("HSET")).None?
    ensures I.StringCommandOf(Ascii("HMSET")).None?
    ensures I.StringCommandOf(Ascii("HGET")).None?
    ensures I.StringCommandOf(Ascii("HMGET")).None?
  {
    StringLetters();
    DeadlineLetters();
    HashLetters();
    Apart("HSET");
    Apart("HMSET");
    Apart("HGET");
    Apart("HMGET");
    hide Letters, Ascii, I.Is;
  }

  lemma Hash1Commands()
    ensures I.CollectionCommandOf(Ascii("HSET")) == Some(I.HSet)
    ensures I.CollectionCommandOf(Ascii("HMSET")) == Some(I.HSet)
    ensures I.CollectionCommandOf(Ascii("HGET")) == Some(I.HGet)
    ensures I.CollectionCommandOf(Ascii("HMGET")) == Some(I.HMGet)
  {
    HashLetters();
    SetLetters();
    ListLetters();
    Apart("HSET");
    Apart("HMSET");
    Apart("HGET");
    Apart("HMGET");
    hide Letters, Ascii, I.Is;
  }

  lemma Hash2IsNoString()
    ensures I.StringCommandOf(Ascii("HGETALL")).None?
    ensures I.StringCommandOf(Ascii("HKEYS")).None?
    ensures I.StringCommandOf(Ascii("HVALS")).None?
    ensures I.StringCommandOf(Ascii("HDEL")).None?
  {
    StringLetters();
    DeadlineLetters();
    HashLetters();
    Apart("HGETALL");
    Apart("HKEYS");
    Apart("HVALS");
    Apart("HDEL");
    hide Letters, Ascii, I.Is;
  }

  lemma Hash2Commands()
    ensures I.CollectionCommandOf(Ascii("HGETALL")) == Some(I.HList(S.Both))
    ensures I.CollectionCommandOf(Ascii("HKEYS")) == Some(I.HList(S.Names))
    ensures I.CollectionCommandOf(Ascii("HVALS")) == Some(I.HList(S.Values))
    ensures I.CollectionCommandOf(Ascii("HDEL")) == Some(I.HDel)
  {
    HashLetters();
    SetLetters();
    ListLetters();
    Apart("HGETALL");
    Apart("HKEYS");
    Apart("HVALS");
    Apart("HDEL");
    hide Letters, Ascii, I.Is;
  }

  lemma Hash3IsNoString()
    ensures I.StringCommandOf(Ascii("HEXISTS")).None?
    ensures I.StringCommandOf(Ascii("HLEN")).None?
    ensures I.StringCommandOf(Ascii("HINCRBY")).None?
  {
    StringLetters();
    DeadlineLetters();
    HashLetters();
    Apart("HEXISTS");
    Apart("HLEN");
    Apart("HINCRBY");
    hide Letters, Ascii, I.Is;
  }

  lemma Hash3Commands()
    ensures I.CollectionCommandOf(Ascii("HEXISTS")) == Some(I.HExists)
    ensures I.CollectionCommandOf(Ascii("HLEN")) == Some(I.HLen)
    ensures I.CollectionCommandOf(Ascii("HINCRBY")) == Some(I.HIncrBy)
  {
    HashLetters();
    SetLetters();
    ListLetters();
    Apart("HEXISTS");
    Apart("HLEN");
    Apart("HINCRBY");
    hide Letters, Ascii, I.Is;
  }

  lemma HashNames()
    ensures I.CommandOf(Ascii("HSET")) == Some(I.OnKey(I.HSet))
    ensures I.CommandOf(Ascii("HMSET")) == Some(I.OnKey(I.HSet))
    ensures I.CommandOf(Ascii("HGET")) == Some(I.OnKey(I.HGet))
    ensures I.CommandOf(Ascii("HMGET")) == Some(I.OnKey(I.HMGet))
    ensures I.CommandOf(Ascii("HGETALL")) == Some(I.OnKey(I.HList(S.Both)))
    ensures I.CommandOf(Ascii("HKEYS")) == Some(I.OnKey(I.HList(S.Names)))
    ensures I.CommandOf(Ascii("HVALS")) == Some(I.OnKey(I.HList(S.Values)))
    ensures I.CommandOf(Ascii("HDEL")) == Some(I.OnKey(I.HDel))
    ensures I.CommandOf(Ascii("HEXISTS")) == Some(I.OnKey(I.HExists))
    ensures I.CommandOf(Ascii("HLEN")) == Some(I.OnKey(I.HLen))
    ensures I.CommandOf(Ascii("HINCRBY")) == Some(I.OnKey(I.HIncrBy))
  {
    Hash1IsNoString();
    Hash1Commands();
    Hash2IsNoString();
    Hash2Commands();
    Hash3IsNoString();
    Hash3Commands();
    hide Letters, Ascii, I.Is, I.StringCommandOf, I.CollectionCommandOf;
  }

  lemma Set1IsNoString()
    ensures I.StringCommandOf(Ascii("SADD")).None?
    ensures I.StringCommandOf(Ascii("SREM")).None?
    ensures I.StringCommandOf(Ascii("SISMEMBER")).None?
    ensures I.StringCommandOf(Ascii("SMISMEMBER")).None?
  {
    StringLetters();
    DeadlineLetters();
    SetLetters();
    Apart("SADD");
    Apart("SREM");
    Apart("SISMEMBER");
    Apart("SMISMEMBER");
    hide Letters, Ascii, I.Is;
  }

  lemma Set1Commands()
    ensures I.CollectionCommandOf(Ascii("SADD")) == Some(I.SAdd)
    ensures I.CollectionCommandOf(Ascii("SREM")) == Some(I.SRem)
    ensures I.CollectionCommandOf(Ascii("SISMEMBER")) == Some(I.SIsMember)
    ensures I.CollectionCommandOf(Ascii("SMISMEMBER")) == Some(I.SMIsMember)
  {
    HashLetters();
    SetLetters();
    ListLetters();
    Apart("SADD");
    Apart("SREM");
    Apart("SISMEMBER");
    Apart("SMISMEMBER");
    hide Letters, Ascii, I.Is;
  }

  lemma Set2IsNoString()
    ensures I.StringCommandOf(Ascii("SMEMBERS")).None?
    ensures I.StringCommandOf(Ascii("SCARD")).None?
  {
    StringLetters();
    DeadlineLetters();
    SetLetters();
    Apart("SMEMBERS");
    Apart("SCARD");
    hide Letters, Ascii, I.Is;
  }

  lemma Set2Commands()
    ensures I.CollectionCommandOf(Ascii("SMEMBERS")) == Some(I.SMembers)
    ensures I.CollectionCommandOf(Ascii("SCARD")) == Some(I.SCard)
  {
    HashLetters();
    SetLetters();
    ListLetters();
    Apart("SMEMBERS");
    Apart("SCARD");
    hide Letters, Ascii, I.Is;
  }

  lemma SetNames()
    ensures I.CommandOf(Ascii("SADD")) == Some(I.OnKey(I.SAdd))
    ensures I.CommandOf(Ascii("SREM")) == Some(I.OnKey(I.SRem))
    ensures I.CommandOf(Ascii("SISMEMBER")) == Some(I.OnKey(I.SIsMember))
    ensures I.CommandOf(Ascii("SMISMEMBER")) == Some(I.OnKey(I.SMIsMember))
    ensures I.CommandOf(Ascii("SMEMBERS")) == Some(I.OnKey(I.SMembers))
    ensures I.CommandOf(Ascii("SCARD")) == Some(I.OnKey(I.SCard))
  {
    Set1IsNoString();
    Set1Commands();
    Set2IsNoString();
    Set2Commands();
    hide Letters, Ascii, I.Is, I.StringCommandOf, I.CollectionCommandOf;
  }

  lemma List1IsNoString()
    ensures I.StringCommandOf(Ascii("LPUSH")).None?
    ensures I.StringCommandOf(Ascii("RPUSH")).None?
    ensures I.StringCommandOf(Ascii("LPUSHX")).None?
    ensures I.StringCommandOf(Ascii("RPUSHX")).None?
  {
    StringLetters();
    DeadlineLetters();
    ListLetters();
    Apart("LPUSH");
    Apart("RPUSH");
    Apart("LPUSHX");
    Apart("RPUSHX");
    hide Letters, Ascii, I.Is;
  }

  lemma List1Commands()
    ensures I.CollectionCommandOf(Ascii("LPUSH")) == Some(I.Push(true, false))
    ensures I.CollectionCommandOf(Ascii("RPUSH")) == Some(I.Push(false, false))
    ensures I.CollectionCommandOf(Ascii("LPUSHX")) == Some(I.Push(true, true))
    ensures I.CollectionCommandOf(Ascii("RPUSHX")) == Some(I.Push(false, true))
  {
    HashLetters();
    SetLetters();
    ListLetters();
    Apart("LPUSH");
    Apart("RPUSH");
    Apart("LPUSHX");
    Apart("RPUSHX");
    hide Letters, Ascii, I.Is;
  }

  lemma List2IsNoString()
    ensures I.StringCommandOf(Ascii("LRANGE")).None?
    ensures I.StringCommandOf(Ascii("LTRIM")).None?
    ensures I.StringCommandOf(Ascii("LLEN")).None?
    ensures I.StringCommandOf(Ascii("LPOP")).None?
  {
    StringLetters();
    DeadlineLetters();
    ListLetters();
    Apart("LRANGE");
    Apart("LTRIM");
    Apart("LLEN");
    Apart("LPOP");
    hide Letters, Ascii, I.Is;
  }

  lemma List2Commands()
    ensures I.CollectionCommandOf(Ascii("LRANGE")) == Some(I.Range(false))
    ensures I.CollectionCommandOf(Ascii("LTRIM")) == Some(I.Range(true))
    ensures I.CollectionCommandOf(Ascii("LLEN")) == Some(I.LLen)
    ensures I.CollectionCommandOf(Ascii("LPOP")) == Some(I.Pop(true))
  {
    HashLetters();
    SetLetters();
    ListLetters();
    Apart("LRANGE");
    Apart("LTRIM");
    Apart("LLEN");
    Apart("LPOP");
    hide Letters, Ascii, I.Is;
  }

  lemma List3IsNoString()
    ensures I.StringCommandOf(Ascii("RPOP")).None?
  {
    StringLetters();
    DeadlineLetters();
    ListLetters();
    Apart("RPOP");
    hide Letters, Ascii, I.Is;
  }

  lemma List3Commands()
    ensures I.CollectionCommandOf(Ascii("RPOP")) == Some(I.Pop(false))
  {
    HashLetters();
    SetLetters();
    ListLetters();
    Apart("RPOP");
    hide Letters, Ascii, I.Is;
  }

  lemma ListNames()
    ensures I.CommandOf(Ascii("LPUSH")) == Some(I.OnKey(I.Push(true, false)))
    ensures I.CommandOf(Ascii("RPUSH")) == Some(I.OnKey(I.Push(false, false)))
    ensures I.CommandOf(Ascii("LPUSHX")) == Some(I.OnKey(I.Push(true, true)))
    ensures I.CommandOf(Ascii("RPUSHX")) == Some(I.OnKey(I.Push(false, true)))
    ensures I.CommandOf(Ascii("LRANGE")) == Some(I.OnKey(I.Range(false)))
    ensures I.CommandOf(Ascii("LTRIM")) == Some(I.OnKey(I.Range(true)))
    ensures I.CommandOf(Ascii("LLEN")) == Some(I.OnKey(I.LLen))
    ensures I.CommandOf(Ascii("LPOP")) == Some(I.OnKey(I.Pop(true)))
    ensures I.CommandOf(Ascii("RPOP")) == Some(I.OnKey(I.Pop(false)))
  {
    List1IsNoString();
    List1Commands();
    List2IsNoString();
    List2Commands();
    List3IsNoString();
    List3Commands();
    hide Letters, Ascii, I.Is, I.StringCommandOf, I.CollectionCommandOf;
  }

  lemma Keyspace1IsNoString()
    ensures I.StringCommandOf(Ascii("MGET")).None?
    ensures I.StringCommandOf(Ascii("MSET")).None?
    ensures I.StringCommandOf(Ascii("MSETNX")).None?
    ensures I.StringCommandOf(Ascii("DEL")).None?
  {
    StringLetters();
    DeadlineLetters();
    KeyspaceLetters();
    Apart("MGET");
    Apart("MSET");
    Apart("MSETNX");
    Apart("DEL");
    hide Letters, Ascii, I.Is;
  }

  lemma Keyspace1IsNoCollection()
    ensures I.CollectionCommandOf(Ascii("MGET")).None?
    ensures I.CollectionCommandOf(Ascii("MSET")).None?
    ensures I.CollectionCommandOf(Ascii("MSETNX")).None?
    ensures I.CollectionCommandOf(Ascii("DEL")).None?
  {
    HashLetters();
    SetLetters();
    ListLetters();
    KeyspaceLetters();
    Apart("MGET");
    Apart("MSET");
    Apart("MSETNX");
    Apart("DEL");
    hide Letters, Ascii, I.Is;
  }

  lemma Keyspace2IsNoString()
    ensures I.StringCommandOf(Ascii("UNLINK")).None?
    ensures I.StringCommandOf(Ascii("EXISTS")).None?
    ensures I.StringCommandOf(Ascii("SCAN")).None?
    ensures I.StringCommandOf(Ascii("KEYS")).None?
  {
    StringLetters();
    DeadlineLetters();
    KeyspaceLetters();
    Apart("UNLINK");
    Apart("EXISTS");
    Apart("SCAN");
    Apart("KEYS");
    hide Letters, Ascii, I.Is;
  }

  lemma Keyspace2IsNoCollection()
    ensures I.CollectionCommandOf(Ascii("UNLINK")).None?
    ensures I.CollectionCommandOf(Ascii("EXISTS")).None?
    ensures I.CollectionCommandOf(Ascii("SCAN")).None?
    ensures I.CollectionCommandOf(Ascii("KEYS")).None?
  {
    HashLetters();
    SetLetters();
    ListLetters();
    KeyspaceLetters();
    Apart("UNLINK");
    Apart("EXISTS");
    Apart("SCAN");
    Apart("KEYS");
    hide Letters, Ascii, I.Is;
  }

  lemma Keyspace3IsNoString()
    ensures I.StringCommandOf(Ascii("DBSIZE")).None?
    ensures I.StringCommandOf(Ascii("FLUSHDB")).None?
    ensures I.StringCommandOf(Ascii("FLUSHALL")).None?
  {
    StringLetters();
    DeadlineLetters();
    KeyspaceLetters();
    Apart("DBSIZE");
    Apart("FLUSHDB");
    Apart("FLUSHALL");
    hide Letters, Ascii, I.Is;
  }

  lemma Keyspace3IsNoCollection()
    ensures I.CollectionCommandOf(Ascii("DBSIZE")).None?
    ensures I.CollectionCommandOf(Ascii("FLUSHDB")).None?
    ensures I.CollectionCommandOf(Ascii("FLUSHALL")).None?
  {
    HashLetters();
    SetLetters();
    ListLetters();
    KeyspaceLetters();
    Apart("DBSIZE");
    Apart("FLUSHDB");
    Apart("FLUSHALL");
    hide Letters, Ascii, I.Is;
  }

  lemma KeyspaceNames()
    ensures I.CommandOf(Ascii("MGET")) == Some(I.MGet)
    ensures I.CommandOf(Ascii("MSET")) == Some(I.MSet)
    ensures I.CommandOf(Ascii("MSETNX")) == Some(I.MSetNX)
    ensures I.CommandOf(Ascii("DEL")) == Some(I.Del)
    ensures I.CommandOf(Ascii("UNLINK")) == Some(I.Del)
    ensures I.CommandOf(Ascii("EXISTS")) == Some(I.Exists)
    ensures I.CommandOf(Ascii("SCAN")) == Some(I.Scan)
    ensures I.CommandOf(Ascii("KEYS")) == Some(I.KeysMatching)
    ensures I.CommandOf(Ascii("DBSIZE")) == Some(I.DbSize)
    ensures I.CommandOf(Ascii("FLUSHDB")) == Some(I.Flush)
    ensures I.CommandOf(Ascii("FLUSHALL")) == Some(I.Flush)
  {
    Keyspace1IsNoString();
    Keyspace1IsNoCollection();
    Keyspace2IsNoString();
    Keyspace2IsNoCollection();
    Keyspace3IsNoString();
    Keyspace3IsNoCollection();
    KeyspaceLetters();
    Apart("MGET");
    Apart("MSET");
    Apart("MSETNX");
    Apart("DEL");
    Apart("UNLINK");
    Apart("EXISTS");
    Apart("SCAN");
    Apart("KEYS");
    Apart("DBSIZE");
    Apart("FLUSHDB");
    Apart("FLUSHALL");
    hide Letters, Ascii, I.Is, I.StringCommandOf, I.CollectionCommandOf;
  }

  // ---------------------------------------------------------------- options of SET and GETEX

  lemma OptionLetters()
    ensures var b := Ascii("EX"); |b| == 2 && b[0] == 69 && b[1] == 88
    ensures var b := Ascii("PX"); |b| == 2 && b[0] == 80 && b[1] == 88
    ensures var b := Ascii("NX"); |b| == 2 && b[0] == 78 && b[1] == 88
    ensures var b := Ascii("XX"); |b| == 2 && b[0] == 88 && b[1] == 88
    ensures var b := Ascii("EXAT"); |b| == 4 && b[0] == 69 && b[2] == 65 && b[3] == 84
    ensures var b := Ascii("PXAT"); |b| == 4 && b[0] == 80 && b[2] == 65 && b[3] == 84
    ensures var b := Ascii("GET"); |b| == 3
    ensures var b := Ascii("KEEPTTL"); |b| == 7
    ensures Ascii("P") == [80] && Ascii("AT") == [65, 84]
  {
  }

  /** EX and PX count from now, EXAT and PXAT from the epoch; those with P in milliseconds. */
  lemma Units()
    ensures forall s <- {"EX", "PX", "EXAT", "PXAT"} :: IsUnitName(Ascii(s))
    ensures UnitOf(Ascii("EX")) == 1_000_000_000 && !IsAbsolute(Ascii("EX"))
    ensures UnitOf(Ascii("PX")) == 1_000_000 && !IsAbsolute(Ascii("PX"))
    ensures UnitOf(Ascii("EXAT")) == 1_000_000_000 && IsAbsolute(Ascii("EXAT"))
    ensures UnitOf(Ascii("PXAT")) == 1_000_000 && IsAbsolute(Ascii("PXAT"))
  {
    OptionLetters();
    hide Ascii;
    assert Ascii("EX")[0..] == Ascii("EX") && Ascii("PX")[0..] == Ascii("PX");
    assert Ascii("EXAT")[2..] == [65, 84] && Ascii("PXAT")[2..] == [65, 84];
  }

  lemma ExpireLetters()
    ensures var b := Ascii("EXPIRE"); |b| == 6 && b[0] == 69 && b[4] == 82
    ensures var b := Ascii("PEXPIRE"); |b| == 7 && b[0] == 80 && b[5] == 82
    ensures var b := Ascii("EXPIREAT"); |b| == 8 && b[0] == 69 && b[6] == 65 && b[7] == 84
    ensures var b := Ascii("PEXPIREAT"); |b| == 9 && b[0] == 80 && b[7] == 65 && b[8] == 84
    ensures Ascii("P") == [80] && Ascii("AT") == [65, 84]
  {
  }

  lemma ExpireUnits()
    ensures UnitOf(Ascii("EXPIRE")) == 1_000_000_000 && !IsAbsolute(Ascii("EXPIRE"))
    ensures UnitOf(Ascii("PEXPIRE")) == 1_000_000 && !IsAbsolute(Ascii("PEXPIRE"))
    ensures UnitOf(Ascii("EXPIREAT")) == 1_000_000_000 && IsAbsolute(Ascii("EXPIREAT"))
    ensures UnitOf(Ascii("PEXPIREAT")) == 1_000_000 && IsAbsolute(Ascii("PEXPIREAT"))
  {
    ExpireLetters();
    hide Ascii;
    assert Ascii("EXPIREAT")[6..] == [65, 84] && Ascii("PEXPIREAT")[7..] == [65, 84];
    assert Ascii("EXPIRE")[4..][0] == 82 && Ascii("PEXPIRE")[5..][0] == 82;
  }

  /** The flags of SET are no units, and each sets its own option. */
  lemma Flags(o: SetOptions)
    ensures forall s <- {"NX", "XX", "GET", "KEEPTTL"} :: !IsUnitName(Ascii(s))
    ensures AddFlag(o, Ascii("NX")) == if o.xx then Bad(SyntaxError()) else Good(o.(nx := true))
    ensures AddFlag(o, Ascii("XX")) == if o.nx then Bad(SyntaxError()) else Good(o.(xx := true))
    ensures AddFlag(o, Ascii("GET")) == Good(o.(get := true))
    ensures AddFlag(o, Ascii("KEEPTTL")) == if o.hasExpiry then Bad(SyntaxError()) else Good(o.(keepTTL := true))
  {
    OptionLetters();
    hide Ascii;
  }
}

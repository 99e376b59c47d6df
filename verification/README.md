# KVLite, verified

KVLite keeps strings, hashes, sets, lists and deadlines in one flat engine of byte keys and byte
values, and serves them to Go callers, Redis clients, an HTTP owner and C callers. One logical key
may be spread over many physical records, its type is found by probing, deadlines live in two
places, and reads delete what has expired. This project models those layers and proves what they
keep.

The modules follow the layers:

* Records: `Bytes`, `Decimal`, `Keys`, `Envelope`, `ListCodec`, `Layout`, and `Engine` with `Sorting`.
  `Layout.At` gathers the records of one logical key.
* The Redis data plane: `RedisStorage` holds the helpers over the engine. `Probe` says what each does
  to the records of one key, and `Meaning` what that means for the typed entry they stand for. The
  commands are in `StringCommands`, `HashCommands`, `SetCommands`, `ListCommands`, `KeyCommands` and
  `KeyspaceCommands`. Their specification on typed entries is `CommandSpec`, on the whole keyspace
  `Interpreter`. `View` is the keyspace a store shows, `Dispatch` and `Core` are the operations,
  `Runs` is the refinement over whole runs, and `Laws` what the specification promises.
* What a client is told: `Spelling` says which command each wire name means, `Client` what a request
  then does, and `StringLaws`, `HashLaws`, `SetLaws`, `ListLaws` and `KeyLaws` state, for every
  command by the name it is sent under, its replies and what it leaves, in literal names, units and
  texts.
* The wire: `Resp` and `RespStream`, `Wire` with the protocol in literal bytes, and `Connection`,
  where a pipeline of bytes meets the data plane. `Formats` has the storage records in literal bytes.
* Storage hooks: `Compaction`.
* Protocols as step systems, every interleaving allowed: `Replacement`, `SetConservation`,
  `ListConservation`, `Manifest` (with `Utf8`), `ServerLifecycle` and `Cursors`.
* The C interface and the module bridge: `CApi`.

## Where the code does less than one might expect

* DEL and UNLINK count keys that have expired but still have records
  (`KeyspaceCommands.DeadKeyIsCounted`). The exact condition is
  `KeyspaceCommands.DeleteCountsLingering`.
* A list comes back from its record only while its count and lengths fit 32 bits
  (`ListCodec.ListRoundTrip`, `ListCodec.LongListIsLost`), which no push looks at
  (`ListCommands.PushValues`); a key is recovered from its records only under 2^32 bytes
  (`Keys.NamespacedLogicalKey`, `Keys.LongKeyIsLost`).
* A reply with a null inside an array, such as MGET's, is not a value the project's own reader
  accepts (`Laws.MissingKeyIsUnreadable`; `Resp.ReadBack` gives the exact set).
* A stored string deadline wraps when the clock moves between its two readings and the sum leaves
  64 bits (`Deadline.StoredIsNeverEarlier`, `Deadline.StoredCanWrap`).
* PutStoredValue adds clock and TTL unchecked: when the sum leaves 64 bits the value never expires
  (`Core.NewDeadlineIsExact`, `Core.LongestTtlNeverExpires`). The reference keyspace of `Core`
  follows the code here.
* A driver registered with metadata that is not UTF-8 does not recognise its own manifest
  (`Manifest.RevalidatesIff`, `Manifest.RawMetadataIsNotRecognised`), and another driver can open
  the directory beside it (`Manifest.DifferentDriversOpen`): agreement is on the strings after the
  JSON round trip. A manifest cut short stays unusable
  (`Manifest.TornIsPossible`, `Manifest.TornIsFinal`).
* HINCRBY on a missing hash does not delete a collection deadline record, as HSET does. No Redis
  command leaves such a record behind, but a compaction that takes the last field of a hash under
  a deadline does (`Compaction.CompactionKeepsKeyspace`, `Compaction.CompactThenIncrement`).
* Compaction takes a list of exactly 1263946801 items for an envelope and may drop it
  (`Compaction.ListFires`, `Compaction.MagicListIsPossible`, `Compaction.DroppedRecordShows`).
* SCAN adds cursor and COUNT before it compares them, and does not answer when the sum wraps
  (`Laws.ScanAnswersIff`, `Laws.ScanOverflows`), so a client's walk can stop short
  (`Laws.WalkSeesEverything`, `Laws.WalkOverflows`).
* Values of 2^31 bytes and more do not cross the module boundary whole (`CApi.CopiedIff`,
  `CApi.LargeValuePanics`).
* scan_next looks its cursor up and advances it under two separate locks, so a call that found the
  cursor before a close may still return a record after it (`Cursors.LateCallAnswers`), and no
  other call may (`Cursors.OnlyLateCallsAnswer`).

## Model

| member | source | states |
|---|---|---|
| Runs.Serve | extensions/redis/redis_commands.go:146-1302 | For every run of Redis commands, core scalar operations, purges and compactions on a clock that never goes back, each answer and the final state equal those of a plain typed keyspace with per-key deadlines (DEL/UNLINK counts excepted), and the store invariant holds throughout |
| Runs.ServeWithoutUpkeep | extensions/redis/redis_storage.go:105-185 | Two stores that show the same keyspace, whatever dead records each holds, one served a run and the other the run with its purges and compactions left out, give the same answers (DEL/UNLINK counts excepted) |
| Runs.UpkeepIsSilent | extensions/redis/redis_storage.go:76-86 | In the reference, the answers heard in a run are those of the run without its purges and compactions |
| Runs.ScopeWithoutUpkeep | extensions/redis/redis_storage.go:76-86 | A run the model covers is covered without its purges and compactions |
| Runs.Handle | extensions/redis/redis_server.go:243-245 | One event under the lock takes the view of the store to the reference's next keyspace and gives the reference's answer |
| Runs.Advance | extensions/redis/redis_storage.go:76-86 | Moving the clock shows exactly the keyspace in which what has expired is gone, with no record touched |
| Runs.TickTwice | extensions/redis/redis_storage.go:76-86 | Letting time pass in two steps is letting it pass in one |
| Effects.EffectKeepsInv | extensions/redis/redis_storage.go:217-232 | A command's effect on one key keeps the store invariant of all keys: at most one representation, no collection deadline beside a string or beside nothing, no empty collection; and it gives no hash field a deadline of its own |
| View.ViewEffect | extensions/redis/redis_storage.go:105-185 | A change to the records of one key is one assignment in the typed keyspace |
| View.ViewFind | extensions/redis/redis_storage.go:105-185 | The view shows, for every key, what its records stand for, and leaves no live key out |
| View.ViewLater | extensions/redis/redis_storage.go:76-86 | The view at a later time is the view now with time passed |
| Dispatch.Run | extensions/redis/redis_server.go:283-442 | Every data command, whatever its arguments, refines the reference interpreter and keeps the invariant, pushes past 2^32 items and SCANs whose sum wraps excepted |
| Dispatch.OnOneKey | extensions/redis/redis_server.go:283-442 | Every single-key command changes only its key, to the entry its specification gives, and replies as specified, pushes past 2^32 items excepted |
| Connection.ServeConnection | extensions/redis/redis_server.go:228-260 | Bytes to bytes: a client that pipelines any data commands gets back, in order, the encodings of the answers of the plain typed keyspace to the commands their names mean (the laws by name below), in the bytes of the protocol (Wire) |
| Connection.Answer | extensions/redis/redis_server.go:239-252 | A request that names no data command gets the error that says why and changes nothing; a data command refines the reference |
| Connection.CommandArgs | extensions/redis/redis_server.go:262-281 | Arguments are extracted exactly when the request is a non-empty array of strings and integers; otherwise its first bad item decides the error |
| Connection.RequestReadsBack | extensions/redis/redis_server.go:262-281 | A request written as an array of bulk strings is read back and yields its own arguments, whatever follows it |
| Writable.AnswerWrites | extensions/redis/redis_server.go:255-260 | Every answer the reference can give can be written: no odd map ever reaches the writer |
| Resp.ReadBack | extensions/redis/resp.go:35-130 | Reading the bytes written for a value, whatever follows, gives the value and exactly what follows if and only if the value is within the limits, free of nulls inside containers and of CR/LF in lines |
| Resp.PipelineDecodes | extensions/redis/resp.go:178-242 | A pipeline of readable values decodes to itself |
| Resp.PipelinesDiffer | extensions/redis/resp.go:178-242 | Two different pipelines of readable values never have the same bytes |
| Resp.Read | extensions/redis/resp.go:35-130 | On every finite input the reader ends with an error or with strictly less input left |
| Resp.ReadIsBounded | extensions/redis/resp.go:35-130 | Whatever the reader accepts respects the argument, bulk and line limits |
| Resp.ReadLineBack | extensions/redis/resp.go:144-157 | A newline-free line comes back exactly when it is within the limit, and is refused as too long otherwise |
| RespStream.Reader.Value | extensions/redis/resp.go:35-130 | The stream reader consumes exactly the bytes the recursive reading takes, or reports the same fault |
| RespStream.Reader.ReadBytes | extensions/redis/resp.go:145-148 | The byte loop stops at the first newline, or at the end when there is none, losing nothing |
| RespStream.Reader.Line | extensions/redis/resp.go:144-157 | One line off the stream, byte by byte, with the carriage return checked before the limit, as the pure reading does |
| RespStream.Reader.Length | extensions/redis/resp.go:132-142 | One 32-bit length off the stream |
| RespStream.Reader.Items | extensions/redis/resp.go:50-79 | The item loop reads as many values as announced, refusing nulls |
| RespStream.Writer.Value | extensions/redis/resp.go:178-242 | The stream writer appends exactly the bytes of the value, or reports an odd map |
| Keys.FillNamespacePrefix | keys.go:21-27 | The filled buffer holds kind, 32-bit length and namespace |
| Keys.NamespacedLogicalKey | keys.go:29-60 | A namespaced record names its namespace if and only if the namespace is under 2^32 bytes |
| Keys.LongKeyIsLost | keys.go:21-27 | A hash field of a key of 2^32 bytes names another logical key |
| Keys.OwnsIffLogicalKey | keys.go:41-60 | The lookups of a delete cover exactly the records whose logical key is the one deleted |
| Keys.OwnersAreDisjoint | keys.go:17-60 | No record belongs to two logical keys, siblings that extend each other included |
| LogicalKeys.DeleteLogicalKey | logical_key.go:15-43 | Exactly the records owned by the key disappear, and the result says whether there was one |
| LogicalKeys.FootprintIsExact | logical_key.go:15-43 | The footprint in terms of logicalKeyFromStorage, for keys under 2^32 bytes |
| LogicalKeys.CollectOwned | logical_key.go:16-37 | The lookups and scans collect every record of the key and no other |
| Envelope.FillEnvelope | envelope.go:19-30 | The buffer filled by offsets is the specified encoding, and there is none exactly when the codec name is over 65535 bytes |
| Envelope.MarshalRoundTrip | envelope.go:19-45 | Decoding an encoded envelope gives back deadline, codec and payload |
| Envelope.UnmarshalRoundTrip | envelope.go:32-45 | Every accepted byte string re-encodes to itself |
| ListCodec.ListRoundTrip | collections.go:297-340 | A list survives encoding if and only if its count and item lengths fit 32 bits |
| ListCodec.DecodeListRoundTrip | collections.go:314-340 | Every accepted list record re-encodes to itself |
| ListCodec.EarlyCountCheckIsHarmless | collections.go:318-321 | The early count check rejects no list the loop would accept |
| ListCodec.FillList | collections.go:297-312 | The buffer filled by a running offset is the specified encoding |
| ListCodec.FillListHttp | extensions/http/http.go:958-973 | The copy of the encoder in the HTTP owner gives the same bytes |
| ListCodec.LongListIsLost | collections.go:297-340 | A list of 2^32 empty items does not come back |
| ListCodec.ScanList | collections.go:314-340 | The offset loop accepts exactly what the specification decodes, with the same items |
| Decimal.ParseInvertsFormat | extensions/redis/redis_commands.go:42-48 | Printing an integer and parsing it gives it back |
| Engine.MemoryEngine.Get | memdriver.go:62-73 | The stored value, or nothing |
| Engine.MemoryEngine.Put | memdriver.go:75-86 | One record written, no other touched |
| Engine.MemoryEngine.Delete | memdriver.go:88-99 | One record removed, no other touched |
| Engine.MemoryEngine.ScanPrefix | memdriver.go:101-128 | The sorted snapshot of the records below the prefix, whatever order they were visited in |
| Engine.ScanIsExact | memdriver.go:101-128 | A scan visits exactly the records below the prefix, each once, in byte order |
| Sorting.Sort | memdriver.go:107-113 | Sorting gives the one strictly increasing listing of the strings |
| Sorting.ListingIsUnique | memdriver.go:107-113 | A set has only one strictly increasing listing, so the visit order cannot show |
| Probe.TypeIsSound | extensions/redis/redis_storage.go:105-185 | Probing reports the kind of the key's entry, purges only what is dead, leaves no record of a key that is gone, and probing again changes nothing |
| Probe.TypeHidesNothing | extensions/redis/redis_storage.go:105-185 | What a probe purges could never be seen again at any later time |
| Probe.LookLater | extensions/redis/redis_storage.go:76-86 | What a key's records stand for later is what they stand for now, aged |
| RedisStorage.Database.KeyExpired | extensions/redis/redis_storage.go:76-86 | A key past its collection deadline loses every record, any other key none |
| RedisStorage.Database.MetadataExpiry | extensions/redis/redis_storage.go:88-97 | The collection deadline as stored |
| RedisStorage.Database.Type | extensions/redis/redis_storage.go:105-185 | The probe over physical records does to the key what the record-bundle probe says, and nothing to other keys |
| RedisStorage.Database.PutPayload | extensions/redis/redis_storage.go:52-62 | An envelope with the deadline computed from the TTL is written at the key |
| RedisStorage.Database.DeleteRaw | extensions/redis/redis_storage.go:187-189 | Every record of the key goes; the result says whether there was one |
| RedisStorage.Database.PruneHash | extensions/redis/redis_commands.go:638-677 | The scan keeps the live fields, deletes the expired ones, and removes the key when none is left |
| RedisStorage.Database.String | extensions/redis/redis_storage.go:191-215 | The live string, or missing, or wrong type, with the purges of the probe |
| RedisStorage.Database.WriteString | extensions/redis/redis_storage.go:217-232 | The string replaces the value record and the stray deadline; a deadline already past removes the key instead |
| RedisStorage.Database.Expiry | extensions/redis/redis_storage.go:234-254 | The deadline, from the envelope for strings and the metadata record for collections |
| RedisStorage.Database.SetExpiry | extensions/redis/redis_storage.go:256-284 | The deadline is stored where the type keeps it; one already past removes the key |
| RedisStorage.Database.Persist | extensions/redis/redis_storage.go:301-326 | The deadline is removed where the type keeps it |
| RedisStorage.Database.HashField | extensions/redis/redis_storage.go:328-353 | The live field; an expired one is deleted, and the key with its last field |
| RedisStorage.Database.HashEntries | extensions/redis/redis_commands.go:627-678 | The live fields of a hash |
| RedisStorage.Database.SetMembers | extensions/redis/redis_commands.go:899-924 | The members of a set |
| RedisStorage.Database.List | extensions/redis/redis_storage.go:355-375 | The raw items of a list |
| RedisStorage.Database.WriteList | extensions/redis/redis_storage.go:388-394 | The list is stored, or the key removed with its deadline when the list is empty |
| RedisStorage.Database.ListValues | extensions/redis/redis_commands.go:1062-1089 | The live items, written back when some had expired |
| Meaning.StringMeans | extensions/redis/redis_storage.go:191-215 | Reading a string of a sound key gives the string of its typed entry and changes nothing visible |
| Meaning.WriteStringMeans | extensions/redis/redis_storage.go:217-232 | Writing a string gives exactly the entry with that value and deadline, or none if the deadline has passed |
| Meaning.ExpiryMeans | extensions/redis/redis_storage.go:234-254 | The reported deadline is the entry's |
| Meaning.SetExpiryMeans | extensions/redis/redis_storage.go:256-284 | Setting a deadline changes the entry's deadline and nothing else, or removes the entry |
| Meaning.PersistMeans | extensions/redis/redis_storage.go:301-326 | Persisting removes the entry's deadline and nothing else |
| Meaning.HashFieldMeans | extensions/redis/redis_storage.go:328-353 | Reading a field gives the entry's field |
| Meaning.HashEntriesMeans | extensions/redis/redis_commands.go:627-678 | The listed entries are the entry's fields |
| Meaning.SetMembersMeans | extensions/redis/redis_commands.go:899-924 | The listed members are the entry's |
| Meaning.ListValuesMeans | extensions/redis/redis_commands.go:1062-1089 | The listed values are the entry's items in order |
| Meaning.WriteListMeans | extensions/redis/redis_storage.go:388-394 | Storing items gives the entry with those items under the same deadline, or no entry when empty |
| StringCommands.Get | extensions/redis/redis_commands.go:132-144 | The reply and the key's new entry are the specified ones, and no other key changes: GET |
| StringCommands.SetOptionsOf | extensions/redis/redis_commands.go:67-130 | For every argument list: the loop over the SET options, with its overflow guards, computes the recursive parse |
| StringCommands.Set | extensions/redis/redis_commands.go:146-190 | The reply and the key's new entry are the specified ones, and no other key changes: SET with its options: the old value for GET, the conditions, the kept or new deadline |
| StringCommands.ReplaceString | extensions/redis/redis_commands.go:192-197 | For every argument list: whatever the key held, of any type, is replaced by the string |
| StringCommands.SetNX | extensions/redis/redis_commands.go:199-214 | The reply and the key's new entry are the specified ones, and no other key changes: SETNX |
| StringCommands.SetEX | extensions/redis/redis_commands.go:216-244 | The reply and the key's new entry are the specified ones, and no other key changes: SETEX and PSETEX |
| StringCommands.GetSet | extensions/redis/redis_commands.go:246-265 | The reply and the key's new entry are the specified ones, and no other key changes: GETSET |
| StringCommands.GetDel | extensions/redis/redis_commands.go:267-283 | The reply and the key's new entry are the specified ones, and no other key changes: GETDEL |
| StringCommands.GetEx | extensions/redis/redis_commands.go:285-332 | The reply and the key's new entry are the specified ones, and no other key changes: GETEX |
| StringCommands.StrLen | extensions/redis/redis_commands.go:390-402 | The reply and the key's new entry are the specified ones, and no other key changes: STRLEN |
| StringCommands.Append | extensions/redis/redis_commands.go:404-425 | The reply and the key's new entry are the specified ones, and no other key changes: APPEND |
| StringCommands.Increment | extensions/redis/redis_commands.go:427-432 | The reply and the key's new entry are the specified ones, and no other key changes: INCR and DECR |
| StringCommands.IncrementArg | extensions/redis/redis_commands.go:434-450 | The reply and the key's new entry are the specified ones, and no other key changes: INCRBY and DECRBY |
| StringCommands.IncrementKey | extensions/redis/redis_commands.go:456-480 | For every argument list: the exact 64-bit sum or an error, stored as plain bytes under the kept deadline |
| KeyCommands.TypeName | extensions/redis/redis_commands.go:516-525 | The reply and the key's new entry are the specified ones, and no other key changes: TYPE |
| KeyCommands.Expire | extensions/redis/redis_commands.go:553-573 | The reply and the key's new entry are the specified ones, and no other key changes: EXPIRE and its variants |
| KeyCommands.Ttl | extensions/redis/redis_commands.go:575-606 | The reply and the key's new entry are the specified ones, and no other key changes: TTL and PTTL |
| KeyCommands.Persist | extensions/redis/redis_commands.go:608-620 | The reply and the key's new entry are the specified ones, and no other key changes: PERSIST |
| HashCommands.HSet | extensions/redis/redis_commands.go:680-712 | The reply and the key's new entry are the specified ones, and no other key changes: HSET |
| HashCommands.HGet | extensions/redis/redis_commands.go:714-726 | The reply and the key's new entry are the specified ones, and no other key changes: HGET |
| HashCommands.HMGet | extensions/redis/redis_commands.go:728-745 | The reply and the key's new entry are the specified ones, and no other key changes: HMGET |
| HashCommands.HList | extensions/redis/redis_commands.go:747-861 | The reply and the key's new entry are the specified ones, and no other key changes: HGETALL, HKEYS and HVALS, in field order |
| HashCommands.HDel | extensions/redis/redis_commands.go:765-806 | The reply and the key's new entry are the specified ones, and no other key changes: HDEL, removing the key and its deadline with the last field |
| HashCommands.HExists | extensions/redis/redis_commands.go:808-820 | The reply and the key's new entry are the specified ones, and no other key changes: HEXISTS |
| HashCommands.HLen | extensions/redis/redis_commands.go:822-831 | The reply and the key's new entry are the specified ones, and no other key changes: HLEN |
| HashCommands.HIncrBy | extensions/redis/redis_commands.go:863-897 | The reply and the key's new entry are the specified ones, and no other key changes: HINCRBY |
| SetCommands.SAdd | extensions/redis/redis_commands.go:926-957 | The reply and the key's new entry are the specified ones, and no other key changes: SADD |
| SetCommands.SRem | extensions/redis/redis_commands.go:959-995 | The reply and the key's new entry are the specified ones, and no other key changes: SREM, removing the key and its deadline with the last member |
| SetCommands.SIsMember | extensions/redis/redis_commands.go:997-1019 | The reply and the key's new entry are the specified ones, and no other key changes: SISMEMBER |
| SetCommands.SMIsMember | extensions/redis/redis_commands.go:1021-1034 | The reply and the key's new entry are the specified ones, and no other key changes: SMISMEMBER |
| SetCommands.SMembers | extensions/redis/redis_commands.go:1036-1049 | The reply and the key's new entry are the specified ones, and no other key changes: SMEMBERS, in byte order |
| SetCommands.SCard | extensions/redis/redis_commands.go:1051-1060 | The reply and the key's new entry are the specified ones, and no other key changes: SCARD |
| ListCommands.Push | extensions/redis/redis_commands.go:1121-1133 | The reply and the key's new entry are the specified ones, and no other key changes: LPUSH, RPUSH, LPUSHX and RPUSHX, or a record that does not decode to the list once it passes 2^32 items |
| ListCommands.PushValues | extensions/redis/redis_commands.go:1135-1177 | For every argument list: the length as reply; the pushed list, with the deadline kept and a fresh key without one, if and only if it is under 2^32 items, and past that a record that does not give it back |
| ListCommands.LRange | extensions/redis/redis_commands.go:1179-1204 | The reply and the key's new entry are the specified ones, and no other key changes: LRANGE |
| ListCommands.LLen | extensions/redis/redis_commands.go:1206-1215 | The reply and the key's new entry are the specified ones, and no other key changes: LLEN |
| ListCommands.Pop | extensions/redis/redis_commands.go:1217-1272 | The reply and the key's new entry are the specified ones, and no other key changes: LPOP and RPOP, with and without a count |
| ListCommands.LTrim | extensions/redis/redis_commands.go:1274-1302 | The reply and the key's new entry are the specified ones, and no other key changes: LTRIM, removing the key and its deadline when nothing is left |
| CommandSpec.ParseSetIsConsistent | extensions/redis/redis_commands.go:67-130 | Accepted SET options never have NX with XX, have a positive deadline exactly when they have an expiry, and take no KEEPTTL after it |
| StringCommands.CheckedDeadline | extensions/redis/redis_commands.go:108-122 | The overflow guards admit exactly the deadlines that fit 64 bits |
| ListCommands.ReverseValues | extensions/redis/redis_commands.go:1161-1166 | The swap loop reverses the encoded values in place |
| ListCommands.ListReply | extensions/redis/redis_commands.go:1091-1103 | The reply lists the live items in order |
| ListCommands.NormalizeNeverOverflows | extensions/redis/redis_commands.go:1105-1119 | No intermediate sum leaves 64 bits for any 64-bit bounds |
| ListCommands.RangeIsExact | extensions/redis/redis_commands.go:1105-1119 | The normalized range keeps exactly the indices between the bounds, negative ones counted from the end, for all 64-bit bounds |
| KeyspaceCommands.MGet | extensions/redis/redis_commands.go:334-351 | One reply per key, in order, null for what is missing, or WRONGTYPE when some named key is no string; no key changes visibly |
| KeyspaceCommands.MSet | extensions/redis/redis_commands.go:353-367 | The pairs are assigned in order; a later pair for the same key wins |
| KeyspaceCommands.MSetNX | extensions/redis/redis_commands.go:369-388 | All pairs are assigned exactly when none of the keys exists |
| KeyspaceCommands.Exists | extensions/redis/redis_commands.go:499-514 | Counts each mention of a live key |
| KeyspaceCommands.Delete | extensions/redis/redis_commands.go:482-497 | The named keys are gone from the keyspace; the count is that of keys that had records |
| KeyspaceCommands.DeleteCountsLingering | extensions/redis/redis_commands.go:487-496 | The count is never below the number of live keys removed, and equals it if and only if no named key had expired without being purged |
| KeyspaceCommands.DeadKeyIsCounted | extensions/redis/redis_commands.go:487-496 | DEL of one key that has expired and not been purged removes nothing live and replies 1 |
| KeyspaceCommands.DeadKeyIsPossible | extensions/redis/redis_commands.go:487-496 | A store with the invariant and such a key |
| KeyspaceCommands.AllKeys | extensions/redis/redis_commands.go:1304-1330 | The keys of the keyspace, sorted, whatever order the candidates are probed in |
| KeyspaceCommands.Candidates | extensions/redis/redis_commands.go:1304-1318 | The candidates are exactly the logical keys some record names |
| KeyspaceCommands.KeysMatching | extensions/redis/redis_commands.go:1337-1353 | KEYS: exactly the matching keys, sorted |
| KeyspaceCommands.Page | extensions/redis/redis_commands.go:1405-1420 | The page and the next cursor; none exactly when the cursor is before the end and its sum with COUNT leaves 64 bits |
| KeyspaceCommands.Scan | extensions/redis/redis_commands.go:1355-1421 | SCAN: the reference's reply if and only if the cursor is past the matching keys or its sum with COUNT fits 64 bits |
| KeyspaceCommands.DbSize | extensions/redis/redis_commands.go:1423-1432 | DBSIZE: the number of live keys |
| KeyspaceCommands.Flush | extensions/redis/redis_commands.go:1434-1451 | FLUSHDB and FLUSHALL: nothing is left |
| Deadline.FromCommandIsExact | extensions/redis/redis_commands.go:527-551 | The exact mathematical deadline if product and sum fit 64 bits, an error otherwise and only then |
| Deadline.StoredIsNeverEarlier | extensions/redis/redis_storage.go:217-232 | With two clock readings the stored deadline is the asked one if and only if the readings agree, and is not earlier if and only if the drifted sum fits 64 bits |
| Deadline.StoredCanWrap | extensions/redis/redis_storage.go:226-231 | Readings one nanosecond apart turn the last possible deadline into the first possible one |
| KeyCommands.ExpireThenTtl | extensions/redis/redis_commands.go:553-606 | EXPIRE k s replies 1 and TTL k at the same instant replies s, likewise in milliseconds, exactly when the deadline fits 64 bits; otherwise EXPIRE refuses and changes nothing |
| Laws.CounterRun | extensions/redis/redis_commands.go:427-480 | Over any run of increments on a string or missing key, at any times, entry and replies are those of an exact counter that restarts at zero without a deadline when its own passes and refuses every step while its text is no number; a refused step changes nothing |
| Laws.CounterIsSum | extensions/redis/redis_commands.go:456-480 | While its deadline is ahead, the counter is its start plus the accepted deltas and keeps the deadline; text that is no number refuses every step |
| Laws.OtherTypesRefuse | extensions/redis/redis_commands.go:456-462 | A key of another type refuses and stays |
| Laws.DecrementByMinimum | extensions/redis/redis_commands.go:434-450 | DECRBY of the least 64-bit integer adds 2^63 exactly |
| Laws.PushIsOneByOne | extensions/redis/redis_commands.go:1135-1177 | Pushing n values is n pushes of one value, in order, at either end |
| Laws.PopConserves | extensions/redis/redis_commands.go:1217-1272 | For every argument list of LPOP and RPOP, the values in the reply and the items left make up the old list in order; what is left keeps its deadline, the key goes with its last item, an error changes nothing |
| Laws.PopTakes | extensions/redis/redis_commands.go:1243-1261 | A counted pop takes as many items as asked, or all there are |
| Laws.PopUndoesPush | extensions/redis/redis_commands.go:1135-1272 | A pop at the same end undoes a push |
| Laws.StoredCount | extensions/redis/redis_commands.go:680-712 | HSET's count is how much the hash grew |
| Laws.DroppedCount | extensions/redis/redis_commands.go:765-806 | HDEL's count is how much the hash shrank, by exactly the named fields |
| Laws.FreshKeysHaveNoDeadline | extensions/redis/redis_commands.go:680-712 | No single-key command gives a key it creates a deadline unless its own arguments ask for one |
| Laws.NothingIsInherited | extensions/redis/redis_commands.go:334-388 | No command at all, MSET and MSETNX included, gives a key that was not there a deadline its arguments do not ask for |
| Laws.MissingKeyIsUnreadable | extensions/redis/redis_commands.go:334-351 | MGET of a missing key is answered by an array the reader does not give back |
| Laws.KeyNamesAreExact | extensions/redis/redis_commands.go:1304-1330 | Every live key is listed exactly once, in byte order, and nothing else |
| Laws.MatchingIsExact | extensions/redis/redis_commands.go:1332-1353 | The listed keys are exactly those that match, still in order |
| Laws.WalkSeesEverything | extensions/redis/redis_commands.go:1355-1421 | A client that sends back the cursor text of each SCAN reply, from 0, ends if and only if each request on the way has a sum that fits 64 bits; it has then collected every matching key exactly once, in order, and otherwise the first few of them |
| Laws.WalkEnds | extensions/redis/redis_commands.go:1405-1420 | With COUNTs that fit beside the last cursor there can be, the walk ends with every matching key |
| Laws.WalkOverflows | extensions/redis/redis_commands.go:1408-1417 | Two keys, COUNT 1 and then COUNT 9223372036854775807: the walk does not end |
| Laws.ScanAnswersIff | extensions/redis/redis_commands.go:1405-1417 | SCAN of a cursor and a COUNT is answered if and only if the cursor is past the matching keys or their sum fits 64 bits |
| Laws.ScanOverflows | extensions/redis/redis_commands.go:1405-1417 | SCAN 1 COUNT 9223372036854775807 has no answer on two matching keys, and has one on none |
| Core.Perform | db.go:151-376 | PutStoredValue, GetStoredValue, Has and Delete do to the typed entry of their key what they mean, errors included, and nothing to other keys; a reported expiry is the entry's, or not positive when it has none |
| Core.Replace | db.go:223-240 | Whatever the key held is replaced by the scalar; no other record of it stays |
| Core.ReadValue | db.go:270-287 | The live value record; an expired one is deleted and not found |
| Core.NewDeadlineIsExact | db.go:215-221 | The deadline of a TTL is the exact sum if and only if it fits 64 bits; past that the value has no deadline |
| Core.LongestTtlNeverExpires | db.go:215-221 | A value stored with the longest TTL never expires |
| Compaction.CompactionIsInvisible | backend.go:266-268 | Dropping expired records at any time changes no answer of any run of core reads, single and by prefix, envelope and raw, if and only if no set, list or deadline record passes for an envelope with a deadline |
| Compaction.DroppedRecordShows | collections.go:285-291 | A raw record the hook fires on is read before a compaction and missing after it |
| Compaction.HookSparesCollections | envelope.go:47-50 | The hook never fires on records too short to be envelopes, such as set members and deadlines, nor on a list whose count is not the four magic bytes |
| Compaction.ListFires | collections.go:297-312 | Exactly the lists of 1263946801 items with a first item under 2^31 bytes pass for an envelope with a deadline |
| Compaction.MagicListIsPossible | collections.go:297-312 | Such a list |
| Compaction.CollectionsAreQuiet | envelope.go:47-50 | A store of the commands is safe from compaction unless one of its lists has exactly that many items |
| Compaction.CompactionKeepsKeyspace | extensions/rocksdb/native_rocksdb.go:29-31 | Compaction leaves the typed keyspace as it is, now and at every later time, and keeps the store invariant if and only if no hash under a deadline loses its last field |
| Compaction.PlainCompaction | extensions/rocksdb/native_rocksdb.go:29-31 | In a store the commands wrote, where no field has a deadline of its own, compaction keeps the invariant, the keyspace and that property |
| Compaction.ListsAreSpared | extensions/rocksdb/native_rocksdb.go:29-31 | Unless a list has the magic number of items, compaction does the same without looking at lists |
| Compaction.CompactThenIncrement | extensions/redis/redis_commands.go:863-897 | When a hash under a live deadline loses its last field, HINCRBY brings back the old deadline where the reference has none |
| Compaction.StrayDeadlineIsPossible | extensions/redis/redis_commands.go:863-897 | A store with the invariant on which that happens |
| HashCommands.IncrementMeans | extensions/redis/redis_commands.go:863-897 | On sound records HINCRBY's steps give the specified entry and reply |
| Replacement.NoReplacementGap | db.go:223-240 | In every engine-call interleaving of replacements and locked reads, each read returns the value of the last replacement to release the lock and never finds the key missing; between replacements the key has no other record |
| Replacement.TurnKeepsPhase | logical_key.go:15-43 | Each engine call of a replacement keeps what the rest of it relies on: everything found so far, then everything left to delete, then nothing, then the one value |
| Replacement.TurnKeepsSettled | extensions/http/http.go:365-397 | A replacement in progress disturbs no other key's value at any of its calls |
| Replacement.GapExists | db.go:233-238 | After the last delete the key has no record at all; only the lock keeps a waiting reader out |
| SetConservation.SetsConserve | collections.go:95-158 | In every interleaving the returned calls on a set form a serial history, and the set has grown by exactly the sum added minus the sum removed |
| SetConservation.SerialConserves | collections.go:95-158 | Over a serial history the results telescope to the change in size |
| SetConservation.SAdd | collections.go:107-124 | The set gains exactly the named members, the result counts the new ones, other sets stay |
| SetConservation.SRemove | collections.go:140-157 | The set loses exactly the named members, the result counts them, other sets stay |
| ListConservation.PushesConserve | collections.go:214-238 | In every interleaving the returned pushes form a serial history, and the record is the initial list with the left batches before it, latest first, and the right batches after it, in order, if and only if that list fits the 32-bit counts |
| ListConservation.BatchIsContiguous | collections.go:229-233 | Each call's batch stays together in its argument order, at either end |
| ListConservation.Push | collections.go:223-238 | The extended length is returned, and the record holds the extended list if and only if it fits the 32-bit counts; an undecodable record fails the call and stays; other records stay |
| Manifest.OpensAgree | backend_manifest.go:27-63 | In every interleaving of linked-driver opens, the legacy path, crashes and half-written files included, a decodable manifest never changes and names every driver that opened successfully |
| Manifest.SuccessfulOpensAgree | backend.go:380-402 | Any two successful opens used the same backend, and implementations and formats equal after the JSON round trip; equal outright when they are UTF-8 |
| Manifest.RevalidatesIff | backend_manifest.go:86-103 | One registered driver's manifest validates for another if and only if backend, implementation and format agree after the JSON round trip; for itself if and only if its metadata is UTF-8 |
| Manifest.RawMetadataIsNotRecognised | backend.go:122-127 | A registered driver with a non-UTF-8 implementation string rejects the manifest it wrote, and a different driver accepts it |
| Manifest.DifferentDriversOpen | backend.go:380-402 | A run in which two drivers with different implementation strings both open one directory |
| Manifest.TornIsFinal | backend_manifest.go:65-84 | A half-written manifest nobody is writing makes every later open fail |
| Manifest.TornIsPossible | backend_manifest.go:117-136 | A process that stops while it writes leaves a manifest that does not decode |
| Utf8.SurvivesJson | backend_manifest.go:105-116 | A string survives the JSON encoder if and only if it is well-formed UTF-8 |
| ServerLifecycle.ClientsAreBounded | extensions/redis/redis_server.go:137-181 | At every point of every interleaving at most MaxClients handlers serve a connection |
| ServerLifecycle.CloseIsComplete | extensions/redis/redis_server.go:206-226 | When Close returns, every accepted connection is closed, every handler and the accept loop have ended and the connection set is empty |
| ServerLifecycle.CloseUnblocks | extensions/redis/redis_server.go:206-222 | While Close waits, every connection still being served has been closed |
| CApi.Library.Open | capi/main.go:140-155 | A handle not in use is issued and no other changes |
| CApi.Library.Close | capi/main.go:168-179 | The handle is forgotten; an unknown one is invalid |
| CApi.Library.RawPut | capi/main.go:266-283 | One record of the handle's database is written; empty keys and unknown handles are invalid and change nothing |
| CApi.Library.RawGet | capi/main.go:286-312 | The stored value, not found, or invalid |
| CApi.Library.RawDelete | capi/main.go:315-328 | One record of the handle's database is removed; empty keys and unknown handles are invalid |
| CApi.Library.ScanOpen | capi/main.go:331-358 | A fresh cursor over the scan taken now |
| CApi.Library.ScanNext | capi/main.go:371-396 | The next record of the copy exactly once, not found when drained, invalid when closed |
| CApi.Library.ScanClose | capi/main.go:399-410 | The cursor is forgotten; an unknown one is invalid |
| CApi.Drain | driver_module_loader.go:435-453 | The fetch loop ends with the copies of the whole snapshot in order, or with a panic when some length comes out negative |
| CApi.ModuleEngine.Get | driver_module_loader.go:470-485 | The copy of the inner engine's answer for every non-empty key; an error for the empty key or once closed |
| CApi.ModuleEngine.Put | driver_module_loader.go:487-492 | The inner engine's put for every non-empty key; an error and no change otherwise |
| CApi.ModuleEngine.Delete | driver_module_loader.go:494-499 | The inner engine's delete for every non-empty key; an error and no change otherwise |
| CApi.ModuleEngine.ScanPrefix | driver_module_loader.go:501-515 | The copies of the inner engine's scan, record for record, leaving no cursor open unless the copy panics |
| CApi.CopiedIff | driver_module_loader.go:400-401 | A value crosses the boundary whole if and only if it is under 2^31 bytes |
| CApi.LargeValuePanics | driver_module_loader.go:400-401 | At 2^31 bytes the length comes out negative |
| CApi.CopiedRecordsIff | driver_module_loader.go:447-450 | A scan crosses the boundary whole if and only if all its keys and values are under 2^31 bytes |
| Cursors.CursorReplaysItsScan | capi/main.go:331-396 | Whatever other calls come between, from any threads, the answers for a cursor are the records of the scan taken at its opening, in order, each once, then not found |
| Cursors.OnlyLateCallsAnswer | capi/main.go:371-389 | After a cursor is closed, exactly the calls that had found it before can still be answered: each answer uses up one of them and none is added |
| Cursors.LateCallAnswers | capi/main.go:371-389 | Found, closed, advanced: the call still yields the next record |
| Cursors.IdsAreFresh | capi/main.go:351-355 | Neither cursors nor database handles are ever issued twice over a run |
| Cursors.StaleHandle | capi/main.go:145-150 | A closed database handle never reaches a database again |
| Cursors.ClosedStaysClosed | capi/main.go:360-369 | No lookup succeeds on a cursor that has been closed |
| Spelling.StringNames | extensions/redis/redis_server.go:283-442 | GET, SET, SETNX, SETEX, PSETEX, GETSET, GETDEL, GETEX, STRLEN, APPEND, INCR, DECR, INCRBY and DECRBY each name their own command: one, minus one, the argument, its negative; seconds, milliseconds |
| Spelling.DeadlineNames | extensions/redis/redis_server.go:283-442 | EXPIRE, PEXPIRE, EXPIREAT, PEXPIREAT, TTL, PTTL, PERSIST and TYPE each name their own command |
| Spelling.HashNames | extensions/redis/redis_server.go:283-442 | HSET and HMSET name one command, HGET, HMGET, HGETALL, HKEYS, HVALS, HDEL, HEXISTS, HLEN and HINCRBY each their own |
| Spelling.SetNames | extensions/redis/redis_server.go:283-442 | SADD, SREM, SISMEMBER, SMISMEMBER, SMEMBERS and SCARD each name their own command |
| Spelling.ListNames | extensions/redis/redis_server.go:283-442 | LPUSH, RPUSH, LPUSHX, RPUSHX, LRANGE, LTRIM, LLEN, LPOP and RPOP each name their own command, at their own end |
| Spelling.KeyspaceNames | extensions/redis/redis_server.go:283-442 | MGET, MSET, MSETNX, EXISTS, SCAN, KEYS and DBSIZE each name their own command, DEL and UNLINK one, FLUSHDB and FLUSHALL one |
| Spelling.Units | extensions/redis/redis_commands.go:88-122 | EX and EXAT count 1000000000 nanoseconds, PX and PXAT 1000000; EXAT and PXAT from the epoch |
| Spelling.ExpireUnits | extensions/redis/redis_commands.go:527-551 | The units of the four expiry commands and which of them count from the epoch |
| Spelling.Flags | extensions/redis/redis_commands.go:67-88 | NX, XX, GET and KEEPTTL each set their own option, or are refused beside the one they exclude |
| Client.AnyCase | extensions/redis/redis_server.go:283-284 | A name of capitals is met by every mix of cases of its letters and by nothing else |
| Client.SaidOfKey | extensions/redis/redis_server.go:283-442 | A single-key request does to the keyspace what its name means for the entry of its key, and nothing else |
| Client.ServedAsTalk | extensions/redis/redis_server.go:228-260 | The replies and the keyspace of a client's requests, read by their names, are those of the run the server refines |
| StringLaws.GetLaw | extensions/redis/redis_commands.go:132-144 | GET: the string, null for no key, WRONGTYPE for another type, and nothing changes |
| StringLaws.StrLenLaw | extensions/redis/redis_commands.go:390-402 | STRLEN: the length, 0 for no key |
| StringLaws.SetLaw | extensions/redis/redis_commands.go:67-190 | SET with any options, in any order and any case: refused if and only if they clash or a time is not positive or does not fit; NX wants no key, XX one, GET a string, which it replies; the deadline is the exact one given, the old one for KEEPTTL, or none |
| StringLaws.OptionsLaw | extensions/redis/redis_commands.go:67-130 | The options are accepted if and only if no two of them clash and every time fits |
| StringLaws.SetNxLaw | extensions/redis/redis_commands.go:199-214 | SETNX sets a missing key and replies 1, or leaves the key and replies 0 |
| StringLaws.SetExLaw | extensions/redis/redis_commands.go:216-244 | SETEX k n v gives v for n seconds and PSETEX for n milliseconds, or refuses exactly when n is not positive or the sum does not fit |
| StringLaws.GetSetLaw | extensions/redis/redis_commands.go:246-265 | GETSET replies with the old string and leaves the new one without a deadline |
| StringLaws.GetDelLaw | extensions/redis/redis_commands.go:267-283 | GETDEL replies with the string and leaves no key |
| StringLaws.GetExPlainLaw | extensions/redis/redis_commands.go:285-304 | GETEX without options reads, and with PERSIST also drops the deadline |
| StringLaws.GetExLaw | extensions/redis/redis_commands.go:305-332 | GETEX with EX, PX, EXAT or PXAT reads and sets the exact deadline, one that has passed removing the key, or refuses exactly when it does not fit |
| StringLaws.AppendLaw | extensions/redis/redis_commands.go:404-425 | APPEND leaves old and new text joined under the old deadline and replies its length |
| StringLaws.ExpireLaw | extensions/redis/redis_commands.go:527-573 | EXPIRE and PEXPIRE set the deadline n seconds or milliseconds from now, EXPIREAT and PEXPIREAT from the epoch; one that has passed removes the key; refused exactly when it does not fit |
| StringLaws.TtlLaw | extensions/redis/redis_commands.go:575-606 | TTL and PTTL reply whole seconds and milliseconds left, at least one, -1 without a deadline, -2 without a key |
| StringLaws.SetThenTtl | extensions/redis/redis_commands.go:146-606 | SET EX n and TTL at once replies n, SET PX n and PTTL likewise |
| StringLaws.PersistLaw | extensions/redis/redis_commands.go:608-620 | PERSIST drops the deadline and nothing else, replying 1 exactly when there was one |
| StringLaws.TypeLaw | extensions/redis/redis_commands.go:516-525 | TYPE replies none, string, hash, set or list |
| StringLaws.GoneAtDeadline | extensions/redis/redis_storage.go:76-86 | A key is there before its deadline and not from it on |
| StringLaws.IncrLaw | extensions/redis/redis_commands.go:427-480 | INCR of a key that holds n leaves and replies n + 1, DECR n - 1, when that fits 64 bits, and refuses otherwise |
| StringLaws.IncrByLaw | extensions/redis/redis_commands.go:434-480 | INCRBY d leaves and replies n + d, DECRBY d n - d, when that fits 64 bits, and refuses otherwise |
| StringLaws.NoNumberLaw | extensions/redis/redis_commands.go:434-480 | Text that is no number, an argument that is none, and another type refuse and stay |
| StringLaws.NamedCounterRun | extensions/redis/redis_commands.go:427-480 | Any run of INCR, DECR, INCRBY and DECRBY requests on a key, by name and decimal argument, at any times, replies and leaves what an exact counter of the signed amounts does |
| StringLaws.StringRefusals | extensions/redis/redis_commands.go:146-332 | The arities of SET, SETEX and PSETEX, and the errors for times that are no numbers |
| StringLaws.CounterRefusals | extensions/redis/redis_commands.go:427-450 | The arities of the counters |
| StringLaws.ExpireRefusals | extensions/redis/redis_commands.go:553-560 | The arity of the expiry commands, and the error for a time that is no number |
| StringLaws.DeadlineRefusals | extensions/redis/redis_commands.go:516-620 | The arities of TTL, PTTL, PERSIST and TYPE |
| HashLaws.HSetLaw | extensions/redis/redis_commands.go:680-712 | After HSET and HMSET every field named holds the value of the last pair naming it, without a deadline, every other field is exactly as it was, no other field appears, the key keeps its deadline and the reply counts the new fields |
| HashLaws.HGetAfterHSet | extensions/redis/redis_commands.go:680-726 | HGET after HSET replies the value of the last pair naming its field, or what it replied before |
| HashLaws.HGetLaw | extensions/redis/redis_commands.go:714-831 | HGET, HEXISTS and HLEN tell the value, the presence and the number of fields |
| HashLaws.HMGetLaw | extensions/redis/redis_commands.go:728-745 | HMGET replies field by field, in order |
| HashLaws.HListLaw | extensions/redis/redis_commands.go:747-861 | HKEYS lists the names in byte order, HVALS the values in the order of their names, HGETALL each name before its value |
| HashLaws.HDelLaw | extensions/redis/redis_commands.go:765-806 | After HDEL the named fields are gone, every other is exactly as it was, the reply counts the loss, and a hash without fields is no key |
| HashLaws.HIncrByLaw | extensions/redis/redis_commands.go:863-897 | HINCRBY leaves and replies the exact sum in its field, every other field as it was, or refuses and changes nothing |
| HashLaws.FieldsGoAtDeadlines | extensions/redis/redis_storage.go:328-353 | A field is there before its deadline and not from it on, and a hash whose fields are gone is gone |
| HashLaws.HashRefusals | extensions/redis/redis_commands.go:680-770 | Arity and type errors of HSET and HDEL |
| HashLaws.HListRefusals | extensions/redis/redis_commands.go:747-861 | Arity and type errors of HKEYS, HVALS and HGETALL |
| HashLaws.HIncrByRefusals | extensions/redis/redis_commands.go:863-880 | Arity, number and type errors of HINCRBY, in that order |
| SetLaws.SAddLaw | extensions/redis/redis_commands.go:926-957 | After SADD the set holds what it held and what was named, nothing else; the reply is the growth |
| SetLaws.SRemLaw | extensions/redis/redis_commands.go:959-995 | After SREM the set holds what it held and was not named; the reply is the loss, and an empty set is no key |
| SetLaws.SIsMemberLaw | extensions/redis/redis_commands.go:997-1060 | SISMEMBER and SCARD tell membership and size |
| SetLaws.SMIsMemberLaw | extensions/redis/redis_commands.go:1021-1034 | SMISMEMBER tells membership name by name, in order |
| SetLaws.SMembersLaw | extensions/redis/redis_commands.go:1036-1048 | SMEMBERS lists the members, all and once, in byte order |
| SetLaws.MemberAfter | extensions/redis/redis_commands.go:926-1019 | SISMEMBER is 1 after SADD and 0 after SREM of a member, and as before for any other |
| SetLaws.SetRefusals | extensions/redis/redis_commands.go:926-1048 | Arity and type errors of SADD, SREM and SMEMBERS |
| ListLaws.RPushLaw | extensions/redis/redis_commands.go:1121-1177 | RPUSH leaves the old items and then its values, in order |
| ListLaws.LPushLaw | extensions/redis/redis_commands.go:1121-1177 | LPUSH leaves its values, the last first, and then the old items |
| ListLaws.PushXLaw | extensions/redis/redis_commands.go:1121-1177 | LPUSHX and RPUSHX do nothing without a key and push like LPUSH and RPUSH with one |
| ListLaws.RangeLaw | extensions/redis/redis_commands.go:1179-1302 | LRANGE replies with, and LTRIM keeps, the slice between the bounds, negative ones counted from the end and both cut to the list |
| ListLaws.PopLaw | extensions/redis/redis_commands.go:1217-1272 | LPOP takes the first item, RPOP the last, and the rest stays in order |
| ListLaws.PopManyLaw | extensions/redis/redis_commands.go:1217-1272 | With a count, that many from either end, in list order, or all there are; a negative count refuses |
| ListLaws.LLenLaw | extensions/redis/redis_commands.go:1206-1215 | LLEN tells the number of items |
| ListLaws.PushThenRange | extensions/redis/redis_commands.go:1121-1204 | Onto a missing key, LPUSH a b then LRANGE 0 -1 replies b, a; RPUSH a b replies a, b |
| ListLaws.PushRefusals | extensions/redis/redis_commands.go:1121-1145 | Arity and type errors of the pushes |
| ListLaws.RangeRefusals | extensions/redis/redis_commands.go:1179-1290 | Arity, number and type errors of LRANGE and LTRIM, in that order |
| ListLaws.PopRefusals | extensions/redis/redis_commands.go:1217-1240 | Arity and type errors of LPOP and RPOP, and their replies for a missing key |
| KeyLaws.MSetLaw | extensions/redis/redis_commands.go:353-367 | After MSET every key named holds the value of the last pair naming it, without a deadline, and every other key is as it was |
| KeyLaws.MSetNxLaw | extensions/redis/redis_commands.go:369-388 | MSETNX does the same when none of its keys is there, and nothing when one is |
| KeyLaws.MGetLaw | extensions/redis/redis_commands.go:334-351 | MGET replies key by key, in order, null for what is missing, or WRONGTYPE when one is no string |
| KeyLaws.MGetAfterMSet | extensions/redis/redis_commands.go:334-367 | MGET after MSET replies the last value given to each key |
| KeyLaws.DelLaw | extensions/redis/redis_commands.go:482-497 | DEL and UNLINK leave every key but the named ones, and in the reference reply how many there were |
| KeyLaws.ExistsLaw | extensions/redis/redis_commands.go:499-514 | EXISTS counts the arguments that name a key, one named twice twice |
| KeyLaws.DbSizeLaw | extensions/redis/redis_commands.go:1423-1432 | DBSIZE replies the number of keys |
| KeyLaws.FlushLaw | extensions/redis/redis_commands.go:1434-1451 | FLUSHDB and FLUSHALL leave no key |
| KeyLaws.KeysLaw | extensions/redis/redis_commands.go:1337-1353 | KEYS lists the matching names, all and once, in byte order |
| KeyLaws.ScanLaw | extensions/redis/redis_commands.go:1355-1421 | SCAN replies with a page of the matching names from its cursor on and the next cursor, 0 at the end |
| KeyLaws.ScanPlainLaw | extensions/redis/redis_commands.go:1355-1421 | SCAN without options shows ten names at a time |
| KeyLaws.ScanCountLaw | extensions/redis/redis_commands.go:1355-1421 | COUNT sets the page size, 0 meaning ten |
| KeyLaws.ScanMatchLaw | extensions/redis/redis_commands.go:1355-1421 | MATCH sets the pattern and TYPE nothing |
| KeyLaws.ScanRefusals | extensions/redis/redis_commands.go:1355-1400 | Arity, cursor and option errors of SCAN |
| Wire.WritesForm | extensions/redis/resp.go:178-242 | The bytes written for a value, at every depth: 43, 45 or 58 before a line, 36, length and data for a bulk, 42 and count for an array, 37 and pair count for a map, -1 for a null, 13 10 after each line; none exactly for maps that do not pair up |
| Wire.ReadsForm | extensions/redis/resp.go:35-130 | Those bytes, whatever follows, are read as that value and exactly what follows if and only if the value is within 1048576 bytes a line, 67108864 a bulk, 1024 members, and has no null inside |
| Wire.ReadsScalars | extensions/redis/resp.go:35-117 | The five scalar forms, byte for byte |
| Wire.RefusesLengths | extensions/redis/resp.go:35-100 | Lengths outside those limits are refused |
| Wire.RefusesMembers | extensions/redis/resp.go:50-100 | A null member and a bulk that does not end with 13 10 are refused |
| Wire.ReadsInline | extensions/redis/resp.go:115-130 | A line that opens with none of the six marks is a command of its words |
| Formats.StorageKeys | keys.go:5-39 | The storage keys: 1, 4 or 5 and the key; 2 or 3, four bytes of length, the key and the field or member |
| Formats.EnvelopeBytes | envelope.go:19-30 | KVL1, eight bytes of deadline, two of codec length, codec, payload |
| Formats.ListRecordBytes | collections.go:297-312 | Four bytes of count, then each item after four bytes of length |
| Formats.EightIsWord | envelope.go:19-30 | A deadline is stored as eight bytes in two's complement, the most significant first |
| Sorting.LessIsFirstDifference | memdriver.go:107-113 | Byte order: the first difference decides, and a prefix comes before what extends it |
| Decimal.ParseAccepts | extensions/redis/redis_commands.go:42-48 | A number is at least one digit after at most one sign, and nothing else |
| Decimal.ParseIgnores | extensions/redis/redis_commands.go:42-48 | A plus and a leading zero change nothing |
| Core.PutThenRead | db.go:151-376 | A value put with a TTL is read back with that deadline before it and not from it on, one put without stays, whatever was there before |
| Core.DeleteAndRead | db.go:262-376 | Delete leaves nothing of any type; reads see nothing but strings and change nothing |
| Core.RefusedArguments | db.go:151-240 | Empty keys, empty or overlong codec names and TTLs that are not positive are refused and change nothing |
| Compaction.CompactLaw | extensions/rocksdb/native_rocksdb.go:29-31 | Exactly the chosen envelopes with a deadline that has come go |
| Manifest.ForeignDirectoryIsRefused | backend_manifest.go:40-62 | Over every run on a directory with entries and no manifest, if no opener has the legacy permission then no manifest is ever created and none opens, nor gets to its driver |
| Manifest.ListingDecides | backend_manifest.go:40-55 | An opener that lists a directory in use fails without the permission and goes on to its driver with it; on an empty directory it creates the manifest |
| Manifest.DriverBeforeManifest | backend.go:387-398 | Over every run on such a directory, some driver is opened before any manifest exists |
| Manifest.OpensAlone | backend.go:380-402 | Undisturbed, an open succeeds exactly on a manifest that validates, on an empty directory, or on one in use with the permission; the last two leave its own manifest, any other outcome leaves the file as it was |
| Manifest.ValidateLaw | backend_manifest.go:86-103 | A manifest is accepted if and only if it is of format 1, has a driver version, and its backend, driver and format are the driver's |
| Manifest.NobodyIsStuck | backend.go:380-402 | An opener that has neither opened nor failed has a step to take |
| Manifest.OpenersAdvance | backend.go:380-402 | Each step of an opener brings it closer to one or the other |
| Utf8.EncodedIsRune | backend_manifest.go:105-116 | The UTF-8 encoding of every Unicode scalar value is recognised, whatever follows it |
| Utf8.RuneIsEncoded | backend_manifest.go:105-116 | What is recognised is the encoding of a scalar value: no surrogate, no overlong form, nothing past U+10FFFF |
| ServerLifecycle.SlotsAreGiven | extensions/redis/redis_server.go:153-161 | In every reachable state with an accepted connection in hand, it is admitted if and only if fewer than MaxClients handlers serve, and always when MaxClients is 0; otherwise it is closed and the loop accepts again |
| ServerLifecycle.AdmittedIsServed | extensions/redis/redis_server.go:162-181 | An admitted connection is registered and then served unless Close has listed the connections; then its slot is given back, it is closed and the loop ends |
| ServerLifecycle.LoopWaits | extensions/redis/redis_server.go:137-181 | Nothing handlers or Close do moves the loop, so what it was about to do it still can |
| ServerLifecycle.HandlerEnds | extensions/redis/redis_server.go:171-179 | A handler gives its slot back, closes, unregisters and leaves the wait group, in that order |
| ServerLifecycle.AcceptErrors | extensions/redis/redis_server.go:139-152 | Temporary accept errors keep the loop until Close has signalled, any other ends it |
| ServerLifecycle.WaitingShrinks | extensions/redis/redis_server.go:206-226 | While Close waits, every step of a handler or the loop leaves less to do |
| ServerLifecycle.CloseReturns | extensions/redis/redis_server.go:206-226 | From the moment Close waits, a run in which it does not return has at most as many steps as were left: four for each serving handler and a few for the loop |
| ServerLifecycle.SomeoneMoves | extensions/redis/redis_server.go:206-226 | Until Close returns there is always a step to take |
| Replacement.NobodyIsStuck | db.go:223-240 | The lock holder can always go on, and a free lock can be taken |
| Replacement.CallsAdvance | logical_key.go:15-43 | Each engine call of a replacement or read brings it closer to its end |
| Replacement.Released | db.go:223-240 | A replacement that releases the lock leaves its value as the only record of its key and as the latest |
| Replacement.Observed | db.go:270-287 | A read tells what the store holds at its call |
| SetConservation.NobodyIsStuck | collections.go:95-158 | The lock holder can always go on, and a free lock can be taken |
| SetConservation.CallsAdvance | collections.go:107-157 | Each engine call leaves fewer to make, so every call returns |
| ListConservation.NobodyIsStuck | collections.go:214-238 | The lock holder can always go on, and a free lock can be taken |
| Cursors.ClosedHandle | capi/main.go:168-179 | After a close a database handle never reaches a database again |
| Cursors.ClosedCursor | capi/main.go:399-410 | After a close no lookup finds the cursor again |
| Cursors.CursorSeesWrites | capi/main.go:331-358 | A cursor opened after a put finds the record under every prefix of its key, after a delete under none |
| Cursors.NobodyIsStuck | capi/main.go:371-396 | A call that found its cursor can finish, and any open cursor can be asked |

## Left out

- Engine failures: calls into the engine succeed, so a replacement or a set call cut short by an error or a cancelled context is not modelled.
- ErrDriverUnavailable from a scan, which deleteLogicalKey skips over: scans are always available here.
- The clock is at or after the epoch, does not go back between commands, and is read once per command except where `Deadline` treats two readings.
- Undecodable records: every record of a reachable store decodes, so the error paths of the Redis helpers for such records are not entered. The codecs themselves are modelled with their errors.
- Core.Perform: leaves out Put and Get of typed values, which differ from PutStoredValue and GetStoredValue by a codec.
- Runs.Serve: asks that no list pass 2^32 items and no SCAN sum wrap; runs with compactions also ask for a store whose hash fields have no deadlines of their own, which every command keeps, and for compactions that are shown no list record.
- Runs.ServeWithoutUpkeep: asks the same of its run, and so does Runs.Handle of its event.
- Dispatch.Run: asks that a push stay under 2^32 items and a SCAN sum not wrap; what happens past that is stated by ListCommands.Push and KeyspaceCommands.Scan.
- Dispatch.OnOneKey: asks that a push stay under 2^32 items.
- Connection.ServeConnection: states the pipeline of data commands only; a malformed stream, which ends the connection without a reply, and the per-connection session are left out.
- Connection.Answer: answers session and information commands (AUTH, HELLO, PING, ECHO, SELECT, CLIENT, COMMAND, CONFIG, INFO, TIME, QUIT and the like) as unknown, because those replies involve no stored data.
- Cursors.IdsAreFresh: counts identifiers without bound; the code's counters have 64 bits.
- Manifest.OpensAgree: treats the file as missing, undecodable or decodable rather than as bytes, and leaves out drivers loaded from modules, whose existing manifests are not compared.
- ServerLifecycle.CloseReturns: bounds the steps left, and takes it that a handler whose connection is closed and an accept on a closed listener come back.
- path.Match is an arbitrary function of pattern and key. Upper-casing, trimming and field splitting are those of ASCII.
- Core HSet, HGet, HDelete, HGetAll, SContains, SMembers and LRange with their typed encoding and decoding, and the codec registry.
- The raw /v1/kv PUT and DELETE of the HTTP owner, which take no lock and may write any record, and the rest of its routes; the decoder of its list codec differs from the core's in the name of a variable and is not repeated.
- Core list pushes running beside Redis list commands: they hold different locks.
- The storage drivers other than the memory driver, whose closed flag and context checks are left out too.
- C allocation, dynamic loading, module discovery and checksums, the command line, process supervision, packaging and the language bindings.

# Routerama in Dafny

Routerama keeps a Redis store in step with BIRD's routing table. A routing
container runs a poll loop, which does three things:

- it reads the route dump of `birdc show route`;
- it parses the dump into route records;
- it rewrites the container's keys `route:<container>:<destination>` as
  hashes that live 60 seconds.

A separate editor adds static routes to both the store and `bird.conf`,
and deletes them from both.

This project models both halves in Dafny:

- the dump parser;
- the Redis pipeline that mirrors the routes into the store;
- the clean-up of the `via` key;
- the search for the `protocol static` section of `bird.conf`;
- the insertion and deletion of route lines there;
- the store writes of `add_route` and `delete_route`.

Each half has the form of the source:

- The loops are Dafny methods with loop invariants. There is the parser
  loop, the pipeline builder, the read-back pass, the field-by-field HSET
  and the section search.
- The Redis connection and the configuration file are classes whose
  methods change their fields.
- Each method is proved against a specification function:
  - `ParseRoutes` for the parser;
  - `SyncOps`, `RunOps` and `Mirror` for the store;
  - `FindStaticSection`'s section predicate, `InsertAt`, `RemoveAt` and
    `FirstNaming` for the file.
- Lemmas then prove what the source promises about those functions.

Modules and files:

- `Text` (`text.dfy`) defines Python's string operations as the code uses
  them:
  - `strip()`, `strip(chars)`, `split()` and `split('\n')`;
  - `startswith` and `in`;
  - `int()` and `str()` of naturals;
  - the leftmost match of the regular expression `\((\d+)\)`.
- `RouteParser` (`parser.dfy`) covers `parse_bird_routes`.
- `RedisStore` (`store.dfy`) defines the keyspace as values that are
  hashes or strings, with a time-to-live map. It defines the commands DEL,
  HSET, EXPIRE, KEYS, EXISTS, TYPE and HGETALL, and a pipeline. The `Store`
  class is the connection.
- `Reconciler` (`reconciler.dfy`) covers `send_routes_to_redis`,
  `cleanup_via_keys` and one pass of `run`.
- `BirdConf` (`birdconf.dfy`) covers the section search, `update_bird_conf`
  and `remove_route_from_bird`. The `ConfigFile` class is `bird.conf` plus
  a count of reloads.
- `StaticRoutes` (`editor.dfy`) covers `add_route` and `delete_route`.

An `IndexError` in the parser does not crash the model. It is modelled as
the result `Malformed(line)`, which names the line missing a field. A
WRONGTYPE answer from Redis is modelled too:

- Inside a pipeline, the failing command changes nothing and the later
  commands still run.
- In a direct call from `add_route` or `delete_route`, the operation ends
  with an outcome that says so, and nothing else is changed.

## Model

| member | source | states |
|---|---|---|
| Text.DropLeadingSpec | bird_redis_interface.py:34 | strip() removes exactly the leading whitespace run: the result is a suffix, every dropped character is whitespace, and the result does not start with whitespace |
| Text.DropTrailingSpec | bird_redis_interface.py:34 | the same for the trailing whitespace run |
| Text.StripShape | bird_redis_interface.py:34 | a stripped line neither starts nor ends with whitespace, and occurs inside the original line |
| Text.FieldsAreWords | bird_redis_interface.py:40 | every field of split() is a non-empty run of non-space characters |
| Text.FieldsUnwords | bird_redis_interface.py:40 | split() gives back the words that single spaces joined |
| Text.FieldsOfSpacedWords | bird_redis_interface.py:40 | split() gives back the words of a line whose words are separated by whitespace runs of any length, with any whitespace before and after, as in a BIRD record line padded to columns |
| Text.FirstField | bird_redis_interface.py:39-42 | a line whose first character is not whitespace has that character at the head of field 0 |
| Text.SplitOn | bird_redis_interface.py:31 | split('\n') yields at least one piece, and no piece holds a newline |
| Text.JoinSplit | bird_redis_interface.py:31 | joining the pieces of split('\n') with newlines gives back the dump |
| Text.SplitJoin | bird_redis_interface.py:31 | splitting newline-joined lines that hold no newline gives back those lines |
| Text.DecimalRoundTrip | bird_redis_interface.py:55 | int() of str(n) is n, so a metric stored as text reads back as the same number |
| Text.MatchesAtIff | bird_redis_interface.py:53 | the pattern matches at an index exactly when some closing parenthesis ends a match there, and that parenthesis is the one after the digit run |
| Text.MetricIsLeftmostMatch | bird_redis_interface.py:53-55 | the metric is None exactly when `\((\d+)\)` matches nowhere; otherwise it is the integer of group 1 of the leftmost match |
| RouteParser.BuildRoute | bird_redis_interface.py:40-55 | the record of a start line: the fields 0, 1 and 2 with `[`/`]` stripped, the status, the metric and the container, with no next hop or interface; None when the line has fewer than three fields |
| RouteParser.ReadContinuation | bird_redis_interface.py:58-69 | a `via` line gives next hop = field 1, and interface = field 3 only with more than three fields; a `dev` line gives interface = field 1; any other line adds nothing; a one-field `via`/`dev` line is the IndexError |
| RouteParser.ReadLine | bird_redis_interface.py:33-72 | one pass of the loop body: it skips the line, stops at the line that raises, or takes a route and moves two lines on after a continuation and one line otherwise, as the parse of the rest requires |
| RouteParser.ParseSkips | bird_redis_interface.py:35-39 | a banner line (`BIRD…`, `Table…`) or a line not starting with a digit adds nothing to the parse |
| RouteParser.ParseStops | bird_redis_interface.py:40-68 | a start line with fewer than three fields stops the parse at that line; a continuation with fewer than two fields stops it at the continuation |
| RouteParser.ParseTakes | bird_redis_interface.py:58-72 | a good start line contributes its record, completed by the continuation after it, which is then consumed |
| RouteParser.ParseBirdRoutes | bird_redis_interface.py:29-75 | the loop's result equals ParseRoutes of the dump |
| RouteParser.RecordLinesSpec | bird_redis_interface.py:33-39 | the record lines are listed in increasing order; they are record lines and all of them; there are at most as many as lines |
| RouteParser.HeadDescribes | bird_redis_interface.py:40-69 | the record built at line i is what line i and its continuation say, field by field |
| RouteParser.ParsedIffWellFormed | bird_redis_interface.py:40-68 | the parse succeeds exactly when every record line has three fields and every continuation after one has two |
| RouteParser.ParsedRecords | bird_redis_interface.py:33-72 | a successful parse yields one record per record line, in input order, each describing its line |
| RouteParser.MalformedAt | bird_redis_interface.py:40-68 | a failed parse names either a record line with fewer than three fields or a continuation with fewer than two right after a record line |
| RouteParser.DestinationsStartWithDigit | bird_redis_interface.py:39-42 | every destination is non-empty, starts with a digit, and is never `via` |
| RouteParser.OptionalFieldsNonEmpty | bird_redis_interface.py:61-68 | a set next hop or interface is never the empty string |
| RouteParser.WithoutContinuations | bird_redis_interface.py:46-71 | a dump without `via`/`dev` lines, whose record lines all have three fields, gives one record per record line, none with a next hop or interface |
| RedisStore.Step | bird_redis_interface.py:101-104 | a command keeps the time-to-live map within the live keys; it answers an error exactly for HSET on a non-hash, and then changes nothing |
| RedisStore.StepFrame | bird_redis_interface.py:101-104 | a command leaves every key it does not name unchanged, in value and in time-to-live |
| RedisStore.RunOpsAppend | bird_redis_interface.py:107 | running two queues one after the other is running their concatenation, and errors accumulate |
| RedisStore.RunOpsValid | bird_redis_interface.py:107 | a pipeline keeps the time-to-live map within the live keys |
| RedisStore.HGetAll | modify_routes.py:81 | HGETALL answers WRONGTYPE exactly on a non-hash, and fields only from a hash |
| RedisStore.Store.Keys | bird_redis_interface.py:81 | KEYS `prefix*` answers KeysWithPrefix of the current store: the live keys that start with the prefix |
| RedisStore.Store.Exists | bird_redis_interface.py:96 | whether the key is live |
| RedisStore.Store.Type | bird_redis_interface.py:97 | the key's TYPE |
| RedisStore.Store.GetAll | bird_redis_interface.py:116 | HGETALL answers HGetAll of the current store: WRONGTYPE on a string, the fields of a hash, nothing for an absent key |
| RedisStore.Store.Delete | bird_redis_interface.py:126 | DEL returns the number of live keys among those named, and the store without them |
| RedisStore.Store.HashSet | modify_routes.py:30 | HSET updates the store as Step does and answers false for WRONGTYPE |
| RedisStore.Store.SetExpiry | bird_redis_interface.py:104 | EXPIRE updates the store as Step does and answers whether the key was live |
| RedisStore.Store.Execute | bird_redis_interface.py:107 | the store after the loop over the queue is RunOps of the queue |
| Reconciler.RouteKey | bird_redis_interface.py:87 | the key starts with `route:<container>:` and the rest is the destination |
| Reconciler.WireFields | bird_redis_interface.py:91-103 | the stored hash has exactly the eight fields of a route dictionary |
| Reconciler.WireRoundTrip | bird_redis_interface.py:91-103 | the stored hash determines the route, with '' read back as None, as long as no optional field is the empty string |
| Reconciler.WireConflatesEmpty | bird_redis_interface.py:91-93 | a missing next hop and an empty one are stored alike |
| Reconciler.PlanRoute | bird_redis_interface.py:95-104 | a route's commands: DEL of its key when the store before the cycle holds a non-hash there, then HSET and EXPIRE 60 |
| Reconciler.PlanPipeline | bird_redis_interface.py:78-104 | the queue is SyncOps of the store before the cycle: one DEL of every key of the container, when there is one, then each route's commands in order |
| Reconciler.SyncMirrors | bird_redis_interface.py:77-107 | running the queue answers no error and leaves Mirror: the container's keys are replaced, and everything else is kept |
| Reconciler.MirrorKeys | bird_redis_interface.py:81-107 | after the cycle the container's keys are exactly the routes' keys; every other key keeps its value and time-to-live |
| Reconciler.PublishedShape | bird_redis_interface.py:103 | the published keys are the routes' keys, each a hash with the eight route fields |
| Reconciler.PublishedLastWins | bird_redis_interface.py:86-103 | with a destination given twice, the hash holds the last route for it |
| Reconciler.MirrorLastWins | bird_redis_interface.py:91-104 | each destination's key holds the fields of its last route, with '' for None, and a time-to-live of 60 |
| Reconciler.MirrorValid | bird_redis_interface.py:107 | the mirror keeps the time-to-live map within the live keys |
| Reconciler.MirrorIdempotent | bird_redis_interface.py:77-107 | mirroring the same routes twice gives what once gives |
| Reconciler.SyncTwice | bird_redis_interface.py:77-107 | two cycles planned and run with the same routes give what one gives |
| Reconciler.NonHashKeysIff | bird_redis_interface.py:111-119 | the read-back finds nothing to report exactly when every route key holds a hash |
| Reconciler.MirrorAllHashes | bird_redis_interface.py:111-119 | after the pipeline the read-back reports nothing |
| Reconciler.VerifyWrites | bird_redis_interface.py:111-119 | the read-back reports the route keys holding no hash, in route order, and changes nothing |
| Reconciler.SendRoutesToRedis | bird_redis_interface.py:77-121 | the store becomes the mirror of the routes, and the read-back reports nothing |
| Reconciler.MirrorHasNoVia | bird_redis_interface.py:124-126 | without a `via` destination the mirror holds no `via` key |
| Reconciler.CleanupViaKeys | bird_redis_interface.py:123-127 | exactly `route:<container>:via` is deleted when present, and the count removed is 1 or 0 |
| Reconciler.PollCycle | bird_redis_interface.py:129-141 | no output (or empty output) leaves the store; a dump that raises leaves it too; otherwise the store becomes the mirror of the parsed routes, which the `via` clean-up does not change |
| BirdConf.FindStaticSection | modify_routes.py:43-55 | -1 is returned exactly when no `}` line comes at or after a `protocol static` line; otherwise start is the last `protocol static` line at or before end, and end is the first `}` line from the first `protocol static` line on |
| BirdConf.SectionUnique | modify_routes.py:43-51 | the section is unique, and there is none when the search fails |
| BirdConf.InsertAt | modify_routes.py:61 | list.insert: length plus one, the new line at the index, the lines before unchanged, and the lines from the index on shifted by one |
| BirdConf.RemoveAt | modify_routes.py:119 | del: length minus one, the lines before unchanged, and the lines after shifted back by one |
| BirdConf.RemoveInserted | modify_routes.py:116-121 | deleting what was inserted at an index gives back the lines |
| BirdConf.FirstNamingSpec | modify_routes.py:116-121 | the first line in [start, end) that names the destination, or None exactly when none does |
| BirdConf.RemoveFirstNaming | modify_routes.py:116-125 | the loop deletes the line FirstNaming finds, and with no match returns the lines unchanged |
| BirdConf.InsertKeepsSection | modify_routes.py:58-61 | a line without `}` and `protocol static`, inserted before the closing line of a section spanning several lines, lands inside the section, which then closes one line later |
| BirdConf.OneLineSection | modify_routes.py:46-61 | with `protocol static { }` on one line, the route line goes in before the header, outside the braces |
| BirdConf.RouteLineMentions | modify_routes.py:58 | the line written for D contains `route D` |
| BirdConf.RouteLineDeclares | modify_routes.py:58 | the line written for D splits into `route`, D, … |
| BirdConf.AddThenRemove | modify_routes.py:58-121 | adding D where no line declares D, then removing the first line declaring D, gives back the file |
| BirdConf.SubstringRemovesAnotherRoute | modify_routes.py:116-121 | with the substring match, adding 10.0.0.0/2 beside a declared 10.0.0.0/24 and removing it again deletes the /24 line |
| BirdConf.ConfigFile.UpdateBirdConf | modify_routes.py:38-76 | with no section nothing is written or reloaded; otherwise the route line is inserted at the section's closing line, and BIRD is reloaded once |
| BirdConf.ConfigFile.RemoveRouteFromBird | modify_routes.py:96-142 | with no section, or no line naming the route, nothing is written or reloaded; otherwise the first naming line of the section is deleted and BIRD is reloaded once |
| StaticRoutes.StaticFieldsMerge | modify_routes.py:21-30 | the four fields land with their values, and every other field of an existing hash is kept |
| StaticRoutes.AddThenDeleteStore | modify_routes.py:29-84 | adding a route that was absent and then deleting it gives back the store |
| StaticRoutes.PollDecidesStaticRoute | bird_redis_interface.py:80-104 | the next poll's result does not depend on the hand-added key: the key exists afterwards exactly when BIRD reports that destination, and then holds BIRD's record |
| StaticRoutes.AddRoute | modify_routes.py:19-36 | WRONGTYPE at the first HSET leaves the store and the file; otherwise the fields are merged, the time-to-live is set to 60, and bird.conf is updated |
| StaticRoutes.DeleteRoute | modify_routes.py:78-94 | an absent key leaves the store and the file; a string answers WRONGTYPE and leaves both; otherwise exactly that key is deleted, and the first line of the section that the matcher `how` picks is deleted whatever the check after DEL said; `Substring` is `delete_route` as written |

## Left out

- Running `birdc show route`. Its output is a parameter of `PollCycle`, which is None when the command fails.
- Running `birdc configure`. Its exit status is the parameter `reloadOk`.
- The `mv` that replaces the file, and the temporary file. These become one assignment of the new lines.
- Reading the file. `readlines()` is taken to give the list of lines.
- The Redis connection, `ping` and `socket.gethostname`. The container name is a parameter.
- Time. Keys do not expire by themselves; only the time-to-live value is recorded.
- The poll loop's `while True` and `sleep(30)`. One pass is `PollCycle`.
- The interactive menu of the editor.
- All printed messages.
- Interleaving between the poll process and the editor, and between either one and other Redis clients.
- RedisStore.Store.Keys: KEYS takes a glob pattern, modelled as a plain prefix (and CleanupViaKeys as an exact key). A container name holding `*`, `?`, `[` or `\` is read as a pattern by Redis and not by the model.
- Redis types other than hash and string. All of them are the one non-hash value `Scalar`.
- Redis's byte encoding of answers.
- Text.IsDigit: only ASCII digits count. Python's `isdigit()` and `\d` also accept other Unicode digits.
- `send_routes_to_redis` replaces None with '' inside the caller's route dictionaries. The model writes '' to the store but leaves the parsed records as they are.
- RouteParser.ParseBirdRoutes: an IndexError ends the pass with a `Malformed` result naming the line. In the source it propagates out of `run`.
- StaticRoutes.DeleteRoute: the source returns `False` only for an absent key and None otherwise, which is folded into the outcome.
- BirdConf.InsertKeepsSection and BirdConf.AddThenRemove hold only for a section that spans more than one line. BirdConf.OneLineSection states what happens to a one-line section instead.
- Which line test `delete_route` should use. The model takes it as the parameter `how` of StaticRoutes.DeleteRoute: `Substring` is the source as written, and `Declaration` is the corrected test for which the Findings row proves the round trip.

## Findings

| source | as written | input that shows it | evidently intended | confidence | as-written member | corrected member |
|---|---|---|---|---|---|---|
| modify_routes.py:118 | a line counts as naming D when `route D` occurs anywhere in it | bird.conf `protocol static {` / `    route 10.0.0.0/24 via 192.168.1.1;` / `}`; add then delete 10.0.0.0/2: the /24 line is deleted and the /2 line stays | delete the line that declares D: first field `route`, second field D | not executed | BirdConf.SubstringRemovesAnotherRoute | BirdConf.AddThenRemove |

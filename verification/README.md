# A verified model of zuth

zuth distributes OPC UA requests to a group of redundant servers through ZooKeeper.
A client appends each request as a sequential znode to the queue of one server; the
server watches its queue, fetches it when it changes, and executes and deletes the
tasks in order, but only while its OPC UA service level is healthy.  This project
models that protocol, the hash table the library carries, and the naming code on
which client and server must agree, and proves what each is for.

`dafny verify dfyconfig.toml` checks everything.

## What is proved

**The task queue** (`TaskNames`, `TaskQueue`, `TaskQueueTheorems`, `TaskQueueFailures`,
`ZuthServer`).
`TaskQueue` is a state machine whose steps are a client's create, ZooKeeper serving a
fetch, and the callbacks' actions one at a time: start a batch, execute, delete,
finish, start on a child event, read the service level.  An inductive invariant over
all runs gives: tasks are executed in submission order and at most once, and which tasks
are excepted when a get fails or a delete is refused; no wakeup is lost, so in a quiet
system every well-formed task has been executed or could not be read; the watch, the
fetch and the child event are one token that is never lost or doubled; and with clients
quiet the queue drains within an explicit number of steps, although the server's own
deletes trigger new fetches.
`ZuthServer` writes the callbacks as code over an array of znode names, sorted in place
by the parsed task number, with other parties acting between any two actions, and
proves that what they do is a run of that state machine.

**The hash table** (`Buckets`, `TableSpec`, `TableMap`; `Chains`, `Rehash`,
`Teardown`, `HashTable`, `HashTableItr`, `TableRuns`; `TaskTable`).
Heap-allocated entries linked through `next` are proved to implement functions on sequences of chains: both rehashing
algorithms, insertion, search, removal, destruction, and an iterator that deletes while
it walks.  About those functions: both rehashings keep the bag of entries and put every
entry in its bucket; whole sequences of calls answer like a finite map keyed by what
the table can tell apart (same mixed hash and `eqfn`, because `eqfn` need not imply
equal hashes), whatever allocations fail; and the table stays within its load limit as
long as no expansion fails.  All this is about the in-place plan as intended, with the
new buckets empty: the `memset` at `src/hashtable/hashtable.c:106` does not clear them
as written.

**Naming** (`CBytes`, `UrlCodec`, `GuidText`, `ZnodePaths`, `QueueSetup`,
`QueueSetupSafety`; `Sequences`, `Bits`).  `UrlTables`, `GuidTables` and `NameTables` say
what the codec, the GUID conversions and the names are character by character, in the
source's own constants.  URL encoding and decoding are inverse between byte strings and canonical texts (section 2 of RFC
3986 for escapes and unreserved characters, section 17.13.4.1 of HTML 4.01 for '+');
GUID reading and printing are inverse on the text form of section 3 of RFC 4122; below
the length at which paths are cut off, a client's task lands under the node a server
watches exactly when GUID and URL agree; and it is proved exactly when concurrent,
crashing set-ups of a group are safe.

## What the code does not do

Statements one would expect and that are false of the code.  Each has an input on which
it fails and the exact condition under which the code meets it.

* A task runs in its turn in all runs exactly when neither its get nor its delete may
  fail, and at most once exactly when its delete may not, whatever becomes of other
  tasks: the server goes on to the next task, and finds the old one again in its next
  snapshot (`TaskQueueFailures`).
* `src/hashtable/hashtable.h:97-101` says expansion reverses entries with a duplicate
  key.  The new-table algorithm does.  The in-place one reverses the entries of a hash
  in all tables exactly when the hash changes bucket
  (`Buckets.PlanBAlwaysReverses`); `Buckets.DuplicatesNotReversed` grows 53 buckets to 97
  and keeps their order.
* The existence of a group's Queue node does not imply that of its Active node: the code
  prints the failure of a create and goes on.  For every starting state and every set of
  creates that may fail, returning early on "exists" is safe in all runs exactly when
  Active exists beforehand, or no server's create of Active may fail and, if there is a
  second server, none may fail to make /Servers or the group's node unless that exists
  (`QueueSetupSafety.EarlyReturnSafeExactly`; the inputs are
  `QueueSetupSafety.LostServersCreate`, `LostGroupCreate` and `LostActiveCreate`).
* `snprintf` truncates the paths of long URLs.  A task lands under the node its server
  watches exactly when the encoded URL has at most 65479 bytes, and otherwise among the
  queues themselves (`ZnodePaths.TaskLandsInQueue`); exactly up to there a server has a
  queue of its own (`ZnodePaths.QueueIsItsOwn`).  Of the tasks that land, the server can
  read the number of exactly those whose encoded URL has at most 65474 bytes
  (`ZnodePaths.LandedTaskIsRead`; `ZnodePaths.UnreadableTask` is a URL of 65475), and it
  finds exactly those whose encoded URL and number together have at most 65474
  (`ZnodePaths.ServerFindsTask`).  Two tasks it cannot read make the comparator follow a
  null pointer (`ZuthServer.Server.ProcessTasks`).
* `zkUA_equalKeys` compares eight bytes, not strings.  Keys equal to a given one have its
  string, and its hash, exactly when its string is shorter than eight
  (`TaskTable.EqualMeansSameString`, `TaskTable.EqualMeansSameHash`); keys with its
  string are equal to it exactly when the string has at least seven characters
  (`TaskTable.SameStringMeansEqual`).  `TaskTable.DifferentStringsSameKey`,
  `TaskTable.EqualKeysWithDifferentHashes` and `TaskTable.SameStringDifferentKeys` are
  the inputs.

## What is assumed of the environment

* ZooKeeper callbacks run one at a time, in delivery order (the programs link
  `zookeeper_mt`), and a watch fires once, for the next create or delete of a child.
* Sequence numbers grow (task znodes are created with `ZOO_SEQUENCE`,
  `src/open62541.c:25546-25547`); gaps are allowed.  They stay within `long long`.
* Only the server removes tasks, as `examples/zuthServer.c:191-193` intends.
* The session stays alive, and fetches are answered with ZOK.
* Requests of one session that arrive are served in order (any create of the set-up may
  fail to arrive); a create needs its parent, and nobody deletes the nodes of a group.
* `char` is signed and 8 bits, `unsigned int` 32 bits, `unsigned long` 8 bytes, and the
  locale is "C".  Path functions are given NUL-free strings.
* Keys of the task table have at least the eight bytes of memory that the comparison
  reads, whatever the length of their string.

## Model

| member | source | states |
|---|---|---|
| TaskNames.TaskNameId | examples/zuthServer.c:67-89 | The server reads back from a znode's name the sequence number ZooKeeper put in it, capped to `long long` |
| NameTables.Texts | examples/zuthServer.c:68 | "task-", the parts of the paths and the range of `long long`, as written |
| NameTables.DecimalIs | src/open62541.c:25546-25547 | That number is printed digit by digit, the last being the remainder by ten |
| NameTables.DecimalWidth | src/open62541.c:25546-25547 | The number in a task's name has ten digits, or more exactly if it needs them |
| NameTables.StrtollIs | examples/zuthServer.c:87-89 | What text of any shape is read as: spaces, a sign, decimal digits and anything else, capped to `long long` |
| TaskNames.ChildHasId | examples/zuthServer.c:67-75 | Of the names that begin with a part of "task-", it can read exactly those that begin with all of it |
| TaskNames.TaskIdCmpOrdersTasks | examples/zuthServer.c:77-100 | The comparator orders task names exactly by sequence number, and calls two equal only if they are one task or beyond `long long` |
| TaskNames.SortByTaskId | examples/zuthServer.c:168-170 | The in-place sort leaves a permutation of the names, ascending in task number; it follows a null pointer exactly if there are two names and one lacks "task-" |
| Qsort.SortingIsSorted | examples/zuthServer.c:170 | Sorting by any comparator consistent with a key gives an ordered permutation |
| TaskQueue.StepInv | examples/zuthServer.c:158-226 | Every step of clients, ZooKeeper or server keeps the invariant: where the watch token is, that what a snapshot missed is younger than all it holds, that what was dealt with and is still queued was malformed, not read or not deleted, that the log is in order |
| TaskQueue.RunInv | examples/zuthServer.c:158-226 | The invariant holds after every run |
| TaskQueue.NextTask | examples/zuthServer.c:171-177 | The task about to run is still queued, and younger than every task run before unless its own get or delete failed earlier |
| TaskQueueTheorems.SubmissionOrder | examples/zuthServer.c:158-182 | In every run, across batches, tasks execute in strictly increasing order and so at most once; one that repeats had its delete refused, one that runs after a younger one had its get fail or its delete refused; malformed tasks are never executed and never deleted |
| TaskQueueTheorems.FirstExecutionsInOrder | examples/zuthServer.c:158-182 | Whatever deletes are refused, tasks that could be read are first executed in submission order |
| TaskQueueTheorems.TokenConservation | examples/zuthServer.c:202-226 | Exactly one of fetch in flight, armed watch, child event undelivered or being handled; fetches are one more than handled child events, and all but the first follow a service level of at least 200 |
| TaskQueueTheorems.ArmedMeansUnchanged | examples/zuthServer.c:226 | While the watch is armed the queue is exactly the latest snapshot: a create, and a delete by the server itself, fires it |
| TaskQueueTheorems.SnapshotsDoNotOverlap | examples/zuthServer.c:226 | No snapshot is taken while an earlier one is undelivered or being processed |
| TaskQueueTheorems.NoLostWakeup | examples/zuthServer.c:202-226 | A queued task the latest snapshot missed has a fetch in flight, or a child event undelivered or being handled |
| TaskQueueTheorems.QuiescentMeansDone | examples/zuthServer.c:158-226 | When nothing is in flight or being handled, every well-formed task ever created was executed or could not be read, and no other; if no get or delete failed, each ran once, in order, and only malformed ones are queued |
| TaskQueueTheorems.StepDecreasesWork | examples/zuthServer.c:145-226 | With clients quiet, gets and deletes succeeding and a healthy level, every step decreases an explicit measure, the server's own deletes firing the watch included |
| TaskQueueTheorems.RunSpendsWork | examples/zuthServer.c:145-226 | Such a run is no longer than the measure it spends, and only removes tasks |
| TaskQueueTheorems.Progress | examples/zuthServer.c:158-226 | Until it is quiet the system can move without its clients |
| TaskQueueTheorems.QueueDrains | examples/zuthServer.c:145-226 | From every reachable state such runs have a bounded length, and one that cannot be extended has executed every well-formed task but those that could not be read before |
| TaskQueueTheorems.ReachesQuiescence | examples/zuthServer.c:158-226 | From every state of the invariant the system can become quiet |
| TaskQueueTheorems.SortingUnique | examples/zuthServer.c:168-170 | A snapshot has one ascending batch, so the batch does not depend on the sorting algorithm |
| TaskQueueFailures.TaskInTurnExactly | examples/zuthServer.c:110-151 | A task runs after no younger one, and not again, in all runs exactly when neither its own get nor its own delete may fail |
| TaskQueueFailures.TaskOnceExactly | examples/zuthServer.c:148-151 | A task runs at most once in all runs exactly when its own delete may not be refused |
| TaskQueueFailures.InOrderExactlyWhenNothingFails | examples/zuthServer.c:110-151 | All tasks run in submission order in all runs exactly when no get and no delete may fail |
| TaskQueueFailures.OnceExactlyWhenDeletesSucceed | examples/zuthServer.c:148-151 | All tasks run at most once in all runs exactly when no delete may be refused |
| TaskQueueFailures.MissedTaskRunsLate | examples/zuthServer.c:110-119 | For any task, a run in which its get fails and it runs after the younger one beside it |
| TaskQueueFailures.RefusedTaskRepeats | examples/zuthServer.c:148-151 | For any task, a run in which its delete is refused and it runs twice |
| ZuthServer.ChildrenParse | examples/zuthServer.c:158-170 | Of the children of a set of tasks, named in full, each is read back as its own task, whatever their order |
| ZuthServer.ChildrenDoNotParse | examples/zuthServer.c:67-75 | Named in part, none can be read |
| ZuthServer.SortedChildren | examples/zuthServer.c:168-170 | Sorting the names of a snapshot lists its tasks in ascending order, each once |
| ZuthServer.WalkedStep | examples/zuthServer.c:171-177 | One more executed request extends what a batch has logged, removed and failed to remove by exactly its own effect, clients' additions aside |
| ZuthServer.Server.constructor | examples/zuthServer.c:306-311 | The server starts with one fetch in flight, on any queue |
| ZuthServer.Server.ExecuteRequest | examples/zuthServer.c:102-156 | The request runs exactly if its document was read and is usable, is then deleted exactly if ZooKeeper agrees, and nothing else that existed changes; it is a stretch of a run of the protocol |
| ZuthServer.Server.ProcessTasks | examples/zuthServer.c:158-182 | The process dies exactly on two or more children that lack "task-"; otherwise the batch is the snapshot's tasks in ascending order, exactly its well-formed ones that could be read are executed, in that order, and all of those but the refused ones are deleted |
| ZuthServer.Server.QueueWatcher | examples/zuthServer.c:183-226 | A child event ends with exactly one new fetch, at the first reading of at least 200, all earlier ones being below; other events do nothing to the queue |
| Buckets.PushAllAt | src/hashtable/hashtable.c:91-93 | Pushing entries one by one onto their buckets leaves each bucket with its entries reversed before what it held |
| Buckets.PlanACorrect | src/hashtable/hashtable.c:83-98 | The new-table rehash keeps the bag of entries, puts each in its bucket, and for every hash reverses the order of its entries |
| Buckets.SweptAt | src/hashtable/hashtable.c:107-121 | After sweeping the first buckets in place, each bucket holds its arrivals, newest first, before what belonged in it; arrivals in buckets swept later stay put |
| Buckets.PlanBCorrect | src/hashtable/hashtable.c:99-122 | The in-place rehash keeps the bag of entries and puts each in its bucket; entries of one hash are reversed if they change bucket, and keep their order otherwise |
| Buckets.PlacedIs | src/hashtable/hashtable_private.h:32-35 | An entry belongs in the bucket that is its hash modulo the number of buckets |
| Buckets.PlanBReverses | src/hashtable/hashtable.h:97-101 | The documented reversal holds of a hash in a table exactly when its entries change bucket or read the same backwards |
| Buckets.PlanBAlwaysReverses | src/hashtable/hashtable.h:97-101 | It holds of a hash in all tables of a size exactly when the hash changes bucket |
| Buckets.DuplicatesNotReversed | src/hashtable/hashtable.h:97-101 | Two entries of one hash that growing from 53 to 97 buckets in place does not reverse |
| TableSpec.CountIsBagSize | src/hashtable/hashtable_private.h:16-24 | The sum of the chain lengths is the number of entries |
| TableSpec.PrimesAre | src/hashtable/hashtable.c:15-23 | The sizes are 48 times the powers of two plus the listed small distances |
| TableSpec.LoadLimitIs | src/hashtable/hashtable.c:25-51 | The load limit is the least number not below 65 in a hundred of the size; 35 for 53 |
| TableSpec.MixIs | src/hashtable/hashtable.c:56-67 | The mixing multiplies by -511 and takes 1 away, adds a rotation by 14 without carry, multiplies by 17, and adds a rotation by 10 without carry, in 32 bits |
| TableSpec.MixIsOnly | src/hashtable/hashtable.c:56-67 | Nothing else does |
| TableSpec.InsertedGrows | src/hashtable/hashtable.c:142-149 | With memory, an insertion moves to the next size exactly when the table holds 65 entries or more for every hundred buckets |
| TableSpec.NewestIsFound | src/hashtable/hashtable.c:150-177 | Of entries with one key, a search finds the latest inserted |
| TableSpec.ExpandedOk | src/hashtable/hashtable.c:70-126 | Expansion keeps entries and invariant, moves to the next prime, and fails exactly at the largest prime or without memory for either plan, changing nothing |
| TableSpec.InsertedOk | src/hashtable/hashtable.c:136-159 | Insertion succeeds exactly if the entry could be allocated, and then adds just that entry, expansion or not |
| TableSpec.InsertedLoad | src/hashtable/hashtable.c:142-149 | One expansion always suffices: a table within its load limit stays within it unless the expansion failed |
| TableSpec.RemovedOk | src/hashtable/hashtable.c:180-211 | Removal takes out exactly one matching entry and returns its value, or finds that the table holds no match and changes nothing |
| TableMap.CallAgrees | src/hashtable/hashtable.c:136-211 | One call on a table that represents a map answers like the map, and represents the map after the call |
| TableMap.TableIsMap | src/hashtable/hashtable.c:71-211 | For any hash and any equivalence, every sequence of inserts of absent keys, searches and removes, with any expansions and allocation failures, answers like a finite map keyed by equal mixed hash and `eqfn` |
| TableMap.EmptyTableIsEmptyMap | src/hashtable/hashtable.c:41-53 | A new table represents the empty map |
| TableRuns.Perform | src/hashtable/hashtable.c:136-211 | The table on the heap, taken through a sequence of calls, gives the specified answers and ends with the specified contents |
| TableRuns.PerformAsMap | src/hashtable/hashtable.c:136-211 | A heap table that represents a map answers a whole sequence of calls like it, and represents what the map has become |
| TableMap.LoadStaysLimited | src/hashtable/hashtable.c:137-149 | Every reachable table has the size its prime index says, and is within its load limit if no needed expansion failed |
| TaskTable.ZkHash | src/zk_cli.c:99-107 | On any terminated string the hash is 5381 times 33 to the length plus the characters weighted by falling powers of 33, those above 127 being negative, modulo 2^32 |
| TaskTable.TaskTableIsMap | src/zk_cli.c:112-117 | The task table answers like a map in which two keys are one when they agree in eight bytes and in the hash of their strings |
| TaskTable.EqualMeansSameString | src/zk_cli.c:109-111 | Keys equal to a given one all have its string exactly when the string is shorter than eight |
| TaskTable.EqualMeansSameHash | src/zk_cli.c:99-111 | They all have its hash exactly when the string is shorter than eight: only then is the table's equality the comparison alone |
| TaskTable.SameStringMeansEqual | src/zk_cli.c:109-111 | Keys with the string of a given one are all equal to it exactly when the string has at least seven characters |
| TaskTable.PaddedKeysCompareByPrefix | src/zk_cli.c:109-111 | Zero-padded keys are equal exactly when their strings agree in the first eight characters, so as strings up to that length |
| TaskTable.EqualKeysWithDifferentHashes | src/zk_cli.c:99-111 | Keys that compare equal can hash differently |
| TaskTable.DifferentStringsSameKey | src/zk_cli.c:99-111 | Different strings can be one key |
| TaskTable.SameStringDifferentKeys | src/zk_cli.c:109-111 | One string can be two keys |
| Chains.PushFront | src/hashtable/hashtable.c:156-157 | Linking an entry at a chain's head extends that chain and no other |
| Chains.Unlink | src/hashtable/hashtable.c:200 | Rewriting the link to an entry takes just that entry off its chain, its own link unchanged |
| Rehash.RehashIntoNew | src/hashtable/hashtable.c:86-95 | The pointer loops of the first plan compute the new-table rehash |
| Rehash.SweepBucket | src/hashtable/hashtable.c:108-120 | The pointer-to-link walk over one chain computes the sweep of that bucket |
| Rehash.RehashInPlace | src/hashtable/hashtable.c:107-121 | The loops of the second plan compute the in-place rehash |
| HashTable.Create | src/hashtable/hashtable.c:28-53 | No table exactly if too large or out of memory; else an empty one whose size is the least listed prime above the minimum |
| HashTable.HashTable.Expand | src/hashtable/hashtable.c:70-126 | Computes the expansion, on the same entries |
| HashTable.HashTable.Insert | src/hashtable/hashtable.c:136-159 | Computes the insertion and its result, entry count and load limit kept |
| HashTable.HashTable.Locate | src/hashtable/hashtable.c:167-175 | The loop finds the first entry of the chain with the hash and an equal key, and the entry before it |
| HashTable.HashTable.Search | src/hashtable/hashtable.c:162-177 | Computes the lookup, changing nothing |
| HashTable.HashTable.Remove | src/hashtable/hashtable.c:180-211 | Computes the removal and returns what a lookup finds, read before the entry is freed; what is not freed then is what the table holds |
| HashTable.HashTable.Destroy | src/hashtable/hashtable.c:215-241 | In table order each entry is read, then freed with its key and, if asked, its value; the bucket array and the table come last; every entry is freed exactly once, its link being read only before that, and none is left |
| Teardown.FreeAll | src/hashtable/hashtable.c:221-238 | The loops release the entries of all chains in table order, and of all entries leave exactly those on no chain |
| Teardown.FreeChain | src/hashtable/hashtable.c:225-227 | The inner loop reads each link of a chain while its entry is allocated, and frees exactly the entries of the chain |
| Chains.NextOf | src/hashtable/hashtable.c:227 | Only the link of an entry not yet freed is read |
| Chains.Free | src/hashtable/hashtable.c:227 | Only an entry not yet freed is freed |
| HashTableItr.Split | src/hashtable/hashtable_itr.c:11-76 | An iterator's position splits the table's entries into those before and those from it on |
| HashTableItr.Itr.constructor | src/hashtable/hashtable_itr.c:11-35 | A fresh iterator has everything ahead, and is at the end exactly if the table is empty |
| HashTableItr.Itr.Advance | src/hashtable/hashtable_itr.c:41-76 | Passes exactly the current entry, `parent` stays the entry before the current one or null; zero exactly at the end |
| HashTableItr.Itr.Remove | src/hashtable/hashtable_itr.c:86-112 | Takes exactly the current entry out of the table and goes to the one after it, `parent` corrected, before freeing it; what is not freed then is what the table holds; zero exactly at the end |
| HashTableItr.Itr.Search | src/hashtable/hashtable_itr.c:115-142 | Succeeds exactly when a search of the table does, then stands at the first match; else changes nothing |
| HashTableItr.SearchAndRemove | src/hashtable/hashtable_itr.c:86-142 | Searching with the iterator and removing leaves the table that removing the key leaves |
| HashTableItr.Walk | src/hashtable/hashtable_itr.c:11-112 | From a fresh iterator, any mixture of advances and removals until zero visits each entry once and leaves exactly those kept, in order |
| UrlTables.EncodeOne | src/zk_urlEncode.c:16-31 | A character stands for itself exactly if it is a digit, a letter, '-', '.', '_' or '~'; a space becomes '+'; any other is '%' and its two lower-case hexadecimal digits |
| UrlTables.EncodeEach | src/zk_urlEncode.c:25-33 | A string is encoded character by character |
| UrlTables.DecodeEscape | src/zk_urlEncode.c:11-13 | An escape with digits of either case is 16 times the first plus the second |
| UrlTables.DecodeAnyEscape | src/zk_urlEncode.c:44-47 | An escape with any two characters is put together digit by binary digit from what `from_hex` makes of them |
| UrlTables.FromHexIs | src/zk_urlEncode.c:11-13 | What `from_hex` makes of any character |
| UrlTables.DecodeOne | src/zk_urlEncode.c:43-52 | A '%' with fewer than two characters after it disappears, '+' is a space, any other character stands for itself |
| UrlTables.DecodeAfter | src/zk_urlEncode.c:42-54 | The same after any text without '%' |
| UrlCodec.DecodeEncode | src/zk_urlEncode.c:23-57 | Decoding undoes encoding for every string of bytes |
| UrlCodec.EncodeIsCanonical | src/zk_urlEncode.c:23-36 | What encoding produces is canonical |
| UrlCodec.EncodeDecode | src/zk_urlEncode.c:23-57 | Encoding undoes decoding on exactly the canonical texts |
| UrlCodec.EncodeInjective | src/zk_urlEncode.c:23-36 | Different strings have different encodings |
| UrlTables.EncodedText | src/zk_urlEncode.c:25-33 | Encodings consist of digits, letters, the four marks, '+' and '%', and are longer than the string by two for each character escaped |
| UrlCodec.UrlEncode | src/zk_urlEncode.c:23-36 | The loop writes the encoding and its NUL, within 3 * strlen + 1 bytes |
| UrlCodec.UrlDecode | src/zk_urlEncode.c:40-57 | The loop writes the decoding and its NUL, within strlen + 1 bytes and reading no further than the terminator, on malformed and truncated escapes too |
| GuidText.ReadGuid | src/zk_cli.c:331-355 | The slicing loop reads each hexadecimal pair once, skips exactly the dash at offset 23, and yields the parsed GUID |
| GuidText.PrintParse | src/zk_cli.c:336-358 | Reading a well-shaped GUID and printing it gives the same text in capitals and braces |
| GuidText.ParsePrint | include/open62541.h:9663-9666 | A printed GUID is well-shaped between its braces and reads back as the same GUID |
| GuidText.PrintInjective | include/open62541.h:9663-9666 | Printing tells GUIDs apart |
| GuidText.PrintedCharacters | include/open62541.h:9663-9666 | A printed GUID is 38 characters: digits, dashes and braces, so no '/' |
| GuidTables.StrtoulIs | src/zk_cli.c:348-355 | What a field of any shape is converted to: spaces, a sign, "0x", hexadecimal digits and anything else, capped or negated in 64 bits |
| GuidTables.HexValueIs | src/zk_cli.c:348-355 | Numbers are read digit by digit, of either case |
| GuidTables.HexIs | include/open62541.h:9663-9666 | Numbers are printed in upper-case hexadecimal, padded with zeros |
| GuidTables.ParseIs | src/zk_cli.c:336-351 | The three numbers of a well-shaped text are those of characters 0-7, 9-12 and 14-17 |
| GuidTables.ParsedBytes | src/zk_cli.c:340-355 | Its eight bytes are the pairs from 19 and from 24 on |
| GuidTables.PrintIs | include/open62541.h:9663-9666 | Where each field of a printed GUID stands |
| ZnodePaths.PathGlobals.SetGroup | src/zk_cli.c:135-153 | From a GUID both programs set the same queue path, untruncated |
| ZnodePaths.TaskPathComplete | src/zk_cli.c:164-182 | A client's task path is the watched path and all of "/task-" exactly when the encoded URL has at most 65474 bytes |
| ZnodePaths.SetUpPaths | src/zk_cli.c:135-162 | The group's Queue and Active paths are two children of the group's path, and that one a child of /Servers |
| NameTables.PathsAre | src/zk_cli.c:135-182 | The paths of a group, as texts |
| NameTables.Buffers | src/zk_cli.c:135-174 | The global path buffers hold 1023 characters and the others 65534 |
| NameTables.ParentsAreOfPaths | src/zk_cli.c:209-246 | The set-up's nodes depend on one another as their paths do |
| ZnodePaths.WatchedInjective | src/zk_cli.c:164-174 | Servers of different groups never share a queue; a server with at most 65479 bytes of encoded URL shares it with no other, whatever the other's length |
| ZnodePaths.QueueIsItsOwn | src/zk_cli.c:164-174 | A server has a queue of its own exactly when its encoded URL has at most 65479 bytes |
| ZnodePaths.TaskLandsInQueue | src/zk_cli.c:164-182 | A task's znode is a child of the node a server watches exactly when GUID and URL both agree and the encoded URL has at most 65479 bytes; for longer ones it lands beside the queues |
| ZnodePaths.LandedTaskIsRead | examples/zuthServer.c:67-75 | A task that lands is named by the part of "task-" that fitted, and its number can be read exactly when the encoded URL has at most 65474 bytes |
| ZnodePaths.UnreadableTask | src/zk_cli.c:175-182 | A URL whose tasks land under names the server cannot read |
| ZnodePaths.WatchedIsChild | src/zk_cli.c:164-174 | Queues are direct children of their group's Queue node |
| ZnodePaths.CreatedIsWatched | examples/zuthServer.c:266-308 | The node a server creates for its tasks is the node it watches |
| ZnodePaths.LongUrlsCollide | src/zk_cli.c:165-169 | From 65480 encoded bytes on, a URL shares its queue with every continuation |
| ZnodePaths.ServerFindsTask | examples/zuthServer.c:171-176 | Of the tasks that land in its queue, the server finds exactly those whose path, number included, fits its buffer |
| QueueSetup.StepInv | src/zk_cli.c:186-250 | Every step of any server or of ZooKeeper, crashes and lost creates included, keeps: parents exist, and unless a needed create was lost, whatever is to exist before a pending create does, or is pending before it |
| QueueSetup.QueueMeansComplete | src/zk_cli.c:197-250 | In every run in which no create of a node but Queue is lost that was needed, the Queue node exists only when the whole set-up does, also for servers that returned early or were served |
| QueueSetup.FoundQueueStaysSilent | src/zk_cli.c:197-203 | A server that asks, is answered and finds the Queue node never creates anything, whatever happens afterwards |
| QueueSetupSafety.CrashedCreatesArrive | src/zk_cli.c:222-245 | The creates are not waited for: when a server dies at any point, any first part of those it sent may still arrive, in order |
| QueueSetupSafety.SetUpCompletes | src/zk_cli.c:186-250 | One server by itself, no create failing, makes all four nodes, whatever was there |
| QueueSetupSafety.EarlyReturnSafeExactly | src/zk_cli.c:201-250 | For every starting state and set of creates that may fail, the early return is safe in all runs exactly if Active exists beforehand, or no create of Active may fail and, with a second server, none of /Servers or the group's node unless that exists |
| QueueSetupSafety.LostServersCreate | src/zk_cli.c:213-220 | For any two servers, a run in which the ignored failure of one leaves a Queue without an Active node |
| QueueSetupSafety.LostGroupCreate | src/zk_cli.c:226-230 | The same for the ignored failure to create the group's node |
| QueueSetupSafety.LostActiveCreate | src/zk_cli.c:235-239 | For any one server, a run in which the ignored failure to create Active does so |
| QueueSetup.Ensemble.Initialize | src/zk_cli.c:186-250 | One server's set-up, others interfering anywhere and any of its creates failing: it returns early, having sent nothing, if it is answered and the Queue node is there, and otherwise sends /Servers and the three creates in order; unless a needed create was lost it returns early only on a complete tree, and its creates are made or on their way |

## Left out

- OPC UA processing, JSON, base64 and the secure-channel lookup: a request is usable or not, and executing it is an entry in a log.
- The event loop around the service level: the readings are a parameter, and one of them must be healthy for the callback to end.
- Session expiry, authentication failure and fetches not answered with ZOK: they stop the server.
- Whether the document of a task is usable is fixed when the task is created.
- The window between the first fetch and `UA_Server_new`.
- ZuthServer.Server.ProcessTasks: once the comparator has followed a null pointer the process is taken to be dead; children that are not sequential znodes of this library's clients are not modelled.
- A `zoo_delete` that takes effect only after it was reported failed.  One that takes effect and is reported failed counts as one that took effect: the report is only printed.
- The duplicate check by sequence number described at `examples/zuthServer.c:194-196`: it is not implemented, and the task table is never consulted.
- Qsort.SortingIsSorted: the C library's algorithm is not part of this model; insertion stands for it, and `TaskQueueTheorems.SortingUnique` shows that the choice does not matter.
- `memset` at `src/hashtable/hashtable.c:106` does not clear the new buckets as written (it is given a bucket's content as address, and a count of buckets rather than bytes).  The in-place plan is modelled from a tail that is empty, as intended.
- HashTable.HashTable.Expand: the source advances `primeindex` before it allocates and takes it back on failure; here it advances on success.
- The load limit is the integer ceiling of 65 * size / 100; `float` rounding is not modelled, nor the wrap-around of `entrycount` at 2^32 entries.
- HashTable.HashTable.Search: a stored NULL value, which callers cannot tell from an absent key, is here distinct from it.
- Memory ownership beyond entries: keys and values are freed as events of `HashTable.HashTable.Destroy` only.  Failure to allocate an iterator is not modelled.
- Hash quality: only that the mixing is a function is used.
- GuidText.ReadGuid: is given the zero-filled value buffer of the configuration reader; the other keywords, file access and `popen` are not modelled.
- QueueSetup.Ensemble.Initialize: a missing ZooKeeper handle.
- `examples/zuthClient.c` beyond the paths it builds, `src/simple_parse.c`, `src/nodeset.c`, logging and the code-to-string tables: printing and generated code with nothing to relate.

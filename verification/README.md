# Verification of the vendored Redis core

A Dafny model of the parts of Redis 3.0.4 (`redis-stable/src`) whose correctness is hard to see
from any one function: the incrementally rehashed hash table with its stateless scan, the cluster
protocol, the append-only file, the checksum of DUMP payloads, the word-parallel bit code and the
indexes of the key space. `dafny verify dfyconfig.toml` checks everything.

Code that changes state in place is modelled as classes, arrays and loops, each method proved
against a function on values; protocols are state machines over their steps. The theorems are
about these functions and machines, for all inputs, runs and interleavings.

## The parts

**Hash table** (`Basics`, `Options`, `Binary`, `Dict`, `DictSizing`, `DictRefinement`,
`DictTables`, `DictProgress`). `Dict` holds the two tables, the rehash index, the `used` counters
and the iterator count as a value, and every operation as a function; entries have addresses, so
that "the same entry" can be said. `DictTables` is the class with the two arrays and the loops of
the C code. Any run of calls, with tables expanded, shrunk and rehashed in between, answers as one
finite map does; every look-up and update takes a rehash on, unless an iterator is registered
(`DictProgress.CallGoesOn`), so that it ends within as many of them as the old table has buckets
left, and a run of dictRehash never does more than its share.

**Scan** (`DictScan`, `DictScanPass`, `DictPassExact`, `DictScanOnce`, `ScanWords`). A pass of
dictScan from cursor 0 back to 0 emits every element that is present throughout, whatever happens
between the calls, and it ends. The comment above dictScan promises this for every resizing. The
code keeps the promise only under a condition on each call that finds two tables: the bits of the
cursor between the two masks must be a run of low ones (none at all, and masks that differ by one
bit, are special cases). `TwoTableCallExact` shows that the condition is exact for a call,
`PassExact` that it is exact for a pass in which no table is smaller than at an earlier call that
broke it, `ShrinkMissesElement` gives a scan that misses a key, and `PassEmitsAll` is the theorem
under the condition. One call passes no entry to the callback twice, and exactly those whose hash
says so (`ScanOnce`, `ScanExact`). While tables only grow the condition always holds
(`GrowingEmitsAll`). The word arithmetic of the C code, with `rev` as the loop that exchanges
blocks, is proved equal to the arithmetic used there.

**Safe iterators** (`DictIterator`, `DictIteration`, `DictSafeIterator`). While the caller looks
up, adds (even starting a rehash), replaces and deletes returned entries, every entry of the start
is returned exactly once.

**Cluster** (`ClusterEpochs`, `ClusterCollision`, `ClusterQuiescence`, `ClusterReset`,
`ClusterChanges`, `ClusterElection`, `ClusterHandlers`, `ClusterSlots`, `ClusterConfig`,
`ClusterSave`). The protocol is a set of state machines: nodes, packets under way, and steps.
`ClusterChanges` says of every step which epochs and roles it changes, and to what. Every packet
ever sent may arrive late, repeatedly or never; an ACK of a vote arrives at most once. Proved are:
the current epoch of a node is at least every config epoch it knows; how collisions of config
epochs resolve themselves; and how far elections are safe.

Collisions: in every run in which config epochs of nodes change by collisions alone, while nodes
are introduced, forgotten, reset, demoted and restarted, as in a cluster that is being created, a
node moves at most 2^k - 1 times, if k greater-named nodes announce themselves as masters and
nothing is under way at the start (`BumpsBound`). The comment above
clusterHandleConfigEpochCollision promises that masters end with different epochs. A fresh PING of
`b` moves `a` exactly if `a` is a master with the smaller name, `b` announces itself as one, the
epochs are equal, and `a` knows `b` and has recorded no epoch of it that is ahead of it
(`FreshPing`); so nothing moves any more exactly if every shared epoch is hidden from the
smaller-named node (`QuiescentMeansDistinct`). While all senders publish their own epochs nothing
but not knowing each other hides one (`CreationSettles`). But a slave publishes the epoch of its
master: after CLUSTER RESET SOFT it can be a master with an epoch that is behind what others have
recorded of it. `ResetHides` is a run, for any names and epochs, that ends with two masters that
know each other and share an epoch, and `SharedForGood` shows that no later PING changes that.

Elections: the code counts an ACK that is not older than the last election of the candidate, so
ACKs of an earlier attempt may be counted between the reset of the count and the new election
epoch. Two slaves can win one epoch, with a fixed electorate, if and only if these stale counts
add up to the margin of two majorities, which is one for an odd and two for an even electorate
(`ElectionExact`): below it at most one slave wins (`ElectionSafety`), and for every electorate
and all counts that reach it there is a run with two winners (`StaleAcksElectTwo`). The winner of
an election is a master under an epoch that is above all that it knew (`WinnerIsAhead`), and takes
every slot that it claims from owners below that epoch (`ReceiveClaim`). `ClusterHandlers` is the
class form of the handlers, proved to make exactly the steps of the machines, and when.

`ClusterSlots` keeps slot table, bitmaps and counts in agreement; a slave whose master is missing
fails on a claim exactly when the claim takes an unassigned slot (`UpdateSlotsConfigWith`).
`ClusterConfig` prints and reads the slot ranges of a node and the slots on the move; what is read
back is what was printed, except that a slot which is both moved away and imported loses its
import (`SaveAndLoad`). `ClusterSave` does this for all nodes: the whole slot table comes back
(`SaveAndLoadAll`).

**Append-only file** (`Decimal`, `Resp`, `AofLoader`, `AofCorrupt`, `Verbs`, `Database`,
`Commands`, `CommandOutcomes`, `AofObjects`, `AofSnapshot`, `AofFeed`, `AofPrune`, `AofFile`,
`AofRewriteBuffer`, `AofServer`). Files and pipes are byte sequences, and a write takes any
prefix. Loading a file that was cut anywhere runs exactly the whole commands before the cut, while
damage of other kinds is refused (`AofCorrupt`); `CommandOutcomes` says of every command which
values and deadlines it leaves behind; replaying a rewrite rebuilds the data set; flushes lose and
repeat nothing; and in every run of a server with its rewriting child, loading the file and the
buffer, with any clock readings, rebuilds the data set (`AofServer.Durable`). Commands read the
clock and may act on all databases. The theorem is about runs whose commands meet two conditions,
and what happens without them is stated exactly, for every command spelt out here that acts on one
database (`ReloadAgrees` for the file, `RewriteAgrees` for the file that a child is writing):

- What is written for a command takes effect at the clock reading of its execution, or it gives no
  time to live. EXPIRE, PEXPIRE, EXPIREAT, SETEX and PSETEX are translated into absolute deadlines
  (`TranslationKeepsMeaning`); the clock is read again for this, and a deadline in the file is
  later by as much as it has moved (`DeadlineDrift`). SET with EX or PX and RESTORE with a time to
  live are written as they are and count from the time of loading (`VerbatimDrift`);
  `SetWithExMoves` is an example. `TimelessExactly` says which commands do not depend on the
  clock.
- A command does not see keys whose deadline had passed when the last rewrite left them out. The
  child reads its clock after the fork, so a key that it leaves out may not have expired yet when
  the parent executes a command. `LocalBlind` and `MoveBlind` say exactly which commands are
  harmless then: DEL, FLUSHDB and FLUSHALL always; RPUSH, SADD, ZADD, HMSET and PERSIST if they
  are given no such key; EXPIRE and its family if an expired key is given a deadline that has
  passed, and another key one that has not; SET and RESTORE if they store the value, with a
  deadline that has not passed, exactly when they would without these keys; SETEX and PSETEX if
  the deadline that they give has not passed; MOVE if it moves the key exactly when it would
  without these keys. In `PushLosesList` the rewritten file loses a list that is in memory, and
  its deadline, by RPUSH; in `PersistLosesKey` a key by PERSIST.

**Checksums** (`Words`, `ByteRegister`, `Crc64`, `DumpPayload`). The table is eight steps of the
bit-serial register, every step can be undone, and so every change within eight neighbouring bytes
of a DUMP payload is rejected, the footer included.

**Bit code** (`PopCount`, `BitPos`, `BitOp`). The seven-word population count, the word-skipping
bit search and the four-word fast path of BITOP compute what their simple definitions say, for all
strings, lengths and starting addresses.

**Key space** (`SlotIndex`, `Keyspace`, on the values of `Database` that the loader also uses).
Through every command the deadlines belong to keys and the slot index lists exactly the keys under
their slots, so that rank arithmetic counts the keys of a slot and the presence assertions never
fire.

**Linked list** (`Adlist`). Nodes in the heap, with the sequence of nodes as the abstract value.

## Model

| member | source | states |
|---|---|---|
| `Dict.Rehash` | redis-stable/src/dict.c:245-288 | any number of rehash steps keeps the two-table invariant and every entry; it reports more work exactly while a rehash is under way; each step moves the index on by at least one bucket |
| `Dict.RehashLoop` | redis-stable/src/dict.c:249-275 | the loop over buckets never runs past the old table, leaves emptied buckets behind the index, and moves entries without losing or copying one |
| `Dict.NextPower` | redis-stable/src/dict.c:945-955 | the least doubling of four that is not below the size |
| `Dict.Expand` | redis-stable/src/dict.c:204-234 | refuses exactly when a rehash is under way, the entries do not fit or the size would not change; otherwise no entry is touched |
| `Dict.ExpandIfNeeded` | redis-stable/src/dict.c:923-942 | never fails, keeps every entry, leaves a table to insert into |
| `Dict.Add` | redis-stable/src/dict.c:322-369 | succeeds exactly when the key is absent; then the key and no other look-up changes |
| `Dict.Find` | redis-stable/src/dict.c:489-508 | finds the entry of the key in either table, moving at most one bucket on the way |
| `Dict.Replace` | redis-stable/src/dict.c:375-394 | afterwards the key has the value, in its old entry if there was one; it says whether it was new |
| `Dict.Delete` | redis-stable/src/dict.c:409-448 | succeeds exactly when the key is present; afterwards it is absent and nothing else changed |
| `Dict.Resize` | redis-stable/src/dict.c:192-201 | never while resizing is off or a rehash is under way, and loses nothing |
| `DictSizing.Growth` | redis-stable/src/dict.c:923-955 | a table starts to grow exactly at one entry per bucket (more than five while resizing is off), to room for at least twice and less than four times the entries |
| `DictSizing.FirstTable` | redis-stable/src/dict.c:923-930 | the first table has four empty buckets, and no rehash starts |
| `DictSizing.Shrink` | redis-stable/src/dict.c:192-201 | dictResize leads to the least power of two that holds the entries and is at least four |
| `DictSizing.ShrinkWhen` | redis-stable/src/dict.c:192-201 | dictResize is refused exactly when resizing is off, a rehash is under way, or the table has that size already |
| `DictRefinement.ExecRefines` | redis-stable/src/dict.c:192-508 | one call on the two tables answers as the same call on a map and leaves the map that it would leave |
| `DictRefinement.DictionaryRefinesMap` | redis-stable/src/dict.c:168-508 | in every run of any calls, with tables resized and rehashed in between, all answers are those of one map, the invariant holds and the `used` counters are exact |
| `DictRefinement.RehashTerminates` | redis-stable/src/dict.c:245-319 | a rehash is over after at most as many one-bucket steps as the old table has buckets left, with the same entries at the same addresses |
| `DictProgress.RehashIsIncremental` | redis-stable/src/dict.c:239-288 | a run of dictRehash moves at most n chains and passes at most ten times as many empty buckets; if it ends the rehash, no more chains were left |
| `DictProgress.CallGoesOn` | redis-stable/src/dict.c:310-319 | a look-up or update, of whatever key, takes a rehash on by a bucket at least, or ends it, when no iterator is registered; otherwise the rehash index and all buckets but that of the key stay as they are |
| `DictProgress.CallIsSmall` | redis-stable/src/dict.c:310-319 | and does no more: at most one chain is moved, or two by the two look-ups of a Replace that finds its key, and ten times as many empty buckets are passed |
| `DictProgress.CallsEndRehash` | redis-stable/src/dict.c:310-319 | while no iterator is registered a rehash is over after at most as many look-ups and updates as the old table has buckets left |
| `DictProgress.IteratorsCounted` | redis-stable/src/dict.c:310-319 | no call but the start and the release of an iterator, and emptying, changes how many are registered |
| `DictTables.DictTables.constructor` | redis-stable/src/dict.c:168-188 | an empty dictionary |
| `DictTables.DictTables.Rehash` | redis-stable/src/dict.c:245-288 | the loops over arrays and chains do what `Dict.Rehash` says |
| `DictTables.DictTables.RehashStep` | redis-stable/src/dict.c:317-319 | in place: nothing changes while an iterator is registered; otherwise the rehash index has moved on or the rehash is over |
| `DictTables.DictTables.Expand` | redis-stable/src/dict.c:204-234 | allocates the table that `Dict.Expand` says, or refuses |
| `DictTables.DictTables.RealSize` | redis-stable/src/dict.c:945-955 | the doubling loop returns `Dict.NextPower` |
| `DictTables.DictTables.ExpandIfNeeded` | redis-stable/src/dict.c:923-942 | grows the table exactly as `Dict.ExpandIfNeeded` says |
| `DictTables.DictTables.Locate` | redis-stable/src/dict.c:963-985 | the position of the key in the table that holds it, or none |
| `DictTables.DictTables.Add` | redis-stable/src/dict.c:322-369 | in place, the new state and answer of `Dict.Add` |
| `DictTables.DictTables.Find` | redis-stable/src/dict.c:489-508 | in place, the new state and answer of `Dict.Find` |
| `DictTables.DictTables.Replace` | redis-stable/src/dict.c:375-394 | in place, the new state and answer of `Dict.Replace` |
| `DictTables.DictTables.Delete` | redis-stable/src/dict.c:409-448 | in place, the new state and answer of `Dict.Delete` |
| `DictTables.DictTables.Resize` | redis-stable/src/dict.c:192-201 | in place, the new state and answer of `Dict.Resize` |
| `ScanWords.ReverseBits` | redis-stable/src/dict.c:755-763 | the block-exchanging loop reverses all 64 bits of every word |
| `DictTables.DictTables.Scan` | redis-stable/src/dict.c:849-918 | on machine words with `&`, `|`, `^` and `~`, the cursor and entries of the arithmetic specification |
| `DictTables.EmitExpansions` | redis-stable/src/dict.c:893-905 | the do-while loop visits the expansions of the cursor in the larger table, in order |
| `DictTables.AdvanceCursor` | redis-stable/src/dict.c:908-917 | setting the unmasked bits and incrementing the reversed cursor |
| `DictScan.AdvanceForward` | redis-stable/src/dict.c:765-848 | the place of the cursor in reversed order strictly grows with every call |
| `DictScan.StretchIsBucket` | redis-stable/src/dict.c:765-848 | every hash whose place a call passes lies in the bucket at the cursor |
| `DictScan.ExpansionsAre` | redis-stable/src/dict.c:893-905 | the loop reaches exactly the buckets that agree with the cursor below the smaller mask and are not smaller between the masks |
| `DictScanPass.TwoTableCallExact` | redis-stable/src/dict.c:884-917 | a two-table call covers the stretch that its cursor skips if and only if the cursor bits between the masks are a run of low ones; all zero and masks that differ by one bit are special cases |
| `DictScanPass.ScanEmits` | redis-stable/src/dict.c:849-918 | under that guard an entry whose place lies in the stretch is emitted |
| `DictScanPass.ScanEmitsEntries` | redis-stable/src/dict.c:849-918 | nothing is emitted that is not in the dictionary |
| `DictScanOnce.ExpansionsOnce` | redis-stable/src/dict.c:899-910 | the loop over expansions comes to no bucket twice |
| `DictScanOnce.ScanOnce` | redis-stable/src/dict.c:849-918 | one call passes no entry to the callback twice |
| `DictScanOnce.ScanExact` | redis-stable/src/dict.c:849-918 | exactly those entries are passed whose hash agrees with the cursor below the smaller mask and, if they are in the larger table, is not smaller between the masks |
| `DictScanPass.PassEmitsAll` | redis-stable/src/dict.c:765-918 | a pass from cursor 0 back to 0 emits every key that is present throughout, whatever power-of-two sizes the tables have at each call |
| `DictPassExact.BadCallMisses` | redis-stable/src/dict.c:765-918 | a call that breaks the guard, after which no table is smaller, loses a hash: no other call of the pass comes to its bucket |
| `DictPassExact.MissedKey` | redis-stable/src/dict.c:765-918 | a key with that hash which is in the larger table at that call is not emitted in the whole pass |
| `DictPassExact.PassExact` | redis-stable/src/dict.c:765-918 | a finished pass in which no table is smaller than at an earlier call that breaks the guard reaches every hash if and only if no call breaks it |
| `DictPassExact.GrowingGood` | redis-stable/src/dict.c:765-918 | while the smaller table never has fewer buckets than at an earlier call, every cursor meets the guard |
| `DictPassExact.GrowingEmitsAll` | redis-stable/src/dict.c:765-918 | so a finished pass in which tables only grow emits every key present at all its calls, without any condition on the cursors |
| `DictScanPass.PassEnds` | redis-stable/src/dict.c:765-918 | a pass ends within as many calls as the largest of the smaller tables has buckets |
| `DictScanPass.ShrinkMissesElement` | redis-stable/src/dict.c:765-918 | the guard is needed: a concrete scan over a table that shrinks from 16 buckets to 4 finishes without ever emitting a key that was present all along |
| `DictIterator.NextReturns` | redis-stable/src/dict.c:575-608 | dictNext returns an entry that was ahead, if any is, and then exactly the others are ahead |
| `DictIteration.AddKeeps` | redis-stable/src/dict.c:317-369 | adding a key, even if that starts a rehash, leaves ahead of a safe iterator what was ahead |
| `DictIteration.ReplaceKeeps` | redis-stable/src/dict.c:317-394 | so does replacing a value |
| `DictIteration.DeleteKeeps` | redis-stable/src/dict.c:409-444 | so does deleting an entry that is no longer ahead |
| `DictIteration.SafeIteration` | redis-stable/src/dict.c:568-619 | while the caller finds, adds, replaces and deletes returned entries, no entry is returned twice, and at the end every entry of the start has been returned |
| `DictSafeIterator.SafeIterator.Next` | redis-stable/src/dict.c:575-608 | dictNext as a loop over the iterator fields does what `DictIterator.Next` says |
| `ClusterEpochs.ReceiveBounded` | redis-stable/src/cluster.c:1593-1602 | no packet takes the current epoch of a node below a config epoch it knows |
| `ClusterEpochs.ReceiveLearns` | redis-stable/src/cluster.c:1589-1602 | an unknown sender changes nothing; a known one raises the current epoch and its own to those it sends; other epochs change only by an UPDATE about them; no epoch goes back |
| `ClusterEpochs.ReceiveOwnEpoch` | redis-stable/src/cluster.c:1861-1963 | a node's own epoch changes only by an UPDATE or by a collision between masters that the smaller name leaves, to an epoch greater than all it knows |
| `ClusterEpochs.CurrentEpochIsGreatest` | redis-stable/src/cluster.c:973-990 | in every run (packets, bumps, elections, commands, restarts) each node's current epoch is at least every config epoch it knows, and every packet ever sent says so too |
| `ClusterChanges.PacketSent` | redis-stable/src/cluster.c:2105-2160 | a packet has the current epoch and the own config epoch of its sender, or that of the master of a slave, and a PING the name of that master |
| `ClusterChanges.PingReceived` | redis-stable/src/cluster.c:1589-1870 | everything that a PING changes: both epochs of its header are kept where they are greater; the sender is known in the role that it announces; this node becomes its slave if demoted, and otherwise moves to a new epoch exactly on a collision |
| `ClusterChanges.UpdateReceived` | redis-stable/src/cluster.c:1940-1964 | everything that an UPDATE changes: a newer epoch is recorded, its node is a master, whose slave this node becomes if demoted |
| `ClusterChanges.ElectionStarts` | redis-stable/src/cluster.c:2821-2834 | an election is started in an epoch greater than all that the node knows |
| `ClusterChanges.ElectionWon` | redis-stable/src/cluster.c:2842-2853 | the winner is a master; its config epoch is that of the election unless it was greater already; no other epoch or role changes, here or elsewhere |
| `ClusterChanges.WinnerIsAhead` | redis-stable/src/cluster.c:2821-2853 | in every run, winning takes the config epoch of the winner above every epoch that it knew when it asked for the votes |
| `ClusterChanges.ReceiveClaim` | redis-stable/src/cluster.c:1437-1525 | the first claims of the winner elsewhere: every claimed slot that is not imported, and unassigned or held under an epoch below that of the election, is then its own; no other slot moves |
| `ClusterChanges.EpochBumped` | redis-stable/src/cluster.c:973-990 | a bump changes nothing if the own epoch is there and no known one is greater; otherwise it leads to an epoch greater than all known ones |
| `ClusterChanges.EpochSet` | redis-stable/src/cluster.c:4237-4272 | an epoch is set by hand exactly on a node that knows no other and has none |
| `ClusterChanges.NodeAdded` | redis-stable/src/cluster.c:652-678 | a node that is introduced is known without an epoch; one that is known stays as it is |
| `ClusterChanges.NodeRestarted` | redis-stable/src/cluster.c:262-275 | a node that restarts has what it saved, and the greatest epoch in it as the current one |
| `ClusterChanges.NodeForgotten` | redis-stable/src/cluster.c:866-893 | a forgotten node is known no more and its slaves have no master; a node does not forget itself or its master |
| `ClusterChanges.NodeReset` | redis-stable/src/cluster.c:489-539 | after a soft reset a node is a master that knows itself alone, with all its epochs |
| `ClusterCollision.ReceiveOwn` | redis-stable/src/cluster.c:1863-1868 | a PING of another node moves its receiver, in whatever roles, only if the sender announces itself as a master, has the greater name and the same epoch, and no greater one was recorded of it; then upwards |
| `ClusterCollision.StepOwn` | redis-stable/src/cluster.c:1038-1053 | whatever step is made, an own epoch stays, or grows on the PING of a greater-named node that announces it |
| `ClusterCollision.PacketHasValue` | redis-stable/src/cluster.c:2110-2136 | in every run, the epoch in a PING of a master was under way at the start or is one that the sender has had since |
| `ClusterCollision.BumpsCountValues` | redis-stable/src/cluster.c:1038-1053 | a node has had exactly one epoch more than it has moved, in every run in which own epochs change by collisions, whatever joins, resets, demotions and restarts there are |
| `ClusterCollision.UnionBound` | redis-stable/src/cluster.c:1038-1053 | any n nodes that contain, with each of them, all greater-named ones that announce themselves as masters have had fewer than 2^n * (u + 1) epochs together, where u are under way at the start, and are counted |
| `ClusterCollision.BumpsBound` | redis-stable/src/cluster.c:1010-1053 | in every such run, from any state, a node moves fewer than 2^k * (u + 1) times, where k greater-named nodes announce themselves as masters in the run and u epochs are under way at its start: at most 2^k - 1 times if none is |
| `ClusterQuiescence.FreshPing` | redis-stable/src/cluster.c:1863-1868 | a fresh PING of any node moves its receiver exactly when the receiver is not demoted by it and is a master, the sender announces itself as one and has the greater name and the same epoch, and the receiver knows it and has recorded no epoch of it that is ahead of it |
| `ClusterQuiescence.QuiescentMeansDistinct` | redis-stable/src/cluster.c:1038-1053 | no fresh PING moves anyone if and only if every shared epoch is hidden from the smaller-named node; if all masters see the greater-named ones as they are, if and only if no epoch is shared |
| `ClusterQuiescence.StepNoneAhead` | redis-stable/src/cluster.c:2110-2136 | while senders publish their own epochs, no step makes a record or a packet carry an epoch that is ahead of the node it is about |
| `ClusterQuiescence.CreationSettles` | redis-stable/src/cluster.c:1010-1053 | in every run in which senders publish their own epochs, no fresh PING moves anyone if and only if nodes share epochs only with nodes that they do not know |
| `ClusterReset.ResetHides` | redis-stable/src/cluster.c:489-539 | for any names and epochs, a run with a soft reset of a slave after which two masters that know each other share an epoch and no fresh PING moves either |
| `ClusterReset.SharedForGood` | redis-stable/src/cluster.c:1863-1868 | from such a state, in every run of PINGs, both epochs stay what they are |
| `ClusterElection.StepVotes` | redis-stable/src/cluster.c:2455-2555 | under every step a voter votes at most once per epoch, in increasing epochs |
| `ClusterElection.CountedAckIsCurrent` | redis-stable/src/cluster.c:1917-1929 | a counted ACK of an election carries exactly the epoch of the election |
| `ClusterElection.MajoritiesMeet` | redis-stable/src/cluster.c:2691-2694 | two sets of voters that together are more than the electorate share a member |
| `ClusterElection.ElectionSafety` | redis-stable/src/cluster.c:2691-2856 | at most one slave wins in any epoch, unless the stale ACKs with which two started it reach the margin of two majorities: one for an odd electorate, two for an even one |
| `ClusterElection.SafeWithoutStaleAcks` | redis-stable/src/cluster.c:2691-2856 | in particular if no ACK is counted between the reset of the count and the new election epoch |
| `ClusterElection.StaleAcksElectTwo` | redis-stable/src/cluster.c:2760-2849 | for every electorate, two slaves and all numbers of stale ACKs that reach the margin: a complete run in which both win one epoch |
| `ClusterElection.ElectionExact` | redis-stable/src/cluster.c:2691-2856 | two winners of one epoch, started with p and q stale ACKs, are possible if and only if p and q add up to the margin and neither exceeds the electorate |
| `ClusterHandlers.ClusterState.constructor` | redis-stable/src/cluster.c:396-478 | a fresh node: a master without epochs |
| `ClusterHandlers.ClusterState.AcceptHeader` | redis-stable/src/cluster.c:1589-1602 | the current epoch and the sender's config epoch are raised to those of the header |
| `ClusterHandlers.ClusterState.SwitchRole` | redis-stable/src/cluster.c:1753-1787 | the sender is known from then on in the role that it announces |
| `ClusterHandlers.ClusterState.SetNodeAsMaster` | redis-stable/src/cluster.c:1413-1424 | the node is a master, nothing else changes |
| `ClusterHandlers.ClusterState.HandleConfigEpochCollision` | redis-stable/src/cluster.c:1038-1053 | in place, what the step of the state machine says |
| `ClusterHandlers.ClusterState.ProcessPacket` | redis-stable/src/cluster.c:1589-1963 | the handler that updates node objects does to epochs and roles exactly what the step of the state machine does |
| `ClusterHandlers.ClusterState.GetMaxEpoch` | redis-stable/src/cluster.c:929-942 | the loop returns the greatest epoch known, the current one included |
| `ClusterHandlers.ClusterState.BumpConfigEpoch` | redis-stable/src/cluster.c:973-990 | a new epoch above all others, unless this node has the greatest one already; it says which |
| `ClusterHandlers.ClusterState.SetConfigEpoch` | redis-stable/src/cluster.c:4237-4272 | accepted exactly from a node that knows no other and has no epoch, for an epoch that is not negative |
| `ClusterHandlers.ClusterState.SendFailoverAuthIfNeeded` | redis-stable/src/cluster.c:2455-2555 | votes exactly when this node serves slots, the request is current and the first of its epoch, the master of the candidate is down (or the request forced) and was not voted about for two node timeouts, and no claimed slot is held under a greater epoch; then the vote and its time are recorded |
| `ClusterHandlers.ClusterState.ReceiveAuthRequest` | redis-stable/src/cluster.c:1914-1916 | a request of a known node, after its header, is answered exactly as the state machine does; the ACK carries the epoch of the vote |
| `ClusterHandlers.ClusterState.ReceiveAuthAck` | redis-stable/src/cluster.c:1917-1929 | counts exactly the ACKs of slot-serving masters that are not older than the election |
| `ClusterHandlers.ClusterState.AskForVotes` | redis-stable/src/cluster.c:2822-2834 | the election epoch is a new one |
| `ClusterHandlers.ClusterState.ScheduleElection` | redis-stable/src/cluster.c:2758-2785 | the count restarts at zero and the attempt is put off by delay, random part and rank |
| `ClusterHandlers.ClusterState.TakeOver` | redis-stable/src/cluster.c:2842-2853 | a master without a master, under the greater one of its config epoch and that of the election |
| `ClusterHandlers.ClusterState.HandleSlaveFailover` | redis-stable/src/cluster.c:2691-2856 | exactly when it schedules, asks for votes, wins or does nothing, by the state of the master, the age of the data, manual failover, clock, rank and count; the whole new state in each case; and the epoch of a winner |
| `ClusterHandlers.DueExactly` | redis-stable/src/cluster.c:2693-2811 | when another attempt is scheduled, and from when to when votes may be asked for, in milliseconds |
| `ClusterHandlers.RankedOnce` | redis-stable/src/cluster.c:2787-2808 | the delay for a worse rank is a second for each better slave, added once |
| `ClusterHandlers.AskedLater` | redis-stable/src/cluster.c:2737-2802 | votes are not asked for earlier than half a second after an attempt was scheduled, and a second for every better slave, then or now; by hand at once |
| `ClusterSlots.Node.SetSlotBit` | redis-stable/src/cluster.c:3325-3330 | the bit is set, the count follows, the old bit is returned |
| `ClusterSlots.Node.ClearSlotBit` | redis-stable/src/cluster.c:3333-3338 | the bit is cleared, the count follows, the old bit is returned |
| `ClusterSlots.SlotTable.AddSlot` | redis-stable/src/cluster.c:3349-3354 | refused exactly for an assigned slot; table, bitmaps and counts agree afterwards |
| `ClusterSlots.SlotTable.DelSlot` | redis-stable/src/cluster.c:3359-3366 | refused exactly for an unassigned slot; the assertion on the owner's bit never fails |
| `ClusterSlots.SlotTable.DelNodeSlots` | redis-stable/src/cluster.c:3370-3378 | the node owns nothing any more, other owners keep their slots |
| `ClusterSlots.SlotTable.ReplaceMaster` | redis-stable/src/cluster.c:2664-2669 | the promoted slave owns what it and its master owned, and nobody else loses a slot |
| `ClusterSlots.SlotTable.TakesExactly` | redis-stable/src/cluster.c:1437-1525 | a claim takes a slot exactly if it is not imported, not the claimant's already, and unassigned or held under a smaller epoch |
| `ClusterSlots.SlotTable.UpdateSlotsConfigWith` | redis-stable/src/cluster.c:1437-1525 | a slot moves exactly when it is claimed, not imported, and unassigned or held under a smaller epoch; every claimed slot that is not imported ends with the claimant or an owner of at least that epoch; when this node turns into a slave and which keys it drops; and that a slave without a master reads through a null pointer exactly when an unassigned slot is claimed that it does not import |
| `ClusterConfig.PrintSlots` | redis-stable/src/cluster.c:3653-3671 | the printed ranges are the maximal runs of the bitmap, in order and disjoint, and list exactly its slots |
| `ClusterConfig.ParseOfToken` | redis-stable/src/cluster.c:223-257 | a printed range reads back as itself |
| `ClusterConfig.PrintedIsListed` | redis-stable/src/cluster.c:3653-3671 | the printed ranges list exactly the slots of the bitmap |
| `ClusterConfig.ParseOfMove` | redis-stable/src/cluster.c:226-248 | a printed slot on the move reads back with its direction and the name of the other node |
| `ClusterConfig.PrintMoves` | redis-stable/src/cluster.c:3673-3686 | the loop prints one token for every slot that is moved away or imported |
| `ClusterConfig.MovesRestored` | redis-stable/src/cluster.c:226-248 | reading the printed moves restores every slot that is moved away, and every import of a slot that is not |
| `ClusterConfig.LoadSlots` | redis-stable/src/cluster.c:222-257 | every listed slot that is unassigned goes to the node, no other slot changes; tokens in brackets set the moves |
| `ClusterConfig.SaveAndLoad` | redis-stable/src/cluster.c:222-257 | printing and loading gives the node exactly the slots of the bitmap and all slots that are moved away; all imports come back if and only if no slot is both moved away and imported |
| `ClusterSave.Describe` | redis-stable/src/cluster.c:3626-3688 | the line of a node lists exactly its slots, and says of slots on the move what is known if it is this node, and nothing otherwise |
| `ClusterSave.Save` | redis-stable/src/cluster.c:3703-3720 | one such line for every node |
| `ClusterSave.Load` | redis-stable/src/cluster.c:222-257 | into a table without slots: every slot goes to the node whose line lists it, and to none if no line does |
| `ClusterSave.SaveAndLoadAll` | redis-stable/src/cluster.c:3703-3720 | saving all nodes and loading the lines into an empty table gives every slot to the node that takes the place of its owner, and all slots moved away; all imports exactly when no slot is both |
| `Resp.CatCommand` | redis-stable/src/aof.c:435-458 | appends the encoding of the command |
| `Resp.LineExactly` | redis-stable/src/aof.c:637-641 | a line ends with the first newline, after 127 bytes, or at the end of the file |
| `Resp.ReadCommandWhole` | redis-stable/src/aof.c:639-675 | a printed command is read back with whatever bytes its arguments have, and nothing after it is touched |
| `Resp.ReadCommandCut` | redis-stable/src/aof.c:639-721 | a command that was cut off anywhere is a read error at the end of the file, never a wrong command |
| `Resp.WholeCommandsLongest` | redis-stable/src/aof.c:695-722 | the count of whole commands is that of the longest prefix that fits |
| `Resp.LoadUndoesPrint` | redis-stable/src/aof.c:599-748 | for any commands and any cut of their encoding the loader runs exactly the longest prefix of whole commands, and the truncation offset is its encoded length |
| `AofCorrupt.MarkerLost` | redis-stable/src/aof.c:641-660 | whole commands, and then one with another byte in the place of its * or of the $ of any argument: exactly the commands before it are run and the loader exits, whatever follows and whether or not truncated files are accepted |
| `AofCorrupt.NoArguments` | redis-stable/src/aof.c:643-644 | so too for an argument count below one |
| `AofCorrupt.ZeroAfterStar` | redis-stable/src/aof.c:642 | so too for a zero byte in place of the count, within the file |
| `AofCorrupt.UnknownCommand` | redis-stable/src/aof.c:680-684 | so too for a name that is not in the command table |
| `AofLoader.ReadLine` | redis-stable/src/aof.c:629-655 | fgets with its buffer of 128 bytes |
| `AofLoader.LoadArg` | redis-stable/src/aof.c:654-675 | one turn of the loop over arguments, with its error cases |
| `AofLoader.LoadArgs` | redis-stable/src/aof.c:650-675 | the loop over arguments reads what the specification reads |
| `AofLoader.LoadCommand` | redis-stable/src/aof.c:639-675 | one turn of the main loop, up to the command look-up |
| `AofLoader.LoadAppendOnlyFile` | redis-stable/src/aof.c:599-748 | the loops of the loader give, on every file, the commands and the ending of the specification that `LoadUndoesPrint` is about |
| `AofObjects.ChunkIsCommand` | redis-stable/src/aof.c:770-997 | the argument count that a head declares is the number of arguments that follow it |
| `AofObjects.EmitLoop` | redis-stable/src/aof.c:770-823 | the loop writes a head before every 64 items, for as many as are left |
| `AofObjects.EmitItems` | redis-stable/src/aof.c:770-997 | what is written for a value of any size is a whole number of commands |
| `AofObjects.ChunkSizes` | redis-stable/src/aof.c:789-831 | every command is for 64 items, but the last, which is for those that are left |
| `AofSnapshot.EmitValue` | redis-stable/src/aof.c:770-997 | strings, lists, sets, sorted sets and hashes are written as their commands |
| `AofSnapshot.ReplayValue` | redis-stable/src/aof.c:770-997 | replaying the commands for a value of any size rebuilds it |
| `AofSnapshot.ReplayDb` | redis-stable/src/aof.c:1045-1109 | replaying the commands for a database rebuilds it with its deadlines, without the keys whose deadline had passed |
| `AofSnapshot.ReplaySnapshot` | redis-stable/src/aof.c:1021-1109 | replaying a rewritten file rebuilds every database |
| `AofSnapshot.EmitSnapshot` | redis-stable/src/aof.c:1021-1109 | the loops over databases and keys write the commands that `ReplaySnapshot` is about |
| `AofFeed.CatExpireAt` | redis-stable/src/aof.c:467-495 | relative and second deadlines become absolute milliseconds |
| `AofFeed.FeedBytes` | redis-stable/src/aof.c:497-526 | the SELECT and the translated command that are appended |
| `AofFeed.Written` | redis-stable/src/aof.c:497-545 | what is written for every command, spelt out: deadlines that count from now as points in time, EXPIREAT in milliseconds, everything else as it is |
| `AofFeed.SelectWritten` | redis-stable/src/aof.c:501-508 | the database is selected exactly if it is not the one that was written to last |
| `CommandOutcomes.DelOutcome` | redis-stable/src/db.c:280-294 | DEL: the given keys are gone with their deadlines, every other key keeps value and deadline |
| `CommandOutcomes.OneOutcome` | redis-stable/src/db.c:280-294 | which leaves no choice: what DEL replays to and what Keyspace.DelKeys leaves are the same |
| `CommandOutcomes.FlushOutcome` | redis-stable/src/db.c:253-278 | FLUSHDB empties the selected database, FLUSHALL all of them |
| `CommandOutcomes.SelectOutcome` | redis-stable/src/db.c:309-325 | SELECT changes the selected database if there is one with that number, and no contents |
| `CommandOutcomes.MoveOutcome` | redis-stable/src/db.c:713-765 | exactly when MOVE moves the key, which then has its value in the target, without a deadline, and is gone from the source; no other key is touched |
| `CommandOutcomes.SetOutcome` | redis-stable/src/t_string.c:65-132 | SET, with options written in any case and order: exactly when it stores, by NX, XX, the last time to live and whether the key was there; then value and deadline, and nothing else |
| `CommandOutcomes.SetRefused` | redis-stable/src/t_string.c:94-132 | SET with arguments that no options write changes nothing |
| `CommandOutcomes.SetExOutcome` | redis-stable/src/t_string.c:135-143 | SETEX and PSETEX: value and deadline, exactly if the time is a number above zero |
| `CommandOutcomes.ExpireOutcome` | redis-stable/src/db.c:873-935 | EXPIRE, PEXPIRE, EXPIREAT and PEXPIREAT: the deadline of a key that is there, in milliseconds; its value stays |
| `CommandOutcomes.PersistOutcome` | redis-stable/src/db.c:965-979 | PERSIST: the deadline goes, the value stays |
| `CommandOutcomes.RestoreOutcome` | redis-stable/src/cluster.c:4387-4441 | RESTORE: exactly when it stores, by its options, number, payload and whether the key was there; then value and deadline |
| `CommandOutcomes.PushOutcome` | redis-stable/src/t_list.c:295-329 | RPUSH: the items come after those of the list, under the old deadline; a value of another kind stays |
| `CommandOutcomes.AddOutcome` | redis-stable/src/t_set.c:250-275 | SADD: exactly the old and the given members, under the old deadline |
| `CommandOutcomes.ScoreOutcome` | redis-stable/src/t_zset.c:1179-1369 | ZADD: every given member has the last score given for it, the others theirs, under the old deadline |
| `CommandOutcomes.FieldOutcome` | redis-stable/src/t_hash.c:495-514 | HMSET: every given field has the last value given for it, the others theirs, under the old deadline |
| `CommandOutcomes.CaseIgnored` | redis-stable/src/redis.c:440-481 | the name of a command may be written in large or small letters |
| `Verbs.NumeralRead` | redis-stable/src/object.c:622-644 | a sign or none, digits, and nothing more or a zero byte: read as the number that the digits spell |
| `Verbs.NumberIsNumeral` | redis-stable/src/object.c:622-644 | and no other text is read as a number |
| `Commands.ClockMatters` | redis-stable/src/db.c:873-917 | at two clock readings a command of one database does the same if and only if the readings are equal or it gives no time to live |
| `Commands.DeadlineFromNow` | redis-stable/src/t_string.c:65-91 | a time to live given by SET, SETEX, PSETEX, EXPIRE, PEXPIRE or RESTORE becomes a deadline that far from now |
| `Commands.TimelessExactly` | redis-stable/src/t_string.c:65-143 | which of these commands do not depend on the clock: exactly those that cannot give a time to live |
| `Commands.ClockFree` | redis-stable/src/aof.c:599-748 | commands that do not depend on the clock replay to the same whatever the clock reads at each of them |
| `AofFeed.TranslationKeepsMeaning` | redis-stable/src/aof.c:509-526 | what is written for EXPIRE, PEXPIRE, EXPIREAT, SETEX and PSETEX does, whenever it is loaded, what the command did at the clock reading of the translation |
| `AofFeed.DeadlineDrift` | redis-stable/src/aof.c:467-495 | the clock is read again for the file: file and memory agree if and only if it has not moved or no time to live is given; otherwise the deadline in the file is later by exactly as much as it moved |
| `AofFeed.VerbatimDrift` | redis-stable/src/aof.c:509-526 | a command that is written as it is agrees with the memory if and only if it is loaded at the clock reading of its execution or gives no time to live; otherwise its deadline moves with the time of loading |
| `AofFeed.SetWithExMoves` | redis-stable/src/t_string.c:65-91 | SET with EX 10 or PX 10 executed at time 0 and loaded at time 1 expires a millisecond later than it did |
| `AofFeed.FeedReplays` | redis-stable/src/aof.c:497-545 | replaying what was fed, at any time, runs the command in the database in which it was executed, if its time was not lost in between |
| `AofFile.FlushKeeps` | redis-stable/src/aof.c:311-411 | a full, short or failed write, with ftruncate working or not, neither loses nor repeats a byte |
| `AofFile.FlushOutcome` | redis-stable/src/aof.c:283-393 | exactly which bytes are in the file after a flush, and which stay in the buffer, by what write returned and whether ftruncate worked |
| `AofFile.NothingLost` | redis-stable/src/aof.c:273-433 | over any sequence of feeds and writes the file followed by the buffer is everything that was fed, and the size is that of the file |
| `AofFile.AppendOnlyFile.Append` | redis-stable/src/aof.c:528-535 | what is fed is at the end of the buffer |
| `AofFile.AppendOnlyFile.Flush` | redis-stable/src/aof.c:283-393 | in place: exactly when it waits and when it exits; everything is offered to one write; then the step that NothingLost is about |
| `AofRewriteBuffer.RewriteBuffer.Append` | redis-stable/src/aof.c:123-167 | the bytes are at the end of the buffer, and used + free of every block stays within the block size |
| `AofRewriteBuffer.RewriteBuffer.Size` | redis-stable/src/aof.c:78-89 | the loop over blocks adds up to the number of bytes in the buffer |
| `AofRewriteBuffer.RewriteBuffer.SendToChild` | redis-stable/src/aof.c:94-119 | for any prefixes that the pipe takes, pipe followed by buffer is what it was; it goes on until the buffer is empty or the pipe takes nothing; nothing is sent after the stop |
| `AofRewriteBuffer.RewriteBuffer.WriteTo` | redis-stable/src/aof.c:172-192 | either everything is written, or a proper prefix and an error is returned |
| `AofServer.StepKeeps` | redis-stable/src/aof.c:497-545 | every step of the server and its rewriting child keeps the invariant |
| `AofServer.Durable` | redis-stable/src/aof.c:1021-1506 | in every run, loading the file and the buffer, with any clock readings, rebuilds the data set, but for keys whose deadline had passed at the last rewrite |
| `AofServer.ReloadAgrees` | redis-stable/src/aof.c:509-526 | after such a run, one more command of one database, translated or not: what is loaded agrees with the memory if and only if the command does not see keys that the last rewrite left out, and takes effect at the clock reading of its execution or gives no time to live |
| `AofServer.RewriteAgrees` | redis-stable/src/aof.c:1021-1109 | likewise for the file that a child is writing, with the keys that are left out by the clock reading of the child |
| `AofServer.RewriteFileIs` | redis-stable/src/aof.c:1386-1470 | a successful rewrite leaves exactly the snapshot followed by the commands fed since the fork, in order, none lost or repeated |
| `AofServer.ChildCatchesUp` | redis-stable/src/aof.c:94-119 | once the parent has written all that it has and the child has read it, the child has all that was fed since the fork |
| `AofServer.FinalReadMatters` | redis-stable/src/aof.c:1135-1154 | the rewritten file is right if and only if the last read of the child leaves nothing in the pipe |
| `AofServer.CrashRecovery` | redis-stable/src/aof.c:695-748 | after a crash the loader runs exactly the commands that are wholly on disk |
| `AofServer.FlushedIsSafe` | redis-stable/src/aof.c:283-393 | after a flush that writes everything, also when the append-only file is switched off, the file alone holds all commands |
| `AofServer.RestartOk` | redis-stable/src/aof.c:599-748 | a server that has loaded a file of commands that do not depend on the clock, at any time, and cut it back is one from which runs start |
| `AofPrune.ExecPrune` | redis-stable/src/db.c:826-860 | a command of one database, executed at one reading, and again at another without the keys that had expired at a third, comes to the same if and only if it does not see these keys (command by command, in terms of key, deadline and NX, XX or REPLACE) and the readings are equal or it gives no time to live |
| `AofPrune.PruneIs` | redis-stable/src/aof.c:1066-1070 | what a rewrite leaves out: exactly the keys whose deadline had passed; the others keep value and deadline |
| `AofPrune.AliveUnseen` | redis-stable/src/db.c:826-860 | in particular it does not see them if it is given none of them and lets no key expire at once |
| `AofServer.LocalBlind` | redis-stable/src/db.c:826-860 | exactly when a command of one database meets the condition on the commands of a run: DEL and FLUSHDB always, the others by the key they are given and the deadline they set |
| `AofServer.MoveBlind` | redis-stable/src/db.c:713-765 | exactly when MOVE does: it takes the key along if and only if it would if only unexpired keys were seen; FLUSHALL always does |
| `AofServer.PersistBlind` | redis-stable/src/db.c:965-979 | PERSIST does not see an expired key if and only if it is not given one that is still there |
| `AofServer.PersistLosesKey` | redis-stable/src/db.c:965-979 | a run in which PERSIST keeps such a key in memory while the rewritten file has lost it, whenever it is loaded |
| `AofServer.PushLosesList` | redis-stable/src/aof.c:1021-1028 | a run in which the deadline of a list lies between the reading of the parent and the later one of the child: RPUSH keeps the list in memory, while in the rewritten file it is the new item alone without a deadline, whenever it is loaded |
| `Crc64.TableIsEight` | redis-stable/src/crc64.c:43-171 | each of the 256 table entries is eight steps of the bit-serial register |
| `Crc64.Crc64` | redis-stable/src/crc64.c:173-181 | the table-driven loop computes the bit-serial register |
| `Crc64.EightInjective` | redis-stable/src/crc64.c:173-181 | eight steps of the register can be undone |
| `ByteRegister.CrcConcat` | redis-stable/src/crc64.c:173-181 | the checksum of a concatenation is the chained call |
| `ByteRegister.CrcInjective` | redis-stable/src/crc64.c:173-181 | no two states are brought together by the same string |
| `DumpPayload.CreateDumpPayload` | redis-stable/src/cluster.c:4311-4338 | body, version and checksum of both, lowest byte first |
| `DumpPayload.VerifyDumpPayload` | redis-stable/src/cluster.c:4344-4361 | accepts exactly the payloads that createDumpPayload makes |
| `DumpPayload.CreatedIffZero` | redis-stable/src/cluster.c:4311-4361 | a payload is one of these exactly when the version is right and the checksum of all of it is zero |
| `DumpPayload.ShortInjective` | redis-stable/src/crc64.c:173-181 | different strings of the same length up to eight lead one state to different states |
| `DumpPayload.WindowChangesChecksum` | redis-stable/src/crc64.c:173-181 | a change confined to eight neighbouring bytes changes the checksum of any string |
| `DumpPayload.WindowRejected` | redis-stable/src/cluster.c:4344-4361 | every payload changed within eight neighbouring bytes, in particular in one byte, footer included, is rejected |
| `PopCount.TableIsOnes` | redis-stable/src/bitops.c:65-65 | each entry of the byte table is a bit count |
| `PopCount.SumsOfWord` | redis-stable/src/bitops.c:87-107 | the three parallel steps leave in every byte its bit count |
| `PopCount.Gather` | redis-stable/src/bitops.c:101-107 | seven words give at most 56 a byte and 224 in all, so the multiplication overflows nothing |
| `PopCount.CountSevenWords` | redis-stable/src/bitops.c:75-108 | seven words at a time count the bits of 28 bytes |
| `PopCount.RedisPopcount` | redis-stable/src/bitops.c:61-113 | the bit count of every string, of any length, at any address |
| `BitPos.LoadLast` | redis-stable/src/bitops.c:165-173 | the last word is the rest of the string, highest byte first, filled up with zeros |
| `BitPos.ScanLast` | redis-stable/src/bitops.c:186-199 | the bit loop stops at the first position with the bit |
| `BitPos.RedisBitpos` | redis-stable/src/bitops.c:122-200 | the first position with the bit, -1 for a one that is not there, the length for a zero that is not there |
| `BitOp.CombinedBits` | redis-stable/src/bitops.c:288-459 | AND has a bit where all strings have it, OR where some has it, XOR where an odd number has it, NOT where the string has not; ended strings go on with zeros |
| `BitOp.CombineWord` | redis-stable/src/bitops.c:373-411 | a word operation works byte by byte |
| `BitOp.FastPath` | redis-stable/src/bitops.c:359-422 | the fast path does what the loop over bytes does, as far as it goes |
| `BitOp.Lengths` | redis-stable/src/bitops.c:324-351 | the lengths of the longest and of the shortest string |
| `BitOp.BitOp` | redis-stable/src/bitops.c:288-459 | with the fast path or without, every byte of the result is made of the bytes at its place, to the length of the longest string |
| `SlotIndex.Insert` | redis-stable/src/db.c:1135-1140 | the element is in its place, order and the other elements kept |
| `SlotIndex.Remove` | redis-stable/src/db.c:1142-1146 | the element is gone, the others kept |
| `SlotIndex.LessExactly` | redis-stable/src/object.c:474-504 | the order of keys: the first byte that differs decides, and without one the shorter key comes first |
| `Keyspace.Keyspace.LookUpExpire` | redis-stable/src/db.c:789-800 | the deadline or -1; the assertion that the key exists never fires |
| `Keyspace.Keyspace.DbAdd` | redis-stable/src/db.c:93-99 | key, value and index entry are there; the assertion that the key is new never fires |
| `Keyspace.Keyspace.DbOverwrite` | redis-stable/src/db.c:107-112 | the value is replaced, the deadline kept |
| `Keyspace.Keyspace.DbDelete` | redis-stable/src/db.c:162-172 | key, deadline and exactly one index entry go; it says whether there was one |
| `Keyspace.Keyspace.SetKey` | redis-stable/src/db.c:120-129 | the key has the value and no deadline, whatever was there |
| `Keyspace.Keyspace.ExpireIfNeeded` | redis-stable/src/db.c:826-860 | exactly when a key goes: its deadline has passed, on a master that is not loading; then it is propagated, and no other key is touched |
| `Keyspace.ExpiredExactly` | redis-stable/src/db.c:826-860 | a key has expired when its deadline has passed, but never on a slave or while loading |
| `Keyspace.Keyspace.RemoveExpire` | redis-stable/src/db.c:770-775 | the deadline goes; the assertion never fires |
| `Keyspace.Keyspace.SetExpire` | redis-stable/src/db.c:777-785 | the deadline is set; the assertion never fires |
| `Keyspace.RenameOutcome` | redis-stable/src/db.c:667-703 | a rename succeeds exactly with an unexpired source that is not the target and, for RENAMENX, no unexpired target; then value and deadline have moved; otherwise nothing goes but what has expired; other keys are untouched |
| `Keyspace.Keyspace.RenameKey` | redis-stable/src/db.c:667-703 | in place, the outcome that `RenameOutcome` describes; index and expires table agree afterwards |
| `Keyspace.Keyspace.ExpireKey` | redis-stable/src/db.c:873-917 | a deadline in the past deletes the key, except on slaves and while loading |
| `Keyspace.Keyspace.PersistKey` | redis-stable/src/db.c:965-979 | the deadline goes; it says whether there was one |
| `Keyspace.Keyspace.DelKeys` | redis-stable/src/db.c:280-294 | exactly the given keys go; expired ones are not counted |
| `Keyspace.PresentCounts` | redis-stable/src/db.c:280-294 | DEL counts every key once that is there and has not expired, however often it is given |
| `Keyspace.Keyspace.Flush` | redis-stable/src/db.c:212-223 | everything goes, and the number of keys is returned |
| `Keyspace.Keyspace.CountKeysInSlot` | redis-stable/src/db.c:1191-1218 | the difference of ranks is the true number of keys of the slot |
| `Keyspace.Keyspace.GetKeysInSlot` | redis-stable/src/db.c:1153-1167 | the first keys of the slot, up to the number asked for |
| `Keyspace.Keyspace.DelKeysInSlot` | redis-stable/src/db.c:1171-1189 | exactly the keys of the slot go, and their number is returned |
| `Keyspace.SlotStretch` | redis-stable/src/db.c:1135-1218 | the stretch of the index that belongs to a slot lists its keys, each once |
| `Adlist.List.AddNodeTail` | redis-stable/src/adlist.c:106-124 | the new node is at the end, all links right |
| `Adlist.List.AddNodeHead` | redis-stable/src/adlist.c:80-98 | the new node is at the start, all links right |
| `Adlist.List.InsertNode` | redis-stable/src/adlist.c:126-153 | the new node is beside the given one |
| `Adlist.List.DelNode` | redis-stable/src/adlist.c:159-172 | exactly the given node is unlinked |
| `Adlist.List.Rotate` | redis-stable/src/adlist.c:328-341 | the tail becomes the head |
| `Adlist.List.Index` | redis-stable/src/adlist.c:313-325 | the node at the position from the head, or with a negative one from the tail; null outside |
| `Adlist.ListIter.Next` | redis-stable/src/adlist.c:221-232 | the node at the iterator, which moves on by one in its direction |
| `Adlist.DeleteReturned` | redis-stable/src/adlist.c:207-232 | deleting the node that was returned leaves the iterator at the rest of the list |

## Left out

- Hash functions, slot numbers of keys (`KEY_HASH_SLOT`) and the command table are arbitrary constants or parameters; SipHash, CRC16 and the table itself are not modelled.
- Chains of a bucket are sequences whose entries carry addresses, not linked heap nodes; `dictFingerprint`, unsafe iterators, random keys and hash sizes near LONG_MAX are not modelled.
- Clocks, random delays, scheduling of the network and of the child, and the results of `write`, `ftruncate` and pipe reads are parameters or nondeterministic choices.
- 64-bit epochs do not wrap around in the model, and string lengths and counters are unbounded.
- Cluster: gossip, failure detection, link management, handshake addresses, the start of manual failovers, slave migration, TAKEOVER and hard resets. A deleted node's slaves lose their master whatever role the node had.
- The state machine of `ClusterElection` lets any voter be willing or not; `ClusterHandlers` computes the checks.
- Which nodes serve slots is fixed in `ClusterElection`, votes are kept within one uptime, and elections are a machine of their own beside that of the config epochs.
- Tokenisation and the other fields of the nodes file: `ClusterConfig` starts from the tokens of the slots, which name slots of the table; nodes on the other side of a move are known by name alone. `ClusterSave` takes the nodes in any order, and those that take their places from the lines; nodes in handshake, which the file leaves out, are not told apart.
- AOF: MULTI/EXEC, scripts, fork failures, fsync results, logging, and I/O errors of the rewriting child other than that it fails as a whole. Scores are their printed texts; numbers in commands are unbounded; the iteration orders of collections are parameters. Commands that are not spelt out are a parameter, a function of the databases and the clock.
- The rewrite buffer keeps its blocks in a sequence; the list of blocks is the list of `Adlist`, verified by itself.
- Key space: watched keys, notifications, reference counts and the replication of DEL; the class keeps one database. The skip list is the sorted sequence of its elements.
- BITOP: argument parsing and the storing of the result; the operands are the strings already looked up, missing keys being empty.
- Linked list: `listDup`, `listSearchKey` and freeing; values are never changed.
- ClusterHandlers.ClusterState.ProcessPacket: takes what the claimed slots do to this node as a parameter, `demoted`; `ClusterSlots.SlotTable.UpdateSlotsConfigWith` computes it.
- AofServer.Durable: promises nothing about runs with SET EX/PX, RESTORE with a time to live, or commands that see expired keys, for which it is false; the exact conditions are `ReloadAgrees`, `RewriteAgrees`, `LocalBlind` and `MoveBlind`. They are about one command after a run that meets the conditions of `Durable`.
- AofServer.RestartOk: is about files whose commands do not depend on the clock, as those of the runs of `Durable` do not.
- DictPassExact.PassExact: leaves open which passes reach every hash when a table shrinks after a call that broke the condition.
- AofLoader.LoadArg: a negative length after `$` ends the loader; in C it becomes a huge allocation.
- ClusterHandlers.ClusterState.GetMaxEpoch: visits nodes in any order, where the C code visits them in the order of the table.
- DictSafeIterator.SafeIterator.Next: performs the skipping of empty buckets as one inner loop where the C code goes round its outer loop.

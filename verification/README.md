# Verified models of the Sung repository's hardest code

This project models, in Dafny, the parts of the Sung repository that hold real algorithms, and proves what they
promise. Most of them are in the MongoDB C++ driver the repository carries: the replica-set monitor with its locks,
the BSON codec, the query cursor and the connection pool. The rest are Sung's own configuration parser and three
pieces of log4cpp. Code that changes objects step by step is modelled by classes and methods proved against
specification functions; the monitor, which many threads share, is a state machine over its critical sections.

| files | what they model |
|---|---|
| `ReplicaNode`, `NodeSelection`, `Fairness`, `SlaveSelection`, `ReadPreference` | members of a replica set, round-robin and tag selection |
| `HostReconciliation`, `ReconciliationLaws` | bringing the node list in line with the reported hosts |
| `MonitorProtocol`, `MonitorSafety`, `MonitorTheorems`, `MonitorAnswers` | the monitor under any interleaving of any number of threads |
| `MonitorRounds`, `MonitorCalls`, `MonitorOperations` | what a check asks and how it ends, what one `_checkConnection` does, what the operations return, in the same runs |
| `Bytes`, `BsonDocument`, `BsonElement`, `BsonFormat`, `BsonRoundTrip`, `BsonChecked`, `BsonValidation` | documents as trees and as bytes, sizes, walks, validation |
| `BsonBuilder`, `BsonNesting`, `BsonArray`, `BsonNumbers`, `BsonIterator`, `BsonFields` | the builder, the iterator, and what is written with them |
| `Doubles`, `BsonOrder`, `OrderMeaning` | comparing elements and documents |
| `ObjectId`, `AuthTable` | ordered ids and the authentication table |
| `Cursor` | the query cursor |
| `ServerName`, `PoolModel`, `PoolRuns`, `ConnectionPool` | the connection pool: its steps as values, every run of them, and the classes that take them |
| `ConfigText`, `ConfigParser`, `ConfigLines`, `ConfigRoundTrip`, `ConfigMeaning` | the configuration file parser and printer |
| `RollingFile`, `RemoteSyslog`, `CategoryTree` | log4cpp: backup rotation, packet splitting, the category tree |
| `Wrappers`, `CArithmetic`, `Decimal`, `Sequences` | result types, integer arithmetic as C++ does it, decimal numerals, a fact about sequences |

## What the proofs show

The monitor (`MonitorTheorems`, `MonitorRounds`, `MonitorCalls`, `MonitorAnswers`). In every state of every run, whatever the network answers, no access
leaves the node list although `_lock` is dropped between finding an index and using it; the cached master is in range
and has answered as primary of the set; the fast path of `_checkHosts`, which takes the lock once per entry, decides
what the locked check would decide; a node passes for a secondary, matches a tag or passes for master only if its own
server has answered so; and some thread can always go on. A check asks every member, and gives up only if all have replied and none as primary of
the set, unless nodes came or went. Every call it makes does all there is to do with the reply. If no reply names one
address in two ways, no address is ever listed twice.

The codec (`BsonRoundTrip`, `BsonNesting`, `BsonFields`). What is built from a tree is read back as that tree exactly
when no name and no pattern contains a NUL. Children built in place on the parent's buffer give the same bytes as
children built apart and copied in. Any builder, at any depth, may be peeked at before any of its appends and before it
is closed, and the final bytes are the same.

The pool (`PoolModel`, `PoolRuns`, `ConnectionPool`). Connections are objects that are made and deleted; every `delete`
of the source is a call that only an existing connection allows. Each method takes exactly the steps its contract names,
and over every run of such steps, by any threads, every connection has been deleted once or is in exactly one place; none
idle for 1800 seconds is handed out; one that is pooled stays, with its time, until a step takes it for a stated reason;
and as many are lost as hooks have thrown over a stale one.

Some promises do not hold for every input. The code is modelled as it is, and the exact condition is proved:

- `verify( added.size() > 0 || removed.size() > 0 )` in `_checkHosts` fails exactly when a member reports the current
  set with some host repeated (`ReconciliationLaws.VerifyFailsIff`); a departed member is overlooked exactly when all
  reported hosts are known, one is repeated and the lengths agree (`OverlookedIff`); two spellings of one new address
  are added twice (`ChangedList`). Inputs that do so are `RepeatedHostThrows`, `RepeatedHostHidesDeparture` and
  `TwoSpellingsTwoNodes`.
- An empty tag list is compatible with every node, yet selection by it looks at none
  (`ReadPreference.EmptyTagListSelectsNothing`), and the retry of `selectAndCheckNode` uses the list the first try
  exhausted (`MonitorTheorems.SecondTryFindsNoSecondary`). Without a local node there is no rotation
  (`Fairness.NoRotationWithoutLocals`).
- `woCompare` is a total preorder on a class of documents exactly when no two of its longs round to one double and
  dates are not mixed with timestamps (`BsonOrder.OrderedIff`). The first longs that collapse are 2^53 and 2^53 + 1
  (`FirstCollapse`); comparing throws exactly where a date meets a timestamp of the same name (`ThrowsIff`).
- `appendNumber` and `appendIntOrLL` keep every long but the least one (`BsonNumbers.AppendedNumberIsEqual`);
  `size(maxLen)` compares its limit with the size of regular expressions only (`BsonChecked.CheckedSizeIs`); an array
  position is taken for another one from 2^31 on (`BsonArray.PositionKept`), and a named value lands where its name says
  exactly up to 1,500,000 and not before the end (`AppendAtNumber`).
- `setFromBSON(toBSON(t))` restores the table exactly when its document is not too large and no name or user contains a
  NUL (`AuthTable.SaveAndRestore`).
- `asTimeT` inverts `init(Date_t)` exactly for times below 2^31 seconds (`ObjectId.DateRoundTrip`).
- A configuration text whose last line continues a value and lacks its newline stores that line twice, and this is
  the only difference a missing newline makes (`ConfigRoundTrip.MissingNewline`).
- A getMore that fails has used up the last batch all the same, so a later try stops that many results early
  (`Cursor.DBClientCursor.RequestMore`).
- A connection is lost, neither deleted nor anywhere to be found, exactly when an `onDestroy` hook throws over a stale
  one, in `get` or in the cleaner (`PoolRuns.LostExactly`, `ConnectionPool.GetMeans`, `TaskDoWork`).
- Sequential object ids increase in call order exactly when the clock never steps back and never stands still while the
  counter wraps (`ObjectId.IncreasingIff`).
- `isCompatible` throws exactly when an entry that is no document comes before every entry that matches
  (`ReadPreference.IsCompatible`); selection throws exactly when some entry is no document and `isCompatible` would
  answer yes for no node (`SelectedIffCompatible`).

The documentation in `dbclient_rs.h` calls `getSlave` a random choice; the code keeps its place in `_nextSlave`, and
that is what is modelled.

## Model

| member | source | states |
|---|---|---|
| ReplicaNode.Node.MatchesTag | ThirdPartiesLibs/mongo-cxx-driver-v2.2/src/mongo/client/dbclient_rs.cpp:1166-1188 | true exactly when every criterion of the tag is a tag of the node with that value; the empty tag matches every node |
| ReplicaNode.LastIndex | ThirdPartiesLibs/mongo-cxx-driver-v2.2/src/mongo/util/net/hostandport.h:159-172 | `strrchr`: the last colon, and none exactly when there is none |
| NodeSelection.SelectNode | ThirdPartiesLibs/mongo-cxx-driver-v2.2/src/mongo/client/dbclient_rs.cpp:53-104 | the loop over the nodes computes the cyclic scan that the fairness results are about, and `lastHost` follows every non-empty result |
| NodeSelection.FindStart | ThirdPartiesLibs/mongo-cxx-driver-v2.2/src/mongo/client/dbclient_rs.cpp:61-71 | the search starts at the first node with the last host, or at 0 |
| Fairness.NearestLocal | ThirdPartiesLibs/mongo-cxx-driver-v2.2/src/mongo/client/dbclient_rs.cpp:73-96 | the nearest eligible local node in cyclic order wins |
| Fairness.LastEligible | ThirdPartiesLibs/mongo-cxx-driver-v2.2/src/mongo/client/dbclient_rs.cpp:85-103 | without a local match the last eligible node in cyclic order wins |
| Fairness.Selected | ThirdPartiesLibs/mongo-cxx-driver-v2.2/src/mongo/client/dbclient_rs.cpp:53-104 | where the selected node stands and why it was taken |
| Fairness.EmptyIffNoneEligible | ThirdPartiesLibs/mongo-cxx-driver-v2.2/src/mongo/client/dbclient_rs.cpp:53-104 | the result is empty exactly when no node is eligible |
| Fairness.SelectedFits | ThirdPartiesLibs/mongo-cxx-driver-v2.2/src/mongo/client/dbclient_rs.cpp:53-104 | in terms of the fields: a node that is up, for secondaries a visible secondary, and has the tags is selected if there is one, and one below the threshold if such a one fits |
| Fairness.NextLocal | ThirdPartiesLibs/mongo-cxx-driver-v2.2/src/mongo/client/dbclient_rs.cpp:61-96 | from one local node the search moves to the next one, wrapping round |
| Fairness.FairRound | ThirdPartiesLibs/mongo-cxx-driver-v2.2/src/mongo/client/dbclient_rs.cpp:53-104 | any k consecutive calls return each of the k eligible local nodes exactly once, from any start |
| Fairness.NoRotationWithoutLocals | ThirdPartiesLibs/mongo-cxx-driver-v2.2/src/mongo/client/dbclient_rs.cpp:85-103 | with eligible but no local nodes the same node is selected for ever |
| SlaveSelection.GetSlave | ThirdPartiesLibs/mongo-cxx-driver-v2.2/src/mongo/client/dbclient_rs.cpp:446-488 | the loop over `_nextSlave` computes the specification function |
| SlaveSelection.SlaveIsSuitable | ThirdPartiesLibs/mongo-cxx-driver-v2.2/src/mongo/client/dbclient_rs.cpp:446-488 | if some node other than the master is up, a secondary and not hidden, such a node is returned, and when local ones are preferred one below the threshold if there is one; otherwise the master if it is up; else the call fails; wherever `_nextSlave` stands |
| SlaveSelection.NearestTarget | ThirdPartiesLibs/mongo-cxx-driver-v2.2/src/mongo/client/dbclient_rs.cpp:452-472 | the nearest wanted node after `_nextSlave` in cyclic order is returned and `_nextSlave` is left on it; without one it ends where it stood |
| SlaveSelection.SlaveRotates | ThirdPartiesLibs/mongo-cxx-driver-v2.2/src/mongo/client/dbclient_rs.cpp:452-472 | with two wanted nodes or more, no two calls in a row return the same one |
| ReadPreference.TagSet.Create | ThirdPartiesLibs/mongo-cxx-driver-v2.2/src/mongo/client/dbclient_rs.cpp:1803-1808 | a fresh tag set rests on its first entry; it fails exactly when that is not a document |
| ReadPreference.TagSet.Next | ThirdPartiesLibs/mongo-cxx-driver-v2.2/src/mongo/client/dbclient_rs.cpp:1810-1819 | advances by one entry, or marks the set exhausted at the end |
| ReadPreference.SelectByTags | ThirdPartiesLibs/mongo-cxx-driver-v2.2/src/mongo/client/dbclient_rs.cpp:1060-1109 | the tag loop ends, with the tag set resting where the trial of the entries stopped |
| ReadPreference.SelectPrimary | ThirdPartiesLibs/mongo-cxx-driver-v2.2/src/mongo/client/dbclient_rs.cpp:1037-1046 | the first node that is up and says it is master |
| ReadPreference.SelectNodeFor | ThirdPartiesLibs/mongo-cxx-driver-v2.2/src/mongo/client/dbclient_rs.cpp:1032-1116 | for every preference the result, the resting place of the tag set and the new last host are those of the specification |
| ReadPreference.IsCompatible | ThirdPartiesLibs/mongo-cxx-driver-v2.2/src/mongo/client/dbclient_rs.cpp:1190-1228 | decides compatibility for every preference and tag list; it throws exactly when the node is of the right kind and an entry that is no document comes before any that matches, and answers yes exactly when a matching one comes first |
| ReadPreference.TryEarliest | ThirdPartiesLibs/mongo-cxx-driver-v2.2/src/mongo/client/dbclient_rs.cpp:1060-1109 | for any list the loop stops on the earliest entry that some candidate matches or that is no document, throws exactly in the second case, and exhausts the list exactly when there is no such entry |
| ReadPreference.EligibleIsCompatible | ThirdPartiesLibs/mongo-cxx-driver-v2.2/src/mongo/client/dbclient_rs.cpp:1190-1228 | for SecondaryOnly and Nearest, eligibility for some entry that is a document is compatibility, for any list |
| ReadPreference.SelectedIffCompatible | ThirdPartiesLibs/mongo-cxx-driver-v2.2/src/mongo/client/dbclient_rs.cpp:1032-1116 | with a fresh list of any entries, a host is selected exactly when the list is not empty and `isCompatible` would answer yes for some node; it belongs to such a node, no other is decided by an earlier entry, and it is the one the round robin picks for this entry; selection throws exactly when some entry is no document and there is no such node |
| ReadPreference.EmptyTagListSelectsNothing | ThirdPartiesLibs/mongo-cxx-driver-v2.2/src/mongo/client/dbclient_rs.cpp:1201-1205 | an empty list is compatible with every node but selects none |
| ReadPreference.PrimaryAgreement | ThirdPartiesLibs/mongo-cxx-driver-v2.2/src/mongo/client/dbclient_rs.cpp:1037-1046 | for PrimaryOnly, when the selected primary is compatible, and when there is none |
| ReadPreference.PreferredEmptyIff | ThirdPartiesLibs/mongo-cxx-driver-v2.2/src/mongo/client/dbclient_rs.cpp:1047-1092 | the preferring modes come away empty exactly when there is no primary, every entry is a document and no secondary is compatible; and exactly when they throw |
| ReadPreference.PreferredKind | ThirdPartiesLibs/mongo-cxx-driver-v2.2/src/mongo/client/dbclient_rs.cpp:1037-1092 | which kind is preferred: with PrimaryPreferred the first primary in list order whatever the tags, with SecondaryPreferred a compatible secondary; the other kind only when there is none, as its own mode takes it |
| ReadPreference.LastHostIs | ThirdPartiesLibs/mongo-cxx-driver-v2.2/src/mongo/client/dbclient_rs.cpp:1032-1116 | the host remembered is the one the tags have selected, and nothing else changes it; where the tag list comes to rest |
| ReadPreference.SecondBestIsRejected | ThirdPartiesLibs/mongo-cxx-driver-v2.2/src/mongo/client/dbclient_rs.cpp:1190-1228 | `isCompatible` decides the preferring modes as the mode for the preferred kind alone, so it never accepts the second best |
| HostReconciliation.Find | ThirdPartiesLibs/mongo-cxx-driver-v2.2/src/mongo/client/dbclient_rs.cpp:953-967 | the first node with the address a string stands for, or -1 when there is none; parsing can throw once there is a node to compare with |
| HostReconciliation.Insert | ThirdPartiesLibs/mongo-cxx-driver-v2.2/src/mongo/client/dbclient_rs.cpp:555-579 | `std::set` keeps the new host strings ascending and without repetition |
| HostReconciliation.BeforeIsDictionary | ThirdPartiesLibs/mongo-cxx-driver-v2.2/src/mongo/client/dbclient_rs.cpp:555-579 | the order of `std::set<string>` is dictionary order |
| HostReconciliation.AToIReads | ThirdPartiesLibs/mongo-cxx-driver-v2.2/src/mongo/util/net/hostandport.h:159-165 | `atoi`: blanks are skipped, one sign counts, the number ends at the first character that is no digit, and none is 0 |
| HostReconciliation.ParseReads | ThirdPartiesLibs/mongo-cxx-driver-v2.2/src/mongo/util/net/hostandport.h:159-172 | no colon means the default port; behind the last colon stands the port, which must be positive; an empty string is refused |
| HostReconciliation.AddressRoundTrip | ThirdPartiesLibs/mongo-cxx-driver-v2.2/src/mongo/util/net/hostandport.h:125-173 | the address a connection reports parses back to the host it was made to |
| HostReconciliation.NodeList.FindInLock | ThirdPartiesLibs/mongo-cxx-driver-v2.2/src/mongo/client/dbclient_rs.cpp:958-967 | the loop of `_find_inlock` |
| HostReconciliation.NodeList.ShouldChangeHosts | ThirdPartiesLibs/mongo-cxx-driver-v2.2/src/mongo/client/dbclient_rs.cpp:581-609 | the scan of `_shouldChangeHosts` computes its specification, exceptions included |
| HostReconciliation.NodeList.GetHostDiff | ThirdPartiesLibs/mongo-cxx-driver-v2.2/src/mongo/client/dbclient_rs.cpp:555-579 | the scan of `_getHostDiff_inlock` computes its specification |
| HostReconciliation.NodeList.EraseMissing | ThirdPartiesLibs/mongo-cxx-driver-v2.2/src/mongo/client/dbclient_rs.cpp:642-647 | erasing from the highest index down leaves the found nodes in their old order |
| HostReconciliation.NodeList.CheckHosts | ThirdPartiesLibs/mongo-cxx-driver-v2.2/src/mongo/client/dbclient_rs.cpp:618-675 | the slow path leaves the reconciled list and no master, or an unchanged list, or what the exception left; the master stays in range in every case |
| HostReconciliation.NodeList.AddNew | ThirdPartiesLibs/mongo-cxx-driver-v2.2/src/mongo/client/dbclient_rs.cpp:650-670 | adds a node for every new host in order |
| ReconciliationLaws.WhichOutcome | ThirdPartiesLibs/mongo-cxx-driver-v2.2/src/mongo/client/dbclient_rs.cpp:581-639 | which of no change, change and exception occurs, in terms of the two lists alone |
| ReconciliationLaws.ChangedList | ThirdPartiesLibs/mongo-cxx-driver-v2.2/src/mongo/client/dbclient_rs.cpp:611-675 | a change leaves exactly the reported addresses, survivors first in their old order, and no duplicates exactly when no two new strings name one address |
| ReconciliationLaws.DuplicateFree | ThirdPartiesLibs/mongo-cxx-driver-v2.2/src/mongo/client/dbclient_rs.cpp:611-675 | on duplicate-free lists nothing throws, and there is no change exactly when the two sets agree |
| ReconciliationLaws.VerifyFailsIff | ThirdPartiesLibs/mongo-cxx-driver-v2.2/src/mongo/client/dbclient_rs.cpp:639-639 | the `verify` fails exactly when the current set is reported with a host repeated |
| ReconciliationLaws.OverlookedIff | ThirdPartiesLibs/mongo-cxx-driver-v2.2/src/mongo/client/dbclient_rs.cpp:581-609 | exactly when a departed member is not noticed |
| ReconciliationLaws.RepeatedHostThrows | ThirdPartiesLibs/mongo-cxx-driver-v2.2/src/mongo/client/dbclient_rs.cpp:639-639 | the only host reported twice makes the `verify` fail |
| ReconciliationLaws.RepeatedHostHidesDeparture | ThirdPartiesLibs/mongo-cxx-driver-v2.2/src/mongo/client/dbclient_rs.cpp:581-609 | with two hosts listed, one of them reported twice hides that the other has gone |
| ReconciliationLaws.TwoSpellingsTwoNodes | ThirdPartiesLibs/mongo-cxx-driver-v2.2/src/mongo/client/dbclient_rs.cpp:650-670 | a host reported with and without its port is listed twice |
| ReconciliationLaws.ThrowKeepsMasterInRange | ThirdPartiesLibs/mongo-cxx-driver-v2.2/src/mongo/client/dbclient_rs.cpp:611-675 | an exception never leaves the master index outside the list, and changes the list only if it was empty |
| ReconciliationLaws.NoAliasesNoDuplicates | ThirdPartiesLibs/mongo-cxx-driver-v2.2/src/mongo/client/dbclient_rs.cpp:611-675 | changed or thrown out of, a list without duplicates stays so unless two reported strings name one address |
| MonitorSafety.StepKeeps | ThirdPartiesLibs/mongo-cxx-driver-v2.2/src/mongo/client/dbclient_rs.cpp:383-951 | every step keeps the stepping thread's part of the invariant and interferes with others only by reshaping the list while it holds `_checkConnectionLock` |
| MonitorSafety.OthersKept | ThirdPartiesLibs/mongo-cxx-driver-v2.2/src/mongo/client/dbclient_rs.cpp:678-779 | what another thread carries survives every step |
| MonitorSafety.InvStep | ThirdPartiesLibs/mongo-cxx-driver-v2.2/src/mongo/client/dbclient_rs.cpp:383-1029 | the invariant is kept by every step of every thread |
| MonitorTheorems.InvRun | ThirdPartiesLibs/mongo-cxx-driver-v2.2/src/mongo/client/dbclient_rs.cpp:222-1029 | the invariant holds after every schedule, from the empty monitor on |
| MonitorTheorems.EveryRunIsSafe | ThirdPartiesLibs/mongo-cxx-driver-v2.2/src/mongo/client/dbclient_rs.cpp:383-951 | over all runs: no access outside the list, master in range and answered as primary, one thread at a time in `_checkConnection`, and its index still names the connection it checked |
| MonitorTheorems.OnlyTheHolderReshapes | ThirdPartiesLibs/mongo-cxx-driver-v2.2/src/mongo/client/dbclient_rs.h:355-363 | which nodes there are changes only in the slow path, under the lock, and only to the reconciled list |
| MonitorTheorems.HostCheckIsAtomic | ThirdPartiesLibs/mongo-cxx-driver-v2.2/src/mongo/client/dbclient_rs.cpp:581-626 | the fast path, which locks once per entry, decides what the locked check decides on the present list; the second check always agrees |
| MonitorTheorems.MasterAnswered | ThirdPartiesLibs/mongo-cxx-driver-v2.2/src/mongo/client/dbclient_rs.cpp:396-410 | a host returned by `getMaster` is the cached master and has answered as primary; it fails exactly when there is none |
| MonitorTheorems.SecondTryFindsNoSecondary | ThirdPartiesLibs/mongo-cxx-driver-v2.2/src/mongo/client/dbclient_rs.cpp:1008-1029 | the retry with the exhausted tag list yields no secondary, only the primary where the preference allows one |
| MonitorTheorems.FailureIsHeeded | ThirdPartiesLibs/mongo-cxx-driver-v2.2/src/mongo/client/dbclient_rs.cpp:383-392 | after `notifyFailure` that server is not the cached master; if it was, its node is out of use and there is none, and otherwise nothing has changed |
| MonitorTheorems.FailedCheckLeavesNoPrimary | ThirdPartiesLibs/mongo-cxx-driver-v2.2/src/mongo/client/dbclient_rs.cpp:884-904 | after a check without a primary no node passes for one and no master is cached; a full check counts how often in a row every node was out of use |
| MonitorTheorems.PingIsSmoothed | ThirdPartiesLibs/mongo-cxx-driver-v2.2/src/mongo/client/dbclient_rs.cpp:717-728 | the first ping time is taken as it is; from then on it moves towards the latest by a quarter of the distance, rounded down |
| MonitorTheorems.StatusIsHeeded | ThirdPartiesLibs/mongo-cxx-driver-v2.2/src/mongo/client/dbclient_rs.cpp:533-552 | a member's health is written to the node with that member's address, although the lock is dropped between finding and writing |
| MonitorTheorems.FailureMarksItsNode | ThirdPartiesLibs/mongo-cxx-driver-v2.2/src/mongo/client/dbclient_rs.cpp:703-714 | a connection that answers for another set, or fails, takes its own node out of use and no other |
| MonitorTheorems.ClaimElectsTheAnswerer | ThirdPartiesLibs/mongo-cxx-driver-v2.2/src/mongo/client/dbclient_rs.cpp:809-826 | only the node whose connection answered as primary becomes master, and only while it still has its place |
| MonitorAnswers.NodeOrigin | ThirdPartiesLibs/mongo-cxx-driver-v2.2/src/mongo/client/dbclient_rs.cpp:717-735 | between two answers of its own server a node only changes its health and, when a check has found no primary, loses a claim to be master: every step leaves nodes that are new, old ones but for these, or the one its own connection has just answered for |
| MonitorAnswers.EligibilityFollowsAnswers | ThirdPartiesLibs/mongo-cxx-driver-v2.2/src/mongo/client/dbclient_rs.cpp:717-735 | so between two answers of its server what a node is eligible for changes with its health only, in every step |
| MonitorAnswers.RunIsKnown | ThirdPartiesLibs/mongo-cxx-driver-v2.2/src/mongo/client/dbclient_rs.cpp:678-779 | in every reachable state what the list says of a node is what an answer on its connection said, or nothing |
| MonitorAnswers.EligibleAsAnswered | ThirdPartiesLibs/mongo-cxx-driver-v2.2/src/mongo/client/dbclient_rs.cpp:678-779 | in every reachable state a node passes for a secondary, matches tags or passes for master only if its own server has answered so in the run |
| MonitorTheorems.UnblockedMoves | ThirdPartiesLibs/mongo-cxx-driver-v2.2/src/mongo/client/dbclient_rs.cpp:383-951 | a thread in an operation that is not waiting for a taken lock goes on |
| MonitorTheorems.NoDeadlock | ThirdPartiesLibs/mongo-cxx-driver-v2.2/src/mongo/client/dbclient_rs.h:355-363 | while a thread is in an operation, some thread in an operation can step: nobody waits for ever in a circle |
| MonitorTheorems.NodesStayDistinct | ThirdPartiesLibs/mongo-cxx-driver-v2.2/src/mongo/client/dbclient_rs.cpp:611-675 | if no reply names one address in two ways, no run ever lists an address twice, whatever else the replies contain |
| MonitorRounds.EveryMemberIsAsked | ThirdPartiesLibs/mongo-cxx-driver-v2.2/src/mongo/client/dbclient_rs.cpp:801-807 | when a thread comes to the end of the loop over the nodes it has called every node since the round began, and every server has replied but for nodes that had another connection by then; if no node came or went, every node's own server has replied |
| MonitorRounds.NoPrimaryMeansDenied | ThirdPartiesLibs/mongo-cxx-driver-v2.2/src/mongo/client/dbclient_rs.cpp:787-888 | a thread that gives up has begun two rounds, and if no node came or went in the second, every node's own server has replied in it and none as primary of the set |
| MonitorRounds.PrimaryIsFound | ThirdPartiesLibs/mongo-cxx-driver-v2.2/src/mongo/client/dbclient_rs.cpp:807-888 | while no node comes or goes, a round in which a server says it is primary of the set does not end in giving up |
| MonitorRounds.BrokenOffByReshaping | ThirdPartiesLibs/mongo-cxx-driver-v2.2/src/mongo/client/dbclient_rs.cpp:821-829 | a round is broken off only when nodes have come or gone in it |
| MonitorRounds.CheckEnds | ThirdPartiesLibs/mongo-cxx-driver-v2.2/src/mongo/client/dbclient_rs.cpp:781-904 | how a check can end: another thread's master is up, a primary was elected that said so in this round, a named primary is no address, or there is none; a full check does not stop at an election |
| MonitorRounds.NamedPrimaryIsNext | ThirdPartiesLibs/mongo-cxx-driver-v2.2/src/mongo/client/dbclient_rs.cpp:832-876 | a primary named by the node asked in turn is asked next, once a round: the first node with that address, if there is one |
| MonitorRounds.CachedMasterFirst | ThirdPartiesLibs/mongo-cxx-driver-v2.2/src/mongo/client/dbclient_rs.cpp:926-950 | `check` asks the cached master first and is content with it only if it has just said that it is primary of the set |
| MonitorCalls.CallIsComplete | ThirdPartiesLibs/mongo-cxx-driver-v2.2/src/mongo/client/dbclient_rs.cpp:678-779 | a `_checkConnection` that gives its lock back has written the node, brought the reported hosts in line, asked for the status and seen to every member of it, in that order, unless something has thrown; a stranger's node has been taken out of use; it has done nothing only if its node had another connection by then |
| MonitorCalls.AnswerIsTaken | ThirdPartiesLibs/mongo-cxx-driver-v2.2/src/mongo/client/dbclient_rs.cpp:714-731 | what is written is what the server has just replied, the first ping time as it is, and no other node changes |
| MonitorCalls.HostsAreTaken | ThirdPartiesLibs/mongo-cxx-driver-v2.2/src/mongo/client/dbclient_rs.cpp:611-675 | bringing the hosts in line: the list agrees with what was reported, or is made to agree and the master forgotten, or is what the exception left |
| MonitorCalls.UnknownMemberIsSkipped | ThirdPartiesLibs/mongo-cxx-driver-v2.2/src/mongo/client/dbclient_rs.cpp:533-545 | a member of the status is passed over only if no listed node has its address |
| MonitorOperations.GetMasterReturns | ThirdPartiesLibs/mongo-cxx-driver-v2.2/src/mongo/client/dbclient_rs.cpp:396-410 | `getMaster` returns the cached master of that moment, which has answered as primary, or fails because there is none; another exception comes from a named primary that is no address |
| MonitorOperations.SelectReturns | ThirdPartiesLibs/mongo-cxx-driver-v2.2/src/mongo/client/dbclient_rs.cpp:1008-1029 | `selectAndCheckNode` returns what the first selection on the given tags yields, and otherwise checks and selects again |
| MonitorOperations.SlaveKeepsTo | ThirdPartiesLibs/mongo-cxx-driver-v2.2/src/mongo/client/dbclient_rs.cpp:412-444 | `getSlave(prev)` keeps to `prev` exactly while the first node with that address serves secondary reads |
| MonitorOperations.SlaveFailureIsHeeded | ThirdPartiesLibs/mongo-cxx-driver-v2.2/src/mongo/client/dbclient_rs.cpp:493-499 | `notifySlaveFailure` takes the first node with that address out of use and changes nothing else |
| MonitorOperations.EverySeedIsTried | ThirdPartiesLibs/mongo-cxx-driver-v2.2/src/mongo/client/dbclient_rs.cpp:1133-1164 | every seed is tried, in order: it is listed by then, or does not connect, or is asked; then follows a check of every member |
| Bytes.Int32RoundTrip | ThirdPartiesLibs/mongo-cxx-driver-v2.2/src/mongo/bson/bsonobjbuilder.h:216-221 | an int written little-endian is read back |
| Bytes.Int64RoundTrip | ThirdPartiesLibs/mongo-cxx-driver-v2.2/src/mongo/bson/bsonobjbuilder.h:229-234 | a long written little-endian is read back |
| Bytes.Uint64RoundTrip | ThirdPartiesLibs/mongo-cxx-driver-v2.2/src/mongo/bson/bsonobjbuilder.h:448-453 | an unsigned long written little-endian is read back |
| Bytes.StrLenOfCString | ThirdPartiesLibs/mongo-cxx-driver-v2.2/src/mongo/bson/bsonelement.h:150-154 | a C string ends at its own terminator whatever follows |
| BsonDocument.EncodeAppend | ThirdPartiesLibs/mongo-cxx-driver-v2.2/src/mongo/bson/bsonobjbuilder.h:117-120 | appending documents concatenates their bytes |
| BsonFormat.Int32Format | ThirdPartiesLibs/mongo-cxx-driver-v2.2/src/mongo/bson/bsonobjbuilder.h:216-221 | an int is four bytes, least significant first, in two's complement |
| BsonFormat.ElementFormat | ThirdPartiesLibs/mongo-cxx-driver-v2.2/src/mongo/bson/bsonobjbuilder.h:123-523 | the bytes of every type of element, with the type codes of bsonspec.org |
| BsonFormat.HelloWorld | ThirdPartiesLibs/mongo-cxx-driver-v2.2/src/mongo/bson/bsonobjbuilder.h:381-414 | the bytes of the first example of bsonspec.org |
| BsonElement.ElementAt | ThirdPartiesLibs/mongo-cxx-driver-v2.2/src/mongo/bson/bsonobjiterator.h:64-69 | an element read from memory lies inside it and has a NUL-free name |
| BsonRoundTrip.SizeOfValue | ThirdPartiesLibs/mongo-cxx-driver-v2.2/src/mongo/bson/bson-inl.h:601-662 | `size()` is the number of bytes appended, whatever follows |
| BsonRoundTrip.ElementOf | ThirdPartiesLibs/mongo-cxx-driver-v2.2/src/mongo/bson/bsonobjiterator.h:64-69 | `next()` yields the appended element and steps over exactly its bytes |
| BsonRoundTrip.WalkOf | ThirdPartiesLibs/mongo-cxx-driver-v2.2/src/mongo/bson/bsonobjiterator.h:40-73 | the walk visits every element in order and stops on the EOO |
| BsonRoundTrip.DecodeDocOf | ThirdPartiesLibs/mongo-cxx-driver-v2.2/src/mongo/bson/bsonobjbuilder.h:123-523 | a built document decodes to the tree it was built from, at any depth |
| BsonRoundTrip.RoundTrip | ThirdPartiesLibs/mongo-cxx-driver-v2.2/src/mongo/bson/bsonobjbuilder.h:123-523 | decoding restores the tree if and only if no name and no pattern contains a NUL |
| BsonRoundTrip.EncodeInjective | ThirdPartiesLibs/mongo-cxx-driver-v2.2/src/mongo/bson/bsonobjbuilder.h:123-523 | different trees have different bytes |
| BsonRoundTrip.ValidateOf | ThirdPartiesLibs/mongo-cxx-driver-v2.2/src/mongo/bson/bson-inl.h:480-517 | `validate` passes exactly on the validatable values: no string too long, no NUL inside a scoped code |
| BsonValidation.ValidateStringIff | ThirdPartiesLibs/mongo-cxx-driver-v2.2/src/mongo/bson/bson-inl.h:484-499 | for arbitrary bytes: a string, code, symbol or reference passes exactly when a string of allowed size is there with its terminator, and else fails with 10321 |
| BsonValidation.ValidateScopeIff | ThirdPartiesLibs/mongo-cxx-driver-v2.2/src/mongo/bson/bson-inl.h:500-513 | for arbitrary bytes: scoped code passes exactly when its code ends at the first NUL and its scope's size fills the total |
| BsonElement.StrNLen | ThirdPartiesLibs/mongo-cxx-driver-v2.2/src/mongo/bson/util/misc.h:104-109 | the first NUL among n bytes, or -1 when there is none |
| BsonChecked.CheckedSizeIs | ThirdPartiesLibs/mongo-cxx-driver-v2.2/src/mongo/bson/bson-inl.h:519-599 | exactly when `size(maxLen)` is right, for any limit, also one shorter than type and name: four bytes for stored sizes, the whole of a regular expression, nothing for the rest |
| BsonChecked.UnterminatedRegexIsEmpty | ThirdPartiesLibs/mongo-cxx-driver-v2.2/src/mongo/bson/bson-inl.h:572-589 | a regular expression without a NUL within the limit gets the size 0 |
| BsonIterator.BSONObjIterator.constructor | ThirdPartiesLibs/mongo-cxx-driver-v2.2/src/mongo/bson/bsonobjiterator.h:40-48 | starts behind the size, ends on the last byte; an object of size 0 is empty |
| BsonIterator.BSONObjIterator.Range | ThirdPartiesLibs/mongo-cxx-driver-v2.2/src/mongo/bson/bsonobjiterator.h:50-53 | iterates a part of a buffer, bound one byte short |
| BsonIterator.BSONObjIterator.Next | ThirdPartiesLibs/mongo-cxx-driver-v2.2/src/mongo/bson/bsonobjiterator.h:64-69 | yields the element at the position and moves past it; past the end it fails and stays |
| BsonIterator.BSONObjIterator.Rest | ThirdPartiesLibs/mongo-cxx-driver-v2.2/src/mongo/bson/bsonobjiterator.h:55-69 | the loop of `more` and `next` visits what the walk visits |
| BsonIterator.Elems | ThirdPartiesLibs/mongo-cxx-driver-v2.2/src/mongo/bson/bsonobjiterator.h:40-73 | iterating a built document recovers its elements in order and ends on the EOO |
| BsonIterator.OpenWalkOf | ThirdPartiesLibs/mongo-cxx-driver-v2.2/src/mongo/bson/bsonobjiterator.h:50-53 | the bound one byte short loses no element |
| BsonBuilder.BufBuilder.Reallocate | ThirdPartiesLibs/mongo-cxx-driver-v2.2/src/mongo/bson/util/builder.h:213-226 | doubles until the bytes fit and throws past 64 MB, leaving the size as it was |
| BsonBuilder.BufBuilder.AppendBuf | ThirdPartiesLibs/mongo-cxx-driver-v2.2/src/mongo/bson/util/builder.h:181-211 | exactly the appends that fit succeed and add exactly their bytes; once one has thrown, its length stays counted and every later append throws, even an empty one |
| BsonBuilder.BufBuilder.Skip | ThirdPartiesLibs/mongo-cxx-driver-v2.2/src/mongo/bson/util/builder.h:138-141 | leaves room of the given length |
| BsonBuilder.BSONObjBuilder.AppendBool | ThirdPartiesLibs/mongo-cxx-driver-v2.2/src/mongo/bson/bsonobjbuilder.h:208-213 | adds the element bytes of a boolean to the shared buffer, or fails leaving it no shorter, exactly when they do not fit |
| BsonBuilder.BSONObjBuilder.AppendInt | ThirdPartiesLibs/mongo-cxx-driver-v2.2/src/mongo/bson/bsonobjbuilder.h:216-221 | adds the element bytes of an int to the shared buffer, or fails leaving it no shorter, exactly when they do not fit |
| BsonBuilder.BSONObjBuilder.AppendLong | ThirdPartiesLibs/mongo-cxx-driver-v2.2/src/mongo/bson/bsonobjbuilder.h:229-234 | adds the element bytes of a long to the shared buffer, or fails leaving it no shorter, exactly when they do not fit |
| BsonBuilder.BSONObjBuilder.AppendDouble | ThirdPartiesLibs/mongo-cxx-driver-v2.2/src/mongo/bson/bsonobjbuilder.h:285-290 | adds the element bytes of a double to the shared buffer, or fails leaving it no shorter, exactly when they do not fit |
| BsonBuilder.BSONObjBuilder.AppendOid | ThirdPartiesLibs/mongo-cxx-driver-v2.2/src/mongo/bson/bsonobjbuilder.h:298-306 | adds the element bytes of an object id to the shared buffer, or fails leaving it no shorter, exactly when they do not fit |
| BsonBuilder.BSONObjBuilder.AppendDate | ThirdPartiesLibs/mongo-cxx-driver-v2.2/src/mongo/bson/bsonobjbuilder.h:359-364 | adds the element bytes of a date to the shared buffer, or fails leaving it no shorter, exactly when they do not fit |
| BsonBuilder.BSONObjBuilder.AppendRegex | ThirdPartiesLibs/mongo-cxx-driver-v2.2/src/mongo/bson/bsonobjbuilder.h:373-379 | adds the element bytes of a regular expression to the shared buffer, or fails leaving it no shorter, exactly when they do not fit |
| BsonBuilder.BSONObjBuilder.AppendString | ThirdPartiesLibs/mongo-cxx-driver-v2.2/src/mongo/bson/bsonobjbuilder.h:381-414 | adds the element bytes of a string, code or symbol to the shared buffer, or fails leaving it no shorter, exactly when they do not fit |
| BsonBuilder.BSONObjBuilder.AppendEmpty | ThirdPartiesLibs/mongo-cxx-driver-v2.2/src/mongo/bson/bsonobjbuilder.h:421-438 | adds the element bytes of a value without bytes to the shared buffer, or fails leaving it no shorter, exactly when they do not fit |
| BsonBuilder.BSONObjBuilder.AppendTimestamp | ThirdPartiesLibs/mongo-cxx-driver-v2.2/src/mongo/bson/bsonobjbuilder.h:448-453 | adds the element bytes of a timestamp to the shared buffer, or fails leaving it no shorter, exactly when they do not fit |
| BsonBuilder.BSONObjBuilder.AppendDBRef | ThirdPartiesLibs/mongo-cxx-driver-v2.2/src/mongo/bson/bsonobjbuilder.h:466-473 | adds the element bytes of a database reference to the shared buffer, or fails leaving it no shorter, exactly when they do not fit |
| BsonBuilder.BSONObjBuilder.AppendBinData | ThirdPartiesLibs/mongo-cxx-driver-v2.2/src/mongo/bson/bsonobjbuilder.h:482-489 | adds the element bytes of binary data to the shared buffer, or fails leaving it no shorter, exactly when they do not fit |
| BsonBuilder.BSONObjBuilder.AppendCodeWScope | ThirdPartiesLibs/mongo-cxx-driver-v2.2/src/mongo/bson/bsonobjbuilder.h:510-518 | adds the element bytes of code with a scope, sizes included to the shared buffer, or fails leaving it no shorter, exactly when they do not fit |
| BsonBuilder.BSONObjBuilder.AppendObject | ThirdPartiesLibs/mongo-cxx-driver-v2.2/src/mongo/bson/bsonobjbuilder.h:138-144 | adds the element bytes of a finished object, copied in to the shared buffer, or fails leaving it no shorter, exactly when they do not fit |
| BsonBuilder.BSONObjBuilder.Create | ThirdPartiesLibs/mongo-cxx-driver-v2.2/src/mongo/bson/bsonobjbuilder.h:93-96 | a builder with its own buffer: reference count, then room for the size |
| BsonBuilder.BSONObjBuilder.Nested | ThirdPartiesLibs/mongo-cxx-driver-v2.2/src/mongo/bson/bsonobjbuilder.h:101-103 | a builder that continues on another's buffer |
| BsonBuilder.BSONObjBuilder.SubStart | ThirdPartiesLibs/mongo-cxx-driver-v2.2/src/mongo/bson/bsonobjbuilder.h:172-197 | writes the header and hands the buffer on |
| BsonBuilder.BSONObjBuilder.DoneFast | ThirdPartiesLibs/mongo-cxx-driver-v2.2/src/mongo/bson/bsonobjbuilder.h:666-679 | closes the document and patches its size; a second call changes nothing; the rest of the buffer is untouched |
| BsonBuilder.BSONObjBuilder.Done | ThirdPartiesLibs/mongo-cxx-driver-v2.2/src/mongo/bson/bsonobjbuilder.h:566-568 | succeeds exactly when the finished object has a valid size, and returns it |
| BsonBuilder.BSONObjBuilder.AsTempObj | ThirdPartiesLibs/mongo-cxx-driver-v2.2/src/mongo/bson/bsonobjbuilder.h:579-584 | returns the object so far and leaves the builder as open as before |
| BsonBuilder.BSONObjBuilder.Obj | ThirdPartiesLibs/mongo-cxx-driver-v2.2/src/mongo/bson/bsonobjbuilder.h:552-558 | takes the finished object out of an owned buffer |
| BsonNesting.AppendInPlace | ThirdPartiesLibs/mongo-cxx-driver-v2.2/src/mongo/bson/bsonobjbuilder.h:172-197 | a whole tree appended with children in place adds the bytes of the tree, at any depth |
| BsonNesting.BuildInPlace | ThirdPartiesLibs/mongo-cxx-driver-v2.2/src/mongo/bson/bsonobjbuilder.h:93-103 | building in place yields the encoding, exactly when sizes permit |
| BsonNesting.BuildByCopy | ThirdPartiesLibs/mongo-cxx-driver-v2.2/src/mongo/bson/bsonobjbuilder.h:138-188 | building children apart yields the encoding, exactly when sizes permit |
| BsonNesting.CopyImpliesInPlace | ThirdPartiesLibs/mongo-cxx-driver-v2.2/src/mongo/bson/bsonobjbuilder.h:138-197 | whatever copying accepts, building in place accepts |
| BsonNesting.SameBytes | ThirdPartiesLibs/mongo-cxx-driver-v2.2/src/mongo/bson/bsonobjbuilder.h:93-103 | both ways give the same bytes; they differ exactly in the size check of children |
| BsonNesting.MayPeek | ThirdPartiesLibs/mongo-cxx-driver-v2.2/src/mongo/bson/bsonobjbuilder.h:579-584 | looking at the unfinished document, or not, leaves its elements, what lies before it and the limit as they were |
| BsonNesting.AppendPeeking | ThirdPartiesLibs/mongo-cxx-driver-v2.2/src/mongo/bson/bsonobjbuilder.h:579-584 | a whole tree appended to a builder at any offset, every builder involved peeked at or not before each append and before it is closed: the elements grow by the tree's bytes and nothing before the document changes |
| BsonNesting.BuildPeeking | ThirdPartiesLibs/mongo-cxx-driver-v2.2/src/mongo/bson/bsonobjbuilder.h:579-584 | a document built with such peeks, also in nested builders and scopes, is the encoding, exactly when sizes permit it without |
| BsonArray.NumStr | ThirdPartiesLibs/mongo-cxx-driver-v2.2/src/mongo/bson/bsonobjbuilder.h:600-606 | position names are non-empty digits |
| BsonArray.PositionReads | ThirdPartiesLibs/mongo-cxx-driver-v2.2/src/mongo/bson/bsonobjbuilder.h:824-830 | `strtol` reads every position name to its end, as that position or the greatest long |
| BsonArray.PositionKept | ThirdPartiesLibs/mongo-cxx-driver-v2.2/src/mongo/bson/bsonobjbuilder.h:824-830 | the position a name is taken for is the one it says exactly below 2^31 |
| BsonArray.IndexedSnoc | ThirdPartiesLibs/mongo-cxx-driver-v2.2/src/mongo/bson/bsonobjbuilder.h:699-702 | appending one value appends the element named by its position |
| BsonArray.IndexedAppend | ThirdPartiesLibs/mongo-cxx-driver-v2.2/src/mongo/bson/bsonobjbuilder.h:699-702 | appending several values appends the elements named by their positions |
| BsonArray.BSONArrayBuilder.Append | ThirdPartiesLibs/mongo-cxx-driver-v2.2/src/mongo/bson/bsonobjbuilder.h:699-702 | any value, documents included, goes to the next position, exactly when sizes permit; the bytes stay those of the values named 0, 1, 2 and so on |
| BsonArray.BSONArrayBuilder.Fill | ThirdPartiesLibs/mongo-cxx-driver-v2.2/src/mongo/bson/bsonobjbuilder.h:832-840 | fills with nulls up to a position and ignores one already passed, exactly when the position is at most 1,500,000 and the bytes fit |
| BsonArray.BSONArrayBuilder.AppendAt | ThirdPartiesLibs/mongo-cxx-driver-v2.2/src/mongo/bson/bsonobjbuilder.h:739-763 | exactly when it passes, for any name and value; then nulls fill the gap and the value follows; a name that is no number is refused |
| BsonArray.BSONArrayBuilder.AppendAtNumber | ThirdPartiesLibs/mongo-cxx-driver-v2.2/src/mongo/bson/bsonobjbuilder.h:755-840 | for every n, a value named n is appended at position n, with nulls before it, exactly when n is not yet passed and at most 1,500,000 and the bytes fit |
| BsonNumbers.AppendNumber | ThirdPartiesLibs/mongo-cxx-driver-v2.2/src/mongo/bson/bsonobjbuilder.h:270-281 | appends the smallest sensible type |
| BsonNumbers.AppendedNumberIsEqual | ThirdPartiesLibs/mongo-cxx-driver-v2.2/src/mongo/bson/bsonobjbuilder.h:237-281 | the number stored equals the number given, and compares equal to it, if and only if it is not the least long |
| BsonFields.GetField | ThirdPartiesLibs/mongo-cxx-driver-v2.2/src/mongo/bson/bson-inl.h:263-271 | the first field of that name, or none |
| BsonFields.AppendExcept | ThirdPartiesLibs/mongo-cxx-driver-v2.2/src/mongo/client/authentication_table.cpp:88-94 | copies all elements but the named ones, byte for byte and in order |
| BsonFields.RemoveField | ThirdPartiesLibs/mongo-cxx-driver-v2.2/src/mongo/bson/bson-inl.h:989-999 | drops every field of that name and keeps all others in order |
| BsonFields.BuilderNames | ThirdPartiesLibs/mongo-cxx-driver-v2.2/src/mongo/bson/bson-inl.h:300-306 | the names on an unfinished builder are all found although the bound is one byte short |
| BsonFields.AppendElementsUnique | ThirdPartiesLibs/mongo-cxx-driver-v2.2/src/mongo/bson/bson-inl.h:299-316 | adds exactly the elements whose names were not there before, and changes no byte that was there |
| BsonFields.BuildThenIterate | ThirdPartiesLibs/mongo-cxx-driver-v2.2/src/mongo/bson/bsonobjiterator.h:40-73 | building in place and iterating hands back the elements that went in |
| Doubles.ExactWithin53Bits | ThirdPartiesLibs/mongo-cxx-driver-v2.2/src/mongo/bson/bson-inl.h:82-93 | integers of at most 53 bits are doubles |
| Doubles.RoundMonotone | ThirdPartiesLibs/mongo-cxx-driver-v2.2/src/mongo/bson/bson-inl.h:82-93 | converting to double never reverses an order |
| Doubles.FromLongIs | ThirdPartiesLibs/mongo-cxx-driver-v2.2/src/mongo/bson/bsonobjbuilder.h:270-281 | the eight bytes of `(double) n`, for every long |
| Doubles.FirstInexact | ThirdPartiesLibs/mongo-cxx-driver-v2.2/src/mongo/bson/bson-inl.h:82-93 | 2^53 + 1 is the first integer a double cannot hold |
| BsonOrder.StringCmpIsLex | ThirdPartiesLibs/mongo-cxx-driver-v2.2/src/mongo/bson/bson-inl.h:96-110 | comparing the common part and then the sizes is dictionary order |
| OrderMeaning.KindThenNameThenValue | ThirdPartiesLibs/mongo-cxx-driver-v2.2/src/mongo/bson/bson-inl.h:153-167 | elements of different kinds compare by rank from MinKey to MaxKey whatever their names; of one kind by name, then by value |
| OrderMeaning.OrderOfTimes | ThirdPartiesLibs/mongo-cxx-driver-v2.2/src/mongo/bson/bson-inl.h:48-63 | dates and timestamps by number, a timestamp against a date as unsigned, `false` before `true` |
| OrderMeaning.OrderOfNumbers | ThirdPartiesLibs/mongo-cxx-driver-v2.2/src/mongo/bson/bson-inl.h:64-93 | numbers by value, longs exactly among each other, otherwise as doubles; NaN below all |
| OrderMeaning.OrderOfTexts | ThirdPartiesLibs/mongo-cxx-driver-v2.2/src/mongo/bson/bson-inl.h:96-110 | strings, symbols and code in dictionary order of their bytes, NULs included |
| OrderMeaning.OrderOfIds | ThirdPartiesLibs/mongo-cxx-driver-v2.2/src/mongo/bson/bson-inl.h:94-95 | object ids as numbers, most significant byte first |
| OrderMeaning.OrderOfBinary | ThirdPartiesLibs/mongo-cxx-driver-v2.2/src/mongo/bson/bson-inl.h:120-125 | binary data by length, subtype, content |
| OrderMeaning.OrderOfPatterns | ThirdPartiesLibs/mongo-cxx-driver-v2.2/src/mongo/bson/bson-inl.h:126-131 | regular expressions by pattern, then options |
| OrderMeaning.OrderOfReferences | ThirdPartiesLibs/mongo-cxx-driver-v2.2/src/mongo/bson/bson-inl.h:114-119 | references by the length of the name, the name, the id |
| OrderMeaning.OrderOfScopedCode | ThirdPartiesLibs/mongo-cxx-driver-v2.2/src/mongo/bson/bson-inl.h:132-143 | scoped code by the code, then by the scope's bytes up to their first NUL |
| OrderMeaning.OrderOfTheRest | ThirdPartiesLibs/mongo-cxx-driver-v2.2/src/mongo/bson/bson-inl.h:41-47 | the kinds of one value are equal to themselves; embedded documents and arrays compare as documents |
| OrderMeaning.FirstDifferenceDecides | ThirdPartiesLibs/mongo-cxx-driver-v2.2/src/mongo/db/jsobj.cpp:483-524 | equal elements at the beginning do not count; behind them the document that ends first is less, and otherwise the first pair that differs decides |
| BsonOrder.DocsOpposite | ThirdPartiesLibs/mongo-cxx-driver-v2.2/src/mongo/db/jsobj.cpp:483-524 | comparing the other way round gives the opposite sign, and throws together |
| BsonOrder.DocsChain | ThirdPartiesLibs/mongo-cxx-driver-v2.2/src/mongo/bson/bson-inl.h:37-167 | `woCompare` is transitive on documents whose longs stay apart as doubles and that do not mix dates and timestamps |
| BsonOrder.EqualityIsEquivalence | ThirdPartiesLibs/mongo-cxx-driver-v2.2/src/mongo/bson/bson-inl.h:153-167 | comparing equal is an equivalence there |
| BsonOrder.ExactLongsAreApart | ThirdPartiesLibs/mongo-cxx-driver-v2.2/src/mongo/bson/bson-inl.h:64-93 | longs of at most 53 bits stay apart |
| BsonOrder.OrderedIff | ThirdPartiesLibs/mongo-cxx-driver-v2.2/src/mongo/bson/bson-inl.h:37-167 | the comparison is a total preorder on a class of documents if and only if no two of its longs round to one double and dates are not mixed with timestamps |
| BsonOrder.CollapsingLongs | ThirdPartiesLibs/mongo-cxx-driver-v2.2/src/mongo/bson/bson-inl.h:64-93 | any two longs that round to one double are equal to that double, whose bytes are given, but not to each other |
| BsonOrder.FirstCollapse | ThirdPartiesLibs/mongo-cxx-driver-v2.2/src/mongo/bson/bson-inl.h:64-93 | 2^53 and 2^53 + 1 are, with the eight bytes of the double between them |
| BsonOrder.DateAgainstTimestamp | ThirdPartiesLibs/mongo-cxx-driver-v2.2/src/mongo/bson/bson-inl.h:51-63 | date against timestamp throws, timestamp against date does not |
| BsonOrder.ThrowsIff | ThirdPartiesLibs/mongo-cxx-driver-v2.2/src/mongo/bson/bson-inl.h:51-63 | comparing documents throws exactly when they agree up to a place where the left one has a date and the right one a timestamp of that name |
| BsonOrder.NaNIsLeast | ThirdPartiesLibs/mongo-cxx-driver-v2.2/src/mongo/bson/bson-inl.h:82-93 | NaN equals NaN and sorts below every other number |
| ObjectId.OID.WriteReversed | ThirdPartiesLibs/mongo-cxx-driver-v2.2/src/mongo/bson/oid.cpp:142-157 | writes a number most significant byte first |
| ObjectId.OID.InitSequential | ThirdPartiesLibs/mongo-cxx-driver-v2.2/src/mongo/bson/oid.cpp:140-158 | time and counter, both most significant byte first |
| ObjectId.OID.InitDate | ThirdPartiesLibs/mongo-cxx-driver-v2.2/src/mongo/bson/oid.cpp:169-181 | the seconds reversed, then all zeros or all ones |
| ObjectId.OID.AsTimeT | ThirdPartiesLibs/mongo-cxx-driver-v2.2/src/mongo/bson/oid.cpp:183-191 | the first four bytes as a signed number |
| ObjectId.LexIsNumeric | ThirdPartiesLibs/mongo-cxx-driver-v2.2/src/mongo/bson/oid.h:61-63 | byte-wise order is the order of the big-endian values |
| ObjectId.SequentialOrder | ThirdPartiesLibs/mongo-cxx-driver-v2.2/src/mongo/bson/oid.cpp:140-158 | ids compare as their (time, counter) pairs do, in both directions |
| ObjectId.StrictlyIncreasing | ThirdPartiesLibs/mongo-cxx-driver-v2.2/src/mongo/bson/oid.cpp:139-158 | ids strictly increase in call order while the clock does not step back and the counter does not wrap |
| ObjectId.NextIncreasesIff | ThirdPartiesLibs/mongo-cxx-driver-v2.2/src/mongo/bson/oid.cpp:139-158 | of neighbouring calls the later has the greater id exactly when the clock has moved on, or stands still and the counter has not wrapped |
| ObjectId.IncreasingIff | ThirdPartiesLibs/mongo-cxx-driver-v2.2/src/mongo/bson/oid.cpp:139-158 | ids strictly increase in call order exactly when that holds between all neighbouring calls |
| ObjectId.WrapBreaksOrder | ThirdPartiesLibs/mongo-cxx-driver-v2.2/src/mongo/bson/oid.cpp:152-156 | when the counter wraps within a second the order breaks |
| ObjectId.DateRoundTrip | ThirdPartiesLibs/mongo-cxx-driver-v2.2/src/mongo/bson/oid.cpp:169-191 | `asTimeT` inverts the byte reversal, with the right sign exactly below 2^31 seconds |
| ObjectId.DateBounds | ThirdPartiesLibs/mongo-cxx-driver-v2.2/src/mongo/bson/oid.cpp:169-181 | of all ids made in that second `init(date, max)` gives the least, or the greatest |
| AuthTable.AuthenticationTable.WriteTo | ThirdPartiesLibs/mongo-cxx-driver-v2.2/src/mongo/client/authentication_table.cpp:77-81 | writes every database once, in place on the builder's buffer |
| AuthTable.AuthenticationTable.ToBSON | ThirdPartiesLibs/mongo-cxx-driver-v2.2/src/mongo/client/authentication_table.cpp:75-83 | the document of the whole table, exactly when it is not too large |
| AuthTable.AuthenticationTable.SetFromBSON | ThirdPartiesLibs/mongo-cxx-driver-v2.2/src/mongo/client/authentication_table.cpp:61-73 | replaces the table by what any bytes say; when reading throws, the table holds the entries read until then |
| AuthTable.ReadsCStrings | ThirdPartiesLibs/mongo-cxx-driver-v2.2/src/mongo/client/authentication_table.cpp:61-73 | every name and user the reader stores is free of NULs |
| AuthTable.ReadsObject | ThirdPartiesLibs/mongo-cxx-driver-v2.2/src/mongo/client/authentication_table.cpp:61-73 | on the bytes of a document the reader takes its elements in order |
| AuthTable.AuthenticationTable.CopyCommandObjAddingAuth | ThirdPartiesLibs/mongo-cxx-driver-v2.2/src/mongo/client/authentication_table.cpp:85-98 | the command without any `$auth` of its own, and the table as last field |
| AuthTable.Representable | ThirdPartiesLibs/mongo-cxx-driver-v2.2/src/mongo/client/authentication_table.cpp:61-83 | `setFromBSON` makes the written table of its bytes if and only if no name or user contains a NUL |
| AuthTable.ReadsBack | ThirdPartiesLibs/mongo-cxx-driver-v2.2/src/mongo/client/authentication_table.cpp:61-83 | reading a written table yields its entries |
| AuthTable.SaveAndRestore | ThirdPartiesLibs/mongo-cxx-driver-v2.2/src/mongo/client/authentication_table.cpp:61-83 | `setFromBSON(toBSON(t))`, also into the same table, restores t whatever the table held before, if and only if the document is not too large and no name or user contains a NUL |
| AuthTable.CommandFields | ThirdPartiesLibs/mongo-cxx-driver-v2.2/src/mongo/client/authentication_table.cpp:85-98 | exactly one `$auth`, holding the table, and all other fields in order |
| Cursor.Server.Call | ThirdPartiesLibs/mongo-cxx-driver-v2.2/src/mongo/client/dbclientcursor.cpp:119-152 | the other end: replies continue where the last one ended, however they are cut |
| Cursor.DBClientCursor.constructor | ThirdPartiesLibs/mongo-cxx-driver-v2.2/src/mongo/client/dbclientcursor.h:130-145 | a limit is kept for positive sizes of ordinary cursors; a batch size of 1 becomes 2 |
| Cursor.DBClientCursor.NextBatchSize | ThirdPartiesLibs/mongo-cxx-driver-v2.2/src/mongo/client/dbclientcursor.cpp:37-46 | the batch size, the number still wanted, or the smaller of the two when both are given |
| Cursor.DBClientCursor.DataReceived | ThirdPartiesLibs/mongo-cxx-driver-v2.2/src/mongo/client/dbclientcursor.cpp:166-204 | takes a reply over; a lost cursor throws unless it is tailable; a tailable cursor keeps its id |
| Cursor.DBClientCursor.Init | ThirdPartiesLibs/mongo-cxx-driver-v2.2/src/mongo/client/dbclientcursor.cpp:62-78 | sends one query, for that number; after the first reply the results up to the limit are still to come, all of them; it succeeds unless the call failed or the cursor was lost |
| Cursor.DBClientCursor.RequestMore | ThirdPartiesLibs/mongo-cxx-driver-v2.2/src/mongo/client/dbclientcursor.cpp:119-152 | sends one getMore for the server's cursor, for the batch size or what is still wanted; continues without losing a result, and fails only when the call failed or the cursor was lost; the `verify( nToReturn > 0 )` holds; a failed request has used the last batch up |
| Cursor.DBClientCursor.More | ThirdPartiesLibs/mongo-cxx-driver-v2.2/src/mongo/client/dbclientcursor.cpp:207-224 | true exactly while something is to come, for a complete cursor that is not lost; it delivers nothing itself, asks the server exactly when the batch is used up and the cursor open, and fails only with a request |
| Cursor.DBClientCursor.Next | ThirdPartiesLibs/mongo-cxx-driver-v2.2/src/mongo/client/dbclientcursor.cpp:226-241 | what was put back last, else the next result; it fails exactly when neither is there |
| Cursor.DBClientCursor.PutBack | ThirdPartiesLibs/mongo-cxx-driver-v2.2/src/mongo/client/dbclientcursor.h:68-71 | the document comes next, before everything else |
| Cursor.DBClientCursor.ItCount | ThirdPartiesLibs/mongo-cxx-driver-v2.2/src/mongo/client/dbclientcursor.h:100-110 | the loop of `more` and `next` sees exactly what was to come, in order, and counts it; it fails only when a call failed or the cursor was lost |
| Cursor.ReadAll | ThirdPartiesLibs/mongo-cxx-driver-v2.2/src/mongo/client/dbclientcursor.cpp:37-241 | a query read to its end delivers exactly the first min(limit, n) results in order for every way the server cuts its replies, and fails exactly when a call failed or the cursor was lost |
| Cursor.TopFirst | ThirdPartiesLibs/mongo-cxx-driver-v2.2/src/mongo/client/dbclientcursor.h:68-71 | put-back documents come back last in, first out |
| ServerName.Prefix | ThirdPartiesLibs/mongo-cxx-driver-v2.2/src/mongo/client/connpool.cpp:361-385 | everything before the first slash or NUL |
| ServerName.PrefixIs | ThirdPartiesLibs/mongo-cxx-driver-v2.2/src/mongo/client/connpool.cpp:361-385 | it contains no slash and no NUL, and one follows unless it is the whole |
| ServerName.ServerNameCompare | ThirdPartiesLibs/mongo-cxx-driver-v2.2/src/mongo/client/connpool.cpp:361-385 | the loop is dictionary order on the parts before the slash |
| ServerName.ServerOrder | ThirdPartiesLibs/mongo-cxx-driver-v2.2/src/mongo/client/connpool.cpp:361-385 | in terms of bytes: at the first difference before a slash or NUL one name ends or has the smaller signed char |
| ServerName.PoolKeyCompare | ThirdPartiesLibs/mongo-cxx-driver-v2.2/src/mongo/client/connpool.cpp:387-395 | name first, then timeout |
| ServerName.SameServerIffSamePrefix | ThirdPartiesLibs/mongo-cxx-driver-v2.2/src/mongo/client/connpool.cpp:361-385 | two names are incomparable exactly when the parts before the slash are equal |
| ServerName.KeysAreWeaklyOrdered | ThirdPartiesLibs/mongo-cxx-driver-v2.2/src/mongo/client/connpool.cpp:387-395 | a strict weak order whose classes are the keys with equal prefix and timeout |
| ConnectionPool.PoolForHost.Get | ThirdPartiesLibs/mongo-cxx-driver-v2.2/src/mongo/client/connpool.cpp:53-74 | stops at the topmost connection idle for less than 1800 seconds; exactly the stale ones above it are deleted, what is below stays as it is; a hook that throws leaves the stale one it was about undeleted and out of the pool |
| ConnectionPool.PoolForHost.Done | ThirdPartiesLibs/mongo-cxx-driver-v2.2/src/mongo/client/connpool.cpp:43-51 | pushes, or deletes when the pool is full; a hook that throws prevents the deletion |
| ConnectionPool.PoolForHost.Flush | ThirdPartiesLibs/mongo-cxx-driver-v2.2/src/mongo/client/connpool.cpp:76-107 | keeps exactly the connections that answer, with their times, in the opposite order, and deletes exactly the others |
| ConnectionPool.PoolForHost.GetStaleConnections | ThirdPartiesLibs/mongo-cxx-driver-v2.2/src/mongo/client/connpool.cpp:109-126 | separates the stale from the recent connections and deletes none |
| ConnectionPool.PoolForHost.Clear | ThirdPartiesLibs/mongo-cxx-driver-v2.2/src/mongo/client/connpool.cpp:35-41 | deletes every entry, each once |
| PoolModel.InvStep | ThirdPartiesLibs/mongo-cxx-driver-v2.2/src/mongo/client/connpool.h:34-88 | every step of every thread keeps this: each connection that exists is pooled, held by a caller, waiting for the cleaner or lost, in one of these only; a pooled one is in one stack at one place, under its own timeout, and no stack exceeds the maximum |
| PoolModel.InvRun | ThirdPartiesLibs/mongo-cxx-driver-v2.2/src/mongo/client/connpool.h:34-260 | so it holds after any steps of any threads in any order |
| PoolRuns.EveryConnectionIsSomewhere | ThirdPartiesLibs/mongo-cxx-driver-v2.2/src/mongo/client/connpool.h:34-88 | over all runs every connection ever made has been deleted or is in exactly one place, if pooled at exactly one position of one stack |
| PoolRuns.DeletedForGood | ThirdPartiesLibs/mongo-cxx-driver-v2.2/src/mongo/client/connpool.cpp:30-260 | a deleted connection is never pooled, handed out or deleted again |
| PoolRuns.LostExactly | ThirdPartiesLibs/mongo-cxx-driver-v2.2/src/mongo/client/connpool.cpp:62-65 | in every run exactly as many connections are lost as `onDestroy` hooks have thrown over a stale connection, in `get` or in the cleaner |
| PoolRuns.EntryLeavesIff | ThirdPartiesLibs/mongo-cxx-driver-v2.2/src/mongo/client/connpool.cpp:30-260 | an entry is in its stack after a step exactly if the step does not hand it out, find it stale in a `get` of that stack or in the cleaner, flush it because it does not answer, or remove its server; and where it goes in each case |
| PoolRuns.PutInBefore | ThirdPartiesLibs/mongo-cxx-driver-v2.2/src/mongo/client/connpool.cpp:43-51 | a pooled entry was put in by a `release`, at the time it carries, and has been in its stack since |
| PoolRuns.HandedOutRecently | ThirdPartiesLibs/mongo-cxx-driver-v2.2/src/mongo/client/connpool.cpp:53-74 | no pooled connection idle for 1800 seconds is ever handed out, in any run: what `get` takes was put back by a `release` less than that before, under the server and the timeout now asked for, and has been left alone in between; it goes to the caller |
| PoolRuns.TakenOutBetween | ThirdPartiesLibs/mongo-cxx-driver-v2.2/src/mongo/client/connpool.cpp:30-260 | a pooled entry that is gone later was taken out by one step, for one of these reasons |
| PoolRuns.OthersStay | ThirdPartiesLibs/mongo-cxx-driver-v2.2/src/mongo/client/connpool.cpp:53-126 | every other connection stays: what no step takes for such a reason is still pooled, with its time |
| PoolRuns.CollectTakesIdle | ThirdPartiesLibs/mongo-cxx-driver-v2.2/src/mongo/client/connpool.cpp:109-126 | what the cleaner takes out of the pools is exactly what has been idle for 1800 seconds |
| ConnectionPool.DBConnectionPool.TakeFrom | ThirdPartiesLibs/mongo-cxx-driver-v2.2/src/mongo/client/connpool.cpp:157-162 | `_get` is one step of the model; the `verify` of the timeout never fails; it fails exactly when a hook throws on a stale connection |
| ConnectionPool.DBConnectionPool.Get | ThirdPartiesLibs/mongo-cxx-driver-v2.2/src/mongo/client/connpool.cpp:183-224 | takes exactly the steps of one of six outcomes and nothing else happens; what it returns or throws in each; hooks that throw on a stale connection and those that throw at hand-out or creation are told apart |
| ConnectionPool.GetMeans | ThirdPartiesLibs/mongo-cxx-driver-v2.2/src/mongo/client/connpool.cpp:183-224 | the whole state after each outcome: no other stack changes, the entries below stay, the stale ones above are deleted; the connection handed out is recent, or new exactly when none is recent; a hook that throws over it deletes it, one that throws over a stale one loses that one |
| ConnectionPool.DBConnectionPool.Create | ThirdPartiesLibs/mongo-cxx-driver-v2.2/src/mongo/client/connpool.cpp:164-181 | a new connection is handed out, or deleted when a hook throws |
| ConnectionPool.DBConnectionPool.DoneAt | ThirdPartiesLibs/mongo-cxx-driver-v2.2/src/mongo/client/connpool.cpp:43-51 | the stack of that key gets one entry, of this time, while there is room; else the connection is deleted; no other stack or time changes |
| ConnectionPool.DBConnectionPool.Release | ThirdPartiesLibs/mongo-cxx-driver-v2.2/src/mongo/client/connpool.cpp:226-234 | takes exactly the steps of its outcome and nothing else happens |
| ConnectionPool.ReleaseMeans | ThirdPartiesLibs/mongo-cxx-driver-v2.2/src/mongo/client/connpool.cpp:226-234 | the whole state after a `release`: a failed connection is deleted, any other is pooled now under its present timeout while there is room and deleted otherwise, and nothing else changes |
| ConnectionPool.DBConnectionPool.SetSoTimeout | ThirdPartiesLibs/mongo-cxx-driver-v2.2/src/mongo/client/dbclientinterface.h:1126-1126 | a client may change the timeout of a connection it holds without breaking the pool |
| ConnectionPool.DBConnectionPool.Kill | ThirdPartiesLibs/mongo-cxx-driver-v2.2/src/mongo/client/connpool.h:269-272 | a handed-out connection is deleted, once |
| ConnectionPool.DBConnectionPool.FlushAll | ThirdPartiesLibs/mongo-cxx-driver-v2.2/src/mongo/client/connpool.cpp:241-247 | one step: deletes every pooled connection that does not answer and no other |
| ConnectionPool.DBConnectionPool.RemoveAll | ThirdPartiesLibs/mongo-cxx-driver-v2.2/src/mongo/client/connpool.cpp:249-260 | one step: deletes what is pooled for the server, whatever the timeout, and nothing else |
| ConnectionPool.DBConnectionPool.CollectStale | ThirdPartiesLibs/mongo-cxx-driver-v2.2/src/mongo/client/connpool.cpp:398-407 | one step: the stale connections of all pools leave them, and the list holds each of them once |
| ConnectionPool.DBConnectionPool.DeleteAll | ThirdPartiesLibs/mongo-cxx-driver-v2.2/src/mongo/client/connpool.cpp:409-418 | every connection on the list is deleted, but for as many as hooks throw, which are lost |
| ConnectionPool.DBConnectionPool.TaskDoWork | ThirdPartiesLibs/mongo-cxx-driver-v2.2/src/mongo/client/connpool.cpp:398-419 | exactly the connections idle for 1800 seconds leave the pool; all are deleted but for as many as hooks throw, which are lost; everything else stays |
| ConfigText.FindIsFirst | Engine/SConfigFileParser.cpp:82-91 | `find` yields the first occurrence |
| ConfigText.TrimSplits | Engine/SConfigFileParser.cpp:43-48 | trimming takes blanks off both ends and leaves none there |
| ConfigText.TrimIs | Engine/SConfigFileParser.cpp:43-48 | the trimmed string is determined by that |
| ConfigText.GetLine | Engine/SConfigFileParser.cpp:74-80 | every successful read makes progress; a failed stream leaves the string as it was |
| ConfigParser.ConfigFileParser.Read | Engine/SConfigFileParser.cpp:60-128 | the loops over the stream end and compute the specification function |
| ConfigParser.ConfigFileParser.ReadValue | Engine/SConfigFileParser.cpp:93-118 | the read-ahead loop ends and computes its specification |
| ConfigParser.ConfigFileParser.Write | Engine/SConfigFileParser.cpp:50-58 | prints every entry once |
| ConfigLines.AtHead | Engine/SConfigFileParser.cpp:69-126 | the stream loops are an automaton over lines: blank lines, comments, keys, sentry and read-ahead included |
| ConfigLines.AtOpen | Engine/SConfigFileParser.cpp:93-118 | the same for the read-ahead loop, with a value open |
| ConfigLines.LastLineTwice | Engine/SConfigFileParser.cpp:97-117 | at the end of the stream the last line is taken twice |
| ConfigRoundTrip.ParseIsGood | Engine/SConfigFileParser.cpp:60-128 | what is parsed, from any text, has keys without delimiter and comment and values whose lines the parser accepts as continuations |
| ConfigRoundTrip.PrintedParses | Engine/SConfigFileParser.cpp:50-128 | for all contents of that shape and every order, parse(print(contents)) is the contents |
| ConfigMeaning.StripMeans | Engine/SConfigFileParser.cpp:81-82 | a comment reaches from the first comment sign to the end of the line |
| ConfigMeaning.ParseIsMeaning | Engine/SConfigFileParser.cpp:60-128 | parsing computes what the lines before the sentry mean |
| ConfigMeaning.KeysAndValues | Engine/SConfigFileParser.cpp:86-128 | a key is set exactly if some line gives it, to the value that the last such line starts |
| ConfigMeaning.TextMeans | Engine/SConfigFileParser.cpp:60-128 | the two together, for every text of whole lines: what stands behind the first delimiter, continued by the lines up to the first that is blank, has a key or the sentry, each without its comment |
| ConfigRoundTrip.RoundTrip | Engine/SConfigFileParser.cpp:50-128 | parse(print(parse(text))) equals parse(text) for every text and every order of printing, with solid delimiter and comment and solid or empty sentry |
| ConfigRoundTrip.MissingNewline | Engine/SConfigFileParser.cpp:93-118 | leaving out the last newline changes the result exactly when the last line continues a value and is not blank without its comment |
| ConfigRoundTrip.MissingNewlineDoubles | Engine/SConfigFileParser.cpp:93-118 | an input whose last line is stored twice |
| RollingFile.RollingFileAppender.constructor | ThirdPartiesLibs/log4cpp-1.1/src/RollingFileAppender.cpp:30-39 | at least one backup; without append the file in use is emptied |
| RollingFile.RollingFileAppender.RollOver | ThirdPartiesLibs/log4cpp-1.1/src/RollingFileAppender.cpp:57-75 | every file moves up one place, the last one goes, the file in use is new, and files beyond the last place are not touched |
| RollingFile.RollingFileAppender.Append | ThirdPartiesLibs/log4cpp-1.1/src/RollingFileAppender.cpp:77-87 | what is retained is always a suffix of all that was logged, only whole oldest files are lost, no index beyond the last is made, and when the file in use is below the maximum size afterwards |
| RollingFile.RollingFileAppender.SetMaxBackupIndex | ThirdPartiesLibs/log4cpp-1.1/src/RollingFileAppender.cpp:41-43 | the history counts from the files that now belong to it |
| RollingFile.RetainedShift | ThirdPartiesLibs/log4cpp-1.1/src/RollingFileAppender.cpp:57-75 | rolling over loses the file in last place and nothing else |
| RemoteSyslog.SyslogPriorityOrder | ThirdPartiesLibs/log4cpp-1.1/src/RemoteSyslogAppender.cpp:36-54 | each severity has its hundred priorities, beginning one below its own; what lies outside goes to the ends; the mapping never reverses an order |
| RemoteSyslog.PreambleFits | ThirdPartiesLibs/log4cpp-1.1/src/RemoteSyslogAppender.cpp:138-140 | the preamble of any int with its NUL fits the 16 extra bytes |
| RemoteSyslog.PreambleReads | ThirdPartiesLibs/log4cpp-1.1/src/RemoteSyslogAppender.cpp:135-147 | between its brackets the preamble is the decimal numeral of the priority |
| RemoteSyslog.Append | ThirdPartiesLibs/log4cpp-1.1/src/RemoteSyslogAppender.cpp:135-164 | every packet has at most 900 bytes and the same preamble, the payloads together are the message in order, and no access leaves the buffer |
| RemoteSyslog.Split | ThirdPartiesLibs/log4cpp-1.1/src/RemoteSyslogAppender.cpp:149-161 | the same for the loop; it ends |
| RemoteSyslog.MemMove | ThirdPartiesLibs/log4cpp-1.1/src/RemoteSyslogAppender.cpp:155-155 | an overlapping move copies the old bytes |
| CategoryTree.ParentNameIs | ThirdPartiesLibs/log4cpp-1.1/src/HierarchyMaintainer.cpp:69-75 | the parent's name is what comes before the last dot, or empty |
| CategoryTree.Category.SetPriority | ThirdPartiesLibs/log4cpp-1.1/src/Category.cpp:71-81 | only a root given NOTSET or more is refused |
| CategoryTree.Category.AddAppender | ThirdPartiesLibs/log4cpp-1.1/src/Category.cpp:94-120 | adding again changes nothing, not even the owner |
| CategoryTree.Category.RemoveAppender | ThirdPartiesLibs/log4cpp-1.1/src/Category.cpp:168-183 | deleted exactly when it was there and owned |
| CategoryTree.HierarchyMaintainer.GetInstance | ThirdPartiesLibs/log4cpp-1.1/src/HierarchyMaintainer.cpp:61-82 | the category and exactly its missing ancestors are made; existing ones are untouched; the tree stays closed under parents |
| CategoryTree.HierarchyMaintainer.AncestorsPresent | ThirdPartiesLibs/log4cpp-1.1/src/HierarchyMaintainer.cpp:61-82 | every ancestor of a category is there, up to the root |
| CategoryTree.HierarchyMaintainer.Nearest | ThirdPartiesLibs/log4cpp-1.1/src/Category.cpp:83-92 | there always is an ancestor with a priority of its own |
| CategoryTree.HierarchyMaintainer.NearestIsFirst | ThirdPartiesLibs/log4cpp-1.1/src/Category.cpp:83-92 | no nearer ancestor has one |
| CategoryTree.HierarchyMaintainer.GetChainedPriority | ThirdPartiesLibs/log4cpp-1.1/src/Category.cpp:83-92 | the loop never meets a null parent and yields the nearest ancestor's priority |
| CategoryTree.HierarchyMaintainer.IsPriorityEnabled | ThirdPartiesLibs/log4cpp-1.1/src/Category.cpp:263-265 | enabled exactly up to the inherited priority |
| CategoryTree.HierarchyMaintainer.SetPriority | ThirdPartiesLibs/log4cpp-1.1/src/Category.cpp:71-81 | keeps the root below NOTSET, hence the tree valid |
| CategoryTree.HierarchyMaintainer.SetAdditivity | ThirdPartiesLibs/log4cpp-1.1/src/Category.cpp:235-237 | off, it ends the line of visited categories there; on, it leads it on through the line of the parent |
| CategoryTree.HierarchyMaintainer.Line | ThirdPartiesLibs/log4cpp-1.1/src/Category.cpp:230-232 | the categories visited: up to and including the first that is not additive, or the root |
| CategoryTree.HierarchyMaintainer.CallAppenders | ThirdPartiesLibs/log4cpp-1.1/src/Category.cpp:220-233 | every appender is called once for each visited category that has it, and no other is called |

## Left out

- MonitorProtocol: the configuration-change hook called under `_checkConnectionLock`, destruction of a monitor, and the table of monitors beyond `_setsLock` itself.
- MonitorProtocol: sleeping and log output inside `_check`, and the 32-bit wrap-around of ping times and indices.
- MonitorTheorems.NoDeadlock: says that some thread can step, not that every thread finishes, because a list that keeps growing keeps `_check` busy.
- ReadPreference: tag values are text or a number, the two kinds for which `valuesEqual` is plain equality.
- ReplicaNode: `atoi` beyond the range of int, which C leaves undefined, is modelled by the number itself.
- BsonElement: a walk over bytes whose sizes lead outside the buffer is undefined in C++; it is modelled as a failure.
- BsonBuilder: sizes are unbounded integers up to the 64 MB limit the buffer itself enforces; running out of memory is left out.
- BsonBuilder: `reset` and `setlen` on a buffer whose append has thrown, and what the destructor of a builder does then.
- BsonBuilder: the stream-style labelling of fields (`<<`), the size tracker, and appenders that only rename another one.
- BsonFields.GetField: states the first field of that name; dotted paths (`getFieldDotted`) are left out.
- BsonFields.AppendExcept: states what happens to the bytes of documents, as builders write them; so do `RemoveField` and `AppendElementsUnique`.
- BsonFields.RemoveField: see `BsonFields.AppendExcept`; on other bytes the source's walk is undefined.
- AuthTable.AuthenticationTable.SetFromBSON: an embedded object whose first element reaches past the object's own size counts as unreadable; the source would read on into the bytes behind it.
- BsonOrder: keyed comparison (`woSortOrder`, `Ordering`), and embedded objects larger than the maximum internal size.
- BsonOrder.DocsChain: for longs that stay apart as doubles and without mixing dates and timestamps, because it is false beyond that (`BsonOrder.OrderedIff`).
- BsonArray: a `long` has 64 bits; with 32, `strtol` would cut a position off at 2^31 - 1, which is refused.
- ObjectId: machine id, process id and the hexadecimal form.
- AuthTable: `addAuth`, `removeAuth`, `clearAuth` and `getAuthForDb`, one map operation each.
- AuthTable.AuthenticationTable.ToBSON: leaves the order of the databases open, which the `std::map` fixes; the results hold for every order.
- ConfigParser.ConfigFileParser.Write: leaves the order of the keys open, which the `std::map` fixes; the results hold for every order.
- ConfigParser: conversion of values to other types, and reading a file that does not exist.
- Cursor: documents are values, not positions in a message buffer; exhaust mode, commands, lazy initialisation, shard errors and the constructor from a cursor id, which leaves `batchSize` unset.
- Cursor.Server.Call: the server is assumed to close a cursor early only for sizes of 1 or below 0, as the wire protocol defines them.
- ConnectionPool: the methods of the class run one after the other; that other threads run between the critical sections of `get`, `release` and `taskDoWork` is covered by the runs of `PoolRuns`, whose steps are the critical sections. Checking that a thread takes the mutex where it should is left out.
- ConnectionPool.DBConnectionPool.Get: a bad host name and a refused connection are one failure; the two overloads of `get` differ in the exception only.
- ConnectionPool: destroying the pool itself, which deletes what is pooled.
- ConnectionPool: statistics; a timeout that is not a number; `_maxPerHost` is fixed.
- ConnectionPool.PoolForHost.Flush: an exception other than a database exception while checking a connection.
- ServerName.PoolKeyCompare: timeouts are reals, so not-a-number, for which the order fails, is left out.
- RollingFile.RollingFileAppender.RollOver: removing and renaming succeed whenever the file is there.
- RemoteSyslog.Append: sending itself, and a facility so large that adding the severity overflows an int.
- CategoryTree: filters, thresholds and layouts of appenders, and threads.
- CategoryTree.HierarchyMaintainer.CallAppenders: leaves the order of the calls within one category open, which is the order of pointers.
- Sung's game, database, network and schedule engines, and the remaining appenders: message forwarding and library calls.

# Kamailio core, verified

This project models the parts of the Kamailio core (the SIP router, version 3.1.4) in which
several pieces of mutable state have to agree, and proves what they promise.

- **Routing scripts** (`ScriptMachine`, `ScriptSemantics`, `ScriptBounds`, `ScriptLaws`). The interpreter encodes
  break, return and exit as bits of a flag word, a nesting level and a long jump. It refines a
  structured semantics without any of these, at every level, for every script, exactly in those
  environments in which no expression exits the script and nevertheless makes a `while` or a
  `switch` go on. Exactly when no action starts while one of these bits is set is proved too. Nesting
  and loops are bounded for every script.
- **The futex lock** (`Futex`). A state machine over the atomic steps of any number of processes and
  the kernel, with spurious wake-ups: mutual exclusion, no lost wake-up, hand-over.
- **The DNS cache** (`CaseHash`, `CircularList`, `Sequences`, `DnsTable`, `DnsLaws`, `DnsCache`,
  `CacheRings`). A hash table, a last-used list threaded through the same entries, a memory counter and reference counts
  agree after every operation; the lookup equals a scan of a flat list; eviction is exact. Every
  operation is a run of three kinds of steps, and the pointers of both lists follow every such run.
- **SRV selection** (`SrvSelect`, `SrvLaws`). Every unexpired record exactly once, group by group, with exact
  weights, and exactly for which lists.
- **The plain traversal** (`RecordOrder`). Exactly when it returns every unexpired record once.
- **Making an entry** (`EntryLayout`, `EntryLaws`). A stable partition of the answer, a layout whose two passes
  agree, and a record list in the block that readers can walk.
- **Resolving** (`DnsAddress`, `DnsResolve`). References are balanced over the whole life of a handle, every call
  ends, and the port of an answer is that of the last SRV record taken, or the initial one if none
  was. If an SRV record gave the address, it is the record of that host; if the name itself gave it,
  the port may be that of another host, and it is proved exactly when.  The addresses of an entry that
  does not expire come in the order of its list, each once, before anything else is tried.
- **The destination blacklist** (`Blacklist`, `BlacklistLaws`, `BlacklistTable`, `BlacklistRuns`). Purging
  cannot be observed in any run, and a reported destination is found until its report expires.
- **Lumps** (`LumpHeap`, `LumpOwnership`, `LumpInsert`, `LumpAnchors`). Copies share texts and are
  freed without a double free, also when memory runs out half-way. What an edited copy leaves behind
  is exactly one lump for each edit that went along a side list and then inserted in the other
  direction; anchors stay sorted.
- **Codecs** (`Base64`, `Crc`, `ReverseHex`, `CodecLaws`). Table-driven forms equal their plain definitions, and
  round trips.

`Options` holds the option type.  `dafny verify dfyconfig.toml` checks everything.

## How the models are built

Code that changes state is a class or a method with loops, proved against a specification that
does not mention how it works: a flat list, a list that never purges, a structured semantics, the
bit-serial register, memory as a map from addresses to lumps.  Lemmas relate those specifications
to what the code promises.  The modules named `...Laws` state this in the fields of the data alone,
with definitions of their own that the code does not use.

What lies outside is arbitrary: expressions and module functions of scripts are functions of the
events so far; the clock, the random numbers, failing allocations and the answers of DNS servers
are parameters or free choices.  Ticks and memory counters are unbounded integers; characters,
hash words and check sequences are bit vectors of their C width.

## Where the code differs from its documentation

The model follows the code.

- The comments above `dns_cache_clean` and `dns_cache_free_mem` state the meaning of `expired_only`
  the wrong way round.
- The comments in `dns_srv_get_nxt_rr` speak of the first record of weight 0; the code keeps the last
  (`SrvSelect.SavedMeans`).
- `dns_entry_get_rr` says it returns the number of the record; it does not count expired records it
  passes, so without load balancing a record can be returned twice (`RecordOrder.ReturnedTwice`), and
  the one-byte number begins again after 255 (`RecordOrder.LongRepeats`).  Every unexpired record is
  returned once and then nothing exactly if all have expired, or if none that has expired stands
  before one that has not and there are fewer than 255 (`RecordOrder.EachOnceExactly`).
- The position in an SRV list is one byte as well: after the end of a list of 256 records or more the
  traversal goes on at a smaller number (`SrvSelect.BeginsAgain`).  Every traversal returns each
  unexpired record once and then nothing if and only if there are 255 records at most, or all from
  that number on have expired (`SrvSelect.CompleteExactly`).
- An expression may contain a script block that exits.  `if`, `switch` and expression statements look
  for that; `while` does not, and neither does a `switch` whose expression failed, so the first
  action of the body or of the default still starts, with EXIT set (`ScriptBounds.WildWhileStarts`,
  `ScriptBounds.WildSwitchStarts`).  No action of any script starts so if and only if no expression
  exits and lets a `switch`, or a `while` that may loop at all, go on
  (`ScriptBounds.CleanExactlyIfTame`).
- The mask of the expression statement clears RETURN only.
- `*dns_cache_mem_used` is allocated but not set to 0; the model starts at 0.
- A cached name with a NUL before its last character matches names in other buckets, and only then
  (`CaseHash.OneBucketExactly`).
- `insert_new_lump_after` on a lump of a before list, or the other way round, makes a lump that no
  walk meets: when the list is freed exactly this lump and its text are left
  (`LumpInsert.InsertThenFree`; `LumpInsert.EditCopy` for any number of edits).
- When the SRV records of a name give no address, `dns_srv_sip_resolve` looks the name itself up and
  returns the port stored last, which may be that of an SRV record of another host
  (`DnsResolve.PortOfAnother` is such an input, for every SRV port and all names of different lengths).  No record is
  taken by a first call with a port, a name too long for a prefix or a name that is an address; a
  port given is returned.  An answer of the name itself has the initial port if and only if no record
  was taken on the way, or the last one taken has that port.  If the servers are silent and all
  entries are permanent, this can be told before the call: records are taken in vain if and only if
  there is an SRV entry, none of its hosts has an address, and the name has one; without load
  balancing the port is then that of the last record of the list (`DnsResolve.SipResolve`).
- A report about a destination that an entry for any protocol stands for changes this entry, so it
  also concerns the other protocols of the address and port (`BlacklistLaws.ReportSpreads`).  Another
  address or port is never concerned, and another protocol is not if no such entry answers
  (`BlacklistLaws.ReportConcerns`, `BlacklistLaws.ReportOtherProtocol`).
- When `dns_cache_mk_rd_entry` finds no memory for the entry, the records it has taken out of the list
  are not given back: the records left and those freed are all of them if and only if the type is not
  supported, nothing matches, or there is memory (`EntryLayout.MkRdEntry`).

## Model

| member | source | states |
|---|---|---|
| ScriptMachine.Run | kamailio-3.1.4/action.c:1521-1586 | a run that is not left by a jump ends at the nesting level it began at, and a run at level 0 is never left by a jump |
| ScriptMachine.Context.constructor | kamailio-3.1.4/action.h:61-64 | a new context: level 0, no flags, no return code |
| ScriptMachine.Context.EvalInt | kamailio-3.1.4/rvalue.c:902-909 | an expression is an oracle of the events so far and the last return code; if it holds a script block its return code, EXIT and DROP replace those of the context |
| ScriptMachine.Context.RunActions | kamailio-3.1.4/action.c:1521-1586 | the mutable level, flags and return code, and whether control jumps, are those of the function Run of the context before the call; ScriptLaws says what this is |
| ScriptMachine.Context.RunLoop | kamailio-3.1.4/action.c:1548-1569 | the loop over an action list stops at BREAK, RETURN and EXIT, and EXIT jumps |
| ScriptMachine.Context.DoAction | kamailio-3.1.4/action.c:328-1399 | drop, route, if, module call and expression statement change the context as Act says |
| ScriptMachine.Context.DoSwitch | kamailio-3.1.4/action.c:1213-1243 | a switch runs the first matching case, or the default, and catches its breaks |
| ScriptMachine.Context.DoWhile | kamailio-3.1.4/action.c:1376-1399 | a while runs as Loop says: it stops at a break, return or exit of its body and after max_while_loops turns |
| ScriptMachine.Context.RunCatchingBreak | kamailio-3.1.4/action.c:1285-1291 | a block lets returns and exits through and catches breaks |
| ScriptSemantics.RunFollows | kamailio-3.1.4/action.c:1521-1586 | at every nesting level an action list has exactly its structured meaning: same events, same return code, same record of started actions, flags that encode the outcome |
| ScriptSemantics.SeqFollows | kamailio-3.1.4/action.c:1548-1569 | the same for the loop over a list: break, return and exit end the list, an exit is on its way to the top |
| ScriptSemantics.ActFollows | kamailio-3.1.4/action.c:670-715 | the same for every action; a route absorbs a return and a break of its list |
| ScriptSemantics.BranchFollows | kamailio-3.1.4/action.c:1069-1093 | an if absorbs neither a break nor a return of its branches |
| ScriptSemantics.SelectFollows | kamailio-3.1.4/action.c:1213-1243 | a break stops at the nearest switch, a return and an exit do not |
| ScriptSemantics.CatchingFollows | kamailio-3.1.4/action.c:1285-1291 | a break stops at the nearest block |
| ScriptSemantics.LoopFollows | kamailio-3.1.4/action.c:1376-1399 | a break stops at the nearest while, a return and an exit leave it |
| ScriptSemantics.TameRunIsStructured | kamailio-3.1.4/action.c:1521-1586 | a whole script, and any list at any level, computes its structured meaning; an exit reaches the top, the level is back at its start, and the onbreak handlers run exactly after return code 0 |
| ScriptSemantics.WildRunIsNot | kamailio-3.1.4/action.c:1376-1399 | if some expression exits the script and tells a while (or, by failing, a switch) to go on, some run differs from its structured meaning |
| ScriptSemantics.StructuredExactlyIfTame | kamailio-3.1.4/action.c:1521-1586 | all runs of all scripts at all levels are structured if and only if no expression does that |
| ScriptSemantics.RunTopRoute | kamailio-3.1.4/action.c:1616-1631 | in every environment the return code and the events of a top route are those of Run from an empty context, and in a tame one those of its structured meaning |
| ScriptLaws.BlockSetsReturnCode | kamailio-3.1.4/rvalue.c:902-909 | an expression statement followed by a return of the last return code returns the code of the script block in the expression, or the code before if there is no block |
| ScriptLaws.ConditionSetsReturnCode | kamailio-3.1.4/action.c:1069-1093 | so does the condition of an if |
| ScriptLaws.ExitInExpression | kamailio-3.1.4/action.c:1200-1212 | a block that exits inside an expression statement ends the whole script: nothing after it starts, and DROP is what the block left |
| ScriptLaws.ModuleReturns | kamailio-3.1.4/action.c:118-127 | a module function that returns 0 exits the script, any other value is the last return code |
| ScriptLaws.StopEndsList | kamailio-3.1.4/action.c:1548-1569 | nothing behind a break, return, exit or drop starts |
| ScriptLaws.ExitLeavesAll | kamailio-3.1.4/action.c:338-356 | exit and drop inside a block leave the whole script with their value; DROP is set by drop only |
| ScriptLaws.BreakLeavesBlock | kamailio-3.1.4/action.c:1285-1291 | after a break inside a block the script goes on behind the block |
| ScriptLaws.ReturnLeavesBlock | kamailio-3.1.4/action.c:1285-1291 | after a return inside a block it does not |
| ScriptLaws.ReturnLeavesRoute | kamailio-3.1.4/action.c:670-715 | a return ends its route only and is the last return code of the caller |
| ScriptLaws.NoSuchRoute | kamailio-3.1.4/action.c:703-709 | a route number out of range is an error and starts nothing |
| ScriptLaws.EmptyBlock | kamailio-3.1.4/action.c:1285-1291 | so is a block without actions |
| ScriptLaws.IfChooses | kamailio-3.1.4/action.c:1069-1093 | the first branch runs exactly if the condition has a positive value and did not fail |
| ScriptLaws.SwitchChooses | kamailio-3.1.4/action.c:1213-1243 | the body of the first case with the value of the expression runs, the default if there is none or the expression failed |
| ScriptLaws.WhileSkips | kamailio-3.1.4/action.c:1376-1399 | a while whose condition is 0 or fails evaluates it once, starts nothing and returns 1 |
| ScriptLaws.StopLeavesWhile | kamailio-3.1.4/action.c:1376-1399 | a break in the body goes on behind the while, a return leaves the list |
| ScriptLaws.EndlessWhile | kamailio-3.1.4/action.c:1376-1399 | a condition that is always true runs the body exactly max_while_loops times, evaluates the condition once more and returns -1 |
| ScriptLaws.WholeScript | kamailio-3.1.4/action.c:1521-1586 | a script that stops at once returns the value given, at level 0, and the onbreak handlers run exactly if it is 0 |
| ScriptLaws.WholeScriptReturnCode | kamailio-3.1.4/action.c:1521-1586 | a whole script starts with last return code 0, which the block of an expression replaces |
| ScriptLaws.TooDeep | kamailio-3.1.4/action.c:1526-1533 | beyond 100 levels nothing is run and nothing changes |
| ScriptBounds.RunStarts | kamailio-3.1.4/action.c:1528-1534 | for every environment every started action is nested at most ROUTE_MAX_REC_LEV deep; in a tame one none starts with BREAK, RETURN or EXIT set; CleanExactlyIfTame is the converse |
| ScriptBounds.ActStarts | kamailio-3.1.4/action.c:328-334 | everything an action starts is nested deeper than the action itself |
| ScriptBounds.LoopStarts | kamailio-3.1.4/action.c:1376-1399 | the same bounds for everything a while starts |
| ScriptBounds.WildWhileStarts | kamailio-3.1.4/action.c:1376-1399 | an expression that exits and is true lets a while, with max_while_loops above 0, start its body with EXIT set |
| ScriptBounds.WildSwitchStarts | kamailio-3.1.4/action.c:1213-1243 | an expression that exits and fails lets a switch start its default with EXIT set |
| ScriptBounds.CleanExactlyIfTame | kamailio-3.1.4/action.c:1548-1569 | no action of any list, run at level 0 or with none of BREAK, RETURN and EXIT set, starts with one of them set if and only if no expression exits and lets a switch, or a while with max_while_loops above 0, go on |
| ScriptBounds.SeqCounts | kamailio-3.1.4/action.c:1548-1569 | a list of n actions starts at most n actions of its own level |
| ScriptBounds.LoopCounts | kamailio-3.1.4/action.c:1376-1399 | a while starts at most max_while_loops times the actions of its body |
| Futex.ExclusiveStep | kamailio-3.1.4/futexlock.h:85-150 | every step of every process keeps the word in 0, 1, 2, non-zero exactly while one process holds the lock |
| Futex.NoLostWakeUpStep | kamailio-3.1.4/futexlock.h:92-140 | every step keeps: while somebody sleeps the word is 2, or a process owes a FUTEX_WAKE, or one is about to store 2 |
| Futex.RunInvariant | kamailio-3.1.4/futexlock.h:85-150 | both hold in every state of every interleaving of any number of processes |
| Futex.MutualExclusion | kamailio-3.1.4/futexlock.h:85-150 | no two processes are ever inside |
| Futex.TakenExactly | kamailio-3.1.4/futexlock.h:92-150 | in every run an exchange of a process that is after the lock takes it if and only if nobody owns it; futex_try then gives up at once and leaves the word as it is |
| Futex.GivenUp | kamailio-3.1.4/futexlock.h:131-140 | in every run the next step of the owner frees the lock, and if somebody sleeps, somebody owes a wake-up or is about to store 2 |
| Futex.SleeperNotStranded | kamailio-3.1.4/futexlock.h:92-140 | whenever a process sleeps another one is awake that must act on its behalf |
| Futex.HandOver | kamailio-3.1.4/futexlock.h:92-140 | if the lock is free while somebody sleeps, at most two steps give it to a caller of futex_get, with the word at 2 |
| CaseHash.SameBucket | kamailio-3.1.4/hashes.h:66-79 | names that differ in case only hash alike, with signed characters and 32-bit wrap-around |
| CaseHash.GetHash1CaseRaw | kamailio-3.1.4/hashes.h:205-215 | the two loops of the macro compute the hash that SameBucket is about |
| CaseHash.MatchIsCaseEqual | kamailio-3.1.4/dns_cache.c:580-581 | for a cached name without a NUL before its last character the comparison of the lookup is case-insensitive equality |
| CaseHash.MatchIsCaseEqualExactly | kamailio-3.1.4/dns_cache.c:580-581 | it is so if and only if the cached name has no NUL before its last character |
| CaseHash.FlippedElsewhere | kamailio-3.1.4/hashes.h:66-81 | flipping the lowest bit of the last character moves every name to another bucket |
| CaseHash.OneBucketExactly | kamailio-3.1.4/dns_cache.c:468-581 | all names that match a cached name are in its bucket if and only if the cached name has no NUL before its last character |
| CaseHash.NulBreaksBuckets | kamailio-3.1.4/dns_cache.c:580-581 | an example: two names match and are in different buckets |
| DnsTable.DnsNamingIsGood | kamailio-3.1.4/dns_cache.c:468-469 | the hash and the comparison of the cache fit together |
| CircularList.Link.constructor | kamailio-3.1.4/clist.h:42-46 | an empty ring |
| CircularList.InsertSublist | kamailio-3.1.4/clist.h:58-65 | a sublist goes to the front of the ring, in order |
| CircularList.AppendSublist | kamailio-3.1.4/clist.h:75-82 | a sublist goes to the end of the ring, in order |
| CircularList.RemoveSublist | kamailio-3.1.4/clist.h:92-96 | a sublist leaves, the rest keeps its order |
| CircularList.ForeachSafe | kamailio-3.1.4/clist.h:124-126 | a loop that removes and destroys nodes on the way visits every node once, in order, and leaves exactly the others |
| CircularList.MoveToEnd | kamailio-3.1.4/dns_cache.c:588-589 | remove and append move one node to the end of the ring |
| DnsTable.BucketScan | kamailio-3.1.4/dns_cache.c:563-598 | scanning the bucket of a name finds what scanning all entries in insertion order finds |
| DnsTable.BucketScanExactly | kamailio-3.1.4/dns_cache.c:563-598 | for one entry the bucket answers for the list, whatever is asked, if and only if its name has no NUL before its last character |
| DnsTable.FirstMatchMinus | kamailio-3.1.4/dns_cache.c:569-581 | expired entries can be removed without changing what is found |
| DnsTable.FindMinus | kamailio-3.1.4/dns_cache.c:544-632 | a lookup that follows CNAMEs answers the same with and without expired entries |
| DnsTable.AnswerIsLive | kamailio-3.1.4/dns_cache.c:570-579 | no answer has expired: it is permanent, or the servers are down, or its time is still to come |
| DnsLaws.FindsOldest | kamailio-3.1.4/dns_cache.c:563-598 | an entry that has not expired, matches the name and has the type asked for is the answer if no entry before it that has not expired matches with that type or is a CNAME |
| DnsLaws.FollowsOldest | kamailio-3.1.4/dns_cache.c:586-620 | if it is a CNAME instead, the answer is that for its target, and an error after more than ten of them |
| DnsLaws.FindsNone | kamailio-3.1.4/dns_cache.c:563-632 | if there is no such entry, the answer is the last CNAME followed, or nothing |
| DnsLaws.UsesOldest | kamailio-3.1.4/dns_cache.c:586-620 | the entries that move to the end of the last-used list are the answer and the CNAMEs followed, in order |
| DnsLaws.AnswersAreAlive | kamailio-3.1.4/dns_cache.c:570-579 | the answer, every CNAME followed and every entry moved is in the table and has not expired |
| DnsLaws.SweptIsDead | kamailio-3.1.4/dns_cache.c:570-579 | a lookup removes an entry only if the servers are up, it is not permanent and its time has come |
| DnsLaws.SweptExactly | kamailio-3.1.4/dns_cache.c:563-598 | a scan of the flat list sweeps exactly the expired entries that no unexpired match stands before |
| DnsLaws.NamesAnswer | kamailio-3.1.4/dns_cache.c:580-581 | a cached name without a NUL matches exactly the names of its length that differ in the case of letters A to Z only |
| DnsTable.ChainIsBounded | kamailio-3.1.4/dns_cache.c:612-628 | at most eleven CNAMEs are followed; the lookup gives up only after that many |
| DnsTable.AnswerIsLedTo | kamailio-3.1.4/dns_cache.c:599-628 | the CNAMEs followed lead from the name asked for to the entry found; each is the first unexpired match of the table for the name before it |
| DnsTable.AnswerIsMatch | kamailio-3.1.4/dns_cache.c:599-628 | the entry found is the first unexpired match of the table for the name they end at |
| DnsTable.FindAnyTime | kamailio-3.1.4/dns_cache.c:544-632 | in a table of permanent entries a lookup answers the same at all times, whether or not the servers are up |
| DnsCache.RemoveKeepsCoherent | kamailio-3.1.4/dns_cache.c:512-532 | removing an entry keeps every other one linked once in the bucket of its name and once on the last-used list, and the counter the sum of the sizes |
| DnsCache.AddKeepsCoherent | kamailio-3.1.4/dns_cache.c:825-838 | so does adding one |
| DnsCache.TouchKeepsCoherent | kamailio-3.1.4/dns_cache.c:582-594 | so does moving one to the end of the last-used list |
| DnsCache.StepKept | kamailio-3.1.4/dns_cache.c:512-838 | what the cache is at any time is a coherent table, and what the steps recorded so far make of an empty one; each of the three steps keeps this |
| DnsCache.Cache.constructor | kamailio-3.1.4/dns_cache.c:355-393 | the empty table is coherent, and the beginning of every run of steps |
| DnsCache.Cache.HashPut | kamailio-3.1.4/dns_cache.c:198-204 | a reference less; the entry dies exactly with its last reference |
| DnsCache.Cache.HashRemove | kamailio-3.1.4/dns_cache.c:512-532 | the entry leaves bucket, last-used list and counter, and dies unless somebody outside holds it |
| DnsCache.Cache.ScanBucket | kamailio-3.1.4/dns_cache.c:563-598 | one pass finds the first match of the flat list and removes the expired entries before it, no others; what is removed is not permanent, its time has come, and the servers are up |
| DnsCache.Cache.Find | kamailio-3.1.4/dns_cache.c:544-632 | the answer of the flat list, with CNAMEs followed; an answer that is not permanent has not reached its time while the servers are up, and what is gone has; exactly the expired entries it passes are gone, and what it used is at the end of the last-used list in order of use |
| DnsCache.Cache.HashGet | kamailio-3.1.4/dns_cache.c:786-798 | the same, and one more reference to the answer |
| DnsCache.Cache.Adopt | kamailio-3.1.4/dns_cache.c:2046-2050 | a new entry with one reference outside the table |
| DnsCache.Cache.CleanOne | kamailio-3.1.4/dns_cache.c:661-672 | one turn of a purging loop removes the entry exactly if it is removable |
| DnsCache.Cache.Clean | kamailio-3.1.4/dns_cache.c:641-672 | what is gone is exactly the entries among the first no (at least one) of the last-used list that are not permanent and, if only expired ones are to go, whose time has come |
| DnsCache.Cache.FreeMem | kamailio-3.1.4/dns_cache.c:713-741 | the same for a least-recently-used prefix, the shortest that reaches the target, or the whole list |
| DnsCache.NothingRemovableLeft | kamailio-3.1.4/dns_cache.c:713-741 | after a walk over the whole list no removable entry is left |
| DnsCache.PermanentSurvives | kamailio-3.1.4/dns_cache.c:735-740 | no eviction removes a permanent entry |
| DnsCache.Cache.MakeRoom | kamailio-3.1.4/dns_cache.c:809-823 | an eviction happens exactly if there is no room, aims at 14 sixteenths, and is followed by a second check |
| DnsCache.Cache.Link | kamailio-3.1.4/dns_cache.c:824-838 | the entry is linked at both ends, counted, and referenced by the table |
| DnsCache.Cache.Add | kamailio-3.1.4/dns_cache.c:805-839 | an entry is let in exactly if there is room after that, and then the memory in use is below the limit; otherwise only the eviction happened |
| DnsCache.Cache.Flush | kamailio-3.1.4/dns_cache.c:4013-4028 | exactly the permanent entries stay, if they are to be spared, in their order |
| CacheRings.TakeOut | kamailio-3.1.4/clist.h:113-114 | taking an entry out of a ring of links takes it out of the sequence |
| CacheRings.PutLast | kamailio-3.1.4/clist.h:107-108 | appending an entry to a ring appends it to the sequence |
| CacheRings.Rings.Remove | kamailio-3.1.4/dns_cache.c:512-530 | an entry leaves its bucket and the last-used list by its own links; all other rings stay as they are |
| CacheRings.Rings.Insert | kamailio-3.1.4/dns_cache.c:833-836 | an entry is appended to the ring of its bucket and to that of the last-used list |
| CacheRings.Rings.Use | kamailio-3.1.4/dns_cache.c:583-592 | an entry moves to the end of the last-used ring |
| CacheRings.Know | kamailio-3.1.4/dns_cache.h:149-155 | a new entry has two links of its own |
| CacheRings.Follow | kamailio-3.1.4/dns_cache.c:512-878 | after any run of removals, additions and uses the pointers of both lists of every entry are those of the sequences |
| CacheRings.FollowCache | kamailio-3.1.4/dns_cache.c:512-878 | the steps that the operations of a cache have taken, whatever they were, are such a run: done on the pointers of empty rings they leave exactly the pointers of its lists |
| SrvSelect.ScanGroup | kamailio-3.1.4/dns_cache.c:2305-2337 | the first loop finds the group, its running sums and the choice for a draw of 0 |
| SrvSelect.Reach | kamailio-3.1.4/dns_cache.c:2352-2355 | the second loop finds the record hit by the draw |
| SrvSelect.GetNextRr | kamailio-3.1.4/dns_cache.c:2278-2371 | for every list: the record that one draw selects in the first group with an open record, marked as tried; nothing exactly if no group has one; the position is stored in one byte. SrvLaws says which record this is |
| SrvSelect.HitExactly | kamailio-3.1.4/dns_cache.c:2313-2355 | a record is hit by exactly the draws of its own weight interval |
| SrvSelect.WeightsAreExact | kamailio-3.1.4/dns_cache.c:2313-2355 | of the draws 1 to the total weight exactly its weight many select a record, none if it is tried or expired |
| SrvLaws.DrawsAreWeights | kamailio-3.1.4/dns_cache.c:2313-2355 | of the draws 1 to the total weight, with which a call returns a record in the first group that has two candidates or more, exactly as many as its weight return it, and none return a record that is tried, expired or outside the group |
| SrvLaws.ZeroDraw | kamailio-3.1.4/dns_cache.c:2330-2355 | with draw 0 a call returns a record if and only if it is the last candidate of weight 0, or the first candidate if none has weight 0 |
| SrvLaws.ReturnsExactly | kamailio-3.1.4/dns_cache.c:2278-2371 | a call returns a record if and only if it is drawn in the group at which the call settles |
| SrvLaws.CallReturns | kamailio-3.1.4/dns_cache.c:2278-2371 | every record returned is unexpired, was not tried, is in the first group with a candidate, and is marked as tried |
| SrvLaws.CallReturnsNothing | kamailio-3.1.4/dns_cache.c:2278-2371 | if nothing is returned, every unexpired record from the position on has been tried |
| SrvLaws.SortedMeans | kamailio-3.1.4/dns_cache.c:4417-4455 | sorted means by priority and, within one, by falling weight |
| SrvSelect.SavedMeans | kamailio-3.1.4/dns_cache.c:2327-2332 | a draw of 0 selects the last open record of weight 0, or the first open record if there is none |
| SrvSelect.GroupPriority | kamailio-3.1.4/dns_cache.c:2313-2316 | a group has one priority and ends at the next priority or after 16 records |
| SrvSelect.NextSpends | kamailio-3.1.4/dns_cache.c:2278-2371 | in a list of 255 records at most every call returns an unexpired record not returned before and crosses it off, and returns nothing exactly if none is left |
| SrvSelect.NeverTwice | kamailio-3.1.4/dns_cache.c:2278-2371 | no record of such a list is returned twice, whatever the times and the draws of the calls |
| SrvSelect.ExactlyOnce | kamailio-3.1.4/dns_cache.c:2278-2371 | at a fixed time every unexpired record is returned, and after the last of them nothing, for ever; also in a longer list whose unexpired records all stand before number length mod 256 |
| SrvSelect.BeginsAgain | kamailio-3.1.4/dns_cache.c:2368-2370 | in any other longer list the call after one that found nothing finds a record |
| SrvSelect.CompleteExactly | kamailio-3.1.4/dns_cache.c:2278-2371 | every traversal from the start returns no record twice, nothing after the end and every unexpired record before it if and only if the list is of one of these two kinds |
| SrvSelect.StartOffersAll | kamailio-3.1.4/dns_cache.c:2265-2274 | a traversal from the start offers all unexpired records |
| SrvSelect.GroupByGroup | kamailio-3.1.4/dns_cache.c:2313-2347 | in a sorted list of 255 records at most the records come in the order of their priorities |
| SrvSelect.SortedGroupByGroup | kamailio-3.1.4/dns_cache.c:2313-2347 | so in a list that Reorder has kept sorted |
| SrvSelect.Reorder | kamailio-3.1.4/dns_cache.c:4417-4455 | a new or changed record goes where it belongs; the others are what they were, in the same order, and a sorted list stays sorted |
| RecordOrder.EntryGetRr | kamailio-3.1.4/dns_cache.c:2200-2230 | the first unexpired record from a number on; the number itself only counts what was skipped at the start |
| SrvLaws.PlainReturns | kamailio-3.1.4/dns_cache.c:2200-2230 | the record returned is the first unexpired one from the number on |
| RecordOrder.Traverse | kamailio-3.1.4/dns_cache.c:2188-2198 | repeated calls with the number advanced by 1 return what Returned says |
| RecordOrder.ReturnedExactly | kamailio-3.1.4/dns_cache.c:2200-2230 | in a list shorter than 255 a record is returned by the call of its own number and by one more for each expired record directly before it |
| RecordOrder.ReturnedTwice | kamailio-3.1.4/dns_cache.c:2213-2226 | an input that gives a record twice: an expired record in front of an unexpired one |
| RecordOrder.LongRepeats | kamailio-3.1.4/dns_cache.c:3173-3174 | with 255 records or more the calls repeat themselves after 256 |
| RecordOrder.EachOnceExactly | kamailio-3.1.4/dns_cache.c:2188-2230 | each unexpired record is returned by exactly one call, and then nothing for ever, if and only if all have expired, or no expired record stands before an unexpired one and there are fewer than 255 |
| RecordOrder.SortedInOrder | kamailio-3.1.4/dns_cache.c:3136-3138 | in a sorted list the records come by priority and, within it, by weight |
| EntryLayout.FindType | kamailio-3.1.4/dns_cache.c:1069-1078 | the first record with the name decides between the type asked for and CNAME |
| EntryLaws.TypeDecided | kamailio-3.1.4/dns_cache.c:1069-1078 | the type is that of the first record of the name that has the type asked for or is a CNAME |
| EntryLaws.TypeUndecided | kamailio-3.1.4/dns_cache.c:1069-1078 | without such a record the type is the one asked for and nothing is taken out |
| EntryLaws.RecordsInOrder | kamailio-3.1.4/dns_cache.c:1081-1098 | a record behind the others is taken out exactly if it has the name and the type, behind the ones taken out before |
| EntryLaws.TypesSupported | kamailio-3.1.4/dns_cache.c:1079-1240 | the types an entry can be made for |
| EntryLaws.EntryExpires | kamailio-3.1.4/dns_cache.c:1266-1430 | a record lives for its time to live, forced into the configured bounds, in sixteenths of a second; the entry lives as long as the longest of its records |
| EntryLaws.DataAligned | kamailio-3.1.4/dns_cache.c:1047-1066 | the data of every record is aligned to what its type holds |
| EntryLaws.PointersMove | kamailio-3.1.4/dns_cache.c:1317-1335 | a pointer into the data is moved by as much as the data, and a null pointer stays |
| EntryLaws.DataCopied | kamailio-3.1.4/dns_cache.c:1270-1281 | every byte of the data is in the block at its place |
| EntryLayout.TakeOut | kamailio-3.1.4/dns_cache.c:1066-1246 | the matching records are taken out in order, the rest stays in order, and the size is the sum of the blocks; an unsupported type changes nothing |
| EntryLayout.ChosenPartition | kamailio-3.1.4/dns_cache.c:1081-1098 | no record is lost, doubled or made up |
| EntryLayout.PlaceOne | kamailio-3.1.4/dns_cache.c:1270-1281 | a record goes right behind the ones before it, disturbs none of their data, and is put at the end of the list in the block |
| EntryLayout.LayOut | kamailio-3.1.4/dns_cache.c:1247-1430 | all data is found where its record says, in a block of exactly the size computed before, and the list from rr_lst has exactly the records in order; the entry expires with its last record |
| EntryLayout.BlocksFit | kamailio-3.1.4/dns_cache.c:1047-1066 | blocks are pointer-aligned, data aligned as its type needs, each inside its own block, and each block ends where the next begins |
| EntryLayout.DataBelow | kamailio-3.1.4/dns_cache.c:1047-1066 | data of different records does not overlap |
| EntryLayout.PointersFollow | kamailio-3.1.4/dns_cache.c:1317-1335 | a pointer into the data of a NAPTR, TXT or EBL record points to the same byte of the copy |
| EntryLayout.ListIsClosed | kamailio-3.1.4/dns_cache.c:1426 | ending the list at the last record makes following next meet exactly the records |
| EntryLayout.ReadList | kamailio-3.1.4/dns_cache.c:2213-2214 | a walk along next from rr_lst meets the data and the expiry time of every record, in order |
| EntryLayout.MkRdEntry | kamailio-3.1.4/dns_cache.c:1023-1430 | an entry exactly if the type is supported, something matches and there is memory; the matching records are out of the list even without memory, and freed exactly if there is an entry, so that no record is lost if and only if there is none to take, or memory |
| EntryLayout.FreeRdataList | kamailio-3.1.4/resolve.c:659-671 | every record of the list is freed, in order |
| DnsAddress.GetEntry | kamailio-3.1.4/dns_cache.c:2122-2175 | nothing and no reference, or an entry of the type asked for, with records and not marked as a bad name, to which the name leads over CNAMEs of the table, each its first unexpired match, and one reference to it; if the servers are silent and all entries permanent, exactly the entry of the table |
| DnsAddress.NextIp | kamailio-3.1.4/dns_cache.c:2200-2230 | the address of the first record from the number on that has not expired at a time in the life of the entry, or an error if all from there on have; the number becomes the length of the list if that is less, and is kept otherwise; in a permanent entry the record of that number |
| DnsAddress.AddrResolve | kamailio-3.1.4/dns_cache.c:2944-3031 | A or AAAA: the reference to the entry is the caller's before and after; a success is the address the name spells, or the address of the first record from the number asked for on that has not expired at a time in the life of the entry; a failure with an entry means that all records from that number on have; the number stored is the one asked for, or the length of the list if that is less; with silent servers and permanent entries a first call succeeds exactly if the name is an address or has an entry |
| DnsAddress.FallBack | kamailio-3.1.4/dns_cache.c:3081-3089 | the other address family: the old reference is given back exactly when the new one is taken |
| DnsAddress.IpResolve | kamailio-3.1.4/dns_cache.c:3045-3124 | first and later calls keep exactly one reference, or none; the address is that of the first unexpired record from the number of the handle on, or of a newly found entry from its first record on, to which the host still leads; an entry of the other family is never left when the flags allow one family only |
| DnsResolve.NextSrv | kamailio-3.1.4/dns_cache.c:3165-3174 | an unexpired record, new to the load balancer, that brings the end of the list closer, and nothing only if no unexpired record is left; without load balancing exactly the step that RecordOrder.EachOnceExactly is about |
| DnsResolve.SrvResolveNext | kamailio-3.1.4/dns_cache.c:3140-3186 | the same with the lookup: the step taken along the list, at a time in the life of the entry, to a record unexpired at that time, whose host and port are returned, or to the end if there is none; the reference is kept |
| DnsResolve.NextHost | kamailio-3.1.4/dns_cache.c:3206-3221 | the port stored and the host to look up are those of the record of one such step, from where the handle was |
| DnsResolve.NextAddr | kamailio-3.1.4/dns_cache.c:3222-3230 | the address of the first unexpired record from the number of the handle on, or of a new entry of the host, or the address entry is given back |
| DnsResolve.SrvResolveIp | kamailio-3.1.4/dns_cache.c:3196-3239 | the loop ends, and the handle answers for exactly its references, also after failed addresses; the records it takes are steps one after another from where the handle was; a success is the first unexpired address of the entry the handle was at from its number on, or the first of an entry to which the host of the last record taken leads, with its port; a failure comes only without an SRV entry or when no unexpired record is left; a new SRV entry is one to which the name leads; the port stored is that of the last record taken, or what it was |
| DnsResolve.SipResolve | kamailio-3.1.4/dns_cache.c:3253-3395 | so does every first or later resolve of a name; records are taken by a first call only without a port, for a short name that is no address, and those of an entry to which the prefix of the protocol and the name lead; an answer that comes from no SRV record is an address of the name itself, or of what the handle was at; if the handle is at an entry that does not expire, the answer is the address of its number; when no record is taken, that a port given is returned, and exactly when an answer of the name itself has the initial port, in terms of the records taken and, with silent servers and permanent entries, of the table alone |
| DnsResolve.TakesAll | kamailio-3.1.4/dns_cache.c:3140-3186 | of an entry whose records do not expire all have been taken when the end is reached, with and without load balancing |
| DnsResolve.PlainTakesAll | kamailio-3.1.4/dns_cache.c:3171-3174 | without load balancing in the order of the list |
| DnsResolve.PortOfAnother | kamailio-3.1.4/dns_cache.c:3375-3385 | a cache in which an address of the name comes with the port of an SRV record of another host |
| DnsResolve.HandlePut | kamailio-3.1.4/dns_cache.h:209-221 | no reference of the handle is left |
| DnsResolve.HandleCopy | kamailio-3.1.4/dns_cache.h:240-245 | a copy has references of its own |
| DnsResolve.HandleNext | kamailio-3.1.4/dns_cache.h:272-277 | the next call goes on exactly if there was no error and the handle holds an entry; the address number moves on by 1, modulo 256 |
| DnsResolve.TryNext | kamailio-3.1.4/dns_cache.h:272-290 | if the handle is at an entry that does not expire, the next call gives the address behind the last one |
| DnsResolve.TryMore | kamailio-3.1.4/dns_cache.h:272-290 | so the next calls give all further addresses of such an entry, one after another, each once, before anything else |
| DnsResolve.TryAll | kamailio-3.1.4/dns_cache.h:209-290 | init, any number of resolves and a put leave the references outside the cache, and so every counter, balanced; with silent servers and permanent entries, if the name itself is looked up, the addresses returned begin with those of its entry in the order of the list, each once, as many as are asked for |
| Blacklist.LookUpLive | kamailio-3.1.4/dst_blacklist.c:555-593 | an answer does not depend on expired entries |
| Blacklist.RenewLive | kamailio-3.1.4/dst_blacklist.c:753-756 | nor does what a repeated report changes |
| Blacklist.DeleteLive | kamailio-3.1.4/dst_blacklist.c:631-641 | nor what a deletion removes |
| Blacklist.AnswerIsInBucket | kamailio-3.1.4/dst_blacklist.c:356-368 | the protocol takes no part in the hash, so every match is in the bucket that is searched |
| Blacklist.RenewAgrees | kamailio-3.1.4/dst_blacklist.c:753-756 | a repeated report keeps table and plain list in agreement |
| Blacklist.DeleteAgrees | kamailio-3.1.4/dst_blacklist.c:631-641 | so does a deletion |
| Blacklist.PrependAgrees | kamailio-3.1.4/dst_blacklist.c:541-547 | so does a new entry |
| BlacklistLaws.LookUpDecides | kamailio-3.1.4/dst_blacklist.c:555-593 | the answer is the flags of the first entry that has not expired and has the port, the address, the address family and the protocol, where 0 stands for any |
| BlacklistLaws.LookUpNone | kamailio-3.1.4/dst_blacklist.c:555-593 | there is no answer if and only if there is no such entry |
| BlacklistLaws.ReportMeans | kamailio-3.1.4/dst_blacklist.c:745-790 | a report changes that entry, adding the flags and replacing the time, or puts a new entry with the protocol, port and address reported in front |
| BlacklistLaws.ReportedIsFound | kamailio-3.1.4/dst_blacklist.c:729-793 | a reported destination is found until the report expires, with at least the flags reported, and exactly these if it was not listed |
| BlacklistLaws.ReportConcerns | kamailio-3.1.4/dst_blacklist.c:745-790 | a report concerns exactly the destinations with the address, port and family reported and a protocol of the entry changed or made; these are found until it expires, and all others keep their answers |
| BlacklistLaws.ReportElsewhere | kamailio-3.1.4/dst_blacklist.c:745-790 | another address, port or family keeps its answers |
| BlacklistLaws.ReportOtherProtocol | kamailio-3.1.4/dst_blacklist.c:745-790 | so does another protocol, unless the entry changed stands for any protocol |
| BlacklistLaws.ReportSpreads | kamailio-3.1.4/dst_blacklist.c:585-588 | then it does not: a report for one protocol gives its flags to another |
| BlacklistLaws.DeleteDecides | kamailio-3.1.4/dst_blacklist.c:631-641 | a deletion removes the entry that answers, and nothing else |
| BlacklistLaws.DeletionConcerns | kamailio-3.1.4/dst_blacklist.c:631-641 | destinations that this entry does not stand for keep their answers, and the destination itself has the answer of the entries behind |
| BlacklistLaws.FlushAnswers | kamailio-3.1.4/dst_blacklist.c:1122-1145 | after a flush only permanent entries answer, and an answer that was permanent stays |
| BlacklistTable.Table.constructor | kamailio-3.1.4/dst_blacklist.c:454-462 | a table of 1024 empty buckets agrees with an empty list |
| BlacklistTable.Table.Unlink | kamailio-3.1.4/dst_blacklist.c:580-584 | an entry leaves its bucket, the counter of the bucket and the memory in use |
| BlacklistTable.Table.Scan | kamailio-3.1.4/dst_blacklist.c:575-592 | a scan drops expired entries up to the first match, and nobody can tell |
| BlacklistTable.Table.LstFind | kamailio-3.1.4/dst_blacklist.c:555-593 | the entry found is the first match of the list that never purges |
| BlacklistTable.Table.Del | kamailio-3.1.4/dst_blacklist.c:601-644 | deletes exactly what the list that never purges would delete; destinations with another address, port or address family keep their answers |
| BlacklistTable.Table.CleanBucket | kamailio-3.1.4/dst_blacklist.c:678-696 | one bucket of the cleaner: counts what it drops, stops at the memory target or with nothing expired left |
| BlacklistTable.Table.CleanExpired | kamailio-3.1.4/dst_blacklist.c:660-712 | the list that never purges is unchanged; an early stop is due to the target or the time, otherwise every bucket has been visited and nothing is left that had expired at the start; the count is that of the entries dropped |
| BlacklistTable.DropsUnseenExactly | kamailio-3.1.4/dst_blacklist.c:683 | dropping what expires within delta ticks cannot be seen if and only if it has expired already |
| BlacklistTable.Table.AddIp | kamailio-3.1.4/dst_blacklist.c:729-793 | 0, -1 or -2, and 0 exactly if the list that never purges takes the report too; then the destination is found until the report expires, with its flags; destinations with another address, port or address family keep their answers; a new entry leaves less than the limit in use; -1 only if the table is full after cleaning, -2 only if there is no memory |
| BlacklistTable.Table.IsBlacklisted | kamailio-3.1.4/dst_blacklist.c:798-819 | the flags that the list that never purges gives |
| BlacklistTable.Table.Flush | kamailio-3.1.4/dst_blacklist.c:1122-1145 | exactly the permanent entries stay |
| BlacklistRuns.Run | kamailio-3.1.4/dst_blacklist.c:555-819 | in any run of reports, searches, deletions, cleanings and flushes at times that do not decrease every answer is that of the list that never purges |
| BlacklistRuns.ReportedIsFound | kamailio-3.1.4/dst_blacklist.c:555-819 | in any run a destination whose report was taken is found by every search until the report expires, with the flags reported, if no operation in between deletes or flushes or reports it |
| BlacklistRuns.CleaningUnseen | kamailio-3.1.4/dst_blacklist.c:660-712 | the other answers of a run are right, and its list is the same, with the cleanings left out |
| LumpHeap.Pool.FreeLump | kamailio-3.1.4/data_lump.c:470-485 | the text of an ADD lump is freed; a lump that does not own its text must not get here |
| LumpHeap.Pool.FreeChain | kamailio-3.1.4/data_lump.c:502-513 | a side list is freed, each lump and each text once |
| LumpOwnership.FreeList | kamailio-3.1.4/data_lump.c:489-519 | exactly the lumps of the list and the texts they own are freed, each once; the texts owned are those of the lumps that are not marked as copies |
| LumpOwnership.FreeShallow | kamailio-3.1.4/data_lump.c:522-537 | a copied lump and its side lists are freed, no text is |
| LumpOwnership.DupChain | kamailio-3.1.4/data_lump.c:568-595 | a side list is copied lump by lump; if memory runs out nothing is left of it |
| LumpOwnership.DupSide | kamailio-3.1.4/data_lump.c:558-564 | a failing side list takes the copy of its lump with it |
| LumpOwnership.DupList | kamailio-3.1.4/data_lump.c:540-606 | a copy of the same shape that shares all texts and is all that is new; or, if any allocation fails, memory as before |
| LumpInsert.TopInserted | kamailio-3.1.4/data_lump.c:61-133 | linking a lump behind another one inserts it there and changes nothing else |
| LumpInsert.SideInserted | kamailio-3.1.4/data_lump.c:139-184 | the same for side lists |
| LumpInsert.InsertTop | kamailio-3.1.4/data_lump.c:61-133 | an insertion into a copy: the list is still all that is new, and the text inserted is now the list's; without memory nothing changes |
| LumpInsert.InsertAt | kamailio-3.1.4/data_lump.c:139-285 | at any lump of the list and its side lists, in either direction: the new lump joins the list, behind that lump, exactly if it is a lump of the list or of a side list of this direction; otherwise it belongs to the memory around the list |
| LumpInsert.Dup | kamailio-3.1.4/data_lump.c:600-606 | a new copy owns no text |
| LumpInsert.FreeBalanced | kamailio-3.1.4/data_lump.c:489-641 | freeing a list brings memory back to what is around it, whatever has been inserted since |
| LumpInsert.WalkTo | kamailio-3.1.4/data_lump.c:67 | the walk to a place in the list ends at the lump before it |
| LumpInsert.Insert | kamailio-3.1.4/data_lump.c:61-285 | an edit of a copy: a new lump of any kind, with a new text if it is an ADD lump, at any place of the list or of a side list and in either direction, or neither; where the lump then is, and that it is lost exactly if there was memory and the edit went along a side list that is not empty and inserts in the other direction |
| LumpInsert.EditCopy | kamailio-3.1.4/data_lump.c:540-641 | a copy is made, edited any number of times and freed: each edit works on what the one before has left, the first on a list of the shape of the original, and memory is what it was plus exactly the lumps of the edits that crossed and had memory, all different; so it is what it was if and only if there was no such edit |
| LumpInsert.WholeLife | kamailio-3.1.4/data_lump.c:489-641 | and the original freed after that: every lump and every text it owns is gone, each once, and nothing else, if and only if no edit has lost a lump; what was lost stays |
| LumpInsert.NothingBeyond | kamailio-3.1.4/data_lump.c:489-519 | if side lumps carry no link but that of their list, everything reachable from a list is in it |
| LumpInsert.CrossInserted | kamailio-3.1.4/data_lump.c:139-184 | a lump linked to one that does not hold in this direction is on no list: the list is walked as before |
| LumpInsert.InsertThenFree | kamailio-3.1.4/data_lump.c:139-641 | after an insertion, freeing brings memory back if and only if the lump it was made at is one of the list or of a side list of the same direction; if not, exactly the new lump and its text are left |
| LumpInsert.Target | kamailio-3.1.4/data_lump.c:139-285 | the walk to the lump at which an edit inserts: it holds in the direction of the edit exactly if the edit does not cross, and then the place of the new lump |
| LumpAnchors.InsertKeepsSorted | kamailio-3.1.4/data_lump.c:332-340 | lumps with an offset stay sorted, wherever text stands between them |
| LumpAnchors.EqualIsFound | kamailio-3.1.4/data_lump.c:437-446 | in a sorted list the search meets an equal offset if there is one |
| LumpAnchors.Message.ParsedEoh | kamailio-3.1.4/data_lump.c:327-331 | when the end of the headers becomes known the lists are on the right sides exactly if no lump was beyond it |
| LumpAnchors.Message.AddFixed | kamailio-3.1.4/data_lump.c:294-398 | a deletion or anchor goes behind all lumps at its offset or below, in the list for its side; both lists stay sorted |
| LumpAnchors.Message.Anchor2 | kamailio-3.1.4/data_lump.c:409-467 | an existing lump at the offset exactly if there is one, a new anchor otherwise |
| LumpAnchors.Message.AddText | kamailio-3.1.4/data_lump.c:61-133 | text goes anywhere without disturbing the order |
| Base64.BothAlphabetsRoundTrip | kamailio-3.1.4/basex.h:498-552 | decoding undoes encoding for both alphabets |
| CodecLaws.UpperCase | kamailio-3.1.4/basex.h:498-516 | values 0 to 25 are A to Z, as in Table 1 of RFC 4648 |
| CodecLaws.LowerCase | kamailio-3.1.4/basex.h:498-516 | values 26 to 51 are a to z |
| CodecLaws.DigitsAndSigns | kamailio-3.1.4/basex.h:498-516 | values 52 to 63 are 0 to 9, + and / |
| CodecLaws.QuickAlphabet | kamailio-3.1.4/basex.h:730-765 | the other alphabet is the 64 characters from 0 on |
| CodecLaws.DigitsToBase64 | kamailio-3.1.4/basex.h:242-245 | the four digits of a group, six bits each, are its 24 bits |
| CodecLaws.VectorsOfTheRfc | kamailio-3.1.4/basex.h:563-612 | the test vectors in section 10 of RFC 4648 |
| Base64.InitEncodeTable | kamailio-3.1.4/basex.c:222-230 | the 8K table holds the characters of both halves of its index, in the byte order of the machine |
| Base64.InitDecodeTable | kamailio-3.1.4/basex.c:231-233 | the decoding table is the decoding function |
| Base64.Base64Pair12 | kamailio-3.1.4/basex.h:206 | one table access gives the first two characters |
| Base64.Base64Pair34 | kamailio-3.1.4/basex.h:207 | one table access gives the last two characters |
| Base64.Base64Enc | kamailio-3.1.4/basex.h:563-612 | for both byte orders and both parities of the destination the 8K form writes the plain encoding, or reports the size it needs |
| Base64.Base64Dec | kamailio-3.1.4/basex.h:661-717 | every character is looked up in the table: 0 for a text of the wrong shape, minus the size needed, or the decoded bytes |
| Base64.UnBase64 | kamailio-3.1.4/basex.h:219-220 | one access to the table, or one subtraction, gives the value of a character |
| Base64.GetThree | kamailio-3.1.4/basex.h:685-691 | four values in 32-bit registers give the three bytes of a group |
| Base64.EncodeDecode | kamailio-3.1.4/basex.h:563-717 | in buffers of the declared sizes, with both tables of init_basex, base64_dec after base64_enc is the identity on every byte string |
| Base64.QBase64Enc | kamailio-3.1.4/basex.h:730-765 | the same encoding with the other alphabet |
| Base64.QBase64Dec | kamailio-3.1.4/basex.h:777-860 | the same decoding with the other alphabet |
| Base64.QEncodeDecode | kamailio-3.1.4/basex.h:730-860 | the same round trip with the other alphabet |
| Crc.CcittTab | kamailio-3.1.4/crc.c:141-174 | every entry of the table is its index shifted eight times through the register |
| Crc.TableStep | kamailio-3.1.4/crc.c:42 | eight shifts look at the low byte only |
| Crc.Updcit | kamailio-3.1.4/crc.c:42 | one table step is eight steps of the bit-serial register |
| Crc.CrcittStringEx | kamailio-3.1.4/crc.c:211-218 | the table-driven check sequence is that of the register with polynomial 0x8408 |
| Crc.Chaining | kamailio-3.1.4/crc.c:211-223 | chaining over pieces gives the check sequence of the whole |
| CodecLaws.CheckValue | kamailio-3.1.4/crc.c:211-218 | the check sequence of 123456789 is 0x906E, the check value catalogued for this CRC |
| Crc.DetectsOneByte | kamailio-3.1.4/crc.c:211-218 | a changed byte changes the check sequence |
| Crc.DetectsTwoByteBurst | kamailio-3.1.4/crc.c:211-218 | so does any change within two adjacent bytes |
| Crc.GoodFinalValue | kamailio-3.1.4/crc.c:211-218 | a message followed by its check sequence leaves 0xF0B8 (Appendix C.2 of RFC 1662) |
| Crc.FeedFragments | kamailio-3.1.4/crc.c:225-243 | feeding fragments feeds their concatenation |
| ReverseHex.Int2ReverseHex | kamailio-3.1.4/ut.h:468-487 | 1 exactly if the number fits; the digits filled up with zeroes are those of the number, read back they give it, and there is none too many |
| Crc.CrcittStringArray | kamailio-3.1.4/crc.c:225-254 | four digits of the check sequence of all fragments together, which read back give it |
| ReverseHex.ReverseHex2Int | kamailio-3.1.4/ut.h:451-466 | 1 exactly if all characters are digits, and then the number they stand for, modulo 2 to the 32 |
| ReverseHex.WriteRead | kamailio-3.1.4/ut.h:451-487 | every unsigned int is read back from a text it fits into, and it is written exactly if it fits |
| ReverseHex.ValueOfDigits | kamailio-3.1.4/ut.h:451-487 | reading n written digits gives the number modulo 16 to the n |

## Left out

- NAPTR resolving: the handle is initialised again without a put there, so references are not balanced.
- `dns_cache_rec_pref` above 0, and replacing entries in `dns_cache_add_record`: only the reordering of SRV records is modelled.
- `dns_cache_do_request` and the recursion counter of `dns_get_entry`: a request answers nothing or one new entry, which may go into the cache.
- The hostent wrappers, statistics, RPC commands, timers and configuration of the cache and the blacklist: mostly input and output.
- Variants of the cache without the last-used list (`DNS_LU_LST` undefined) and of resolving without IPv6.
- Concurrency inside the cache and the blacklist: every operation runs with its lock held; the eviction of `dns_cache_add`, which drops the lock in between, is one step.
- Wrap-around of ticks, of memory counters and of reference counts: expiry is a comparison of unbounded numbers.
- The script blocks inside expressions run by `run_actions_safe`, which are part of the oracle for expressions, and actions that rewrite URIs, forward, or set attributes: they would be further module calls here.
- Routes selected by an expression, `SWITCH_JT_T` and `MATCH_COND_T`: their control flow is that of `route` with a number and of `SWITCH_COND_T`.
- Memory barriers and the assembly behind the atomic operations.
- `del_nonshm_lump` and copies into shared memory.
- base16, base64 with the small and medium tables, CRC-32 and the 16-bit CRC with the other polynomial: easier members of the same kind.
- DnsCache.Cache.Find: the buckets and the last-used list are sequences; `CacheRings.FollowCache` has their pointers, as a state of its own.
- SrvSelect.GetNextRr: the bitmap of tried records is a set of numbers below 16.
- DnsResolve.SrvResolveIp: entries have at most 255 records; in longer ones the one-byte positions begin again, and the loop is not shown to end.
- DnsAddress.GetEntry: a request answers nothing or a new entry of the name and the type asked for; CNAMEs in the answer of a server are not followed here, those in the cache are.
- DnsResolve.TryAll: a handle is a value that the functions take and return; all calls of one handle agree on load balancing.
- EntryLayout.LayOut: the record data is bytes of the block; the fields of a `struct dns_rr` and the pointers inside NAPTR, TXT and EBL data are values at their places, not bytes.
- LumpInsert.EditCopy: edits insert at lumps that a walk along the lists meets, not at lumps that have been lost.
- LumpAnchors.Message.AddFixed: the lists are sequences, and an offset or length beyond the message, which aborts the program, is excluded.
- Crc.CrcittStringArray: the text is a value, not a buffer; `crcitt_string` is the call with start 0.
- ScriptMachine.Context.DoAction: the text of the action, its file and line, and `ser_error` are not modelled.

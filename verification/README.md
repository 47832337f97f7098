# c_collections, verified

A Dafny 4.11 model of the parts of the c_collections library whose promises
are about whole runs, with proofs of those promises.

- **LRU cache** (`SequentialLru`, `CacheSegment`, `CacheInvariant`, `CacheRegions`, `CacheProtocol`, `CacheTheorems`, `CacheAnswers`, `CoalescedGets`; `Orders`, `LinkedOrder`, `Segment`): one segment as a step machine over interleaved gets, sets and remote calls, refined step by step to a sequential LRU list, down to what each get and set answers; the segment object, with its doubly linked order, performs the machine's locked regions.
- **Hash map** (`MapTypes`, `ProbeTable`, `OpenAddressing`, `OpenMap`, `OpenMapObject`; `ChainLists`, `Chaining`, `ChainMapObject` over `LinkedOrder`): both backends as objects that insert, delete, resize and switch their hash in place, under any hash function and any failing allocation, refined to an ideal map and an ideal ordered map over every run.
- **Body memory** (`BodyBuffer`, `BodyMemory`, `BodyAdmission`, `BodyTheorems`, `BodyAccounts`): reservations, the first-come waiting list and the rule that lets one request past the limit.
- **AVL map** (`AvlTree`, `AvlMap`, `AvlMapObject`): the loops over explicit paths with their early stops against the recursive insert and delete, and the in-order iterator.
- **JSON** (`Utf8`, `JsonString`, `JsonValue`, `JsonParse`, `JsonRoundTrip`, `JsonGrammar`, `JsonExact`, `JsonMachine`; `JsonForest`, `JsonDom`; `JsonCursor`): the stack loops of parser, serializer and clone against their recursive forms, the parser against a grammar for every text, round trips and limits, node ownership as a forest, and the dictionary cursor under changes.
- **Redirects** (`Redirect`), **Base64 and Basic credentials** (`Base64`), and from the benchmarks the **shared queue round trip** (`QueueRoundTrip`) and the **CPU order** (`CpuTopology`).

`dafny verify dfyconfig.toml` checks the whole project. Lemmas and methods
hide the definitions they do not need, which keeps each proof small.

## Model

| member | source | states |
|---|---|---|
| CacheInvariant.EvictShape | src/clrucache.c:580-610 | evicting the tail keeps the segment invariant and is exactly the sequential list's eviction of its last item; an entry some call still refers to stays allocated |
| CacheInvariant.FrontIsUse | src/clrucache.c:514-517 | moving an entry to the front of the recency list is the sequential use of its key |
| CacheInvariant.StoreLive | src/clrucache.c:1629-1643 | storing into a live entry replaces its value and makes it most recent, with no eviction |
| CacheInvariant.StoreNew | src/clrucache.c:1629-1643 | storing into a placeholder makes room first and then is the sequential put of a new key |
| CacheRegions.GetHit | src/clrucache.c:1501-1525 | the locked region of a get that finds a value is a sequential use and hands out that value |
| CacheRegions.GetMiss | src/clrucache.c:1318-1376 | the locked region of a get that finds nothing leaves the sequential list alone and makes the caller the key's one fetcher |
| CacheRegions.GetBusy | src/clrucache.c:1435-1439 | a get that finds an operation in flight waits on its entry, counted as one more reference |
| CacheRegions.Fetches | src/clrucache.c:1380-1428 | the region after a fetch returns is a put of the fetched value, or nothing on failure or lack of memory, and wakes the key's waiters |
| CacheRegions.Resumes | src/clrucache.c:1437-1525 | a woken getter reads the value that is there, reports the failed fetch, or starts over after a failed set |
| CacheRegions.SetBegins | src/clrucache.c:1669-1762 | the locked region a set starts with takes the key, waits for its owner, or fails with nothing changed |
| CacheRegions.SetResumes | src/clrucache.c:1709-1762 | a woken setter takes the key when it is free and otherwise waits on |
| CacheRegions.SetEnds | src/clrucache.c:1766-1820 | the region after the remote setter returned is a put of the set value and ends with success if the setter said yes, and is nothing to the list and ends with an unexpected failure if it said no; a key evicted meanwhile stays evicted |
| CacheProtocol.StepRefines | src/clrucache.c:1310-1525 | every step of every interleaving keeps the invariant and is the one sequential operation it stands for |
| CacheTheorems.ExecutionIsSequential | include/clrucache.h:75-95 | over every execution the segment has the contents, recency order and evictions of a sequential LRU run in which each set happens when its remote setter has returned and a failed set does not happen; it never exceeds its capacity |
| CacheTheorems.SingleFlight | include/clrucache.h:63-74 | two calls that have a remote call in flight have them on different keys |
| CacheTheorems.NoDanglingNoLeak | src/clrucache.c:523-554 | a call never refers to a freed entry, and an entry that left the map lives only as long as a call refers to it |
| CacheTheorems.QuietMeansLive | src/clrucache.c:549-575 | once all calls have returned every remaining entry is cached, unreferenced and idle |
| CacheTheorems.StepEnabled | src/clrucache.c:1310-1525 | each locked region's needs are met in every state of the invariant: a step whose guard holds can be taken |
| CacheTheorems.NoDeadlock | src/clrucache.c:1435-1440 | while any call is unfinished some call can go on: a waiter's owner is never itself waiting |
| CacheTheorems.CacheAgreesWithRemote | include/clrucache.h:75-95 | if the remote store changes only through a cache with a remote setter, every cached key with no set in progress holds the remote store's value |
| CacheTheorems.NoSetterNoAgreement | src/clrucache.c:1746-1770 | without a remote setter the agreement is lost at the first set: the execution that shows it |
| CacheTheorems.GetExplained | src/clrucache.c:1310-1525 | every value or absence a get reports was the sequential list's answer at some moment of that get |
| CacheAnswers.GetAnswers | src/clrucache.c:1310-1376 | a get that comes to its key waits exactly while another call works on it, answers what the sequential list holds, and otherwise is the one to fetch, or reports a missing getter or a failed allocation |
| CacheAnswers.FetchAnswers | src/clrucache.c:1380-1428 | a get whose remote call has returned answers what that call answered |
| CacheAnswers.SetAnswers | src/clrucache.c:1669-1762 | a set that comes to its key waits exactly while another call works on it, and otherwise takes it unless there is no memory for its value or its entry |
| CacheAnswers.SetReturns | src/clrucache.c:1766-1821 | a set answers success if its remote setter said yes and an unexpected failure if it said no |
| CacheAnswers.SetExplained | include/clrucache.h:75-95 | over every execution: a set that succeeds has made exactly one put of its key and value in the sequential list, with its last step and after its remote setter said yes if there is one; a set that fails has made none; it reports an unexpected failure exactly when its remote setter said no, and a lack of memory or room only when an allocation failed |
| CoalescedGets.StepInto | src/clrucache.c:580-610 | what any step leaves in an entry: the value a put of its key stores while the index names it, nothing if the step evicts it while a set owns it, and otherwise what it held |
| CoalescedGets.CoalescedGetReports | include/clrucache.h:63-74 | over every execution, a get that waited for another call's fetch reports that fetch's failure, or else the value last put into the entry since, and starts over if an eviction during a set emptied the entry |
| CoalescedGets.CoalescedGetWhen | include/clrucache.h:63-74 | it reports the fetched value, as documented, if and only if that is the last value the steps since the fetch left in the entry |
| CoalescedGets.LastOverwriteDecides | src/clrucache.c:1435-1525 | of all steps since the fetch the last put into the entry, or eviction of it under a set, decides what is left |
| CoalescedGets.UntouchedStays | src/clrucache.c:1435-1525 | with no such step the fetched value is still there |
| CoalescedGets.CoalescedGet | include/clrucache.h:63-74 | a corollary: a failure is always reported, and the value whenever no set of the key was under way in between |
| CoalescedGets.SetBetween | src/clrucache.c:1435-1525 | the documented promise fails of the code: for any two values an execution in which a get coalesced onto a fetch reports a later set's value |
| LinkedOrder.UnlinkedForward | src/clrucache.c:505-512 | leading an entry's predecessor past it leaves next-links that spell the order without that entry |
| LinkedOrder.UnlinkedBackward | src/clrucache.c:505-512 | and likewise the prev-links |
| LinkedOrder.LinkedFirst | src/clrucache.c:497-503 | the four link assignments at the head put the entry first in both directions |
| SegmentObject.Segment.Unlink | src/clrucache.c:505-512 | on next- and prev-links between two sentinels: the links then spell the old order without this entry, and every other entry keeps its place; a no-op outside the order |
| SegmentObject.Segment.LinkFront | src/clrucache.c:497-503 | the links, set one by one at the head sentinel, then spell the old order with this entry first, in both directions |
| SegmentObject.Segment.MoveFront | src/clrucache.c:514-517 | the links then spell the order with this entry first and the others as they stood to each other, the sequential use of CacheInvariant.FrontIsUse |
| SegmentObject.Segment.Reap | src/clrucache.c:549-575 | frees an entry exactly when it is out of the map and unreferenced; the links stay those of the order |
| SegmentObject.Segment.Evict | src/clrucache.c:580-610 | the entry the tail sentinel points back to is the least recently used one; it leaves the order and is reported, a key being set keeps its entry as a placeholder and any other leaves the index: the eviction of CacheInvariant.EvictShape; an empty order gives false and no change |
| SegmentObject.Segment.MakeRoom | src/clrucache.c:615-619 | the loop ends with room for one more entry after one eviction at most |
| SegmentObject.Segment.StoreValue | src/clrucache.c:1629-1643 | the links stay those of the order and the new state is the storing that CacheInvariant.StoreLive and StoreNew prove to be the sequential put |
| SegmentObject.Segment.HandOut | src/clrucache.c:1501-1525 | the links stay those of the order; the new state and the answer are the reading that CacheRegions.GetHit proves to be the sequential use |
| SegmentObject.Segment.GetLocked | src/clrucache.c:1310-1376 | keeps the segment valid, and is one use of the key on a hit and nothing to the sequential list otherwise; the call answers what the list holds, waits on a busy key, and else fetches, or reports a missing getter or the failed allocation |
| SegmentObject.Segment.FetchReturned | src/clrucache.c:1380-1428 | keeps the segment valid, and is one put of the fetched value, or nothing to the sequential list on failure; the caller is told not found, no memory for its copy, or the value |
| SegmentObject.Segment.GetWoken | src/clrucache.c:1437-1525 | keeps the segment valid, and is one use of the key if the entry is live, an entry nobody refers to any more freed; the caller gets the value, the fetch's failure, or starts over |
| SegmentObject.Segment.Take | src/clrucache.c:1737-1762 | the set owns the entry and goes to its remote setter, or without one has stored its value and ends with success; the links stay those of the order |
| SegmentObject.Segment.SetLocked | src/clrucache.c:1669-1762 | keeps the segment valid, and is one put of the key exactly when it takes the entry at once and there is no remote setter; the answer by cases: no memory, wait, the failed allocation, the remote setter, success |
| SegmentObject.Segment.SetWoken | src/clrucache.c:1709-1762 | keeps the segment valid, and is one put of the key exactly when the entry is not dead and there is no remote setter; a dead entry makes the set start over |
| SegmentObject.Segment.SetReturned | src/clrucache.c:1766-1820 | keeps the segment valid, and is one put of the key on success and nothing to the sequential list on failure; the caller is told success if the remote setter said yes and an unexpected failure if it said no |
| SegmentObject.Placing | src/clrucache.c:497-517 | a valid segment has everything the list helpers rely on: flags and links agree with the order, and its tail can be evicted |
| ProbeTable.WriteProbe | src/chashmap.c:1938-1945 | an entry written to the first free slot of its probe sequence keeps every entry reachable through occupied slots |
| ProbeTable.ShiftBack | src/chashmap.c:2024-2036 | moving an entry whose path crosses the hole into the hole makes its old slot the only gap |
| ProbeTable.GapClosed | src/chashmap.c:2037-2043 | the walk may stop at an empty slot or span slots past the hole: the probe invariant holds again, with no deleted marker |
| ProbeTable.ShiftShrinks | src/chashmap.c:2052-2081 | each move lowers the sum of all displacements, so the walk ends |
| InsertWindow.WindowEndsAt256 | src/chashmap.c:320-366 | while the walks add up to less than 2^23 the 32-bit window carries with its 256th insert and not before, and then holds exactly their sum |
| InsertWindow.WindowNeverLate | src/chashmap.c:357-366 | no walks keep a window open past its 256th insert |
| OpenMap.FastWindowEnds | src/chashmap.c:357-361 | walks within a fast table's cap, whatever its size, end a window with exactly the 256th insert, with their exact sum |
| OpenAddressing.FirstFree | src/chashmap.c:1663-1682 | the first free slot of a probe sequence, or the slot `limit` steps on; a full circle is reported only by a full table |
| OpenAddressing.CapOfSize | src/chashmap.c:1409-1420 | the displacement cap of a table of 2^e slots is 24 e below 2^12 slots and 288 from there on |
| MapTypes.ResetSizeOk | src/chashmap.c:3923-3944 | a reset asks for the least size there is that holds the request, and keeps its size for no request or one past the largest size, of which only the latter is reported |
| OpenAddressing.PlaceOne | src/chashmap.c:1484-1504 | a new entry lands in its first free slot unless that is past the limit, and all others stay |
| OpenAddressing.PlaceAll | src/chashmap.c:1475-1506 | refills an empty block with exactly the old entries, in the layout of the fill as a value, and gives its largest displacement |
| OpenAddressing.FastAttempt | src/chashmap.c:1511-1564 | succeeds exactly when the fast fill keeps every displacement within the cap and their sum within count + 64; then it holds the same entries in that fill's layout; a failed attempt looks at no more than 2 * count + cap + 65 slots |
| OpenMap.GrowthCapacity | src/chashmap.c:1621-1642 | a growth leaves a load between a quarter and a half; it doubles the table if and only if a slot was still free or the table is one doubling below the largest, and quadruples a table that failed growths left full |
| OpenMapObject.FillThenGrow | src/chashmap.c:1626-1629 | a table can be full: for every size, inserts whose growths find no memory fill it to its last slot, and the growth that then succeeds quadruples it |
| OpenMap.CloseGap | src/chashmap.c:2052-2081 | backward-shift deletion restores the probe invariant, keeps all entries and moves none further from its home |
| OpenMap.Probe | src/chashmap.c:1988-2020 | walks from the home slot to the key, an empty slot or the last of `limit` slots, past occupied slots without the key only |
| OpenMap.Missed | src/chashmap.c:1978-1987 | where a probe that met no key stops, the map has no such key |
| OpenMapObject.HashMap.Rebuild | src/chashmap.c:1585-1619 | keeps the entries; the resulting mode is keyed exactly when it was asked for, the fast fill passes the cap, or a keyed table's fast fill walks more than count + 64; the window starts over; without memory nothing at all changes |
| OpenMapObject.HashMap.Lookup | src/chashmap.c:1988-2020 | finds the key's slot within the probe span if and only if the map has the key |
| OpenMapObject.HashMap.SwitchKeeping | src/chashmap.c:1715-1721 | the switch to the keyed hash keeps all entries and gives the key's new slot; without memory the table stays fast and correct |
| OpenMapObject.HashMap.Store | src/chashmap.c:1938-1948 | writes a new entry and widens the span to cover it; a fast table past its cap is marked overdue |
| OpenMapObject.HashMap.NoteWindow | src/chashmap.c:1741-1751 | the insert that ends a window switches a fast table if and only if the window's sum is above its bound and there is memory, and starts a new window with the bound of the table's count and size |
| OpenMapObject.HashMap.Land | src/chashmap.c:1938-1955 | finishes an insert: the mode afterwards is keyed exactly when it was, or the cap or the window demanded it and there was memory |
| OpenMapObject.HashMap.InsertGrowing | src/chashmap.c:1770-1815 | grows, probes again and inserts; without memory uses the slot found before, and only a full table then fails; the size after it by cases |
| OpenMapObject.HashMap.Insert | src/chashmap.c:1864-1964 | for any hash and any failing allocations: success, key already present, container full and lack of memory each exactly in its case of presence, count, fullness and allocations; the entries gain or change exactly this key, the count with them, and a new key's slot is reported |
| OpenMapObject.HashMap.Unslot | src/chashmap.c:2229-2234 | takes one entry out and closes its gap |
| OpenMapObject.HashMap.Delete | src/chashmap.c:2215-2251 | succeeds exactly where the key is present and removes exactly it; halves a table less than a quarter full; a keyed table stays keyed |
| OpenMapObject.HashMap.Reset | src/chashmap.c:2268-2311 | destroys every entry whether or not the new block can be had, and keeps the mode |
| OpenMapObject.Perform | src/chashmap.c:1864-2311 | one public operation is the ideal map's: what it answers is written out by cases, and it reports a lack of memory only where an allocation failed |
| OpenMapObject.Run | include/chashmap.h:48-60 | any run of inserts, deletes, lookups and resets to any size, under any hash and any allocation failures, is answered as the ideal map answers it |
| ChainLists.LinkedPush | src/chashmap.c:3092-3094 | a node linked at the front of its bucket keeps every node in exactly its own bucket |
| ChainLists.LinkedDrop | src/chashmap.c:2690-2719 | unlinking a node keeps all others linked |
| ChainLists.SameLengths | src/chashmap.c:2919-2927 | chain lengths depend on the keys and the hash alone, not on how the nodes were linked |
| Chaining.IndexCoarser | src/chashmap.c:803-833 | taking fewer high bits merges neighbouring buckets: the index in a table r times smaller is the old index divided by r |
| Chaining.Relink | src/chashmap.c:2964-2988 | links every node into the new array, and on a shrink gives exactly the longest merged chain |
| Chaining.RelinkKeyed | src/chashmap.c:2822-2835 | walking the prev-links from the tail, rehashes the nodes that need it with the keyed hash and links each bucket in the order list's order |
| Chaining.FastAttempt | src/chashmap.c:2861-2917 | succeeds exactly when the fast hash keeps every chain below 20 nodes and the nodes met within count + 64; a failed attempt walks no more than count + 83 nodes and leaves every node with its keyed hash, linked by it |
| ChainMapObject.UpLimit | src/chashmap.c:2735-2755 | the overflow-free threshold is (n + 1) * 3 / 2 |
| ChainMapObject.GrowthKeepsShort | src/chashmap.c:2928-2988 | a growth of a fast map lengthens no chain |
| ChainMapObject.ChainMap.SwitchToKeyed | src/chashmap.c:2818-2835 | the switch leaves the order list, the values and the count untouched |
| ChainMapObject.ChainMap.NoteWindow | src/chashmap.c:2845-2855 | a window's end switches a fast map exactly when its sum is above the bound; a map that stays fast then starts a new window with the bound of its count and size |
| ChainMapObject.ChainMap.Rebucket | src/chashmap.c:2964-2988 | all nodes go into the new array; the mode is what the attempt decides on growth, and the longest merged chain says whether a shrunk fast map must switch |
| ChainMapObject.ChainMap.Scale | src/chashmap.c:2928-3002 | a resize leaves order, values and count untouched, sets the size by 4 with a floor of 16, and the mode afterwards is exactly what the chains of the fast hash decide: none of 20 nodes, and for a growing keyed map no more than count + 64 nodes met; without memory nothing changes |
| ChainMapObject.ChainMap.Locate | src/chashmap.c:2542-2564 | finds the key's node in its chain if and only if the map has the key |
| ChainMapObject.ChainMap.Get | src/chashmap.c:3172-3182 | the value of a key that is present, nothing otherwise |
| ChainMapObject.ChainMap.Attach | src/chashmap.c:2325-2337 | on next- and prev-links: the links then spell the order list with the new node first, in both directions |
| ChainMapObject.ChainMap.Detach | src/chashmap.c:2342-2353 | on next- and prev-links: the links then spell the order list without this node, the others as they stood to each other |
| ChainMapObject.ChainMap.Link | src/chashmap.c:3085-3103 | a new node goes to the front of its chain and of the linked order list, which hold the same nodes again; a fast map never keeps a chain longer than 20 nodes |
| ChainMapObject.ChainMap.Insert | src/chashmap.c:3054-3118 | by cases: a present key that is to be kept, or whose new value has memory, is already present; a new key with the map at its largest count is refused as full; a new key is inserted exactly when there is memory for its node, and then goes to the front of the order; an update keeps its place; the map grows fourfold exactly when the count passes (n + 1) * 3 / 2 and there is memory |
| ChainMapObject.ChainMap.Unlink | src/chashmap.c:2690-2719 | removes one node from its chain and, by its links, from the order list, which hold the same nodes again |
| ChainMapObject.ChainMap.Delete | src/chashmap.c:3187-3207 | removes exactly this key, if present, keeps the others' order, shrinks exactly below one eighth where there is memory, and keeps a keyed map keyed |
| ChainMapObject.ChainMap.Reset | src/chashmap.c:3231-3297 | destroys every entry whatever becomes of the bucket array |
| ChainMapObject.ChainMap.Iterate | include/citerators.h:99-112 | following the next-links from the head gives the entries in the order list's order |
| ChainMapObject.NewestFirst | include/citerators.h:99-112 | over any run, of two keys the one inserted later comes first: iteration is reverse insertion order |
| ChainMapObject.Perform | src/chashmap.c:3054-3297 | one public operation is the ideal ordered map's, its answer written out by cases of presence, count and memory |
| ChainMapObject.Run | include/chashmap.h:66-76 | any run of inserts, deletes, lookups and resets, under any hash and any allocation failures, is answered as an ordered map without buckets, hashes or modes answers it, and leaves exactly its entries in its order |
| BodyBuffer.GrowBounds | src/chttpserver.c:6737-6767 | a growth ends between what is needed and the largest body |
| BodyBuffer.GrowthIsLeast | src/chttpserver.c:6737-6767 | a buffer under a reservation doubles from its size, 16 KiB for a first Content-Length buffer or 8 KiB for a first chunked one, no further than it must to hold what is needed, and never past the largest body |
| BodyBuffer.FirstReserveIs | src/chttpserver.c:9885-9899 | the first reservation of a Content-Length body is 16 KiB, or the body where that is smaller |
| BodyBuffer.ReadWantIs | src/chttpserver.c:9945-9987 | a read asks for its buffer where the window's bytes fit in, and for the old and the new block where they do not |
| BodyBuffer.FirstReserveIsFirstBuffer | src/chttpserver.c:9885-9899 | what a Content-Length body reserves before its first read is the first buffer it will grow to |
| BodyBuffer.WantBounds | src/chttpserver.c:9945-9979 | what a read asks for stays below twice the largest body |
| BodyBuffer.OneGrowth | src/chttpserver.c:6737-6767 | within one read window every growth ends at one capacity, which holds the window |
| BodyBuffer.ReadCovered | src/chttpserver.c:9965-9987 | a granted read reserves the buffer and any growth it can cause, old block included |
| BodyBuffer.FeedCovered | src/chttpserver.c:6836-6859 | handing over the bytes read needs no more than is reserved, and what the trim leaves covers the rest |
| BodyAdmission.AskKeeps | src/chttpserver.c:9204-9211 | a reservation, granted or refused, keeps the accounts, the limit and the list |
| BodyAdmission.AskMoves | src/chttpserver.c:9204-9211 | a reservation, granted or refused, leaves the list alone and moves counter and charge together; the connection reads on or has to wait for exactly what it asked for |
| BodyAdmission.TrimKeeps | src/chttpserver.c:9276-9290 | giving back part of a reservation keeps the invariant: exactly what is above the part kept comes off counter and charge, and waiters are looked at |
| BodyAdmission.ReleaseKeeps | src/chttpserver.c:9255-9271 | giving back a whole reservation and the exemption keeps it: the connection is as new, its charge comes off the counter, and waiters are looked at |
| BodyAdmission.EnqueueKeeps | src/chttpserver.c:9216-9233 | joining the waiting list keeps it: last in the list, with its charge and its need, and an admission is due |
| BodyAdmission.ExpireKeeps | src/chttpserver.c:9828-9864 | a waiter's leaving the list at its deadline keeps the invariant |
| BodyAdmission.ExpireMoves | src/chttpserver.c:9828-9864 | a waiter whose deadline passed is dropped and leaves the list to the others, in their order, with its charge until its end, and an admission is due |
| BodyAdmission.AdmitKeeps | src/chttpserver.c:9398-9412 | admitting the head, by fitting or past the limit, keeps it and removes exactly the head |
| BodyAdmission.StepKeepsInv | src/chttpserver.c:9130-9420 | every step keeps: the counters are what they stand for, at most one exemption, all other reservations within the limit |
| BodyAdmission.StepKeepsNoStall | src/chttpserver.c:9344-9385 | every step keeps: a list whose head may go is being admitted or about to be |
| BodyTheorems.MemoryBound | include/chttpserver.h:732-766 | in every reachable state the reservations stay below the limit plus two largest bodies, and within the limit while nobody is exempt |
| BodyTheorems.OneExemption | src/chttpserver.c:9347-9351 | at most one request runs past the limit, and it never waits again |
| BodyTheorems.SizedGrantedWhen | src/chttpserver.c:9885-9899 | in every reachable state a new Content-Length body is read at once exactly when nobody waits and its first buffer fits under the limit, and then holds exactly that; otherwise it has to wait for that much and nothing is charged |
| BodyTheorems.ReadGrantedWhen | src/chttpserver.c:9945-9987 | in every reachable state a read has to wait exactly when its body has not reserved enough for it, is not exempt, and somebody waits already or the rest does not fit; otherwise it reads on, with what it needs reserved |
| BodyTheorems.HoldsOnlyItsBuffer | src/chttpserver.c:9276-9290 | a body that waits for its client or has ended holds no more than its buffer, and so does one whose buffer has just grown |
| BodyTheorems.BuffersFit | include/chttpserver.h:732-766 | in every phase, waiting, refused, expired and handled bodies included, a buffer is within its body's reservation, with two exceptions: a chunked body that has reserved nothing yet keeps at most the 8 KiB that came with its headers, and the one exempt body may hold more than it reserved, up to a largest body; so all buffers together fit under the limit, one such window for each uncharged body and one largest body while somebody is exempt |
| BodyTheorems.GrowthFits | include/chttpserver.h:732-766 | while a buffer grows and its old and new block are both there, all blocks of all bodies together exceed the limit by less than twice the largest body, and not at all while nobody is exempt, the windows of uncharged bodies aside |
| BodyTheorems.CarriedPastLimit | src/chttpserver.c:9965-9972 | the windows are really outside the limit: one chunked body passes a limit smaller than its first buffer |
| BodyTheorems.ExemptPastReservation | src/chttpserver.c:9181-9185 | the exempt body is really outside its reservation, because each charge is capped at the limit: a run of one request that ends with a buffer of 30 bytes, 20 of them charged, under a limit of 10 |
| BodyTheorems.HeadGoesWhen | src/chttpserver.c:9400-9404 | the oldest waiter goes if and only if it fits, or every holder is itself waiting and nobody is exempt |
| BodyTheorems.HolderlessExemption | src/chttpserver.c:9276-9290 | the exemption clause is needed: a run in which no request holds memory and yet the head must wait, because an exempt request lost its body |
| BodyTheorems.SomeoneElseHolds | src/chttpserver.c:9353-9365 | whenever requests wait and no admission is due, a request outside the list holds memory or the exemption; its end starts an admission, and so does its joining the list where it was just refused more |
| BodyTheorems.FirstComeFirstServed | src/chttpserver.c:9344-9346 | no step admits a waiter while an earlier one still waits |
| BodyTheorems.NoOvertaking | src/chttpserver.c:9344-9346 | over whole runs, while a waiter waits nobody who came later is admitted |
| BodyTheorems.OldestCanProceed | include/chttpserver.h:755-761 | from every reachable state the running requests' ends and one admission turn take the oldest waiter, whatever it asked for |
| BodyAccounts.GrowLoop | src/chttpserver.c:6758-6765 | the doubling loop computes the growth target |
| BodyAccounts.MemoryAccounts.GrantTo | src/chttpserver.c:9181-9197 | the counter and the connection's charge grow by the same amount: the need, or the limit where that is smaller, and only to the largest word |
| BodyAccounts.MemoryAccounts.Reserve | src/chttpserver.c:9204-9211 | granted if and only if the body is exempt, or nobody waits and the need fits under the limit; then the body reads on, and an ordinary one has charged exactly its need; refused, nothing is charged and it has to wait for exactly that; the accounts stay right and the list moving |
| BodyAccounts.MemoryAccounts.EnterList | src/chttpserver.c:9216-9233 | the connection is last in the list and waits for what it was refused, every other is as it was, and an admission is due; the accounts stay right |
| BodyAccounts.MemoryAccounts.TakeHead | src/chttpserver.c:9405-9410 | exactly the head leaves the list and reads on, charged its need or what the limit and the word leave of it, and exempt exactly where it goes past the limit; nobody else changes; the accounts and the limit stay right |
| BodyAccounts.MemoryAccounts.AdmitTurn | src/chttpserver.c:9386-9420 | the batch loop takes a prefix of the list in order and ends at a head that cannot go or at 64; it takes nobody exactly when the head cannot go, and that ends the turns; the accounts are right and no list is left to stall |
| BodyAccounts.MemoryAccounts.GiveBack | src/chttpserver.c:9255-9271 | exactly the charge comes off the counter and the exemption ends; the accounts stay right and waiters are looked at |
| BodyAccounts.MemoryAccounts.GiveBackAbove | src/chttpserver.c:9276-9290 | exactly the part above `keep` comes off the counter; the accounts stay right and waiters are looked at |
| AvlTree.CheckBalanceWalk | src/cbstmap.c:1111-1175 | no rotation moves an entry of the in-order walk |
| AvlTree.CheckBalanceAvl | src/cbstmap.c:1111-1175 | between subtrees at most two levels apart one rotation gives a balanced subtree with right heights, one level lower unless the deeper side's root was level |
| AvlTree.SizeAtLeast | include/cbstmap.h:54-59 | a tree of h levels holds at least Fib(h + 2) - 1 nodes |
| AvlTree.ThinIsLeast | include/cbstmap.h:54-59 | and some tree of h levels holds no more |
| AvlTree.HeightBound | src/cbstmap.c:1085-1104 | a tree of fewer than 2^64 nodes has at most 91 levels, so a height fits its byte and a path of 128 entries never overflows |
| AvlPath.StopEarly | src/cbstmap.c:1386-1394 | where a subtree's height is what it was, rebalancing the ancestors changes nothing |
| AvlPath.RebalancedAvl | src/cbstmap.c:1386-1411 | rebalancing over a subtree that changed by one level: what the node's new height and lean can be |
| AvlMap.JoinedKeeps | src/cbstmap.c:1518-1559 | a removed node's replacement from the deeper side, right on ties, needs no rotation and keeps all other entries in order |
| AvlMapObject.Descend | src/cbstmap.c:835-892 | the recorded path leads to the key or to where it belongs, with smaller keys before and larger after, in fewer than 128 entries |
| AvlMapObject.RebalanceAfterInsert | src/cbstmap.c:1386-1411 | the loop that stops at a rotation or an unchanged height gives the tree that rebalancing the whole path gives |
| AvlMapObject.RebalanceAfterDelete | src/cbstmap.c:1599-1621 | the loop that stops at an unchanged height gives the tree that rebalancing the whole path gives |
| AvlMapObject.DetachExtreme | src/cbstmap.c:1191-1262 | the loop over a path is the recursive removal of the smallest or largest node, and its own path of 128 entries never overflows |
| AvlMapObject.Removal | src/cbstmap.c:1524-1559 | is the recursive choice of a removed node's replacement |
| AvlMapObject.BstMap.Get | src/cbstmap.c:1475-1497 | a value if and only if the key is present |
| AvlMapObject.BstMap.Insert | src/cbstmap.c:1320-1415 | success exactly for a new key with room and memory, already present exactly for a present key whose value has memory, full exactly for a new key at the largest count, no memory otherwise; the tree is the recursive AVL insert's, balanced and ordered; the entries are those smaller, the new one, those larger, counted; every failure leaves the tree alone |
| AvlMapObject.BstMap.Delete | src/cbstmap.c:1565-1627 | succeeds exactly where the key is present; the tree is the recursive AVL delete's, balanced and ordered, and exactly this key is gone |
| AvlMapObject.Cursor.PushLefts | src/cbstmap.c:169-182 | pushes a left spine: the walk of the subtree comes before what was pending, in at most one entry per level |
| AvlMapObject.Cursor.Next | src/cbstmap.c:184-202 | gives the first pending entry and leaves the rest pending |
| AvlMapObject.IterateAll | include/citerators.h:130-158 | stepped to its end the iterator gives the in-order walk: every entry exactly once, in ascending key order |
| Utf8.ValidSplit | include/internal/cutf8.h:74-112 | an ASCII byte is never inside a UTF-8 sequence, so the parts around it are valid on their own |
| Utf8.EncodeValid | src/cjson.c:2316-2339 | every encoded scalar value is valid UTF-8 without a zero byte |
| Utf8.StepIsEncoding | include/internal/cutf8.h:71-105 | every sequence the step accepts is the encoding of a scalar value: no overlong form, no surrogate, nothing past U+10FFFF |
| Utf8.EncodingBits | src/cjson.c:2316-2339 | the encoding of a code point has its bits, six in each byte after the first, in the fewest bytes |
| JsonString.DecodeClean | src/cjson.c:2443-2585 | whatever a string literal decodes to is valid UTF-8 without a zero byte |
| JsonString.ScanFinds | src/cjson.c:2396-2435 | the first pass finds the end of every literal that decodes |
| JsonString.ParseLiteral | src/cjson.c:2593-2617 | the two passes with their fast path are the one decoding with escapes |
| JsonString.DecodeLoop | src/cjson.c:2443-2585 | the second pass is that decoding |
| JsonString.StringRoundTrip | src/cjson.c:3202-3252 | a printed string parses back to itself, whatever follows it |
| JsonGrammar.LiteralExactly | src/cjson.c:2396-2617 | for every text: a string literal is accepted exactly when it is written as the grammar of runs, letter escapes, escapes of four hexadecimal digits and surrogate pairs says, and it decodes to what that means |
| JsonGrammar.EscapeLetter | src/cjson.c:3202-3252 | a byte that cannot stand for itself and has a letter escape is printed with it |
| JsonGrammar.EscapeHex | src/cjson.c:3202-3252 | one that has none is printed as the four lower-case hexadecimal digits of its value |
| JsonValue.PrintIntLoop | src/cjson.c:3258-3273 | the digit loop writes the decimal form |
| JsonRoundTrip.IntBack | src/cjson.c:2200-2313 | a printed 64-bit integer parses back to itself |
| JsonRoundTrip.IntForm | src/cjson.c:3258-3273 | only a negative number is printed with a sign, and none but zero begins with a 0 |
| JsonGrammar.NumberExactly | src/cjson.c:2200-2313 | for every text, against a grammar of sign, whole part, fraction and exponent: a number is accepted exactly when the text is such a number and what follows continues none of them; it is an integer exactly when it has neither fraction nor exponent and fits 64 bits, and otherwise a float of exactly that token |
| JsonParse.PutKeeps | src/cjson.c:2879-2906 | setting a key keeps every other member and its place |
| JsonParse.ParsedIsTidy | src/cjson.c:2822-2977 | whatever the parser accepts has unique keys, clean strings, 64-bit integers and at most 500 levels |
| JsonRoundTrip.RoundTrip | include/cjson.h:106-116 | parse(serialize(t)) is t for every float-free tree within 500 levels, compact or with any indentation, order included |
| JsonValue.IndentIs | src/cjson.c:3173-3196 | an indented line is a line break and `indent` spaces for each level, and there is none in compact output |
| JsonGrammar.LeadIs | src/cjson.c:3455-3486 | a child is preceded by a comma unless it is the first, its line, and in a dictionary its key, a colon and, where the output is indented, a space |
| JsonRoundTrip.ParsePrintParse | include/cjson.h:106-116 | a float-free tree that was parsed prints and parses to itself again |
| JsonRoundTrip.TooDeepRefused | src/cjson.c:2839-2848 | a printed tree with a 501st level is refused wherever that level hides |
| JsonRoundTrip.SameLimit | include/cjson.h:106-116 | the text of a tree is accepted if and only if the tree is within 500 levels |
| JsonRoundTrip.RepeatedKeys | include/cjson.h:686-691 | a repeated key keeps the place of its first occurrence and takes the value of its last; no key is lost |
| JsonRoundTrip.DocumentCollapses | src/cjson.c:2817-2820 | the text of any float-free tree, keys repeated at any level or not, parses to the tree with repeated keys merged at every level, if and only if it is within 500 levels |
| JsonRoundTrip.MergedDict | include/cjson.h:686-691 | each merged dictionary has every key in the place of its first occurrence with the merged value of its last |
| JsonExact.SynParses | src/cjson.c:2822-2977 | every value written as the grammar of documents says parses to what it means, whatever follows it |
| JsonExact.ValueFound | src/cjson.c:2822-2977 | whatever the parser accepts at the front of a text was written so |
| JsonExact.DocumentExactly | src/cjson.c:2822-3122 | for every text: the parser gives a tree exactly when the text is white space, a value written by the grammar of RFC 8259 with at most 500 levels of containers that means this tree, and white space; every other text is refused |
| JsonMachine.ParseLoop | src/cjson.c:2822-2977 | the loop over an explicit stack of at most 500 frames is the recursive descent that JsonExact.SynParses and ValueFound tie to the grammar |
| JsonMachine.Parse | src/cjson.c:3071-3122 | a document is one value with nothing but white space around it: the recursive parser that JsonExact.DocumentExactly tells for every text |
| JsonMachine.Serialize | src/cjson.c:3408-3495 | the loop over an explicit stack is the recursive printer, and fails exactly on a 501st level |
| JsonMachine.Clone | src/cjson.c:1941-2045 | the copy is the tree, order included, and a tree with a 501st level has none |
| JsonForest.NoLeak | include/cjson.h:149-172 | a live node is always held by a node the caller owns: when none of those is left, no node is |
| JsonForest.AttachOk | src/cjson.c:1507-1573 | attaching a free node to a container it does not hold keeps every node with at most one parent and no cycle |
| JsonForest.DetachOk | src/cjson.c:1745-1782 | taking a child out keeps a forest |
| JsonForest.DropOk | src/cjson.c:971-977 | freeing a whole free-standing tree keeps a forest |
| JsonDom.Dom.Create | include/cjson.h:149-152 | a new node belongs to the caller |
| JsonDom.Dom.Destroy | src/cjson.c:931-977 | frees exactly the tree, each node once, with a worklist |
| JsonDom.Dom.Reaches | src/cjson.c:489-547 | the cycle search, with its shortcut for a node that was never attached, is exact unless it runs out of room, which it cannot with room for every live node |
| JsonDom.Dom.Push | src/cjson.c:1507-1573 | with room for the search: invalid_args exactly for bad arguments, written out, or a cycle, with nothing touched, and otherwise what the list's insert answers; success makes the child the last element, attached, and changes nothing else, and a failure other than invalid_args has freed the child's whole tree once |
| JsonDom.Dom.Set | src/cjson.c:1592-1723 | with room for the search: invalid_args exactly for bad arguments, written out, or a cycle, success where the key is there, and otherwise what the insert answers; success adds the member last, or puts the child in the place of the old one and frees exactly the old one's tree, or is the no-op of setting what is there; nothing else changes |
| JsonDom.Dom.ListRemove | src/cjson.c:1745-1763 | takes out exactly the element at the index and frees exactly its tree; nothing else changes |
| JsonDom.Dom.DictRemove | src/cjson.c:1771-1782 | takes out exactly the key and its child and frees exactly the child's tree; nothing else changes |
| JsonCursor.CursorVisitsAll | include/cjson.h:678-706 | under any replacing, inserting and removing of other members than the successor, the cursor gives every original member that is still there, none twice, in insertion order |
| JsonCursor.KeysVisited | include/cjson.h:678-706 | on a dictionary node changed by setting and removing keys: each key of the start whose member is still there was handed out |
| JsonCursor.HandsOutMember | src/cjson.c:1791-1803 | a step hands out the key and child of a member the node has at that moment |
| JsonCursor.SuccessorMustStay | include/cjson.h:704-706 | wherever the cursor stands, removing the successor leaves it on a member that is gone |
| Redirect.Follow | src/chttpclient.c:15708-15991 | for any peers: at most 51 requests, each following the rules of the whole chain before it; the result is done exactly at a final response, too many redirects exactly at a 51st one, and an invalid URL exactly where the next hop has no address, is a socket the chain is not at, or leaves TLS against the caller's wish |
| Redirect.GoesWhereItIsLed | src/chttpclient.c:1972-2012 | every request after the first goes where the response before it led, to a socket only from that same socket, and off TLS only where the caller has not asked otherwise |
| Redirect.SocketHopsArePrefix | include/chttpclient.h:1092-1108 | requests to a socket come first and all go to the socket the caller named |
| Redirect.StaysOnTls | src/chttpclient.c:1972-2012 | a chain that starts on TLS and is asked to stay there does |
| Redirect.BodySentWhen | include/chttpclient.h:1054-1058 | of every chain Follow can send: a body goes out exactly when the caller gave one, the method is POST, PUT or PATCH, and every earlier status was 307 or 308; after any other status the method is GET, except that a HEAD chain stays HEAD; that the hop loop sends such chains only is proved in Follow |
| Redirect.UrlAuthWhen | src/chttpclient.c:15749-15776 | URL credentials reach a hop if and only if, since the last URL that had some, the chain has not left its origin and the caller's own header is not there; they never reach another origin |
| Redirect.FirstOriginOnly | include/chttpclient.h:1137-1153 | while only the caller's URL has credentials they go exactly to the hops before the chain first leaves its origin |
| Redirect.LocationRestartsAuth | src/chttpclient.c:15749-15776 | a Location with credentials of its own starts over: such a hop away from the first origin carries them |
| Redirect.CallerHeadersWhen | src/chttpclient.c:4276-4315 | of every chain Follow can send: the caller's credential headers go exactly to its own origin, its Host header exactly to its own host; that the hop loop sends such chains only is proved in Follow |
| Base64.DecodeEncode | include/chttp.h:315-330 | decode(encode(x)) is x for every byte string |
| Base64.EncodeDecode | include/chttp.h:342-352 | a text is accepted only if encoding its bytes gives it back |
| Base64.OneTextEach | src/chttp.c:175-190 | two accepted texts are equal exactly when their bytes are |
| Base64.LettersAreTheAlphabet | src/chttp.c:37-38 | the letters are those of table 1 of RFC 4648, in order |
| Base64.GroupBits | src/chttp.c:67-110 | the k-th letter of a group stands for the bits 6 k to 6 k + 5 of its bytes, most significant first, the missing ones zero and their letters padding |
| Base64.EncodeLoop | src/chttp.c:67-110 | the loop fills a buffer of exactly the text's length with the encoding |
| Base64.DecodeLoop | src/chttp.c:115-202 | the group loop is the strict decoding |
| Base64.BasicRoundTrip | include/chttp.h:377-402 | a header is built exactly for a user without a colon and no control character; it is the word Basic, a space and a text, and cutting the bytes that text decodes to at the first colon gives back user and password |
| Base64.ColonWouldConfuse | src/chttp.c:260-272 | with a colon in the user the recipient would read another identity |
| QueueRoundTrip.NeverBlocks | bench/bench_concurrency.c:526-530 | in every interleaving the queue is as long as there are threads between send and receive, and with room for one message per thread no call blocks |
| QueueRoundTrip.NeverStuck | bench/bench_concurrency.c:591-621 | with any room at all some thread can go on |
| QueueRoundTrip.BuffersComeBack | bench/bench_concurrency.c:532-552 | no run is longer than all calls together, and a complete one leaves each buffer in exactly one slot |
| CpuTopology.SortIs | bench/bench.c:332-336 | sorting gives a permutation with the fastest first and lower numbers first among equals |
| CpuTopology.SweepIs | bench/bench.c:379-404 | a sweep takes each eligible CPU of its kind once |
| CpuTopology.SweepLoop | bench/bench.c:379-404 | the bound of the array never stops a sweep |
| CpuTopology.TopologyInit | bench/bench.c:366-418 | the list is the leaders sorted and then the siblings sorted, with the split counted right |
| CpuTopology.OncePerCpu | bench/bench.c:366-418 | every eligible CPU is in the list exactly once and nothing else is |
| CpuTopology.Kinds | bench/bench.c:366-418 | an entry of the list leads its core if and only if it is in the first part |
| CpuTopology.DistinctCores | bench/bench.c:373-378 | as many workers as there are core leaders are pinned to different cores |

## Left out

- The hash functions (SipHash, XXH64, the mixers) and the statistical window bounds of the hash map: both are arbitrary functions here, and only the caps, budgets and thresholds built on them are modelled.
- Bytes of keys and values, inline storage, in-block bucket arrays, alignment, aliasing of the caller's memory and stable addresses: keys and values are abstract, a hash chain is a sequence of keys, an AVL tree is a value that the methods replace.
- The split of a cache into segments, its handle table, its copying getter into a caller's buffer and destruction: one segment is modelled, its remote store is changed only by successful remote sets, and each region under a mutex is one atomic step.
- Sockets, TLS, DNS, timers, parsing of HTTP messages and URLs, and everything else in the client and the server than redirect decisions and body-memory admission; mount ownership and routing, which would only add easy members.
- Teardown of the body-memory list and bodies that arrive whole with their headers, which never reserve anything.
- BodyTheorems.BuffersFit: it and `GrowthFits` speak of bodies of at most half the address space, since no allocation is larger.
- BodyTheorems.MemoryBound: where no largest body is configured the bound is twice any bound on the declared lengths, and a chunked body then has none, as the source says.
- AvlTree.Key: keys are real numbers under their order, which stands for any total order on countably many keys; key formats and comparison procedures are not modelled.
- JsonGrammar.NumberExactly: a number past the range of a double is refused at src/cjson.c:2281-2305 and is a float of its token here, since doubles are not modelled.
- JsonExact.DocumentExactly: likewise for such a number anywhere in a document; and every allocation of the parser succeeds.
- Doubles in JSON: a float is its token, so its shortest printing and its round trip are not modelled; error messages and positions are not either.
- JsonMachine.Clone: a finished child is attached when it is complete, where the source attaches the empty copy first and then fills it.
- JsonDom.Dom.ListRemove: the element leaves the list before its tree is freed, where the source frees first and then closes the gap; `Set` likewise stores the new child before it frees the old one.
- Path-based access, typed setters, the node pool and threads of the JSON module; the YAML, logger, vector, sort, thread-pool and event-loop modules.
- CpuTopology.TopologyInit: the library sort is modelled as an insertion sort on a sequence; reading the system's files is a parameter.
- QueueRoundTrip.NeverBlocks: the queues' own locking is one atomic step per call.

Where the documentation and the code differ the model follows the code: include/chashmap.h:97 names insertion order for a chaining map, which iterates in reverse insertion order; the comment at src/chashmap.c:1626-1629 says that a growth always doubles the table, which `OpenMap.GrowthCapacity` bounds exactly; include/clrucache.h:63-74 promises a coalesced get the fetch's value, which `CoalescedGets.SetBetween` shows to fail and which holds exactly under the condition of `CoalescedGets.CoalescedGetWhen`; include/chttpclient.h:1140-1142 says that URL credentials are gone for the rest of a chain once its origin changes, which `Redirect.UrlAuthWhen` and `Redirect.LocationRestartsAuth` bound exactly; include/chttpserver.h:732-745 counts a body's memory from its first byte, where a chunked body's bytes that came with the headers are outside the limit until its first read (`BodyTheorems.CarriedPastLimit`), and says that a reservation covers what a buffer really holds, where the exempt body's is capped at the limit (`BodyTheorems.ExemptPastReservation`), both bounded by `BodyTheorems.BuffersFit` and `BodyTheorems.GrowthFits`; and the rule that some waiter for body memory goes ahead whenever every holder waits has the exception of `BodyTheorems.HolderlessExemption`.

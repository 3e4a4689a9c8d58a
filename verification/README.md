# SELinux userspace: a Dafny model

This project models ten pieces of the SELinux userspace tools and proves what they are for. Each piece has one or more
modules. In every one the operation in the form of the source (loops over arrays, linked nodes, objects updated in
place) is proved equal to a specification, and the promised property is proved of that specification for all inputs,
or for all runs.

- `IoctlRanges`, `IoctlCompile` (with `Bits`): the ioctl statement of checkpolicy, from the tokens to the extended
  permission rules. The rules grant exactly the commands the text means, except for a family of `~` texts that is
  stated exactly.
- `Sha1Spec`, `Sha1Transform`, `Sha1Stream`: the SHA-1 of libselinux against FIPS 180-4, for any cutting of the message
  into chunks.
- `AvcCache`, `AvcLinks`, `AvcEviction`, `AvcServer`, `Avc` (with `BitMasks`): the access vector cache, with its
  pointers. No run of queries, flushes, mode switches and policy loads can tell the cache from its absence, and every
  query in it is decided bit by bit as the policy in force says.
- `LabelIndex`: the lookup of file contexts, with its stem index and its ordering of specifications.
- `FcontextFile`, `FcontextGrammar`, `LabelReload`: the compiled file of file contexts, written and loaded, in each of
  its versions; which byte sequences are such files; and the lookup in what was loaded.
- `CondExpr`: conditional and constraint expressions as postfix lists, and the depth check.
- `ScopeStack`: the scope stack of the module compiler over both parser passes.
- `RoleDominance`: role dominance as the least closed relation, which is reachability along the statements.
- `RecordList`, `RecordJoin`: the linked record list of libsemanage and the database that joins two of them.
- `StatusPage`: the reader of the kernel status page, and its fallback.

Verify everything with `dafny verify dfyconfig.toml`.

Where code and intention part, the model follows the code:

- A `~` ioctl list is meant as a complement (the comment at checkpolicy/policy_define.c:1860 says so). It is one exactly
  when the list does not name 0xffff and is not exactly 0 to some h. In the first case the 16-bit lower bound of the
  last gap wraps to 0; in the second the upper bound of the only node stays 0.
- The stem index should not change which specification matches. It does for an expression such as `/usr/?`, whose rest
  behind the stem matches the empty string.
- Nor should it change which specification matches partially. It does exactly for a path inside the stem of that
  specification: a partial lookup of `/usr` does not find `/usr/bin`.
- A compiled file without stems or without specifications is written without complaint and refused by the loader.
- A getter of the status page accepts a value when the 32-bit sequence is the same before and after. It can then return
  a value that was never committed, but only if the sequence goes all the way round in between.

## Model

| member | source | states |
|---|---|---|
| IoctlRanges.ReadIoctls | checkpolicy/policy_define.c:1811-1858 | reading the queued `~`, `-` and numbers fails exactly when some range descends after 16-bit truncation; otherwise the ranges cover exactly the commands the text names, and the omit flag is set exactly when a `~` was read |
| IoctlRanges.SortIoctls | checkpolicy/policy_define.c:1743-1789 | the list is ordered by lower bound and is a permutation of what was read |
| IoctlRanges.Insert | checkpolicy/policy_define.c:1758-1775 | one insertion keeps the order and adds exactly the new range |
| IoctlRanges.JoinNeighbours | checkpolicy/policy_define.c:1797-1804 | joining two touching neighbours covers the same commands |
| IoctlRanges.MergeIoctls | checkpolicy/policy_define.c:1791-1809 | merging covers the same commands with ranges that are at least one apart |
| IoctlRanges.OmitIoctls | checkpolicy/policy_define.c:1861-1907 | the flipped list is the complement if and only if the list does not reach 0xffff and is not a single range from 0; when it reaches 0xffff the flipped list covers everything |
| IoctlRanges.FlippedMeaning | checkpolicy/policy_define.c:1861-1907 | what the flipped list means, in both the exact and the failing cases |
| IoctlRanges.LoneFails | checkpolicy/policy_define.c:1865-1881 | a single range from 0 is never complemented: the node filled by calloc keeps upper bound 0 |
| IoctlRanges.WrappedGap | checkpolicy/policy_define.c:1882-1894 | a list that reaches 0xffff flips to a list that covers every command, because the 16-bit lower bound wraps to 0 |
| IoctlRanges.GapsComplement | checkpolicy/policy_define.c:1861-1907 | otherwise the gaps are exactly the uncovered commands and form a merged list again |
| IoctlRanges.OmittableIsComplementable | checkpolicy/policy_define.c:1909-1935 | the condition on ranges is a condition on the text: it must not name 0xffff nor name exactly 0 to h |
| IoctlRanges.ComplementFails | checkpolicy/policy_define.c:1861-1907 | the queues of `~0xffff` and `~{ 0-16 }` are accepted and fall in the failing family |
| IoctlRanges.IoctlRangeList | checkpolicy/policy_define.c:1909-1935 | read, sort, merge and omit together: success exactly on ascending ranges; the result covers what the text names, or with `~` its complement if and only if the text is omittable |
| IoctlCompile.CommandParts | checkpolicy/policy_define.c:2094-2096 | the driver and the function of a command are its two bytes, and determine it |
| Bits.BitIsDigit | checkpolicy/policy_define.c:2055-2075 | a position is in the set exactly when its binary digit in the word is 1 |
| Bits.WrapMeaning | checkpolicy/policy_define.c:1811-1858 | truncation gives the number of that width which differs by a multiple of 2^16 or 2^32 |
| IoctlCompile.RangeWordBit | checkpolicy/policy_define.c:2047-2075 | the four mask cases, with their 32-bit subtraction, set exactly the bits of the range that fall in the word |
| IoctlCompile.SetRangeBits | checkpolicy/policy_define.c:2055-2075 | exactly the positions of the range are added to the 256-bit set; a range with upper bound 0 touches only the first word; for any bounds each word is or-ed with its mask and no other word changes |
| IoctlCompile.Used | checkpolicy/policy_define.c:2077-2086 | true exactly when some position is in the set |
| IoctlCompile.SetBit | libsepol/include/sepol/policydb/policydb.h:245 | adds one position and changes no other |
| IoctlCompile.ClearBit | libsepol/include/sepol/policydb/policydb.h:246 | removes one position and changes no other |
| IoctlCompile.InwardRounding | checkpolicy/policy_define.c:2150-2164 | rounding the range inward selects exactly the drivers all of whose functions it holds |
| IoctlCompile.CompleteDriver | checkpolicy/policy_define.c:2136-2176 | a driver rule exists exactly when some range holds a whole driver, and lists exactly those drivers |
| IoctlCompile.PartialDriver | checkpolicy/policy_define.c:2097-2134 | the drivers in which some range begins or ends, without the complete ones |
| IoctlCompile.ClipMeaning | checkpolicy/policy_define.c:2202-2212 | clipping a range to a driver selects exactly the functions of that driver which the range holds |
| IoctlCompile.FuncPerms | checkpolicy/policy_define.c:2178-2226 | the function rule of a driver lists exactly the functions held by a range that begins or ends there; no rule exactly when there are none |
| IoctlCompile.NextBit | checkpolicy/policy_define.c:2239-2250 | finds and clears the lowest remaining position and nothing else |
| IoctlCompile.CompiledDisjoint | checkpolicy/policy_define.c:2300-2362 | no command is granted by two of the emitted rules |
| IoctlCompile.CompiledGrants | checkpolicy/policy_define.c:2300-2362 | the driver and function rules together grant exactly the commands the ranges cover |
| IoctlCompile.HeldAtAnEnd | checkpolicy/policy_define.c:2097-2134 | a covered command of an incomplete driver is held by a range that begins or ends in that driver |
| IoctlCompile.EmitFuncRules | checkpolicy/policy_define.c:2339-2355 | one non-empty function rule for each partial driver, until none is left |
| IoctlCompile.MisflippedGrants | checkpolicy/policy_define.c:2300-2362 | a text outside the condition never compiles to the commands it means |
| IoctlCompile.DefineIoctl | checkpolicy/policy_define.c:2300-2362 | the whole statement: accepted exactly on ascending ranges; rules disjoint and never empty; they grant exactly the commands meant if and only if a `~` text is omittable |
| Sha1Spec.KRoots | libselinux/src/sha1.c:47-51 | the four round constants are the integer square roots of 2, 3, 5 and 10 times 2^60, as FIPS 180-4 takes them from FIPS 180-1 |
| Sha1Spec.WordBytesBigEndian | libselinux/src/sha1.c:209-213 | the four digest bytes of a register, read most significant first, are the register |
| Sha1Stream.DigestWords | libselinux/src/sha1.c:209-213 | the twenty digest bytes read as big-endian words are the five registers |
| Sha1Stream.BytesAreDigits | libselinux/src/sha1.c:198-202 | the length bytes of the padding are the base-256 digits of the length |
| Sha1Transform.SwapIsBigEndian | libselinux/src/sha1.c:40-41 | the two rotations and masks turn a little-endian word into the big-endian message word |
| Sha1Transform.MixIsF | libselinux/src/sha1.c:46-51 | the rewritten choose and majority formulas are the functions of section 4.1.1 of FIPS 180-4 in every round |
| Sha1Transform.NextWordIsW | libselinux/src/sha1.c:40-44 | the word computed from the 16-word ring is word t of the 80-word message schedule |
| Sha1Transform.RollingStep | libselinux/src/sha1.c:40-44 | storing it back keeps the ring equal to the last 16 schedule words |
| Sha1Transform.MacroIsRound | libselinux/src/sha1.c:47-51 | a macro call with renamed registers is one round of section 6.1.2 of FIPS 180-4 |
| Sha1Transform.R | libselinux/src/sha1.c:47-51 | the macro takes the registers from round t to round t + 1 and advances the ring |
| Sha1Transform.TransformFunction | libselinux/src/sha1.c:59-112 | 80 in-place rounds over rotating variables are the compression function of the standard |
| Sha1Stream.FoldPrefix | libselinux/src/sha1.c:145-180 | blocks already compressed do not depend on the data still to come |
| Sha1Stream.CountAdds | libselinux/src/sha1.c:156-162 | the two 32-bit counters with their carry test add eight times the size modulo 2^64 |
| Sha1Stream.Buffered | libselinux/src/sha1.c:156 | the number of buffered bytes read from the low counter is the length modulo 64 |
| Sha1Stream.CountBytesAreLength | libselinux/src/sha1.c:198-202 | the eight count bytes are the big-endian 64-bit length |
| Sha1Stream.Absorb | libselinux/src/sha1.c:163-179 | after any chunk the registers hold the fold of all full blocks and the buffer the remaining bytes |
| Sha1Stream.HashBlocks | libselinux/src/sha1.c:168-171 | the loop over whole blocks, with its 32-bit index, stops with less than a block left and has folded all the others |
| Sha1Stream.Sha1Context.constructor | libselinux/src/sha1.c:123-137 | a fresh context stands for the empty message |
| Sha1Stream.Sha1Context.Update | libselinux/src/sha1.c:145-180 | the context stands for the old message followed by the chunk |
| Sha1Stream.Sha1Context.PadBlock | libselinux/src/sha1.c:203-207 | the byte loop appends 0x80 and exactly the zeros of the standard padding |
| Sha1Stream.PadSettled | libselinux/src/sha1.c:204 | the loop test is met exactly after the right number of zeros |
| Sha1Stream.Sha1Context.Finalise | libselinux/src/sha1.c:188-214 | the digest is SHA-1 of the message |
| Sha1Stream.ReadDigest | libselinux/src/sha1.c:209-213 | the digest loop gives twenty bytes whose big-endian words are the five registers in order |
| Sha1Stream.HashChunks | libselinux/src/sha1.c:123-214 | however a message is cut into chunks, the digest is SHA-1 of the whole |
| AvcCache.UnlinkLinked | libselinux/src/avc.c:326-334 | unlinking takes one node out of its chain and keeps every other in exactly one place |
| AvcCache.PopFreeLinked | libselinux/src/avc.c:352-355 | the head of the free list leaves it and nothing else moves |
| AvcCache.LinkLinked | libselinux/src/avc.c:362-369 | a node put at the head of its chain is in exactly one place |
| AvcCache.ReleaseLinked | libselinux/src/avc.c:512-520 | a blanked node returns to the free list |
| AvcCache.KeyedIsChained | libselinux/src/avc.c:375-406 | an entry in use is in the chain of its hash, in no other and not in the free list |
| AvcCache.NotEntered | libselinux/src/avc.c:375-406 | a search that comes to nothing means that no node has the key |
| AvcLinks.UnlinkThreaded | libselinux/src/avc.c:326-334 | bridging over a node, in its predecessor or in the head, leaves pointers that follow every chain and the free list without it |
| AvcLinks.PopThreaded | libselinux/src/avc.c:352-355 | moving the free list pointer on leaves pointers that follow every list |
| AvcLinks.LinkThreaded | libselinux/src/avc.c:362-369 | the same of hanging a node at the head of its chain |
| AvcLinks.ReleaseThreaded | libselinux/src/avc.c:516-518 | the same of hanging a node at the head of the free list |
| AvcLinks.AllocatedThreaded | libselinux/src/avc.c:208-219 | the same of each node that initialisation allocates |
| Avc.Avc.ScanSlot | libselinux/src/avc.c:308-318 | following the pointers of a chain, the scan unmarks the nodes it passes and stops at the first unmarked one, with its predecessor in hand |
| Avc.Avc.Sweep | libselinux/src/avc.c:305-320 | one round over all slots finds a node that was unmarked before it, or else every node was marked and now none is |
| AvcEviction.VictimWasUnused | libselinux/src/avc.c:305-320 | a node found in any slot of the round was unmarked when the round began |
| AvcEviction.VictimOrder | libselinux/src/avc.c:305-320 | every node passed before the victim, in the order of the walk, was marked |
| AvcEviction.SecondRound | libselinux/src/avc.c:306-324 | when the first round finds none, the second takes the first node of the first chain that is not empty |
| AvcEviction.NoneLeft | libselinux/src/avc.c:306-324 | two fruitless rounds mean that all chains are empty |
| Avc.Avc.Reclaim | libselinux/src/avc.c:299-335 | the victim is fixed: the first unmarked node in walking order from the hint, or, if every node was marked, the first node of the first chain that is not empty; the hint is the slot of the victim; the second round always finds one in a non-empty cache |
| AvcEviction.ReclaimedLinked | libselinux/src/avc.c:299-335 | eviction takes exactly one node and changes nothing else but marks |
| Avc.Avc.Claim | libselinux/src/avc.c:342-373 | a node holding the entry, from the free list or by eviction; fails exactly for an empty pool; active and free nodes always add up to the pool and the pointers follow the lists |
| Avc.Avc.Search | libselinux/src/avc.c:375-406 | following the pointers finds and marks the first node of the chain with the key, or shows that the cache has none |
| Avc.Avc.Lookup | libselinux/src/avc.c:423-444 | a hit exactly when the first node with the key has decided all that is requested; it is then marked, and every entry stays faithful |
| Avc.Avc.Insert | libselinux/src/avc.c:465-491 | refused exactly for a decision older than the last notice or an empty pool; otherwise the key has a marked entry |
| Avc.Avc.FlushSlot | libselinux/src/avc.c:511-522 | relinking node by node empties one chain into the free list and leaves the others, although the head is cleared only at the end |
| Avc.Avc.Reset | libselinux/src/avc.c:499-540 | no entry is left and all nodes are free |
| Avc.Avc.constructor | libselinux/src/avc.c:163-247 | an empty cache over a pool of at most 410 free nodes and 512 chains |
| Avc.Avc.FindEntry | libselinux/src/avc.c:768-801 | an entry of the key for a caller with any reference, stale ones included, exactly when the server has a current decision; otherwise the result code of asking the server |
| BitMasks.BeyondIsContained | libselinux/src/avc.c:806 | nothing requested lies beyond the allowed bits exactly when each requested bit is allowed |
| BitMasks.IncludesContained | libselinux/src/avc.c:433 | a decision covers a request exactly when each requested bit is decided |
| AvcServer.DeniesMeaning | libselinux/src/avc.c:806 | a decision denies a request exactly when it is empty or some requested bit is not allowed |
| AvcServer.CoversMeaning | libselinux/src/avc.c:433 | a cached decision is used exactly when each requested bit is decided |
| AvcServer.DirectLaw | libselinux/src/avc.c:744-822 | asking the server directly obeys the bitwise law |
| AvcServer.RunLaw | libselinux/src/avc.c:744-822 | so does every query of every run, under the mode, policy and notices in force at that point |
| AvcServer.EntryVerdict | libselinux/src/avc.c:806-818 | the verdict on a faithful entry, widened or not, is the verdict on the decision of the server |
| AvcServer.WidenedFaithful | libselinux/src/avc.c:810-812 | adding the requested permissions where they are not enforced keeps the entry faithful |
| AvcServer.EnforcingNeverWidens | libselinux/src/avc.c:806-818 | in enforcing mode no entry outside a permissive domain allows more than the server does |
| AvcServer.SurvivorWouldGrant | libselinux/src/avc_internal.c:184-191 | an entry widened in permissive mode would grant a denied request if it survived the switch to enforcing: why the notice must flush |
| Avc.Avc.HasPermNoAudit | libselinux/src/avc.c:744-822 | bit by bit: in enforcing mode, outside permissive domains, a request is granted exactly when it is not empty and the server allows every requested bit, and otherwise fails with EACCES; a refusal of the server, a stale answer and an empty pool fail as stated; the result is that of asking the server directly, whatever the cache holds; the decision handed out in that mode is the one of the server; the entry is widened exactly when a denied request is let through; a hit relinks no node |
| Avc.Avc.ComputeCreate | libselinux/src/avc.c:840-888 | the new label, remembered or not, is the one the server gives; afterwards an entry of the key remembers it; a hit relinks no node |
| Avc.Avc.SsReset | libselinux/src/avc.c:1122-1134 | an empty cache and a notification number that never falls |
| Avc.Avc.SetEnforceNotice | libselinux/src/avc_internal.c:177-195 | the mode becomes the announced one unless it is fixed, and only entries that are faithful under the new mode are left |
| Avc.Avc.PolicyLoadNotice | libselinux/src/avc_internal.c:197-213 | after the notice no decision of the old policy is left; the notification number is the larger of the two and the mode stays |
| Avc.Avc.Perform | libselinux/src/avc.c:744-822 | any operation from any valid cache has the outcome of the machine without a cache and keeps the cache valid; a query leaves its caller a reference to an entry of its key, and every other reference stays |
| Avc.Run | libselinux/src/avc.c:744-888 | over every run of queries, label computations, mode switches, policy loads and flushes, with any kept references, every outcome is that of a run without a cache, and every query obeys the bitwise law under the environment at that point |
| LabelIndex.CollapsedClean | libselinux/src/label_file.c:657-671 | a collapsed path has no double slash and a clean path is unchanged |
| LabelIndex.CollapsedRewrites | libselinux/src/label_file.c:657-671 | replacing any double slash by a single one does not change the collapsed path |
| LabelIndex.CollapseSlashes | libselinux/src/label_file.c:657-671 | the segment-copying loop computes the collapsed path |
| LabelIndex.MetaCharacters | libselinux/src/label_file.h:241 | the ten characters that rule a stem out, one by one |
| LabelIndex.SpecStemExactly | libselinux/src/label_file.h:232-245 | an expression has the stem of length n exactly when its first slash behind position 0 is at n and none of the ten characters stands before it |
| LabelIndex.KindsTried | libselinux/src/label_file.c:675-691 | a specification is passed over, with and without the index, when lookup and specification both name a kind of file and not the same; otherwise its expression is tried |
| LabelIndex.FileKind | libselinux/src/label_file.c:675 | the kind of file is the mode without its permission bits |
| LabelIndex.StemMeaning | libselinux/src/label_file.c:33-40 | the stem of a path is t exactly when the path begins with t and a slash |
| LabelIndex.StemOfFileMeaning | libselinux/src/label_file.c:45-60 | the number found for a path is that of the one stem it begins with |
| LabelIndex.CheckWithStem | libselinux/src/label_file.c:684-709 | a specification with a stem is tried only on paths below the stem, on what follows it |
| LabelIndex.StemFilterExact | libselinux/src/label_file.c:684-709 | trying only the rest behind a literal stem agrees with the whole expression on every clean path and mode if and only if the rest never matches without its slash |
| LabelIndex.OptionalSlashMissed | libselinux/src/label_file.c:684-709 | `/usr/?`, whose stored stem is `/usr`, is outside that condition: it matches `/usr`, which the index never tries |
| LabelIndex.IndexedIsBruteForce | libselinux/src/label_file.c:680-717 | for indexable specifications the filtered checks equal trying every whole expression |
| LabelIndex.PartialInsideStem | libselinux/src/label_file.c:674-709 | a partial lookup of a path inside a stem, or at its end, misses the specification, while its whole expression matches partially, or fully if the rest matches the empty text |
| LabelIndex.PartialFilterExact | libselinux/src/label_file.c:674-709 | under partial matching the filter agrees with the whole expression on every clean path outside the stem, for every mode, if and only if the rest behind the stem goes on with a slash |
| LabelIndex.PartialExact | libselinux/src/label_file.c:674-709 | for such a rest the index agrees with the whole expression if and only if the path is not inside the stem or the mode rules the specification out; where it disagrees it misses |
| LabelIndex.PartialIsBruteForce | libselinux/src/label_file.c:680-717 | over a table, the filtered tests of a partial lookup equal trying every whole expression if and only if the path is inside no stem of a specification the mode admits |
| LabelIndex.PartialDecides | libselinux/src/label_file.c:680-717 | the specification that decides without the index decides with it if and only if the path is not inside its stem |
| LabelIndex.UsrMissed | libselinux/src/label_file.c:744-747 | a partial lookup of `/usr` in a table that holds only `/usr/bin` finds nothing, and trying the whole expression finds it |
| LabelIndex.LastMatchUnique | libselinux/src/label_file.c:680-727 | the last-match rule has one answer |
| LabelIndex.SelectCounts | libselinux/src/label_file.h:185-228 | sorting is a permutation |
| LabelIndex.OrderedIdempotent | libselinux/src/label_file.h:185-228 | sorting twice is sorting once |
| LabelIndex.ExactPathsWin | libselinux/src/label_file.h:184-228 | in sorted order a matching exact path is never overridden by a regular expression, nor by an earlier exact path |
| LabelIndex.FileOrderDecides | libselinux/src/label_file.h:184-228 | in terms of the file: after sorting, the last exact path that is no miss decides, and the last such regular expression only if there is none |
| LabelIndex.PartitionCopy | libselinux/src/label_file.h:197-205 | regular expressions in order from the front, exact paths in reverse from the back |
| LabelIndex.TurnTail | libselinux/src/label_file.h:207-222 | swapping from both ends turns exactly the tail around |
| LabelIndex.SavedData.FindStem | libselinux/src/label_file.h:250-262 | the number of the stem, or none is equal |
| LabelIndex.SavedData.StemForSpec | libselinux/src/label_file.h:290-309 | the stem of the specification has a number afterwards; known stems keep theirs, none is stored twice, and none with a meta character is ever stored |
| LabelIndex.HasMetaChars | libselinux/src/label_file.h:143-182 | the flag and the prefix length tell the first meta character that does not stand behind an odd number of backslashes |
| LabelIndex.SavedData.AddSpec | libselinux/src/label_file.h:426-466 | the specification is appended with the stem of its own expression, if it has one, and with the flag and prefix length of its first unescaped meta character; a table in which that holds of every specification stays one, and no stored stem holds a meta character |
| LabelIndex.ReadLines | libselinux/src/label_file.c:490-500 | a table built line by line holds the lines in order, each with the stem of its own expression |
| LabelIndex.LiteralFromText | libselinux/src/label_file.h:290-309 | under the law that literal text in front of a simple expression matches itself, the stems such a table stores are literal to the matcher |
| LabelIndex.TextIsBruteForce | libselinux/src/label_file.c:680-717 | so on such a table the filtered checks of a complete lookup equal trying every whole expression |
| LabelIndex.TextPartly | libselinux/src/label_file.c:680-717 | and those of a partial lookup do exactly for the paths inside no stem |
| LabelIndex.SavedData.SortSpecs | libselinux/src/label_file.h:185-228 | regular expressions first, exact paths after them, both in file order |
| LabelIndex.SavedData.Lookup | libselinux/src/label_file.c:637-731 | the answer is decided by the last specification that does not miss: found, `<<none>>` or an error; with indexable specifications it is the answer of trying every whole expression, for a complete match on every path and for a partial match on every path inside no stem |
| FcontextFile.WriteBinaryFile | libselinux/utils/sefcontext_compile.c:95-255 | the loops write exactly the documented layout |
| FcontextFile.U32RoundTrip | libselinux/utils/sefcontext_compile.c:105-113 | a number survives its four bytes |
| FcontextFile.TextThrough | libselinux/src/label_file.c:283-328 | a written string is read back, whatever follows |
| FcontextFile.BlobThrough | libselinux/src/label_file.c:367-403 | written data is read back, and empty data is refused |
| FcontextFile.StemThrough | libselinux/src/label_file.c:226-248 | a written stem is read back, and an empty stem is refused |
| FcontextFile.StemStored | libselinux/src/label_file.h:250-285 | the number given for a stem stands for its text and earlier numbers are not disturbed |
| FcontextFile.StemsThrough | libselinux/src/label_file.c:221-261 | the map from file numbers to table numbers stands for the same texts, duplicates with the existing table included; reading succeeds exactly when no stem is empty |
| FcontextFile.StemsStoredOnce | libselinux/src/label_file.c:250-261 | loading stores no stem twice and none that neither the file nor the table holds |
| FcontextFile.SpecThrough | libselinux/src/label_file.c:270-406 | a written specification is read back with its stem renumbered, exactly when it has compiled and study data |
| FcontextFile.SpecsThrough | libselinux/src/label_file.c:270-406 | the written specifications are appended in order |
| FcontextFile.HeaderThrough | libselinux/src/label_file.c:168-207 | magic, version and PCRE version written by the same build are accepted |
| FcontextFile.SavedData.StoreStem | libselinux/src/label_file.h:265-285 | the stem is found or appended, and its number returned |
| FcontextFile.SavedData.LoadStems | libselinux/src/label_file.c:221-261 | the loop reads what the format says, or fails; stems of the table keep their numbers |
| FcontextFile.SavedData.LoadSpecs | libselinux/src/label_file.c:270-406 | the loop reads what the format says, or fails; specifications of the table stay |
| FcontextFile.SavedData.LoadMmap | libselinux/src/label_file.c:168-417 | on every byte sequence the loops accept exactly what the format accepts, and then the table is what it says; `AcceptedExactly` says what the format is |
| FcontextFile.RoundTrip | libselinux/src/label_file.c:168-417 | loading a written file onto any table succeeds if and only if no section is empty; it then keeps the table, appends every specification in order and gives each the stem text it had |
| FcontextFile.VersionRoundTrip | libselinux/src/label_file.c:168-417 | the same of the layout of every version: a file is loaded if and only if its version is at most 4 and no section is empty; files before version 4 have no prefix length and get 0, and a file before version 2 has no PCRE version |
| FcontextFile.NewestFile | libselinux/utils/sefcontext_compile.c:95-255 | the layout of version 4 is what the compiler writes |
| FcontextFile.CStringIsPrefix | libselinux/src/label_file.c:283-328 | a stored string is what stands before its first zero byte |
| FcontextGrammar.FileRead | libselinux/src/label_file.c:168-417 | every well-formed file of a version up to 4, followed by anything, is accepted and loaded as it says |
| FcontextGrammar.FileShape | libselinux/src/label_file.c:168-417 | every accepted byte sequence begins with a well-formed file |
| FcontextGrammar.AcceptedExactly | libselinux/src/label_file.c:168-417 | on every byte sequence: it is accepted if and only if it begins with a well-formed file, and then the table is what the file says; no other reading is possible |
| FcontextFile.StemlessFileRefused | libselinux/src/label_file.c:208-211 | a configuration without any stem can be written but never loaded |
| LabelReload.SameCheck | libselinux/src/label_file.c:684-709 | trying a specification depends on the text of its stem and not on its number |
| LabelReload.SameOrder | libselinux/src/label_file.h:185-228 | sorting does not depend on stem numbers |
| LabelReload.SameAnswer | libselinux/src/label_file.c:680-727 | tables that mean the same have the same answer for every path, kind of file and mode of matching |
| LabelReload.LoadedMeans | libselinux/src/label_file.c:168-417 | loading a written table onto another gives a proper stem index again, which means the old table followed by the written one |
| LabelReload.MeansOne | libselinux/src/label_file.c:168-417 | a table by itself means what it holds |
| LabelReload.SortedAlike | libselinux/src/label_file.c:581 | proper tables that mean the same have the same answers after sorting |
| LabelReload.WriteAndLoad | libselinux/src/label_file.c:549-575 | writing tables and loading their files one after the other gives a proper table that means them in turn |
| LabelReload.LookupReloaded | libselinux/src/label_file.c:549-581 | after loading the files of any number of written tables in turn and sorting, every lookup answers as every proper table that means the written ones in turn does |
| CondExpr.PostfixEvaluates | checkpolicy/policy_define.c:3906-3979 | running the postfix list of a tree on any stack pushes the value of the tree, or overflows exactly when the tree needs more room |
| CondExpr.RunsIsHeights | checkpolicy/policy_define.c:3836-3873 | a list runs to one value under every assignment exactly when its heights end at one |
| CondExpr.CheckDepth | checkpolicy/policy_define.c:3836-3873 | the depth loop accepts exactly the lists that a bounded stack machine can run to one value under every assignment, and says too deep exactly when the machine meets a leaf with its stack full |
| CondExpr.StuckAt | checkpolicy/policy_define.c:3836-3873 | a list that gets stuck overflows exactly when it is stuck at a leaf |
| CondExpr.CheckConstraint | checkpolicy/policy_define.c:3431-3468 | a constraint passes exactly when it is the postfix form of a tree of comparisons, and, or and not that holds at most five values at once and, unless it is a validatetrans rule, compares nothing of the target; it is too deep exactly when a comparison is met with five values held |
| CondExpr.FitsIsAllowed | checkpolicy/policy_define.c:3431-3468 | the lists the machine accepts are those constraints |
| CondExpr.SixthIsOverflow | checkpolicy/policy_define.c:3431-3468 | and the lists on which it overflows are those that meet a sixth value |
| CondExpr.AcceptedGrows | checkpolicy/policy_define.c:3836-3873 | every accepted list is the postfix form of a tree, which is constructed |
| CondExpr.PassesIffTree | checkpolicy/policy_define.c:3431-3468 | a list passes exactly when it is the postfix form of a tree that fits the depth limit |
| CondExpr.SameListSameTree | checkpolicy/policy_define.c:3660-3732 | the postfix form determines the tree |
| CondExpr.LastOf | checkpolicy/policy_define.c:3684-3690 | the walk ends at the last node |
| CondExpr.DefineNot | checkpolicy/policy_define.c:3683-3697 | the list in place, followed by a not; still a chain of distinct nodes |
| CondExpr.DefineBinary | checkpolicy/policy_define.c:3698-3728 | the two lists in place, followed by the operator; still a chain of distinct nodes |
| CondExpr.Build | checkpolicy/policy_define.c:3906-3979 | the grammar actions on any expression build its postfix list |
| CondExpr.DefineConditional | checkpolicy/policy_define.c:3807-3873 | empty, too deep and malformed conditionals are told apart exactly at depth 10; a swap of branches with a negated condition keeps the active rules under every assignment |
| CondExpr.ValueOfTree | checkpolicy/policy_define.c:3906-3979 | the value of the list of an expression that fits the depth is the meaning of the expression |
| CondExpr.NotKeepsDepth | checkpolicy/policy_define.c:3824-3832 | adding a not never changes whether the depth check passes |
| CondExpr.NotNegates | checkpolicy/policy_define.c:3824-3832 | adding a not negates the value under every assignment |
| ScopeStack.PathConsecutive | checkpolicy/module_compiler.c:1415-1481 | declarations are met with consecutive ids, each once |
| ScopeStack.Pass1 | checkpolicy/module_compiler.c:1415-1559 | pass 1 accepts exactly the texts with no require in an else branch and one in each optional block of a module, and makes the blocks, ids and path the text determines |
| ScopeStack.Pass2 | checkpolicy/module_compiler.c:1415-1559 | pass 2 over what pass 1 made never violates an assertion and adds to each declaration what the blocks around it require |
| ScopeStack.CloseReplayed | checkpolicy/module_compiler.c:1535-1545 | closing a block in pass 2 adds exactly the requirements of the frames below |
| ScopeStack.TwoPasses | checkpolicy/module_compiler.c:54-103 | both passes meet the same declarations with ids 2, 3 and so on; every closed declaration ends with its own requirements and those of all blocks around it |
| ScopeStack.CompilePolicy | checkpolicy/policy_parse.y:880-887 | the two passes of the compiler: which policies are accepted, and the blocks at the end |
| ScopeStack.ModuleEnds | checkpolicy/policy_parse.y:880-881 | a module needs a require in its global block |
| ScopeStack.GlobalInheritsNothing | checkpolicy/module_compiler.c:1535-1545 | closing the global block in pass 2 changes nothing |
| ScopeStack.Compiler.BeginOptional | checkpolicy/module_compiler.c:1415-1447 | pass 1 makes a block after the last; pass 2 goes to it, or fails its assertion |
| ScopeStack.Compiler.BeginOptionalElse | checkpolicy/module_compiler.c:1456-1481 | pass 1 adds a second declaration; pass 2 goes to it, or fails its assertion |
| ScopeStack.Compiler.CopyRequirements | checkpolicy/module_compiler.c:1483-1529 | adds the requirements of all frames below and of no other |
| ScopeStack.Compiler.EndBlock | checkpolicy/module_compiler.c:1535-1559 | inherits in pass 2; in pass 1 refuses a block without require, except in else branches and optional blocks of a base policy |
| ScopeStack.Compiler.RequireSymbols | checkpolicy/module_compiler.c:606-693 | records what the statement requires in the current declaration, and is refused in an else branch |
| ScopeStack.Compiler.Contents | checkpolicy/policy_parse.y:932-946 | the grammar actions in order have the effect and the failures of the specified parse |
| RoleDominance.RaisedClosed | checkpolicy/policy_define.c:2792-2833 | raising one role above a downward closed set, with the recheck of all roles, keeps dominance reflexive and transitive |
| RoleDominance.RaisedLeast | checkpolicy/policy_define.c:2792-2833 | and adds nothing that reflexivity and transitivity do not force |
| RoleDominance.MergedClosed | checkpolicy/policy_define.c:2750-2789 | the merged temporary role stays downward closed while later definitions change its members |
| RoleDominance.StatementCloses | checkpolicy/policy_define.c:2835-2939 | after a dominance statement the relation is closed, extends the old one and holds all that the statement says |
| RoleDominance.ListCloses | checkpolicy/policy_parse.y:515-524 | the same of a list of definitions, whose merged bits reach every head |
| RoleDominance.StatementLeast | checkpolicy/policy_define.c:2835-2939 | it is the least such relation |
| RoleDominance.ListLeast | checkpolicy/policy_parse.y:515-524 | the same of a list of definitions |
| RoleDominance.HeadsReach | checkpolicy/policy_define.c:2750-2789 | the merged bits hold nothing beyond what dominating the heads forces |
| RoleDominance.RoleTable.DefineRoleDom | checkpolicy/policy_define.c:2899-2931 | the recheck loop gives the raised relation, whatever the order in which the hash table is walked |
| RoleDominance.RoleTable.Statement | checkpolicy/policy_parse.y:520-524 | the actions of a nested statement in place have the specified effect |
| RoleDominance.RoleTable.Statements | checkpolicy/policy_parse.y:515-519 | the actions of a list in place have the specified effect and merged bits |
| RoleDominance.AskedExactly | checkpolicy/policy_define.c:2792-2833 | the least closed relation with the edges of all statements is their reachability |
| RoleDominance.Policy | checkpolicy/policy_parse.y:505-524 | over all statements of a policy, whatever the order of the role table: in the end a role dominates another exactly when the statements lead from the one to the other |
| RecordList.PrependMirrored | libsemanage/src/database_llist.c:37-68 | linking a new head keeps both directions of the list consistent |
| RecordList.UnlinkMirrored | libsemanage/src/database_llist.c:286-295 | bridging over a node keeps both directions of the list consistent, at either end too |
| RecordList.List.Prepend | libsemanage/src/database_llist.c:37-68 | the record becomes the first |
| RecordList.List.Locate | libsemanage/src/database_llist.c:102-126 | the first entry of the key, or none |
| RecordList.List.Query | libsemanage/src/database_llist.c:231-251 | the record of the first entry of the key, or none |
| RecordList.List.Add | libsemanage/src/database_llist.c:148-164 | the record becomes the first, even beside another of the same key |
| RecordList.List.Set | libsemanage/src/database_llist.c:166-192 | replaces the first record of the key, and fails exactly when there is none |
| RecordList.List.Modify | libsemanage/src/database_llist.c:194-220 | replaces the first record of the key or prepends it |
| RecordList.List.Delete | libsemanage/src/database_llist.c:279-308 | takes out the first record of the key and no other; the list is marked modified exactly then |
| RecordList.List.Clear | libsemanage/src/database_llist.c:310-335 | no record is left |
| RecordList.List.ToSeq | libsemanage/src/database_llist.c:337-379 | walking from the tail lists all records in reverse |
| RecordList.AsMapAt | libsemanage/src/database_llist.c:102-126 | the first entry of a key is the one a map would hold |
| RecordList.ModifiedRefines | libsemanage/src/database_llist.c:194-220 | on distinct keys it is a map update |
| RecordList.SetRefines | libsemanage/src/database_llist.c:166-192 | on distinct keys it is a map update of a present key |
| RecordList.DeletedRefines | libsemanage/src/database_llist.c:279-308 | on distinct keys it is a map removal |
| RecordList.Run | libsemanage/src/database_llist.c:166-335 | over every run of modify, set, delete and clear the list stays free of duplicate keys and holds what a finite map would |
| RecordJoin.SortedMembers | libsemanage/src/database_join.c:79-83 | sorting is a permutation, strictly ascending on distinct keys |
| RecordJoin.MergeIsOuterJoin | libsemanage/src/database_join.c:86-140 | merging two ascending lists is their full outer join by key, in ascending order |
| RecordJoin.MergeInto | libsemanage/src/database_join.c:86-140 | the three-way loop with its cursors computes the merge |
| RecordJoin.JoinedHalves | libsemanage/src/database_join.c:73-140 | for lists in any order with distinct keys, list, sort and merge give the full outer join |
| RecordJoin.JoinCache | libsemanage/src/database_join.c:37-166 | the cache of the joined database is the full outer join of its children, and counts as unmodified |
| RecordJoin.JoinFlush | libsemanage/src/database_join.c:169-236 | a modified database replaces its children by the split halves of its records, in order; an unmodified one leaves them |
| RecordJoin.SortedFirsts | libsemanage/src/database_join.c:191-228 | splitting and sorting commute |
| RecordJoin.MergeHalves | libsemanage/src/database_join.c:86-140 | merging the two halves of a list pairs each half with its own other half |
| RecordJoin.FlushThenCache | libsemanage/src/database_join.c:37-236 | flushing and caching again gives back the records in key order if and only if joining undoes splitting for each |
| RecordJoin.FlushAndCache | libsemanage/src/database_join.c:37-236 | the two operations in turn on a modified database do so if and only if joining undoes splitting |
| RecordJoin.UsersSurvive | libsemanage/src/user_record.c:309-398 | for the users table it always does |
| RecordJoin.UserHalves | libsemanage/src/user_record.c:309-356 | a user exists exactly for the names of either list; it has the base half listed for it or a blank one, and the extra half listed for it or the prefix user |
| RecordJoin.CacheUsers | libsemanage/src/user_record.c:309-356 | caching the users database gives, in ascending order, exactly those users |
| StatusPage.InvStep | libselinux/src/sestatus.c:131-157 | every step of the writer or the reader keeps the invariant: an even sequence means committed fields |
| StatusPage.InvAlways | libselinux/src/sestatus.c:59-78 | it holds in every state of every run |
| StatusPage.Linearizable | libselinux/src/sestatus.c:131-225 | in every interleaving in which the sequence moves by less than 2^32 during a call, the value returned is, getter by getter, what the committed enforcing flag, deny_unknown flag or policy load count was at some moment during the call |
| StatusPage.WrapFails | libselinux/src/sestatus.c:131-157 | with a move of exactly 2^32 a call can return a value that was never committed |
| StatusPage.SafeExactlyBelow | libselinux/src/sestatus.c:131-225 | every call in which the sequence moves by less than n returns a committed value if and only if n is at most 2^32 |
| StatusPage.Status.Updated | libselinux/src/sestatus.c:88-123 | an error exactly when the status is closed or the notices cannot be received; otherwise yes exactly when an earlier call saw another sequence |
| StatusPage.MappedCalls | libselinux/src/sestatus.c:88-123 | over any run of calls, a call answers yes exactly when the sequence changed since the call before it |
| StatusPage.DoubledDiffer | libselinux/src/sestatus.c:230-244 | two counts of notices have the same 32-bit sequence exactly when they differ by a multiple of 2^31 |
| StatusPage.FallbackRun | libselinux/src/sestatus.c:88-123 | over any run of notices and calls, a call answers yes exactly when the notices since the call before it are not a multiple of 2^31 |

## Left out

- IoctlRanges.ReadIoctls: does not take token queues the grammar cannot produce (a dash without numbers, or no number at all), for which the source dereferences a null or missing node.
- Sha1Stream.Sha1Context.Update: does not take a chunk for which buffered bytes plus size reach 2^32; there the 32-bit comparison of the source wraps and the copy runs past the 64-byte buffer.
- Sha1Stream.HashChunks: does not take such a chunk either.
- Sha1Stream.Absorb: does not take such a chunk either.
- Sha1Stream.HashBlocks: does not take such a chunk either.
- Sha1Transform.TransformFunction: does not model a big-endian machine, and folds the 80 unrolled macro calls into a loop of five calls.
- IoctlCompile.FuncPerms: does not say which of the first 32 functions a list with an inverted range gets, since such a list only arises from a text outside the condition.
- The ioctl range lists are sequences, so the relinking of their nodes is not modelled.
- Avc.Avc.Reset: does not model the callbacks registered for a reset, their return code, nor the statistics it clears.
- Avc.Run: does not model the moment between the policy load in the kernel and the arrival of its notice, nor a second thread between a flush and the new notification number.
- LabelIndex.SavedData.Lookup: does not take the empty path, for which the source steps past the end of the string.
- LabelIndex.StemFilterExact: does not cover specifications whose stem is not literal to the matcher, such as a stem with a backslash or an expression with a top-level alternative behind its stem.
- LabelIndex.LiteralFromText: does not cover a stem with a backslash or a closing parenthesis, nor a rest with a top-level alternative, an anchor or an extended group.
- LabelIndex.SavedData.AddSpec: does not model reading the fields of a line, the type field, or discarding by prefix.
- FcontextFile.WriteBinaryFile: does not model a regular expression for which PCRE returns no study block; the source follows a null pointer there.
- FcontextFile.SavedData.LoadMmap: does not model context validation, the digest, or the file lookup by name and time stamp.
- LabelIndex.PartialFilterExact: does not cover such specifications either, nor a matcher that looks behind the start of the text it is given.
- LabelReload.LookupReloaded: does not model the compiled regular expressions in the file; both tables match by the text of the expression.
- CondExpr.CheckConstraint: does not model the names, users, roles and types inside a leaf.
- CondExpr.DefineConditional: does not model the normalisation and the merging of equal conditions done in libsepol.
- ScopeStack.Compiler.RequireSymbols: does not model the symbol tables, so which symbols a statement records is given, and a require of a symbol declared elsewhere is not refused.
- RoleDominance.RoleTable.DefineRoleDom: does not model the types that a dominating role gathers, nor the creation of a role.
- RecordList.List.Delete: does not model freeing the removed entry, and takes the neighbours from the entry itself.
- RecordJoin.JoinCache: does not model resynchronisation by serial numbers, and takes qsort as insertion by key, since equal keys do not occur in a child.
- StatusPage.Linearizable: does not model memory reordering.
- The bucket function of the access vector cache is a parameter, as is the answer of the security server for a key; the permissions asked for do not influence that answer.
- Pointers of the access vector cache are node numbers, and those of the record list are numbers into a memory map.
- Auditing, statistics, the security id table and the grant and revoke entry points of the access vector cache.
- Memory exhaustion, except for the size of the node pool of the access vector cache.
- Regular expressions: the matcher and the sizes of its compiled data are parameters.
- The compiled file is taken as little-endian, with four-byte modes.
- The best-match lookup and the duplicate check of file contexts.
- The reading of netlink messages, extended attributes, signals and all other input and output.
- libsepol, secilc and the CIL compiler, policy linking and expansion, restorecond, mcstrans and the Python tools.
- Policy statements other than ioctl rules, conditionals, constraints, dominance, require and optional.

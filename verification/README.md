# Verification of the package index and the dependency resolver

A Dafny model of the parts of this repository that index packages, order versions, hash keys, hand
requests to worker threads and resolve dependencies, with proofs about them. `dafny verify
dfyconfig.toml` checks all of it.

The model has the form of the code: tables, maps, packages, the index, the queue, selected ebuilds and
the resolver are classes whose methods relink nodes and update fields; each method is proved against
a function or a map, and what the code is for is proved about those. Values (versions, atoms,
flag lists, expressions) are datatypes. The server is a state machine over the steps of its threads.

| module | what it models |
|---|---|
| `Luts`, `LutRuns`, `GlobalFlags` | the lookup table with permanent ids; any run of insertions; interning of use-flag names |
| `Murmur`, `MurmurNumbers`, `MurmurValues` | the hash with its 32-bit arithmetic; the same on numbers modulo 2^32; its values for short inputs |
| `WordNumbers`, `KeyHashes` | 32-bit words as numbers; the hash as the tables use it |
| `Digits`, `AtomVersions`, `AtomParsing` | version components, comparison, and the cutting of version and atom strings |
| `LetteredVersions`, `VersionSpecification` | versions with letters; the order of the Package Manager Specification and where the comparison leaves it |
| `Packages`, `Portages` | the sorted list of a package's ebuilds and its search; the index of a repository |
| `HashMaps` | the second hash table, whose count drifts |
| `Queues`, `WorkerPool` | the request queue; acceptor, workers and stopping thread |
| `WorkerProgress`, `WorkerStops` | what the threads can always get done; what a stop leaves behind |
| `RequiredUses`, `AtomFlags`, `UseFlags` | REQUIRED_USE; flag lists of atoms; scheduled flags and the hooks that watch them |
| `EbuildMetadata`, `Resolver` | what a cache file says; selection, regeneration and sessions |

The modules build on each other. The index is a `Lut` of packages, and its theorem (`Portage.MatchAtom`)
rests on permanent, distinct ids, on the version order and on the sorted list. The resolver selects by
`AtomMatches` and assumes of the index what `RepositoryIsReliable` proves of it. Its hooks run the evaluator
of `RequiredUses`, and that registered expressions survive new flags is `JudgeAllStable`.

The theorems about sorted lists and newest matches are for the versions of one family under a key
(`InFamily`): digit-only ones, with one to nine digits and one of the six prefixes in every component, or ones of
equally many components with letters on the last. The atom may have any version that fits the buffers.
Comparison itself, parsing and insertion are modelled for all such versions, and `LetteredVersions` says where
letters leave an order.

The resolver's theorems start from an index of which no cache file has been read, with a cache file for each
ebuild, and with an index that is reliable (`Reliable`) for every atom in those files and every atom asked
for. Everything follows for all states reached from there: a package never gets a second selected ebuild, so
that changing one within its slot, splitting a slot and the iteration that does not end never come up.

## What the code does otherwise than it says

* `=cat/pkg-1` misses version 1 if a newer one heads the list: the guard of the short circuit tests
  for too new where its comment says too old (`autogentoo/cportage/package.c:121`; `SearchForOneExact`,
  `SearchForOneIsGlobal`, `EqualIsMissed`).
* `~cat/pkg-1` matches no other revision of version 1: the bit for it is looked at nowhere
  (`autogentoo/cportage/portage.h:50`; `AnyRevisionExactly`).
* Versions with a letter are not ordered in general: 13b < 12.5 < 13 < 13b
  (`autogentoo/cportage/atom.c:446`; `LettersBreakTheOrder`, `TurnsRoundExactly`, `CycleExactly`).
* The order is not that of section 3.3 of the Package Manager Specification: `1.2_alpha1` ranks above `1.2`,
  `1.2_p1` above `1.2.3`, and a leading zero in the first component or in the number of a suffix tells apart
  what is specified equal (`AgreesExactly`, `FirstDifferenceDecides`).
* An atom parsed before its key is indexed keeps an id that may go to another key (`EarlyIdExactly`).
* The rank in an id has 16 bits; with 65536 keys of one hash it repeats (`NextIdFresh`).
* A REQUIRED_USE conditional counts as guard and terms; the branch for a guard that is not met
  cannot be reached (`autogentoo/portage/resolve.py:254`; `HoldsExactly`, `UnmetGuardRejected`).
* A use requirement schedules its change, but its hook is run on the state before it. So on a flag that shows,
  `[x]` and `[-x]` succeed only where it is on or off already, and `[!x=]` never does (`AddUseRequirement`); no
  flag that shows is ever changed (`Resolver.Emerge.GetResolved`). `?` and `=` are judged by the selected ebuild's
  own state; the parent's is not looked at.
* Requirements are made before the cache file of a newly selected ebuild is read, so its declared flags do not
  show: `[x]` turns a flag declared off on, `[x?]` turns one declared on off, and `[-x]` fails on one declared
  off (`DeclaredFlagsMisjudged`, `JudgedAsDeclaredExactly`, `Resolver.Emerge.ResolveAtom`).
* The attribute for the default of a flag shows the field of its option
  (`autogentoo/cportage/atom.c:591`). So `[x]` adds a flag that does not show and switches it on, `[x?]`
  adds it off, and the other four fail (`MissingFlagExactly`). A written default, `(+)` or `(-)`, stays in the
  name (`DefaultIsLost`, `DefaultNamesTheFlag`), and the verdict is the one it calls for only where option and
  default happen to meet (`DefaultVerdictExactly`).
* While the cache file of the chosen ebuild has not been read its slot is unknown; if its package is selected
  and the selected ebuild does not pass, the dependency is dropped (`MatchSelected`). No package ever gets a
  second slot (`ChosenOrDropped`, `DependencyIsDropped`).
* Iterating over a package yields its second newest ebuild for ever (`autogentoo/cportage/ebuild.c:350`), and
  changing an ebuild within its slot does not look at the new atom: it may return an ebuild that does not match
  or never return (`ChangeMayNotPass`, `ChangeMayNotEnd`, `NeverEndsExactly`). The branch is dead as long as the
  index is reliable and only the resolver reads cache files.
* The map's count is added once more at each growth and not lowered by removal (`Map.Realloc`, `Map.Remove`).
* `keep_alive` is read before the lock is taken, so a stop can be waited for in vain
  (`autogentoo/network/tcp_server.c:87`; `SleepAfterStopExactly`, `StopWaitsForever`).
* A version prefix is recognised by its length only (`autogentoo/cportage/atom.c:274`; `NameDecidesExactly`).

## Model

| member | source | states |
|---|---|---|
| Luts.Lut.constructor | autogentoo/hacksaw/lut.c:107-117 | a new table is well formed and empty |
| Luts.Lut.FindKey | autogentoo/hacksaw/lut.c:226-241 | the walk ends at the node of the key, or has counted, modulo 65536, the nodes of the chain with the key's hash |
| Luts.Lut.GetId | autogentoo/hacksaw/lut.c:217-249 | a known key gets the id it has; a new one the hash with the number of keys that share it, and no node is touched |
| Luts.Lut.FindId | autogentoo/hacksaw/lut.c:207-212 | the node with the id, or proof that the chain has none |
| Luts.Lut.GetKey | autogentoo/hacksaw/lut.c:193-203 | the key of the id, and nothing exactly if no key has it |
| Luts.Lut.Get | autogentoo/hacksaw/lut.c:205-215 | the data of the one key that has the id, and nothing exactly if no key has it |
| Luts.Lut.Append | autogentoo/hacksaw/lut.c:84-89 | the node is linked behind the last one of its bucket; every other bucket stays |
| Luts.Lut.Place | autogentoo/hacksaw/lut.c:82-97 | placing a node keeps every node in the bucket of its hash and every bucket in order of arrival |
| Luts.Lut.MoveChain | autogentoo/hacksaw/lut.c:72-100 | moving a chain, with `next` read before it is cut, leaves all its nodes placed behind those placed before |
| Luts.Lut.MoveAll | autogentoo/hacksaw/lut.c:70-101 | the rehash loop with its early stop places every node of the old table, and the stop drops none |
| Luts.Lut.Realloc | autogentoo/hacksaw/lut.c:58-105 | a rehash changes neither the contents, nor any id, nor the count |
| Luts.Lut.Reserve | autogentoo/hacksaw/lut.c:129-130 | before a node is added the table is below its threshold; it has grown to four times its size exactly if one node more would have reached the threshold |
| Luts.Lut.AddNode | autogentoo/hacksaw/lut.c:144-160 | one more entry, with the next free rank of its hash |
| Luts.Lut.Overwrite | autogentoo/hacksaw/lut.c:161-190 | only the data of that key changes, and its id stays |
| Luts.Lut.InsertId | autogentoo/hacksaw/lut.c:127-191 | the new contents are the old ones with the entry added or its data replaced, and the new size is exact |
| Luts.Lut.Insert | autogentoo/hacksaw/lut.c:119-125 | as for a plain map from keys to (id, data), the id returned is the one stored, and the new size is exact |
| Luts.FilterOfBucket | autogentoo/hacksaw/lut.c:53-56 | among the nodes of a bucket, those of a hash are all of that hash if it belongs there, else none |
| Luts.FlattenPermutes | autogentoo/hacksaw/lut.c:70-101 | walking the buckets of a table visits every node exactly once |
| Luts.RehashKeepsHashes | autogentoo/hacksaw/lut.c:70-101 | walking the buckets visits the nodes of one hash in the order in which they were inserted |
| Luts.ReorderedByBuckets | autogentoo/hacksaw/lut.c:70-101 | ids, ranks and contents survive the reordering that a rehash causes |
| Luts.CoherentExtended | autogentoo/hacksaw/lut.c:159-159 | a node with the next rank keeps ranks 0, 1, ... in order within its hash |
| Luts.IdsDistinct | autogentoo/hacksaw/lut.c:246-247 | two nodes with one id are one node |
| LutRuns.RunWellRanked | autogentoo/hacksaw/lut.c:119-249 | after any run of insertions: ids are the hash and a rank, no two keys share an id, and the ranks of each hash are exactly 0 .. m-1 |
| LutRuns.InjectiveAfter | autogentoo/hacksaw/lut.c:127-191 | an insertion keeps ids pairwise distinct |
| LutRuns.ExactAfter | autogentoo/hacksaw/lut.c:220-247 | an insertion keeps the ranks of each hash without gaps |
| LutRuns.IdsPermanent | autogentoo/hacksaw/lut.c:161-190 | once a key has an id, no run of insertions changes it |
| LutRuns.LastDataWins | autogentoo/hacksaw/lut.c:173-186 | a key's data is what was inserted for it last |
| LutRuns.NextIdFresh | autogentoo/hacksaw/lut.c:220-247 | the id computed for a new key is unused if and only if fewer than 65536 keys share its hash |
| GlobalFlags.UseGetGlobal | autogentoo/cportage/use.c:44-66 | a known name changes nothing and gets its id; a new one is added with a fresh, disabled flag; no name gives 0 |
| GlobalFlags.AnswerStays | autogentoo/cportage/use.c:44-66 | what was answered for a name is its id ever after |
| GlobalFlags.AskedWellRanked | autogentoo/cportage/use.c:44-66 | the table that any sequence of asks builds is well ranked |
| GlobalFlags.InterningIsInjective | autogentoo/cportage/use.c:44-66 | two asks, at any two times, are answered alike if and only if they are for one name |
| Murmur.MapGetHash | autogentoo/hacksaw/map.c:178-229 | the loop, the tail and the finishing steps compute `Hash`; `MurmurNumbers.HashIsNumber` says which number that is |
| Murmur.BitInverses | autogentoo/hacksaw/map.c:197-201 | the rotations and the shift-xors have inverses |
| Murmur.ProductInverses | autogentoo/hacksaw/map.c:196-202 | the multiplications by odd constants, and times five plus a constant, have inverses modulo 2^32 |
| Murmur.MixInverse | autogentoo/hacksaw/map.c:196-198 | mixing a block is a bijection of 32-bit words |
| Murmur.AbsorbInverse | autogentoo/hacksaw/map.c:200-202 | absorbing a block is a bijection of the state |
| Murmur.FinishInverse | autogentoo/hacksaw/map.c:222-226 | the finishing steps are a bijection of 32-bit words |
| Murmur.PackedInjective | autogentoo/hacksaw/map.c:206-213 | tails of equal length that pack to one word are equal |
| Murmur.DifferenceSurvives | autogentoo/hacksaw/map.c:192-203 | a difference between two states survives any number of further blocks that agree |
| Murmur.OneBlockShows | autogentoo/hacksaw/map.c:178-229 | inputs of equal length that differ in exactly one block have different hashes, at any length |
| Murmur.TailShows | autogentoo/hacksaw/map.c:178-229 | inputs of equal length that differ only behind the last block have different hashes |
| MurmurNumbers.HashIsNumber | autogentoo/hacksaw/map.c:178-229 | for every input below 2^32 bytes the hash is the word of the number that the published algorithm gives in arithmetic modulo 2^32: sums, products, quotients by powers of two and exclusive-or digit by digit, without operations on words |
| MurmurNumbers.OneNumberForEach | autogentoo/hacksaw/map.c:178-229 | two hashes are equal if and only if those numbers are |
| MurmurNumbers.BlockWord | autogentoo/hacksaw/map.c:192-194 | a block is the sum of byte j times 256^j |
| MurmurNumbers.StateWord | autogentoo/hacksaw/map.c:187-203 | the state after any number of blocks is that of the algorithm on numbers, multipliers and addend in the order of the code |
| MurmurNumbers.WithTailWord | autogentoo/hacksaw/map.c:204-218 | so is the state after the tail of up to three bytes |
| MurmurNumbers.FinishedWord | autogentoo/hacksaw/map.c:222-226 | so is the hash after the finishing steps |
| MurmurValues.ValueOfNothing | autogentoo/hacksaw/map.c:180-181 | no input: 0 |
| MurmurValues.ValueOfA | autogentoo/hacksaw/map.c:178-229 | `a`: the published 0x3c2569b2 |
| MurmurValues.ValueOfAb | autogentoo/hacksaw/map.c:178-229 | `ab`: 0x9bbfd75f |
| MurmurValues.ValueOfAbc | autogentoo/hacksaw/map.c:178-229 | `abc`: 0xb3dd93fa |
| MurmurValues.ValueOfAbcd | autogentoo/hacksaw/map.c:178-229 | `abcd`: 0x43ed676a |
| MurmurValues.ValueOfAbcde | autogentoo/hacksaw/map.c:178-229 | `abcde`: 0xe89b9af6 |
| KeyHashes.NeighboursApart | autogentoo/hacksaw/lut.c:219-219 | keys of equal length that differ in one block only, or in the tail only, have different hashes |
| KeyHashes.NeighboursIds | autogentoo/hacksaw/lut.c:219-247 | in a table of such keys every id is just the hash, so ids do not depend on the order of insertion |
| KeyHashes.HashOfGcc | autogentoo/hacksaw/lut.c:219-219 | the key `sys-devel/gcc` has the hash 0xd0759218 |
| KeyHashes.NewPortage | autogentoo/cportage/portage.c:29-30 | the index with the real hash starts empty and well formed, with 512 buckets |
| AtomVersions.PadInto | autogentoo/cportage/atom.c:472-478 | the buffer holds the digits, filled up with zeros to the common length, and its terminator |
| AtomVersions.CompareNumbers | autogentoo/cportage/atom.c:458-484 | the difference of the integers, or of the padded digit strings |
| AtomVersions.CompareRound | autogentoo/cportage/atom.c:425-493 | one turn of the loop: prefix, letters, numbers, star, suffix, in this order |
| AtomVersions.AtomVersionCompare | autogentoo/cportage/atom.c:415-502 | the loop over both lists, the longer list, and the revisions compute `Compare` |
| AtomVersions.FitsSuffices | autogentoo/cportage/atom.c:466-478 | components that fit keep every padding inside its buffer |
| Digits.PaddedOrder | autogentoo/cportage/atom.c:464-481 | padding two components to their own longer length orders them as padding both to nine digits does |
| AtomVersions.NumberOrder | autogentoo/cportage/atom.c:458-484 | integer comparison and padded comparison, whichever is taken, agree with one fixed order, and the difference stays within 32 bits |
| AtomVersions.FollowsSpecification | autogentoo/cportage/atom.c:458-487 | the sign is that of Algorithm 3.3 of the Package Manager Specification |
| Digits.SpecifiedOrder | autogentoo/cportage/atom.c:458-487 | Algorithm 3.3 itself (strip trailing zeros and compare as text, or compare as integers) is that one order |
| Digits.StrtolReads | autogentoo/cportage/atom.c:458-484 | the digits in front are read, whatever stands behind them, and the largest long integer from there on |
| AtomVersions.RevisionBreaksTies | autogentoo/cportage/atom.c:501-501 | digit-only versions compare as 0 if and only if they do without their revisions and the revisions are equal |
| AtomVersions.RoundOrder | autogentoo/cportage/atom.c:425-493 | a turn decides exactly if prefix or number differ, and then by their order |
| AtomVersions.Reflexive | autogentoo/cportage/atom.c:415-502 | a digit-only version compares as 0 with itself |
| AtomVersions.Antisymmetric | autogentoo/cportage/atom.c:415-502 | exchanging the arguments exchanges the sign, with a star on one side too; the result is within 32 bits |
| AtomVersions.Monotone | autogentoo/cportage/atom.c:415-502 | transitivity, across triples of which some pairs compare as integers and others padded to different lengths |
| AtomVersions.TotalPreorder | autogentoo/cportage/atom.c:415-502 | on digit-only versions the comparison is a total preorder, strict parts included |
| AtomVersions.LettersBreakTheOrder | autogentoo/cportage/atom.c:445-454 | outside digit-only versions it is no order: 13b < 12.5 < 13 < 13b, and 1a_p1 is below itself |
| LetteredVersions.SelfCompareExactly | autogentoo/cportage/atom.c:445-449 | any version without stars compares as 0 with itself if and only if no component but the last ends in a letter, and otherwise as -1 |
| LetteredVersions.TurnsRoundExactly | autogentoo/cportage/atom.c:445-493 | for components of digits with or without a letter, and stars on one side: turning the arguments round negates the result if and only if no turn before the decision has equal prefixes, letters and successors on both sides; otherwise both results are -1 |
| LetteredVersions.TurnsAgainstPattern | autogentoo/cportage/atom.c:445-493 | against a version without letters it always does |
| LetteredVersions.FamilyPreorder | autogentoo/cportage/atom.c:415-502 | a total preorder within each family |
| LetteredVersions.FamilyMonotone | autogentoo/cportage/atom.c:415-502 | moving up within a family moves the verdict up, against a starred version too |
| LetteredVersions.CycleExactly | autogentoo/cportage/atom.c:445-493 | a letter on the last component closes a cycle with digit-only versions if and only if the number in front of it is not zero |
| LetteredVersions.LetteredPreorder | autogentoo/cportage/atom.c:415-502 | among versions of equally many components with letters on the last one only, all lettered or none with a leading zero there, it is a total preorder |
| LetteredVersions.LeadingZeroBreaksTheOrder | autogentoo/cportage/atom.c:458-482 | without that condition it is not: 1a < 01b < 1 < 1a |
| LetteredVersions.StrtolOfLettered | autogentoo/cportage/atom.c:460-481 | reading stops at the letter, and padding behind it makes no difference |
| LetteredVersions.TailNumbers | autogentoo/cportage/atom.c:458-484 | such last components compare by their numbers |
| VersionSpecification.WalkIsSpecified | autogentoo/cportage/atom.c:415-502 | Algorithms 3.1 to 3.7 of the Package Manager Specification, written as they stand, are one walk over the components |
| VersionSpecification.NumbersAlikeExactly | autogentoo/cportage/atom.c:458-487 | two numbers compare as integers do if and only if no padding shows: with a leading zero on one side, the shorter one padded must not pass the longer one |
| VersionSpecification.AlikeExactly | autogentoo/cportage/atom.c:425-487 | the comparison and the specification see two components alike if and only if no `p` meets a numeric one and no padding shows where integers are asked for |
| VersionSpecification.AgreesExactly | autogentoo/cportage/atom.c:415-502 | the comparison has the sign of the specified order if and only if they agree at the first component that one of them tells apart, or the one that does not comes to the same later |
| VersionSpecification.FirstDifferenceDecides | autogentoo/cportage/atom.c:415-502 | without leading zeros: if and only if at the first difference neither a `p` meets a numeric component nor an end a pre-release suffix |
| VersionSpecification.PreReleaseIsAbove | autogentoo/cportage/atom.c:496-499 | 1.2_alpha1 compares above 1.2 and is specified below it |
| VersionSpecification.PatchIsAboveNumber | autogentoo/cportage/atom.c:425-426 | 1.2_p1 compares above 1.2.3 and is specified below it |
| VersionSpecification.LeadingZeroTellsApart | autogentoo/cportage/atom.c:458-482 | 01 compares below 1, and 1_p01 below 1_p1; they are specified equal |
| AtomVersions.Wildcard | autogentoo/cportage/atom.c:431-490 | a starred version of k components compares as 0, on either side, exactly with the versions whose first k components agree |
| AtomParsing.AtomVersionInit | autogentoo/cportage/atom.c:229-315 | the loop that cuts the string in place computes `ParseVersion`; an unknown prefix leaves what has been read so far |
| AtomParsing.PrefixExactly | autogentoo/cportage/atom.c:263-288 | a component is read with a prefix exactly if its letters are as many as those of the prefix, and not at all exactly if they are more than five |
| AtomParsing.NameDecidesExactly | autogentoo/cportage/atom.c:272-279 | the name of a prefix decides exactly if the letters are that name or of another length |
| AtomParsing.WrongNameIsRead | autogentoo/cportage/atom.c:272-279 | `foo1` is read as `pre1` |
| AtomParsing.PartsRoundTrip | autogentoo/cportage/atom.c:255-311 | components written with any mixture of dots, underscores and dashes are read back |
| AtomParsing.PartsThen | autogentoo/cportage/atom.c:255-311 | whatever stands behind written components and a separator is read after them |
| AtomParsing.UnknownPrefixStops | autogentoo/cportage/atom.c:281-288 | a component with an unknown prefix ends the reading, and what stands before it is kept |
| AtomParsing.WordIsKept | autogentoo/cportage/atom.c:263-268 | a component without a digit is kept whole, without a prefix |
| AtomParsing.CutAtLastDash | autogentoo/cportage/atom.c:248-253 | a revision is cut off at the last dash exactly if an `r` is behind it, and is the number behind that, wrapped to 32 bits |
| AtomParsing.VersionRoundTrip | autogentoo/cportage/atom.c:229-315 | a written version, with or without a revision, is read back |
| AtomParsing.AtomRoundTrip | autogentoo/cportage/atom.c:354-404 | category, name and version of a written atom are split where they were joined, with a revision too; `SplitExactly` has the atoms without a version |
| AtomParsing.AtomInit | autogentoo/cportage/atom.c:354-404 | there is no atom exactly if there is no slash; otherwise category, name and version are those written, the key is joined from the first two, and the version is read |
| AtomParsing.SplitExactly | autogentoo/cportage/atom.c:354-404 | for every text and all parts: they are what the text is cut into if and only if the text is the category, a slash, the name, and a dash and the version, where the category has no slash, a version starts with a digit and has no dash but one before `r` and a digit, and a name without a version has none at its end |
| AtomParsing.SplitFailsExactly | autogentoo/cportage/atom.c:355-361 | no parts exactly if there is no slash |
| AtomParsing.VersionDashExactly | autogentoo/cportage/atom.c:367-392 | the two searches from the end find the dash before the version, and there is at most one such |
| AtomParsing.NameRoundTrip | autogentoo/cportage/atom.c:367-404 | `gcc`, `gcc-config`, `gcc-r1`: a name without a dash, or with neither a digit nor `r` and a digit behind its last dash, or with the latter and no version before, is split off whole |
| AtomParsing.WholeRoundTrip | autogentoo/cportage/atom.c:354-404 | an atom whose version is written from components, with a revision or not, is read back whole |
| Packages.Package.constructor | autogentoo/cportage/package.c:48-61 | a new package is well formed and empty |
| Packages.Package.AddEbuild | autogentoo/cportage/package.c:48-99 | an ebuild that is in a package is refused and nothing changes; any other is linked in at its place, and the chain stays acyclic |
| Packages.Package.IsNewer | autogentoo/cportage/package.c:75-79 | the loop stops at the first ebuild that is older than the new one |
| Packages.Package.LinkAt | autogentoo/cportage/package.c:84-97 | the two assignments link the ebuild between `last` and `current` |
| Packages.Package.MatchAtom | autogentoo/cportage/package.c:101-127 | the cursor loop computes `Search` |
| Packages.AddedNewestFirst | autogentoo/cportage/package.c:67-82 | insertion keeps a list of one family newest first |
| Packages.AddedStable | autogentoo/cportage/package.c:75-79 | insertion puts an ebuild behind those of equal version |
| Packages.AddedPermutes | autogentoo/cportage/package.c:84-95 | insertion loses and repeats nothing |
| Packages.AddedAllOrder | autogentoo/cportage/package.c:48-99 | any sequence of additions of one family, digit-only or lettered on the last of equally many components: newest first, a permutation of what was added, and equal versions in order of addition |
| Packages.SearchIsFirst | autogentoo/cportage/package.c:110-124 | with less-than or greater-than in the range the short circuit skips no match |
| Packages.SearchFindsNewest | autogentoo/cportage/package.c:101-127 | for an atom of any version the short-circuit walk finds a newest match, and nothing exactly if there is none |
| Packages.EqualIsMissed | autogentoo/cportage/package.c:121-123 | version 1 behind version 2: `=1` gives nothing although version 1 matches |
| Packages.Package.Next | autogentoo/cportage/package.c:129-133 | one turn of iterating over a package yields the second newest ebuild, every time |
| Packages.SearchForOneExact | autogentoo/cportage/package.c:121-123 | for `=` the walk returns the head if that compares equal and nothing else, so it misses a match exactly if the head is newer |
| Packages.TestsAgreeExactly | autogentoo/cportage/atom.c:515-529 | the test on one ebuild, with its arguments the other way round, agrees with the walk's test if and only if the versions do not clash or the atom asks for older and newer alike |
| Packages.TestsAgree | autogentoo/cportage/atom.c:515-529 | against an atom without letters they always agree |
| Packages.OperatorMatches | autogentoo/cportage/depend.y:281-287 | every operator but `~` matches as documented in `autogentoo/cportage/portage.h`, for all versions |
| Packages.AnyRevisionExactly | autogentoo/cportage/portage.h:50-50 | `~` is documented to match any revision of the version it names; it does as documented if and only if the revisions are equal or the versions differ in more than the revision |
| Portages.Portage.constructor | autogentoo/cportage/portage.c:29-30 | a new index is well formed and empty, with 512 buckets |
| Portages.Portage.CreatePackage | autogentoo/cportage/portage.c:165-179 | a package for a new key, under the id computed for it |
| Portages.Portage.PackageFor | autogentoo/cportage/portage.c:164-188 | the package of the key, and every other entry unchanged |
| Portages.Portage.AddTo | autogentoo/cportage/portage.c:190-192 | one more ebuild indexed, in the package of its key |
| Portages.Portage.IndexFile | autogentoo/cportage/portage.c:144-193 | one entry of the repository: everything indexed before stays, ids included |
| Portages.Portage.InitializeRepository | autogentoo/cportage/portage.c:119-197 | the whole loop: every entry is indexed in order, the keys are exactly those seen, the count is returned |
| Portages.Portage.MatchAtom | autogentoo/cportage/portage.c:74-91 | an atom of any version whose key is indexed, with versions of one family under that key, gets a newest match among everything indexed under it, and nothing exactly if a scan of everything finds none; for `=` see `SearchForOneIsGlobal`; an unknown id is an error |
| Portages.Portage.InExactlyOnePackage | autogentoo/cportage/portage.c:164-192 | every ebuild is in the package of its key and in no other |
| Portages.Portage.PackagesApart | autogentoo/cportage/portage.c:164-192 | packages of different keys share nothing |
| Portages.SearchIsGlobal | autogentoo/cportage/portage.c:74-91 | the search in one package answers for the whole index |
| Portages.Portage.BuildAtom | autogentoo/cportage/atom.c:404-406 | an atom holds the id its key has, or would get if it were inserted now |
| LutRuns.EarlyIdExactly | autogentoo/cportage/atom.c:404-406 | over every run of insertions, an id computed for a key that was not there yet is that key's if and only if it was the first new key of its hash; if another one was, the id is that one's |
| LutRuns.FirstTakesId | autogentoo/hacksaw/lut.c:220-247 | the first new key of a hash gets the id computed for any key of that hash before |
| LutRuns.InsertKeepsRanks | autogentoo/hacksaw/lut.c:119-249 | one insertion keeps a table well ranked |
| LutRuns.RunKeepsRanks | autogentoo/hacksaw/lut.c:119-249 | any run from a well-ranked table leaves it well ranked |
| Portages.SearchForOneIsGlobal | autogentoo/cportage/portage.c:74-91 | for `=`: a match of the key if anything, and a match that exists is missed exactly if some ebuild of that key is above the version |
| Portages.Portage.AllIndexedStored | autogentoo/cportage/portage.c:164-192 | nothing is indexed whose version could not be compared |
| HashMaps.Map.constructor | autogentoo/hacksaw/map.c:27-41 | a new map is well formed and empty |
| HashMaps.Map.Get | autogentoo/hacksaw/map.c:85-99 | as for a plain map |
| HashMaps.Map.InsertItem | autogentoo/hacksaw/map.c:134-162 | one entry set; the count grows if the key is new; the drift of the count stays |
| HashMaps.Map.ReallocItem | autogentoo/hacksaw/map.c:43-49 | moving a chain from its end, recursively, moves all its entries |
| HashMaps.Map.MoveAll | autogentoo/hacksaw/map.c:60-62 | the new table holds exactly what the old one held |
| HashMaps.Map.Realloc | autogentoo/hacksaw/map.c:51-65 | growth keeps the contents and adds the number of live keys to the count once more |
| HashMaps.Map.Insert | autogentoo/hacksaw/map.c:164-176 | as for a plain map, with the exact new count and size |
| HashMaps.Map.Remove | autogentoo/hacksaw/map.c:101-132 | as for a plain map, returning what was there; the count is not lowered |
| HashMaps.Map.LinkPast | autogentoo/hacksaw/map.c:114-117 | the item is bypassed and every other link stays |
| HashMaps.Map.AllKeys | autogentoo/hacksaw/map.c:67-83 | every live key exactly once, despite the cutoff by a count that has drifted |
| HashMaps.CollectedEnough | autogentoo/hacksaw/map.c:72-72 | stopping early is safe because the count is never below the number of live keys |
| Queues.Queue.constructor | autogentoo/hacksaw/queue.c:8-11 | a new queue is empty, whatever its unset tail is |
| Queues.Queue.Pop | autogentoo/hacksaw/queue.c:18-31 | the oldest element, and the rest in order, although `tail` and `prev` go stale |
| Queues.Queue.Peek | autogentoo/hacksaw/queue.c:33-39 | the oldest element, or nothing if there is none |
| Queues.Queue.Add | autogentoo/hacksaw/linked_vector.c:59-75 | the element is last, whether or not the tail is stale |
| WorkerPool.RunKeeps | autogentoo/network/tcp_server.c:85-173 | every state of every run satisfies the invariant |
| WorkerPool.NextKeeps | autogentoo/network/tcp_server.c:85-278 | every step of every thread keeps the invariant |
| WorkerPool.ExactlyOnePlace | autogentoo/network/tcp_server.c:97-171 | in every reachable state an accepted request is in exactly one of: at the acceptor, queued, with one worker, closed; and it is closed at most once |
| WorkerPool.TakenInOrder | autogentoo/network/tcp_server.c:97-98 | requests are taken in the order of acceptance |
| WorkerPool.WakeupNotLost | autogentoo/network/tcp_server.c:89-98 | with a request queued, a worker sleeps only while the acceptor still owes its broadcast |
| WorkerPool.MutualExclusion | autogentoo/network/tcp_server.c:89-98 | no two threads are between lock and unlock |
| WorkerPool.NotStuck | autogentoo/network/tcp_server.c:253-278 | with a request queued and a worker not gone, some thread can move on without a new connection; what that leads to is in `WorkerProgress.ServedExactly` |
| WorkerPool.RunStaffed | autogentoo/network/tcp_server.c:85-173 | in every run: while the server is kept alive no worker and not the acceptor has left its loop; it is kept alive until the stopping thread has the lock; and the stop has returned only if all workers have left |
| WorkerPool.StopWakeupCanBeLost | autogentoo/network/tcp_server.c:87-94 | a run that ends with the stopping thread waiting for a worker that sleeps |
| WorkerStops.OnlyWakers | autogentoo/network/tcp_server.c:309-333 | while the stopping thread waits, a sleeping worker is woken by the acceptor's broadcast or spuriously and by nothing else, and the wait goes on |
| WorkerStops.StopWaitsForever | autogentoo/network/tcp_server.c:309-333 | with the acceptor gone it sleeps, and the stop waits, through every run without a spurious wakeup of it |
| WorkerStops.SleepAfterStopExactly | autogentoo/network/tcp_server.c:87-98 | in every run, once the stop is broadcast a worker can still fall asleep if and only if the workers past the test that look at the queue or have found something are more than the requests in it |
| WorkerStops.NeverAsleep | autogentoo/network/tcp_server.c:87-98 | otherwise nobody falls asleep on any path from there |
| WorkerStops.RunsDry | autogentoo/network/tcp_server.c:87-98 | and if so some path leads to a worker asleep |
| WorkerProgress.ServedExactly | autogentoo/network/tcp_server.c:85-173 | in every run with a worker, while the server is kept alive: workers and acceptor alone, without spurious wakeups and further connections, can get an accepted request closed if and only if the stopping thread does not have the lock or the request has been taken |
| WorkerProgress.Served | autogentoo/network/tcp_server.c:85-173 | while nobody stops the server some path of such steps closes any accepted request |
| WorkerProgress.TakenIsClosed | autogentoo/network/tcp_server.c:97-171 | a taken request is closed by its worker's own steps, whatever the stopping thread does |
| WorkerProgress.NothingTaken | autogentoo/network/tcp_server.c:309-318 | while the stopping thread has the lock nothing is taken |
| WorkerProgress.AlwaysAcceptsAgain | autogentoo/network/tcp_server.c:253-279 | as long as nobody stops the server it can get back to accepting, in the same way |
| WorkerProgress.WorkersEnd | autogentoo/network/tcp_server.c:87-98 | after the last broadcast, with nobody asleep and a request for everyone who still looks, some path of such steps leads to all workers having left, so that the stop can return |
| WorkerProgress.SleeperWasLate | autogentoo/network/tcp_server.c:309-329 | in every run a worker asleep while the stop waits fell asleep behind the last broadcast: it has woken everybody else |
| RequiredUses.EvaluateRequiredUse | autogentoo/portage/resolve.py:213-287 | the counting loop computes `JudgeAll`, the first error included |
| RequiredUses.EvaluateTerm | autogentoo/portage/resolve.py:228-285 | one turn of the loop computes `Judge`; when that is an answer is in `JudgeAnswers` |
| RequiredUses.JudgeAnswers | autogentoo/portage/resolve.py:228-285 | for every term: there is a verdict if and only if everything asked for is there (a flag among the flags, its terms too if its guard is met, the terms of a group), and otherwise the error is the first from left to right |
| RequiredUses.JudgeAllAnswers | autogentoo/portage/resolve.py:226-287 | the same for a list of terms |
| RequiredUses.JudgeSuggests | autogentoo/portage/resolve.py:230-281 | what is suggested for a term that does not hold: to turn its flag over; under a guard that is met that, or all of what its terms suggest; for a group any, one or at most one of what its terms suggest |
| RequiredUses.JudgeAllSuggests | autogentoo/portage/resolve.py:226-287 | a list of terms suggests exactly one thing for each term that does not hold, in their order |
| RequiredUses.JudgeMeans | autogentoo/portage/resolve.py:230-281 | a term counts as satisfied exactly if it holds in a Boolean reading without counting |
| RequiredUses.HoldCountMeans | autogentoo/portage/resolve.py:262-278 | at least one, exactly one and at most one, by count and by quantifier, agree |
| RequiredUses.CountsMean | autogentoo/portage/resolve.py:224-287 | n counts the terms, k those that hold, and there is one suggestion for each other one |
| RequiredUses.TallySuggestsChanges | autogentoo/portage/resolve.py:235-281 | every suggested leaf, at any depth, is the negation of the flag's state |
| RequiredUses.JudgeAllStable | autogentoo/portage/resolve.py:233-233 | a verdict does not depend on flags that it did not need |
| RequiredUses.HoldsExactly | autogentoo/portage/resolve.py:237-281 | an expression holds exactly if section 8.2 of the Package Manager Specification accepts it and the guards outside groups are met; stated wherever a conditional that is a member of a group has the guards below it met |
| RequiredUses.AcceptedExactly | autogentoo/portage/resolve.py:289-299 | the same for a whole REQUIRED_USE value and the hook's verdict: accepted if and only if everything asked for is there, the specification accepts it and the guards are met |
| RequiredUses.FlatIsSettled | autogentoo/portage/resolve.py:237-281 | that condition holds whatever the flags are if no conditional directly in a group has a conditional among its own terms |
| RequiredUses.GuardsMetAgree | autogentoo/portage/resolve.py:237-257 | with every guard met the evaluator and the specification agree on every expression |
| RequiredUses.UnmetGuardRejected | autogentoo/portage/resolve.py:254-257 | an input that the specification accepts and the evaluator rejects |
| RequiredUses.UnsettledAccepted | autogentoo/portage/resolve.py:237-281 | an input outside the condition, which the specification rejects and the evaluator accepts |
| RequiredUses.RunRequiredUseHook | autogentoo/portage/resolve.py:205-299 | no exception if and only if everything asked for is there and all terms hold; a rejection comes with exactly the suggestions of the terms that do not hold, and any other exception is the first thing missing |
| AtomFlags.NextToken | autogentoo/cportage/depend.y:142-142 | the next maximal run of characters that are not delimiters |
| AtomFlags.LexAtomFlags | autogentoo/cportage/depend.y:136-197 | the tokenise-and-classify loop gives the classified tokens in order |
| AtomFlags.RoundTripExactly | autogentoo/cportage/depend.y:149-177 | a name survives writing and classifying with all six options if and only if it shows neither prefix nor suffix of an option |
| AtomFlags.WrittenTokens | autogentoo/cportage/depend.y:142-146 | blanks and commas anywhere the grammar allows them do not change the tokens |
| AtomFlags.ListRoundTrip | autogentoo/cportage/depend.y:136-197 | any list of grammatical flags with any options, written out, is read back in order |
| AtomFlags.GrammaticalIsBare | autogentoo/cportage/depend.y:91-100 | whatever name the grammar admits, with a default or `(bar)` and a bar behind it, is such a name |
| AtomFlags.FlagRoundTrip | autogentoo/cportage/atom.c:60-92 | a flag written with its prefix and suffix is classified as what it was |
| AtomFlags.DefaultIsLost | autogentoo/cportage/atom.c:202-215 | `foo(+)` and `foo(-)` become flags of those very names without a default, with any option |
| EbuildMetadata.Metadata.constructor | autogentoo/cportage/ebuild.c:45-46 | before its cache file is read an ebuild has no flags |
| UseFlags.HooksAcceptMore | autogentoo/portage/resolve.py:523-540 | flags that appear later upset no hook, expressions included |
| UseFlags.HooksAfterChange | autogentoo/portage/resolve.py:562-573 | after one change, asking that flag's hooks and the global ones is as good as asking all |
| UseFlags.AcceptedHolds | autogentoo/portage/resolve.py:205-299 | an expression that the hooks let pass holds |
| UseFlags.MissingFlagExactly | autogentoo/portage/resolve.py:66-86 | a flag the ebuild does not have is admitted if and only if it is asked for as `x` or `x?`; it is then added on and kept on, or off and kept off |
| UseFlags.DefaultVerdictExactly | autogentoo/portage/resolve.py:66-86 | for each option, default and state in the parent: exactly when the verdict on a missing flag is the one its written default calls for; with `x` if and only if the default is on, with `-x` if and only if it is not off, and so on |
| UseFlags.DefaultNamesTheFlag | autogentoo/portage/resolve.py:66-86 | the flag that is added has the default in its name, and the one that was meant stays missing |
| UseFlags.WrittenDefaultIgnored | autogentoo/portage/resolve.py:66-86 | on an ebuild without `foo`, `[foo(-)]` passes where it should fail, and `[-foo(-)]` fails where it should pass |
| UseFlags.DeclaredStateShows | autogentoo/portage/resolve.py:494-500 | a declared flag shows its declared state if and only if the ebuild has no other value of its own for it |
| UseFlags.JudgedAsDeclaredExactly | autogentoo/portage/resolve.py:60-88 | on an ebuild selected by the very atom, before its cache file is read: a requirement on a declared flag is judged by its declared state and leaves it exactly for `x` and `-x` on one declared on, for `x?` on one declared off, and for `!x=` |
| UseFlags.DeclaredFlagsMisjudged | autogentoo/portage/resolve.py:60-88 | inputs: `[x]` turns on a flag declared off, `[x?]` turns off one declared on, `[-x]` fails on one declared off |
| UseFlags.RunsWatchAll | autogentoo/portage/resolve.py:552-573 | from a state that pleases every hook, running a changed flag's hooks and the global ones is running all of them |
| UseFlags.LastScheduledWins | autogentoo/portage/resolve.py:559-564 | a flag holds the last value scheduled for it |
| UseFlags.UnscheduledStays | autogentoo/portage/resolve.py:559-564 | a flag nothing was scheduled for stays |
| UseFlags.NoChangePasses | autogentoo/portage/resolve.py:562-563 | changes that change nothing cannot fail |
| UseFlags.RequirementNeverChanges | autogentoo/portage/resolve.py:149-189 | a requirement passes its own hook exactly if the state already suits it, and then what it schedules is no change |
| UseFlags.HookSuits | autogentoo/portage/resolve.py:149-189 | for every option and any two states: from then on the hook of a requirement passes exactly the states that suit the option, given the state at the time; and that state is admitted exactly if it suits |
| UseFlags.WantedSuits | autogentoo/portage/resolve.py:156-175 | what a requirement schedules makes its flag suit the option and touches nothing else; nothing is scheduled exactly for `x?`, `!x?` and `x=` |
| UseFlags.AssumedExtends | autogentoo/portage/resolve.py:65-88 | requirements add flags and change none |
| UseFlags.AdmittedFulfilled | autogentoo/portage/resolve.py:65-88 | every requirement admitted is fulfilled by the flags at the end: its flag is there and suits its option |
| UseFlags.WatchLater | autogentoo/portage/resolve.py:523-540 | the hook of a requirement stays and goes on guarding the same state |
| UseFlags.AdmitsKnown | autogentoo/portage/resolve.py:87-88 | a requirement on a flag known beforehand is judged by that flag's state alone |
| UseFlags.SelectedEbuild.constructor | autogentoo/portage/resolve.py:381-401 | no hook, nothing scheduled, dirty |
| UseFlags.SelectedEbuild.HasUse | autogentoo/portage/resolve.py:494-495 | exactly the flags that have a state |
| UseFlags.SelectedEbuild.GetUse | autogentoo/portage/resolve.py:497-500 | the ebuild's own value before the declared one, and an error for an unknown name |
| UseFlags.SelectedEbuild.AddUse | autogentoo/portage/resolve.py:502-510 | one flag set; a new one upsets no hook |
| UseFlags.SelectedEbuild.ScheduleUse | autogentoo/portage/resolve.py:542-550 | the change is last in the queue, and the ebuild is dirty |
| UseFlags.SelectedEbuild.RunHook | autogentoo/portage/resolve.py:177-189 | an exception exactly if an enforced target differs, suggesting the target |
| UseFlags.SelectedEbuild.AddUseHook | autogentoo/portage/resolve.py:523-540 | registered behind the flag's other hooks in any case; success exactly if the flag is there and the hook passes its state, with the exact error |
| UseFlags.SelectedEbuild.AddGlobalHook | autogentoo/portage/resolve.py:531-534 | registered in any case; success exactly if the expression is accepted, and the exception is the hook's |
| UseFlags.SelectedEbuild.AddUseRequirement | autogentoo/portage/resolve.py:512-521 | success exactly if the flag is known and in a state the option puts up with, which for `!x=` is none; the exact new hooks, queue and dirtiness, and the exact error; success leaves nothing to change |
| UseFlags.SelectedEbuild.RequireUse | autogentoo/portage/resolve.py:66-88 | the same for one flag: added by its default if it is missing, then required |
| UseFlags.SelectedEbuild.RequireUses | autogentoo/portage/resolve.py:65-88 | success exactly if every flag is admitted in turn, missing ones by their option; the flags are then the old ones and the defaults, every requirement has left its hook, and satisfied hooks and an idle queue stay so; else the error is that of the first requirement not admitted |
| UseFlags.SelectedEbuild.RunFlagHooks | autogentoo/portage/resolve.py:567-569 | no exception exactly if all hooks of the flag accept |
| UseFlags.SelectedEbuild.RunGlobalHooks | autogentoo/portage/resolve.py:572-573 | no exception exactly if all expressions accept |
| UseFlags.SelectedEbuild.ApplyChange | autogentoo/portage/resolve.py:560-573 | one change, and success exactly if its flag is there and the hooks it has run accept |
| UseFlags.SelectedEbuild.FlushUse | autogentoo/portage/resolve.py:552-573 | success exactly if no hook that is run objects; then the queue is empty and all changes are made; else state and queue are those of the first change that fails. From a state that pleases every hook, exactly if every state on the way does |
| UseFlags.SelectedEbuild.ConformUse | autogentoo/portage/resolve.py:454-459 | queue empty, the ebuild's own expression registered and holding, satisfied hooks still satisfied, with the exact condition of success; with an idle queue and satisfied hooks a failure is the expression's |
| Resolver.Emerge.constructor | autogentoo/portage/resolve.py:642-646 | nothing selected, an empty session |
| Resolver.Emerge.AddBlock | autogentoo/portage/resolve.py:648-659 | the block is last among those of its key |
| Resolver.FirstPassingStep | autogentoo/portage/resolve.py:595-597 | the first in the order of selection that passes |
| Resolver.Emerge.FindPassing | autogentoo/portage/resolve.py:595-597 | the loop over the selected slots finds the first that passes, or there is none |
| Resolver.Emerge.AddAtom | autogentoo/portage/resolve.py:620-633 | one more selected ebuild, the first of its package and under an unknown slot; the invariant stays |
| Resolver.Emerge.PlacedAfter | autogentoo/portage/resolve.py:631-632 | packages and selected ebuilds still match, with one ebuild for a package |
| Resolver.Emerge.NotYetRead | autogentoo/portage/resolve.py:661-676 | an ebuild of a package that is not selected has not been read, so that its slot is unknown |
| Resolver.Emerge.ChosenOrDropped | autogentoo/portage/resolve.py:592-618 | in every reachable state the outcome is a selected ebuild that passes, or nothing: no second slot, no change, no exception and no endless iteration |
| Resolver.InSlotExactly | autogentoo/portage/resolve.py:600-602 | the lookup by slot |
| Resolver.NeverEndsExactly | autogentoo/portage/resolve.py:423-432 | the loop over a package, turn by turn: it never ends if and only if there is a second newest ebuild and it fails the atom that took the slot; otherwise one turn is enough |
| Resolver.ChangeIs | autogentoo/portage/resolve.py:414-439 | so changing an ebuild within its slot fails, changes to the second newest, or never ends |
| Resolver.DependencyIsDropped | autogentoo/portage/resolve.py:592-618 | inputs at which an atom is dropped |
| Resolver.EndlessExactly | autogentoo/portage/resolve.py:414-439 | in any state: the iteration never ends if and only if no selected ebuild passes, the slot is known and taken, and the package's second newest ebuild fails the atom that took the slot |
| Resolver.ChangeMayNotPass | autogentoo/portage/resolve.py:421-439 | inputs at which an ebuild is returned that the atom does not match |
| Resolver.ChangeMayNotEnd | autogentoo/portage/resolve.py:421-439 | inputs at which the iteration never ends |
| Resolver.Emerge.MatchSelected | autogentoo/portage/resolve.py:592-618 | the first selected ebuild that passes, or nothing, and then the slot of the one found is unknown; the other branches are dead |
| Resolver.Emerge.SelectAtom | autogentoo/portage/resolve.py:661-676 | the exact outcome: the index's error, no ebuild, what `MatchSelected` finds, or a new selection, on which no flag shows; what is selected passes the atom |
| Resolver.Emerge.InitializeMetadata | autogentoo/portage/resolve.py:451-452 | flags appear, none that shows changes, and no hook of any selected ebuild is upset; a declared flag appears in its declared state if and only if the ebuild has no other value of its own for it |
| Resolver.Emerge.ResolveAtom | autogentoo/portage/resolve.py:60-90 | the exact outcome: the index's error; on a new selection success if and only if the requirements are admitted with no flag known, on an earlier one if and only if they are with the flags it has, and on a dropped atom if and only if there are none; the flags afterwards; and the result is the ebuild of the package that is now selected and passes |
| Resolver.Emerge.AddConditional | autogentoo/portage/resolve.py:92-108 | a conditional becomes the last hook of its flag and generates nothing; the exact errors |
| Resolver.Emerge.ResolveSingle | autogentoo/portage/resolve.py:46-112 | the exact outcome of each kind: an atom as in `ResolveAtom`, its errors included; a block is recorded, a conditional hooked, a group passed over, and all three give none |
| Resolver.Emerge.ResolveAll | autogentoo/portage/resolve.py:461-472 | the generators are, in order, the selected ebuilds that pass the atoms of the dependencies; the package of each such atom is selected, and if its ebuild does not pass there are no requirements on flags; a failure is that of a dependency |
| Resolver.Emerge.GeneratorsExactly | autogentoo/portage/resolve.py:461-472 | in every reachable state: the generators of an ebuild that is not dirty are exactly the selected ebuilds that pass an atom among its dependencies, and an atom with flag requirements always has one |
| Resolver.Emerge.CoversKept | autogentoo/portage/resolve.py:461-472 | the answer to a dependency stays the same whatever is selected later |
| Resolver.Emerge.RequireOf | autogentoo/portage/resolve.py:65-88 | success exactly if the requirements are admitted; then they are fulfilled and watched, and every selected ebuild's hooks are still satisfied |
| Resolver.Emerge.ServedKept | autogentoo/portage/resolve.py:461-472 | that every generator answers a dependency, flag requirements included, survives any growth of flags |
| Resolver.Emerge.CoveredLater | autogentoo/portage/resolve.py:484-491 | the generators of regenerated ebuilds stay the answers to their dependencies while others are resolved |
| Resolver.Emerge.Conform | autogentoo/portage/resolve.py:454-459 | the flags of one ebuild brought up to date, no flag that shows changed on any ebuild; success exactly if its REQUIRED_USE is accepted |
| Resolver.Emerge.CleanConforms | autogentoo/portage/resolve.py:457-459 | in every reachable state an ebuild that is not dirty has its REQUIRED_USE holding |
| Resolver.Emerge.Prepare | autogentoo/portage/resolve.py:451-459 | success exactly if the cache file has been or can be read and the REQUIRED_USE is accepted by the flags that show then |
| Resolver.Emerge.Rebuild | autogentoo/portage/resolve.py:447-474 | the cache file read, the generators made anew and exactly the answers to the dependencies; everything else kept; a failure comes from the cache file, the REQUIRED_USE or a dependency |
| Resolver.Emerge.AddToSession | autogentoo/portage/resolve.py:688-689 | the session grows, within the number of places |
| Resolver.Emerge.GetResolved | autogentoo/portage/resolve.py:403-409 | termination on cyclic dependencies; on success the log of regenerations has no repetition and is the session, everything newly added is closed under generators, has the answers to its dependencies as generators and has resolved exactly those, the rest is untouched, and no flag that showed on any ebuild has changed; a failure has a cause in an ebuild or a dependency that is there; declared flags show once the cache file is read, see `InitializeMetadata` |
| Resolver.Emerge.Regenerate | autogentoo/portage/resolve.py:441-492 | the same for the body: regenerated once, all generators in the session |
| Resolver.Emerge.ResolveNext | autogentoo/portage/resolve.py:484-491 | one generator more is resolved and recorded |
| Resolver.Emerge.BeginRegenerating | autogentoo/portage/resolve.py:447-479 | rebuilt if dirty and untouched if not, clean afterwards, with no resolved dependency yet, and no other generator list changed |
| Resolver.Emerge.ClearSession | autogentoo/portage/resolve.py:691-692 | an empty session over the same selection |
| Resolver.NoMoreThanPlaces | autogentoo/portage/resolve.py:584-584 | there are never more selected ebuilds than packages |
| Resolver.RoomInSession | autogentoo/portage/resolve.py:679-692 | a session can still grow while an ebuild is missing from it |
| Resolver.DiscoveredReaches | autogentoo/portage/resolve.py:484-491 | everything added is reached from the start by generators, in no more steps than there were regenerations |
| Resolver.SessionIsWhatIsReached | autogentoo/portage/resolve.py:403-409 | from an empty session the result is exactly the set reached by generators |
| Resolver.RepositoryIsReliable | autogentoo/cportage/portage.c:74-91 | what the index answers was indexed under the atom's key, and passes the test on one ebuild if and only if its version and the atom's do not clash (or the atom asks for older and newer alike); so always against an atom without letters |

## Left out

- Luts.Lut.InsertId: assumes fewer than 65536 keys with one hash and an id obtained from the same table; `NextIdFresh` says exactly what happens otherwise.
- Luts.Lut.AddNode: the same assumption.
- Luts.Lut.Insert: the same assumption.
- GlobalFlags.UseGetGlobal: the same assumption.
- Portages.Portage.CreatePackage: the same assumption.
- Portages.Portage.PackageFor: the same assumption.
- Portages.Portage.IndexFile: the same assumption.
- Luts.Lut.Overwrite: the flags of a node only steer reference counts; what they are afterwards is not claimed.
- Luts.Lut.Get: gives no data where the code gives 0, so data that is itself 0 cannot be told apart there.
- Luts.Threshold: the factor 0.7 is taken as seven tenths, truncated; the rounding of the floating-point product is not modelled.
- Luts.Lut.Realloc: takes a size above the present load, as its only caller does; the count is not cut to 32 bits.
- HashMaps.Map.Insert: the counts are unbounded; the 32-bit loop index and the counter of overlaps are left out.
- HashMaps.Trigger: the threshold is a real number and its product with the size is exact.
- Murmur.MapGetHash: blocks are read as little-endian words; reads past the end and alignment do not arise.
- Portages.Portage.InitializeRepository: takes the entries as a sequence of keys and versions; directories are not read. It assumes fewer than 65536 keys with one hash and versions that fit the buffers.
- Portages.Portage.MatchAtom: the claim about newest matches is for versions of one family and ranges with less-than or greater-than; the result is given for all ranges.
- AtomVersions.AtomVersionCompare: requires components that are neither empty nor a lone star, for which the code reads in front of the string, two versions that are not both absent, and padding within 127 digits, which the code asserts.
- AtomVersions.CompareRound: the same.
- VersionSpecification.Shaped: numeric components first, then suffixes with a number; letters are left to `LetteredVersions`, and suffixes without a number are out.
- Resolver.Emerge.GetResolved: claims nothing about the state after an exception, which ends the run; a failure has a cause, but which of several comes first is not claimed.
- AtomParsing.AtomInit: a revision that starts with a blank or a sign, which `strtol` would skip, is read as 0; the range, slot and flags come from the grammar.
- Resolver.Emerge.MatchSelected: requires a reliable index, and reachable states are those in which only the resolver has read cache files; what the code does otherwise is `MatchOutcome`, a function of the state.
- Resolver.Emerge.AddConditional: the terms of a conditional are never resolved by the code, and are not part of the model.
- Resolver.Reliable: without an answer of the atom's key resolution need not end, since a package is stored under the atom's key and looked up under the ebuild's; without one that passes the branches of `MatchOutcome` come up.
- Resolver.Emerge.ResolveAll: the four lists of generators are one list in the order in which they are filled and walked.
- InstallPackage: the slots of a package are a sequence in a map, not an object of their own.
- RequiredUses.HoldsExactly: not for a conditional that is a member of a group while a guard below it is not met; there `UnsettledAccepted` shows a disagreement.
- LetteredVersions.Lettered: letters on the last component, up to eight digits in front.
- WorkerPool.Next: steps are those between two accesses to shared state; sockets, messages and the callback are one step. That workers end after every stop is false; `WorkerStops` says when they may not.
- Queues.Queue.Add: nodes are garbage collected; that a popped node is freed, and with it what a stale tail points to, is not modelled.
- AtomFlags.LexAtomFlags: the list is a sequence, not linked nodes; the token buffer is not overwritten.
- Memory management, reference counts, Python objects and module set-up.
- The generated parsers: syntax trees are taken as given.
- The complex use operators, keywords, slots of atoms, repositories and IUSE lines.
- `vector.c`, `string_vector.c`, `set.c`, `small_map.c`, `stack.c`, `queue_set.c`, `util.c`, and the prepending and indexing of `linked_vector.c`: they would only add easy members.

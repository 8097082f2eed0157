# Verified models of the node's stateful and coding cores

This project models, in Dafny, the parts of the repository whose correctness rests on several
structures or conversions agreeing with each other, and proves what they promise. The functions of
a module say what an operation does to a state; the classes and methods beside them carry the
operation out step by step, with the loops and in-place updates of the C++ code, and are proved to
do exactly that; the lemmas are about all inputs, all random draws, all hash functions and whole
runs.

| files | what they model |
|---|---|
| AddrManState, AddrManInv, AddrManTried, AddrManSteps, AddrManOps | `CAddrMan`: two maps, the random order, 256 "new" and 64 "tried" buckets and their counters, and every operation that changes them; `AddrManOps.CAddrMan` is the class, `AddrManState.Inv` the invariant that is inductive |
| AddrManFields | what each call does to the fields of a record, which entries are terrible, and what a request for addresses can get |
| AddrManCheck, AddrManSound, AddrManRuns | `Check_` as a method that decides its own specification, what it amounts to, and runs of calls that never fail it |
| AddrManCapacity, AddrManSources, AddrManMemory, AddrManLearn, AddrManChoice, AddrManSelect, AddrManOdds | how much fits, how little a few groups of sources can fill, what is forgotten and learnt and when, which entry an eviction picks, when `Select_` returns, and what decides the entry it returns |
| AddrManPersist, AddrManLoad, AddrManReload, AddrManFiles | saving and loading, the isomorphism between the two states, what a file holds and what any file is read as |
| Numerals, BigNum, BigNumClass, Compact, CompactCodes, Text, HexText | positional notation, `CBigNum`'s byte strings, the compact format, decimal and hexadecimal text |
| Base58, Base58Size, Base58Ops, Base58Check | Base58 text, its length, the loops, checksums, addresses and secrets |
| LockedPages | the page-lock counter over operating-system locks that do not stack |
| Bloom | the bloom filter and its matching of transactions |
| Base64 | RFC 4648 Base64 on bit vectors |
| Alerts, AlertClocks | the map of alerts and their mutual cancellation, and the clocks under which it works |
| SortedSets, Options | finite sets in ascending order, optional values |

Random draws are functions `rnd: nat -> nat`; `GetRandInt` reduces a raw draw modulo its argument.
Hashes, address groups and routability are parameters about which nothing is assumed. The clock is
a parameter of each address manager call; the alert code, which reads it repeatedly, reads a
sequence of times.

What turned out different from what the code or its comments suggest:

- `SelectTried` is commented as returning the least recently tried of the entries it inspects. It
  picks that entry but returns the position it was drawn from; the entry is still there exactly if
  that draw did not move it (`SelectTriedExactly`, with a family of full buckets in
  `SelectTriedMissesOldest`).
- For a bias from 0 to 100 and a non-empty manager, one number of hits makes `Select_` return
  whatever the draw, exactly if the bias is below 100 or there are "new" entries
  (`SelectReturnsExactly`). With a bias of 100 and an empty "new" table it probes for ever: no
  probes hit anything, for any draw (`NeverSelected`).
- From a state that satisfies the invariant, as every reachable one does, and that `Check_`
  accepts, a call leads to one that `Check_` accepts exactly if `Good` was given a positive and
  `Attempt` a non-negative time, where they act at all (`StepPassesCheck`).
- The compact format is close to the number exactly below 2^2039; from there on the exponent byte
  wraps (`CompactIsClose`).
- `DecodeBase58` inverts `EncodeBase58` exactly on byte strings of fewer than 2^31 - 5 bytes, or
  of nothing but zeros: `setvch` hands the length on as an `int`, so a longer string is not read,
  or only its beginning is (`DecodeInvertsEncode`).
- `LockRange` ends exactly if the range does not reach the last page of the address space
  (`LoopEnds`); a range whose end wraps around below its start touches no page at all.
- No alert in the map ever cancels another, whatever arrives, exactly if the clock does not slip:
  it must not rise from one reading to the next, late enough for two alerts to pass each other
  there, and be below that again later on (`QuietExactly`, for every hash that gives two messages
  different keys). A clock that never goes back does not slip (`SteadyNeverSlips`); one that shows
  a later time at a single reading can (`JumpingClockBreaksQuiet`).
- `setvch` reads back what `getvch` wrote exactly if that has fewer than 2^31 - 4 bytes
  (`SetVchUndoesGetVch`).
- Addresses of scripts have version 9 (199 on the test network); the comment in `src/base58.h` says
  5 and 196. The model follows the code.

`dafny verify dfyconfig.toml` checks the whole project.

## Model

| member | source | states |
|---|---|---|
| AddrManOps.CAddrMan.SwapRandom | src/addrman.cpp:106-124 | exchanges two positions of the random order and both back-pointers, nothing else |
| AddrManInv.SwapKeeps | src/addrman.cpp:106-124 | the random order stays a permutation of the ids with every back-pointer right; records change in nothing but their position |
| AddrManOps.CAddrMan.SelectTried | src/addrman.cpp:126-148 | the bucket and the position after up to four rounds of drawing, exchanging and comparing |
| AddrManChoice.SelectTriedExactly | src/addrman.cpp:126-148 | the candidate is the least recently successful of the entries inspected; the returned position still holds it if and only if its draw did not move it |
| AddrManChoice.SelectTriedMissesOldest | src/addrman.cpp:130-143 | in every full bucket whose second entry is the least recently successful, draws of 1, 0, 0, 0 return a position that holds another entry |
| AddrManOps.CAddrMan.DropRef | src/addrman.cpp:157-169 | one reference less, and at the last one the record leaves the order, both maps and the counter |
| AddrManOps.CAddrMan.ShrinkNew | src/addrman.cpp:150-202 | removes the entry ShrinkVictim names and returns 0 if and only if the bucket held a terrible one |
| AddrManChoice.ShrinkVictimIs | src/addrman.cpp:150-202 | that entry is the first terrible one by id if there is any, and otherwise one that no other of the four drawn is older than |
| AddrManInv.DropRefKeeps | src/addrman.cpp:150-202 | removing an entry keeps all tables in agreement, shrinks its bucket by one and leaves every other record but for its position |
| AddrManOps.CAddrMan.LeaveNewBuckets | src/addrman.cpp:208-214 | takes an id out of every "new" bucket, one reference at a time |
| AddrManOps.CAddrMan.Replace | src/addrman.cpp:232-259 | evicts the selected tried entry into its "new" bucket, or into the one the newcomer has left |
| AddrManOps.CAddrMan.MakeTried | src/addrman.cpp:204-260 | the whole new state, and the invariant; the assertion that no reference is left holds |
| AddrManTried.MakeTriedKeeps | src/addrman.cpp:204-260 | moving an entry to the tried table keeps the invariant; the evicted entry always finds room |
| AddrManTried.MakeTriedMoves | src/addrman.cpp:204-260 | no record goes: `nId` becomes tried, leaves every "new" bucket, and if its tried bucket held 64 exactly one tried id becomes new, in exactly one bucket: the one at the position SelectTried returns, whose place `nId` takes |
| AddrManLearn.FindMeans | src/addrman.cpp:81-92 | an address is found under an id if and only if the record of that id has the address |
| AddrManLearn.CreateFinds | src/addrman.cpp:94-104 | a created record is found under the next id, every other address as before; it is last in the random order |
| AddrManOps.CAddrMan.ScanNew | src/addrman.cpp:289-302 | the first bucket of the rotated scan that holds the id |
| AddrManSteps.ScanFinds | src/addrman.cpp:289-302 | the scan comes back empty-handed if and only if no bucket on its way holds the id |
| AddrManSteps.RotationVisitsOnce | src/addrman.cpp:292-298 | the rotated scan visits every bucket at exactly one step |
| AddrManSteps.GoodFindsBucket | src/addrman.cpp:289-305 | for an untried entry the scan always finds a bucket, so the bail-out is never taken |
| AddrManOps.CAddrMan.Good_ | src/addrman.cpp:262-311 | the whole new state, and the invariant |
| AddrManRuns.GoodMoves | src/addrman.cpp:289-310 | on an untried entry Good always goes on to MakeTried, with a bucket that holds the id |
| AddrManRuns.GoodMarks | src/addrman.cpp:262-311 | the entry is tried afterwards, with its service as it was, its three times set and its attempts cleared; no record goes, no address changes its id, and another record changes at most its table and reference count and does not become tried |
| AddrManOps.CAddrMan.PassesDraw | src/addrman.cpp:344-349 | the stochastic test: with n > 0 references held exactly the multiples of 2^n pass |
| AddrManLearn.RefreshMeans | src/addrman.cpp:321-330 | an announcement with a penalty that is not negative moves the time of a known record only forward, by more than an hour or from zero, and never past the announced time; it adds its services to those known and changes nothing else |
| AddrManOps.CAddrMan.AddRef | src/addrman.cpp:358-367 | the whole new state after one more reference, making room first in a full bucket |
| AddrManOps.CAddrMan.Add_ | src/addrman.cpp:313-369 | the whole new state, the invariant, and whether the address was not known before |
| AddrManSteps.AddRefKeeps | src/addrman.cpp:358-367 | one more reference, with one less for an entry of a full bucket, keeps the invariant |
| AddrManFields.AddKnownFields | src/addrman.cpp:319-367 | an announcement of a known address sets the time to the announced one less the penalty if and only if it is due by an hour, or a day for old news, and the penalty; it adds its services to the record's; and it adds a reference in its source's bucket if and only if it is still news, the record is untried with fewer than four references and the draw is a multiple of 2, 4 or 8; a bucket of 64 gives up ShrinkVictim's entry |
| AddrManFields.AddFreshFields | src/addrman.cpp:350-367 | every field of the record that an unknown address gets, and its bucket afterwards |
| AddrManFields.TerribleExactly | src/addrman.cpp:38-56 | the entries that count as terrible: not tried within a minute, and dated ahead by ten minutes, never seen, not seen for thirty days, tried three times without success, or ten times without success for a week |
| AddrManFields.GoodIsNotTerrible | src/addrman.cpp:38-56 | after Good an entry is terrible from thirty days later on and not before |
| AddrManFields.AttemptMeans | src/addrman.cpp:371-388 | the record with exactly the service gets the time as its last try and one more attempt; nothing else changes |
| AddrManFields.ConnectedMeans | src/addrman.cpp:510-528 | the record with exactly the service gets the time, in 32 bits, if and only if its own is more than twenty minutes older; nothing else changes |
| AddrManFields.GetAddrCountMeans | src/addrman.cpp:496-498 | 23 in a hundred of the records rounded down, but at most 2500 |
| AddrManFields.EverySelection | src/addrman.cpp:500-507 | any choice of known records, in any order, is what some draws make the shuffle put first |
| AddrManLearn.AddLearns | src/addrman.cpp:350-367 | an unknown routable address is found afterwards under a new id with exactly one reference, from its own bucket, which lost at most one entry and only if it was full |
| AddrManRuns.AddKnown | src/addrman.cpp:319-348 | adding a known address loses at most one record, an untried one, and leaves what the others record of attempts and successes |
| AddrManRuns.AddFresh | src/addrman.cpp:350-367 | adding an unknown one learns exactly it and loses at most one untried record |
| AddrManOps.CAddrMan.Attempt_ | src/addrman.cpp:371-388 | the whole new state, and the invariant |
| AddrManOps.CAddrMan.Connected_ | src/addrman.cpp:510-528 | the whole new state, and the invariant |
| AddrManOps.CAddrMan.GetAddr_ | src/addrman.cpp:494-508 | GetAddrCount addresses with their services and times, all known and pairwise different; the random order stays a permutation |
| AddrManOps.CAddrMan.constructor | src/addrman.h:381-392 | the empty manager satisfies the invariant |
| AddrManCheck.Check | src/addrman.cpp:435-491 | returns 0 if and only if every clause of the check holds of the state |
| AddrManCheck.ValidMeetsCheck | src/addrman.cpp:435-491 | in a state with the invariant the check can object to nothing but recorded times |
| AddrManSound.ConsistentMeans | src/addrman.cpp:435-491 | the check accepts a state if and only if the random order is a permutation with right back-pointers, the counters count, references are in bounds, addresses lead to their records, buckets agree with records and times are acceptable |
| AddrManRuns.StepPassesCheck | src/addrman.cpp:435-491 | from a state with the invariant that passes the check, a call leads to one that passes it if and only if the times it was given and acted on are acceptable |
| AddrManRuns.RunPassesCheck | src/addrman.cpp:262-528 | every run of Add, Good, Attempt, Connected, GetAddr and reloading from the constructor, with timely arguments, passes the check at its end, for all draws and hashes |
| AddrManCapacity.RunIsBounded | src/addrman.h:122-132 | after any run every bucket holds at most 64 ids, and the manager at most 20480 |
| AddrManCapacity.GroupIsBounded | src/addrman.cpp:10-22 | however many addresses of one group are tried, at most 256 are kept |
| AddrManSources.SourcesAreBounded | src/addrman.h:96-110 | in a run whose sources belong to n groups, at most 32 n "new" buckets hold anything and at most 2048 n ids are new, for all draws and hashes |
| AddrManSources.RunConfined | src/addrman.cpp:24-36 | those buckets are among the ones the groups hash to, also after evictions from the tried table and reloading |
| AddrManMemory.AddForgets | src/addrman.cpp:313-369 | Add forgets at most one address, not a tried one, and learns at most the one it is given |
| AddrManMemory.StepForgets | src/addrman.cpp:204-369 | no other call forgets any address |
| AddrManMemory.OnlyDemotedAreForgotten | src/addrman.cpp:204-260 | over any run, a tried address that is gone at the end was known but not tried at some point in between |
| AddrManSelect.GetChance | src/addrman.cpp:58-80 | the chance of an entry, above 0 and at most 1 |
| AddrManOdds.ChanceBySeen | src/addrman.cpp:66-68 | without failed attempts and a try in the last ten minutes it is 600 to 600 more than the seconds since the entry was seen |
| AddrManOdds.ChanceByTry | src/addrman.cpp:70-72 | a try in the last ten minutes divides it by exactly 100 |
| AddrManOdds.ChanceByAttempts | src/addrman.cpp:74-76 | one more failed attempt divides it by exactly 1.5 |
| AddrManOdds.ChanceShrinks | src/addrman.cpp:66-68 | it does not grow with the time since the entry was seen |
| AddrManOdds.TriedOdds | src/addrman.cpp:395-397 | draws for the tried table are to the others as root(tried) * (100 - bias) is to root(new) * bias |
| AddrManOdds.TakenMeans | src/addrman.cpp:399-432 | an entry is taken if and only if it is the first hit whose draw is below 2^30 times its chance times 1.2 for every entry hit before |
| AddrManOdds.EveryEntryIsHit | src/addrman.cpp:405-413 | every entry of a table is hit by a probe |
| AddrManSelect.SelectLeadsSomewhere | src/addrman.cpp:395-402 | for a non-empty manager every draw leads to a non-empty table if and only if the bias is below 100 or there are new entries |
| AddrManSelect.CountedMeansHittable | src/addrman.cpp:403-432 | a table that is counted as non-empty has a bucket with an entry |
| AddrManSelect.SelectFrom | src/addrman.cpp:404-432 | the entry that Taken names: of the entries hit the first that its draw accepts, the factor growing with every rejection |
| AddrManSelect.RejectionsBounded | src/addrman.cpp:404-432 | probes that hit h > 0 entries and take none bound h: (1 + (h - 1) / 5) times any lower bound of the chances is below one |
| AddrManSelect.EnoughHits | src/addrman.cpp:410-418 | a number of hits after which acceptance is forced |
| AddrManSelect.Select | src/addrman.cpp:390-433 | returns the record that Selected names |
| AddrManSelect.SelectedIsKnown | src/addrman.cpp:390-433 | that is a known record, a tried one if and only if the draw leads to the tried table |
| AddrManSelect.SelectReturns | src/addrman.cpp:390-433 | for every non-empty manager and bias below 100, or of 100 with "new" entries, there is a number of hits such that, whatever the draw, the table it leads to can be hit and that many hits or more make Select return a record |
| AddrManSelect.NeverSelected | src/addrman.cpp:395-432 | with a bias of 100 and no "new" entries no probes hit an entry or make Select return a record, whatever the draw |
| AddrManSelect.SelectReturnsExactly | src/addrman.cpp:390-433 | for a bias from 0 to 100 such a number of hits exists if and only if the bias is below 100 or there are "new" entries |
| AddrManOps.CAddrMan.Serialize | src/addrman.h:277-312 | writes what Save describes, with every bucket entry a valid index |
| AddrManOps.CAddrMan.Unserialize | src/addrman.h:313-377 | the state Load describes |
| AddrManPersist.WriteNews | src/addrman.h:283-296 | the records with references in the order of their ids, and their numbering |
| AddrManFiles.SavedFile | src/addrman.h:277-312 | the file holds, field by field, the untried and the tried records in the order of their ids, and each of 256 buckets as positions among the former |
| AddrManFiles.LoadMeans | src/addrman.h:313-377 | of any file: records are numbered in order, a tried bucket takes the first 64 that want it, the counter is corrected for the others, and references are entered and counted up to the fourth of a record |
| AddrManReload.LoadSaved | src/addrman.h:268-380 | loading what was saved gives an isomorphic state: same key, records, counters and members of every bucket, nothing lost, no reference dropped |
| AddrManReload.IsomorphicIsValid | src/addrman.h:313-377 | whatever is isomorphic to a state with the invariant has it too |
| AddrManReload.Reload | src/addrman.h:268-380 | saving and loading keeps the invariant and the isomorphism |
| BigNumClass.CBigNum.SetInt64 | src/bignum.h:125-168 | the number is exactly the argument, for every 64-bit integer, the smallest included |
| BigNumClass.CBigNum.SetUInt64 | src/bignum.h:170-195 | the number is exactly the argument |
| BigNumClass.CBigNum.SetUInt256 | src/bignum.h:197-223 | the number is exactly the argument, from its 32 bytes in memory |
| BigNumClass.CBigNum.GetUInt256 | src/bignum.h:225-238 | the magnitude modulo 2^256 |
| BigNumClass.CBigNum.SetVch | src/bignum.h:240-253 | the signed little-endian number of the bytes that the length, narrowed to 32 bits and then to an `int`, lets through; no change when it lets none be read |
| BigNumClass.CBigNum.GetVch | src/bignum.h:255-265 | the reversed signed bytes, without a length |
| BigNum.MpiRoundTrip | src/bignum.h:225-265 | a number written in the MPI format is read back, whatever its sign, as long as the length fits an `int` |
| BigNum.MpiOfBytes | src/bignum.h:240-253 | what is read after a length field for any number of bytes: all of them, their beginning, or nothing |
| BigNum.SetVchUndoesGetVch | src/bignum.h:240-265 | setvch reads back the number whose getvch it is given if and only if the length, with the four bytes before it, is below 2^31 |
| BigNum.FromVchMeans | src/bignum.h:240-253 | below the length limit the bytes read are a little-endian number whose highest bit is the sign |
| BigNum.WrittenStep | src/bignum.h:144-163 | one round of the setters' loops: leading zeros are skipped and the sign byte comes in where it must |
| BigNumClass.CBigNum.SetCompact | src/bignum.h:289-305 | the number a code stands for |
| BigNumClass.CBigNum.GetCompact | src/bignum.h:308-330 | the code of a number |
| CompactCodes.DecodedExactly | src/bignum.h:289-305 | every code, written by the program or not, stands for mantissa * 256^(exponent - 3) rounded down, with its sign |
| CompactCodes.EncodedExactly | src/bignum.h:308-330 | the code of a number below 2^2039: its sign, and a mantissa of at least 0x8000 that the number starts with |
| CompactCodes.NormalisedKeeps | src/bignum.h:289-330 | encoding what any code stands for gives a code for the same number |
| Compact.CompactIsClose | src/bignum.h:267-330 | decoding an encoded number gives one of the same sign, not larger, and equal or at most one part in 0x8000 smaller, if and only if the number is below 2^2039 |
| Compact.CompactIsStable | src/bignum.h:289-330 | encoding again gives the same code |
| Compact.CompactIsMonotone | src/bignum.h:308-330 | codes of non-negative numbers are ordered like the numbers |
| BigNumClass.CBigNum.ToString | src/bignum.h:362-386 | the digits in the given base, with the sign |
| BigNumClass.CBigNum.SetHex | src/bignum.h:332-360 | the number read past spaces, a sign and a prefix |
| HexText.ToTextMeans | src/bignum.h:362-386 | the text is the sign and digits of the base, small letters, without leading zeros, that are worth the magnitude |
| HexText.ReadHexMeans | src/bignum.h:332-360 | of a text of spaces, sign, prefix, spaces, hexadecimal digits of either case and other characters the digits are read, up to the first other character |
| HexText.HexDigitMeans | src/bignum.h:350-356 | the values of the digits and letters |
| Text.SpaceMeans | src/bignum.h:336-336 | the six characters that are skipped as spaces |
| Text.HexRoundTrip | src/bignum.h:332-391 | what GetHex writes SetHex reads back, for either sign |
| Base58Ops.EncodeBase58 | src/base58.h:29-67 | the text Encode describes, never longer than the reserve |
| Base58Ops.DecodeBase58 | src/base58.h:77-121 | accepts, and yields, exactly what Decode describes; the sign byte is trimmed and leading zeros restored |
| Base58.DecodeInvertsEncode | src/base58.h:29-121 | decoding gives back the encoded bytes if and only if they fit: fewer than 2^31 - 5, or nothing but zeros |
| Base58.EncodeInvertsDecode | src/base58.h:29-121 | encoding gives back the decoded text without the spaces around it if and only if the bytes fit |
| Base58.DecodeAccepts | src/base58.h:84-103 | decoding accepts exactly spaces, then characters of the alphabet, then spaces |
| Base58.DecodeFramed | src/base58.h:105-119 | a zero byte for every leading '1', then the bytes of the number in minimal form |
| Base58.AlphabetIs | src/base58.h:26-26 | the alphabet, by the ranges of characters it consists of |
| Base58Size.EncodedLength | src/base58.h:46-48 | n bytes give at most n * 138 / 100 + 1 characters |
| Base58Check.EncodeBase58Check | src/base58.h:134-141 | Base58 of the bytes with the first four bytes of their hash |
| Base58Check.DecodeBase58Check | src/base58.h:145-162 | accepts exactly what DecodeCheck accepts, and clears the result otherwise |
| Base58Check.ChecksumMeans | src/base58.h:134-141 | the checksum is the hash modulo 2^32, lowest byte first |
| Base58Check.DecodeCheckMeans | src/base58.h:145-162 | a text yields `b` if and only if it decodes to `b` followed by its checksum |
| Base58Check.CheckRoundTrip | src/base58.h:134-162 | for any hash, checking gives back what was encoded if and only if it fits |
| Base58Check.CBase58Data.SetString | src/base58.h:206-222 | version and data read from the text, or both reset |
| Base58Check.CBase58Data.ToString | src/base58.h:229-234 | the checked text of version and data |
| Base58Check.TextRoundTrip | src/base58.h:206-234 | SetString restores what ToString wrote if and only if it fits |
| Base58Check.TextDetermines | src/base58.h:229-234 | different data never have the same text |
| Base58Check.CBitcoinAddress.Set | src/base58.h:281-294 | stores a key or script destination of the network; a missing destination changes nothing |
| Base58Check.CBitcoinAddress.IsValid | src/base58.h:296-324 | valid if and only if it is what Set stores for some destination on this network |
| Base58Check.CBitcoinAddress.Get | src/base58.h:345-363 | the destination that is stored, if and only if there is one |
| Base58Check.CBitcoinAddress.GetKeyID | src/base58.h:365-378 | the key that is stored, if and only if a key is |
| Base58Check.CBitcoinAddress.IsScript | src/base58.h:380-390 | whether a script destination is stored |
| Base58Check.StoredOnce | src/base58.h:281-324 | at most one destination is stored, on at most one network |
| Base58Check.AddressBytes | src/base58.h:272-294 | the text of an address stands for version 0 or 9, on the test network 111 or 199, the twenty bytes and the checksum |
| Base58Check.AddressRoundTrip | src/base58.h:281-363 | every destination survives its text, on its own network |
| Base58Check.CBitcoinSecret.SetSecret | src/base58.h:401-407 | stores a secret with its compressed flag |
| Base58Check.CBitcoinSecret.GetSecret | src/base58.h:409-416 | the secret and flag that were stored |
| Base58Check.CBitcoinSecret.IsValid | src/base58.h:418-434 | valid if and only if it is what SetSecret stores for some secret on this network |
| Base58Check.CBitcoinSecret.SetString | src/base58.h:436-439 | accepts exactly the texts of valid secrets |
| Base58Check.KeptOnce | src/base58.h:401-434 | at most one secret is stored, with one flag, on at most one network |
| Base58Check.SecretBytes | src/base58.h:401-407 | the text of a secret stands for 128, on the test network 239, the 32 bytes, a 1 if compressed, and the checksum |
| Base58Check.SecretRoundTrip | src/base58.h:401-439 | every secret survives its text with its flag |
| LockedPages.LockedPageManagerBase.LockRange | src/allocators.h:57-77 | counts and operating-system calls after locking a range |
| LockedPages.LockedPageManagerBase.UnlockRange | src/allocators.h:80-100 | the same for unlocking; the assertion holds |
| LockedPages.LockedPageManagerBase.GetLockedPageCount | src/allocators.h:103-107 | the number of pages the operating system holds |
| LockedPages.TouchesMeans | src/allocators.h:61-64 | the pages counted are the pages of the addresses in the range |
| LockedPages.LoopEnds | src/allocators.h:64-64 | the loop over the pages ends if and only if its last page is not the last of the address space |
| LockedPages.LockPagesCounts | src/allocators.h:64-76 | every page of the range counts one more, the others stay |
| LockedPages.UnlockPagesCounts | src/allocators.h:87-99 | unlocking succeeds if and only if every page of the range is counted, and then each counts one less |
| LockedPages.RunCounts | src/allocators.h:48-107 | over any run on whose ranges the loop ends and whose unlocks match outstanding locks no assertion fails and each page's count is the number of outstanding ranges that touch it |
| LockedPages.HeldExactly | src/allocators.h:37-39 | a page is held if and only if an outstanding range touches it, and lock and unlock calls alternate on every page |
| LockedPages.ReleasedIsEmpty | src/allocators.h:91-98 | once everything is released, in whatever order, nothing is counted or held |
| Bloom.CBloomFilter.InsertKey | src/bloom.cpp:38-48 | the filter with the key's bits set |
| Bloom.NeedsMeans | src/bloom.cpp:32-36 | the bits of a key: one for each hash function, with seeds 0xFBA4C795 apart from the tweak on |
| Bloom.BitsMeans | src/bloom.cpp:46-46 | which bits are set: the lowest of each byte comes first |
| Bloom.InsertSets | src/bloom.cpp:32-48 | inserting sets exactly the bits of the key; the shortcut for a full one-byte filter changes nothing |
| Bloom.CBloomFilter.ContainsKey | src/bloom.cpp:64-76 | whether every bit of the key is set |
| Bloom.ContainsMeans | src/bloom.cpp:64-76 | contained if and only if the key's bits are among those set |
| Bloom.CBloomFilter.ScanOutput | src/bloom.cpp:107-134 | whether an output matches, and the outpoint added if it does and the flags say so |
| Bloom.MatchesMeans | src/bloom.cpp:114-119 | a script matches if and only if an instruction before the first unreadable one pushes non-empty data that the filter contains |
| Bloom.CBloomFilter.IsRelevantAndUpdate | src/bloom.cpp:97-160 | relevant if and only if the filter as it was contains the hash, a pushed element of an output, an outpoint spent or a pushed element of an input; and the filter afterwards |
| Bloom.RelevantMeans | src/bloom.cpp:97-160 | a transaction is relevant if and only if the filter contains its hash, data that an output pushes, the hash and four-byte number of an outpoint it spends, or data that an input pushes |
| Bloom.OutputAdds | src/bloom.cpp:105-135 | an output adds exactly the bits of its outpoint, if and only if it matches and the flags are 1, or 2 and it pays to a key |
| Bloom.NothingMatchesYet | src/bloom.cpp:105-135 | outpoints added on the way never make the first match |
| Bloom.RunGrows | src/bloom.cpp:38-160 | no run clears a bit |
| Bloom.InsertedForEver | src/bloom.cpp:38-76 | what was inserted is contained after any run |
| Bloom.SpendingIsRelevant | src/bloom.cpp:105-144 | once an output has matched, with flags 1, or 2 and a script that pays to a key, every later transaction that spends it is relevant, whatever came in between |
| Bloom.NoUpdates | src/bloom.h:20-31 | with flags neither 1 nor 2, and with flags 2 if no output pays to a key, looking at a transaction changes nothing |
| Bloom.GetOpMeans | src/script.h:424-475 | reading yields data and a next position if and only if the bytes in between are one whole instruction that pushes exactly that data |
| Base64.Base64Encode | src/base64.cpp:41-82 | the text of section 4 of RFC 4648 |
| Base64.Base64Decode | src/base64.cpp:84-123 | the bytes of the characters before the first one outside the alphabet |
| Base64.EncodedLength | src/base64.cpp:41-82 | four characters for every three bytes begun, of which only the last one or two can be signs that fill up |
| Base64.DecodeInvertsEncode | src/base64.cpp:41-123 | decoding gives back every byte string, with tails of one and two bytes (in the code, as long as the text is shorter than 2^31 characters) |
| Base64.EncodeInvertsDecode | src/base64.cpp:41-123 | a text is the encoding of what it decodes to if and only if its left-over bits are zero and at most two '=' make its length a multiple of four |
| Base64.DecodeStops | src/base64.cpp:92-92 | whatever follows the first character outside the alphabet is ignored |
| Base64.TailIsKept | src/base64.cpp:108-119 | places filled up with 255 for "not found" never reach a byte that is kept |
| Base64.SplitBits | src/base64.cpp:51-54 | the four expressions are the four sextets of the 24 bits |
| Base64.JoinBits | src/base64.cpp:98-100 | the three expressions are the three bytes of the 24 bits |
| Alerts.AlertMap.Cancels | src/alert.cpp:107-112 | whether an alert in effect covers another, at one reading of the clock |
| Alerts.AlertMap.CancelPrevious | src/alert.cpp:203-220 | the map after cancelled and expired alerts are gone |
| Alerts.AlertMap.ProcessAlert | src/alert.cpp:171-268 | the new map and whether the alert is accepted |
| Alerts.ProcessKeepsQuiet | src/alert.cpp:171-235 | with a clock that never goes back no alert in the map cancels another, accepted or not |
| Alerts.RunIsQuiet | src/alert.cpp:171-235 | so in every state reached |
| AlertClocks.RunIsExplained | src/alert.cpp:171-235 | whatever the clock, of two alerts in the map one of which covers the other, the covering one expired between two readings at which they could miss each other |
| AlertClocks.QuietExactly | src/alert.cpp:171-235 | all runs of alerts under the hashes of their messages stay quiet if and only if the clock does not slip or all messages have the same hash |
| AlertClocks.SteadyNeverSlips | src/alert.cpp:107-112 | a clock that never goes back does not slip |
| AlertClocks.JumpingClockBreaksQuiet | src/alert.cpp:203-231 | a clock that is ahead at one reading leaves, after some run, an alert beside one it cancels, for every hash that tells two messages apart |
| Alerts.ProcessExactly | src/alert.cpp:171-234 | while the clock stands still: a signed and unexpired alert, of the reserved form if it has the largest id, removes exactly what has expired, has an id of at most `nCancel` or is named in `setCancel`, and is accepted if and only if nothing that remains covers its id in this way |
| Alerts.KeyAlertClears | src/alert.cpp:178-220 | once the alert for a compromised key is accepted, only alerts with its id are left |

## Left out

- AddrManOps.CAddrMan.Add_: the clock is read once per call instead of at every use; so in ShrinkNew and Select.
- AddrManOps.CAddrMan.Connected_: counters, ids and times are unbounded integers; only the 32-bit `nTime` wraps.
- AddrManOps.CAddrMan.Unserialize: covers files with 256 "new" buckets and non-negative indices; the path for another bucket count and the byte-level stream are not modelled.
- AddrManReload.LoadSaved: `nLastTry` is not saved, so it is zero after loading and not part of the isomorphism.
- AddrManCheck.Check: looking up a missing address in `mapAddr` yields 0 without inserting an entry.
- AddrManSelect.Select: the draws of the endless loop are a finite sequence of probes, and roots and chances are real numbers without rounding; how many probes it takes to make a number of hits is a matter of chance.
- AddrManState.GetRandInt: the rejection loop of `GetRand` that makes draws uniform is left out.
- BigNumClass.CBigNum.SetVch: OpenSSL's own limits on the size of a number and failures to allocate are not modelled.
- BigNumClass.CBigNum.GetVch: numbers of 2^31 bytes or more, whose length OpenSSL returns in an `int`, are written as if the length fitted.
- Base58Check.CBitcoinAddress.Set: inheritance is modelled by a `base` object; the network flag is a parameter.
- Base58Check.CBase58Data.SetString: memory cleansing and `CompareTo`, which would only add easy members, are left out.
- LockedPages.RunCounts: says more than is needed, as do HeldExactly and ReleasedIsEmpty: a run with a range that reaches the last page of the address space is not a run of the code, whose loop does not end on it.
- LockedPages.LockedPageManagerBase.LockRange: requires that the loop ends; counts do not overflow, failures of the operating system's calls are ignored as in the code, and the page mask is written as rounding down.
- Bloom.CBloomFilter.constructor: takes the sizes as given; computing them with logarithms is left out.
- Bloom.CBloomFilter.InsertKey: a filter without bytes but with hash functions divides by zero in the code and is excluded.
- Alerts.AlertMap.ProcessAlert: checking the signature and reading the alert out of the message are a parameter; notification, shell commands and relaying are left out.
- Alerts.KeyAlertClears: says nothing about later alerts, which may cancel the reserved one.
- Base64.DecodeInvertsEncode: the code takes the length of the bytes as an `unsigned int` and counts characters in an `int`; neither is modelled, so this, EncodeInvertsDecode and the methods describe it for texts of fewer than 2^31 characters.
- Base64.Base64Decode: texts of 2^31 characters or more, as above; the characters of a group and their places in the alphabet are kept in two arrays, where the code overwrites one with the other.
- Locks, logging, `RAND_bytes`, the hash functions and the internals of network addresses.
- The RPC server, checkpoints, the user interface and the wrappers around OpenSSL's arithmetic operators.

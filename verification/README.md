# Verified model of the PICCO runtime's set-up and communication layer

PICCO runs secret-shared programs on n = 2t + 1 parties. This project models, in Dafny, what the
parties do before and between the arithmetic: how they connect, how they agree on keys, how they
exchange data, and two software fallbacks that the runtime's headers carry. All parties run at their
own pace; statements about protocols are about every interleaving.

| module | what it models |
|---|---|
| Bits, Words, Sequences, Maps | bits of access codes, word operations, orderings, `std::map` insertion |
| Schedules | who sends to whom for one access code, the ring order of `extract_share_*` |
| Combinations, Polynomials | `getCombinations` and `generateCoefficients`, on 32-bit integers |
| CoefficientRange | for how many parties the coefficients are machine integers |
| ShareSets, SeedMapSize | the share sets of codes and generators, and which words the compiler keeps |
| NextWords, SeedGeneration | `nChoosek` and `generateSeedMap` of the compiler |
| FifoNetwork | programs that send and receive over FIFO channels, and what holds of all their runs |
| SeedSetup, SharedKeys | `seedSetup`: the key exchange, the loop of one party, the finished tables |
| PseudoRandomSharing, Interpolation, SharingExact | when sums over the Shamir table are shares of one polynomial |
| NodeTables, Startup, StartupTables | `init_keys` and the connection start-up of all parties |
| Chunks, Wire | cutting, packing, masking, and sending with partial transfers |
| AllToAll | `broadcastToPeers` and `multicastToPeers` outside the threaded phase |
| ThreadLane, ThreadedManager, ThreadedRuns, ThreadedBuffers, ManagerThread | workers, the manager thread and its look-ahead slot |
| Crc, Aes | the CRC-32C and AES fallbacks of `sse2neon.h` |

How the parts fit together:

- A protocol is a state machine with one record per party. FifoNetwork proves deadlock freedom,
  termination and correct delivery once, from a condition on the programs alone; SeedSetup and
  AllToAll show that their programs meet it. Startup and ThreadedManager have their own invariants,
  because there the code reacts to what arrives.
- The loops of one party are methods on classes and arrays. Their contracts give the operations they
  perform and the state they leave, as functions of what the network delivers; the lemmas about runs
  say what the network delivers.
- Where the code and its comments or the obvious reading differ, the code is modelled and the extent
  of the difference is proved: the superseded receiving order (Schedules), the unsigned round counters
  on empty messages (Chunks), the division of byte counts by the element size, which is exact for
  single bytes only, and exports of values that do not fit their unit (Wire),
  and the 32-bit coefficients, right for up to 17 parties only (CoefficientRange, SharingExact).

Conditions that the statements make explicit: n = 2t + 1 with t at least 1; every code has exactly t
bits set besides bit 0; the chunk size is at least one value; the keys drawn for the Shamir table are
distinct byte strings; the compiler serves at most 30 parties, as `1 << n` is an `int`;
the Shamir table serves at most 17, as its coefficients are `int`.

## Model

| member | source | states |
|---|---|---|
| Schedules.SchedulesInverse | compute/smc-compute/SMC_Utils.cpp:3186-3235 | In exchange k, p sends to q exactly when q waits for p, for every code and every pair of parties; nobody sends to itself. |
| Schedules.ExchangePermutes | compute/smc-compute/SMC_Utils.cpp:3186-3235 | Every exchange of a code is a permutation of the parties: no destination repeats and every party is a destination, so every slot of every receiving schedule is filled. |
| Schedules.HoldersAreDestinations | compute/smc-compute/SMC_Utils.cpp:3178-3208 | The parties outside the share set of p are p itself and the destinations of its key. |
| Schedules.OutsideByBit | compute/smc-compute/SMC_Utils.cpp:3199-3208 | q lacks the key of p exactly when the bit at the ring distance from p to q is clear. |
| Schedules.OlderScheduleRightWhenMirrored | compute/smc-compute/SMC_Utils.cpp:3196-3208 | The superseded receiving order is right, for a party and hence for all, if and only if no bit of the code equals its mirror image. This is the exact extent of the comment that it is wrong for some codes. |
| ShareSets.OlderScheduleWrongForSeven | compute/smc-compute/SMC_Utils.cpp:3196-3198 | A seven-party code that the compiler keeps and for which the superseded order waits for the wrong party. |
| Schedules.DestinationsByPlace | compute/smc-compute/SMC_Utils.cpp:3186-3195 | The destinations are (id + i - 1) mod n + 1 for the places i whose bit is set, from the lowest place up. |
| Schedules.OutsidersByPlace | compute/smc-compute/SMC_Utils.cpp:3199-3208 | The share set has (id + i - 1) mod n + 1 for the places i whose bit is clear, from the highest place down. |
| Schedules.ExtractShareWithAccess | compute/smc-compute/SMC_Utils.cpp:3186-3195 | The loop returns the destinations in increasing bit order, as the schedule that the lemmas are about. |
| Schedules.ExtractShareWithoutAccess | compute/smc-compute/SMC_Utils.cpp:3199-3208 | The downward loop returns the parties at the clear bits. |
| Schedules.ExtractShareWithoutAccessNew | compute/smc-compute/SMC_Utils.cpp:3210-3235 | The search over all parties fills slot k with the party whose k-th destination is the caller; it reports the out-of-range access for exactly those codes that have more set bits than slots. |
| Combinations.EveryChoiceOnce | compute/smc-compute/SMC_Utils.cpp:3238-3253 | Every increasing choice of k indices occurs at exactly one place of the list, earlier ones in lexicographic order first, C(n, k) in all. |
| Combinations.ChoicesComplete | compute/smc-compute/SMC_Utils.cpp:3238-3253 | No increasing choice is missing. |
| Combinations.ChoicesOrdered | compute/smc-compute/SMC_Utils.cpp:3248-3251 | The list is strictly increasing in lexicographic order. |
| Combinations.ChoicesCount | compute/smc-compute/SMC_Utils.cpp:3238-3253 | Its length is the binomial coefficient. |
| Combinations.TooFewLeft | compute/smc-compute/SMC_Utils.cpp:3246-3247 | The early return cuts off nothing: with too few indices left there is no choice. |
| Combinations.FoundElements | compute/smc-compute/SMC_Utils.cpp:3239-3244 | Entry j of the i-th list found is the element at the j-th index of the i-th choice. |
| Combinations.Search.GetCombinations | compute/smc-compute/SMC_Utils.cpp:3238-3253 | From any depth, with anything left over in the deeper slots of the shared position vector, the search terminates, keeps earlier results and appends exactly the completions of the filled part, in order. |
| Polynomials.CoefficientsExpandProduct | compute/smc-compute/SMC_Utils.cpp:3255-3281 | Read from the highest degree down, the coefficients are the expansion of the product of (x - s) over the share set, at every x and for every set. |
| Polynomials.EvalLeading | compute/smc-compute/SMC_Utils.cpp:3255-3258 | The first coefficient is the factor of the highest power. |
| Polynomials.ZeroExactlyOnRoots | compute/smc-compute/SMC_Utils.cpp:3255-3281 | The polynomial is zero at x if and only if x is in the share set. |
| Polynomials.ChoiceProducts | compute/smc-compute/SMC_Utils.cpp:3268-3277 | Summing the products of all completions of a partial choice gives the product of the chosen part times an elementary symmetric sum of the rest. |
| Polynomials.EntriesBounded | compute/smc-compute/SMC_Utils.cpp:3269-3278 | No finished coefficient exceeds the product of 1 + |s| over the set in absolute value. |
| Polynomials.RunningSums | compute/smc-compute/SMC_Utils.cpp:3269-3277 | Nor does any running sum of the products of one size. |
| Polynomials.PrefixProduct | compute/smc-compute/SMC_Utils.cpp:3271-3275 | Nor does any running product of one combination, taken over the combination. |
| Polynomials.MagnitudeFits | compute/smc-compute/SMC_Utils.cpp:3260-3281 | So when the product of 1 + |s| over the set is below 2^31, every value that the loops form is a machine integer. |
| Polynomials.ElementaryInMachine | compute/smc-compute/SMC_Utils.cpp:3263-3278 | Cutting the members to 32 bits before the additions and multiplications gives the same 32 bits of every coefficient. |
| Polynomials.GenerateCoefficients | compute/smc-compute/SMC_Utils.cpp:3260-3281 | The loops over subset sizes and combinations, on 32-bit integers in two's complement, store the elementary symmetric sums of the negated set cut to 32 bits; the flag tells exactly whether no operation overflows. Its condition in the number of parties is CoefficientRange.CoefficientsFitIff. |
| Polynomials.SumOfProducts | compute/smc-compute/SMC_Utils.cpp:3269-3277 | The loop over the combinations of one size adds up their products in 32 bits; its flag tells whether nothing overflows. |
| Polynomials.MultiplyOut | compute/smc-compute/SMC_Utils.cpp:3271-3275 | The loop over one combination multiplies its members in 32 bits; its flag tells whether nothing overflows. |
| CoefficientRange.CoefficientsFitIff | compute/smc-compute/SMC_Utils.cpp:3260-3281 | For n = 2t + 1 parties and any party: for all sets of t others nothing overflows if and only if t is at most 8, and for all of them the stored entries are the coefficients if and only if t is at most 8. |
| CoefficientRange.SubsetsFit | compute/smc-compute/SMC_Utils.cpp:3260-3281 | Up to 17 parties nothing overflows for any set, the largest bound being 11 times 12 up to 18. |
| CoefficientRange.LargeOverflows | compute/smc-compute/SMC_Utils.cpp:3260-3281 | For a set whose members are at least 10, 11 and so on, at least nine of them, the last entry overflows and is stored wrong. |
| CoefficientRange.OverflowAtNineteen | compute/smc-compute/SMC_Utils.cpp:3260-3281 | With 19 parties and the set of 11 to 19 the last coefficient is -33522128640 and 837609728 is stored. |
| ShareSets.SameShareSetRotates | compute/smc-compute/SMC_Utils.cpp:3199-3208 | Two generators whose share sets coincide use codes that are rotations of each other, by the difference of their numbers. |
| ShareSets.SameCodeSameGenerator | compute/smc-compute/SMC_Utils.cpp:3199-3208 | With n = 2t + 1, the n generators of one code have n different share sets. |
| ShareSets.ShareSetsDistinct | compute/smc-compute/SMC_Utils.cpp:3105-3161 | In a whole set-up with rotation-inequivalent codes no two keys are filed under one share set. |
| ShareSets.LeastTurnsInequivalent | compiler/src/picco/picco.c:778-792 | Two different words that both pass the compiler's test (no turn is smaller) are not rotations of each other. |
| ShareSets.LeastTurnIsOdd | compiler/src/picco/picco.c:778-792 | A nonzero word that passes the test has bit 0 set, as the runtime expects of a code. |
| ShareSets.CompilerSeedMap | compiler/src/picco/picco.c:767-806 | Words of weight t + 1 that pass that test form a seed map in the sense that the runtime needs. |
| ShareSets.SmallestTurnPasses | compiler/src/picco/picco.c:778-792 | The smallest turn of any word passes the test. |
| ShareSets.CompilerMapComplete | compiler/src/picco/picco.c:767-806 | The words of weight t + 1 that pass the test, taken together, are a seed map in which every code of t + 1 holders has a rotation. |
| SeedMapSize.CompleteMapSize | compiler/src/picco/picco.c:767-769 | A seed map with that property has exactly one code for every n of the C(n, t) sets of t parties. |
| SeedMapSize.CompilerMapSize | compiler/src/picco/picco.c:767-769 | The number of words that pass is the C(n, t) / n that the compiler allocates. |
| SeedMapSize.CompilerMapExists | compiler/src/picco/picco.c:772-806 | The words below 2^n that pass, in increasing order, are such a map. |
| Words.AndBit | compiler/src/picco/picco.c:781-782 | A bit of the conjunction is set when it is set in both words. |
| Words.OrBit | compiler/src/picco/picco.c:783-783 | A bit of the disjunction is set when it is set in one of the words. |
| Words.NotBit | compiler/src/picco/picco.c:780-780 | The complement is taken in the width of the word and has exactly the other bits. |
| NextWords.NextWordNext | compiler/src/picco/picco.c:796-800 | The word operations give the next larger word with as many bits set, with none of that weight in between, for every word two bits shorter than the machine word. |
| NextWords.NextWordIs | compiler/src/picco/picco.c:796-800 | They move the highest bit of the lowest block of ones up by one and the rest of that block to the bottom. |
| SeedGeneration.TurnedWordIs | compiler/src/picco/picco.c:779-785 | The masks and shifts turn the word right by i places, for every word and every i. |
| SeedGeneration.IsLeast | compiler/src/picco/picco.c:776-790 | The loop keeps a word exactly when no turn of it is smaller. |
| SeedGeneration.NChoosek | compiler/src/picco/picco.c:750-764 | The loop gives the binomial coefficient of the pairwise recursion for every n and k, every division in it being exact; its flag tells whether the products were machine integers. |
| SeedGeneration.StepsFit | compiler/src/picco/picco.c:759-762 | Up to 29 parties they are. |
| SeedGeneration.GenerateSeedMap | compiler/src/picco/picco.c:767-806 | The enumeration stores exactly the words below 2^n that pass, each larger than the one before, fills the allocated array exactly and never writes outside it. |
| ShareSets.EverySubsetReached | compute/smc-compute/SMC_Utils.cpp:3105-3161 | If every code of t + 1 holders is a rotation of one in the map, every set of t parties is the share set of some key. |
| FifoNetwork.StepInv | compute/smc-compute/SMC_Utils.cpp:3115-3120 | Every step of every party keeps all logs right and all channels equal to the sends not yet taken. |
| FifoNetwork.ReachableInv | compute/smc-compute/SMC_Utils.cpp:3115-3120 | So this holds in every state of every run. |
| FifoNetwork.NeverStuck | compute/smc-compute/SMC_Utils.cpp:3115-3120 | While a party has work left, the party whose next operation is earliest can move. |
| FifoNetwork.EveryRunCompletes | compute/smc-compute/SMC_Utils.cpp:3115-3120 | For every system of programs whose sends and receives answer each other: every interleaving ends, none stops before all programs are through, every receive gets the message meant for it. |
| FifoNetwork.EveryRunExtends | compute/smc-compute/SMC_Utils.cpp:3115-3120 | Every run of such programs can be continued to one in which all of them are through. |
| FifoNetwork.MatchedByTags | compute/smc-compute/SMC_Utils.cpp:3115-3120 | Programs whose logical messages are sent and received once each, in a common order, answer each other. |
| SeedSetup.SeedSystemMatched | compute/smc-compute/SMC_Utils.cpp:3105-3120 | The programs of seedSetup answer each other: what p sends to q is what q waits for from p, in the same order. |
| SeedSetup.PartnersInverse | compute/smc-compute/SMC_Utils.cpp:3105-3120 | In every numbered exchange, p sends to q exactly when q receives from p. |
| SeedSetup.KeyExchangeCorrect | compute/smc-compute/SMC_Utils.cpp:3105-3120 | Every interleaving of the key exchange is free of deadlock and ends, and each receive for a code and an index returns the key its sender drew for that code, never one of another code. |
| Maps.InsertedIffDistinct | compute/smc-compute/SMC_Utils.cpp:3130-3139 | Insertions into an empty map leave as many entries as insertions if and only if no key repeats; every key is there, with the value that came first. |
| SeedSetup.ProgramAt | compute/smc-compute/SMC_Utils.cpp:3105-3120 | Exchange s * t + k is a send of the key drawn for code s to its k-th destination, followed by a receive from its k-th source. |
| SeedSetup.SmcUtils.SeedSetup | compute/smc-compute/SMC_Utils.cpp:3086-3176 | The loop of one party performs the program that the protocol is about and leaves exactly the insertions, in order, of what it drew and of what arrived, with 32-bit coefficients; its flag tells exactly whether their computation overflows nowhere, and it does not with up to 17 parties. |
| SeedSetup.SmcUtils.File | compute/smc-compute/SMC_Utils.cpp:3128-3141 | One insertion into each table, keeping an existing entry. |
| SharedKeys.KeyWithExactlyTheOutsiders | compute/smc-compute/SMC_Utils.cpp:3105-3161 | After any completed run, q has an entry for a share set exactly when q is not in it; it is the key the generator drew, so all holders have the same bytes; no insertion was discarded. |
| SharedKeys.CompletedRunExists | compute/smc-compute/SMC_Utils.cpp:3105-3161 | For every seed map and all drawn keys there is a completed run. |
| SharedKeys.EverySubsetHeld | compute/smc-compute/SMC_Utils.cpp:3105-3161 | With a complete seed map q has a key for every set of t other parties and for nothing else. |
| SharedKeys.CompilerMapServesAll | compute/smc-compute/SMC_Utils.cpp:3105-3161 | With the map of all words that pass the compiler's test, then, q has a key for every set of t other parties and for nothing else. |
| SharedKeys.FiledSetsDistinct | compute/smc-compute/SMC_Utils.cpp:3123-3139 | The share sets that one party files keys under are pairwise different. |
| PseudoRandomSharing.SharesOfOnePolynomial | compute/smc-compute/SMC_Utils.cpp:3124-3149 | Whatever value is derived from each key, if the keys are distinct then each party's sum over only the 32-bit entries it stores is the value at its own number of one polynomial of degree at most t, the same for all parties, when the stored entries are the coefficients, as they are up to 17 parties. |
| SharingExact.SharesAgreeIff | compute/smc-compute/SMC_Utils.cpp:3124-3149 | For any seed map, any completed run and distinct keys: there is such a polynomial for all derived values if and only if the stored entries are the coefficients of every share set. |
| SharingExact.CompilerSharesIff | compute/smc-compute/SMC_Utils.cpp:3124-3149 | With the compiler's codes, if and only if there are at most 17 parties. |
| SharingExact.CompilerSetupFitsIff | compute/smc-compute/SMC_Utils.cpp:3086-3176 | With the compiler's codes the flag of seedSetup is set, for every single party, if and only if there are at most 17. |
| SharingExact.ForcedExact | compute/smc-compute/SMC_Utils.cpp:3255-3281 | If a polynomial of degree t takes the values of the stored one outside the set and zero on it, the stored one is the polynomial of the set. |
| Interpolation.Determined | compute/smc-compute/SMC_Utils.cpp:3255-3258 | A polynomial is determined by its values at as many different parties as it has coefficients. |
| PseudoRandomSharing.TableFull | compute/smc-compute/SMC_Utils.cpp:3130-3133 | No polynomial is discarded if and only if the party files no key twice. |
| PseudoRandomSharing.TableSumRestrict | compute/smc-compute/SMC_Utils.cpp:3255-3258 | Entries whose polynomial is zero at x can be left out of the sum at x. |
| PseudoRandomSharing.PolynomialHeld | compute/smc-compute/SMC_Utils.cpp:3124-3149 | Whatever a party holds is the key of some generator whose share set it is outside of, with the 32-bit entries of the polynomial of that set. |
| PseudoRandomSharing.PolynomialFiled | compute/smc-compute/SMC_Utils.cpp:3124-3149 | And it holds the key of every share set that it is outside of, with those entries: no insertion is lost when the keys are distinct. |
| NodeTables.SlotBijection | compute/smc-compute/NodeNetwork.cpp:1037-1050 | Peers and slots of the seed array correspond one to one, in ring order from t before to t after the party. |
| NodeTables.SlotsByDistance | compute/smc-compute/NodeNetwork.cpp:1037-1050 | The party d places before on the ring has slot t - d, the one d places after it slot t - 1 + d. |
| NodeTables.MaterialParts | compute/smc-compute/NodeNetwork.cpp:1026-1035 | The cipher key, the vector and the seed are consecutive parts of the material and together all of it. |
| NodeTables.SlotsMirror | compute/smc-compute/NodeNetwork.cpp:1037-1050 | If q has slot s at p then p has slot 2t - 1 - s at q. |
| NodeTables.Node.InitKeys | compute/smc-compute/NodeNetwork.cpp:1019-1058 | Bytes 32 to 47 of the material go to the slot of the peer, overwriting what was there; bytes 0 to 15 are its cipher key and 16 to 31 the vector, unless the peer has a cipher already. |
| NodeTables.Node.RequestConnection | compute/smc-compute/NodeNetwork.cpp:776-925 | Its network operations are a dial and a read for each of the next higher numbers in ascending order; it files socket and keys under them. |
| NodeTables.Node.AcceptPeers | compute/smc-compute/NodeNetwork.cpp:927-1017 | It listens once, then takes connections, labels the i-th by position alone, id - (i + 1), writes the material drawn for it into it and files it. |
| NodeTables.Node.ConnectToPeers | compute/smc-compute/NodeNetwork.cpp:419-427 | Its network operations are all requests, then all accepts; the tables are what both leave. |
| Startup.DialedInTurn | compute/smc-compute/NodeNetwork.cpp:786-853 | When p gets to dial m, exactly the parties between them have been accepted by m. |
| Startup.StepInv | compute/smc-compute/NodeNetwork.cpp:776-1017 | Every step of every party keeps the state of all connections, labels, keys and seeds right. |
| Startup.LabelsRight | compute/smc-compute/NodeNetwork.cpp:959-981 | In every interleaving the k-th connection that m accepts, from 0, comes from party m - (k + 1), although no identity is sent. |
| Startup.TablesAgree | compute/smc-compute/NodeNetwork.cpp:976-1010 | At the end both ends of each connection have the same socket and cipher keys, made of bytes 0 to 31 of what the acceptor drew, and slot s of p and slot 2t - 1 - s of q hold bytes 32 to 47. |
| Startup.NeverBlocked | compute/smc-compute/NodeNetwork.cpp:812-880 | Until every party has all connections and keys some step is enabled. |
| Startup.EveryRunConnects | compute/smc-compute/NodeNetwork.cpp:419-427 | No interleaving of the start-up has more than three steps a connection and one listen for each party but the first, and one of that length has connected everybody. |
| Startup.EveryRunExtends | compute/smc-compute/NodeNetwork.cpp:419-427 | Every run of the start-up can be continued until everybody is connected. |
| StartupTables.EventsInOrder | compute/smc-compute/NodeNetwork.cpp:419-427 | In every reachable state, whatever a party can do next is the next entry of the list of operations that its own code performs. |
| StartupTables.ListsWorkedOff | compute/smc-compute/NodeNetwork.cpp:419-427 | In a completed start-up every party has worked off its list. |
| StartupTables.SocketTablesInverse | compute/smc-compute/NodeNetwork.cpp:852-853 | In a completed start-up the table from peers to sockets names all other parties and the table from sockets to peers is its inverse. |
| StartupTables.RunMatchesCode | compute/smc-compute/NodeNetwork.cpp:419-427 | In a completed start-up each party has exactly the tables that its own loops compute from the connections and keys that the run gives it. |
| Chunks.ChunksCover | compute/smc-compute/NodeNetwork.cpp:216-221 | The chunks 0..rounds with end clamping are non-empty, in order from 0, without gap or overlap, all full but the last, and end at the size. |
| Chunks.CountIsLargest | compute/smc-compute/NodeNetwork.cpp:1071-1071 | The count is the one number of units that fit into the share of a party while one more does not. |
| Chunks.PositionsFitIff | compute/smc-compute/NodeNetwork.cpp:216-231 | Start plus amount is a machine integer for every chunk if and only if the size rounded up to whole chunks is one. |
| Chunks.ChunkFits | compute/smc-compute/NodeNetwork.cpp:1070-1076 | Each chunk has at most MAX_BUFFER_SIZE / (peers + 1) bytes. |
| Chunks.GetRounds | compute/smc-compute/NodeNetwork.cpp:1070-1076 | The count is the largest that fits, and the signed counter gives a cover of every message, the empty one included. |
| Chunks.GetRoundsRss | compute/smc-compute/NodeNetwork.cpp:1269-1276 | The count is the largest that fits; the unsigned counter is the number of the last chunk modulo 2^32 and covers every message that is not empty. |
| Chunks.GetRoundsBit | compute/smc-compute/NodeNetwork.cpp:1521-1528 | The same with units of one byte; the count is positive. |
| Chunks.UnsignedCoversNonEmpty | compute/smc-compute/NodeNetwork.cpp:1269-1276 | The unsigned counters give a cover if and only if the size is positive; for an empty message the bound of the loop is the largest unsigned value. |
| Chunks.ChunkBounds | compute/smc-compute/NodeNetwork.cpp:226-237 | The chunks sent are consecutive parts of the data and together the whole of it. |
| Wire.SignificantPadded | compute/smc-compute/NodeNetwork.cpp:237-243 | A value below 256^unit, exported into a cleared unit, fills it with its low bytes, lowest first. |
| Wire.LowByteAt | compute/smc-compute/NodeNetwork.cpp:241-241 | Byte i of a unit is the value divided by 256^i, modulo 256. |
| Wire.FromBytesSnoc | compute/smc-compute/NodeNetwork.cpp:275-275 | A byte string is read with the weight 256^i for byte i. |
| Wire.SignificantAt | compute/smc-compute/NodeNetwork.cpp:241-241 | Byte i of an export is the value divided by 256^i, modulo 256. |
| Wire.PackedAt | compute/smc-compute/NodeNetwork.cpp:237-243 | Byte b of value i is at i * unit + b of the message. |
| Wire.PackUnpack | compute/smc-compute/NodeNetwork.cpp:234-283 | Units read back give the values modulo the range of the unit. |
| Wire.RoundTripExact | compute/smc-compute/NodeNetwork.cpp:234-283 | The round trip through units is exact if and only if every value is below the range of the unit. |
| Wire.MpzExport | compute/smc-compute/NodeNetwork.cpp:241-241 | An export writes as many bytes as the value needs, lowest first, and leaves the rest of the buffer. |
| Wire.InsideIff | compute/smc-compute/NodeNetwork.cpp:236-243 | No export writes behind the buffer if and only if each value fits into what is left of the buffer. |
| Wire.ExportExact | compute/smc-compute/NodeNetwork.cpp:234-283 | Whatever values were exported inside the buffer, reading back gives them unchanged if and only if each fits its own unit. |
| Wire.PackChunk | compute/smc-compute/NodeNetwork.cpp:236-243 | For values of any size, the export loop leaves in the buffer what the exports make of it one after the other, as long as they stay inside, and reports exactly whether they do; the packed chunk when the values fit. |
| Wire.UnpackChunk | compute/smc-compute/NodeNetwork.cpp:274-277 | The import loop writes the unpacked values into their places and touches nothing else. |
| Wire.WholeMeansCounted | compute/smc-compute/NodeNetwork.cpp:297-300 | The division of the byte count by the element size loses nothing exactly when every call moved whole elements. |
| Wire.BytesAreWhole | compute/smc-compute/NodeNetwork.cpp:297-300 | With elements of one byte every schedule of partial transfers is counted exactly. |
| Wire.WidthIff | compute/smc-compute/NodeNetwork.cpp:288-323 | Every complete transfer is exact, under all schedules, if and only if the elements are single bytes or there are none; the thread number and the header (lines 583-584) go out as wider elements. |
| Wire.SplitElement | compute/smc-compute/NodeNetwork.cpp:297-300 | A concrete schedule for four-byte elements that sends an element twice. |
| Wire.SendAll | compute/smc-compute/NodeNetwork.cpp:289-306 | Under any results of the calls, each call puts on the wire the bytes from the first element not counted yet; all together they are the data if and only if every call moved whole elements. |
| Wire.RecvAll | compute/smc-compute/NodeNetwork.cpp:308-323 | What is read is the front of the stream, and exactly the message is taken from it, if and only if every call moved whole elements. |
| Wire.Transfer | compute/smc-compute/NodeNetwork.cpp:245-272 | A message passes encryption, both loops under any partial transfers, and decryption unchanged. |
| Wire.TransferChunk | compute/smc-compute/NodeNetwork.cpp:234-283 | Big integers of any size whose exports stay inside the buffer arrive unchanged if and only if they fit their unit, under any partial transfers and any cipher that decryption undoes. |
| Words.AndMask | compute/smc-compute/NodeNetwork.cpp:1357-1357 | Masking with 2^k - 1 keeps exactly the value modulo 2^k. |
| Wire.MaskTable | compute/smc-compute/NodeNetwork.cpp:179-185 | Entry i of the mask table is 2^i - 1 for every i up to the full width, whatever the undefined full-width shift gives. |
| Wire.PackRing | compute/smc-compute/NodeNetwork.cpp:1343-1360 | The sender reduces its own copy modulo 2^ring_size in place and packs the reduced values. |
| Wire.UnpackRing | compute/smc-compute/NodeNetwork.cpp:1388-1404 | The receiver clears its words and gets exactly the units. |
| Wire.TransferRing | compute/smc-compute/NodeNetwork.cpp:1343-1411 | Whatever the words held, receiver and sender end with the same values modulo 2^ring_size. |
| AllToAll.ExchangeMatched | compute/smc-compute/NodeNetwork.cpp:358-369 | The programs of the lock-step exchange answer each other. |
| AllToAll.OthersInOrder | compute/smc-compute/NodeNetwork.cpp:359-368 | The loops go through the other parties in increasing order, each once and never the party itself. |
| AllToAll.TwoChunksAtMost | compute/smc-compute/NodeNetwork.cpp:358-369 | In no state of any interleaving does a channel hold more than two chunks. |
| AllToAll.WholeDataArrived | compute/smc-compute/NodeNetwork.cpp:350-394 | A party that is through has, for every peer, the whole of what the peer had for it, and its own data. |
| AllToAll.AllToAllCorrect | compute/smc-compute/NodeNetwork.cpp:350-394 | Every interleaving ends with all parties through, never gets stuck before, delivers the data of every peer, and keeps every channel at two chunks or less. |
| AllToAll.BroadcastCorrect | compute/smc-compute/NodeNetwork.cpp:375-394 | After a broadcast, row j of everybody's buffers is what party j broadcast. |
| AllToAll.MulticastToPeers | compute/smc-compute/NodeNetwork.cpp:350-372 | The loops of one party perform its program and leave value l of the k-th chunk from j in cell k * count + l of row j, and value i of its own part in cell i of row id. |
| AllToAll.BroadcastToPeers | compute/smc-compute/NodeNetwork.cpp:375-394 | The same when every peer is sent the same data. |
| AllToAll.SendRound | compute/smc-compute/NodeNetwork.cpp:359-363 | The first inner loop sends chunk k to every other party, in the order of their numbers. |
| AllToAll.TakeRound | compute/smc-compute/NodeNetwork.cpp:364-368 | The second inner loop puts one more chunk of every peer behind the ones already there. |
| AllToAll.KeepOwn | compute/smc-compute/NodeNetwork.cpp:370-371 | The final copy puts value i of the own data into cell i of the own row and touches no other row. |
| AllToAll.StoreChunk | compute/smc-compute/NodeNetwork.cpp:274-277 | Value l of a chunk goes to cell start + l of the row of its sender; no other cell changes. |
| ThreadLane.LastOnlyAtEnd | compute/smc-compute/NodeNetwork.cpp:607-609 | The receiver's test for the last piece of a call holds for the last chunk and no other. |
| ThreadLane.ChunkOfCall | compute/smc-compute/NodeNetwork.cpp:746-771 | Chunk k of call c is a piece of call number c, at its place of the buffer. |
| ThreadLane.PlanCalls | compute/smc-compute/NodeNetwork.cpp:746-771 | As many calls end as were made, and the last piece ends a call. |
| ThreadLane.StartedRight | compute/smc-compute/NodeNetwork.cpp:748-755 | Starting a call opens the buffers without disturbing chunks that came early. |
| ThreadLane.StoredRight | compute/smc-compute/NodeNetwork.cpp:594-625 | Storing a chunk directly puts it into the buffer of its own call and keeps flags and counters right. |
| ThreadLane.TookAheadRight | compute/smc-compute/NodeNetwork.cpp:514-527 | Keeping an early chunk in the empty slot keeps everything right. |
| ThreadLane.RaisedRight | compute/smc-compute/NodeNetwork.cpp:612-621 | Raising the flag completes a round of all peers. |
| ThreadLane.RestoredRight | compute/smc-compute/NodeNetwork.cpp:530-561 | A turn of the pass over the peers moves a waiting chunk into the buffer that it belongs to. |
| ThreadLane.PassIncomplete | compute/smc-compute/NodeNetwork.cpp:549-558 | The counter never reaches the number of peers inside restoreDataToBuffer: the peer that completed the round has no early chunk. |
| ThreadedManager.OneAhead | compute/smc-compute/NodeNetwork.cpp:756-771 | A peer has never sent more than one chunk beyond the one that the receiving worker is exchanging. |
| ThreadedManager.SlotEmpty | compute/smc-compute/NodeNetwork.cpp:481-483 | The single temporary slot of a peer and thread is empty whenever it is written. |
| ThreadedManager.CountersAlwaysRight | compute/smc-compute/NodeNetwork.cpp:465-505 | Between messages the counter of a thread is the number of peers marked as finished. |
| ThreadedManager.PassHasChunks | compute/smc-compute/NodeNetwork.cpp:764-771 | When the flag of a worker is up, the chunk it waits for has been stored of every peer, in the buffers of its own call and at its own place. |
| ThreadedManager.StepRight | compute/smc-compute/NodeNetwork.cpp:465-505 | Every step of every worker and manager keeps what is right about all parties, threads, channels and managers. |
| ThreadedManager.NeverStuck | compute/smc-compute/NodeNetwork.cpp:465-505 | While a worker has calls to make some step is enabled, although threads share managers and channels. |
| ThreadedManager.ThreadedPhaseCorrect | compute/smc-compute/NodeNetwork.cpp:465-774 | All of this in every reachable state of any number of parties and threads with any calls. |
| ThreadedRuns.EveryRunEnds | compute/smc-compute/NodeNetwork.cpp:465-774 | No run is longer than a bound given by the calls, and a run that cannot be continued has every worker through. |
| ThreadedRuns.EveryRunExtends | compute/smc-compute/NodeNetwork.cpp:465-774 | Every run can be continued until all workers are through with their calls. |
| ThreadedBuffers.ReturnedCallComplete | compute/smc-compute/NodeNetwork.cpp:711-774 | In every run, when a worker has returned from a call, its buffer for each peer holds the whole of what the peer passed to the same call. |
| ThreadedBuffers.BufferComplete | compute/smc-compute/NodeNetwork.cpp:538-547 | The recorded chunks of a call, put at their places, make up the data, whatever was stored before or after. |
| ThreadedBuffers.PieceWritten | compute/smc-compute/NodeNetwork.cpp:539-543 | What the receiver writes of a piece is as long as the chunk that was sent for it. |
| ThreadedBuffers.CallsApart | compute/smc-compute/NodeNetwork.cpp:746-771 | Pieces before those of a call belong to earlier calls, pieces after them to later ones. |
| ManagerThread.Node.OpenBuffers | compute/smc-compute/NodeNetwork.cpp:674-682 | Sets the handlers to the caller's buffers and opens them all; the party stays right. |
| ManagerThread.Node.SendChunk | compute/smc-compute/NodeNetwork.cpp:687-693 | One turn of the sending loop sends the current piece to the next other party in number order. |
| ManagerThread.Node.PassFlag | compute/smc-compute/NodeNetwork.cpp:694-702 | Lowers the flag and goes on to the next chunk or out of the call; when it leaves the call, every buffer holds the whole of what its peer passed to the same call. |
| ManagerThread.Node.ReadThread | compute/smc-compute/NodeNetwork.cpp:480-485 | A chunk of a peer that has already served the round is to go to the slot, any other to its buffer. |
| ManagerThread.WriteChunk | compute/smc-compute/NodeNetwork.cpp:538-547 | Writes the chunk to its place of its peer's buffer and to no other buffer, so that all buffers stay what the chunks stored for the call make of them. |
| ManagerThread.Node.GetDataFromPeer | compute/smc-compute/NodeNetwork.cpp:594-625 | Stores the next chunk of a peer in its open buffer, closes the buffer after the last piece, counts, and ends the turn or waits for the flag; party and buffers stay right. |
| ManagerThread.Node.GetDataFromPeerToBuffer | compute/smc-compute/NodeNetwork.cpp:514-527 | Fills the empty slot of the peer and nothing else; the party stays right. |
| ManagerThread.Node.RaiseFlag | compute/smc-compute/NodeNetwork.cpp:612-621 | Raises the flag, clears the counter and marks the peer; the party stays right. |
| ManagerThread.Node.FinishPeer | compute/smc-compute/NodeNetwork.cpp:485-493 | Marks the peer and starts the pass exactly when all peers are marked. |
| ManagerThread.Node.RestorePeer | compute/smc-compute/NodeNetwork.cpp:494-501 | One turn of the pass, which moves a waiting chunk into its buffer; party and buffers stay right. |
| Crc.FeedBitDivides | common/sse2neon.h:8487-8543 | The bit step is one step of division by the polynomial of section 12.1 of RFC 3720, on reversed coefficients. |
| Crc.NibbleStep | common/sse2neon.h:8528-8543 | One look-up in the half-byte table is four bit steps, for every register. |
| Crc.ChecksumByte | common/sse2neon.h:8487-8546 | Adding a byte at once and making two table steps feeds its eight bits. |
| Crc.ChecksumAppend | common/sse2neon.h:8435-8487 | The checksum of a message continues from that of its first part. |
| Crc.CheckValue | common/sse2neon.h:8528-8543 | The digits 1 to 9 in ASCII, with start and result inverted, have the published check value 0xe3069283. |
| Crc.WordBytesAt | common/sse2neon.h:8436-8487 | Byte i of a word is the word shifted right by 8 i, cut to eight bits, for 16, 32 and 64 bits. |
| Crc.Crc32U8 | common/sse2neon.h:8492-8546 | Returns the bit by bit checksum continued with one byte. |
| Crc.Crc32U16 | common/sse2neon.h:8436-8450 | Continued with bytes v and v >> 8, cut to eight bits. |
| Crc.Crc32U32 | common/sse2neon.h:8455-8469 | Continued with bytes v, v >> 8, v >> 16, v >> 24. |
| Crc.Crc32U64 | common/sse2neon.h:8474-8487 | Continued with bytes v, v >> 8, up to v >> 56, from the lower half of the register. |
| Crc.MessageAppend | common/sse2neon.h:8436-8487 | The bytes of a list of words are those of its words one after the other. |
| Crc.Crc32Words | common/sse2neon.h:8436-8487 | However a byte string is cut into 1, 2, 4 and 8-byte words, the result is its bit by bit CRC-32C. |
| Crc.OwnChecksumCancels | common/sse2neon.h:8528-8543 | A message followed by its own checksum has checksum 0, for every message and start value. |
| Aes.SboxInverse | common/sse2neon.h:8552-8640 | The two tables undo each other on every byte. |
| Aes.SboxIsStandard | common/sse2neon.h:8552-8591 | Every entry of the first table is the affine transformation of the multiplicative inverse, as section 5.1.1 of FIPS 197 defines it. |
| Aes.UnMix | common/sse2neon.h:8791-8817 | InvMixColumns undoes MixColumns on every column. |
| Aes.ShiftRowsBytes | common/sse2neon.h:8693-8746 | ShiftRows takes bytes 0, 5, 10, 15, then 4, 9, 14, 3, then 8, 13, 2, 7, then 12, 1, 6, 11. |
| Aes.ExampleRound | common/sse2neon.h:8693-8746 | The round gives the state after round 1 of the example in appendix B of FIPS 197. |
| Aes.AesEncIsRound | common/sse2neon.h:8693-8746 | The table-based round is AddRoundKey after MixColumns after ShiftRows after SubBytes, on every block and key. |
| Aes.TableColumns | common/sse2neon.h:8694-8717 | The generated tables hold the products of a substituted byte with the columns of the matrix. |
| Aes.AesEncLastIsLastRound | common/sse2neon.h:8846-8867 | The explicit byte list is the last round of the standard. |
| Aes.MultiplyTruncates | common/sse2neon.h:8642-8648 | The multiplication macro on promoted integers gives the field product after truncation to a byte. |
| Aes.UnshiftInto | common/sse2neon.h:8793-8797 | The scatter loop is InvSubBytes after InvShiftRows. |
| Aes.UnmixRows | common/sse2neon.h:8799-8814 | The column loop updates the array in place to InvMixColumns of it. |
| Aes.UnmixRow | common/sse2neon.h:8800-8814 | One turn of the column loop changes one row of the array, to InvMixColumns of that column. |
| Aes.AesDec | common/sse2neon.h:8791-8817 | A decryption round of the equivalent inverse cipher, section 5.3.5 of FIPS 197. |
| Aes.AesDecLast | common/sse2neon.h:8896-8905 | Its last round. |
| Aes.AesImc | common/sse2neon.h:8932-8952 | InvMixColumns of a block. |
| Aes.RoundUndone | common/sse2neon.h:8791-8817 | A decryption round with a transformed key takes the state after an encryption round back by one round. |
| Aes.RoundTrip | common/sse2neon.h:8552-8952 | For every block and every list of round keys, decryption with the transformed keys in reverse order undoes encryption. |
| Aes.EncryptBlock | compute/smc-compute/rss/RepSecretShare.hpp:543-554 | For the states that start with block xor first and go on by AesEnc with one key after the other, the result is AesEncLast of the last state with the last key; it is the encryption of the standard. |
| Aes.DecryptBlock | common/sse2neon.h:8791-8952 | For the states that start with block xor last and go on by decryption rounds with the transformed keys from the last to the first, the result is the last decryption round with the first key. |
| Aes.PrgAes | compute/smc-compute/rss/RepSecretShare.hpp:536-558 | One block of the generator is the block xor its encryption with r[0] first, r[1] to r[9], and r[10] last. |
| Aes.BlockRoundTrip | common/sse2neon.h:8552-8952 | The intrinsics, composed so, give back every block under every list of round keys. |

## Left out

- Sockets, `select`, host names, RSA, AES-CTR contexts, `/dev/urandom`, timeouts and `exit`: foreign calls. Channels are unbounded FIFOs, key material is a parameter, a dial is repeated until the peer listens, and encryption is any length-preserving function that decryption undoes.
- The AES block counter state inside OpenSSL contexts: each message is encrypted and decrypted on its own.
- The single `read` of the key in measurement mode (NodeNetwork.cpp, lines 910-913): the waiting loop of deployment mode is modelled instead, and a key is read whole.
- The switch between threaded and non-threaded phases by the message -2 (NodeNetwork.cpp, lines 469-479 and 650-669) and the file-level globals shared by sender and manager (line 288): they depend on timing below whole messages, so the threaded model stays inside one phase and takes messages whole.
- ThreadedManager.ThreadedPhaseCorrect: the parties make the same calls with the same sizes in each thread, and a call does not wait for another thread; a chunk stored in a buffer is recorded as call, place and content, ThreadedBuffers replays these records, and ManagerThread ties them to the arrays. The final copy of a worker's own data (lines 706-707 and 772-773) is only modelled outside the threaded phase, as AllToAll.KeepOwn.
- AllToAll.AllToAllCorrect: a chunk travels as a value; that packing, encryption and partial transfers keep it is stated separately, in Wire.
- Wire.PackChunk: an export that leaves the buffer ends the model of the call; what it does to other memory is not modelled.
- Wire.RecvAll: no call returns more than has arrived; the contract describes the call, not the kernel's buffers.
- Polynomials.GenerateCoefficients: an overflow of `int` is undefined in the source's language; the model takes the two's complement result, and the flag reports every overflow.
- PseudoRandomSharing.SharesOfOnePolynomial: values and sums are integers; what the integers satisfy holds modulo the field prime as well, and the exact bound of SharingExact is about the integers.
- `multicastToPeers_Mult` and `multicastToPeers_Open`: the same chunk loops on subsets of peers, and threaded bodies that are not implemented after the mode check.
- The `SendAndGetDataFromPeer` family and the byte variants of send and receive: the same loops on other element types; their round counters are in Chunks.
- The `smc_*` operator wrappers (SMC_Utils.cpp, lines 463-3067), share-file decryption (lines 32-359), NodeConfiguration and the compiler apart from `nChoosek` and `generateSeedMap`: dispatch, fixed-offset slicing, a line parser, code generation.
- The secret-sharing arithmetic itself (`shamir/`, `rss/`, `ops/`) is not part of this model.
- RepSecretShare.hpp beyond `prg_aes` (lines 536-558): the key schedule and the buffering of the generator's output are not part of this model.
- The rest of `sse2neon.h`, and the AArch64 and crypto-extension branches of the modelled functions: wrappers around single instructions.

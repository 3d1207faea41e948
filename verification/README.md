# Verified models of afllive

Dafny models of the parts of afllive (AFL++ with the library-fuzzing scripts around it) where the
most state, arithmetic or protocol is, and proofs of what they are for. `dafny verify dfyconfig.toml`
checks the whole project.

- **XXH3, XXH32, XXH64** (`Words`, `Xxh3Scalar`, `Xxh3Stream`, `Xxh3Invariant`, `Xxh3State`,
  `Xxh3Loops`, `Xxh3Vectors`, `LaneHash`, `Xxh32`, `Xxh64`, `XxhVectors`): the
  streaming states as classes over their buffers, and the one-shot loops. Both are proved to compute one fold over the input, so every chunking gives the same hash.
  The loops take the accumulate, scramble and finalize steps as function values, as the source takes
  function pointers, so the chunking results hold for every such step; `ScalarSuite`, `Suite32` and
  `Suite64` are the scalar ones, and the methods `ScalarBothWays` put them to use. The portable 128-bit
  multiply is proved exact, the scalar accumulation has its law lane by lane, and known answers fix
  the mixers.
- **JSON** (the modules `Json...`): the two parsing passes over one allocation, the two writers
  with their sizing passes, an independent grammar between them, and the round trips with the exact
  condition under which they hold. `JsonCodes` fixes the bytes that all of them share.
- **Fork server** (`ForkKernel`, `ForkRounds`, `ForkServer`, `PersistentLoop`): the handshake and the request loop
  against a kernel whose every event (control words, deaths, stops, failing calls, the end of the run)
  is drawn from an arbitrary sequence, so a method's postcondition speaks of every reachable state.
- **Pool list** (`PoolList`): the ring of elements with its pool, refined to a plain sequence.
- **Scheduler** (`Scheduler`, `LogSections`, `CommandLog`): the log reader against the sections
  of the log, and the greedy campaign loop for arbitrary outcomes with its set-cover bound.
- **Argument constraints** (`ConstraintText`, `ConstraintParser`, `ConstraintDerive`, `ConstraintExact`,
  `ConstraintGenerator`, `Renumber`): derivation, printing, parsing and renumbering.
- **Coverage maps** (`CoverageMap`, `CoverageWords`): rating, discovering and skimming, written once for
  any word width and instantiated at 32 and 64 bits.
- **Growable buffer** (`Bits`, `GrowBuffer`): rounding up to powers of two by bit smearing, and growing.

## How the code is read

- Machine integers are explicit: bit-vectors where bits matter, natural numbers reduced modulo 2^32 or
  2^64 where sums may wrap.
- A `FATAL`, an exception, a failed call or a null result is a result value, never a precondition.
- Outcomes of the outside world (an allocation, a campaign, a kernel event, the name and type guesses of
  the constraint generator, the substring tests of the log reader) are parameters.
- `json_parse` runs with default flags. A read at the end of the text counts as a rejection; an exponent
  cut off by the end makes the source step past the text and always fails later, which is modelled as a
  rejection on the spot. Structure sizes are those of 64-bit pointers.
- A lone `-` at the very end of a text is accepted as a number: the code, not the grammar, is followed,
  and `ScanAcceptsLexemes` states the exact set.
- After a length in front of its buffer is found, the constraint generator also passes over the parameter
  behind the buffer; the model does the same.
- The blacklist of the scheduler is reset in every round and holds rewritten commands, so it never
  excludes anything and does not appear. Quotas are rounded up exactly, not through floating point.
- The documented promise of `next_pow2` fails for 0, holds from 1 to 2^32 and fails above that for some
  sizes; `RoundsUpExactly` says for which. That of `afl_realloc` to cover the request holds exactly when the
  request and its header fit a word.
- A string with a NUL byte, which the escape \u0000 makes, is written raw and then rejected; the round
  trips state that as their condition.
- In the fork server the stop flag is cleared before a killed child is waited for, so in that one wait
  the flag and the child disagree; `Serve` states the exception, `WriteOff` when it
  occurs and `WrongFlag` a state where it does.

## Model

| member | source | states |
|---|---|---|
| `Xxh3State.BothWays` | aflplusplus/include/xxhash.h:5352-5543 | for every input, every split into updates and every mode (default, any seed, any secret of at least 136 bytes) the streaming digest and the one-shot hash are the same value, the reference hash |
| `Xxh3State.ScalarBothWays` | aflplusplus/include/xxhash.h:5352-5543 | the same for the scalar code with nothing left open: the short hash up to 240 bytes, the merged scalar accumulators of the long loop above |
| `Xxh3State.HashStream` | aflplusplus/include/xxhash.h:5388-5543 | a digest taken after every update is the one-shot hash of everything fed so far, so reading a digest mid-stream changes nothing |
| `Xxh3State.OneShot` | aflplusplus/include/xxhash.h:5128-5180 | the one-shot entry points compute the reference hash of the mode: short lengths by the short hash, longer ones by the fold over stripes |
| `Xxh3State.State.constructor` | aflplusplus/include/xxhash.h:5261-5269 | a new state has seed 0 and satisfies the layout invariant |
| `Xxh3State.State.ResetInternal` | aflplusplus/include/xxhash.h:5287-5312 | the state starts over: nothing buffered, nothing absorbed, block geometry from the secret size |
| `Xxh3State.State.Reset` | aflplusplus/include/xxhash.h:5314-5321 | after a plain reset the state is ready in default mode with nothing fed |
| `Xxh3State.State.ResetWithSecret` | aflplusplus/include/xxhash.h:5323-5333 | an absent or short secret is refused; otherwise the state is ready in the mode of that secret |
| `Xxh3State.State.ResetWithSeed` | aflplusplus/include/xxhash.h:5335-5345 | the state is ready in the mode of the seed, and whenever the stored seed is not zero the cached secret is the one derived from it |
| `Xxh3State.State.Update` | aflplusplus/include/xxhash.h:5388-5483 | any input appended to what was fed keeps the state ready; the stripe counter stays below the stripes of a block and the buffer is never empty after the first byte |
| `Xxh3State.State.FillAndDrain` | aflplusplus/include/xxhash.h:5425-5440 | filling the buffer from the input and consuming it drains exactly those bytes and keeps the last stripe readable |
| `Xxh3State.State.DrainFull` | aflplusplus/include/xxhash.h:5434-5438 | consuming the filled buffer drains it and keeps its last stripe readable |
| `Xxh3State.State.DrainAndKeep` | aflplusplus/include/xxhash.h:5444-5462 | consuming whole buffer sizes of the input drains them and keeps the stripe before the rest |
| `Xxh3State.DrainInput` | aflplusplus/include/xxhash.h:5447-5456 | the loop over whole buffer sizes leaves between one and 256 bytes and folds everything before them |
| `Xxh3State.State.LastStripe` | aflplusplus/include/xxhash.h:5502-5518 | the last 64 bytes fed, from the buffer or from both of its ends |
| `Xxh3State.State.ConsumeBuffered` | aflplusplus/include/xxhash.h:5492-5500 | the buffered stripes but the last, folded into a copy of the accumulators |
| `Xxh3State.State.DigestLong` | aflplusplus/include/xxhash.h:5485-5521 | the digest of a long input is the fold over all full stripes followed by the last, overlapping stripe, without touching the state |
| `Xxh3State.State.Digest` | aflplusplus/include/xxhash.h:5523-5543 | the digest is the reference hash of everything fed |
| `Xxh3State.InitCustomSecret` | aflplusplus/include/xxhash.h:4777-4848 | the derived secret is the default one with the seed added to and subtracted from alternate words |
| `Xxh3State.DeriveSecret` | aflplusplus/include/xxhash.h:4777-4848 | the secret the scalar suite derives from a seed is what that loop leaves |
| `Xxh3Stream.FoldSplit` | aflplusplus/include/xxhash.h:5352-5382 | folding m stripes and then n more is folding m + n: the law behind every chunking |
| `Xxh3Stream.ConsumeStripes` | aflplusplus/include/xxhash.h:5352-5382 | consuming stripes from any position in a block is the fold, scrambling exactly at block ends |
| `Xxh3Stream.Accumulate` | aflplusplus/include/xxhash.h:4908-4923 | the accumulate loop is the plain accumulation of n stripes |
| `Xxh3Stream.FoldInsideBlock` | aflplusplus/include/xxhash.h:5375-5381 | inside a block the fold is a plain accumulation from the current secret segment |
| `Xxh3Stream.FoldToBlockEnd` | aflplusplus/include/xxhash.h:5363-5369 | up to the end of a block it is an accumulation and one scramble |
| `Xxh3Stream.FoldAcross` | aflplusplus/include/xxhash.h:5363-5374 | across the end of a block it is accumulate, scramble, accumulate |
| `Xxh3Stream.HashBlocks` | aflplusplus/include/xxhash.h:4939-4945 | the block loop of the one-shot hash is the fold over whole blocks |
| `Xxh3Stream.HashLongLoop` | aflplusplus/include/xxhash.h:4925-4971 | block by block, then a partial block, then the last stripe: the same value as the fold |
| `Xxh3Invariant.DrainBuffer` | aflplusplus/include/xxhash.h:5425-5440 | the drained prefix grows by the buffer, and the tail of it stays in the buffer |
| `Xxh3Invariant.BufferRest` | aflplusplus/include/xxhash.h:5466-5468 | buffering what is left restores the invariant |
| `Xxh3Invariant.DigestIsLongAcc` | aflplusplus/include/xxhash.h:5485-5506 | consuming the buffered stripes and the last 64 bytes gives the one-shot accumulators |
| `Xxh3Invariant.StraddlingStripe` | aflplusplus/include/xxhash.h:5508-5518 | with fewer than 64 bytes buffered, the last stripe is put together from the end and the start of the buffer |
| `Xxh3Scalar.Mult64to128` | aflplusplus/include/xxhash.h:3722-3735 | high * 2^64 + low is the true product for all 64-bit operands |
| `Xxh3Scalar.SumsFit` | aflplusplus/include/xxhash.h:3728-3731 | neither intermediate sum of the multiply wraps |
| `Xxh3Scalar.NoCarryIsLost` | aflplusplus/include/xxhash.h:3727-3735 | the two result words add up to the four partial products at their places |
| `Xxh3Scalar.Mult32to64` | aflplusplus/include/xxhash.h:3616-3617 | the product of the low halves fits 64 bits |
| `Xxh3Scalar.CustomSecretReads` | aflplusplus/include/xxhash.h:4777-4848 | the words of the derived secret are those of the default one, the even ones plus the seed, the odd ones minus it |
| `Xxh3Scalar.SecretReads` | aflplusplus/include/xxhash.h:3555-3574 | the bytes of the default secret hold its 24 words in little-endian order |
| `Xxh3Scalar.AccumulatedLane` | aflplusplus/include/xxhash.h:4734-4754 | for all accumulators, stripes and keys, each lane gains the data word of the other lane of its pair and the product of the two halves of its own keyed word |
| `Xxh3Scalar.AbsorbedLane` | aflplusplus/include/xxhash.h:4745-4750 | the same for any way to add and to mix words |
| `Xxh3Scalar.LaneAfter` | aflplusplus/include/xxhash.h:4745-4750 | what has reached a lane after each number of rounds |
| `Xxh3Scalar.AbsorbInPlace` | aflplusplus/include/xxhash.h:4745-4752 | the loop over the lanes, in place |
| `Xxh3Scalar.AccumulateScalar` | aflplusplus/include/xxhash.h:4734-4754 | the scalar kernel leaves the accumulated lanes |
| `Xxh3Scalar.BranchesArePairs` | aflplusplus/include/xxhash.h:3996-4021 | from 17 to 128 bytes the nested branches mix one pair, from the front and from the back, for each 32 bytes begun, the innermost first |
| `Xxh3Vectors.Empty` | aflplusplus/include/xxhash.h:3903-3919 | the published hash of the empty input with seed 0 |
| `Xxh3Vectors.OneByte` | aflplusplus/include/xxhash.h:3829-3855 | the hash of one zero byte |
| `Xxh3Vectors.FourBytes` | aflplusplus/include/xxhash.h:3857-3877 | the hash of four zero bytes |
| `Xxh3Vectors.FoldVector` | aflplusplus/include/xxhash.h:3751-3756 | a known answer of the folded multiply, the product met by nine zero bytes |
| `Xxh3Vectors.SwapVector` | aflplusplus/include/xxhash.h:2575-2584 | a known answer of the byte swap |
| `Xxh3Vectors.AvalancheVector` | aflplusplus/include/xxhash.h:3770-3777 | a known answer of the last mixing of 9 to 240 bytes |
| `Xxh3Vectors.KeyedStep` | aflplusplus/include/xxhash.h:4747-4750 | a known answer of the keyed product of a lane |
| `Xxh3Vectors.ScrambleStep` | aflplusplus/include/xxhash.h:4766-4770 | a known answer of the scramble of a lane |
| `Xxh3Loops.ScrambleScalar` | aflplusplus/include/xxhash.h:4756-4775 | the scramble loop changes every lane in place, with its own word of the secret |
| `Xxh3Loops.Merge` | aflplusplus/include/xxhash.h:4982-5008 | the merging loop is the mixed sum of the start value and the four pairs of lanes |
| `Xxh3Loops.MixPair` | aflplusplus/include/xxhash.h:4973-4990 | pair i is two neighbouring lanes, keyed 16 bytes behind the pair before |
| `Xxh3Loops.Middle` | aflplusplus/include/xxhash.h:4029-4090 | for 129 to 240 bytes the two loops compute the sum over the whole 16-byte groups, the first eight mixed in between, and the last 16 bytes |
| `Xxh3Loops.AddGroups` | aflplusplus/include/xxhash.h:4045-4085 | either loop adds the mixes of its groups in order, for any way to add and to mix |
| `Xxh3Loops.Places` | aflplusplus/include/xxhash.h:4947-4970 | with the default secret a block has 16 stripes, and the last 64 bytes are keyed at offset 121 |
| `Xxh3Vectors.FirstAccumulators` | aflplusplus/include/xxhash.h:5012-5018 | the accumulators that a long hash starts from |
| `Xxh32.HashChunks` | aflplusplus/include/xxhash.h:2345-2455 | for every chunking, totals past 2^32 included, the streaming digest is the one-shot hash |
| `Xxh32.ScalarBothWays` | aflplusplus/include/xxhash.h:2222-2455 | the same for the scalar primitives, with the one-shot hash beside it |
| `Xxh32.LengthTracking` | aflplusplus/include/xxhash.h:2361-2363 | with a total kept modulo 2^32, the large-length flag is set exactly when the true total is at least 16 |
| `Xxh32.SwitchIsLoop` | aflplusplus/include/xxhash.h:2116-2204 | the switch form and the loop form of the finalizer agree for every length |
| `Xxh32.CasesAgree` | aflplusplus/include/xxhash.h:2139-2197 | each fall-through chain of the switch is the loop on that many bytes |
| `Xxh32.FinalizeRerolled` | aflplusplus/include/xxhash.h:2119-2137 | the finalizing loops take whole words and then bytes of the tail |
| `Xxh32.OneShot` | aflplusplus/include/xxhash.h:2222-2273 | the one-shot hash is the reference: lanes over all stripes, convergence or short start, length, tail |
| `Xxh32.State.constructor` | aflplusplus/include/xxhash.h:2328-2343 | a state seeded and with nothing fed |
| `Xxh32.State.Reset` | aflplusplus/include/xxhash.h:2328-2343 | starts over with the seed |
| `Xxh32.State.Update` | aflplusplus/include/xxhash.h:2345-2431 | appends the input to what was fed and keeps the invariant |
| `Xxh32.State.Track` | aflplusplus/include/xxhash.h:2361-2363 | the wrapped total and the flag after the update |
| `Xxh32.State.Digest` | aflplusplus/include/xxhash.h:2435-2455 | the reference hash of everything fed, of any length |
| `Xxh32.Suite32IsCoherent` | aflplusplus/include/xxhash.h:2435-2448 | the third lane of a fresh state is the seed, which the short path relies on |
| `Xxh64.HashChunks` | aflplusplus/include/xxhash.h:2880-2988 | for every chunking of fewer than 2^64 bytes the streaming digest is the one-shot hash |
| `Xxh64.ScalarBothWays` | aflplusplus/include/xxhash.h:2753-2988 | the same for the scalar primitives, with the one-shot hash beside it |
| `Xxh64.FinalizeLoops` | aflplusplus/include/xxhash.h:2708-2741 | words of eight, then four, then single bytes of the tail |
| `Xxh64.LengthTracking` | aflplusplus/include/xxhash.h:2896-2896 | the total modulo 2^64 is the true total below that |
| `Xxh64.OneShot` | aflplusplus/include/xxhash.h:2753-2808 | the one-shot hash is the reference |
| `Xxh64.State.constructor` | aflplusplus/include/xxhash.h:2863-2878 | a state seeded and with nothing fed |
| `Xxh64.State.Reset` | aflplusplus/include/xxhash.h:2863-2878 | starts over with the seed |
| `Xxh64.State.Update` | aflplusplus/include/xxhash.h:2880-2955 | appends the input to what was fed and keeps the invariant |
| `Xxh64.State.Digest` | aflplusplus/include/xxhash.h:2959-2988 | the reference hash of everything fed |
| `Xxh64.Suite64IsCoherent` | aflplusplus/include/xxhash.h:2959-2981 | the third lane of a fresh state is the seed |
| `XxhVectors.Rotations32` | aflplusplus/include/xxhash.h:1875-1875 | at every amount XXH32 uses, the two shifts are the rotation of a 32-bit word |
| `XxhVectors.Rotations64` | aflplusplus/include/xxhash.h:1876-1876 | at every amount XXH64 and XXH3 use, the two shifts are the rotation of a 64-bit word |
| `XxhVectors.SwapTwice32` | aflplusplus/include/xxhash.h:1892-1899 | swapping the bytes twice gives the word back |
| `XxhVectors.SwapTwice64` | aflplusplus/include/xxhash.h:2575-2584 | swapping the bytes twice gives the word back |
| `XxhVectors.Swapped` | aflplusplus/include/xxhash.h:1892-1899 | known answers of swaps and rotations |
| `XxhVectors.Steps32` | aflplusplus/include/xxhash.h:2016-2078 | known answers of a round, a byte step and the avalanche |
| `XxhVectors.Init32` | aflplusplus/include/xxhash.h:2240-2245 | the four lanes that seed 0 starts from |
| `XxhVectors.Converge32` | aflplusplus/include/xxhash.h:2260-2261 | a known answer of the convergence of the lanes |
| `XxhVectors.Steps64` | aflplusplus/include/xxhash.h:2677-2684 | known answers of a round and of a byte step |
| `XxhVectors.MergeRound64` | aflplusplus/include/xxhash.h:2686-2693 | a known answer of merging a lane |
| `XxhVectors.Avalanche64` | aflplusplus/include/xxhash.h:2695-2704 | a known answer of the avalanche |
| `XxhVectors.Init64` | aflplusplus/include/xxhash.h:2772-2777 | the four lanes that seed 0 starts from |
| `XxhVectors.Converge64` | aflplusplus/include/xxhash.h:2791-2796 | a known answer of the convergence, all four lanes merged |
| `XxhVectors.AbsorbsWords32` | aflplusplus/include/xxhash.h:2249-2255 | for all words, the four written into a stripe reach the four lanes in their order |
| `XxhVectors.AbsorbsWords64` | aflplusplus/include/xxhash.h:2780-2786 | for all words, the four written into a stripe reach the four lanes in their order |
| `XxhVectors.Tail32` | aflplusplus/include/xxhash.h:2093-2100 | known answers of the four-byte steps of both finalizers |
| `XxhVectors.Tail64` | aflplusplus/include/xxhash.h:2712-2719 | a known answer of the eight-byte step |
| `XxhVectors.Empty32` | aflplusplus/include/xxhash.h:2222-2273 | the published hash of the empty input with seed 0 |
| `XxhVectors.Empty64` | aflplusplus/include/xxhash.h:2753-2808 | the published hash of the empty input with seed 0 |
| `LaneHash.FoldSplit` | aflplusplus/include/xxhash.h:2345-2431 | absorbing a and then b with the leftover of a between them is absorbing a + b |
| `LaneHash.RestLength` | aflplusplus/include/xxhash.h:2271-2271 | the leftover has as many bytes as the length modulo the stripe |
| `LaneHash.AbsorbAll` | aflplusplus/include/xxhash.h:2247-2258 | the one-shot loop absorbs every whole stripe and stops at the leftover |
| `LaneHash.Update` | aflplusplus/include/xxhash.h:2364-2428 | the buffered update absorbs exactly the stripes that leftover and input make, and buffers the new leftover |
| `JsonParse.Parse` | aflplusplus/include/json.h:2003-2112 | a tree comes back exactly for the texts of the grammar; the second pass uses all of dom_size, data_size less one byte per surrogate pair, stays inside the allocation, and leaves the tree of the text in memory |
| `JsonSizer.Sizer.constructor` | aflplusplus/include/json.h:2024-2032 | the sizing pass starts at offset 0 with nothing counted |
| `JsonSizer.Sizer.Skip` | aflplusplus/include/json.h:498-538 | skips exactly the white space and reports the end of the text |
| `JsonSizer.Sizer.GetStringSize` | aflplusplus/include/json.h:654-832 | rejects exactly what is no string literal, and counts its memory |
| `JsonSizer.Sizer.SizeMember` | aflplusplus/include/json.h:924-1013 | one member, or the end, of an object |
| `JsonSizer.Sizer.GetObjectSize` | aflplusplus/include/json.h:889-1023 | rejects exactly what is no object, and counts its memory |
| `JsonSizer.Sizer.SizeElement` | aflplusplus/include/json.h:1044-1090 | one element, or the end, of an array |
| `JsonSizer.Sizer.GetArraySize` | aflplusplus/include/json.h:1026-1096 | rejects exactly what is no array, and counts its memory |
| `JsonSizer.Sizer.GetNumberSize` | aflplusplus/include/json.h:1099-1293 | rejects exactly what is no number, and counts its memory |
| `JsonSizer.Sizer.GetValueSize` | aflplusplus/include/json.h:1297-1404 | rejects exactly what the grammar rejects, ends where it ends and adds the memory it assigns |
| `JsonFiller.Filler.constructor` | aflplusplus/include/json.h:2083-2091 | the filling pass starts at offset 0 with the structure region in front of the data region |
| `JsonFiller.Filler.ParseString` | aflplusplus/include/json.h:1408-1536 | stores the text of the literal and a NUL behind what was there |
| `JsonFiller.Filler.ParseNumber` | aflplusplus/include/json.h:1808-1897 | stores the bytes of the number and a NUL behind what was there |
| `JsonFiller.Filler.ParseObject` | aflplusplus/include/json.h:1581-1714 | builds the members of the object in order, in exactly the measured room |
| `JsonFiller.Filler.ParseArray` | aflplusplus/include/json.h:1718-1804 | builds the elements of the array in order, in exactly the measured room |
| `JsonFiller.Filler.ParseValue` | aflplusplus/include/json.h:1902-2000 | ends each value where the first pass ended it, uses exactly the room measured, keeps memory below it, and builds the tree of the text |
| `JsonString.StringSize` | aflplusplus/include/json.h:654-832 | accepts exactly the well-formed literals; counts the stored bytes, one more for each surrogate pair, and the NUL |
| `JsonString.ScanStep` | aflplusplus/include/json.h:685-810 | one character, escape or half of a surrogate pair of the sizing scan |
| `JsonString.UnitSize` | aflplusplus/include/json.h:726-795 | the bytes counted for a \u escape, and the rejection of stray surrogates |
| `JsonString.StoreString` | aflplusplus/include/json.h:1408-1536 | stores the in-order concatenation of raw bytes, single-byte escapes and UTF-8 forms, then a NUL, and nothing else |
| `JsonString.StorePieces` | aflplusplus/include/json.h:1423-1523 | the loop of it, up to the closing quote |
| `JsonString.StoreUnit` | aflplusplus/include/json.h:1430-1477 | the bytes written for a \u escape are its UTF-8 form, for a pair that of the combined code point |
| `JsonString.NeverStuck` | aflplusplus/include/json.h:1423-1523 | in an accepted literal the storing scan always finds what it trusts to be there |
| `JsonPieces.LexSpells` | aflplusplus/include/json.h:654-832 | a literal is accepted with exactly the well-formed pieces that stand one behind the other from there on, with the closing quote right behind them |
| `JsonText.HexadecimalValue` | aflplusplus/include/json.h:476-495 | exactly four hexadecimal digits are accepted, and their value is read |
| `JsonText.HexDigitPlace` | aflplusplus/include/json.h:461-474 | a byte has value d exactly when it is the d-th hexadecimal digit in either case |
| `JsonText.HexDigitMissing` | aflplusplus/include/json.h:461-474 | failure exactly for a byte that is no hexadecimal digit |
| `JsonText.Utf8RoundTrip` | aflplusplus/include/json.h:1440-1476 | decoding the UTF-8 form of section 3 of RFC 3629 gives the code point back |
| `JsonText.PairBytesAreUtf8` | aflplusplus/include/json.h:1451-1468 | although the surrogate offset wraps in 32 bits, the four bytes stored are the UTF-8 form of the code point of section 7 of RFC 8259 |
| `JsonText.StoredBytesAreUtf8` | aflplusplus/include/json.h:1460-1468 | for a code point from 0x10000 to 0x10FFFF that is too large by 2^32, the four masked and shifted bytes are the UTF-8 form of the code point |
| `JsonNumber.ScanAcceptsLexemes` | aflplusplus/include/json.h:1099-1293 | the scan ends at j if and only if the text up to j is a number of section 6 of RFC 8259 with the end or a delimiter behind it, or a lone minus at the very end |
| `JsonNumber.LexemeIsScanned` | aflplusplus/include/json.h:1099-1293 | every number of the grammar is accepted whole |
| `JsonNumber.ScannedIsLexeme` | aflplusplus/include/json.h:1099-1293 | nothing else is accepted, but for the lone minus |
| `JsonNumber.LoneMinus` | aflplusplus/include/json.h:1124-1132 | a lone minus at the end of the text is accepted |
| `JsonNumber.NumberSize` | aflplusplus/include/json.h:1099-1293 | rejects exactly where the scan fails, and counts the bytes and the NUL |
| `JsonNumber.NumberBytes` | aflplusplus/include/json.h:1833-1887 | the copying pass, which only looks at byte classes, stops where the sizing pass did |
| `JsonNumber.StoreNumber` | aflplusplus/include/json.h:1808-1897 | copies the number and a NUL, and nothing else |
| `JsonNumber.CopyNumber` | aflplusplus/include/json.h:1833-1887 | the loop of it copies exactly the number bytes |
| `JsonTree.LoadKept` | aflplusplus/include/json.h:1902-2000 | a tree read from memory does not change when only memory above it is written |
| `JsonGrammar.Value` | aflplusplus/include/json.h:1297-1404 | an accepted value ends inside the text, takes at least a value structure, and has no more pairs than data |
| `JsonCodes.TrueAt` | aflplusplus/include/json.h:1961-1966 | the four bytes of the word true are the value true, wherever they stand |
| `JsonCodes.FalseAt` | aflplusplus/include/json.h:1967-1972 | the five bytes of the word false are the value false |
| `JsonCodes.NullAt` | aflplusplus/include/json.h:1973-1978 | the four bytes of the word null are the value null |
| `JsonCodes.Dispatch` | aflplusplus/include/json.h:1320-1398 | the first byte, given by its code, decides what is parsed, and any other starts no value |
| `JsonCodes.Letters` | aflplusplus/include/json.h:1322-1381 | the words and the structural bytes, letter by letter |
| `JsonCodes.WhitespaceTable` | aflplusplus/include/json.h:503-513 | white space is 9, 10, 13 and 32 and nothing else |
| `JsonCodes.DelimiterTable` | aflplusplus/include/json.h:1258-1267 | the seven bytes that may follow a number |
| `JsonCodes.StructureSizes` | aflplusplus/include/json.h:1305-1307 | the bytes that each structure takes |
| `JsonCodes.EscapesRead` | aflplusplus/include/json.h:1478-1502 | what each of the eight letters behind a backslash means, and that no other letter means anything |
| `JsonCodes.EscapesWritten` | aflplusplus/include/json.h:2849-2893 | all of these but the slash are written as escapes, and every other byte as it stands |
| `JsonCodes.RawBytes` | aflplusplus/include/json.h:685-820 | a byte stands for itself unless it ends the literal, starts an escape or is one of four controls |
| `JsonCodes.Layouts` | aflplusplus/include/json.h:3171-3223 | what the two writers put for newline, indent and colon |
| `JsonCodes.SingleLayout` | aflplusplus/include/json.h:3171-3292 | the text of every array of one element and every object of one member, at every depth, for every newline and indent |
| `JsonCodes.ArrayLayout` | aflplusplus/include/json.h:3171-3223 | the text of every array of two elements: where newline, indents, comma and brackets go |
| `JsonCodes.ObjectLayout` | aflplusplus/include/json.h:3228-3292 | the text of every object of two members |
| `JsonCodes.MemberLayout` | aflplusplus/include/json.h:3250-3275 | a member is its quoted name, the colon of the layout and its value; empty lists are two brackets |
| `JsonCodes.ListsAreWritten` | aflplusplus/include/json.h:3297-3334 | trees are written by these, and the three words as they are spelled |
| `JsonRoundTrip.RoundTrip` | aflplusplus/include/json.h:2897-2990 | for every whitespace-only layout and every tree the parser can build, the written text is accepted if and only if no string and no name holds a NUL byte, and then it parses to the same tree |
| `JsonRoundTrip.ReadBack` | aflplusplus/include/json.h:2897-2990 | the same at any offset and depth: a written value is read back, and ends where it was written to, if and only if it holds no NUL |
| `JsonRoundTrip.MinifiedRoundTrip` | aflplusplus/include/json.h:2994-3033 | the minified text is accepted if and only if the tree holds no NUL, and then gives the same tree |
| `JsonRoundTrip.PrettyRoundTrip` | aflplusplus/include/json.h:3336-3395 | so it is for the pretty text, for every whitespace-only indent and newline |
| `JsonRoundTrip.ParsedRoundTrip` | aflplusplus/include/json.h:2003-2117 | for every accepted text, writing its tree and parsing again gives the same tree if and only if the tree holds no NUL |
| `JsonRoundTrip.QuotedIsLiteral` | aflplusplus/include/json.h:2849-2893 | an escaped string is read back as a literal with the same text if and only if it holds no NUL |
| `JsonRoundTrip.NumberReadsBack` | aflplusplus/include/json.h:2666-2847 | a written number is read back |
| `JsonNul.AcceptedText` | aflplusplus/include/json.h:654-1404 | an accepted text holds no NUL byte, and its tree has only numbers of section 6 of RFC 8259, but for a lone minus as the whole text |
| `JsonNul.NulIsWritten` | aflplusplus/include/json.h:2849-2893 | the writers put a NUL in a string or name into the text as it stands |
| `JsonNul.NulIsParsed` | aflplusplus/include/json.h:726-795 | such a tree is real: the escape u0000 in a literal gives a string of one NUL |
| `JsonPrinter.Minified` | aflplusplus/include/json.h:2994-3033 | the measured size is exactly what the minified text and its NUL take, and the buffer holds that text |
| `JsonPrinter.PrettyPrinted` | aflplusplus/include/json.h:3336-3395 | the same for the pretty writer with any indent and newline |
| `JsonPrinter.StringTextSize` | aflplusplus/include/json.h:2550-2576 | counts the bytes of the escaped, quoted string |
| `JsonPrinter.NumberTextSize` | aflplusplus/include/json.h:2426-2548 | counts the bytes of the number text |
| `JsonPrinter.MinifiedSize` | aflplusplus/include/json.h:2631-2664 | counts the bytes of the minified text of a value |
| `JsonPrinter.MinifiedArraySize` | aflplusplus/include/json.h:2578-2599 | the same for an array |
| `JsonPrinter.MinifiedObjectSize` | aflplusplus/include/json.h:2601-2629 | the same for an object |
| `JsonPrinter.PrettySize` | aflplusplus/include/json.h:3131-3169 | counts the bytes of the pretty text of a value at a depth |
| `JsonPrinter.PrettyArraySize` | aflplusplus/include/json.h:3044-3085 | the same for an array |
| `JsonPrinter.PrettyObjectSize` | aflplusplus/include/json.h:3087-3129 | the same for an object |
| `JsonPrinter.WriteString` | aflplusplus/include/json.h:2849-2893 | writes exactly the escaped, quoted string and moves behind it |
| `JsonPrinter.WriteNumber` | aflplusplus/include/json.h:2666-2847 | writes exactly the number text and moves behind it |
| `JsonPrinter.WriteMinified` | aflplusplus/include/json.h:2957-2992 | writes exactly the minified text of a value |
| `JsonPrinter.WriteMinifiedArray` | aflplusplus/include/json.h:2897-2920 | the same for an array |
| `JsonPrinter.WriteMinifiedObject` | aflplusplus/include/json.h:2922-2955 | the same for an object |
| `JsonPrinter.WritePretty` | aflplusplus/include/json.h:3297-3334 | writes exactly the pretty text of a value at a depth |
| `JsonPrinter.WritePrettyArray` | aflplusplus/include/json.h:3171-3226 | the same for an array |
| `JsonPrinter.WritePrettyObject` | aflplusplus/include/json.h:3228-3295 | the same for an object |
| `JsonCycle.MinifyAndParse` | aflplusplus/include/json.h:2003-2117 | writing minified and parsing with both passes succeeds if and only if the tree holds no NUL, and leaves the same tree in memory |
| `JsonCycle.PrettyPrintAndParse` | aflplusplus/include/json.h:2003-2117 | so does writing pretty |
| `JsonCycle.ParseMinifyParse` | aflplusplus/include/json.h:2003-3033 | parsing any text, minifying the tree in memory and parsing again gives the same tree, or fails exactly when the tree holds a NUL |
| `ForkServer.RunServer` | aflplusplus/instrumentation/afl-compiler-rt.o.c:1037-1238 | whatever the rest of the system does and wherever the run ends: no fork met an un-reaped child; the output is a handshake (greeting, and length and bytes of the dictionary exactly when a word of options asked for it) and then pid and status in strict alternation, with at most the pid of the request under way owed; the words read are a prefix of those sent, the first is used as options exactly when the target offers options and the word asks for shared memory or for a dictionary that exists, and each other word is one request; pids follow the round rule, and the forks are exactly those the rounds and the request under way need |
| `ForkServer.Server.Session` | aflplusplus/instrumentation/afl-compiler-rt.o.c:1037-1238 | the same of one server object |
| `ForkServer.Server.Serve` | aflplusplus/instrumentation/afl-compiler-rt.o.c:1097-1238 | every state the loop can be left in keeps the invariant, the handshake text, the exact use of options and the fork count; child_stopped agrees with the recorded child having been last seen stopped and not yet reaped if and only if no killed child is just being written off |
| `ForkServer.Server.EveryMoment` | aflplusplus/instrumentation/afl-compiler-rt.o.c:1097-1238 | between any two kernel calls the number of children is the one the rounds and the request under way need, and the stop flag is wrong in the write-off wait and only there |
| `ForkServer.Server.constructor` | aflplusplus/instrumentation/afl-compiler-rt.o.c:1000-1035 | before the handshake nothing was written, read or forked |
| `ForkServer.Server.Shake` | aflplusplus/instrumentation/afl-compiler-rt.o.c:1033-1095 | the greeting goes out first, the dictionary only after it and only when asked for; the first control word is used as options exactly when it asks for a feature the target has, and is kept as the first request otherwise |
| `ForkServer.Server.Negotiate` | aflplusplus/instrumentation/afl-compiler-rt.o.c:1037-1095 | what follows the greeting: nothing without an offer, otherwise one word, used as options exactly when it asks for something the target has |
| `ForkServer.Server.Greet` | aflplusplus/instrumentation/afl-compiler-rt.o.c:1012-1035 | the greeting is all that was written |
| `ForkServer.GreetingOffers` | aflplusplus/instrumentation/afl-compiler-rt.o.c:1012-1027 | for every map size and dictionary, bit 0x01000000 is set exactly with shared memory, 0x10000000 exactly with a dictionary, 0x40000000 exactly when the map size fits; without any of them the greeting is 0, and otherwise it has the bits 0x82000001 |
| `ForkServer.GreetingSize` | aflplusplus/include/types.h:61-64 | the decoding on the side of the fuzzer finds the map size sent, less one |
| `ForkServer.SizeWordIs` | aflplusplus/include/types.h:63-64 | the size sent is the map size less one |
| `ForkServer.AskedBits` | aflplusplus/instrumentation/afl-compiler-rt.o.c:1047-1056 | the control words that ask for shared memory and for the dictionary, by their bits |
| `ForkServer.Server.TakeOptions` | aflplusplus/instrumentation/afl-compiler-rt.o.c:1037-1095 | the same for a target that offers options |
| `ForkServer.Server.Settle` | aflplusplus/instrumentation/afl-compiler-rt.o.c:1047-1093 | what an option word leads to |
| `ForkServer.SendAll` | aflplusplus/instrumentation/afl-compiler-rt.o.c:1068-1084 | partial writes add up to a prefix of the dictionary, in order |
| `ForkServer.SendWhole` | aflplusplus/instrumentation/afl-compiler-rt.o.c:1055-1084 | length, then the whole dictionary; a failure cuts that message short and writes nothing else |
| `ForkServer.Server.SendDictionary` | aflplusplus/instrumentation/afl-compiler-rt.o.c:1055-1084 | the dictionary becomes part of the preamble |
| `ForkServer.Server.NextRequest` | aflplusplus/instrumentation/afl-compiler-rt.o.c:1103-1117 | one control word is taken for the request, or the one kept from the handshake |
| `ForkServer.Server.WriteOff` | aflplusplus/instrumentation/afl-compiler-rt.o.c:1144-1155 | a stopped child reported killed is reaped before anything else; the run can be cut off here only if the flag was set and the word reported a kill, and then the flag is cleared although the child was last seen stopped |
| `ForkServer.Server.Reap` | aflplusplus/instrumentation/afl-compiler-rt.o.c:1144-1155 | the wait for the killed child leaves nothing un-reaped; cut off, it leaves the flag cleared for a child last seen stopped, which happens whenever the run ends in it |
| `ForkServer.WrongFlag` | aflplusplus/instrumentation/afl-compiler-rt.o.c:1144-1155 | a state where the stop flag is wrong: one child stopped after its first input, a request that reports it killed, and the run ending in the wait |
| `ForkServer.Server.Launch` | aflplusplus/instrumentation/afl-compiler-rt.o.c:1157-1197 | a child is up and was not seen stopped: a new one, or the stopped one continued |
| `ForkServer.Server.Spawn` | aflplusplus/instrumentation/afl-compiler-rt.o.c:1157-1186 | a fork happens only when every earlier child has been reaped |
| `ForkServer.Server.Wake` | aflplusplus/instrumentation/afl-compiler-rt.o.c:1188-1197 | the stopped child is continued and the flag cleared |
| `ForkServer.Server.Announce` | aflplusplus/instrumentation/afl-compiler-rt.o.c:1199-1206 | the pid goes out before the wait |
| `ForkServer.Server.AwaitChild` | aflplusplus/instrumentation/afl-compiler-rt.o.c:1214-1225 | the flag records a reported stop, and only that |
| `ForkServer.Server.Relay` | aflplusplus/instrumentation/afl-compiler-rt.o.c:1227-1234 | the status goes out and closes the round |
| `ForkKernel.Kernel.Fork` | aflplusplus/instrumentation/afl-compiler-rt.o.c:1161-1167 | the kernel side of fork: a new last child, and a record of the children not yet reaped |
| `ForkKernel.Kernel.WaitPid` | aflplusplus/instrumentation/afl-compiler-rt.o.c:1214-1219 | the kernel side of waitpid: an exit reaps, a stop is reported once and only when asked for; an untouched child stops until it has served its quota and then exits |
| `ForkKernel.Kernel.Continue` | aflplusplus/instrumentation/afl-compiler-rt.o.c:1193-1195 | the kernel side of SIGCONT |
| `ForkRounds.Unborn` | aflplusplus/instrumentation/afl-compiler-rt.o.c:1157-1167 | a child that has not been forked has served no round |
| `ForkKernel.Kernel.Read` | aflplusplus/instrumentation/afl-compiler-rt.o.c:1109-1114 | a read takes the next control word; sent, waiting and read words are conserved |
| `PersistentLoop.RunTogether` | aflplusplus/instrumentation/afl-compiler-rt.o.c:1148-1297 | server and persistent children in any interleaving without kills or crashes, whatever options the handshake settles: every status is the one the loop gives, and for n requests that got a child, the one under way included, the server has forked exactly ceil(n / quota) times |
| `PersistentLoop.OneUnderWay` | aflplusplus/instrumentation/afl-compiler-rt.o.c:1148-1297 | a request under way counts as one more round of its child, and the rules of the rounds allow it |
| `PersistentLoop.ForksPerRequest` | aflplusplus/instrumentation/afl-compiler-rt.o.c:1243-1297 | for n rounds that follow the server rule and the loop, the forks are exactly ceil(n / quota) |
| `PersistentLoop.Share` | aflplusplus/instrumentation/afl-compiler-rt.o.c:1243-1297 | each child but the last has served exactly its quota and stopped itself once less |
| `PersistentLoop.LastShare` | aflplusplus/instrumentation/afl-compiler-rt.o.c:1243-1297 | the last child is between one and its quota |
| `PersistentLoop.Tally` | aflplusplus/instrumentation/afl-compiler-rt.o.c:1243-1297 | the requests are the quotas of the earlier children and the share of the last |
| `PersistentLoop.Child` | aflplusplus/instrumentation/afl-compiler-rt.o.c:1243-1297 | a child runs exactly max_cnt inputs (2^32 for 0, 1 outside persistent mode), stops after each but the last, and exits after that |
| `PersistentLoop.Loop.Call` | aflplusplus/instrumentation/afl-compiler-rt.o.c:1243-1297 | one call of the loop function on its two static variables |
| `PoolList.Execute` | aflplusplus/include/list.h:70-180 | any run of append, remove, contains and clear answers as a plain sequence would, up to the first fatal one or to an append for which malloc gives nothing; at such an append the sequence holds at least 63 items |
| `PoolList.Perform` | aflplusplus/include/list.h:70-180 | each operation refines the operation on the plain sequence; the one other end is fatal, exactly when an append finds the pool used up and malloc gives nothing |
| `PoolList.List.constructor` | aflplusplus/include/list.h:49-54 | zeroed storage is a list not yet set up |
| `PoolList.List.Append` | aflplusplus/include/list.h:70-96 | the element goes to the end, after the set-up on first use; fatal exactly when the pool is used up and malloc gives nothing |
| `PoolList.List.Crowded` | aflplusplus/include/afl-prealloc.h:58-92 | when the counter reaches 64 at least 63 items are in the list |
| `PoolList.List.Initialize` | aflplusplus/include/list.h:73-81 | set-up leaves the head alone in the ring and counted |
| `PoolList.List.Link` | aflplusplus/include/list.h:87-94 | the new element stands between the last and the head |
| `PoolList.List.Seek` | aflplusplus/include/list.h:104-121 | the walk meets the first match, or comes back to the head |
| `PoolList.List.Remove` | aflplusplus/include/list.h:147-166 | the first match is deleted; an absent item is fatal |
| `PoolList.List.Contains` | aflplusplus/include/list.h:170-180 | membership; fatal before the first append |
| `PoolList.List.Clear` | aflplusplus/include/list.h:134-143 | every element is visited in order and the ring is left empty |
| `PoolList.List.Bypass` | aflplusplus/include/list.h:153-154 | the ring without the element is linked both ways |
| `PoolList.List.Drop` | aflplusplus/include/list.h:125-132 | the element leaves the ring and goes back to where it came from |
| `PoolList.List.PreAlloc` | aflplusplus/include/afl-prealloc.h:58-92 | a slot while the counter is below 64, an allocated element otherwise, none exactly when malloc is needed and gives nothing; the counter stays the number of used slots |
| `PoolList.List.FirstUnused` | aflplusplus/include/afl-prealloc.h:70-85 | when the counter is below 64 the search finds the first unused slot and never runs off the pool |
| `PoolList.List.PreFree` | aflplusplus/include/afl-prealloc.h:110-140 | fatal exactly for an element that is not handed out; the counter stays the number of used slots |
| `PoolList.FullPool` | aflplusplus/include/afl-prealloc.h:70-85 | a pool without an unused slot has all its slots counted |
| `PoolList.NextAndPrevAreInverse` | aflplusplus/include/list.h:87-94 | next and prev are inverse everywhere in the ring |
| `Scheduler.Schedule` | testamp/setup_fuzzers.py:85-126 | for any outcomes the loop ends after at most as many campaigns as commands, its log is greedy, and it stops only when all is fuzzed or no command left gains |
| `Scheduler.Search` | testamp/setup_fuzzers.py:88-97 | the first command whose gain no other exceeds, or none when no command gains |
| `Scheduler.RemoveFirst` | testamp/setup_fuzzers.py:99-99 | removal by value takes out the very command that was chosen |
| `Scheduler.Launch` | testamp/setup_fuzzers.py:87-113 | one round up to the outcome of its campaign |
| `Scheduler.GreedyBound` | testamp/setup_fuzzers.py:86-126 | if every campaign succeeds and m recorded commands cover all N executed targets, there are at most m times the N-th harmonic number of campaigns |
| `Scheduler.AllFuzzed` | testamp/setup_fuzzers.py:86-126 | if every campaign succeeds, every executed target is fuzzed in the end |
| `Scheduler.EachRoundGains` | testamp/setup_fuzzers.py:88-114 | each such round fuzzes at least R/m of the R targets left |
| `Scheduler.TimesIsProduct` | testamp/setup_fuzzers.py:86-126 | the repeated sum in these bounds is the product |
| `Scheduler.GainsNeverIncrease` | testamp/setup_fuzzers.py:86-126 | the best gain never increases from one round to the next, whatever fails |
| `Scheduler.UnfuzzedMeansAllFailed` | testamp/setup_fuzzers.py:98-126 | a target stays unfuzzed only if every recorded command that runs it was tried and failed |
| `Scheduler.Disjoint` | testamp/setup_fuzzers.py:109-114 | successful campaigns fuzz disjoint sets of targets |
| `Scheduler.Conservation` | testamp/setup_fuzzers.py:98-114 | every command is in the log or still there, and no target is counted twice |
| `Scheduler.QuotasFitADay` | testamp/setup_fuzzers.py:101-101 | the quotas of the successful campaigns come to less than 86400 plus their count |
| `Scheduler.QuotaRounds` | testamp/setup_fuzzers.py:101-101 | a number is the quota if and only if it is the least whole number of seconds that is at least the share of 86400 that the gain is of all targets |
| `CommandLog.ReadLog` | testamp/setup_fuzzers.py:32-74 | each command is read off one section of the log, from a heading of functions or the start to the next such heading or the end: its targets are exactly the configured ones a line of that section mentions, its text the one assembled from that section; the sections come in order, none that mentions a target is missing, the last ends the log; the union of the target sets is exactly what is executed |
| `CommandLog.CloseSection` | testamp/setup_fuzzers.py:44-50 | a heading turns the section before it into a command, or into none when no target was mentioned |
| `CommandLog.Match` | testamp/setup_fuzzers.py:59-63 | the configured targets that a line mentions |
| `CommandLog.ReadAndSchedule` | testamp/setup_fuzzers.py:79-126 | the commands scheduled are those of the sections; what the reader hands over meets what the scheduler needs; if every campaign succeeds, exactly the mentioned targets are fuzzed |
| `ConstraintGenerator.GenerateAndParse` | config_generator/derive_constraints.py:150-193 | the text generated for a parameter list parses back to exactly the constraints derived; these are sound, and exactly those the parameters call for |
| `ConstraintGenerator.Generate` | config_generator/derive_constraints.py:150-193 | the lines are the printed constraints, and these are exactly those the parameters call for; it fails only where a buffer in its turn has a length but neither one star nor two |
| `ConstraintGenerator.TryLengths` | config_generator/derive_constraints.py:161-190 | the length behind is tried before the length in front, and only where no line mentions it |
| `ConstraintGenerator.AppendPair` | config_generator/derive_constraints.py:168-175 | the two lines for a buffer and its length |
| `ConstraintGenerator.AnyMentions` | config_generator/derive_constraints.py:164-164 | the word test on the printed lines finds exactly the arguments mentioned |
| `ConstraintGenerator.DropMentions` | config_generator/derive_constraints.py:168-168 | the filter steps remove nothing |
| `ConstraintExact.DeriveSound` | config_generator/derive_constraints.py:150-193 | every index is in range, each parameter is a left side at most once, each length serves at most one buffer and is itself recorded |
| `ConstraintExact.DeriveExact` | config_generator/derive_constraints.py:150-193 | for every parameter, whether it has a turn and what it gets: a file constraint, its length behind, else a free length in front, or nothing; nothing else is in the list |
| `ConstraintExact.FilesExactly` | config_generator/derive_constraints.py:159-160 | a file constraint is there if and only if the parameter is a buffer with a file name and the one in front of it was not paired |
| `ConstraintExact.RefIsNeighbour` | config_generator/derive_constraints.py:161-190 | a constraint with a length belongs to a buffer that is neither file nor out, dereferences exactly for two stars, and names the parameter behind where that is a free length, else the one in front |
| `ConstraintExact.RecordsExactly` | config_generator/derive_constraints.py:175-189 | the recorded parameters are exactly the lengths of buffers |
| `ConstraintExact.DeriveRaises` | config_generator/derive_constraints.py:173-174 | where nothing is derived, some buffer had a turn with a length but neither one star nor two |
| `ConstraintExact.NoneRaised` | config_generator/derive_constraints.py:173-174 | where constraints are derived, no buffer that had a turn was so |
| `ConstraintExact.Acyclic` | config_generator/derive_constraints.py:170-175 | no path of dependencies leads back to where it started |
| `ConstraintText.WordTest` | config_generator/derive_constraints.py:164-164 | a decimal numeral is a word of a printed constraint exactly when that argument is mentioned |
| `ConstraintText.Words` | config_generator/derive_constraints.py:160-175 | a printed constraint is exactly three words |
| `ConstraintText.ReadsBack` | config_generator/derive_constraints.py:41-47 | reading the decimal digits of a number gives it back |
| `ConstraintParser.RoundTrip` | config_generator/derive_constraints.py:95-129 | for every non-empty list of constraints with lettered constants, parsing the printed list gives the list back |
| `ConstraintParser.OneReads` | config_generator/derive_constraints.py:95-106 | one printed constraint is read back, whatever non-digit follows |
| `ConstraintParser.ConstraintListParser.constructor` | config_generator/derive_constraints.py:14-15 | the parser holds its text |
| `ConstraintParser.ConstraintListParser.SkipWhitespace` | config_generator/derive_constraints.py:34-36 | exactly the leading white space is consumed |
| `ConstraintParser.ConstraintListParser.Number` | config_generator/derive_constraints.py:41-47 | a number is consumed exactly when there is one, and read as the reference does |
| `ConstraintParser.ConstraintListParser.Relate` | config_generator/derive_constraints.py:49-69 | a relation is consumed exactly when there is one |
| `ConstraintParser.ConstraintListParser.Righthandside` | config_generator/derive_constraints.py:76-93 | a right-hand side is consumed exactly when there is one |
| `ConstraintParser.ConstraintListParser.Item` | config_generator/derive_constraints.py:95-106 | a constraint is consumed exactly when there is one |
| `ConstraintParser.ConstraintListParser.ConstraintList` | config_generator/derive_constraints.py:108-132 | the loop accepts exactly what the grammar accepts, and returns its constraints in order |
| `ConstraintParser.ConstraintListParser.Others` | config_generator/derive_constraints.py:118-129 | behind the first constraint exactly the separated ones are accepted, in order |
| `ConstraintParser.ToInt` | config_generator/derive_constraints.py:47-47 | the value of a string of digits |
| `Renumber.SameMeaning` | config_generator/derive_constraints.py:202-232 | for any reading of the relations, a renamed constraint says about the arguments that remain what the original says about all of them |
| `Renumber.OrderIsomorphism` | config_generator/derive_constraints.py:215-220 | the renumbering keeps order and is onto the places 0..k-1 |
| `Renumber.Kept` | config_generator/derive_constraints.py:232-232 | the arguments that remain are the mentioned ones, in order |
| `Renumber.Transform` | config_generator/derive_constraints.py:202-232 | the skip list is exactly the unmentioned arguments, and every constraint is renamed by the same map |
| `Renumber.Gather` | config_generator/derive_constraints.py:204-212 | each mentioned argument once |
| `Renumber.Sort` | config_generator/derive_constraints.py:213-213 | the mentioned arguments in increasing order |
| `Renumber.NumberAll` | config_generator/derive_constraints.py:216-220 | each argument gets its place among those mentioned |
| `Renumber.Configure` | config_generator/derive_constraints.py:253-267 | from the parameters of a function to its renumbered constraints nothing changes meaning, and the constraints renumbered are exactly those the parameters call for |
| `CoverageMap.HasNewBits` | aflplusplus/src/afl-fuzz-bitmap.c:205-238 | the result is 2 iff some non-zero byte was pristine, 1 iff only new bits appeared, 0 otherwise; exactly the bits of the trace are cleared |
| `CoverageMap.DiscoverWord` | aflplusplus/include/coverage-64.h:77-107 | one word raises the result to its own verdict and is washed out of the virgin map |
| `CoverageMap.WordInBytes` | aflplusplus/include/coverage-64.h:77-107 | the verdict on a word is the verdict on its bytes |
| `CoverageMap.Sweep` | aflplusplus/src/afl-fuzz-bitmap.c:223-231 | the loop keeps the highest verdict and touches no word behind its range |
| `CoverageMap.SweepInBytes` | aflplusplus/src/afl-fuzz-bitmap.c:223-231 | the highest verdict of the words is the verdict on the bytes |
| `CoverageMap.Discover` | aflplusplus/src/afl-fuzz-bitmap.c:205-238 | over any run of traces, each verdict and the virgin map are those of the byte maps in turn |
| `CoverageMap.AfterIsUnion` | aflplusplus/include/coverage-64.h:103-103 | after k traces the virgin map is the initial one with the union of the traces cleared |
| `CoverageWords.VirginAfterRun` | aflplusplus/include/coverage-64.h:103-103 | the same for real bytes and any run |
| `CoverageWords.Discover64` | aflplusplus/src/afl-fuzz-bitmap.c:205-238 | after any run over 64-bit words the verdicts are those of the byte maps in turn, and the virgin bytes are the initial ones without the bits of any trace of the run |
| `CoverageWords.Discover32` | aflplusplus/include/coverage-32.h:67-95 | the same over 32-bit words |
| `CoverageMap.ClassifyCounts` | aflplusplus/include/coverage-64.h:58-73 | every word is rated, zero words are passed over |
| `CoverageMap.RatedInBytes` | aflplusplus/include/coverage-64.h:58-73 | passing over zero words changes nothing: the trace is rated byte by byte |
| `CoverageMap.Skim` | aflplusplus/include/coverage-64.h:109-191 | both variants and every pack size find nothing exactly when no rated word meets the virgin map |
| `CoverageMap.PackPlain` | aflplusplus/include/coverage-64.h:178-191 | one pack, word by word |
| `CoverageMap.PackMasked` | aflplusplus/include/coverage-64.h:111-139 | one pack behind a mask of its zero words |
| `CoverageMap.SkimInBytes` | aflplusplus/include/coverage-64.h:109-191 | skimming finds nothing exactly when rating the whole trace and discovering every word would find nothing |
| `CoverageMap.NothingNew` | aflplusplus/include/coverage-64.h:77-107 | a verdict of 0 means no new bit, and leaves the virgin map unchanged |
| `CoverageMap.HasNewBitsUnclassified` | aflplusplus/src/afl-fuzz-bitmap.c:250-269 | skimming first gives the same answer and the same virgin map as rating and discovering at once; the trace is kept when the skim finds nothing and rated otherwise, and over the whole map that is when the answer is 0 |
| `CoverageWords.Word64IsLawful` | aflplusplus/include/coverage-64.h:11-107 | the 64-bit tests, clearing and lookup act byte by byte |
| `CoverageWords.Word32IsLawful` | aflplusplus/include/coverage-32.h:7-95 | the 32-bit tests, clearing and lookup act byte by byte |
| `CoverageWords.Word64Rates` | aflplusplus/include/coverage-64.h:11-24 | four table lookups rate the eight bytes of a word |
| `CoverageWords.Word32Rates` | aflplusplus/include/coverage-32.h:7-18 | two table lookups rate the four bytes of a word |
| `CoverageMap.LookupRates` | aflplusplus/include/coverage-64.h:11-24 | if a lookup rates both bytes of a half-word, the lookups of all half-words rate all bytes, for any width |
| `CoverageWords.TableBytes` | aflplusplus/src/afl-fuzz-bitmap.c:170-186 | a lookup in the 16-bit table rates both bytes of a half-word |
| `CoverageWords.BothWidths` | aflplusplus/include/coverage-32.h:67-95 | on the same bytes the 32-bit and the 64-bit loop give the same result and the same map |
| `GrowBuffer.Run` | aflplusplus/include/alloc-inl.h:663-717 | after any granted requests of at most 2^32 bytes with the header, the capacity covers each of them, is a power of two from 64 on, and is at least 64 doubled once for each reallocation after the first |
| `GrowBuffer.Buffer.constructor` | aflplusplus/include/alloc-inl.h:665-668 | no buffer yet |
| `GrowBuffer.Buffer.Realloc` | aflplusplus/include/alloc-inl.h:663-717 | the buffer covers the request exactly when the request with its header fits a word; it never shrinks; a failure leaves none; on an absent buffer a total of exactly 2^64 gives none, and a larger one is granted with 64 bytes |
| `GrowBuffer.RoundsUpExactly` | aflplusplus/include/alloc-inl.h:606-625 | for every size, next_pow2 gives the least power of two from n on (0 where none fits) if and only if n is not 0 and n - 1 has nowhere 32 zero bits right below a set bit |
| `GrowBuffer.RoundsUpBelowLimit` | aflplusplus/include/alloc-inl.h:606-625 | up to 2^32 it does for every n but 0 |
| `GrowBuffer.FailsAtZero` | aflplusplus/include/alloc-inl.h:606-625 | 0 gives 0, where the least power of two is 1 |
| `GrowBuffer.FailsAboveLimit` | aflplusplus/include/alloc-inl.h:606-625 | it does not for 2^32 + 1 |
| `GrowBuffer.NextSizeCovers` | aflplusplus/include/alloc-inl.h:683-696 | the size asked for is never below the request, overflow included |
| `GrowBuffer.NextSizeRounds` | aflplusplus/include/alloc-inl.h:683-696 | up to 2^32 it is a power of two |
| `GrowBuffer.Earn` | aflplusplus/include/alloc-inl.h:691-713 | each reallocation at least doubles the capacity |
| `Bits.SmearBits` | aflplusplus/include/alloc-inl.h:617-622 | after the five shifts a bit is set exactly when one of the 32 bits from there up was |

## Left out

- SIMD bodies of XXH3 and skim: the scalar forms and a per-word zero mask stand for them.
- XXH128 and the canonical representations: the same loops with other final mixing.
- Hash quality: statistical, not decided by the code.
- The XXH3 formula for 9 to 16 bytes: its mixers have known answers, the formula as a whole no law of its own.
- Non-default JSON flags, hexadecimal and Infinity/NaN numbers, error codes and positions, `json_extract_value`: more cases without a harder idea.
- JsonRoundTrip.RoundTrip: states nothing for a tree with a number no parse with default flags leaves there.
- The snapshot variant of the fork server, signal handlers, and shared-memory mapping beyond whether it succeeded.
- What a target does between calls of the persistent loop, and the coverage map it resets there.
- The foreach macro with an arbitrary block: only the blocks of contains, remove and clear.
- The text of fuzzing commands and the working-directory table: assembled by an arbitrary function.
- Exit-status decoding, time limits and file clean-up of campaigns.
- The guesses by parameter name and type: arbitrary predicates.
- The CSV and configuration-file ends of the constraint script.
- simplify_trace: a byte-wise table lookup with no further property.
- The filling of the 16-bit class table by its nested loop: its contents are taken as that loop defines them.
- afl_realloc_exact, afl_swap_bufs and the bytes kept across a reallocation: left to the allocator.
- Compiler passes, afl-fuzz itself beyond the functions listed, coverage scripts.

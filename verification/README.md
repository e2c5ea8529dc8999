# Verification of the vcpu sources

A Dafny model of three parts of the repository, with proofs of what they compute:

* the exact arithmetic and text conversion that is compiled in: the multi-precision integer of
  the formatting library, its Steele-White digit generator, the removal of trailing zeros, the
  six Unicode converters and the branchless walk over code points;
* the front end of the superscalar CPU: a byte ring, the framed dispatch queue over it, and the
  pipeline of four decoders that feeds the queue;
* the assembler as a translation: include expansion, the expression parser, the instruction
  encoder together with the decoder that reads it, and the linker.

`dafny verify dfyconfig.toml` checks everything.

## How it is laid out

| part | files |
|---|---|
| integers as bigits | `Powers`, `Bigits`, `Positions`, `Comparison`, `Carries`, `Convolution`, `Bigint` |
| digits | `Decimal`, `SteeleWhite`, `Dragon`, `FormatDragon`, `Boundaries`, `DragonCases`, `TrailingZeros` |
| Unicode | `Utf`, `Conversion`, `ConversionLaws`, `Transcoding`, `Resumption`, `IllFormed`, `ConvertUtf`, `UnicodeHelper`, `Codepoints` |
| CPU front end | `Ringbuffer`, `Dispatch`, `Pipeline` |
| assembler | `Preprocessor`, `Parser`, `Printing`, `Precedence`, `Numbers`, `Layout`, `Segment`, `Merging`, `Units`, `Planning`, `Resolving`, `Image`, `LocalPoints`, `Unsettled`, `Linker`, `Encoding`, `Emitter`, `Format` |
| shared | `Basics` |

Code that updates objects or buffers in place is a class or a method over arrays here too. Its
contract ties it to a function on values, and the laws are lemmas about those functions. Standards:
RFC 3629 sections 3 and 4 and RFC 2781 section 2 define well-formed text in `Utf`.

## Where the code is not what one would assume

The model follows the code. In these places a law holds only under a condition, and the condition is
proved to be the exact one where the table says "if and only if".

* `compare` is not the order of the values when one operand has spare zero bigits (`CompareExact`, `ComparedUnequal`),
  and `add_compare` can be misled by a zero (`AddCompareExact`, `AddedWrong`).
* The second loop of `subtract_aligned` never advances, so a borrow that meets a zero bigit is lost
  (`StuckExample`, `LastBorrow`). Division never gets there (`NeverStuck`).
* The quotient of `divmod_assign` is an `int`, so the bound on the dividend is 2^31 divisors.
* The shortest digit loop misses a tie with the lower boundary when the lower distance is stored with a larger
  exponent than the divided numerator, and then prints more digits than needed (`MissedLowEnd`, `MissedBoundary`).
  Stored with a smaller one, it takes the tie even for an odd significand, and can print the boundary, which a reader
  rounds to the neighbour (`ExtraLowEnd`, `PrintedBoundary`); and a first remainder of zero can go unseen
  (`ShortestDigits`, `BlindExample`).
* For a negative digit count below the value's highest place `format_dragon` still prints 1 (`NoDigitsExact`, `NoDigitsExample`).
* The 64-bit `remove_trailing_zeros` cuts the quotient of multiples of 10^8 from 2^32 * 10^8 on (`CutExample`).
* `isLegalUTF8` has no lower bound for the byte behind ED and F4, so some malformed strings are accepted
  and decoded (`AcceptedThoughMalformed`). The condition that rules them out is the guard in `StrictDecoding`.
* The lenient converter from UTF-32 to UTF-8 writes a surrogate as three bytes, where the one to UTF-16 replaces it; a value
  out of range becomes EF BF BD in both modes, and the result is illegal source (`NoScalar`).
* `Ringbuffer::Peek` on a full ring empties it, a read that would have to wrap from a full ring runs past the
  end, and the last wrap of the write index never happens. `Dispatch::Peek` calls a queue of one empty item corrupt.
* `assetsLoaded` is searched and never filled, so an include cycle does not end; the model asks for a loader without
  cycles. The scan resumes behind the first token of a spliced asset, and a directive at index 0 would read before the
  tokens, so a file must not begin with the bare keyword.
* Operators are recognised by their text alone: a string literal that is a minus sign is parsed as the sign (`MinusMisread`).
* A local absolute point is patched at its absolute address taken as an offset into its chunk (`LocalPointReads`,
  `MovedPoint`), and a relative one is moved by the load address in the same way (`RelocateRelative`).
* A label that is used by its absolute address from a chunk merged later is looked up before that chunk is there. If the
  later chunk has a given address, the lookup finds nothing and the program ends (`LateGiven`, and `ExitsExactly` for all
  links); if it is appended, its load address still reads as 0, and either the address goes into another chunk or
  the link fails (`LateAppended`, `UsedAhead`).
* A flush resets the decoders but not the id that execution waits for, so a flush with something in flight
  stalls the pipeline, however many ticks follow (`Flush`, `Run`).
* The end address is the sum of both segments' ends, so gaps appear between chunks; they are zero in the image.
* aN and crN share their indices, and the family of the instruction decides between them, so an instruction that uses both
  is read back wrong; a one-operand instruction has no family at all (`RegisterRoundTrip`).
* An immediate destination is written before the source and read behind it (`DecodeAfterEncode`, `ImmediatesSwapped`).

## Model

| member | source | states |
|---|---|---|
| Comparison.CompareExact | src/ext/fmt/format.h:2914-2928 | compare orders two top-normalised bigints by value if and only if equal values have the same layout and a zero is not spread wider than the other operand |
| Comparison.ComparedUnequal | src/ext/fmt/format.h:2919-2927 | 2^32 with a spare zero bigit counts as more than 2^32 without |
| Comparison.AheadStep | src/ext/fmt/format.h:2943-2953 | one position of add_compare; deciding early, on a deficit or on a lead of two, is never contradicted by lower bigits |
| Comparison.AddCompareExact | src/ext/fmt/format.h:2931-2954 | add_compare is the sign of lhs1 + lhs2 - rhs for top-normalised operands of any length and exponent, if and only if no zero is spread too wide |
| Comparison.AddedWrong | src/ext/fmt/format.h:2933-2937 | 0 + 1 counts as more than 2 when the zero is spread over six bigits |
| BigintModel.Compare | src/ext/fmt/format.h:2914-2928 | the loop over both bigit vectors returns the answer that CompareExact judges |
| BigintModel.AddCompare | src/ext/fmt/format.h:2931-2954 | the loop with its scaled borrow returns the answer that AddCompareExact judges |
| BigintModel.TopBit | src/ext/fmt/format.h:2960-2963 | the bitmask loop ends at the highest set bit |
| BigintModel.Bigint.Assign | src/ext/fmt/format.h:2858-2868 | the value is n, normalised, for every n |
| BigintModel.Bigint.RemoveLeadingZeros | src/ext/fmt/format.h:2807-2812 | drops the zeros on top, keeps the value |
| BigintModel.Bigint.SubtractBigits | src/ext/fmt/format.h:2801-2805 | one bigit of a subtraction with 64-bit wrap-around: digit and borrow are exact |
| BigintModel.Bigint.Multiply | src/ext/fmt/format.h:2825-2834 | the value is multiplied exactly, the 64-bit product never overflows |
| BigintModel.Bigint.MultiplyWide | src/ext/fmt/format.h:2836-2856 | the same for a 64-bit or 128-bit factor; the carry reaches at most the maximum of its type |
| Carries.WideStep | src/ext/fmt/format.h:2846-2851 | one round of the wide multiplication: result and carry stay in their types, even at the maximum, and nothing is lost |
| BigintModel.Bigint.ShiftBits | src/ext/fmt/format.h:2896-2905 | the bit part of the shift multiplies by 2^r |
| BigintModel.Bigint.ShiftLeft | src/ext/fmt/format.h:2893-2906 | operator<<= multiplies the value by 2^shift for every shift |
| BigintModel.Bigint.SubtractDigits | src/ext/fmt/format.h:2814-2820 | the first loop subtracts other up to one last borrow |
| BigintModel.Bigint.SubtractAligned | src/ext/fmt/format.h:2814-2823 | the exact new value, including what a borrow that meets a zero leaves behind |
| Carries.LastBorrow | src/ext/fmt/format.h:2820-2821 | the borrow loop that never advances is right if and only if it is not stuck, and off by a known amount if it is |
| Carries.StuckExample | src/ext/fmt/format.h:2821-2821 | a minuend of three bigits on which the borrow gets stuck |
| Carries.NeverStuck | src/ext/fmt/format.h:3019-3030 | a dividend below 2^32 divisors never gets the borrow stuck |
| BigintModel.Bigint.Align | src/ext/fmt/format.h:3006-3015 | adds low zero bigits, keeps the value, and ends at the smaller exponent |
| BigintModel.Bigint.SubtractDivisor | src/ext/fmt/format.h:3025-3028 | one round of the division loses exactly one divisor |
| BigintModel.Bigint.DivmodAssign | src/ext/fmt/format.h:3019-3030 | the exact floor quotient and remainder, except for an equal value stored with a larger exponent, which gives quotient 0 |
| Convolution.DiagonalsAreProduct | src/ext/fmt/format.h:2982-3000 | the columns of digit products, each in its place, make up the product |
| Convolution.DiagonalBound | src/ext/fmt/format.h:2981-2991 | a column is at most as many products of two bigits as there are bigits |
| Convolution.ColumnFits | src/ext/fmt/format.h:2981-2991 | a column with its carry fits the 128-bit accumulator |
| Convolution.AddColumn | src/ext/fmt/format.h:2985-2988 | one column added up with wrap-around equals the exact sum |
| BigintModel.Bigint.Square | src/ext/fmt/format.h:2976-3002 | the exact square |
| BigintModel.Bigint.AssignPow10 | src/ext/fmt/format.h:2957-2974 | exactly 10^e for every e |
| FormatDragon.SetupExact | src/ext/fmt/format.h:3055-3091 | in each of the three scalings numerator / denominator * 10^exp10 is the value |
| Boundaries.DistancesExact | src/ext/fmt/format.h:3051-3091 | the two distances are half the gaps to the next number above and below, the lower one halved again when the predecessor is closer |
| Boundaries.IntervalExact | src/ext/fmt/format.h:3092-3105 | a decimal is in the interval of the digit loops if and only if it is no further away than half way to the neighbours, ends included exactly for an even significand; the fixup changes nothing |
| Boundaries.ShortestExact | src/ext/fmt/format.h:3106-3134 | the shortest form in terms of the number and its neighbours: it reads back as the number, nothing with fewer places does, and none with as many is closer, the even one being taken of two |
| FormatDragon.EnoughRoom | src/ext/fmt/format.h:3058-3091 | a lower distance that is stored below the divided numerator nearly fills the unit of that |
| FormatDragon.Setup | src/ext/fmt/format.h:3046-3091 | the bigints hold the integers that SetupExact is about, in all three branches |
| FormatDragon.Fixup | src/ext/fmt/format.h:3095-3105 | numerator and distances are scaled by ten if and only if the interval has not reached 10^exp10 |
| Dragon.LowDecision | src/ext/fmt/format.h:3113-3113 | what compare answers for the lower distance, for all layouts: on a tie the larger exponent counts as less, and a zero that is spread wider counts as more |
| Dragon.Step | src/ext/fmt/format.h:3112-3115 | one round of the digit loop: exact digit and remainder, and both decisions |
| Dragon.ShortestDigits | src/ext/fmt/format.h:3109-3133 | the loop ends, never raises a 9, and leaves the closest decimal with the fewest places of the interval its comparisons see, if and only if it does not start with a remainder of zero that is taken for more; then it prints one zero too many |
| SteeleWhite.Candidates | src/ext/fmt/format.h:3113-3125 | the two comparisons decide which of the two candidates lie in the interval |
| SteeleWhite.Continue | src/ext/fmt/format.h:3113-3117 | when neither does, no decimal with that many places is in the interval |
| SteeleWhite.FewestDigits | src/ext/fmt/format.h:3107-3134 | no decimal of the interval has fewer significant digits than the one printed |
| SteeleWhite.MissedLowEnd | src/ext/fmt/format.h:3113-3113 | a tie at the lower end that goes unseen costs the shortest form if and only if that end is itself a shorter decimal |
| SteeleWhite.ExtraLowEnd | src/ext/fmt/format.h:3113-3113 | a lower end that is let in without belonging to the interval is printed if and only if it is a decimal and no decimal with as few places lies inside |
| DragonCases.SeenOrNot | src/ext/fmt/format.h:3092-3134 | when what the loop takes for the shortest form is the shortest form of the rounding interval: the three cases of how it sees the lower end |
| DragonCases.MissedBoundary | src/ext/fmt/format.h:3092-3134 | a double on which the lower end is missed: 14 digits would do, and 15 or more are printed |
| DragonCases.PrintedBoundary | src/ext/fmt/format.h:3092-3134 | an odd significand of 113 bits on which the lower end is let in: the 34 digits printed are the boundary itself, outside the interval |
| DragonCases.BlindExample | src/ext/fmt/format.h:3112-3133 | the value 10^32 with a significand of 76 bits, which is printed as 10 instead of 1 |
| DragonCases.AlwaysSplittable | src/ext/fmt/format.h:3059-3091 | only the significands 5^30, 5^31 and 2 * 5^31 can make a power of ten that is moved further than its denominator; no normalised significand of 24, 53, 64 or 113 bits does |
| DragonCases.CountedOnly | src/ext/fmt/format.h:3135-3172 | the double 10^23, just below a power of ten: its digits can be counted with its own exponent, though its upper boundary is too high for the shortest form |
| Dragon.LeadingDigits | src/ext/fmt/format.h:3144-3148 | all digits but the last of a given number of them are the exact leading digits |
| Dragon.PropagateCarry | src/ext/fmt/format.h:3152-3168 | the carry through trailing 9s adds one to the number spelled, with both rules for a carry out of the front |
| Dragon.FixedDigits | src/ext/fmt/format.h:3136-3172 | num_digits > 0: the exact value rounded to that many digits, to nearest, ties to even |
| Dragon.NoDigits | src/ext/fmt/format.h:3137-3142 | num_digits <= 0: the one character that is printed, exactly |
| Dragon.NoDigitsExact | src/ext/fmt/format.h:3137-3142 | that character is the correctly rounded value if and only if num_digits is 0 or the value is at most half a unit of its highest place |
| Dragon.NoDigitsExample | src/ext/fmt/format.h:3137-3142 | 6 without a digit before the hundreds is printed as 1, which stands for 100 |
| FormatDragon.FormatDragon | src/ext/fmt/format.h:3043-3172 | the whole function: shortest form, fixed count and the refusal of an unrepresentable precision, for every layout of the bigints; exactly the number of digits that was asked for, or with a fixup and a fixed precision the value rounded to that many decimal places, ties to even, with exp10 == -num_digits; for every value below 10^(exp10+1) |
| Decimal.NearestEvenUnique | src/ext/fmt/format.h:3150-3151 | rounding to nearest with ties to even has one result |
| Decimal.DigitsAreDecimal | src/ext/fmt/format.h:3115-3115 | the buffer cells are the characters 0 to 9, and a buffer reads from the left |
| FormatDragon.CountedRatio | src/ext/fmt/format.h:3055-3148 | the scaled fraction that is counted off stands for the value, whatever the signs of the exponents and whether or not the fixup is made |
| TrailingZeros.Hundred32 | src/ext/fmt/format-inl.h:160-162 | the rotated product with the inverse of 25 is under the threshold if and only if n is divisible by 100, and is then n / 100 |
| TrailingZeros.Ten32 | src/ext/fmt/format-inl.h:1142-1143 | the same for 5 and 10 |
| TrailingZeros.Hundred64 | src/ext/fmt/format-inl.h:164-166 | the same for 100 on 64 bits |
| TrailingZeros.Ten64 | src/ext/fmt/format-inl.h:1179-1180 | the same for 10 on 64 bits |
| TrailingZeros.HundredMillion | src/ext/fmt/format-inl.h:1154-1161 | the 2^90 / 10^8 test is exact for every 64-bit n and yields the quotient |
| TrailingZeros.Umul128Exact | src/ext/fmt/format.h:1497-1512 | the portable 128-bit product is exact |
| TrailingZeros.RemoveTrailingZeros32 | src/ext/fmt/format-inl.h:1130-1148 | n is split exactly into a number that does not end in 0 and a power of ten |
| TrailingZeros.RemovePairs64 | src/ext/fmt/format-inl.h:1168-1185 | the same for the 64-bit loop |
| TrailingZeros.RemoveTrailingZeros64 | src/ext/fmt/format-inl.h:1151-1186 | the split is exact if and only if n is no multiple of 10^8 or is below 2^32 * 10^8 |
| TrailingZeros.CutExample | src/ext/fmt/format-inl.h:1160-1168 | (2^32 + 1) * 10^8 is taken for 10^8 |
| Conversion.StepShape | src/common/ConvertUTF.cpp:470-528 | a round consumes and writes within bounds |
| ConversionLaws.TablesDecode | src/common/ConvertUTF.cpp:182-202 | the shift-and-subtract tables give the scalar value of every accepted character |
| ConversionLaws.StrictDecoding | src/common/ConvertUTF.cpp:303-326 | strict decoding accepts a guarded string if and only if RFC 3629 section 4 calls it well formed, and yields the scalar values that encode to it |
| ConversionLaws.AcceptedThoughMalformed | src/common/ConvertUTF.cpp:313-319 | three bytes outside the grammar that the missing lower bound behind ED lets through |
| IllFormed.Failure8 | src/common/ConvertUTF.cpp:351-360 | decoding UTF-8 reports exhausted source exactly when fewer bytes are left than the first one announces, and illegal source when the bytes are there and make no accepted character |
| IllFormed.Decoding16 | src/common/ConvertUTF.cpp:125-155 | strict decoding of UTF-16 succeeds if and only if surrogates come in pairs, lenient decoding if and only if the text does not end in a high surrogate; where it stops it says why |
| IllFormed.NoScalar | src/common/ConvertUTF.cpp:78-107 | what each mode of the converters from UTF-32 does with a surrogate and with a value out of range: U+FFFD, its three bytes, a mark, or a stop |
| IllFormed.Strict32 | src/common/ConvertUTF.cpp:69-114 | a strict conversion from UTF-32 succeeds if and only if all units are scalar values |
| IllFormed.Samples | src/common/ConvertUTF.cpp:222-296 | the samples of RFC 3629 section 7 and RFC 2781 section 5, unit by unit |
| Transcoding.Transcodes | src/common/ConvertUTF.cpp:69-528 | every converter turns the encoding of any scalar sequence into the other encoding, as far as the room goes |
| Transcoding.RoundTrips | src/common/ConvertUTF.cpp:417-528 | each round trip over UTF-8, UTF-16 and UTF-32 gives the scalar sequence back |
| Transcoding.PathsAgree | src/common/ConvertUTF.cpp:344-413 | UTF-8 to UTF-16 equals the way over UTF-32 on every byte string, well formed or not |
| Transcoding.SamePath | src/common/ConvertUTF.cpp:470-528 | the same, round by round and for any remaining room |
| Resumption.Resumes | src/common/ConvertUTF.cpp:69-528 | a full target loses nothing: with more room the loop would have gone on from exactly there |
| Resumption.ChunksAgree | src/common/ConvertUTF.cpp:222-288 | converting in buffers of any size that holds one character equals one call with a large buffer |
| Resumption.RunBounds | src/common/ConvertUTF.cpp:69-171 | no converter reads or writes beyond its bounds |
| ConvertUtf.Gather | src/common/ConvertUTF.cpp:362-371 | the add-and-shift switch accumulates the bytes |
| ConvertUtf.ReadSurrogates | src/common/ConvertUTF.cpp:227-250 | a unit or a pair, and the position and result if neither can be taken |
| ConvertUtf.BytesNeeded | src/common/ConvertUTF.cpp:256-270 | the length of a character, and the replacement for one out of range |
| ConvertUtf.WriteBytes | src/common/ConvertUTF.cpp:276-283 | the switch that writes backwards puts down the UTF-8 encoding |
| ConvertUtf.ConvertUTF32toUTF16 | src/common/ConvertUTF.cpp:69-114 | the loop over the buffers reports and writes what the specification of a whole run says |
| ConvertUtf.ConvertUTF16toUTF32 | src/common/ConvertUTF.cpp:118-171 | the same |
| ConvertUtf.ConvertUTF16toUTF8 | src/common/ConvertUTF.cpp:222-288 | the same |
| ConvertUtf.ConvertUTF8toUTF16 | src/common/ConvertUTF.cpp:344-413 | the same |
| ConvertUtf.ConvertUTF32toUTF8 | src/common/ConvertUTF.cpp:417-466 | the same |
| ConvertUtf.ConvertUTF8toUTF32 | src/common/ConvertUTF.cpp:470-528 | the same |
| UnicodeHelper.ConvertUTF8ToUTF32String | src/common/UnicodeHelper.cpp:44-68 | the buffer is never exhausted; the result is that of the converter with ample room |
| UnicodeHelper.ConvertUTF32ToUTF8String | src/common/UnicodeHelper.cpp:103-133 | the buffer is never exhausted; the call succeeds if and only if all units are scalar values, then with their encoding, and else leaves nothing |
| UnicodeHelper.OnlyScalars | src/common/ConvertUTF.cpp:417-466 | a surrogate or a value out of range keeps the strict converter from reporting success, in any room |
| UnicodeHelper.ThereAndBack | src/common/UnicodeHelper.cpp:11-21 | utf8to32(utf32to8(s)) is s for every sequence of scalar values |
| Codepoints.BlockDecodes | src/ext/fmt/format.h:669-699 | the branchless decoder reports no error on a block if and only if it starts with a character of the grammar, and then gives its scalar value |
| Codepoints.ViewIsCharacter | src/ext/fmt/format.h:721-731 | the zeros behind the end never complete a character |
| Codepoints.ViewsSpell | src/ext/fmt/format.h:703-732 | the views are a partition of the string, and all are valid if and only if it is well formed |
| Codepoints.ForEachCodepoint | src/ext/fmt/format.h:703-732 | the walk, block loop and padded tail together, hears exactly these views until the callback stops it |
| Codepoints.HeardUntil | src/ext/fmt/format.h:711-732 | the callback hears all views up to the first at which it returns false, and that one as the last |
| Codepoints.WalkAgreesWithConverter | src/ext/fmt/format.h:703-732 | the walk and the strict converter accept the same strings, up to the guard, with the same code points |
| RingbufferModel.WriteWrapped | src/vcpu/Ringbuffer.h:111-115 | the copy in two parts keeps the order of the bytes |
| RingbufferModel.ReadWrapped | src/vcpu/Ringbuffer.h:148-155 | the read in two parts gives the oldest bytes and leaves the others |
| RingbufferModel.Ringbuffer.CountsBytes | src/vcpu/Ringbuffer.h:166-176 | the count of bytes is the length of the contents |
| RingbufferModel.Ringbuffer.Write | src/vcpu/Ringbuffer.h:89-124 | appends all of src, or fails exactly for lack of room and changes nothing |
| RingbufferModel.Ringbuffer.Read | src/vcpu/Ringbuffer.h:132-163 | takes the oldest bytes, or fails exactly when there are too few |
| RingbufferModel.Ringbuffer.Peek | src/vcpu/Ringbuffer.h:59-67 | reads and changes nothing, unless the ring was full: then its contents are gone |
| DispatchModel.FrameAppend | src/vcpu/Dispatch.h:76-100 | framing an item at the end adds its header and its bytes |
| DispatchModel.FrameFirst | src/vcpu/Dispatch.h:103-121 | the first bytes of a queue read as the header and data of its first item |
| DispatchModel.FrameInjective | src/vcpu/Dispatch.h:20-24 | a byte string frames one queue at most |
| DispatchModel.Dispatch.Push | src/vcpu/Dispatch.h:76-100 | appends four header bytes, size low and high, type and zero, and the item; fails exactly for lack of room or for a size above 65535 |
| DispatchModel.Dispatch.Peek | src/vcpu/Dispatch.h:48-61 | the header of the first item; the answer -1 for a queue of nothing but one empty item |
| DispatchModel.Dispatch.Pop | src/vcpu/Dispatch.h:102-121 | takes the first item off the queue |
| WindowModel.IdsTellApart | src/vcpu/SuperScalarCPU.cpp:150-152 | ids modulo 16 tell the instructions in flight apart |
| WindowModel.OwnerNext | src/vcpu/SuperScalarCPU.cpp:187-190 | which of the four slots holds which instruction, as the window moves on |
| WindowModel.TickSlot | src/vcpu/SuperScalarCPU.cpp:97-116 | one tick of one decoder, and which instruction it may hand to execution |
| WindowModel.MayExecute | src/vcpu/SuperScalarCPU.cpp:158-178 | a decoder may execute exactly when it holds the oldest instruction, decoded, and that one is awaited; after a flush that dropped instructions none may |
| WindowModel.FinalizeSlot | src/vcpu/SuperScalarCPU.cpp:110-115 | finalizing frees the slot and moves the window by one |
| WindowModel.DueLeaves | src/vcpu/SuperScalarCPU.cpp:97-116 | a decoded oldest instruction leaves in the same tick |
| WindowModel.AgesBounded | src/vcpu/SuperScalarCPU.cpp:95-119 | no instruction in flight is as old as the latency |
| WindowModel.RipeNext | src/vcpu/SuperScalarCPU.cpp:101-116 | no instruction leaves the window before it has had all its ticks |
| WindowModel.NextSlotIdle | src/vcpu/SuperScalarCPU.cpp:49-51 | the next slot is idle exactly when fewer than four instructions are in flight |
| PipelineModel.QueueRoom | src/vcpu/SuperScalarCPU.cpp:112-112 | a drained queue has room for the four pushes whose result is ignored |
| PipelineModel.CPUBase.PushToDispatch | src/vcpu/InstructionSetV1/InstructionSetV1Decoder.cpp:98-117 | the push of a finished decoder succeeds and appends one item |
| PipelineModel.CPUBase.ProcessDispatch | src/vcpu/CPUBase.cpp:89-114 | executes the first item of the queue, or reports that it is empty |
| PipelineModel.InstructionPipeline.UpdatePipeline | src/vcpu/SuperScalarCPU.cpp:95-119 | ticks all slots in order and pushes exactly the instructions that become due, in order |
| PipelineModel.InstructionPipeline.ProcessDispatcher | src/vcpu/SuperScalarCPU.cpp:126-145 | drains the queue: everything in it is executed, in order |
| PipelineModel.InstructionPipeline.BeginNext | src/vcpu/SuperScalarCPU.cpp:185-203 | the next instruction starts in the next slot with the next id |
| PipelineModel.InstructionPipeline.Tick | src/vcpu/SuperScalarCPU.cpp:35-53 | one tick keeps the window, executes what is due, and begins an instruction exactly when fewer than four are in flight |
| PipelineModel.InstructionPipeline.Run | src/vcpu/SuperScalarCPU.cpp:35-53 | over runs of any length the executed instructions are a prefix of the begun ones, everything begun is executed within the latency and nothing before its ticks have passed, and fetching never stops; after a flush that dropped instructions nothing is executed and fetching stops after four |
| PipelineModel.InstructionPipeline.Flush | src/vcpu/SuperScalarCPU.cpp:58-70 | empties the window but not the wait: execution goes on exactly when nothing was in flight |
| WindowModel.LiveIds | src/vcpu/SuperScalarCPU.cpp:185-203 | the live decoders hold exactly the instructions of the window, each with its number modulo 16 in the slot of its number modulo 4 |
| Inclusion.ExpandJoin | src/assembler/Preprocessor/PreProcessor.cpp:13-37 | files whose directives stay inside them expand piece by piece |
| Inclusion.Substitution | src/assembler/Preprocessor/PreProcessor.cpp:13-37 | every include stands for its asset, however often the asset is named |
| Inclusion.IncludedTokens | src/assembler/Preprocessor/PreProcessor.cpp:73-89 | a directive line that names an asset without directives becomes the tokens of the asset but for its last one, between the expansions of what stands before and behind it |
| Inclusion.OnlyIncludes | src/assembler/Preprocessor/PreProcessor.cpp:22-34 | a directive with another keyword than include, or without its dot, its string or its asset, has no expansion |
| Inclusion.EndsOfSource | src/assembler/Preprocessor/PreProcessor.cpp:82-83 | when every asset ends with its only end-of-file token, the expansion has just those of the source |
| Inclusion.FullyExpanded | src/assembler/Preprocessor/PreProcessor.cpp:13-37 | an expansion has no include left |
| Inclusion.ExpandPlain | src/assembler/Preprocessor/PreProcessor.cpp:13-37 | preprocessing tokens without includes changes nothing |
| PreprocessorModel.Splice | src/assembler/Preprocessor/PreProcessor.cpp:79-83 | putting an asset in the place of its directive keeps the meaning and makes the rest lighter |
| PreprocessorModel.AtKeyword | src/assembler/Preprocessor/PreProcessor.cpp:42-55 | a directive the code rejects is one that has no expansion |
| PreprocessorModel.PassOver | src/assembler/Preprocessor/PreProcessor.cpp:14-19 | scanning on, also over the first token behind a splice, keeps the meaning |
| PreprocessorModel.PreProcessor.ProcessIncludeDirective | src/assembler/Preprocessor/PreProcessor.cpp:58-92 | the spliced tokens, the end-of-file token of the asset dropped, and the index before them |
| PreprocessorModel.PreProcessor.Process | src/assembler/Preprocessor/PreProcessor.cpp:13-37 | the splicing loop ends, succeeds exactly when recursive substitution does, and gives the same tokens |
| ParserModel.Parser.ParseExpression | src/assembler/Parser/Parser.cpp:489-491 | the value and the tokens left are those of the grammar function, for every token stream |
| ParserModel.Parser.ParseAdditiveExpression | src/assembler/Parser/Parser.cpp:493-501 | the same for sums, looping to the left |
| ParserModel.Parser.ParseMultiplicativeExpression | src/assembler/Parser/Parser.cpp:503-511 | the same for products and shifts |
| ParserModel.Parser.ParseUnaryExpression | src/assembler/Parser/Parser.cpp:513-520 | the same for signs |
| ParserModel.Parser.ParsePrimaryExpression | src/assembler/Parser/Parser.cpp:522-561 | the same for literals, member chains and brackets |
| Precedence.PrimaryIsOperand | src/assembler/Parser/Parser.cpp:513-520 | a primary is read as an operand whatever follows, unless it begins with a minus sign; with a minus sign in front each is read as its negation |
| Precedence.ProductsBindTighter | src/assembler/Parser/Parser.cpp:493-511 | a + b * c is a + (b * c), for both signs and each of / * % << >> |
| Precedence.ProductsComeFirst | src/assembler/Parser/Parser.cpp:493-511 | a * b + c is (a * b) + c, for the same operators |
| Precedence.ProductsLeanLeft | src/assembler/Parser/Parser.cpp:503-511 | two operators of a product group to the left |
| Precedence.SumsLeanLeft | src/assembler/Parser/Parser.cpp:493-501 | two signs group to the left |
| Precedence.OtherTokensEnd | src/assembler/Parser/Parser.cpp:493-511 | a token with any other value than these seven ends the expression |
| Precedence.ShiftedIndex | src/assembler/Parser/Parser.cpp:493-511 | a0 + d3<<2 adds the shifted register |
| Precedence.NoOperand | src/assembler/Parser/Parser.cpp:556-560 | a token that begins no operand gives nothing and is not taken |
| Precedence.Unclosed | src/assembler/Parser/Parser.cpp:548-555 | a bracket that is not closed ends the program |
| Printing.ParseAfterPrint | src/assembler/Parser/Parser.cpp:489-561 | parsing print(e) followed by anything that does not extend an expression gives exactly e and the rest |
| Printing.PrimaryPrints | src/assembler/Parser/Parser.cpp:522-561 | the same for primary expressions, with brackets as dereferences and dotted member chains |
| Printing.SumPrints | src/assembler/Parser/Parser.cpp:493-501 | a printed sum is taken up whole, left-associative |
| Printing.PrintInjective | src/assembler/Parser/Parser.cpp:489-561 | two expressions never print alike |
| Printing.SumSpells | src/assembler/Parser/Parser.cpp:489-561 | whatever is parsed without a gap is a tree of the grammar, and the tokens taken spell it |
| Printing.MinusMisread | src/assembler/Parser/Parser.cpp:513-520 | a primary operand is read back if and only if it does not begin with a minus sign: a string literal that is one is taken for the operator |
| Layout.FindOwn | src/assembler/Linker/Segment.cpp:86-93 | an address inside a chunk of an ordered list finds that chunk and no other |
| Layout.FindExact | src/assembler/Linker/Segment.cpp:86-93 | the lookup gives the first chunk that has the address among its bytes, and nothing if none has |
| Layout.InsertBehind | src/assembler/Linker/Segment.cpp:48-56 | sorting in a chunk behind all others is appending, and keeps the chunks apart |
| Numbers.ReadsBack | src/assembler/Linker/Segment.cpp:226-260 | the bytes of a number read back as the number modulo the width |
| Numbers.HighestFirst | src/assembler/Linker/Segment.cpp:226-260 | byte k of a number is its digit to the base 256, the highest digit first |
| SegmentModel.Segment.AddChunk | src/assembler/Linker/Segment.cpp:48-56 | the list with the chunk sorted in |
| SegmentModel.Segment.ChunkFromAddress | src/assembler/Linker/Segment.cpp:86-93 | the first chunk that holds the address |
| SegmentModel.Segment.EndAddress | src/assembler/Linker/Segment.cpp:105-113 | the highest end of the chunks |
| SegmentModel.Segment.ReplaceAt | src/assembler/Linker/Segment.cpp:226-260 | overwrites a number inside one chunk, and fails exactly when it would not fit |
| LinkerModel.Context.ComputeEndAddress | src/assembler/Compiler/Context.cpp:222-234 | the ends of both segments, added up |
| LinkerModel.Context.MergeChunk | src/assembler/Compiler/Context.cpp:168-186 | the chunk goes to the end or to its own address, and is refused exactly when that is below the end |
| LinkerModel.Context.MergeSegmentForUnit | src/assembler/Compiler/Context.cpp:157-188 | the chunks up to the first refused one, which asked for an address below the end; copied, placed, and their imports registered unless their relocation failed |
| LinkerModel.Context.RegisterPoints | src/assembler/Compiler/Context.cpp:307-330 | the import is declared as an export, and its points that lie in this chunk join it, unmoved |
| LinkerModel.Context.RelocateChunkFromUnit | src/assembler/Compiler/Context.cpp:238-334 | the unit's bytes go into the new chunk, and its imports are taken up exactly when all its local points fit |
| LinkerModel.Context.RelocateExports | src/assembler/Compiler/Context.cpp:336-371 | resolves every registered point, and fails exactly when an export has no definition |
| LinkerModel.Context.FinalMergeOfSegments | src/assembler/Compiler/Context.cpp:191-219 | the image of all chunks with zeros elsewhere; the overflow check never fires |
| LinkerModel.Context.MergeUnits | src/assembler/Compiler/Context.cpp:125-153 | layout, local writes and the ways to fail are those of the plan, a function of the units and the given addresses; the image shows every chunk at its address with exactly its local writes, every import placeholder resolved, zeros elsewhere; when the plan does not fail, linking fails exactly when an export or an imported name has no definition |
| LinkerModel.Context.RelocateAbsolute | src/assembler/Compiler/Context.cpp:270-280 | a local absolute point is patched at its absolute address, taken as an offset into the chunk found there; when it fails and when it ends the program |
| LinkerModel.Context.RelocateRelative | src/assembler/Compiler/Context.cpp:283-287 | a local relative point is patched with the distance to its label, moved once more by the load address |
| LinkerModel.Context.RelocateLocals | src/assembler/Compiler/Context.cpp:244-290 | how the local relocation of a chunk ends and what it writes, in order, up to the first point that fails |
| Planning.SameOutcome | src/assembler/Compiler/Context.cpp:268-288 | how a local point ends, and what it writes, depends on the layout alone, not on what was patched before |
| LocalPoints.PointSettled | src/assembler/Compiler/Context.cpp:270-287 | a point that lies in a chunk merged already finds that chunk, and succeeds if and only if the point, moved by the load address, fits into it |
| LocalPoints.LinkExplained | src/assembler/Compiler/Context.cpp:125-188 | over a link of settled units without a refused chunk: no local point ends the program, the writes are exactly those of the points, and a relocation fails if and only if some moved point does not fit |
| LocalPoints.LocalPointInImage | src/assembler/Compiler/Context.cpp:264-289 | the number of every local point stands in the image at its place moved once more by the load address of its chunk |
| LocalPoints.RelativeInImage | src/assembler/Compiler/Context.cpp:281-287 | in the image the number of a relative point, its placeholder and one more add up to the address of the label, modulo the width |
| LocalPoints.AbsoluteInImage | src/assembler/Compiler/Context.cpp:268-280 | in the image an absolute point reads as the offset of its label behind the load address of the label's chunk, modulo the width |
| LocalPoints.BackBranch | src/assembler/Compiler/Context.cpp:281-287 | cmp.b d0, 0x33 and a beq.b back to it: the branch byte is f7 |
| LocalPoints.LocalPointReads | src/assembler/Compiler/Context.cpp:270-280 | in the image a placeholder of zeros reads as the number of its local point if and only if its chunk loads at 0 |
| LocalPoints.MovedPoint | src/assembler/Compiler/Context.cpp:270-278 | a unit that loads at 4, whose label goes to byte 4 of its chunk instead of byte 0 |
| Unsettled.PointExits | src/assembler/Compiler/Context.cpp:268-276 | looking up an absolute point ends the program if and only if no merged chunk of its segment holds its address |
| Unsettled.ChunkEnds | src/assembler/Compiler/Context.cpp:245-289 | the relocation of a chunk ends as the first of its labels' points that fails does, and succeeds if and only if none fails |
| Unsettled.LinkIsSteps | src/assembler/Compiler/Context.cpp:125-134 | a link without a refused chunk is the merge of all chunks of all units, code before data, up to the end of the program |
| Unsettled.ExitsExactly | src/assembler/Compiler/Context.cpp:125-188 | over any link without a refused chunk: it ends the program if and only if a label's chunk is reached one of whose absolute points, with no failing one before it, is looked up where no merged chunk lies; and it loses something if and only if some point of a chunk that is reached is not patched |
| Unsettled.LateGiven | src/assembler/Compiler/Context.cpp:168-187 | a label used absolutely from a chunk with a given address that is merged after the label's: without a refused chunk something is always lost, and the program ends unless an earlier point of the label's chunk fails |
| Unsettled.LateAppended | src/assembler/Compiler/Context.cpp:264-280 | a label used absolutely from a chunk that is appended after the label's: a link that fails nowhere has written the address into another chunk |
| Unsettled.UsedAhead | src/assembler/Compiler/Context.cpp:264-280 | a unit of two chunks whose label is used ahead: with the second chunk at 100 the program ends; appended, the first chunk is overwritten and the placeholder stays zero |
| LocalPoints.NothingWritten | src/assembler/Compiler/Context.cpp:264-266 | units without local points write nothing locally and lose nothing |
| LocalPoints.RefusedWasGiven | src/assembler/Compiler/Context.cpp:168-178 | load addresses that were given stay, and a chunk is refused only if some chunk came with one |
| Merging.LocalPatched | src/assembler/Compiler/Context.cpp:268-281 | a local patch, wherever it lands, moves nothing and changes the chunk by exactly the write that is recorded |
| Units.DefinedBefore | src/assembler/Compiler/Context.cpp:340-345 | all exports are defined exactly when the known ones are and no other name was imported |
| Units.WantedExactly | src/assembler/Compiler/Context.cpp:292-331 | a link resolves exactly the absolute points of its units' imports that lie in a chunk of their unit |
| Resolving.PatchNext | src/assembler/Compiler/Context.cpp:355-367 | a patch resolves one reference and disturbs no other |
| Resolving.ReferenceFound | src/assembler/Compiler/Context.cpp:355-361 | the address of a placeholder finds the chunk that holds it |
| Resolving.LocalPointRight | src/assembler/Compiler/Context.cpp:270-280 | one patch of a placeholder of zeros, at its absolute address, reads as the number if and only if the chunk loads at 0 |
| Image.CopiesDisjoint | src/assembler/Compiler/Context.cpp:157-188 | no two merged chunks overlap |
| Image.ImageIsLinked | src/assembler/Compiler/Context.cpp:191-219 | the image shows all chunks, all resolved placeholders, and zeros elsewhere |
| Image.PlaceholderReadsBack | src/assembler/Compiler/Context.cpp:336-371 | a placeholder reads back big-endian as the exporter's address modulo the operand width |
| Image.ExportReadsBack | src/assembler/Compiler/Context.cpp:346-368 | the same in terms of the exporting unit: the symbol's offset in its chunk, behind the load address of that chunk |
| Encoding.RegisterRoundTrip | src/assembler/Compiler/StmtEmitter.cpp:854-880 | a register is selected again by its index if and only if it agrees with the operand family |
| Encoding.OperandRoundTrip | src/vcpu/InstructionSetV1/InstructionSetV1Decoder.cpp:282-334 | an operand is read back from its mode byte and its trailer, whose size the mode byte tells |
| Format.InstructionBytes | src/assembler/Compiler/StmtEmitter.cpp:664-747 | every byte of an instruction with literal numbers: opcode, size and family, the mode byte of each operand with its register and modes, and what follows for them |
| Format.MoveImmediate | src/assembler/Compiler/StmtEmitter.cpp:831-846 | dN from an immediate: opcode, size and family, 16 N + 3, 1, and one, two, four or eight bytes of the value, the highest first |
| Format.MoveExamples | src/assembler/Compiler/StmtEmitter.cpp:695-747 | move.w d0, 0x4433 is 20 01 03 01 44 33, and move.l a1, (a0 + d3<<2) is 20 03 93 84 32 |
| Format.PlaceholderPlace | src/assembler/Compiler/StmtEmitter.cpp:1050-1053 | where the placeholder of a label is noted, and which label it is for |
| Encoding.DecodeAfterEncode | src/vcpu/InstructionSetV1/InstructionSetV1Decoder.cpp:210-295 | the length of an instruction follows from its first four bytes; it is read back whatever follows, if and only if an immediate destination and the source commute in their bytes and the instruction reads its destination |
| Encoding.ImmediatesSwapped | src/vcpu/InstructionSetV1/InstructionSetV1Decoder.cpp:212-245 | two immediate operands are read the other way round |
| Encoding.ProgramRoundTrip | src/vcpu/InstructionSetV1/InstructionSetV1Decoder.cpp:123-190 | a program of instructions that are read in order has exactly one reading, the instructions that were assembled |
| Encoding.SameBytesSameProgram | src/assembler/Compiler/StmtEmitter.cpp:695-747 | two programs with the same bytes are the same, up to the high bytes of immediates and unresolved labels |
| EmitterModel.EmitCodeStatement.EmitInstrOperand | src/assembler/Compiler/StmtEmitter.cpp:773-816 | the mode byte, the emitters left behind, and exactly which operands are refused |
| EmitterModel.EmitCodeStatement.RunPostEmitters | src/assembler/Compiler/StmtEmitter.cpp:646-653 | the emitters run in order, and the placeholder is noted where it comes to lie |
| EmitterModel.EmitCodeStatement.ProcessOneOpInstrStmt | src/assembler/Compiler/StmtEmitter.cpp:664-692 | the encoding of a one-operand instruction, with the size inserted afterwards |
| EmitterModel.EmitCodeStatement.ProcessTwoOpInstrStmt | src/assembler/Compiler/StmtEmitter.cpp:695-747 | the encoding of a two-operand instruction, its label and its placeholder address |
| EmitterModel.PlaceholderIsZero | src/assembler/Compiler/StmtEmitter.cpp:1050-1053 | the placeholder address points at eight zero bytes |

## Left out

- FormatDragon.FormatDragon: takes the estimate of the exponent as a precondition, since format_float's estimate in floating point is not modelled: that the value is below 10^(exp10+1), and for the shortest form what EstimateOk says of its interval; and asks that a power of ten is not moved further than its denominator, which AlwaysSplittable says of all but three significands.
- BigintModel.Bigint.DivmodAssign: asks for a dividend below 2^31 divisors where the algorithm alone would allow 2^32, because the quotient is a 32-bit int; and for a zero dividend that is not spread wider than the divisor.
- ConversionLaws.StrictDecoding: is about strings without a byte below 80 behind ED or F4 where it speaks of well-formedness, because the code accepts some others.
- RingbufferModel.Ringbuffer.Read: asks that a read from a full ring does not have to wrap, since the code then reads past its buffer.
- DispatchModel.Dispatch.Pop: asks for the size that the header states; a wrong size corrupts the queue.
- PipelineModel.InstructionPipeline.Tick: is about runs without faults, in which decoding takes a bounded number of ticks, every set is registered, and every execution succeeds.
- PipelineModel.InstructionPipeline.Flush: asks that no more than twelve instructions have begun since the one that execution waits for, since further flushes bring its id round again; the instruction pointer that a flush sets is not modelled.
- LinkerModel.Context.MergeUnits: leaves out the reserved start symbol; LocalPointInImage says what local points read as for units whose points lie in chunks of the same unit that are merged no later than the label's chunk, ExitsExactly, LateGiven and LateAppended what the others come to.
- LinkerModel.Context.RelocateChunkFromUnit: leaves out that a second start symbol makes it fail.
- LinkerModel.Context.RelocateAbsolute: has both segments from the start; the code dereferences a null segment for a point in a segment that no unit has brought yet, where the model finds nothing and ends the program.
- PreprocessorModel.PreProcessor.Process: asks for a loader without cycles and for files whose directives neither cross a file boundary nor lean on the string of another directive.
- EmitterModel.EmitCodeStatement.EmitInstrOperand: models labels on the absolute path; the relative one, with its deduced width, is unfinished in the code.
- The instruction table: the opcodes and their features are a parameter.
- Deferred emitters, DummyLinker and the old ELF writer: unfinished or superseded.
- The mutation of units that are linked twice.
- Chunks and tokens are values in lists; sharing of one chunk object between a unit and the context is modelled by ids. The order of hash tables is that of a list, in any order.
- Evaluation of constant expressions, struct members and statements of the parser; number literals keep their text.
- Decoder ticks: the order in which the parts of an instruction are fetched is folded into one reading of its bytes; the memory unit appears as the byte order it keeps.
- Mutexes and timers: every locked operation is one step.
- Interrupts and exceptions, caches, the MMU, the execution of instructions, and the lexer's characters.
- Dragonbox, format strings, padding, locale and the rest of the formatting library.
- Address arithmetic is unbounded in the linker: images near 2^64 bytes are not considered. So are exponents and sizes of the bigint beyond an int.

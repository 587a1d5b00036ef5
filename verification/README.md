# Verified model of the Wyrd assembler, free lists and word kernels

This project models three components of the repository in Dafny and proves what they are for.

* **Binify** (`libs/binify`), a two-pass assembler. `Assembler` is the assembler as a pure state machine: what each item
  emits at a given offset, in given modes and with given symbols, and what it changes. `BinifyObject.Binify` is the
  object of the source, field by field and loop by loop, each callback proved equal to one step of the pure machine.
  `LrTables` and `LrDriver` are the generated LALR(1) parser: its tables, its shift-reduce driver and its semantic
  actions. `LrExpressions`, `LrProgram` and `LrFacts` prove that on the text of a program it performs exactly the items,
  in order; `LrAutomaton`, `LrSoundness` and `LrAcceptance` that it accepts nothing else; `LrOutcomes` that it stops on
  every text, and how; `LrReading` that a text is the text of one program only. `Layout`, `TwoPass` and `ModesAndFixups`
  prove the two-pass contract. `Settings` says which value a name has and which modes hold at every item of either pass,
  and `Files` what stands in the finished file, item by item. `Bytes`, `Strings` and `FloatFields` prove the round trips
  of fields and string tokens, `Expressions` the arithmetic of integers; `Ieee` is the arithmetic of doubles and floats, in the binary64 and binary32 formats of IEEE 754.
* **The free lists** (`libs/core/freelist.h`). `Pools` is one abstract allocator (a stack of free indices, a map of live
  slots); `FreeLists` has the explicit and the intrusive list as objects that refine it; `MtFreeList` is the shared list
  as a state machine whose steps are the atomic queue operations and the plain data writes of any number of threads.
* **Word kernels** (`libs/core/utils.h`, `libs/core/quick_hash.h`), in `WordKernels` and `QuickHash`, on the bit-level
  integers of `Bits`.

Main results, hardest first:

1. The parser: the generated tables and the driver accept exactly the texts of programs, with exactly the effect of
   their items (`LrAcceptance.AcceptsExactly`). On every other text the driver stops as well, at a syntax error or at an
   item that cannot be performed (`LrOutcomes.Halts`, `LrOutcomes.Verdict`), and no two programs have the same text
   (`LrReading.OneProgram`).
2. Label soundness: in a stable program every second-pass lookup of a once-defined label is the number of bytes written
   when control reaches the label, forward and backward references alike (`TwoPass.LabelSoundness`). `TwoPass.TextStable`
   is a check on the program text that implies stability. Without any condition a label always means its
   first-pass offset, and the passes agree at every item exactly when every item has the same size in both
   (`ModesAndFixups.LayoutExact`). Two small programs show that the leaked default type and a forward reference in a
   layout argument really do break it. Any number of further passes would lay out as the second did
   (`ModesAndFixups.FurtherPasses`).
3. From tokens to bytes: `Binify.Parse` runs the LALR tables twice over the tokens of any file. It ends in the state the
   pure assembler computes if the file is a program, and writes nothing if it is not. The parts of the items follow one
   another in the file, and each is what its item must write: the digits of its argument in the current byte order, zeros
   up to a boundary, a number that a reader finds again, the bytes a string token stands for (`Files.PartWritten`). A name
   has the value of the last item that bound it, a mode the setting of the last item that set it, in this pass or else in
   the first (`Settings`).
4. The shared list is safe over every interleaving; indices are conserved and exclusively owned, an owner reads back
   what it stored, and indices are handed out first in, first out (`MtFreeList.FirstInFirstOut`).
5. The chain threaded through the intrusive list's value slots always ends by itself after `freeCount` different slots,
   exactly the slots that are not live, while live values stay what was stored.
6. Floating point: sums, differences, products, quotients and narrowings are nearest to the exact result among all data
   of the format, with an even significand on a tie, and infinite exactly from half a step above the largest number on.
   A reader of the file finds the narrowed value. A forbidden infinity is written all the same under an exact
   condition (`FloatFields.ForbiddenInfinityExactly`).
7. Growth: after any run without an explicit resize a list of c slots has (c + 1) * 2^k - 1 slots, for the least k that
   fits the peak.
8. The string hash separates any two strings that differ in one character. It is not FNV-1a outside ASCII: one
   non-ASCII character always makes it differ, and two adjacent ones cancel under an exact condition.

Where the code and its comments disagree the model follows the code:

* `quick_hash.h` calls itself FNV-1a, but sign-extends characters. See `QuickHash.StepsAgreeExactly`,
  `QuickHash.OneHighCharacterDiffers` and `QuickHash.TwoHighCharactersExactly`.
* `parse` returns true on a syntax error too, although its callers take false for the failure
  (libs/level1/binny/bundlewriter.cpp:162-163): the error is thrown past the test of the result, and only logged. See
  `BinifyObject.Binify.Parse`.
* `.allowinfinity 0` does not keep infinities out of `(float)` items: the test comes before the narrowing. Items without
  a type are narrowed first. See `FloatFields.ForbiddenInfinityExactly` and `FloatFields.FloatItemsAgreeExactly`.
* The largest number less one, which replaces a forbidden infinity, is the largest number (`Ieee.LargestLessOne`).
* `isPow2` accepts zero. See `WordKernels.IsPow2Exactly`.
* `alignTo` with a boundary of a narrower unsigned type loses the high bits. See `WordKernels.NarrowAlignmentExactly` and
  `WordKernels.NarrowAlignmentFails`.
* The shared list's `empty` answers whether something is still queued. See `MtFreeList.ReportsEmptyExactly` and
  `MtFreeList.ReportsEmptyFails`.
* An unknown escape in a string token emits the backslash and drops the letter (`Strings.Escaped`).
* A negative `.align` boundary works only at offsets that meet it already (`Assembler.Alignable`).

Conventions. `Option` results are None where the source divides by zero, fails an assert or counts a loop variable down
past zero. The methods of `Binify` require that this does not happen; for a whole file that is
`LrOutcomes.Harmless`, and `LrOutcomes.HarmlessExactly` says when it holds. Expression arithmetic wraps to 64 bits. Offsets
are unbounded naturals: an int64 overflow would need a file of 2^63 bytes. `Parse` requires a fresh object, as
`BINIFY_StringToOStream` provides (libs/binify/binify.cpp:420-426). Its tokens have the values the scanner gives them
(`LrSoundness.ScannerToken`), and the end of the file stands at their end. The grammar has rules for `/`, although the
scanner has none. Floating-point operations round to the nearest, ties to even; a NaN is known by its sign, which is
negative where an operation produces one, as on x86-64. Magnitudes are counted in units of 2^-1074, so that 1 is 2^1074
units (`Ieee.OneUnit`); the laws of products and quotients take that number as a parameter. Index growth requires that
the new size does not exceed the all-ones index.

## Model

| member | source | states |
|---|---|---|
| TwoPass.LabelSoundness | libs/binify/binify.cpp:22-118 | in a stable program, wherever the second pass is, a lookup of a once-bound label is the output length when control reaches the label |
| TwoPass.TextLabelSoundness | libs/binify/binify.cpp:22-118 | the same from a check of the program text alone |
| TwoPass.TextStableIsStable | libs/binify/binify.cpp:36-41 | that check implies stability: settled layout arguments, and leaked modes that are the initial ones or set before use |
| TwoPass.LookingBackIsStable | libs/binify/binify.cpp:63-109 | the check passes every text whose layout arguments look back at names bound once and that never sets the default type or the address length |
| TwoPass.SettledIsAlike | libs/binify/binify.cpp:63-109 | the static check implies that every layout argument evaluates alike in both passes |
| TwoPass.LearnSound | libs/binify/binify.cpp:63-89 | one lock step of the check: names it calls settled have equal values in both passes, although labels and `*name*` items run in the first pass only |
| TwoPass.LabelMeansFirstPass | libs/binify/binify.cpp:36-41 | for any program, a second-pass lookup of a label is its first-pass offset, and right exactly when both passes meet the label at the same offset |
| TwoPass.LeakedTypeMovesLabel | libs/binify/binify.cpp:36-41 | a default type set after its first use leaks into the second pass and moves a label from 4 to 1 |
| TwoPass.ForwardBlankMovesLabel | libs/binify/binify.cpp:97-102 | a forward reference in `.blank` counts as 1 in the first pass only, so a label recorded at 2 stands at 3 |
| TwoPass.StableOffsets | libs/binify/binify.cpp:113-120 | at every item of a stable program both passes are at the same offset, the length of the output so far |
| TwoPass.CountIsLength | libs/binify/binify.cpp:113-120 | the first pass counts exactly the bytes that the second one writes |
| TwoPass.EntryKept | libs/binify/binify.cpp:63-89 | what a run cannot change: names it does not bind, and in the second pass names bound by labels only |
| TwoPass.LabelRecorded | libs/binify/binify.cpp:63-73 | the first pass ends with a once-bound label at the offset it met it at |
| Settings.FirstPassLookup | libs/binify/binify.cpp:63-109 | in the first pass a name has what the last binding before gave it: a label the offset, the others the value of their argument |
| Settings.FirstPassUnbound | libs/binify/binify.cpp:92-109 | before any binding it is 1 there |
| Settings.SecondPassLookup | libs/binify/binify.cpp:83-109 | in the second pass a name has the value of the last assignment before, evaluated at the assignment |
| Settings.SecondPassCarried | libs/binify/binify.cpp:63-109 | if there is none, it has what the last binding of the whole first pass left |
| Settings.SecondPassUnbound | libs/binify/binify.cpp:92-109 | a name that nothing binds is 0 in the second pass |
| Settings.Pass0Value | libs/binify/binify.cpp:75-81 | a `*name*` item that alone binds its name gives it, throughout the second pass, the value its argument had in the first |
| Settings.SettingAt | libs/binify/binify.cpp:154-171 | in a run each of the five modes has the setting that the last item to set it gave it |
| Settings.SettingLeaks | libs/binify/binify.cpp:36-41 | before the first item of the second pass that sets a mode, the mode has the setting of the last item of the first pass that did |
| Settings.SettingInitial | libs/binify/binify.h:60-70 | if no item of either pass did, it has its initial setting |
| Settings.NeverSet | libs/binify/binify.h:60-70 | in a text without such items it has its initial setting throughout |
| Files.PartsFollow | libs/binify/binify.cpp:113-120 | the parts of the items follow one another without a gap from the beginning of the file to its end |
| Files.PartWritten | libs/binify/binify.cpp:113-407 | the part of every item is what an item of its kind must write: as many bytes as its type has and the digits in the byte order, zeros to the least multiple of the boundary, a number that is read back, the contents of a token, or nothing |
| Files.DefinedExactly | libs/binify/binify.cpp:174-225 | an item fails exactly where the source fails an assert, divides by zero or counts past zero |
| Files.LittleEndianFile | libs/binify/binify.h:66-70 | without an item that sets the byte order, every integer in the file begins with its least significant byte |
| Files.FourByteFile | libs/binify/binify.h:66-70 | without one that sets the default type, an integer without a type takes four bytes |
| Files.EightByteFixups | libs/binify/binify.h:66-70 | without one that sets the address length, a fixup is eight bytes behind zeros, at the least multiple of eight |
| Files.DoublesKept | libs/binify/binify.h:66-70 | without one that forbids NaN or infinities, a double is read back from the file as it was evaluated |
| Expressions.EvalWrapsOnce | libs/binify/parser.cxx:1376-1410 | wrapping to 64 bits at every operator is wrapping the value in unbounded integers once |
| Layout.SameLayout | libs/binify/binify.cpp:113-188 | two runs with alike layout arguments go through the same offsets whatever the pass, symbols, byte order, flags and output; modes may differ while unused |
| Layout.AssemblyIsListing | libs/binify/binify.cpp:113-120 | the file is the item-by-item concatenation of the encodings of the second pass; the first pass writes nothing |
| Layout.OutputIsListing | libs/binify/binify.cpp:113-225 | any run from any state appends its listing in pass 1, nothing in pass 0, and counts it in both |
| Layout.ListingAt | libs/binify/binify.cpp:341-407 | field k of a listing is the encoding of item k in the modes, symbols and offset of the state that reaches it |
| Layout.OutputGrows | libs/binify/binify.cpp:113-120 | what is written when control reaches an item stays at the front of the file, and its length is the offset |
| ModesAndFixups.LayoutExact | libs/binify/binify.cpp:174-188 | two complete runs keep equal offsets throughout exactly when each item has the same size in both |
| ModesAndFixups.ModesIdempotent | libs/binify/binify.cpp:154-171 | running the items from the modes they ended with ends in the same modes |
| ModesAndFixups.ThirdPassSameLayout | libs/binify/binify.cpp:36-41 | the second pass ends in the modes it began with, and a further pass with alike arguments lays out as it did |
| ModesAndFixups.FurtherPasses | libs/binify/binify.cpp:36-41 | from the check of the program text alone: however many passes were added, each would start and end in the modes the second starts in, and lay out every item where the second did |
| ModesAndFixups.AlignLeast | libs/binify/binify.cpp:174-181 | padding reaches the least multiple of the boundary and is shorter than the boundary |
| ModesAndFixups.AlignLoop | libs/binify/binify.cpp:174-181 | the loop of the source, which counts down from the boundary less the C++ remainder, ends exactly for the boundaries of the model, after as many zeros as the model pads with |
| ModesAndFixups.AddressLenWhole | libs/binify/binify.cpp:378-393 | every reachable address length is a whole, non-negative number of bytes |
| ModesAndFixups.FixupAlignedExactly | libs/binify/binify.cpp:395-407 | fixup fields are aligned to their own width at every offset exactly for length 32 and multiples of 64 |
| ModesAndFixups.FixupPlacement | libs/binify/binify.cpp:395-407 | in the file, a 32- or 64-bit fixup stands at the least multiple of its width, behind zeros, and reads back as its argument modulo 2^width |
| Bytes.FieldRoundTrip | libs/binify/binify.cpp:125-152 | a reader that sums the digits from either end, as the byte order says, finds the argument modulo 2^width |
| Bytes.SignedRoundTrip | libs/binify/binify.cpp:266-288 | the signed reading in the byte order of the field recovers every argument in signed range |
| Bytes.FieldDigit | libs/binify/binify.cpp:125-152 | the digit of weight 256^k is byte k of a little-endian field and byte size - 1 - k of a big-endian one |
| Bytes.FieldInjective | libs/binify/binify.cpp:242-288 | two arguments give the same field exactly when they agree modulo 2^width |
| Bytes.BigEndianReverses | libs/binify/binify.cpp:125-139 | byte k of the big-endian field is byte size - 1 - k of the little-endian one, and the digit of weight 256^(size - 1 - k) |
| Bytes.NativeCongruent | libs/binify/binify.cpp:242-258 | the masks and narrowing casts change no byte of a field |
| FloatFields.FloatReads | libs/binify/binify.cpp:290-318 | a reader of a float field finds the narrowed double, after the replacements |
| FloatFields.DoubleReads | libs/binify/binify.cpp:320-339 | a reader of a double field finds the double, after the replacements |
| FloatFields.FloatNearest | libs/binify/binify.cpp:316-317 | a finite double that stays finite is written as a float nearest to it, of the same sign |
| FloatFields.ForbiddenInfinityExactly | libs/binify/binify.cpp:297-317 | with infinities not allowed a float field holds one exactly when the value is finite but at least 2^128 - 2^103 in magnitude |
| FloatFields.DefaultNeverInfinite | libs/binify/binify.cpp:367-376 | without a type no forbidden infinity is written |
| FloatFields.FloatItemsAgreeExactly | libs/binify/binify.cpp:290-376 | an item with the type float and one without a type are written alike exactly when infinities are allowed or the value does not overflow |
| FloatFields.EvalEncoded | libs/binify/parser.cxx:1412-1452 | an expression over doubles has a double for its value |
| FloatFields.EvalSigns | libs/binify/parser.cxx:1442-1452 | a prefixed minus turns a number over, parentheses leave it alone |
| FloatFields.EvalSumNearest | libs/binify/parser.cxx:1418-1428 | no double is nearer than the value of `+` or `-` to the sum or the difference of the values of the operands |
| FloatFields.EvalProductNearest | libs/binify/parser.cxx:1430-1434 | no double is nearer than the value of `*` to the product |
| FloatFields.EvalQuotientNearest | libs/binify/parser.cxx:1436-1440 | no double is nearer than the value of `/` to the quotient |
| FloatFields.NotFiniteFloat | libs/binify/binify.cpp:292-317 | what a float field holds for every infinity and NaN: itself, zero, or the largest float with the sign of the infinity |
| FloatFields.NotFiniteDouble | libs/binify/binify.cpp:322-339 | the same for a double field |
| FloatFields.FiniteDouble | libs/binify/binify.cpp:322-339 | a finite double is read back whatever is allowed |
| Ieee.SumNearest | libs/binify/parser.cxx:1418-1428 | a finite sum is nearest to the exact one among all doubles |
| Ieee.ProductNearest | libs/binify/parser.cxx:1430-1434 | a finite product is nearest to the exact one, with the sign of the operands |
| Ieee.QuotientNearest | libs/binify/parser.cxx:1436-1440 | a finite quotient is nearest to the exact one, with the sign of the operands |
| Ieee.NegateOpposite | libs/binify/parser.cxx:1442-1446 | the opposite number, infinity or NaN |
| Ieee.AddNearest | libs/binify/parser.cxx:1418-1422 | no double is nearer to the sum of two numbers than the result |
| Ieee.SubNearest | libs/binify/parser.cxx:1424-1428 | no double is nearer to the difference than the result |
| Ieee.MulNearest | libs/binify/parser.cxx:1430-1434 | no double is nearer to the product, in units of both operands, than the result, which has its sign |
| Ieee.DivNearest | libs/binify/parser.cxx:1436-1440 | the same for the quotient |
| Ieee.AddTies | libs/binify/parser.cxx:1418-1422 | if another double is as near to the sum, the result has an even significand |
| Ieee.SubTies | libs/binify/parser.cxx:1424-1428 | if another double is as near to the difference, the result has an even significand |
| Ieee.MulTies | libs/binify/parser.cxx:1430-1434 | the same for products |
| Ieee.DivTies | libs/binify/parser.cxx:1436-1440 | the same for quotients |
| Ieee.AddOverflows | libs/binify/parser.cxx:1418-1422 | a sum is infinite exactly if the magnitude of the exact one is at least 2^1024 - 2^970, and has its sign |
| Ieee.SubOverflows | libs/binify/parser.cxx:1424-1428 | the same for differences |
| Ieee.MulOverflows | libs/binify/parser.cxx:1430-1434 | the same for products |
| Ieee.DivOverflows | libs/binify/parser.cxx:1436-1440 | the same for quotients |
| Ieee.AddSpecial | libs/binify/parser.cxx:1418-1422 | the NaNs, infinities and signed zeros that are sums |
| Ieee.SubSpecial | libs/binify/parser.cxx:1424-1428 | the NaNs, infinities and signed zeros that are differences |
| Ieee.MulSpecial | libs/binify/parser.cxx:1430-1434 | the NaNs and infinities that are products, of zero and infinity among them |
| Ieee.DivSpecial | libs/binify/parser.cxx:1436-1440 | the NaNs, infinities and zeros that are quotients, by zero among them |
| Ieee.NarrowNearest | libs/binify/binify.cpp:316-316 | a narrowed double is a nearest float |
| Ieee.NarrowOverflows | libs/binify/binify.cpp:316-316 | exactly the finite doubles of at least 2^128 - 2^103 in magnitude become infinite |
| Ieee.NarrowSign | libs/binify/binify.cpp:316-316 | narrowing keeps the sign, and leaves infinities and NaNs alone |
| Ieee.NarrowTwice | libs/binify/binify.cpp:374-374 | what is narrowed already is not changed by narrowing |
| Ieee.RoundedExact | libs/binify/binify.cpp:316-316 | data of the format are not changed by rounding |
| Ieee.LargestLessOne | libs/binify/binify.cpp:297-307 | the largest number of a format less one is rounded back to it |
| Ieee.ImageReads | libs/binify/binify.cpp:316-317 | sign, exponent and fraction are read back from the image of every datum |
| Ieee.DoubleMeaning | libs/binify/binify.cpp:338-338 | what 64 bits stand for: sign, biased exponent and fraction, place by place |
| Ieee.SingleMeaning | libs/binify/binify.cpp:316-317 | what 32 bits stand for |
| Strings.StringRoundTrip | libs/binify/binify.cpp:191-225 | escaping any bytes and quoting them gives a token that emits exactly them |
| Strings.UnescapeDefined | libs/binify/binify.cpp:209-212 | a token body is readable exactly when an even number of backslashes ends it |
| Strings.EscapeLetters | libs/binify/binify.cpp:213-221 | the byte that a backslash and a letter stand for, for each known letter and for all others |
| Strings.UnescapePieces | libs/binify/binify.cpp:204-224 | a body is read piece by piece from the left: a byte for itself, a backslash and a letter for what they stand for, whatever comes before and after |
| Strings.ContentsDefined | libs/binify/binify.cpp:191-212 | a token is read exactly if its C string stands between quotes and an even number of backslashes precedes the second one |
| Bits.OrBit | libs/binify/parser.cxx:1400-1404 | the integer model of `\|` is bitwise |
| Bits.AndBit | libs/core/utils.h:70-74 | the integer model of `&` is bitwise |
| Bits.NotBit | libs/core/utils.h:70-74 | the integer model of `~` is bitwise |
| Bits.XorBit | libs/core/quick_hash.h:13-16 | the integer model of `^` is bitwise |
| Bits.OrFits | libs/binify/parser.cxx:1400-1404 | a signed width is closed under `\|` |
| BinifyObject.Binify.constructor | libs/binify/binify.h:60-70 | first pass, offset 0, no symbols; 32-bit unsigned by default, little-endian, NaN and infinities allowed, 64-bit addresses |
| BinifyObject.Binify.SetSymbolToOffset | libs/binify/binify.cpp:63-73 | a label is bound to the offset, in the first pass only |
| BinifyObject.Binify.SetPass0Symbol | libs/binify/binify.cpp:75-81 | the name is bound to the value it is given, in the first pass only |
| BinifyObject.Binify.SetSymbol | libs/binify/binify.cpp:83-89 | bound in both passes |
| BinifyObject.Binify.LookupSymbol | libs/binify/binify.cpp:92-109 | the entry; if there is none, 1 in the first pass and 0 in the second |
| BinifyObject.Binify.ByteOut | libs/binify/binify.cpp:113-120 | every byte moves the offset; only the second pass writes it |
| BinifyObject.Binify.ValueOut | libs/binify/binify.cpp:125-152 | the representation is emitted as it is if the byte order is little-endian and reversed otherwise, and nothing else changes |
| BinifyObject.Binify.Align | libs/binify/binify.cpp:174-181 | the loop ends and emits exactly the padding of the pure assembler |
| BinifyObject.Binify.Blank | libs/binify/binify.cpp:185-188 | exactly that many zeros |
| BinifyObject.Binify.String | libs/binify/binify.cpp:191-225 | the loop emits exactly the recursive unescape of the token body |
| BinifyObject.Binify.U8 | libs/binify/binify.cpp:242-246 | one step of the pure assembler |
| BinifyObject.Binify.U16 | libs/binify/binify.cpp:248-252 | one step of the pure assembler, after masking |
| BinifyObject.Binify.U32 | libs/binify/binify.cpp:254-258 | one step of the pure assembler, after masking |
| BinifyObject.Binify.U64 | libs/binify/binify.cpp:260-264 | one step of the pure assembler, after conversion to unsigned |
| BinifyObject.Binify.S8 | libs/binify/binify.cpp:266-270 | one step of the pure assembler |
| BinifyObject.Binify.S16 | libs/binify/binify.cpp:272-276 | one step of the pure assembler |
| BinifyObject.Binify.S32 | libs/binify/binify.cpp:278-282 | one step of the pure assembler |
| BinifyObject.Binify.S64 | libs/binify/binify.cpp:284-288 | one step of the pure assembler |
| BinifyObject.Binify.Sanitised | libs/binify/binify.cpp:292-307 | no NaN and no infinity that is not allowed is left, and nothing else is changed |
| BinifyObject.Binify.Float | libs/binify/binify.cpp:290-318 | one step of the pure assembler: the image of the narrowed double, after the replacements |
| BinifyObject.Binify.Double | libs/binify/binify.cpp:320-339 | one step of the pure assembler: the image of the double, after the replacements |
| BinifyObject.Binify.IntDefault | libs/binify/binify.cpp:341-365 | the field of the default type |
| BinifyObject.Binify.FloatDefault | libs/binify/binify.cpp:367-376 | a double only when the default type is double; otherwise the value is narrowed first |
| BinifyObject.Binify.SetDefaultType | libs/binify/binify.cpp:154-157 | one step of the pure assembler |
| BinifyObject.Binify.SetByteOrder | libs/binify/binify.cpp:159-163 | one step of the pure assembler |
| BinifyObject.Binify.AllowNan | libs/binify/binify.cpp:164-167 | one step of the pure assembler |
| BinifyObject.Binify.AllowInfinity | libs/binify/binify.cpp:168-171 | one step of the pure assembler |
| BinifyObject.Binify.SetAddressLen | libs/binify/binify.cpp:378-393 | lengths that are negative or not whole bytes are ignored |
| BinifyObject.Binify.Fixup | libs/binify/binify.cpp:395-407 | alignment and field together are one step of the pure assembler |
| BinifyObject.Binify.Reduce | libs/binify/parser.cxx:1164-1458 | the switch of semantic actions, floating-point rules included, calls what the action function says, and yields its value |
| BinifyObject.Binify.ReduceTop | libs/binify/parser.cxx:1097-1472 | pop, act, push: exactly the reduction of the pure driver |
| BinifyObject.Binify.Drive | libs/binify/parser.cxx:1024-1088 | the driver's loop ends on every file, in a configuration its steps lead to, accepting or at a syntax error |
| BinifyObject.Binify.ParsePass | libs/binify/binify.cpp:30-34 | one pass accepts exactly the texts of programs, and then has performed exactly their items; otherwise it has performed some run of items |
| BinifyObject.Binify.Parse | libs/binify/binify.cpp:22-59 | from a fresh object, both passes over a program end in the state the pure two-pass assembler computes; a file that is no program ends the first pass with nothing written; the answer is true either way |
| LrExpressions.ParseExpr | libs/binify/parser.cxx:1376-1410 | for any tables with the stated facts, the text of an expression leaves its value on the untouched stack |
| LrExpressions.GroupSound | libs/binify/parser.y:32-37 | every tree can be parenthesised to the precedences of the grammar without changing its value |
| LrExpressions.FpGroupSound | libs/binify/parser.y:32-37 | the same for floating-point trees, the prefixed minus tightest |
| LrFacts.SourceEvaluates | libs/binify/parser.cxx:1376-1410 | the generated tables evaluate every integer expression, `\|` tighter than `+` and `-`, equal operators to the left, parentheses and lookups included |
| LrFacts.SourceEvaluatesFp | libs/binify/parser.cxx:1412-1452 | the tables evaluate every floating-point expression, `*` and `/` tighter than `+` and `-`, a prefixed minus tightest |
| LrFacts.IntMeaning | libs/binify/parser.cxx:1376-1410 | the actions, applied from the leaves up, compute the value of an integer expression |
| LrFacts.FpMeaning | libs/binify/parser.cxx:1412-1452 | the actions, applied from the leaves up, compute the value of a floating-point expression |
| LrReading.OneReading | libs/binify/parser.cxx:1714-1798 | grouped integer expressions with the same tokens are the same |
| LrReading.OneFpReading | libs/binify/parser.cxx:1714-1798 | grouped floating-point expressions with the same tokens are the same |
| LrReading.OneItem | libs/binify/parser.y:129-154 | an item is determined by the tokens it begins with, whatever follows |
| LrReading.OneProgram | libs/binify/parser.y:100-154 | programs with the same tokens are the same, line by line and item by item |
| LrFacts.SourceParses | libs/binify/parser.cxx:992-1566 | on the text of any program, floating-point expressions included, the generated parser accepts, having performed exactly its items |
| LrAcceptance.AcceptsExactly | libs/binify/parser.cxx:992-1566 | the generated parser reaches its accepting end, with the assembler in state t, exactly on the texts of programs whose items lead to t |
| LrAcceptance.AcceptedIsProgram | libs/binify/parser.cxx:1039-1041 | whatever is accepted begins with the text of a program, whose items have been performed |
| LrAcceptance.StepInv | libs/binify/parser.cxx:1035-1472 | every shift and every reduction keeps the stack a path of the automaton whose entries are labelled with what they were read from, and comes nearer to the end |
| LrAcceptance.MachineHolds | libs/binify/parser.cxx:1714-1836 | the tables and actions satisfy every fact that the invariant needs |
| LrAutomaton.ShiftEdge | libs/binify/parser.cxx:1758-1798 | every shift of the tables is a transition of the automaton |
| LrAutomaton.ReducesByDefault | libs/binify/parser.cxx:1730-1744 | a state reduces by its default rule only |
| LrOutcomes.Halts | libs/binify/parser.cxx:1027-1088 | the driver stops on every token list |
| LrOutcomes.OneEnd | libs/binify/parser.cxx:1027-1088 | and in one configuration only |
| LrOutcomes.Verdict | libs/binify/parser.cxx:1027-1088 | a file is accepted exactly when it is a program whose items can be performed, a syntax error means that it is no program, and there is no other way to stop than at an item that fails |
| LrOutcomes.TextEnds | libs/binify/parser.cxx:992-1566 | on the text of a program the driver ends accepting, or at an item that fails exactly when the run of the items does |
| LrOutcomes.FailureIsItem | libs/binify/parser.cxx:1226-1374 | an action that fails is that of an item just read, which the assembler cannot perform after the items before it |
| LrOutcomes.HarmlessExactly | libs/binify/parser.cxx:1226-1374 | on the text of a program no action fails exactly when all its items can be performed in order |
| LrFacts.GrammarHolds | libs/binify/parser.cxx:1714-1836 | the tables satisfy every fact the parsing lemmas need |
| LrFacts.StartsHold | libs/binify/parser.cxx:1714-1798 | the rows of every state in which an expression of either kind may begin, and of the state behind it |
| LrFacts.FollowsHold | libs/binify/parser.cxx:1730-1744 | the reductions on every symbol that may follow an expression of either kind, with the precedence decisions |
| LrFacts.HeadsHold | libs/binify/parser.cxx:1758-1798 | the shifts in front of the argument of every kind of item |
| LrFacts.EndsHold | libs/binify/parser.cxx:1730-1836 | the reduction that ends every kind of item |
| LrFacts.ItemMeaning | libs/binify/parser.cxx:1226-1374 | the action of an item's rule is that item with its argument evaluated |
| LrDriver.StepsTo | libs/binify/parser.cxx:1027-1083 | what the driver reaches it reaches in finitely many steps |
| Pools.ExecuteValid | libs/core/freelist.h:48-91 | over any legal run every slot is free once or live, never both |
| Pools.AnswerFresh | libs/core/freelist.h:55-68 | alloc and push hand out a slot nobody holds, inside the list |
| Pools.LiveKept | libs/core/freelist.h:48-97 | a live slot keeps its value through any run that does not erase or overwrite it, and is never handed out again meanwhile |
| Pools.StoredKept | libs/core/freelist.h:93-97 | what is stored in a live slot stays there until it is overwritten or the slot erased |
| Pools.EraseAllocReverses | libs/core/freelist.h:87-91 | n erases and then n allocs return the indices in reverse order |
| Pools.ResizeHandsOut | libs/core/freelist.h:70-81 | growth adds exactly the new slots, handed out first, upwards in the intrusive list and downwards in the explicit one, and touches no live slot |
| Pools.SameAnswers | libs/core/freelist.h:149-196 | the two lists answer every run without growth identically from equal pools |
| Pools.Conservation | libs/core/freelist.h:83-91 | free and live slots add up to the size |
| Pools.GrowthBound | libs/core/freelist.h:35-91 | from an empty list the capacity is 2^k - 1, at least the peak and at most 2 * peak - 1 |
| Pools.GrowthBoundFrom | libs/core/freelist.h:48-91 | from any list of c slots, and without an explicit resize, the capacity is (c + 1) * 2^k - 1, at least the peak, and if it grew the peak is at least (c + 1) * 2^(k-1) |
| FreeLists.ExplicitFreeList.Default | libs/core/freelist.h:35-36 | the empty pool |
| FreeLists.ExplicitFreeList.constructor | libs/core/freelist.h:38-46 | the fill loop stacks every index, the highest on top |
| FreeLists.ExplicitFreeList.Push | libs/core/freelist.h:48-53 | the pool step and its answer |
| FreeLists.ExplicitFreeList.Alloc | libs/core/freelist.h:55-68 | the pool step and its answer, growing when exhausted |
| FreeLists.ExplicitFreeList.Resize | libs/core/freelist.h:70-81 | the loop that clears and stacks in one array adds the new slots on top |
| FreeLists.ExplicitFreeList.Erase | libs/core/freelist.h:87-91 | the pool step |
| FreeLists.ExplicitFreeList.Store | libs/core/freelist.h:93-94 | the pool step |
| FreeLists.ExplicitFreeList.At | libs/core/freelist.h:96-97 | an owner reads back what it stored |
| FreeLists.ExplicitFreeList.IsEmpty | libs/core/freelist.h:85-85 | true exactly when nothing is live |
| FreeLists.IntrusiveFreeList.constructor | libs/core/freelist.h:127-147 | the links written through the value slots form the chain of all slots, the lowest first |
| FreeLists.IntrusiveFreeList.Push | libs/core/freelist.h:149-154 | the pool step and its answer |
| FreeLists.IntrusiveFreeList.Alloc | libs/core/freelist.h:156-168 | the pool step and its answer, growing when the chain is empty |
| FreeLists.IntrusiveFreeList.Resize | libs/core/freelist.h:170-185 | the new slots are chained in front of the old chain, and no value moves |
| FreeLists.IntrusiveFreeList.Erase | libs/core/freelist.h:191-196 | the pool step, by overwriting the first word of the slot |
| FreeLists.IntrusiveFreeList.Store | libs/core/freelist.h:198-199 | the pool step; the chain does not run through the slot |
| FreeLists.IntrusiveFreeList.At | libs/core/freelist.h:201-202 | an owner reads back what it stored although links share the array |
| FreeLists.IntrusiveFreeList.IsEmpty | libs/core/freelist.h:189-189 | true exactly when nothing is live |
| FreeLists.ChainPartitions | libs/core/freelist.h:127-196 | the chain from freeHead ends by itself after freeCount different slots, exactly those that are not live |
| FreeLists.WalkVisits | libs/core/freelist.h:134-145 | following the links visits the free stack from the top down |
| FreeLists.ReplayBoth | libs/core/freelist.h:48-196 | both objects, run side by side from equal pools without growth, give equal answers and stay equal |
| MtFreeList.InterleavingSafe | libs/core/freelist.h:232-268 | every interleaving conserves the indices, and owners find what they stored |
| MtFreeList.Exclusive | libs/core/freelist.h:240-268 | an index is queued once, or held once by one thread, never both |
| MtFreeList.PushReadsBack | libs/core/freelist.h:240-245 | a push split by other threads between its pop and its write leaves its value in the slot until its owner erases or overwrites it |
| MtFreeList.StoreReadsBack | libs/core/freelist.h:270-274 | what an owner stores is read back after anything that happens until it erases the slot or stores again |
| MtFreeList.FirstInFirstOut | libs/core/freelist.h:232-268 | over every interleaving the indices popped so far, in order, and then the queue are all indices from the lowest, and then the indices erased so far, in order |
| MtFreeList.HandedOut | libs/core/freelist.h:240-268 | so the k-th index ever handed out is k, or the erased one that is due |
| MtFreeList.PopperHolds | libs/core/freelist.h:240-257 | the thread that pops holds the front of the queue from then on |
| MtFreeList.ReadsBackUntilErase | libs/core/freelist.h:240-268 | a stored value is read back after anything the other threads do, until its owner erases or overwrites it |
| MtFreeList.Total | libs/core/freelist.h:232-268 | queued and held indices add up to the capacity |
| MtFreeList.QueueEmptyExactly | libs/core/freelist.h:247-257 | alloc finds the queue empty exactly when everything is held |
| MtFreeList.InitialInvariant | libs/core/freelist.h:232-238 | the constructor queues every index once |
| MtFreeList.StepConserves | libs/core/freelist.h:240-268 | each atomic step keeps the multiset of queued and held indices; what is popped was at the front of the queue and what is erased goes to its end |
| MtFreeList.ReportsEmptyExactly | libs/core/freelist.h:259-260 | `empty` means that nothing is held exactly when the capacity is not zero and nothing or everything is held |
| MtFreeList.ReportsEmptyFails | libs/core/freelist.h:259-260 | one of two slots is held and `empty` answers true |
| WordKernels.NextPow2 | libs/core/utils.h:53-63 | for 1 to 2^31 the least power of two that is at least the argument, else zero |
| WordKernels.IsPow2Exactly | libs/core/utils.h:44-47 | the test accepts zero and the 32 powers of two, and nothing else |
| WordKernels.SmearFills | libs/core/utils.h:55-60 | the shifts 16, 8, 4, 2, 1 fill every bit below the highest one |
| WordKernels.AlignmentsAgree | libs/core/utils.h:70-74 | for every power of two the mask form gives the offset the assembler's padding reaches |
| WordKernels.NarrowAlignmentExactly | libs/core/utils.h:70-74 | with a narrower unsigned boundary the result is right exactly when the value is at most 2^bits less the boundary |
| WordKernels.NarrowFitsExactly | libs/core/utils.h:70-74 | exactly then the rounded value fits the boundary's type |
| WordKernels.NarrowAlignmentFails | libs/core/utils.h:70-74 | 0x1_0000_0001 aligned to a 32-bit 4 gives 4 |
| QuickHash.SingleDifference | libs/core/quick_hash.h:13-16 | strings that differ in exactly one character hash differently |
| QuickHash.SuffixKeepsCollisions | libs/core/quick_hash.h:13-25 | a common suffix neither creates nor hides a collision |
| QuickHash.HashIsFold | libs/core/quick_hash.h:13-16 | the recursion with 64-bit intermediates is a fold of 32-bit steps |
| QuickHash.StepInjective | libs/core/quick_hash.h:13-16 | a step loses nothing of the running hash |
| QuickHash.StepSeparates | libs/core/quick_hash.h:13-16 | a step tells any two characters apart |
| QuickHash.AsciiIsFnv | libs/core/quick_hash.h:12-16 | on ASCII strings the hash is 32-bit FNV-1a |
| QuickHash.PublishedValues | libs/core/quick_hash.h:12-16 | the values published for 32-bit FNV-1a, of the empty string and of the letter a |
| QuickHash.StepsAgreeExactly | libs/core/quick_hash.h:12-16 | a step is the FNV-1a step exactly for characters below 128 |
| QuickHash.OneHighCharacterDiffers | libs/core/quick_hash.h:12-16 | one non-ASCII character always makes the hash differ from FNV-1a |
| QuickHash.TwoHighCharactersExactly | libs/core/quick_hash.h:12-16 | two adjacent ones cancel exactly when the low byte of the hash combined with the first is 128 |
| QuickHash.CancellingPair | libs/core/quick_hash.h:12-16 | so many non-ASCII strings do hash as FNV-1a |

## Left out

- The scanner (libs/binify/scanner.cxx) and its own errors: the model starts from the tokens of a file, and the second
  pass sees the same tokens as the first.
- The payload of a NaN, signalling NaNs, and rounding modes other than to the nearest.
- Log and warning text, including the range tests of `SafeConvert`, which never change a byte.
- A second `parse` of one Binify object, the C API and the stream behind `out`.
- BinifyObject.Binify.Parse: says nothing about files on which a pass comes to an item that divides by zero, fails an
  assert or counts a loop variable down past zero, because the source has no defined end there.
- FreeLists.ExplicitFreeList.Alloc: requires that a grown size does not exceed the all-ones index.
- FreeLists.IntrusiveFreeList.Alloc: requires that a grown size does not exceed the all-ones index.
- The default constructor of the intrusive list, which leaves `freeHead` unset, and its debug view.
- The `FreeList` selector, and the element type beyond "a first word and the rest".
- The internals of the concurrent containers of the shared list: queue operations are atomic and slots stay in place. An
  alloc on an empty queue is not a step, and a thread hands no index to another thread.
- QuickHash.TwoHighCharactersExactly: strings with more non-ASCII characters, or two that are not adjacent, have no
  closed condition here.
- The hash of the empty string, for which the source reads the byte before it.
- libs/core/linear_allocator.h, which names fields that it does not declare.

# A verified model of the command line utilities

The repository is a collection of small C programs. This project models the ones with a hard core and proves what they are for. Each module follows one source file or one stage of it; mutable C state becomes a class or an array, a C loop becomes a method with a loop, and every method is tied to a specification about which the laws are proved.

- **QR encoder** (`Gf256`, `ReedSolomon`, `Bits`, `DataCoding`, `Interleave`, `Tables`, `Codewords`, `Placement`, `Pattern`, `PatternColours`, `FreeModules`, `Evaluation`, `PenaltyLaws`, `Masking`, `MaskTiles`, `MissedPatterns`, `Format`, `FormatCode`, `VersionCode`, `Generate`, `Tolerance`). The bit-serial multiplication is the product of the field GF(2^8), the LFSR division produces Reed-Solomon codewords of minimum distance degree + 1, interleaving and the zigzag walk are bijections in the stated order, the function patterns and the eight masks look like given pictures, the overlay touches only reserved modules, and in all 40 versions what the function patterns leave free is exactly the codeword bits and remainder bits, which can be read back from the finished matrix; for versions 1 to 9 that is the string. A matrix in which up to three modules of a format string are wrong, and in each block as many codewords as half of its correction bytes, still determines level, mask and string.
- **MD5** (`Md5`). The streaming context is a function of the bytes fed, and `MD5Final` is the RFC 1321 digest, for any compression function.
- **CRC-32 and CRC-16** (`Crc32`, `Crc32Sample`, `Crc16`). The table method refines the bit-serial register; residues, linearity and the detection of bursts of 32 and 16 consecutive bits are proved, for CRC-16 with the exact condition on the polynomial.
- **Intel HEX** (`IntelHex`, `HexImage`, `HexRoundTrip`, `HexLines`). What the reader writes is compared with the memory image of the records, over all address records, with the exact condition for the two to agree; reading back what the writer wrote is the identity, on the text of the file and with any mixture of line ends.
- **Base64** (`Base64`, `Base64Laws`), **IPv6 text** (`Ipv6`, `Ipv6Texts`), **DHCP options** (`Dhcp`, `DhcpFields`). Round trip for every line size and independence of noise; exactly the legal texts are accepted; adding and finding options, over all fields of a packet.
- **UUID version 1** (`Uuid`) and **byte search** (`BinFind`). Safety over whole runs of the generator with the exact condition for duplicates; the backtracking search reports exactly the greedy occurrences.

Conventions: a C `FILE` is a sequence or a small stream class with an end-of-file flag; the clock, `rand()` and the MD5 compression function are parameters; 8-, 16- and 32-bit arithmetic is written out where it can wrap.

Where the code does not do what it should, the model keeps the code:

- `qrcode/generate.c:68` lists 1399 bytes for version 38 at level H, but the block table has room for 1139. `Tables.ChosenVersionFits` gives the exact set of inputs that are affected, `Tables.VersionTooSmall` one of them.
- `qrcode/masking.c:140-208` searches the second finder-like pattern twice in columns and never in rows, and skips the last ten lines. `Evaluation.PatternPenaltyError` says by how much the penalty is wrong. In every matrix that is evaluated, three rows of the bottom left finder pattern lie in the skipped lines: `MissedPatterns.FinderMissed` says exactly when they should count, and `MissedPatterns.PenaltyWrong` makes, for every version and mask, a symbol whose penalty is wrong.
- `qrcode/format.c:150-170` writes both version blocks from the highest bit on, and the top one column by column. By ISO/IEC 18004:2015, section 7.10, bit k, counted from the lowest, belongs in column k / 3, row n - 11 + k % 3, and in column n - 11 + k % 3, row k / 3. `VersionCode.VersionUnreadable` proves that a reader that looks there finds neither block within the three errors that can be corrected, in any version from 7 on, and `VersionCode.VersionMisread` that in version 27 it takes the top block for version 15.
- `intel_hex/intel_hex.c` goes wrong in three ways: lines 334-348 take the end of the last data record for the length of a segment, so records in descending order lose data; lines 350-352 pass over extended segment addresses (type 02), so their data is written too low; lines 366-378 do not advance `addrNext` over padding, so a segment without data behind a gap makes the output too long. `HexImage.ReaderYieldsImage` proves, for files with an end record and ascending segments, that the output is right exactly if none of them happens. It leaves open only those files with the second or third error in which the length of the output is right all the same: there the bytes decide, by `HexImage.BytesDecide`, `HexImage.CancellingErrors` and `HexImage.MovedByteDecides`. `HexImage.DescendingRecordsLose`, `HexImage.ParagraphIgnored` and `HexImage.EmptySegmentMisplaces` are texts of files that show the three errors. Without an end record, which an empty line hides, the last segment is not written at all: `HexImage.LastSegmentLost`, `HexImage.EmptyLineStops`.
- `uuid/uuid.c:147-165` can hand out a timestamp twice if the clock moves on by exactly the number of UUIDs made since its last change. `Uuid.DistinctUnlessCollision` proves that this is the only way to a duplicate, `Uuid.DuplicateRun` makes one.
- `checksum/crc16.c` accepts any polynomial. `Crc16.DetectsBurstsIffOdd` proves, for every other parameter, that all messages differing within sixteen consecutive bits get different CRCs exactly with the odd ones; `Crc16.EvenMisses` makes two messages with equal CRCs for each even one.
- `dhcp_probe/dhcp_options.c:142-158` writes any code. Its size test at line 147 also refuses an option that exactly fills the area. `Dhcp.ExtendedMeaning` proves that the result means the old options and the new one exactly if the code is neither the padding nor the end code. `Dhcp.EndCodeVanishes` and `Dhcp.PaddingCodeShifts` say what it means for these two, `Dhcp.PaddingCodeExample` shows an option that nobody added.
- `dhcp_probe/dhcp_options.c:100-107` skips an overload option by the length of the first option of the area and reads the byte behind its value; lines 108-119 search the sname field only after the file field. `Dhcp.OverloadSkips` loses an option by the first error, `Dhcp.GetOptionRightIff` says exactly when the other two do no harm.
- `qrcode/encode.c:335` counts up where it has to count down, so from version 10 on the loop leaves the range of `int`, which is undefined in C. The model of the data coding ends at version 9; all other stages are proved for all versions.

## Model

| member | source | states |
|---|---|---|
| Gf256.Multiply | qrcode/reedsolomon.c:28-40 | the shift-and-reduce loop computes the specification product `Mul`, whose field laws follow |
| Gf256.MulCommutes | qrcode/reedsolomon.c:28-40 | multiplication is commutative for all bytes |
| Gf256.MulAssociates | qrcode/reedsolomon.c:28-40 | multiplication is associative for all bytes |
| Gf256.MulDistributes | qrcode/reedsolomon.c:28-40 | multiplication distributes over XOR in both arguments |
| Gf256.MulInverse | qrcode/reedsolomon.c:28-40 | every nonzero byte has an inverse, so the bytes form a field |
| Gf256.NoZeroDivisors | qrcode/reedsolomon.c:28-40 | a product is zero only if a factor is |
| Gf256.AlphaOrder | qrcode/reedsolomon.c:58-58 | the powers of 2 repeat with period 255, and a power is 1 exactly if its exponent is a multiple of 255 |
| Gf256.AlphaDistinct | qrcode/reedsolomon.c:58-58 | the powers of 2 below 255 are pairwise distinct |
| Gf256.FieldPolynomial | qrcode/reedsolomon.c:28-40 | the field is the one of x^8 + x^4 + x^3 + x^2 + 1, with the byte 2 for x |
| ReedSolomon.ReedSolomonPoly | qrcode/reedsolomon.c:42-60 | the in-place loops leave the low coefficients of the product of (x + 2^i), i < degree |
| ReedSolomon.GeneratorIsProduct | qrcode/reedsolomon.c:42-60 | evaluated at any point, the monic polynomial with these coefficients is the product of the root factors |
| ReedSolomon.RootProductVanishes | qrcode/reedsolomon.c:42-60 | the product is zero at each of the roots 2^0 to 2^(degree-1) |
| ReedSolomon.ReedSolomonCalc | qrcode/reedsolomon.c:62-85 | the shift register leaves the remainder of the data block and nothing else in the buffer changes |
| ReedSolomon.CodewordVanishes | qrcode/reedsolomon.c:62-85 | data followed by the remainder is zero at every generator root |
| ReedSolomon.PowerSumsDetermine | qrcode/reedsolomon.c:62-85 | as many vanishing power sums as distinct locators force every coefficient to be zero |
| ReedSolomon.SyndromeDistance | qrcode/reedsolomon.c:62-85 | two different words of up to 255 bytes with zero syndromes differ in at least degree + 1 positions |
| ReedSolomon.MinimumDistance | qrcode/reedsolomon.c:62-85 | different data blocks give codewords that differ in at least degree + 1 positions |
| ReedSolomon.CodewordIffZeroSyndromes | qrcode/reedsolomon.c:62-85 | a word is data followed by its remainder if and only if all its syndromes are zero |
| ReedSolomon.UniqueDecoding | qrcode/reedsolomon.c:62-85 | a word with at most degree / 2 damaged bytes is near to one codeword only |
| Bits.ExpandBits | qrcode/encode.c:438-446 | the bit buffer holds the bits of all codewords, highest first, and is unchanged behind them |
| Bits.BytesRoundTrip | qrcode/encode.c:438-446 | the bytes can be read back from their bits |
| DataCoding.AlignCount | qrcode/encode.c:373-377 | the loop whose bound moves rounds the bit count up to a multiple of 8 |
| DataCoding.EncodeHeader | qrcode/encode.c:324-356 | the first codewords hold the mode 0100 and the 8-bit count |
| DataCoding.EncodeText | qrcode/encode.c:358-364 | the nibble-shifted writes leave the bits of the text behind the header |
| DataCoding.PadData | qrcode/encode.c:378-382 | the rest is filled with 0xEC and 0x11 in turn |
| DataCoding.EncodeData | qrcode/encode.c:319-391 | the data codewords are, bit for bit, mode, count, text, terminator and padding |
| DataCoding.StreamRoundTrip | qrcode/encode.c:319-391 | parsing mode, count and bytes gives back the text, for all texts that fit |
| Codewords.CodewordsCarry | qrcode/encode.c:319-371 | as numbers, the first codeword is 64 plus the high half of the count, each further one the low half of one byte and the high half of the next, up to an empty half behind the last byte |
| Codewords.PaddingAlternates | qrcode/encode.c:378-382 | the codewords behind the text are 0xEC, 0x11 and so on in turn, 0xEC first |
| Codewords.BitsAreDigits | qrcode/encode.c:438-446 | the bits of a byte are its binary digits, highest first |
| Interleave.DataPosInRange | qrcode/encode.c:425-429 | data positions stay below the number of data codewords |
| Interleave.DataPosInjective | qrcode/encode.c:425-429 | no two data bytes go to the same position, for all block layouts |
| Interleave.DataPosSurjective | qrcode/encode.c:425-429 | every data position is used, with an explicit inverse |
| Interleave.EccPosInjective | qrcode/encode.c:430-433 | no two correction bytes go to the same position |
| Interleave.EccPosSurjective | qrcode/encode.c:430-433 | every position behind the data is used by a correction byte |
| Interleave.DataPosOrdered | qrcode/encode.c:425-429 | data bytes follow each other column by column, and in each column in the order of the blocks |
| Interleave.EccPosOrdered | qrcode/encode.c:430-433 | correction bytes follow each other in the same order |
| Interleave.BlocksInTurn | qrcode/encode.c:399-424 | the blocks follow each other in the data, first the short ones, then the ones of one byte more |
| Interleave.ScatterData | qrcode/encode.c:425-429 | the loop with the adjusted stride writes block i to its data positions and nothing else |
| Interleave.ScatterEcc | qrcode/encode.c:430-433 | the loop writes the correction bytes of block i to their positions and nothing else |
| Interleave.EncodeBlocks | qrcode/encode.c:393-436 | all blocks and their remainders are in place in the code buffer |
| Interleave.DeinterleaveRoundTrip | qrcode/encode.c:414-435 | de-interleaving gives back the data codewords |
| Interleave.BlockIsCodeword | qrcode/encode.c:414-435 | every block with its correction bytes has zero syndromes |
| Tables.LayoutFits | qrcode/encode.c:25-227 | for every version and level the block table adds up to the data and total codewords and blocks stay below 256 bytes |
| Tables.CapacityIsRoom | qrcode/generate.c:26-71 | the capacity table equals what the block table leaves for text, except in one entry |
| Tables.CheckCapacity | qrcode/generate.c:91-109 | the search returns the specified version, or 0 |
| Tables.ChosenVersionFits | qrcode/generate.c:91-109 | the chosen version holds the text if and only if it is not a level H text above the given bound |
| Tables.ChosenVersionLeast | qrcode/generate.c:91-109 | no smaller version that was allowed would hold the text |
| Tables.VersionTooSmall | qrcode/generate.c:68-68 | 1300 bytes at level H are given version 38, which has room for 1139 |
| Placement.WalkInBounds | qrcode/generate.c:117-195 | the walk stays inside the symbol and out of column 6 |
| Placement.WalkInjective | qrcode/generate.c:117-195 | the walk visits no module twice, for every symbol size |
| Placement.WalkCovers | qrcode/generate.c:117-195 | the walk visits every module outside column 6 |
| Placement.WalkStarts | qrcode/generate.c:117-124 | the first module is the bottom right one, and every second step is one module to the left in the same row |
| Placement.WalkOrder | qrcode/generate.c:126-187 | after a pair of modules the walk goes one row on, upwards and downwards in turn, or at an edge to the next pair of columns to the left, across column 6 where it lies between |
| Placement.FreeCellsOrdered | qrcode/generate.c:111-197 | of two bits the earlier one is placed at an earlier step of the walk |
| Placement.Advance | qrcode/generate.c:126-187 | one move of the four-state machine is one step of the closed form, and only the last move leaves the symbol |
| Placement.NextStep | qrcode/generate.c:124-187 | one step of the closed form is the next position of the walk |
| Placement.Move | qrcode/generate.c:124-195 | one round of the loop: the module is written if it is free, and the machine stands at the next position or has finished |
| Placement.MatrixPlacement | qrcode/generate.c:111-197 | bit k is in the k-th free module, other modules are unchanged, and the outcome says whether all bits were placed |
| Placement.FreeCellsComplete | qrcode/generate.c:117-197 | every free module on the walk receives a bit |
| Pattern.FunctionPatterns | qrcode/pattern.c:120-246 | the drawing loops leave the specified pattern and the symbol size, for every version |
| PatternColours.FindersShown | qrcode/pattern.c:71-162 | in all versions the three finder patterns and their separators look like the 9 by 9 picture, where that lies on the symbol |
| PatternColours.TimingLines | qrcode/pattern.c:164-172 | in all versions both timing lines are dark exactly in the even places, alignment patterns on them included |
| PatternColours.AlignmentsShown | qrcode/pattern.c:174-200 | in all versions every alignment pattern looks like the 5 by 5 picture around its crossing, whatever lies below or was drawn later |
| PatternColours.DarkModule | qrcode/pattern.c:202-226 | the module beside the bottom left finder pattern is dark, the modules kept for the format string are light |
| PatternColours.AlignmentSpacing | qrcode/pattern.c:24-69 | the coordinates of a version run from 6 to seven before the end, and all but the first two are one computed step apart |
| FreeModules.FreeIffNotTaken | qrcode/pattern.c:120-246 | a module is free exactly if it lies in none of the function rectangles, for every version |
| FreeModules.FreeModuleCount | qrcode/pattern.c:120-246 | the number of free modules is the area of the symbol minus the area of the function rectangles |
| FreeModules.TakenArea | qrcode/pattern.c:120-246 | the area of the function rectangles as a closed formula in the version |
| Pattern.PatternBinary | qrcode/pattern.c:120-246 | modules that are not free are 0 or 1 |
| Masking.MatrixMasking | qrcode/masking.c:254-326 | layer n is the matrix with mask n on the free modules, and the choice is the first mask whose four penalties have the least sum |
| Masking.MaskingUndone | qrcode/masking.c:265-307 | applying a mask twice gives back the matrix, for every pattern and mask |
| MaskTiles.MaskIsTile | qrcode/masking.c:272-298 | mask n flips a module exactly where the n-th picture, repeated over the symbol, is marked |
| MaskTiles.MaskedShowsTile | qrcode/masking.c:265-307 | in the masked matrix a free module differs from the placed one exactly where the picture is marked, other modules are unchanged |
| Evaluation.Evaluate1 | qrcode/masking.c:33-100 | the counting loops compute the run penalty of all columns and rows |
| Evaluation.RunPenaltyStep | qrcode/masking.c:73-93 | the penalty defined by maximal runs grows by 3 at the fifth equal module and by 1 at each further one |
| Evaluation.Evaluate2 | qrcode/masking.c:102-138 | the result is 3 times the number of 2 x 2 blocks of one colour |
| Evaluation.Evaluate3 | qrcode/masking.c:140-208 | the result is 40 times the occurrences that the four rounds find |
| Evaluation.PatternPenaltyError | qrcode/masking.c:140-208 | the penalty for both patterns in all rows and columns differs by 40 for each occurrence of the second pattern in rows or of a pattern in the last ten lines, less what is counted twice |
| MissedPatterns.FinderMissed | qrcode/masking.c:157-193 | in every candidate matrix of every version, rows n-5 to n-3 start with the first pattern exactly if the modules in columns 9 and 10 are light, and the loops never find it |
| MissedPatterns.PenaltyWrong | qrcode/masking.c:140-208 | for every version and mask there is a symbol, filled with bits, whose candidate matrix gets a wrong penalty |
| Evaluation.Evaluate4 | qrcode/masking.c:210-252 | the result is 10 for every whole step of five percent away from a dark share of 45 to 54 percent |
| Evaluation.ScoreBound | qrcode/masking.c:257-318 | no score reaches the initial minimum, so a mask is always chosen |
| PenaltyLaws.RunsTransposed | qrcode/masking.c:33-100 | rows and columns count alike: the run penalty of a matrix and of its transpose are the same |
| PenaltyLaws.UniformScore | qrcode/masking.c:33-252 | the score of a matrix of one colour, as a formula in its size |
| PenaltyLaws.PatternsAreFinderRows | qrcode/masking.c:145-148 | the patterns searched are the middle row of a finder pattern with four light modules behind it, and the same backwards |
| PenaltyLaws.StepsBand | qrcode/masking.c:230-246 | the fourth penalty is k steps exactly from 45 - 5k to below 50 - 5k percent and from 50 + 5k to below 55 + 5k percent |
| Format.FormatVersion | qrcode/format.c:115-171 | the loops apply exactly the listed format and version writes |
| Format.OverlayTaken | qrcode/format.c:125-170 | every write goes to a module that is not free |
| Format.OverlayKeepsData | qrcode/format.c:125-170 | free modules are unchanged by the overlay |
| Format.OverlayReadable | qrcode/format.c:125-148 | each format bit can be read from both copies afterwards, no write destroys it |
| Format.VersionReadable | qrcode/format.c:150-170 | each version bit can be read from both blocks afterwards |
| Format.FormatIdentifies | qrcode/format.c:24-70 | level and mask can be told from the first five bits of each format string |
| FormatCode.FormatDistance | qrcode/format.c:24-70 | the format strings of different levels or masks differ in at least seven modules |
| FormatCode.NearestFormat | qrcode/format.c:24-70 | fifteen modules of which at most three are wrong determine level and mask |
| FormatCode.FirstWay | qrcode/format.c:126-136 | the fifteen modules of the first copy, in their order |
| FormatCode.SecondWay | qrcode/format.c:137-147 | the second copy starts at the bottom edge, goes up seven modules and ends at the right edge, one module to the right each time |
| Format.VersionIdentifies | qrcode/format.c:72-108 | the first six bits of each version string are the version in binary |
| VersionCode.VersionDistance | qrcode/format.c:72-108 | the version strings of different versions differ in at least eight modules |
| VersionCode.NearestVersion | qrcode/format.c:72-108 | eighteen modules of which at most three are wrong determine the version |
| VersionCode.BlocksPermuted | qrcode/format.c:150-170 | read in the order of the standard, the bottom block gives the version string backwards, the top block gives it rearranged |
| VersionCode.VersionUnreadable | qrcode/format.c:150-170 | in every version from 7 on, both blocks read in the order of the standard differ from the version string in at least four modules, more than can be corrected |
| VersionCode.VersionMisread | qrcode/format.c:161-169 | in version 27 the top block read in that order is two modules from the string of version 15 and within three of no other |
| Generate.FreePathLength | qrcode/generate.c:111-197 | in every version the free modules on the walk are exactly the codeword bits plus the remainder bits |
| Generate.CodesReadBack | qrcode/generate.c:265-268 | in every version a reader finds level, mask and all codewords in the finished matrix |
| Generate.DataReadsBack | qrcode/generate.c:265-268 | in every version the reader de-interleaves the data codewords that were interleaved |
| Generate.ReadsBack | qrcode/generate.c:236-272 | a reader that takes level and mask from the format modules, unmasks, de-interleaves and parses finds the text |
| Generate.CompleteReadsBack | qrcode/generate.c:265-268 | a complete matrix of any version consists of zeros and ones and gives back its level, mask and codewords |
| Generate.BuiltShows | qrcode/generate.c:236-272 | the complete matrix of a text reads back to the text |
| Generate.Symbol.DataEccEncode | qrcode/encode.c:305-460 | for versions 1 to 9 the bit buffer holds the interleaved codewords of the text and zeros behind them, the length includes the remainder bits |
| Generate.Symbol.FinishSymbol | qrcode/generate.c:265-268 | for every version and any codewords in the bit buffer, the chosen layer is the complete matrix: codewords, remainder bits, least mask, format and version |
| Generate.Symbol.DrawSymbol | qrcode/generate.c:260-268 | after all stages the chosen layer is the complete matrix of the text and reads back to it, for versions 1 to 9 |
| Generate.Symbol.Generate | qrcode/generate.c:236-272 | returns -1 exactly if no version fits; otherwise the matrix is as above for the chosen version, for every text whose chosen version is at most 9 |
| Tolerance.BlockReadsCodeword | qrcode/encode.c:414-435 | a block collected from the interleaved codewords is the Reed-Solomon codeword of its data |
| Tolerance.DamagedDataUnique | qrcode/encode.c:393-436 | codewords damaged in up to half of the correction bytes of each block are explained by one sequence of data codewords only, for every version and level |
| Tolerance.DamagedSymbolUnique | qrcode/generate.c:236-272 | no matrix is a slightly damaged form of the finished symbols of two texts, levels or masks: at most half as many codewords of each block with a wrong module as the block has correction bytes, and at most three wrong modules in a copy of the format string |
| Md5.Encode | checksum/md5.c:39-51 | the bytes of the words in little-endian order, the rest of the array unchanged |
| Md5.Decode | checksum/md5.c:53-65 | the words whose little-endian bytes were given |
| Md5.LittleEndianRoundTrip | checksum/md5.c:39-65 | decoding the little-endian bytes of a number gives the number |
| Md5.FoldAppend | checksum/md5.c:172-184 | folding a concatenation is folding the first part, then its tail with the second part |
| Md5.Context.constructor | checksum/md5.c:152-160 | a fresh context satisfies the invariant for the empty input |
| Md5.Context.Counter | checksum/md5.c:162-171 | the two counter words are 8 times the bytes fed modulo 2^64 and give the fill of the buffer |
| Md5.Context.AddToCounter | checksum/md5.c:167-170 | the two-word addition with carry adds 8 times the length, wraps counted |
| Md5.Context.Update | checksum/md5.c:162-185 | state, counter and live buffer stay the function of all bytes fed, for every chunk below 2^32 - 64 bytes |
| Md5.Context.Final | checksum/md5.c:187-197 | the digest is the encoding of the fold over the message padded by RFC 1321 sections 3.1 and 3.2 |
| Md5.SameBytesSameContext | checksum/md5.c:162-185 | contexts fed the same bytes in different chunks agree in state, counter and live buffer |
| Md5.Hash | checksum/md5.c:152-197 | hashing in any chunks is one-shot hashing of the concatenation |
| Md5.InitialBytes | checksum/md5.c:152-160 | the initial words, low byte first, are the bytes 01 23 45 67 up to 10 of RFC 1321, section 3.3 |
| Md5.DigestStarts | checksum/md5.c:152-197 | with a compression function that changes nothing, every digest is these sixteen bytes |
| Md5.PaddingLaid | checksum/md5.c:187-197 | the padded message: 0x80, the fewest zeros that fill the last block, and the number of bits modulo 2^64 in eight bytes, low byte first |
| Crc32.TableEntry | checksum/crc32.c:9-53 | each of the 256 entries is its index shifted through the reflected polynomial 0xEDB88320 |
| Crc32.TableStepIsByteStep | checksum/crc32.c:62-65 | one table step equals eight bit steps of the register, for every register and byte |
| Crc32.Crc32 | checksum/crc32.c:55-68 | the loop computes the bit-serial CRC of the message |
| Crc32.CrcChains | checksum/crc32.c:55-68 | continuing a CRC with a second part gives the CRC of the concatenation |
| Crc32.CrcResidue | checksum/crc32.c:55-68 | a message followed by its little-endian CRC has the CRC 0x2144DF1C, whatever the message |
| Crc32.BurstDetected | checksum/crc32.c:55-68 | messages that differ only within 32 consecutive bits, wherever these lie, have different CRCs |
| Crc32Sample.SampleCrc | checksum/crc32.c:55-68 | the check value 0xCBF43926 of the text "123456789"; of no bytes the CRC is the one that it continues |
| Crc16.FeedByte | checksum/crc16.c:27-56 | the inner loop feeds the eight bits of the byte, reflected if asked for |
| Crc16.Crc16 | checksum/crc16.c:8-81 | the loops compute the register run over all message bits, reflected and XORed as asked for |
| Crc16.AppendedCrc | checksum/crc16.c:8-81 | a message followed by its CRC before the final XOR, high byte first or reflected low byte first, has the final XOR as CRC, so 0 without one |
| Crc16.EmptyCrc | checksum/crc16.c:18-81 | of no bytes the CRC is the start value, reflected on request, with the final XOR |
| Crc16.StartIsPrefix | checksum/crc16.c:19-57 | a start value does the same as a start value of 0 and its two bytes, as they are fed, added to the first two bytes of the message |
| Crc16.BitOrder | checksum/crc16.c:25-56 | the bits are fed byte by byte, each byte from its highest bit, or from its lowest if it is reflected |
| Crc16.OutputMirrors | checksum/crc16.c:59-78 | reflection of the result exchanges bit k with bit 15 - k |
| Crc16.SampleCrc | checksum/crc16.c:8-81 | the check value 0x29B1 of the text "123456789" for the polynomial 0x1021 and the start value 0xFFFF |
| Crc16.RunLinear | checksum/crc16.c:25-57 | the register map is XOR-linear in start value and bits |
| Crc16.CrcLinear | checksum/crc16.c:8-81 | the CRC is XOR-linear in start value, final XOR and message, for every polynomial and reflection |
| Crc16.BurstDetected | checksum/crc16.c:25-57 | with an odd polynomial, bit sequences that differ within sixteen consecutive bits end in different registers |
| Crc16.BurstChangesCrc | checksum/crc16.c:8-81 | with an odd polynomial, messages that differ only within sixteen consecutive bits have different CRCs, for every other parameter |
| Crc16.EvenMisses | checksum/crc16.c:8-81 | for every even polynomial and every other parameter, two different messages of two bytes with the same CRC |
| Crc16.DetectsBurstsIffOdd | checksum/crc16.c:8-81 | for all parameters, every change within sixteen consecutive bits of a message alters the CRC if and only if the polynomial is odd |
| IntelHex.ComputeChecksum | intel_hex/intel_hex.c:221-234 | the checksum makes the bytes sum to 0 modulo 256 |
| IntelHex.ParseLine | intel_hex/intel_hex.c:122-174 | the buffer receives the decoded digit pairs and keeps its other bytes; the length is 0 for a bad checksum, an odd or too long line |
| IntelHex.TakeRecord | intel_hex/intel_hex.c:334-395 | one record changes output, segment buffer and addresses as specified, stale bytes included |
| IntelHex.Mcs2Bin | intel_hex/intel_hex.c:265-402 | the output is that of the record interpreter on the records scanned from the text |
| HexImage.ReaderFollowsImage | intel_hex/intel_hex.c:302-397 | the loop invariant: without moved data and surplus, the output against the memory contents over any rest of the file |
| HexImage.OutputLength | intel_hex/intel_hex.c:302-397 | the length of the output for ascending segments: the end of the last data record and the surplus |
| HexImage.ReaderYieldsImage | intel_hex/intel_hex.c:302-397 | for known records in ascending segments up to an end record, the output is the memory image with gaps 0xFF if and only if no data follows a type 02 record that moves it, no segment without data begins behind a gap, and nothing lies above the last data record of a segment; proved where the length is wrong and where the first two conditions hold |
| HexImage.ReadImage | intel_hex/intel_hex.c:265-402 | the reader run on the text of a file, with the same exact condition |
| HexImage.DescendingRecordsLose | intel_hex/intel_hex.c:334-348 | the text of a file with two data records in descending order, of which the higher byte is lost |
| HexImage.EmptySegmentMisplaces | intel_hex/intel_hex.c:366-378 | the text of a file with two extended linear address records in a row, whose byte ends up in the wrong place |
| HexImage.ParagraphIgnored | intel_hex/intel_hex.c:350-352 | the text of a file with a type 02 record and a byte: the byte is written to the start, and the file is right only for the value 0 |
| HexImage.BytesDecide | intel_hex/intel_hex.c:302-397 | whenever the length is right, the output is the image if all data bytes are 0xFF, whatever the addresses are |
| HexImage.CancellingErrors | intel_hex/intel_hex.c:334-378 | the text of a file with surplus and lost bytes whose output is the image if and only if a byte of it is 0xFF |
| HexImage.MovedByteDecides | intel_hex/intel_hex.c:350-352 | the text of a file with a moved byte whose output is the image if and only if that byte is 0xFF |
| HexImage.LastSegmentLost | intel_hex/intel_hex.c:302-397 | without an end record the data of the last segment is not written |
| HexImage.EmptyLineStops | intel_hex/intel_hex.c:176-207 | an empty line ends the input, whatever follows it |
| HexLines.LineEnds | intel_hex/intel_hex.c:176-207 | a line ends at LF or CR LF, neither belongs to it, and the next line starts behind it |
| HexLines.LineWithoutEnd | intel_hex/intel_hex.c:176-207 | the last line needs no end; a line of 1022 characters or more is cut there |
| HexLines.NulHidesRest | intel_hex/intel_hex.c:176-207 | what stands behind a NUL in a line is lost |
| HexLines.BadLineStops | intel_hex/intel_hex.c:122-174 | a line with an odd number of digits, more than 600 of them, a wrong sum, or fewer bytes than it says ends the reading |
| HexLines.OtherLineIgnored | intel_hex/intel_hex.c:302-312 | a line that does not start with a colon is passed over |
| HexLines.EndingsIgnored | intel_hex/intel_hex.c:176-207 | the records of a text of short lines are the same whichever lines end in LF and which in CR LF |
| HexLines.Digits | intel_hex/intel_hex.c:72-120 | the writer uses upper case digits; the reader takes both cases for their values and everything else for 0 |
| HexRoundTrip.EmitBlock | intel_hex/intel_hex.c:454-493 | one round of the loop emits the address line if the segment is full, then the data line |
| HexRoundTrip.Bin2Mcs | intel_hex/intel_hex.c:405-502 | the text is the address lines, data lines of 16 bytes and the closing line, and nothing for an empty file |
| HexRoundTrip.ScanRecord | intel_hex/intel_hex.c:122-174 | a written line passes the length and checksum tests of the reader and becomes one record |
| HexRoundTrip.RoundTrip | intel_hex/intel_hex.c:447-495 | reading the written text gives back every file of 1 to 2^31 - 16 bytes, over segment ends and short last records |
| HexRoundTrip.WriteThenRead | intel_hex/intel_hex.c:265-502 | the writer followed by the reader is the identity |
| HexLines.RoundTripAnyEnding | intel_hex/intel_hex.c:176-495 | the written file comes back even if any of its lines is made to end in LF |
| HexLines.DataLineIs | intel_hex/intel_hex.c:464-490 | a data line holds sixteen bytes, or what is left, their number, the offset in the segment high byte first, and type 0 |
| HexLines.AddressLineIs | intel_hex/intel_hex.c:236-262 | an address line is `:02000004`, the upper address in four digits, the checksum and the line end |
| Base64.Encode | base64/base64.c:61-91 | the stream loop with its late end-of-file flag emits the specified blocks, padding and line ends |
| Base64.NextValue | base64/base64.c:117-124 | noise is skipped up to the next character of the alphabet or the end |
| Base64.StaleIsUnused | base64/base64.c:135-140 | the bytes written from a last block do not depend on left-over entries of the buffer |
| Base64.Decode | base64/base64.c:110-142 | the output is a function of the sequence of alphabet characters alone |
| Base64.DecodeEncoded | base64/base64.c:48-142 | decoding undoes encoding for every byte sequence and every line size |
| Base64.RoundTrip | base64/base64.c:61-142 | encoder and decoder run one after the other give back the input |
| Base64.EncodedLinesFit | base64/base64.c:84-89 | no line is longer than a line size of at least four |
| Base64Laws.EncodedLines | base64/base64.c:61-91 | every line but the last has exactly 4 * (lineSize / 4) characters, or one block for line sizes below 8; the last one has the rest; the empty file has no line |
| Base64Laws.TablesFollowAlphabet | base64/base64.c:30-36 | both tables follow the alphabet `A-Z a-z 0-9 + /`, and every other character is noise |
| Base64Laws.BlockIsNumber | base64/base64.c:48-54 | the characters of a block are the number its bytes form, written with base 64, with the padding where it belongs |
| Base64Laws.BytesAreNumber | base64/base64.c:98-103 | two to four characters are read as the number that they write, less the unused bits |
| Base64Laws.DecodedLength | base64/base64.c:110-142 | six bits of every alphabet character are used, down to whole bytes |
| Ipv6.LegalIsParsed | checksum/parser.c:247-351 | every legal text is accepted with its groups and gap |
| Ipv6.ParsedIsLegal | checksum/parser.c:247-351 | every accepted text is the text of a legal address |
| Ipv6.AcceptedIffLegal | checksum/parser.c:247-351 | a text is accepted if and only if it denotes an address, and it denotes one only |
| Ipv6.AddressUnique | checksum/parser.c:247-351 | no two legal addresses have the same text |
| Ipv6.StoreGroup | checksum/parser.c:308-309 | two bytes of a group are stored in network order behind the earlier ones |
| Ipv6.ShiftToEnd | checksum/parser.c:325-344 | the overlapping shift by hand moves the bytes behind the gap to the end and leaves zeros |
| Ipv6.Accumulate | checksum/parser.c:271-315 | the character loop follows the scanner and fails exactly where it fails |
| Ipv6.ParseIpv6Str | checksum/parser.c:247-351 | success exactly for legal texts, with the sixteen bytes they denote |
| Ipv6Texts.Digits | checksum/parser.c:273-289 | a digit counts by its place among the hex digits of either case; nothing else is a digit |
| Ipv6Texts.CaseIgnored | checksum/parser.c:247-351 | a text denotes the same address with its digits in lower case |
| Ipv6Texts.WrittenIsRead | checksum/parser.c:247-351 | any sixteen bytes written as eight groups of four digits are read as these bytes |
| Ipv6Texts.GapAlone | checksum/parser.c:295-344 | `::` denotes zeros, and a group behind it the last two bytes |
| Dhcp.WalkPrefix | dhcp_probe/dhcp_options.c:129-138 | an area that agrees up to the old end has the old items and whatever follows there |
| Dhcp.EndOption | dhcp_probe/dhcp_options.c:129-138 | the walk stops at the end option of a well-formed area |
| Dhcp.AddOptionString | dhcp_probe/dhcp_options.c:142-158 | leaves the area alone if option and end code would reach to the last byte of the area or beyond, else writes them at the old end and nothing else |
| Dhcp.ExtendedMeaning | dhcp_probe/dhcp_options.c:142-158 | the written area, or the one that would exactly be filled, means the old items and the new option if and only if the code is neither padding nor end |
| Dhcp.EndCodeVanishes | dhcp_probe/dhcp_options.c:142-158 | with the end code the area means what it meant before |
| Dhcp.PaddingCodeShifts | dhcp_probe/dhcp_options.c:142-158 | with the padding code the walk goes on at the length byte, which is taken for a code |
| Dhcp.PaddingCodeExample | dhcp_probe/dhcp_options.c:142-158 | adding code 0 with the byte 0 to an empty area makes option 1 appear |
| Dhcp.PlaceIsLookup | dhcp_probe/dhcp_options.c:84-124 | the place of the first option with a code holds the data that the items give for the code |
| Dhcp.GetOption | dhcp_probe/dhcp_options.c:75-126 | the loop over the three fields returns what the rounds of the scan give, wherever it stays inside the fields |
| Dhcp.ScanIsSearch | dhcp_probe/dhcp_options.c:84-124 | where overload options can be skipped, that is the first option with the code in the option area, else in the file field, else in the sname field, as the byte behind the overload value says |
| DhcpFields.ScanByValue | dhcp_probe/dhcp_options.c:75-126 | what the lookup returns by the byte that it takes for the overload value: the option area comes first, then the file field for 1 and 3, then the sname field for 3 only |
| DhcpFields.MeantByValue | dhcp_probe/dhcp_options.c:108-119 | what the value means by RFC 2132, section 9.3: the file field for 1 and 3, the sname field for 2 and 3 |
| Dhcp.GetOptionRightIff | dhcp_probe/dhcp_options.c:100-119 | the result is right for all contents of the other fields if and only if the code is in the option area or the misread byte asks for the same fields as the value |
| Dhcp.OverloadSkips | dhcp_probe/dhcp_options.c:100-107 | an area whose overload option is shorter than its first option, in which option 53 is not found |
| Dhcp.LookupAppend | dhcp_probe/dhcp_options.c:84-124 | a new option is found if its code was absent, and hides nothing |
| Dhcp.AddThenGet | dhcp_probe/dhcp_options.c:75-158 | after adding, every earlier code has its old data, a new code the new data, and no other code is found in the option area |
| Uuid.FormatRoundTrip | uuid/uuid.c:58-71 | the low 60 bits of the timestamp and 14 bits of the clock sequence can be read back; version 1 and the variant are set |
| Uuid.Generator.GetCurrentTime | uuid/uuid.c:134-166 | the spinning loop takes the first reading that differs or that the counter still has room for |
| Uuid.Generator.ReadState | uuid/uuid.c:83-102 | the file is read at most once |
| Uuid.Generator.WriteState | uuid/uuid.c:106-129 | the shared state is always saved, the file when it is due |
| Uuid.Generator.ChooseClockSeq | uuid/uuid.c:37-44 | a new value without state or for another node, one more after a step back, else the old value |
| Uuid.Generator.Create | uuid/uuid.c:24-54 | every call returns the UUID for the next tick and keeps the run a chain in which each UUID follows from the one before, whatever clock and random values are |
| Uuid.ClockSeqCounts | uuid/uuid.c:41-44 | the clock sequence is its first value plus the number of steps back, modulo 2^16 |
| Uuid.TimestampsIncrease | uuid/uuid.c:24-71 | between steps back timestamps never decrease, and they strictly increase if the run has no collision |
| Uuid.DistinctUnlessCollision | uuid/uuid.c:24-166 | the UUIDs of a run with fewer than 2^14 steps back are pairwise distinct if and only if the clock never moves on to the timestamp handed out last |
| Uuid.CoarseClockIsSafe | uuid/uuid.c:147-165 | a clock whose forward steps exceed `UUIDS_PER_TICK` never collides |
| Uuid.DuplicateRun | uuid/uuid.c:147-165 | three calls at readings 5, 5 and 6 return the same UUID twice |
| Uuid.Compare | uuid/uuid.c:253-269 | the result is the order at the first field or byte that differs |
| Uuid.CompareIsTotalOrder | uuid/uuid.c:253-269 | the comparison is a total order and 0 means equal |
| BinFind.Find | binutil/binfind.c:46-80 | the loop that rewinds terminates and prints the greedy occurrences with running numbers |
| BinFind.GreedyCharacterised | binutil/binfind.c:46-80 | a sequence is the reported one if and only if it consists of occurrences, none overlap and every occurrence is covered from the left |

## Left out

- DataCoding.EncodeHeader: the 16-bit count of versions 10 and above (`qrcode/encode.c:331-345`), whose loop at line 335 leaves the range of `int`.
- Generate.Symbol.DataEccEncode: versions 10 and above, for the same reason.
- Generate.Symbol.DrawSymbol: versions 10 and above, for the same reason.
- Generate.Symbol.Generate: texts and requests whose chosen version is above 9, for the same reason. The stages before and after the data coding hold for all versions, the last ones as `Generate.Symbol.FinishSymbol`.
- HexImage.ReaderYieldsImage: Intel HEX files whose segments do not ascend, with records of an unknown type, or without an end record; and files with moved data or a surplus in which the length of the output is right nevertheless (`CancellingErrors`, `MovedByteDecides`). Lines that break the format, such as an address record whose length is not 2 or a digit that is none, mean what the reader takes them for.
- HexImage.ReadImage: the same files.
- Dhcp.GetOption: packets on which the source reads behind the end of a field, which is undefined in C.
- Dhcp.ScanIsSearch: overload options that are not as long as the first option of the area, or that stand in the file or sname field.
- Dhcp.GetOptionRightIff: overload options that are not as long as the first option; `OverloadSkips` is an example. Padding behind the skipped bytes can make the result right all the same.
- Dhcp.AddThenGet: adding the overload option itself, and areas whose overload options cannot be skipped (`OverloadSkips`).
- Uuid.DistinctUnlessCollision: runs with 2^14 or more steps back, after which the 14-bit clock sequence repeats, and timestamps of 2^60 or more.
- The correction procedure of a QR reader: the tolerance results say that the text is determined, not how to compute it. The model's reader does not use the correction bytes.
- The block table against the standard: it is taken as it is in the source. Of the version blocks only the order of their modules is compared with it.
- Printing of matrices and codewords, and the error messages behind checks that cannot fail.
- MD5 rounds and constants (`MD5Transform`), and any claim about collisions: the compression function is a parameter.
- CRC-16 with only one of the two reflections: the appended-CRC law has no natural byte order there.
- Intel HEX records that reach over the end of their segment: the source writes outside of its buffer, the reader's precondition excludes them. The byte counts that are printed, and `hex2checksum`, are not modelled.
- `add_simple_option` and the option table of `dhcp_probe`.
- Base64 file handling and option parsing; IPv4, MAC and port parsing of `checksum/parser.c`.
- UUID versions 3 and 5, random node identifiers, and behaviour across process restarts. The reading that seeds `rand()` is not taken from the clock; timestamps are unbounded where the source has 64 bits.
- File access, sockets, process and signal handling, and all other programs of the repository.

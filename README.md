# cpufreq-bindings: the attribute-access layer, modelled and verified

This project models the Linux cpufreq sysfs bindings: `src/cpufreq-bindings.c` and the
contracts in `inc/cpufreq-bindings.h`. A caller names one of 15 cpufreq attributes of a
core. The bindings then work out the path `/sys/devices/system/cpu/cpu<core>/cpufreq/<name>`.
They open that file when the caller passed no descriptor, `pread` or `pwrite` it at
offset 0, and decode what was read:

- a string, cut at the first newline;
- one or more `uint32` values separated by spaces;
- governor names copied into a flat `len * width` buffer of rows.

Finally they close a descriptor they opened without disturbing `errno`.

The project is organised as follows:

- **CTypes** (`ctypes.dfy`) covers the C vocabulary:
  - `u32`/`u64`, the errno codes and the `open(2)` access modes;
  - strtoul(3) as an abstract function `Strtoul` from text to a value and the errno it leaves;
  - the truncating store of an `unsigned long` into a `uint32_t`.
- **Decimal** (`decimal.dfy`) holds `printf("%u")` and the decimal reading of strtoul.
- **Files** (`files.dfy`) holds the attribute enum, the path templates, the default open modes, and `snprintf` of a template into the 128-byte path buffer.
- **Text** (`text.dfy`) models the libc string routines the code uses:
  - the NUL-terminated view of a buffer;
  - `strcspn(buf, "\n")`;
  - `strtok_r(…, " ", …)`, one call at a time;
  - `strncpy`.
- **Kernel** (`kernel.dfy`) is the operating system. A snapshot `Sys` holds:
  - a map from path to file contents;
  - a descriptor table;
  - the next descriptor number;
  - `errno`;
  - a log of the `open`/`pread`/`pwrite`/`close` calls.

  Each system call is a step function on a snapshot. `class Os` holds the same state in fields, and its methods perform the steps in place.
- **Codec** (`codec.dfy`) gives what the two tokenising loops compute, stated without loops, and the lemmas that characterise it.
- **Effects** (`effects.dfy`) gives the net effect of every helper of the C file, as a function of the state before the call. Its lemmas prove the contracts of the header and of the code: descriptor ownership on every path, sentinels and errno, element-level contents of the caller's buffers, and the u32 round trip.
- **Bindings** (`bindings.dfy`) holds the C functions themselves as imperative methods over an `Os` and caller-owned arrays, with the `strtok_r` loops as `while` loops. Each method is proved to have exactly the effect that Effects gives it.

Where the header's prose and the code differ, the model follows the code:

- Integers are parsed with `strtoul(…, NULL, 0)`, so base 0, not base 10.
- An empty read returns 0 and leaves `errno` untouched, although the header says `errno` will be set. So does text with no token for the governor getter and for an array getter with `len != 1`. With `len == 1` the whole text goes to strtoul, so blank text stores and returns strtoul's result.
- When the array is too small, the prefix already stored stays in the caller's array.
- With `len == 1` the value strtoul returns is stored (and is returned by the scalar getters) even when strtoul sets `errno`.
- With `len == 1` an array getter never reports `ERANGE`: the text is not split, so `get_affected_cpus(fd, core, arr, 1)` on "0 1\n" returns 1 if strtoul stops at the space without setting `errno`.
- `write_file_u32_template` writes all 12 bytes of a buffer it never initialises. The kernel gets the digits, a NUL, and whatever the stack held after them (the parameter `stale` of the u32 setters).
- An `open` that returns descriptor 0 counts as a failure: the helper returns its sentinel and descriptor 0 stays open.
- `read_file_str_template` returns the count `pread` gave, newline included ("ondemand\n" reads as 9).
- The array getters do not strip the newline. When a space comes before it ("1 2 \n"), `"\n"` is a token of its own, and it goes to strtoul like any other. That is one value more than the line holds, or `ERANGE` when the array is already full.

## Model

| member | source | states |
|---|---|---|
| CTypes.ToU32 | src/cpufreq-bindings.c:106 | storing an unsigned long into a uint32_t keeps every value below 2^32 unchanged |
| Decimal.ValueOfDigits | src/cpufreq-bindings.c:148 | the digits "%u" prints denote the number printed |
| Decimal.DigitsBound | src/cpufreq-bindings.c:148 | a number below 10^k prints in at most k digits |
| Decimal.U32DigitsAtMostTen | src/cpufreq-bindings.c:33 | every uint32 prints in at most 10 digits, so it fits the 12-byte buffer with its NUL |
| Decimal.NoLeadingZero | src/cpufreq-bindings.c:115 | the rendering starts with '0' exactly for zero, so base-0 strtoul never reads it as octal |
| Decimal.DigitRunOfDigits | src/cpufreq-bindings.c:115 | the digit run of digits followed by a non-digit is exactly those digits |
| Decimal.DecimalReadsBack | src/cpufreq-bindings.c:106 | decimal strtoul reads "%u" of v back as v with errno 0, whatever non-digit follows |
| Files.Ordinal | inc/cpufreq-bindings.h:25-41 | every enumerator has a value below 15 |
| Files.FromOrdinal | inc/cpufreq-bindings.h:25-41 | an int names an enumerator exactly when it lies in 0..14, and that enumerator has that value |
| Files.OrdinalBijection | inc/cpufreq-bindings.h:25-41 | the enum is exactly the values 0..14 in declaration order: ordinal and lookup are inverse and the ordinal is injective |
| Files.NamesDistinct | src/cpufreq-bindings.c:16-30 | different attributes have different file names |
| Files.NameShort | src/cpufreq-bindings.c:16-30 | no attribute file name exceeds 29 characters |
| Files.FileToTemplate | src/cpufreq-bindings.c:154-191 | a template comes back exactly for 0..14, and it is that attribute's template; anything else gives none |
| Files.DefaultMode | src/cpufreq-bindings.c:193-204 | the default mode is O_RDWR exactly for the governor, max, min and setspeed attributes and O_RDONLY otherwise, including out-of-range values |
| Files.FormatLiteral | src/cpufreq-bindings.c:40 | printf copies text without a conversion verbatim |
| Files.FormatPlaceholder | src/cpufreq-bindings.c:40 | printf replaces a leading "%u" by the decimal core index |
| Files.FormatTemplate | src/cpufreq-bindings.c:16-30 | formatting a template yields /sys/devices/system/cpu/cpu<core>/cpufreq/<name> |
| Files.Snprintf | src/cpufreq-bindings.c:40 | snprintf keeps fewer than n characters, a prefix of the text, and the whole text when it fits |
| Files.PathFits | src/cpufreq-bindings.c:32-40 | for every attribute and every uint32 core the path is under 128 bytes, so snprintf never truncates it |
| Text.Zeros | src/cpufreq-bindings.c:93 | an n-byte scratch buffer of NULs |
| Text.Overlay | src/cpufreq-bindings.c:69 | pread's bytes replace the front of the buffer and the rest is unchanged |
| Text.NulIndex | src/cpufreq-bindings.c:113 | the first NUL of a buffer, or its length, with no NUL before it |
| Text.CString | src/cpufreq-bindings.c:113 | the C string a buffer holds is its prefix up to, not including, the first NUL |
| Text.CStringOfTerminated | src/cpufreq-bindings.c:148 | characters followed by a NUL form exactly that C string |
| Text.NulIndexPadded | src/cpufreq-bindings.c:102 | NUL padding after the data does not move the first NUL of the data |
| Text.CStringOfScratch | src/cpufreq-bindings.c:102 | the zero-filled scratch buffer after pread holds the C string of the bytes read |
| Text.Strcspn | src/cpufreq-bindings.c:72 | strcspn(buf, "\n") is the first newline or NUL, with none before it |
| Text.StripGivesLine | src/cpufreq-bindings.c:72 | after the strip, the C string is the text before the first newline, it holds no newline, and only one cell changed |
| Text.SkipSpaces | src/cpufreq-bindings.c:113 | strtok_r's skip over the delimiter stops at the first non-space |
| Text.TokenEnd | src/cpufreq-bindings.c:113 | a token runs to the next space |
| Text.NextToken | src/cpufreq-bindings.c:113 | one strtok_r call returns NULL exactly when only spaces remain; otherwise the token starts at the first non-space, runs up to the next space or the end, and the save pointer is left just past that space |
| Text.CursorStep | src/cpufreq-bindings.c:113 | the next strtok_r call returns the next token of the split, or NULL after the last |
| Text.TokensPartition | src/cpufreq-bindings.c:112-113 | the tokens are non-empty, hold no space, and concatenate to the text without its spaces |
| Text.TokensAreWords | src/cpufreq-bindings.c:112-115 | the tokens of the strtok_r loop are exactly the maximal runs of non-space characters, in order, as a one-character-at-a-time splitter gives them |
| Text.Row | src/cpufreq-bindings.c:263 | strncpy into a width-byte row: the first width characters of the token, then NULs |
| Kernel.OpenStep | src/cpufreq-bindings.c:41 | open gives the next descriptor for an existing file, else -1 with ENOENT; it is logged and keeps the table consistent |
| Kernel.PreadStep | src/cpufreq-bindings.c:69 | pread succeeds exactly on a descriptor open for reading and then gives the file's first min(count, size) bytes with errno untouched; otherwise -1 with EBADF and no data |
| Kernel.PwriteStep | src/cpufreq-bindings.c:84 | pwrite succeeds exactly on a descriptor open for writing, and then the file holds the bytes and their count is returned; otherwise -1 with EBADF and no file changed; the descriptor table is left alone |
| Kernel.CloseStep | src/cpufreq-bindings.c:53 | close removes the descriptor and logs the call; it returns 0 exactly when the descriptor was open, else -1 with EBADF |
| Kernel.Os.Open | src/cpufreq-bindings.c:41 | the open step, performed on the fields |
| Kernel.Os.Pread | src/cpufreq-bindings.c:69 | the pread step; the bytes read overwrite the front of the caller's buffer |
| Kernel.Os.Pwrite | src/cpufreq-bindings.c:84 | the pwrite step, performed on the fields |
| Kernel.Os.Close | src/cpufreq-bindings.c:53 | the close step, performed on the fields |
| Codec.Stored | src/cpufreq-bindings.c:115 | slot i receives token i's strtoul value cut to 32 bits |
| Codec.FirstError | src/cpufreq-bindings.c:116-120 | the first token whose strtoul sets errno, with every earlier one clean |
| Codec.ArrSuccess | src/cpufreq-bindings.c:110-126 | with len != 1 the count is nonzero exactly when 1..len tokens all parse cleanly; then it is the token count, slot j holds token j, errno is 0 |
| Codec.ArrOverflow | src/cpufreq-bindings.c:122-126 | more tokens than slots with clean parses give 0 and ERANGE and keep the len values stored |
| Codec.ArrParseError | src/cpufreq-bindings.c:116-120 | the first token that sets errno gives count 0, keeps strtoul's errno rather than ERANGE, and leaves tokens 0..j stored |
| Codec.ArrWritesPrefix | src/cpufreq-bindings.c:103-126 | at most len slots are written, slot i receives token i, and a zero count does not clear them |
| Codec.ArrSingleSlot | src/cpufreq-bindings.c:103-109 | with len == 1 the whole text goes to strtoul, its value is stored regardless, and the count is 1 exactly when errno stays 0 |
| Codec.StoreStep | src/cpufreq-bindings.c:115 | storing token i after tokens 0..i-1 gives the array holding tokens 0..i |
| Codec.ArrWalkOutcome | src/cpufreq-bindings.c:110-126 | the way the loop ended (parse error, array full, tokens exhausted) determines the decoder's count, writes and errno |
| Codec.GovernorsOutcome | src/cpufreq-bindings.c:262-269 | the governor count is the token count exactly when the tokens fit in len rows; otherwise 0 with ERANGE; rows hold the first min(k, len) tokens |
| Codec.Splice | src/cpufreq-bindings.c:263 | a row written over a buffer changes exactly its cells |
| Codec.RowFits | src/cpufreq-bindings.c:263 | &governors[i * width] plus width bytes lies inside the len * width buffer |
| Codec.WriteRowsSnoc | src/cpufreq-bindings.c:262-264 | one more loop pass adds one strncpy'd row to what the earlier passes wrote |
| Codec.RowsStep | src/cpufreq-bindings.c:263 | the buffer after strncpy of token i into row i holds rows 0..i |
| Codec.RowCell | src/cpufreq-bindings.c:262-264 | cell c of row i holds cell c of strncpy of row i's token |
| Codec.RowTail | src/cpufreq-bindings.c:262-264 | cells past the rows written are untouched |
| Effects.CondClose | src/cpufreq-bindings.c:50-59 | close only under cond, and errno is kept |
| Effects.TraceOwned | inc/cpufreq-bindings.h:6 | the calls a helper issues obey the ownership rule |
| Effects.FreshNotOpen | src/cpufreq-bindings.c:65 | a fresh descriptor was not open before, so closing it restores the table |
| Effects.ReadStrOwnership | src/cpufreq-bindings.c:61-74 | read_file_str_template, on every path: a caller descriptor sees no open, no close and one pread; else one open, and nothing more if it gives <= 0, otherwise one pread on it and a final close; the table is restored |
| Effects.WriteStrOwnership | src/cpufreq-bindings.c:76-87 | the same ownership rule and restoration for write_file_str_template and so write_file_u32_template |
| Effects.ReadArrOwnership | src/cpufreq-bindings.c:89-131 | the same ownership rule and restoration for read_file_u32arr_template, early return included |
| Effects.GovernorsOwnership | src/cpufreq-bindings.c:253-259 | the governor getter obeys the ownership rule through read_file_str_template |
| Effects.CondCloseKeepsErrno | src/cpufreq-bindings.c:50-59 | conditional_close issues a close exactly when cond holds, and errno on exit equals errno on entry |
| Effects.ReadStrResult | inc/cpufreq-bindings.h:171-191 | the string getters return -1 exactly when open or pread failed, else the byte count pread gave; ENOENT for a missing file, EBADF for a failed read, errno untouched on success |
| Effects.WriteStrResult | inc/cpufreq-bindings.h:193-202 | the string setter returns -1 exactly when the open failed or the descriptor is not open for writing; otherwise it returns every byte's count and that file now holds the bytes; ENOENT for a missing file, EBADF for an unwritable descriptor, errno untouched on success |
| Effects.WriteU32Result | inc/cpufreq-bindings.h:213-250 | the u32 setters return -1 or 12 bytes; a locally opened existing file ends up holding the 12-byte rendering, and a missing one gives -1 with ENOENT |
| Effects.StrcspnOverlay | src/cpufreq-bindings.c:72 | a newline in the bytes read is found by strcspn before anything the buffer held before |
| Effects.ReadStrLine | src/cpufreq-bindings.c:69-72 | when the bytes read hold a newline, the caller's buffer is left holding the line before it |
| Effects.ReadArrFailure | inc/cpufreq-bindings.h:62-73 | a failed open or read or an empty file gives 0 and an untouched array; ENOENT or EBADF is then errno, untouched if the read just returned nothing |
| Effects.ReadArrSuccess | src/cpufreq-bindings.c:110-126 | k tokens that fit and parse give count k, arr[j] the value of token j, the other slots untouched, errno 0 when k > 0 and untouched when k == 0 |
| Effects.ReadArrOverflow | src/cpufreq-bindings.c:122-126 | too many tokens give 0 with ERANGE, the first len values stored, the other slots untouched |
| Effects.ReadArrParseError | src/cpufreq-bindings.c:116-120 | a token that sets errno gives 0 with strtoul's errno, slots 0..j written, the rest untouched |
| Effects.ReadU32Value | src/cpufreq-bindings.c:133-137 | the scalar getters return 0 on a failed or empty read, otherwise strtoul's value cut to 32 bits whatever errno says |
| Effects.RowsOfPrefixCells | src/cpufreq-bindings.c:262-264 | every cell of every walked row holds the strncpy of its token |
| Effects.RowsOfPrefixTail | src/cpufreq-bindings.c:262-264 | every cell past the walked rows is untouched |
| Effects.RowsOfPrefix | src/cpufreq-bindings.c:262-264 | writing the walked tokens gives rows holding them and an untouched tail |
| Effects.GovernorRows | src/cpufreq-bindings.c:262-268 | the governor buffer holds strncpy of token i in row i for the first min(k, len) tokens and is untouched after them |
| Effects.GovernorsResult | inc/cpufreq-bindings.h:147-160 | the governor getter returns the token count with errno untouched when the tokens fit, else 0 with ERANGE; rows as written; 0 and an untouched buffer when the read fails or is empty |
| Effects.FileOpenResult | src/cpufreq-bindings.c:206-215 | file_open gives -1 with EINVAL and no system call for an unknown identifier; otherwise one open of its sysfs path with the default mode exactly when flags < 0, giving ENOENT and no new descriptor for a missing file, else the new descriptor with errno untouched |
| Effects.U32TextShape | src/cpufreq-bindings.c:139-152 | the 12 bytes hold the decimal digits of val (at most 10) then NUL, whatever the stale tail, and strtoul reads val back from them |
| Effects.SetThenGet | inc/cpufreq-bindings.h:204-221 | setting a frequency and reading it back with local descriptors writes 12 bytes and returns the value set, whatever the uninitialised tail of the write buffer held |
| Bindings.OpenFileTemplate | src/cpufreq-bindings.c:38-48 | opens the 128-byte snprintf of the template with the given flags |
| Bindings.ConditionalClose | src/cpufreq-bindings.c:50-59 | has the effect CondClose states |
| Bindings.StrcspnScan | src/cpufreq-bindings.c:72 | the loop finds the first newline or NUL in the buffer, or its end |
| Bindings.ReadStr | src/cpufreq-bindings.c:61-74 | has the state, result and buffer ReadStrEffect states |
| Bindings.WriteStr | src/cpufreq-bindings.c:76-87 | pwrites buf[0..len) verbatim, with the effect WriteStrEffect states |
| Bindings.WriteU32 | src/cpufreq-bindings.c:139-152 | pwrites the 12-byte buffer, digits, NUL and stale tail, with the effect WriteU32Effect states |
| Bindings.ReadU32Arr | src/cpufreq-bindings.c:89-131 | has the state, count and array ReadArrEffect states |
| Bindings.ReadArrFrom | src/cpufreq-bindings.c:102-130 | reads into zeroed scratch, decodes, closes when local, as ReadArrOn states |
| Bindings.ParseText | src/cpufreq-bindings.c:103-127 | the count, array and errno are those DecodeU32Arr gives |
| Bindings.ReadTokens | src/cpufreq-bindings.c:112-126 | the strtok_r loop and the overflow check give DecodeU32Arr's count, writes and errno |
| Bindings.StoreToken | src/cpufreq-bindings.c:114-115 | clears errno, stores the truncated strtoul value in slot i, leaves strtoul's errno |
| Bindings.StoreNext | src/cpufreq-bindings.c:114-115 | after tokens 0..i-1, the array holds the stored values of tokens 0..i |
| Bindings.StrtokNext | src/cpufreq-bindings.c:113 | the next strtok_r call advances the walk by one token |
| Bindings.WalkTokens | src/cpufreq-bindings.c:112-120 | the loop stops on the first failing token with i = 0 and tok = NULL, or once the array is full or the tokens run out, having stored exactly the tokens walked |
| Bindings.Strncpy | src/cpufreq-bindings.c:263 | strncpy writes exactly the row cells |
| Bindings.ReadU32 | src/cpufreq-bindings.c:133-137 | returns the slot ReadU32Effect states |
| Bindings.CopyGovernors | src/cpufreq-bindings.c:261-270 | the loop and overflow check give DecodeGovernors' count, rows and errno |
| Bindings.WalkGovernors | src/cpufreq-bindings.c:261-264 | rows 0..i hold strncpy of tokens 0..i, stopping when the rows or the tokens run out |
| Bindings.GetScalingAvailableGovernors | src/cpufreq-bindings.c:253-271 | has the state, count and buffer GovernorsEffect states |
| Bindings.FileOpen | src/cpufreq-bindings.c:206-215 | has the effect FileOpenEffect states |
| Bindings.FileClose | src/cpufreq-bindings.c:217-219 | is close(2) |
| Bindings.GetAffectedCpus | src/cpufreq-bindings.c:221-223 | reads affected_cpus of the core as ReadArrEffect states |
| Bindings.GetRelatedCpus | src/cpufreq-bindings.c:245-247 | reads related_cpus as ReadArrEffect states |
| Bindings.GetScalingAvailableFrequencies | src/cpufreq-bindings.c:249-251 | reads scaling_available_frequencies as ReadArrEffect states |
| Bindings.GetBiosLimit | src/cpufreq-bindings.c:225-227 | reads bios_limit as ReadU32Effect states |
| Bindings.GetCpuinfoCurFreq | src/cpufreq-bindings.c:229-231 | reads cpuinfo_cur_freq as ReadU32Effect states |
| Bindings.GetCpuinfoMaxFreq | src/cpufreq-bindings.c:233-235 | reads cpuinfo_max_freq as ReadU32Effect states |
| Bindings.GetCpuinfoMinFreq | src/cpufreq-bindings.c:237-239 | reads cpuinfo_min_freq as ReadU32Effect states |
| Bindings.GetCpuinfoTransitionLatency | src/cpufreq-bindings.c:241-243 | reads cpuinfo_transition_latency as ReadU32Effect states |
| Bindings.GetScalingCurFreq | src/cpufreq-bindings.c:273-275 | reads scaling_cur_freq as ReadU32Effect states |
| Bindings.GetScalingDriver | src/cpufreq-bindings.c:277-279 | reads scaling_driver as ReadStrEffect states |
| Bindings.GetScalingGovernor | src/cpufreq-bindings.c:281-283 | reads scaling_governor as ReadStrEffect states |
| Bindings.SetScalingGovernor | src/cpufreq-bindings.c:285-287 | writes len bytes of the governor name as WriteStrEffect states |
| Bindings.GetScalingMaxFreq | src/cpufreq-bindings.c:289-291 | reads scaling_max_freq as ReadU32Effect states |
| Bindings.SetScalingMaxFreq | src/cpufreq-bindings.c:293-295 | writes scaling_max_freq as WriteU32Effect states |
| Bindings.GetScalingMinFreq | src/cpufreq-bindings.c:297-299 | reads scaling_min_freq as ReadU32Effect states |
| Bindings.SetScalingMinFreq | src/cpufreq-bindings.c:301-303 | writes scaling_min_freq as WriteU32Effect states |
| Bindings.SetScalingSetspeed | src/cpufreq-bindings.c:305-307 | writes scaling_setspeed as WriteU32Effect states |

## Left out

- The `VERBOSE` `perror` branches: they only print.
- `src/cpufreq-bindings-read-cpu.c` (the command-line demo) and `src/cpufreq-bindings-common.h` (logging macros) are not part of this model: they are I/O only.
- The system calls are modelled, not the real kernel. There are no permissions, no partial reads or writes, no sysfs-specific behaviour, and `pread`/`pwrite` always act at offset 0 on a whole-file store. The descriptor table hands out numbers from a counter.
- strtoul(3) is a parameter (`Strtoul`), so base 0, signs, blanks and errno on non-numeric text are not modelled. Only `Decimal.DecimalStrtoul`, the base-10 reading of plain digits, is concrete. `Effects.SetThenGet` assumes strtoul agrees with it on the digits written.
- Uninitialised stack memory is modelled only in `write_file_u32_template`, where its tail is the parameter `stale`. The scratch buffers of `read_file_u32arr_template` and of the governor getter start zero-filled. That stands for "the bytes read followed by a terminator", since `pread` itself writes no NUL.
- A read that fills the whole scratch buffer of `read_file_u32arr_template` (a file of at least `len * 13 + 1` bytes) is cut at the end of the buffer. In C, the comment at line 91 reserves the last byte for a NUL, but line 102 lets `pread` fill all `buflen` bytes. The buffer then has no terminator, and strtoul or strtok_r read past it. The model does not follow that overrun.
- Bindings.StrcspnScan: scans no further than the caller's buffer. In C, `strcspn` on a buffer holding neither newline nor NUL runs past its end.
- strtok_r's writes of NUL into the scratch buffer are not modelled cell by cell. The tokens are computed from the C string, which gives the same tokens.
- Variable-length arrays and `size_t` arithmetic: `len * (U32_MAX_LEN + 1) + 1`, `len * GOVERNOR_NAME_MAX_LEN` and `i * width` are unbounded integers here, so a wrap-around of those sizes is not modelled.
- Concurrent use of a shared descriptor.
- Kernel.OpenStep: descriptors come from a counter that starts wherever the caller says. Linux's "lowest free number" rule is not modelled.


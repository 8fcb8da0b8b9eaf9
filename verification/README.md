# MySQL client headers: a verified model

The sample credential provider bundles the headers of a MySQL client. Besides declarations they
hold code that is compiled into every program that includes them: inline functions and macros for
instrumented locks and files, buffered I/O, number formats, rounding, alignment and deadlines. This
project models that code in Dafny and proves what it is for.

`dafny verify dfyconfig.toml` checks the whole project.

| file | code modelled |
|---|---|
| `mutex.dfy`, `rwlock.dfy` | mutex, condition, rwlock and prlock wrappers of `mysql_thread.h` |
| `psi_file.dfy` | file wrappers of `mysql_file.h` |
| `io_cache.dfy` | the `my_b_...` macros of `my_sys.h` |
| `skip_space.dfy`, `align.dfy` | `skip_trailing_space`, `MY_ALIGN` |
| `rint.dfy`, `ulonglong.dfy` | `rint`, and unsigned 64-bit integers to doubles and back |
| `timespec.dfy` | both flavours of `struct timespec` |
| `korr.dfy`, `float_format.dfy` | integers and floats in machine-independent and machine format |
| `bits.dfy`, `bytes.dfy` | C's bitwise operators, two's complement, base 256 |
| `thread_log.dfy` | logs of several threads and automata that follow them |

## What is proved

**Locks.** A wrapper call is a list of actions, events of the performance schema and calls of the
real lock, in the order of the code; the methods of `MysqlMutex` and `MysqlRwlock` are proved to
perform exactly that list. A machine interleaves the lists of any number of threads action by
action, over a real mutex with one owner and a real rwlock with the counter -1, 0, n. An observer
who sees the events alone knows a thread as a holder from a successful end event to its next unlock
event. The order of the code, unlock event before unlock and end event after lock, is what keeps
the reported holds inside the real ones: with either order changed there is a run with two reported
holders (`LateUnlockEventBreaksReport`, `EarlyEndEventBreaksReport`). For mutexes with condition
waits containment fails, and `ContainmentOfRuns` says exactly when: a thread enters the real wait
while it is reported. Two threads are reported at once exactly when a thread gets reported while
another, blocked inside a wait, still is. Neither happens when every wait has a hook and a locker
and the observer suspends a hold between their events; `UninstrumentedWaitBreaksReport` builds, for
every other combination, a run that shows that this is needed. In every run each thread's events form
brackets around the real calls they announce (`BracketsMatch`), and erasing the events leaves the
real calls that were asked for (`Transparent`).

**Files.** Erasing the events of any run of wrappers leaves the run of the build without
instrumentation. Every locker is used for one bracket, of the pair that belongs to the call, every MYSQL_FILE is freed
once, after its file is closed, and an open one holds the hook of its fopen. The bytes
reported by the block transfers add up to the bytes of those that succeeded and got a locker; one
that fails is reported as 0 bytes, also if it moved some. The stream wrappers are less exact than
that: `fgetc`, `fputc` and `fputs` report their full size when the real call fails, `fprintf`
reports a failure as a huge size (`StreamReports` has the exact condition), and `fgets` reports the
bytes up to the first 0 byte of what it read, so that its report is right exactly when there is
none (`FgetsReports`).

**IO_CACHE.** For every `read_function` and `write_function` that meet the contract in the comments
on the fields of IO_CACHE, and every run of macros, the cache is indistinguishable from the plain
file. `read_function` and `write_function` have no body in the repository; the classes contain a
simple refill and a simple flush that are proved to meet the contract, so it can be met. When a
flush fails, `my_b_write_byte`, which has no error check, can store its byte behind the buffer:
`StaysInBufferExactly` says for which runs, `SafeCallExactly` what a caller can check before the
call, and `FailedFlushOverruns` is such a run.

**Text and numbers.** `skip_trailing_space` returns what the naive loop returns and never reads
outside the text; both guards of its long branch always hold. `rint` is roundToIntegralTiesToEven of
IEEE 754-2008. `MY_ALIGN` rounds up if and only if the sum does not overflow, and gives 0 otherwise.
`my_double2ulonglong` undoes `my_ulonglong2double` for exactly those integers that are doubles:
2^64 - 1, for one, may be rounded to 2^64, which is converted to 0. All byte-order codecs agree with
each other and are undone by their counterparts.

## Assumptions

- Shifts and overflows of signed integers, which C leaves undefined, round down and wrap around.
- A real lock or unlock may fail at any time; a success obeys the lock. Unlocking succeeds only for
  a holder, and a lock is destroyed only when it is free and nobody is inside a call.
- Floating-point results are exact where the exact result is a double; for the conversions of
  64-bit integers, rounding is also monotone, in any rounding mode.
- A `write_function` that succeeds leaves a buffer that is not of size 0, wherever it moves
  `write_end`; one that fails leaves `write_pos` within `write_end`, and nothing else is known.
- `my_malloc` returns memory that is not in use, and `fclose` is given NULL or an open handle.

Where comments and code disagree the model follows the code: the comment of `skip_trailing_space`
(m_string.h:237-251) says that zone (c) is compared byte by byte and zone (b) by words, and that the
last non-space character is returned; the code compares (b) by bytes and (c) by words and returns
the address after that character.

## Model

| member | source | states |
|---|---|---|
| `InstrumentedMutex.MysqlMutex.Init` | SampleHardwareEventCredentialProvider/include/mysql/psi/mysql_thread.h:601-624 | init asks init_mutex for the hook and keeps it, then initialises the real mutex and returns its result |
| `InstrumentedMutex.MysqlMutex.Destroy` | SampleHardwareEventCredentialProvider/include/mysql/psi/mysql_thread.h:626-647 | destroy sends its event if there is a hook, clears the hook so that no later call sends an event, then destroys the real mutex and returns its result |
| `InstrumentedMutex.MysqlMutex.LockOrTry` | SampleHardwareEventCredentialProvider/include/mysql/psi/mysql_thread.h:649-739 | lock and trylock return the real result and perform exactly: start event of their operation, real call of their kind, end event if the locker is non-NULL, whatever the result; or the real call alone without a hook |
| `InstrumentedMutex.MysqlMutex.Unlock` | SampleHardwareEventCredentialProvider/include/mysql/psi/mysql_thread.h:741-766 | the unlock event comes before the real unlock, and is sent whether or not that succeeds |
| `InstrumentedMutex.MysqlMutex.CondWait` | SampleHardwareEventCredentialProvider/include/mysql/psi/mysql_thread.h:1131-1202 | wait and timedwait bracket the real wait with cond events if the condition has a hook and the locker is non-NULL; no mutex event is sent |
| `InstrumentedMutex.MysqlMutex.CondSignal` | SampleHardwareEventCredentialProvider/include/mysql/psi/mysql_thread.h:1204-1226 | signal and broadcast send the event of their kind before the real call of their kind, and return its result |
| `InstrumentedMutex.BracketsMatch` | SampleHardwareEventCredentialProvider/include/mysql/psi/mysql_thread.h:649-1226 | in the log of every run and per thread, each start event with a non-NULL locker is followed by one real call of its operation and then by one end event with the result of that call before the wrapper returns, each with a NULL locker by the real call and no end event, each unlock, signal or broadcast event by just that real call |
| `InstrumentedMutex.Transparent` | SampleHardwareEventCredentialProvider/include/mysql/psi/mysql_thread.h:649-1226 | with the events erased, what a thread has done in any run is exactly the real calls that its calls asked for, with their results; and exactly the calls that found a hook sent their event, with the locker they got |
| `InstrumentedMutex.ReachableInv` | SampleHardwareEventCredentialProvider/include/mysql/psi/mysql_thread.h:649-766 | in every reachable state of any interleaving of any number of threads: what each thread is about to do, what is reported of it and who owns the mutex fit together |
| `InstrumentedMutex.ContainedExactly` | SampleHardwareEventCredentialProvider/include/mysql/psi/mysql_thread.h:649-766 | in every reachable state every reported holder owns the mutex if and only if none of the threads blocked inside a wait is reported |
| `InstrumentedMutex.ContainmentOfRuns` | SampleHardwareEventCredentialProvider/include/mysql/psi/mysql_thread.h:649-766 | for every run and either observer: the report is contained in the real holds all along if and only if no thread enters the real wait while it is reported |
| `InstrumentedMutex.LockUnlockContained` | SampleHardwareEventCredentialProvider/include/mysql/psi/mysql_thread.h:649-766 | every run of lock, trylock and unlock is contained all along, with NULL lockers, failed trylocks and refused unlocks anywhere |
| `InstrumentedMutex.InstrumentedWaitsContained` | SampleHardwareEventCredentialProvider/include/mysql/psi/mysql_thread.h:1131-1202 | with an observer that suspends a hold between start_cond_wait and end_cond_wait, every run is contained all along whose waits have a hook and a non-NULL locker |
| `InstrumentedMutex.AtMostOneReported` | SampleHardwareEventCredentialProvider/include/mysql/psi/mysql_thread.h:649-766 | at every prefix of a run without waits at most one thread is reported, for either observer, and the same with instrumented waits for the observer that suspends holds |
| `InstrumentedMutex.AtMostOneExactly` | SampleHardwareEventCredentialProvider/include/mysql/psi/mysql_thread.h:1131-1202 | for every run and either observer: at most one thread is reported all along if and only if no thread gets reported while another, blocked inside a wait, still is |
| `InstrumentedMutex.UninstrumentedWaitBreaksReport` | SampleHardwareEventCredentialProvider/include/mysql/psi/mysql_thread.h:1131-1202 | each of the three hypotheses is needed: for every combination of observer, hook and locker but the full one, a run with one such wait ends with two reported holders |
| `InstrumentedMutex.LateUnlockEventBreaksReport` | SampleHardwareEventCredentialProvider/include/mysql/psi/mysql_thread.h:753-764 | were the unlock event sent after the real unlock, a run that the real mutex allows would report two holders |
| `InstrumentedMutex.EarlyEndEventBreaksReport` | SampleHardwareEventCredentialProvider/include/mysql/psi/mysql_thread.h:668-681 | were the end event sent before the real lock, two threads would be reported before either locks |
| `InstrumentedMutex.ReportExactWhenIdle` | SampleHardwareEventCredentialProvider/include/mysql/psi/mysql_thread.h:601-766 | when every mutex has a hook, every locker is non-NULL and no unlock is refused, a thread outside any call is reported if and only if it owns the mutex |
| `InstrumentedRwlock.MysqlRwlock.Init` | SampleHardwareEventCredentialProvider/include/mysql/psi/mysql_thread.h:785-816 | init asks init_rwlock for the hook and keeps it, then initialises the real lock and returns its result |
| `InstrumentedRwlock.MysqlRwlock.LockOrTry` | SampleHardwareEventCredentialProvider/include/mysql/psi/mysql_thread.h:846-1058 | rdlock, wrlock, tryrdlock, trywrlock, and the prlock pair, perform exactly: start event of their mode and operation, real call, end event of their mode if the locker is non-NULL, whatever the result |
| `InstrumentedRwlock.MysqlRwlock.Unlock` | SampleHardwareEventCredentialProvider/include/mysql/psi/mysql_thread.h:1060-1084 | the unlock event comes before the real unlock |
| `InstrumentedRwlock.BracketsMatch` | SampleHardwareEventCredentialProvider/include/mysql/psi/mysql_thread.h:846-1084 | in the log of every run and per thread, each start event with a non-NULL locker is followed by one real call of its mode and operation and then by one end event of that mode with the result of that call, each with a NULL locker by the real call and no end event, each unlock event by the unlock |
| `InstrumentedRwlock.Transparent` | SampleHardwareEventCredentialProvider/include/mysql/psi/mysql_thread.h:846-1084 | with the events erased, what a thread has done in any run is exactly the real calls asked for; and exactly the calls that found a hook sent their event, of their mode and with the locker they got |
| `InstrumentedRwlock.MysqlRwlock.Destroy` | SampleHardwareEventCredentialProvider/include/mysql/psi/mysql_thread.h:818-844 | destroy sends its event if there is a hook, clears the hook, then destroys the real lock and returns its result |
| `InstrumentedRwlock.ReachableInv` | SampleHardwareEventCredentialProvider/include/mysql/psi/mysql_thread.h:846-1084 | in every reachable state the counter fits the holders, and each thread's reported counts and position in its call fit its real counts |
| `InstrumentedRwlock.ReportedWithinReal` | SampleHardwareEventCredentialProvider/include/mysql/psi/mysql_thread.h:846-1084 | in every reachable state, per thread and with repeated read locks, reported read locks are at most the real ones and a reported writer is the real one |
| `InstrumentedRwlock.CounterMeaning` | SampleHardwareEventCredentialProvider/include/my_pthread.h:725 | -1 means one writer and no reader, 0 free, n > 0 exactly n read locks, in every reachable state |
| `InstrumentedRwlock.ReportedWriterAlone` | SampleHardwareEventCredentialProvider/include/mysql/psi/mysql_thread.h:846-1084 | a reported writer excludes every other reported reader and writer |
| `InstrumentedRwlock.ReportExactWhenIdle` | SampleHardwareEventCredentialProvider/include/mysql/psi/mysql_thread.h:846-1084 | in fully instrumented runs the report and the real lock agree, count by count, about every thread outside a call |
| `SkipSpace.SkipTrailingSpace` | SampleHardwareEventCredentialProvider/include/m_string.h:254-278 | the result is the end of what the naive backward loop leaves, for every address, length, content, word size 4 or 8, pointer size and byte order; every byte and word read lies in the text and every word read is aligned; a text longer than 20 takes at most len/w + 2(w-1) iterations |
| `SkipSpace.SkipLong` | SampleHardwareEventCredentialProvider/include/m_string.h:258-274 | the branch for long texts removes only spaces and leaves less than a word for the byte loop |
| `SkipSpace.ScanWords` | SampleHardwareEventCredentialProvider/include/m_string.h:270-272 | the word loop keeps `end` word-aligned, removes only words of spaces and stops at a word with another byte or at the first word |
| `SkipSpace.WordCompare` | SampleHardwareEventCredentialProvider/include/m_string.h:211-218 | comparing a word with SPACE_INT is comparing each of its bytes with a space |
| `SkipSpace.SpaceIntIsSpaces` | SampleHardwareEventCredentialProvider/include/m_string.h:211-218 | SPACE_INT is the word all of whose bytes are 0x20 |
| `SkipSpace.EndWordsRounds` | SampleHardwareEventCredentialProvider/include/m_string.h:260-261 | end_words is the last multiple of the word size up to end, through the sign-extending casts |
| `SkipSpace.StartWordsRounds` | SampleHardwareEventCredentialProvider/include/m_string.h:262-263 | start_words is the first multiple of the word size from ptr on, through the same casts |
| `SkipSpace.TrimShortest` | SampleHardwareEventCredentialProvider/include/m_string.h:275-277 | the naive loop returns the shortest prefix after which there are only spaces |
| `SkipSpace.TrimSuffix` | SampleHardwareEventCredentialProvider/include/m_string.h:275-277 | removing spaces from the end first does not change the result of the naive loop |
| `Align.MyAlignExactly` | SampleHardwareEventCredentialProvider/include/my_global.h:807 | for every power of two MY_ALIGN gives the least multiple not below A if and only if A + L - 1 does not overflow; then it equals rounding up by division, and otherwise it gives 0 |
| `Align.RoundUpLeast` | SampleHardwareEventCredentialProvider/include/m_string.h:262-263 | rounding up by divide and multiply gives the least multiple not below, for every divisor |
| `Rint.RintInPlace` | SampleHardwareEventCredentialProvider/include/my_global.h:1141-1158 | every floating-point step of rint is exact, the casts to longlong are in range, and the result is an integral double |
| `Rint.RintTiesToEven` | SampleHardwareEventCredentialProvider/include/my_global.h:1131-1158 | for every finite double, rint is roundToIntegralTiesToEven of section 5.9 of IEEE 754-2008, and nothing else is |
| `Rint.GuardNeverDecides` | SampleHardwareEventCredentialProvider/include/my_global.h:1145-1156 | without the MAX_EXACT_INTEGER guards rint would return the same for every finite double |
| `Rint.IntegerOrSmall` | SampleHardwareEventCredentialProvider/include/my_global.h:1127-1128 | every finite double is an integer or less than 2^52 in magnitude |
| `Rint.TruncIsDouble` | SampleHardwareEventCredentialProvider/include/my_global.h:1144 | the integral part is a double, and where there is a fraction so are its two neighbours |
| `Rint.Monotone` | SampleHardwareEventCredentialProvider/include/my_global.h:1141-1158 | rint never reverses an order |
| `Rint.Odd` | SampleHardwareEventCredentialProvider/include/my_global.h:1149-1156 | rint(-x) = -rint(x): the negative branch, with its truncating remainder, mirrors the positive one |
| `Rint.Idempotent` | SampleHardwareEventCredentialProvider/include/my_global.h:1141-1158 | rint of a rounded value is that value |
| `UlongLong.TruncatesExactly` | SampleHardwareEventCredentialProvider/include/my_global.h:678-685 | for every double and rounding mode for which the casts are defined, my_double2ulonglong drops the fraction exactly if and only if the double is below 2^64; from there on it wraps around |
| `UlongLong.MinusTwo63IsDouble` | SampleHardwareEventCredentialProvider/include/my_global.h:680 | the subtraction of 2^63 is exact for every double from 2^63 on, up to 2^65 |
| `UlongLong.ConvertedExactly` | SampleHardwareEventCredentialProvider/include/my_global.h:668-674 | my_ulonglong2double returns every integer exactly that is a double, in spite of its two roundings |
| `UlongLong.ConvertedToNeighbour` | SampleHardwareEventCredentialProvider/include/my_global.h:668-674 | for every integer below 2^64 the result is a double with no other double between it and the integer, in any rounding mode and in spite of the two roundings |
| `UlongLong.RoundTripExactly` | SampleHardwareEventCredentialProvider/include/my_global.h:668-685 | an unsigned 64-bit integer survives the way to a double and back if and only if it is a double itself |
| `Timespec.Posix.Set` | SampleHardwareEventCredentialProvider/include/my_pthread.h:440-445 | the deadline is normalised and is exactly the one asked for if and only if clock and delay add up within 64 bits; otherwise it is 2^64 units of 100 ns early |
| `Timespec.PosixExactly` | SampleHardwareEventCredentialProvider/include/my_pthread.h:440-445 | the same about the specification: the ns asked for, modulo 2^64 units, in normalised form |
| `Timespec.CmpIsSign` | SampleHardwareEventCredentialProvider/include/my_pthread.h:466-471 | on normalised values cmp_timespec is the sign of the exact difference |
| `Timespec.CmpIsSignExactly` | SampleHardwareEventCredentialProvider/include/my_pthread.h:466-471 | on any values it compares the seconds and then the nanoseconds, which is that sign if and only if the nanoseconds do not make up for the difference of the seconds |
| `Timespec.CmpTotalOrder` | SampleHardwareEventCredentialProvider/include/my_pthread.h:466-471 | cmp_timespec is a total order on normalised values |
| `Timespec.DiffExactly` | SampleHardwareEventCredentialProvider/include/my_pthread.h:481-483 | diff_timespec is the exact difference modulo 2^64; read as signed, it is the exact difference if and only if that fits 64 bits |
| `Timespec.Windows.Set` | SampleHardwareEventCredentialProvider/include/my_pthread.h:108-111 | the 100 ns count is the deadline asked for with less than 100 ns cut off if and only if delay and sum fit 63 bits; the timeout is the delay in ms if and only if that fits a 32-bit long, and is it modulo 2^32 otherwise |
| `Timespec.WindowsTruncates` | SampleHardwareEventCredentialProvider/include/my_pthread.h:108-111 | the Windows deadline is the one asked for with less than 100 ns cut off |
| `Timespec.WindowsWraps` | SampleHardwareEventCredentialProvider/include/my_pthread.h:108-111 | the Windows deadline for any delay: a sum that does not fit wraps around, and a delay of 2^63 ns or more counts as 2^64 ns less, rounded up |
| `Timespec.WindowsExactly` | SampleHardwareEventCredentialProvider/include/my_pthread.h:128-133 | on Windows cmp_timespec is the sign of the difference in units, and diff_timespec that difference in ns if and only if it fits |
| `Timespec.WindowsCoarsens` | SampleHardwareEventCredentialProvider/include/my_pthread.h:108-133 | the Windows flavour never reverses an order of POSIX deadlines, orders deadlines 100 ns or more apart in the same way, and keeps every difference to within 100 ns |
| `Timespec.DiffsAgree` | SampleHardwareEventCredentialProvider/include/my_pthread.h:132-133 | the two diff_timespec macros agree to within 100 ns when the differences fit |
| `Korr.UnsignedLoads` | SampleHardwareEventCredentialProvider/include/byte_order_generic.h:35-63 | uint2korr to uint8korr are the little-endian number of the bytes they read, and need no further bytes |
| `Korr.SignedLoads` | SampleHardwareEventCredentialProvider/include/byte_order_generic.h:20-34 | sint2korr to sint8korr are the two's complement of the bytes they read, whether char is signed or not, and need no further bytes |
| `Korr.Sint3IsSigned` | SampleHardwareEventCredentialProvider/include/byte_order_generic.h:22-29 | or-ing 255 on top of three bytes extends the sign from bit 23 |
| `Korr.Int4NetReverses` | SampleHardwareEventCredentialProvider/include/my_byteorder.h:24-27 | int4net is the signed 4-byte load of the reversed bytes (network order, Appendix B of RFC 791) |
| `Korr.NativeLoadsAgree` | SampleHardwareEventCredentialProvider/include/byte_order_generic_x86_64.h:19-46 | the bytewise loads give the number whose native store leaves the bytes read, for all bytes |
| `Korr.Int2Store` | SampleHardwareEventCredentialProvider/include/byte_order_generic.h:64-67 | changes exactly two bytes, to the little-endian value modulo 2^16 |
| `Korr.Int3Store` | SampleHardwareEventCredentialProvider/include/byte_order_generic.h:68-72 | the same for three bytes |
| `Korr.Int4Store` | SampleHardwareEventCredentialProvider/include/byte_order_generic.h:73-77 | the same for four bytes |
| `Korr.Int5Store` | SampleHardwareEventCredentialProvider/include/byte_order_generic.h:78-83 | the same for five bytes |
| `Korr.Int6Store` | SampleHardwareEventCredentialProvider/include/byte_order_generic.h:84-90 | the same for six bytes |
| `Korr.Int8Store` | SampleHardwareEventCredentialProvider/include/byte_order_generic.h:91-95 | two 4-byte stores of the halves change exactly eight bytes, to the little-endian value modulo 2^64 |
| `Korr.X86Int2Store` | SampleHardwareEventCredentialProvider/include/byte_order_generic_x86.h:48 | the native 2-byte store leaves the same memory as the bytewise one |
| `Korr.X86Int3Store` | SampleHardwareEventCredentialProvider/include/byte_order_generic_x86.h:49-52 | so does the 3-byte store that takes its middle byte through uint |
| `Korr.X86Int4Store` | SampleHardwareEventCredentialProvider/include/byte_order_generic_x86.h:53 | so does the native 4-byte store |
| `Korr.X86Int8Store` | SampleHardwareEventCredentialProvider/include/byte_order_generic_x86.h:67 | so does the native 8-byte store |
| `Korr.LoadAfterStore` | SampleHardwareEventCredentialProvider/include/byte_order_generic.h:20-95 | every load macro undoes the store of its width, modulo 2^(8n) unsigned and in two's complement signed, for every v and everywhere in a buffer, its end included |
| `Korr.StoredBytes` | SampleHardwareEventCredentialProvider/include/byte_order_generic.h:64-95 | a store changes the n bytes at p and no others |
| `Korr.KeptExactly` | SampleHardwareEventCredentialProvider/include/byte_order_generic.h:20-95 | reading back gives v itself if and only if v is in the range of the field, unsigned or signed |
| `Korr.StoreFields` | SampleHardwareEventCredentialProvider/include/byte_order_generic.h:64-95 | storing fields back to back with the macros of their widths leaves their bytes one behind the other, and the rest of the buffer as it was |
| `Korr.FieldsRoundTrip` | SampleHardwareEventCredentialProvider/include/byte_order_generic.h:20-95 | any list of signed and unsigned fields laid out back to back reads back with the load macros as the same list, each value reduced to its field |
| `Korr.FieldsKeptExactly` | SampleHardwareEventCredentialProvider/include/byte_order_generic.h:20-95 | what was stored in a buffer reads back as the same values if and only if every value is in the range of its field |
| `FloatFormat.BigFloat4Store` | SampleHardwareEventCredentialProvider/include/big_endian.h:19-22 | writes the four bytes of the number in memory in reverse and nothing else |
| `FloatFormat.BigFloat8Store` | SampleHardwareEventCredentialProvider/include/big_endian.h:31-38 | the same for eight bytes |
| `FloatFormat.BigFloat4Get` | SampleHardwareEventCredentialProvider/include/big_endian.h:24-29 | reverses the four bytes read |
| `FloatFormat.BigFloat8Get` | SampleHardwareEventCredentialProvider/include/big_endian.h:40-49 | reverses the eight bytes read |
| `FloatFormat.LittleFloatStore` | SampleHardwareEventCredentialProvider/include/little_endian.h:22-24 | copies the bytes of the number |
| `FloatFormat.MixedDoubleStore` | SampleHardwareEventCredentialProvider/include/little_endian.h:28-36 | writes the two words of the double in the other order |
| `FloatFormat.MixedDoubleGet` | SampleHardwareEventCredentialProvider/include/little_endian.h:37-46 | puts the two words read in the other order |
| `FloatFormat.X86DoubleStore` | SampleHardwareEventCredentialProvider/include/byte_order_generic_x86.h:68-85 | storing a double as two longs copies its bytes |
| `FloatFormat.X86DoubleGet` | SampleHardwareEventCredentialProvider/include/byte_order_generic_x86.h:68-85 | loading a double as two longs copies its bytes |
| `FloatFormat.HostsAgree` | SampleHardwareEventCredentialProvider/include/little_endian.h:20-55 | big-, little- and mixed-endian hosts store the same bytes for the same bit pattern, and each host's get undoes them |
| `FloatFormat.RepInjective` | SampleHardwareEventCredentialProvider/include/little_endian.h:20-55 | different bit patterns have different bytes, on every host |
| `FloatFormat.RepDigits` | SampleHardwareEventCredentialProvider/include/big_endian.h:19-49 | the bytes of each host: most significant first on a big-endian one, last on a little-endian one, halves of a double exchanged on a mixed one |
| `FloatFormat.GetIsTotal` | SampleHardwareEventCredentialProvider/include/little_endian.h:20-55 | whatever bytes a get reads, it produces the host's representation of the number they spell |
| `FloatFormat.CrossHost` | SampleHardwareEventCredentialProvider/include/big_endian.h:19-49 | a number that any host wrote anywhere in a buffer is the only number that any other host can read there |
| `FloatFormat.BigShortStore` | SampleHardwareEventCredentialProvider/include/big_endian.h:67-69 | shortstore writes the two low-order bytes of v in the order of the machine |
| `FloatFormat.BigLongStore` | SampleHardwareEventCredentialProvider/include/big_endian.h:70-73 | longstore writes the four low-order bytes of v in the order of the machine |
| `FloatFormat.BigLongGet` | SampleHardwareEventCredentialProvider/include/big_endian.h:55-60 | longget copies the bytes of the machine's int32 |
| `FloatFormat.BigShortRoundTrip` | SampleHardwareEventCredentialProvider/include/big_endian.h:53-69 | shortget undoes shortstore on big-endian hosts, for values of either sign |
| `IoCache.ReadCache.MyBRead` | SampleHardwareEventCredentialProvider/include/my_sys.h:538-542 | a read of count bytes is a buffer hit or a call of read_function, never both, and returns 0 exactly when all bytes were delivered |
| `IoCache.ReadCache.MyBGet` | SampleHardwareEventCredentialProvider/include/my_sys.h:550-553 | the next byte, or my_b_EOF exactly when there is none |
| `IoCache.ReadCache.MyBFillCache` | SampleHardwareEventCredentialProvider/include/my_sys.h:561-562 | refills without moving the position in the file; afterwards something is left to be read from the buffer, or the file is at its end |
| `IoCache.ReadCache.MyBTell` | SampleHardwareEventCredentialProvider/include/my_sys.h:564-565 | the file position of the next byte to be read |
| `IoCache.ReadCache.BytesInCache` | SampleHardwareEventCredentialProvider/include/my_sys.h:577-578 | the bytes counted as in the cache are those of the file from my_b_tell on |
| `IoCache.ReadCache.ReadFunction` | SampleHardwareEventCredentialProvider/include/my_sys.h:443-451 | a loop of refills that meets the contract of read_function |
| `IoCache.StepReadsFile` | SampleHardwareEventCredentialProvider/include/my_sys.h:538-562 | hit or miss, one call delivers what the plain file has at the old position, moves the position by as much and leaves the buffer equal to the file |
| `IoCache.MissesExactly` | SampleHardwareEventCredentialProvider/include/my_sys.h:443-451 | read_function is called if and only if the data is not all in the buffer, or to fill it, for which nothing is left in the buffer; otherwise the buffer stays as it is |
| `IoCache.CacheReadsLikeFile` | SampleHardwareEventCredentialProvider/include/my_sys.h:538-565 | every run of my_b_read, my_b_get and my_b_fill_cache answers call by call like the plain file; the bytes delivered are one slice of it; my_b_tell ends at the start plus their number; in every state the buffer equals the file at pos_in_file |
| `IoCache.WriteCache.MyBWrite` | SampleHardwareEventCredentialProvider/include/my_sys.h:544-548 | a write is appended to the buffer if it fits and passed to write_function otherwise; the result is 0 unless that fails, and write_pos stays in range either way |
| `IoCache.WriteCache.MyBWriteByte` | SampleHardwareEventCredentialProvider/include/my_sys.h:556-559 | the byte is stored at write_pos, after a flush if the buffer is full and whether or not that succeeds; write_pos stays in range if and only if the buffer was not full, or the flush made room |
| `IoCache.WriteCache.MyBTell` | SampleHardwareEventCredentialProvider/include/my_sys.h:564-565 | the file position of the next byte to be written |
| `IoCache.WriteCache.WriteFunction` | SampleHardwareEventCredentialProvider/include/my_sys.h:452-456 | a loop of flushes that meets the contract of write_function, and may fail when the file is full |
| `IoCache.StepWritesFile` | SampleHardwareEventCredentialProvider/include/my_sys.h:544-559 | buffered or successfully flushed, one call writes its data at the old position and nothing else, and write_pos stays within the buffer, wherever write_end is moved |
| `IoCache.FlushesExactly` | SampleHardwareEventCredentialProvider/include/my_sys.h:452-456 | write_function is called if and only if the data does not fit before write_end; otherwise the file stays as it is |
| `IoCache.CacheWritesLikeFile` | SampleHardwareEventCredentialProvider/include/my_sys.h:544-565 | after every run of my_b_write and my_b_write_byte without a failed flush, file and buffer together are the old content with everything written laid over it, nothing lost or twice; my_b_tell counts the bytes written; write_pos never passes write_end |
| `IoCache.StaysInBufferExactly` | SampleHardwareEventCredentialProvider/include/my_sys.h:544-559 | for every run, flushes failing anywhere: write_pos stays within write_end all along if and only if no my_b_write_byte finds write_pos at write_end while the flush fails and makes no room |
| `IoCache.SafeCallExactly` | SampleHardwareEventCredentialProvider/include/my_sys.h:544-559 | before a call: whatever write_function does, write_pos stays within write_end if and only if the call is not a my_b_write_byte with write_pos == write_end |
| `IoCache.CheckedRunsAreSafe` | SampleHardwareEventCredentialProvider/include/my_sys.h:544-559 | a run that calls my_b_write_byte only with write_pos < write_end stays within the buffer, however many flushes fail |
| `IoCache.FailedFlushOverruns` | SampleHardwareEventCredentialProvider/include/my_sys.h:555-559 | a full buffer of one byte and a failing flush: my_b_write_byte leaves write_pos behind write_end |
| `PsiFile.Files.Instrumented` | SampleHardwareEventCredentialProvider/include/mysql/psi/mysql_file.h:525-786 | a wrapper asks for a locker, brackets the real call with start and end events if it gets one, and returns the real result |
| `PsiFile.Files.Fopen` | SampleHardwareEventCredentialProvider/include/mysql/psi/mysql_file.h:798-838 | fopen allocates, opens within a bracket, frees and returns NULL if the open failed, and otherwise returns a structure with the opened file |
| `PsiFile.Files.Fclose` | SampleHardwareEventCredentialProvider/include/mysql/psi/mysql_file.h:840-869 | fclose closes within a bracket, then frees; NULL is ignored with result 0 |
| `PsiFile.Files.Feof` | SampleHardwareEventCredentialProvider/include/mysql/psi/mysql_file.h:713-717 | feof is not instrumented |
| `PsiFile.Files.CreateTemp` | SampleHardwareEventCredentialProvider/include/mysql/psi/mysql_file.h:1011-1029 | create_temp sends one event after the call, without a bracket |
| `PsiFile.Transparent` | SampleHardwareEventCredentialProvider/include/mysql/psi/mysql_file.h:525-1416 | for every run and every pattern of lockers, erasing the events leaves exactly the calls, arguments, results and open handles of the build without instrumentation |
| `PsiFile.BracketsMatch` | SampleHardwareEventCredentialProvider/include/mysql/psi/mysql_file.h:525-1416 | over every run every real call but feof and create_temp asks for a locker, once; with one it has a start event before and an end event after it, of the pair that belongs to the call and with the size and result that belong there; without, it has none; create_temp is followed by its event |
| `PsiFile.LockersUsed` | SampleHardwareEventCredentialProvider/include/mysql/psi/mysql_file.h:525-1416 | the brackets of a run are those of the calls that got a locker, in their order |
| `PsiFile.HandlesKeepHooks` | SampleHardwareEventCredentialProvider/include/mysql/psi/mysql_file.h:798-838 | after every run an open handle holds the file that its fopen opened and the hook that end_file_open_wait returned, and no hook if it got no locker |
| `PsiFile.FilesMatchHandles` | SampleHardwareEventCredentialProvider/include/mysql/psi/mysql_file.h:798-869 | over every run a structure is freed right after its own file is closed, or if none was opened for it, and the files opened and not closed are those of the open handles |
| `PsiFile.StructuresBalance` | SampleHardwareEventCredentialProvider/include/mysql/psi/mysql_file.h:798-869 | over every run each structure is freed exactly once and never while unallocated, the structures in use are the open handles, and their number is the successful opens minus the closes of a handle |
| `PsiFile.NabpExactly` | SampleHardwareEventCredentialProvider/include/my_sys.h:72-73 | flags & (MY_NABP or MY_FNABP) sees bit 1 or bit 2 and no other |
| `PsiFile.MovedForAnyResult` | SampleHardwareEventCredentialProvider/include/mysql/psi/mysql_file.h:886-891 | the bytes reported for any flags and any result |
| `PsiFile.MovedExactly` | SampleHardwareEventCredentialProvider/include/mysql/psi/mysql_file.h:886-891 | under the return convention of those two bits the bytes reported are those of a successful transfer and 0 for a failed one, unless 2^64 - 1 bytes were moved and returned as a count, exactly |
| `PsiFile.BytesAddUp` | SampleHardwareEventCredentialProvider/include/mysql/psi/mysql_file.h:871-1205 | over every run of fread, fwrite, read, write, pread and pwrite the end events add up to the bytes of the successful transfers and never exceed the bytes requested |
| `PsiFile.StreamReports` | SampleHardwareEventCredentialProvider/include/mysql/psi/mysql_file.h:525-684 | fgetc, fputc, fputs, fprintf and vfprintf report the right number of bytes if and only if the call did not fail, or had nothing to write; a failed one reports its full size or, for fprintf, 2^64 plus the result |
| `PsiFile.FgetsReports` | SampleHardwareEventCredentialProvider/include/mysql/psi/mysql_file.h:525-549 | fgets reports the number of bytes read if and only if none of them is 0, and the number before the first 0 otherwise |
| `PsiFile.FgetsStopsAtNul` | SampleHardwareEventCredentialProvider/include/mysql/psi/mysql_file.h:525-549 | of the four bytes 61 00 62 0A read, one is reported |

## Left out

- InstrumentedMutex.MysqlMutex.LockOrTry: source file and line, the SAFE_MUTEX and fast-mutex variants, which send the same events in the same order, and recursive mutexes.
- InstrumentedMutex.MysqlMutex.CondWait: the deadline and operation code of timedwait, which runs like wait.
- InstrumentedRwlock.MysqlRwlock.LockOrTry: which waiting thread the lock prefers; the bodies of `my_rw_...` and `rw_pr_...` are not part of this model.
- PsiFile.Files.Instrumented: file names, buffers and keys, which the wrappers only pass on, operation codes, whether a locker is asked for by name, stream or descriptor, and the binding of a descriptor to its file in the performance schema.
- PsiFile.BytesAddUp: transfers of 2^64 - 1 bytes, whose count is the error value; `MovedExactly` states when that matters.
- PsiFile.FgetsReports: bytes that fgets consumed before an error made it return NULL, of which the wrapper sees nothing.
- Rint.RintInPlace: NaN, infinities and the sign of zero.
- UlongLong.TruncatesExactly: doubles for which C leaves the casts undefined.
- IoCache.ReadCache.ReadFunction: I/O errors of the file, disk counters and callbacks; the bytes for the caller's buffer are a result instead of being copied there.
- IoCache.WriteCache.WriteFunction: I/O errors other than a full file, and what is left in file and buffer after one.
- IoCache.CacheWritesLikeFile: the content after a failed flush, about which the field comments promise nothing; `StaysInBufferExactly` covers such runs.
- IO_CACHE kinds other than READ_CACHE and WRITE_CACHE: append, shared, asynchronous and network caches have their own slow paths, not part of this model.
- Timespec.Posix.Set: a `time_t` of 32 bits, which would truncate the seconds.
- FloatFormat: `ushortget`, `ulongget` and the plain `memcpy` forms for machine format, which repeat modelled ones.
- `mysql_socket.h`, `mysql_table.h`, `mysql_statement.h`: the same bracketing around network and engine calls.
- The implementation of the performance schema, its timers and classes of instruments.
- The credential provider itself: COM classes, user interface, HTTP and Windows calls.
- APIs that are only declared: key cache, decimals, lists, memory roots, XML, network.
- Error codes, character sets, plugin and configuration macros: data only.

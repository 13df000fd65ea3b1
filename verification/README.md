# Proofs about an FPGA image-encryption camera

The repository is a camera system on an FPGA: a circuit that captures, encrypts
and decrypts a picture, a bus master that sets up the camera, a processor that
takes keys from a keyboard and hands them to the circuit, and the board support
package that the processor's programs run on. This project models its state
machines in Dafny and proves what they keep, over every run.

| files | what they model |
|---|---|
| `ImageCipher`, `ImageWords`, `ImageEngine`, `ImageRuns`, `ImageIdle`, `ImageHardware` | the encryption engine: row and column rotation, quadrant exchange and masking of a 640 by 480 picture, in place, one memory access at a time; what that makes of every bit; and what the engine does between operations |
| `JtagUart` | the interrupt-driven JTAG UART driver: two rings shared between foreground routines and interrupts that may strike between any two accesses |
| `AlarmTime`, `AlarmList`, `AlarmTick`, `AlarmRuns`, `AlarmWalk`, `AlarmClock` | alarms on a 32-bit tick counter, in an intrusive circular list walked while callbacks change it: one alarm's arithmetic, the list, one tick, many ticks, the walk by saved links, and the routines in place |
| `FileTable`, `FileLaws`, `FileDescriptors` | the file descriptor table and exclusive device locks |
| `KeyHandshake` | the handshake by which the processor passes keys to the circuit |
| `SccbMaster`, `SccbRuns`, `SccbRegisters`, `SccbHardware` | the bit-serial master of the Serial Camera Control Bus, heard by a slave on two wires |
| `CameraVram`, `CameraHardware` | camera capture into three memory banks, and their reading for the display |
| `LogFormat` | the integer conversions of the logging printf |
| `WallClock` | setting and reading the wall clock |
| `Heap`, `CallGraph`, `HeapProfiler` | the heap's two allocators and the call graph linked out of their blocks |
| `DivMod`, `Bits`, `Options` | division by variable divisors; the bits of a word; values that may be missing |

Each routine or circuit that changes state is a class or method that updates
arrays, fields or a map in place. Its contract ties the new state to a
specification function or states outright what it leaves; the lemmas are about
those functions and about whole runs of them. A circuit's clock edge is one call
of `Clock`; its registers hold bounded naturals, and wrap where theirs do.

## Where the code differs from what is said of it

- The lock routine says a granted lock means no other descriptor of the device
  is open. Its scan stops short of the highest descriptor, so that is false;
  `LockBesideAnOpenDescriptor` shows it and `GrantedLockIsSole` says exactly
  when it holds. That at most one descriptor holds a device is true all the same.
- An alarm's interval may be any 32-bit number by its type; the longest one fires
  at the next tick, `StartDue` says exactly when. Called back late, an alarm need
  not come back when its callback asks: it may be one tick early or 2^32 ticks
  late, as `LateAlarmRingsEarly` and `LateAlarmMissesAnEpoch` show; `RearmDue`
  says exactly when it does, and `RingsExactly` that all others always do.
- The tick routine saves the next alarm before a callback, so that the callback
  may stop its own alarm. If it stops the saved one, that alarm's link leads to
  itself and the walk never leaves it; `TrapExactly` says exactly when.
- Setting the clock multiplies in 32 bits and reading it in 64, neither knows of
  wraps of the tick counter, and a tick is rounded to whole microseconds but
  seconds are not, so the clock does not always show what it was set to;
  `ReadsWhatWasSet` says exactly when. At 1,024 ticks to the second, for one, it
  is almost a second ahead after the first, as `OneSecondOn` says.
- The longest finite host timeout is never reached, because the silence is counted
  to a cap below it; `Connected` says so.
- The profiler's allocator does not look at the answer of the heap's; when the
  heap is exhausted it hands out memory it does not have, as `AllocateExactly` says.
- A comment in the bus master says the first twenty register writes are used. The
  twenty counts a pause; all rows but the last are sent. So the camera's COM7
  stays at 0x04 and is never set to 0x14, as `HeardIsSetUp` says.
- The third key is said to be three characters; the counter moves by eight and
  only one is stored.
- The image engine's first selected block covers seven lines, later ones begin
  one line early, because a counter is incremented before it is tested. The
  selection is the same both ways, so decryption still restores the picture.
- The display reads memory that answers two clocks late but selects the bank by
  the present address, so four pixels come from the wrong bank.
- A failed open is meant to leave no trace. It clears the flags of the free
  descriptor it tried, and raises the high-water mark to it, which may decide a
  later lock of another device: `FailedOpenDropsModes` and `FailedOpenRefusesLock`
  show both from reset, and `FailedOpenRestores` says exactly when there is no trace.

## Model

| member | source | states |
|---|---|---|
| `ImageCipher.LastLineNeverSelected` | 395Project_Codes_Quartusii/Image_mod.sv.bak:791-816 | row 479 and column 639 are rotated under no key |
| `ImageCipher.SelectedInBlock` | 395Project_Codes_Quartusii/Image_mod.sv.bak:791-816 | the lines the block counter walks over while key bit b is current are exactly the selected ones: seven in the first selected block, and later blocks begin one line early |
| `ImageCipher.NextBlockStart` | 395Project_Codes_Quartusii/Image_mod.sv.bak:791-816 | the line counter after block b: one short of the next multiple of eight once a block has been selected |
| `ImageCipher.MirroredRotationUndoes` | 395Project_Codes_Quartusii/Image_mod.sv.bak:959-1197 | for every image and key, the decryption rotation of all selected lines undoes the encryption rotation |
| `ImageCipher.MixTwice` | 395Project_Codes_Quartusii/Image_mod.sv.bak:524-656 | exchanging the two quadrants a key chooses, twice, is the identity, for each of the four choices |
| `ImageCipher.MaskTwice` | 395Project_Codes_Quartusii/Image_mod.sv.bak:393-520 | masking every pixel by column word and row word, twice, is the identity |
| `ImageCipher.DecryptUndoesEncrypt` | 395Project_Codes_Quartusii/Image_mod.sv.bak:225-281 | for every SRAM content and every 80-bit key, the composed decryption phases restore it word for word |
| `ImageWords.SelectedExactly` | 395Project_Codes_Quartusii/Image_mod.sv.bak:791-816 | line n is rotated if and only if some set key bit b has it in its block, which is lines 8b to 8b + 6, and the line before too if a lower key bit is set |
| `ImageWords.RowRotated` | 395Project_Codes_Quartusii/Image_mod.sv.bak:701-817 | column x of a selected row gets the word of column (x + 8) % 640 when encrypting and of (x + 632) % 640 when decrypting; other rows stay |
| `ImageWords.ColumnRotated` | 395Project_Codes_Quartusii/Image_mod.sv.bak:820-958 | row y of a selected column gets the word of row (y + 8) % 480 when encrypting and of (y + 472) % 480 when decrypting; other columns stay |
| `ImageWords.Exchanged` | 395Project_Codes_Quartusii/Image_mod.sv.bak:524-656 | by key bits 24 and 48 the upper, left, lower or right two quadrants change places, coordinate by coordinate |
| `ImageWords.MaskedBit` | 395Project_Codes_Quartusii/Image_mod.sv.bak:393-520 | bit i of the masked word at (x, y) is the word's, combined with key bits 16 (x % 4) + i and 16 (y % 4) + i |
| `ImageWords.EncryptedBit` | 395Project_Codes_Quartusii/Image_mod.sv.bak:225-281 | every bit of the encrypted picture: which word of the picture it comes from and which two key bits it is combined with |
| `ImageWords.OutsideStays` | 395Project_Codes_Quartusii/Image_mod.sv.bak:225-281 | no word outside the picture is changed, either way |
| `ImageEngine.PassSkips` | 395Project_Codes_Quartusii/Image_mod.sv.bak:809-817 | a block whose key bit is clear moves the counters past its lines and leaves the image of the pass as specified |
| `ImageEngine.PassLoads` | 395Project_Codes_Quartusii/Image_mod.sv.bak:707-742 | one edge of filling the eight-word buffer keeps the line invariant; the buffer holds the first words of the line as read through the address registered an edge before |
| `ImageEngine.PassFetches` | 395Project_Codes_Quartusii/Image_mod.sv.bak:744-768 | the fetch edges bring in the word eight positions on, before it is overwritten |
| `ImageEngine.PassStored` | 395Project_Codes_Quartusii/Image_mod.sv.bak:770-789 | the store edge extends the rotated part of the line by exactly one word of the specified rotation, from memory or from the buffer |
| `ImageEngine.PassAdvances` | 395Project_Codes_Quartusii/Image_mod.sv.bak:791-805 | the advancing edge ends a line or a block as the specification does, including the early increment before the test |
| `ImageEngine.PassKeeps` | 395Project_Codes_Quartusii/Image_mod.sv.bak:701-1197 | every edge of all four rotation passes keeps: memory equals the specified rotation up to the current line and position |
| `ImageEngine.PassEnds` | 395Project_Codes_Quartusii/Image_mod.sv.bak:226-236 | when the block counter reaches 60 (rows) or 80 (columns) memory is the whole specified rotation of what the pass began with |
| `ImageEngine.MixKeeps` | 395Project_Codes_Quartusii/Image_mod.sv.bak:524-656 | every edge of the quadrant exchange keeps: memory equals the exchange of the first k words, with two words in flight |
| `ImageEngine.XorKeeps` | 395Project_Codes_Quartusii/Image_mod.sv.bak:393-520 | every edge of the two masking sweeps keeps: memory equals the first sweep by rows up to here, then the second by columns |
| `ImageEngine.StepKeeps` | 395Project_Codes_Quartusii/Image_mod.sv.bak:204-290 | every clock edge, in any phase and under any inputs, keeps the engine's invariant and says which image it now answers for |
| `ImageRuns.RunKeeps` | 395Project_Codes_Quartusii/Image_mod.sv.bak:176-290 | the invariant holds after any number of edges under any inputs, and says which image the engine then answers for, if the key changes only while the engine is idle |
| `ImageRuns.IdleRunKeepsImage` | 395Project_Codes_Quartusii/Image_mod.sv.bak:216-288 | while the engine shows, rests or generates keys, no run changes a word of the image |
| `ImageRuns.StepDescends` | 395Project_Codes_Quartusii/Image_mod.sv.bak:393-1197 | every edge of an operation strictly lowers a lexicographic measure of what is left to do |
| `ImageRuns.Finishes` | 395Project_Codes_Quartusii/Image_mod.sv.bak:225-281 | from anywhere inside an operation, under any inputs that keep the key until it is over, the engine reaches the resting phase, and when it first does the image is the encryption or decryption of the one it began with |
| `ImageRuns.CommandCompletes` | 395Project_Codes_Quartusii/Image_mod.sv.bak:216-281 | a command given while the image is shown is carried out in full whatever is pressed meanwhile but the key, and leaves exactly Encrypt or Decrypt of the image |
| `ImageRuns.EncryptThenDecrypt` | 395Project_Codes_Quartusii/Image_mod.sv.bak:216-281 | encrypt, wait idle for any time with the key switches free, decrypt with the same key: every word of the SRAM is what it was |
| `ImageHardware.Engine.Clock` | 395Project_Codes_Quartusii/Image_mod.sv.bak:176-1225 | one edge of the registers and the memory array, updated in place, is exactly the step the theorems are about |
| `ImageHardware.Engine.ClockFor` | 395Project_Codes_Quartusii/Image_mod.sv.bak:176-189 | clocked any number of times the circuit is where the specified run is |
| `ImageHardware.Engine.RoundTrip` | 395Project_Codes_Quartusii/Image_mod.sv.bak:176-290 | the registers and the memory array themselves, clocked through an encryption, an idle time and a decryption with the same key, end with the memory as it was |
| `ImageIdle.DisplayShows` | 395Project_Codes_Quartusii/Image_mod.sv.bak:1228-1245 | while the picture is shown, the data lines carry the word at the line and column asked for one edge before |
| `ImageIdle.CommandsOnly` | 395Project_Codes_Quartusii/Image_mod.sv.bak:216-224 | by the run button and the two switches: exactly which command begins encryption or decryption, which begins key generation, and which do nothing |
| `ImageIdle.RestsUntilShown` | 395Project_Codes_Quartusii/Image_mod.sv.bak:251-255 | after an operation the engine rests, with clear counters and writing nothing, until the run button is pressed with both switches on |
| `ImageIdle.KeysBegin` | 395Project_Codes_Quartusii/Image_mod.sv.bak:216-224 | the command that begins key generation, and that none has been delivered then |
| `ImageIdle.SevenSubkeys` | 395Project_Codes_Quartusii/Image_mod.sv.bak:653-696 | however long each subkey takes, key generation ends once exactly seven have been delivered, and not before |
| `ImageIdle.KeysCome` | 395Project_Codes_Quartusii/Image_mod.sv.bak:653-696 | it does end: thirty edges after it began, if every subkey is done when it is asked for |
| `JtagUart.RingSize` | 395Project_Codes_Quartusii/software/IOmodule_bsp/drivers/src/altera_avalon_jtag_uart_write.c:106-118 | equal indices mean an empty ring, a full one holds BUF_LEN - 1 bytes, and both directions of each test |
| `JtagUart.RingPublish` | 395Project_Codes_Quartusii/software/IOmodule_bsp/drivers/src/altera_avalon_jtag_uart_write.c:122-127 | moving the write index appends exactly the bytes stored in the slots it passes |
| `JtagUart.RingConsume` | 395Project_Codes_Quartusii/software/IOmodule_bsp/drivers/src/altera_avalon_jtag_uart_read.c:136-140 | moving the read index drops exactly the oldest n bytes, which are the ones copied from the slots |
| `JtagUart.WriteRoomIsFree` | 395Project_Codes_Quartusii/software/IOmodule_bsp/drivers/src/altera_avalon_jtag_uart_write.c:110-118 | the room the write routine computes from its three cases is all that is free up to the end of the buffer: it never reaches an unread slot, and is zero exactly when the ring is full |
| `JtagUart.ReadRunIsFilled` | 395Project_Codes_Quartusii/software/IOmodule_bsp/drivers/src/altera_avalon_jtag_uart_read.c:125-134 | the run the read routine computes is all that has been received up to the end of the buffer, and is zero exactly when the ring is empty |
| `JtagUart.Uart.ServeReceive` | 395Project_Codes_Quartusii/software/IOmodule_bsp/drivers/src/altera_avalon_jtag_uart_init.c:125-167 | under the driver invariant: pops until the device is drained or the ring is full, never without room, and turns receive interrupts off exactly if the ring was full from the start or the device had more to come at the last reading |
| `JtagUart.Uart.ServeTransmit` | 395Project_Codes_Quartusii/software/IOmodule_bsp/drivers/src/altera_avalon_jtag_uart_init.c:169-195 | sends exactly the oldest bytes the device has space for, and turns transmit interrupts off exactly when space is left over |
| `JtagUart.Uart.Isr` | 395Project_Codes_Quartusii/software/IOmodule_bsp/drivers/src/altera_avalon_jtag_uart_init.c:106-197 | any number of rounds of interrupt service keeps the invariant (bytes accepted = bytes sent + ring, bytes popped = bytes returned + ring, device enables = the driver's copy, no waiting byte without its interrupt); exactly as many of the oldest bytes go out as the rounds had space for, and if any was to receive, the device has been emptied or the ring filled |
| `JtagUart.Uart.Timeout` | 395Project_Codes_Quartusii/software/IOmodule_bsp/drivers/src/altera_avalon_jtag_uart_init.c:203-225 | host activity resets the silence count, silence raises it by one up to its cap; the invariant stays |
| `JtagUart.Uart.Preempt` | 395Project_Codes_Quartusii/software/IOmodule_bsp/drivers/src/altera_avalon_jtag_uart_init.c:106-225 | what any interrupts between two foreground accesses can change: only more sent and more received |
| `JtagUart.Uart.FillOnce` | 395Project_Codes_Quartusii/software/IOmodule_bsp/drivers/src/altera_avalon_jtag_uart_write.c:103-128 | one turn of the copying loop, interrupted anywhere, accepts the next n bytes of the data in order; zero only if the ring was full when the index was sampled |
| `JtagUart.Uart.AwaitData` | 395Project_Codes_Quartusii/software/IOmodule_bsp/drivers/src/altera_avalon_jtag_uart_read.c:173-174 | the spin of the read routine ends only with something arrived or the host silent past the timeout, with the same bound |
| `JtagUart.Uart.AwaitRoom` | 395Project_Codes_Quartusii/software/IOmodule_bsp/drivers/src/altera_avalon_jtag_uart_write.c:183-184 | the spin of the write routine ends only with something sent or the host silent past the timeout; if a presence callback sees no activity between any two polls it ends after at most timeout polls, unless the timeout is beyond the cap of the count |
| `JtagUart.Uart.WaitForRoom` | 395Project_Codes_Quartusii/software/IOmodule_bsp/drivers/src/altera_avalon_jtag_uart_write.c:131-189 | with the ring full when it was looked at, the call gives up only with more bytes sent since, or the host silent past the timeout at some moment, and some silence at the end |
| `JtagUart.Uart.Write` | 395Project_Codes_Quartusii/software/IOmodule_bsp/drivers/src/altera_avalon_jtag_uart_write.c:84-215 | under every interleaving the bytes accepted are a prefix of the data; short only from a ring found full, and a call that blocks only after waiting until more was sent or the host silent past the timeout; the count returned is the number accepted, each error exactly when none was; still waiting only after as many chances for interrupts as it was given, with the host not silent; a call that does not block never waits |
| `JtagUart.Uart.Read` | 395Project_Codes_Quartusii/software/IOmodule_bsp/drivers/src/altera_avalon_jtag_uart_read.c:101-203 | under every interleaving the bytes returned are the next received ones; fewer than asked only if all that had arrived were returned; each error exactly when there were none; an I/O error only if the ring is empty and the host was silent past the timeout at some moment of the call; a call that does not block never waits |
| `JtagUart.Uart.AwaitEmpty` | 395Project_Codes_Quartusii/software/IOmodule_bsp/drivers/src/altera_avalon_jtag_uart_init.c:247-251 | the spin of the close routine, with the same bound; it gives up only if bytes were waiting |
| `JtagUart.Uart.Close` | 395Project_Codes_Quartusii/software/IOmodule_bsp/drivers/src/altera_avalon_jtag_uart_init.c:241-254 | succeeds only with every accepted byte sent or the host silent past the timeout; would-block only when non-blocking, at once, with accepted bytes not yet sent and the host not silent; still waiting only so too, and only when blocking |
| `JtagUart.Uart.SetTimeout` | 395Project_Codes_Quartusii/software/IOmodule_bsp/drivers/src/altera_avalon_jtag_uart_ioctl.c:60-68 | refused without a presence alarm; from then on the host counts as silent if and only if that many callbacks in a row have seen no activity, and never with an out-of-range value, which asks for the longest finite timeout |
| `JtagUart.Uart.Connected` | 395Project_Codes_Quartusii/software/IOmodule_bsp/drivers/src/altera_avalon_jtag_uart_ioctl.c:70-77 | the host is reported gone exactly once timeout callbacks in a row have seen no activity, and never with the longest finite timeout, although the count of callbacks is capped; refused without a presence alarm |
| `AlarmList.List.Insert` | 395Project_Codes_Quartusii/software/IOmodule_bsp/HAL/inc/sys/alt_llist.h:90-98 | keeps the circle well formed in both directions and puts the entry at the front of the list |
| `AlarmList.List.Remove` | 395Project_Codes_Quartusii/software/IOmodule_bsp/HAL/inc/sys/alt_llist.h:105-117 | keeps the circle well formed and takes exactly that entry out; for an entry not on the list nothing changes |
| `AlarmTime.TickKeepsDue` | 395Project_Codes_Quartusii/software/IOmodule_bsp/HAL/src/alt_tick.c:94-115 | whatever its fields, the next tick fires an alarm exactly when it is due then, and otherwise leaves it due when it was, across any wrap of the counter |
| `AlarmTime.FiresWhenDue` | 395Project_Codes_Quartusii/software/IOmodule_bsp/HAL/src/alt_tick.c:94-139 | whatever its fields, an alarm left alone fires at the tick it is due and at none before |
| `AlarmTime.StartDue` | 395Project_Codes_Quartusii/software/IOmodule_bsp/HAL/src/alt_alarm_start.c:80-100 | an alarm started at tick T for n, any 32-bit number, is due at T + n + 1 if and only if n is not 2^32 - 1 or T is the last tick of an epoch; otherwise it is due at once |
| `AlarmTime.RearmDue` | 395Project_Codes_Quartusii/software/IOmodule_bsp/HAL/src/alt_tick.c:127-137 | an alarm called back, whose callback asks for c ticks, is due exactly c ticks on if and only if the counter shows its own time, or it is one tick late, asks for one tick and the epoch does not end; for every 32-bit c and across any wrap |
| `AlarmTime.StartPunctual` | 395Project_Codes_Quartusii/software/IOmodule_bsp/HAL/src/alt_alarm_start.c:80-100 | a newly started alarm is punctual, that is the counter will show its time when it is due, if and only if its interval is not the longest or it is the last tick of an epoch |
| `AlarmTime.DuePunctual` | 395Project_Codes_Quartusii/software/IOmodule_bsp/HAL/src/alt_alarm_start.c:80-100 | the counter shows the alarm's own time when it is due if and only if that time was still to come when it was set |
| `AlarmTime.LongestIntervalFiresAtOnce` | 395Project_Codes_Quartusii/software/IOmodule_bsp/HAL/src/alt_alarm_start.c:80-100 | the failing case: started at reset for 2^32 - 1 ticks, an alarm fires at the first tick |
| `AlarmTick.ActsDecide` | 395Project_Codes_Quartusii/software/IOmodule_bsp/HAL/src/alt_tick.c:66-141 | whatever other alarms' acts come in between, an alarm is listed and has the fields that the acts about it say, in order |
| `AlarmTick.StartedLast` | 395Project_Codes_Quartusii/software/IOmodule_bsp/HAL/src/alt_alarm_start.c:80-112 | an alarm that the acts of any callback start last is listed and due at its interval plus one from now, if and only if the interval is not the longest or it is the last tick of an epoch |
| `AlarmTick.StoppedLast` | 395Project_Codes_Quartusii/software/IOmodule_bsp/HAL/src/alt_tick.c:66-73 | an alarm that the acts of any callback stop last is off the list |
| `AlarmTick.WalkVisits` | 395Project_Codes_Quartusii/software/IOmodule_bsp/HAL/src/alt_tick.c:100-141 | over any list and any legal callbacks the walk visits the list in order, each alarm once, less exactly those stopped before their own turn |
| `AlarmTick.WalkFires` | 395Project_Codes_Quartusii/software/IOmodule_bsp/HAL/src/alt_tick.c:108-117 | called back are exactly the visited alarms that were due when the tick began, in order |
| `AlarmRuns.TickSettles` | 395Project_Codes_Quartusii/software/IOmodule_bsp/HAL/src/alt_tick.c:87-141 | what a tick leaves of every alarm: listed, due as started and punctual if the last act about it starts it (the exact condition for the longest interval included), off the list if the last stops it, otherwise as the acts about it say |
| `AlarmRuns.UntouchedTick` | 395Project_Codes_Quartusii/software/IOmodule_bsp/HAL/src/alt_tick.c:87-141 | one tick of a listed alarm no callback touches: called back exactly if due; if not, due when it was; if so, off the list, or listed and due as many ticks on as its callback asked if and only if it rearms on time |
| `AlarmRuns.PunctualTick` | 395Project_Codes_Quartusii/software/IOmodule_bsp/HAL/src/alt_tick.c:87-141 | a tick keeps an untouched punctual alarm punctual, and due again exactly as many ticks on as its callback asked |
| `AlarmRuns.LateAlarmRingsEarly` | 395Project_Codes_Quartusii/software/IOmodule_bsp/HAL/src/alt_tick.c:127-137 | a failing case: started at reset for 2^32 - 1 ticks, called back at tick 1, asking for two ticks: due again at tick 2 |
| `AlarmRuns.LateAlarmMissesAnEpoch` | 395Project_Codes_Quartusii/software/IOmodule_bsp/HAL/src/alt_tick.c:127-137 | the other: started one tick before the last of an epoch for 2^32 - 1 ticks, called back at the last, asking for one tick: due again 2^32 ticks later |
| `AlarmRuns.FiresAtItsTick` | 395Project_Codes_Quartusii/software/IOmodule_bsp/HAL/src/alt_tick.c:87-141 | over any number of ticks, a listed alarm no callback touches is called back at the tick it is due and at no tick before, whatever the other alarms' callbacks do |
| `AlarmRuns.RingsExactly` | 395Project_Codes_Quartusii/software/IOmodule_bsp/HAL/src/alt_tick.c:87-141 | the whole history of an untouched punctual alarm over any number of ticks and wraps: called back when due, then each time exactly as many ticks on as its callback asked, until it asks for none, and at no other tick |
| `AlarmRuns.RingsPeriodically` | 395Project_Codes_Quartusii/software/IOmodule_bsp/HAL/src/alt_tick.c:87-141 | over any number of ticks and wraps, an untouched punctual alarm whose callback always asks for c ticks is called back at exactly the ticks a multiple of c after the first |
| `AlarmWalk.LegalWalkEnds` | 395Project_Codes_Quartusii/software/IOmodule_bsp/HAL/src/alt_tick.c:100-141 | the walk by saved links reaches the head of the list, with the specified outcome, whenever no callback stops the alarm saved as next |
| `AlarmWalk.LegalTicksEnd` | 395Project_Codes_Quartusii/software/IOmodule_bsp/HAL/src/alt_tick.c:87-141 | over any number of such ticks every walk ends, and the state and the alarms called back are the specified ones |
| `AlarmWalk.PlainWalkEndsExactly` | 395Project_Codes_Quartusii/software/IOmodule_bsp/HAL/src/alt_tick.c:100-141 | if callbacks that stop the alarm saved as next stop it for good, the walk from the head of the list ends if and only if none of them does |
| `AlarmWalk.TrapExactly` | 395Project_Codes_Quartusii/software/IOmodule_bsp/HAL/src/alt_tick.c:100-141 | after any callback's acts the walk that goes on to the alarm saved as next ends if and only if the acts leave that alarm listed, stopped and started again or never stopped; if not it stays there for ever, whatever that alarm's own callback does but start it |
| `AlarmWalk.StoppingTheNextTraps` | 395Project_Codes_Quartusii/software/IOmodule_bsp/HAL/src/alt_tick.c:100-141 | the failing case: of two alarms the first is due and stops the second; round after round the walk serves the second |
| `AlarmClock.Clock.Start` | 395Project_Codes_Quartusii/software/IOmodule_bsp/HAL/src/alt_alarm_start.c:64-112 | each error case; otherwise, for every 32-bit interval, the alarm is at the front of the list, due at tick T + n + 1 and punctual if and only if the interval is not the longest or it is the last tick of an epoch, and nothing else changes |
| `AlarmClock.Clock.Stop` | 395Project_Codes_Quartusii/software/IOmodule_bsp/HAL/src/alt_tick.c:66-73 | takes exactly this alarm off the list, and changes no alarm's fields |
| `AlarmClock.Clock.Callback` | 395Project_Codes_Quartusii/software/IOmodule_bsp/HAL/src/alt_tick.c:117 | every start and stop a callback makes takes effect, in order: the list and all fields are exactly what the acts leave |
| `AlarmClock.Clock.Visit` | 395Project_Codes_Quartusii/software/IOmodule_bsp/HAL/src/alt_tick.c:102-140 | one round of the walk, exactly: called back if and only if the alarm has expired, then off the list if the callback returns zero, else rearmed |
| `AlarmClock.Clock.Tick` | 395Project_Codes_Quartusii/software/IOmodule_bsp/HAL/src/alt_tick.c:87-141 | whatever callbacks start and stop, the saved next alarm included, after any number of rounds the place in the walk, the list, all fields, and the alarms visited and called back are exactly those of the specified walk by saved links |
| `AlarmClock.Clock.Ticks` | 395Project_Codes_Quartusii/software/IOmodule_bsp/HAL/src/alt_tick.c:87-141 | any number of ticks that end, in place: the state and the alarms called back at each are exactly the specified ones |
| `FileTable.OpenExactly` | 395Project_Codes_Quartusii/software/IOmodule_bsp/HAL/src/alt_open.c:105-171 | a device opens if and only if a descriptor is free, nobody holds it and its driver agrees; the descriptor was free, is above 2, carries no lock bit from the caller's flags, and is all that changes |
| `FileTable.FailedOpenRestores` | 395Project_Codes_Quartusii/software/IOmodule_bsp/HAL/src/alt_open.c:158-166 | a failed open at any step leaves every descriptor's device; the high-water mark after it, exactly; its flags if and only if it tried no slot or one with clear flags; the whole table if and only if that slot is also at most the mark |
| `FileTable.FailedOpenRefusesLock` | 395Project_Codes_Quartusii/software/IOmodule_bsp/HAL/src/alt_get_fd.c:54-101 | the failing case, from reset: a failed open of another device raises the mark, and a lock that was to be had is then refused |
| `FileTable.FailedOpenDropsModes` | 395Project_Codes_Quartusii/software/IOmodule_bsp/HAL/src/alt_release_fd.c:44-51 | the failing case, from reset: modes set on a free descriptor are lost by an open that fails |
| `FileTable.LockExactly` | 395Project_Codes_Quartusii/software/IOmodule_bsp/HAL/src/alt_fd_lock.c:54-75 | the lock is granted if and only if every other descriptor of the device is the highest one; otherwise nothing changes |
| `FileTable.GrantedLockIsSole` | 395Project_Codes_Quartusii/software/IOmodule_bsp/HAL/src/alt_fd_lock.c:61-69 | a granted lock means no other descriptor of the device is open if and only if the highest descriptor is the holder or another device's |
| `FileTable.LockBesideAnOpenDescriptor` | 395Project_Codes_Quartusii/software/IOmodule_bsp/HAL/src/alt_fd_lock.c:61-69 | the failing case, from reset: two opens of a device, and the first is granted the lock beside the second |
| `FileTable.FcntlKeeps` | 395Project_Codes_Quartusii/software/IOmodule_bsp/HAL/src/alt_fcntl.c:66-101 | setting modes can neither forge nor clear a lock or device bit of any descriptor, and touches no other descriptor |
| `FileTable.SetModeBits` | 395Project_Codes_Quartusii/software/IOmodule_bsp/HAL/src/alt_fcntl.c:40-90 | exactly the two mode bits take the new value |
| `FileTable.RedirectKeeps` | 395Project_Codes_Quartusii/software/IOmodule_bsp/HAL/src/alt_io_redirect.c:58-72 | moving a freshly opened device onto a standard descriptor keeps the table's invariant |
| `FileTable.RunKeeps` | 395Project_Codes_Quartusii/software/IOmodule_bsp/HAL/src/alt_open.c:105-171 | the invariant over every run of open, close, ioctl, fcntl and redirect: used descriptors above 2 are at most the high-water mark, and a holder is below every other descriptor of its device |
| `FileTable.AtMostOneHolder` | 395Project_Codes_Quartusii/software/IOmodule_bsp/HAL/src/alt_fd_lock.c:54-75 | in every table reached from reset at most one descriptor holds a device, despite the strict bound of the scan |
| `FileTable.HeldThroughout` | 395Project_Codes_Quartusii/software/IOmodule_bsp/HAL/src/alt_fd_lock.c:38-52 | once granted a device stays with its holder over any run in which the holder does not let go, and every open of it fails |
| `FileTable.RunBalances` | 395Project_Codes_Quartusii/software/IOmodule_bsp/HAL/src/alt_release_fd.c:44-51 | over every run the descriptors in use grow by those handed out and shrink by those closed: none leaked, none handed out twice |
| `FileLaws.OpenAnswers` | 395Project_Codes_Quartusii/software/IOmodule_bsp/HAL/src/alt_open.c:105-171 | what open answers in every case: no such device, no free descriptor, device held, the driver's error, or success |
| `FileLaws.OpenedBits` | 395Project_Codes_Quartusii/software/IOmodule_bsp/HAL/src/alt_open.c:128-146 | an opened descriptor is the lowest free one; it has the device and the flags asked for, is marked as a device's exactly if it is, and is not locked; nothing else changes but the mark |
| `FileLaws.LockSets` | 395Project_Codes_Quartusii/software/IOmodule_bsp/HAL/src/alt_fd_lock.c:67-71 | a granted lock sets the top bit of its descriptor and changes nothing else |
| `FileLaws.ReleaseClears` | 395Project_Codes_Quartusii/software/IOmodule_bsp/HAL/src/alt_ioctl.c:130-137 | releasing a lock always succeeds, clears the top bit of its descriptor and changes nothing else |
| `FileLaws.ReleasedOpens` | 395Project_Codes_Quartusii/software/IOmodule_bsp/HAL/src/alt_fd_unlock.c:52-56 | once its holder has released it nobody holds the device, and it opens again if a descriptor is free and its driver agrees |
| `FileLaws.LockedThenReleased` | 395Project_Codes_Quartusii/software/IOmodule_bsp/HAL/src/alt_ioctl.c:106-168 | from reset: opened, locked, refused to another open, released, opened again |
| `FileLaws.DriverAnswers` | 395Project_Codes_Quartusii/software/IOmodule_bsp/HAL/src/alt_ioctl.c:138-168 | any other request changes nothing and gets the driver's answer, its error, or none if there is no routine |
| `FileLaws.FcntlAnswers` | 395Project_Codes_Quartusii/software/IOmodule_bsp/HAL/src/alt_fcntl.c:66-101 | asked for its modes a descriptor answers its flags without the two marks; told them it takes exactly two bits; any other command is an error |
| `FileLaws.CloseAnswers` | 395Project_Codes_Quartusii/software/IOmodule_bsp/HAL/src/alt_close.c:64-101 | the descriptor is free and clear afterwards whatever the driver answers, the three standard ones stay, and a holder's device is held by nobody |
| `FileLaws.RedirectExactly` | 395Project_Codes_Quartusii/software/IOmodule_bsp/HAL/src/alt_io_redirect.c:58-72 | if the device can be opened the standard descriptor has it, with the flags asked for and no lock, the descriptor it was opened on is free and clear and all others are as before; if not, only what a failed open leaves is left |
| `FileLaws.StartsUp` | 395Project_Codes_Quartusii/software/IOmodule_bsp/HAL/src/alt_io_redirect.c:86-98 | after start-up every standard stream whose device opens goes to it, the others still go to the null device, and no other descriptor is in use |
| `FileDescriptors.Descriptors.GetFd` | 395Project_Codes_Quartusii/software/IOmodule_bsp/HAL/src/alt_get_fd.c:54-101 | the loop finds the first free slot, gives it the device and raises the high-water mark |
| `FileDescriptors.Descriptors.TestLocked` | 395Project_Codes_Quartusii/software/IOmodule_bsp/HAL/src/alt_open.c:64-92 | marks the descriptor and finds a holder exactly if there is one up to the high-water mark |
| `FileDescriptors.Descriptors.OpenFile` | 395Project_Codes_Quartusii/software/IOmodule_bsp/HAL/src/alt_open.c:105-171 | the routine over the array is the specified open, with table and result |
| `FileDescriptors.Descriptors.Lock` | 395Project_Codes_Quartusii/software/IOmodule_bsp/HAL/src/alt_fd_lock.c:54-75 | the loop refuses exactly when the specified contention holds, and sets the bit otherwise |
| `FileDescriptors.Descriptors.Control` | 395Project_Codes_Quartusii/software/IOmodule_bsp/HAL/src/alt_ioctl.c:106-168 | lock requests go to the table for devices and to the driver otherwise, with each error case |
| `FileDescriptors.Descriptors.SetModes` | 395Project_Codes_Quartusii/software/IOmodule_bsp/HAL/src/alt_fcntl.c:66-101 | the routine over the array is the specified one, with table and result, each error case included |
| `FileDescriptors.Descriptors.CloseFile` | 395Project_Codes_Quartusii/software/IOmodule_bsp/HAL/src/alt_close.c:64-101 | the slot is released whether or not the driver fails; 0 to 2 never are |
| `FileDescriptors.Descriptors.RedirectTo` | 395Project_Codes_Quartusii/software/IOmodule_bsp/HAL/src/alt_io_redirect.c:58-72 | open, copy and release in place are the specified redirection, and nothing if the open fails |
| `FileDescriptors.Descriptors.RedirectStreams` | 395Project_Codes_Quartusii/software/IOmodule_bsp/HAL/src/alt_io_redirect.c:86-98 | output, input and error, in this order, redirected in place as specified |
| `KeyHandshake.AnyNumberIsOne` | 395Project_Codes_Quartusii/Key_Receiver.sv:22-118 | while the processor leaves its ports alone, any number of hardware clocks has the effect of one |
| `KeyHandshake.Link.SendByte` | 395Project_Codes_Quartusii/software/IOmodule/main.c:67-71 | with at least one hardware clock between accesses, passing a byte ends, stores it at the counter and moves the counter once |
| `KeyHandshake.Link.SendDiagonal` | 395Project_Codes_Quartusii/software/IOmodule/main.c:89-96 | of the three diagonal bytes only the first is stored, since the counter moves by eight |
| `KeyHandshake.Link.Session` | 395Project_Codes_Quartusii/software/IOmodule/main.c:34-107 | the whole exchange ends with row key, column key and command exactly as sent; any other command leaves the registers |
| `KeyHandshake.TestDecides` | 395Project_Codes_Quartusii/software/IOmodule/main.c:68-71 | if the hardware has not moved before the single test, no poll that sees it move ever succeeds; if it has, every one does: an if and only if |
| `KeyHandshake.ByteLost` | 395Project_Codes_Quartusii/software/IOmodule/main.c:68-71 | the failing case: no clock at all before the poll, and the last byte's answer passes for this one's; whatever clocks follow the counter does not move for it, and of it and the next byte only one is stored, in the one place |
| `SccbMaster.FrameDecodes` | 395Project_Codes_Quartusii/SCCB_master.sv:166-255 | for every register and value the 28 samples of a transmission decode to a write of exactly that register and value at address 0x42 |
| `SccbMaster.AddressDecodes` | 395Project_Codes_Quartusii/SCCB_master.sv:289-330 | the first samples of the read that follows decode to address 0x43 |
| `SccbMaster.SendingStep` | 395Project_Codes_Quartusii/SCCB_master.sv:166-255 | every clock of the three sending phases keeps: the samples heard so far are the frame so far, and the wire already shows the next |
| `SccbMaster.BreakIsStopStart` | 395Project_Codes_Quartusii/SCCB_master.sv:260-284 | the break is heard as exactly one stop and then one start |
| `SccbMaster.StableWhileClockHigh` | 395Project_Codes_Quartusii/SCCB_master.sv:166-255 | while a byte goes out the data wire moves only as the clock falls, and what is sampled was there before the clock rose |
| `SccbMaster.TransactionWrites` | 395Project_Codes_Quartusii/SCCB_master.sv:511-563 | from anywhere inside a transaction, whatever register and value are set, the slave ends with exactly one more write, theirs, after a known number of clocks, and has then heard the beginning of a read at address 0x43 |
| `SccbRuns.RunKeeps` | 395Project_Codes_Quartusii/SCCB_master.sv:132-505 | the joint invariant of master, wires and slave over every run, with any level on the released wire |
| `SccbRuns.HearsTableInOrder` | 395Project_Codes_Quartusii/SCCB_master.sv:364-428 | at every moment of every run the camera has heard the first rows of the table, once each and in order, and never row 0x3b |
| `SccbRuns.Finishes` | 395Project_Codes_Quartusii/SCCB_master.sv:500-561 | once started, the master comes to rest after an exact number of clocks and stays there, having sent rows 0x00 to 0x3a |
| `SccbRuns.RunCommandTellsTable` | 395Project_Codes_Quartusii/SCCB_master.sv:511-563 | within 8,240 clocks of the run command the whole table has been heard |
| `SccbRegisters.HeardIsSetUp` | 395Project_Codes_Quartusii/SCCB_master.sv:364-428 | with the table heard, every register of the camera holds the value of the last row that names it, listed register by register, and no other is touched |
| `SccbHardware.Master.Clock` | 395Project_Codes_Quartusii/SCCB_master.sv:119-507 | one edge of the registers in place is exactly the step the theorems are about |
| `SccbHardware.Master.TellTable` | 395Project_Codes_Quartusii/SCCB_master.sv:511-563 | the registers themselves, 8,240 clocks or more after the run command: a slave on their wires has heard the table and the master rests |
| `CameraVram.WriteIsFlat` | 395Project_Codes_Quartusii/Image_mod.sv:119-146 | three banks enabled by the top address bits are one flat memory of 196,608 words |
| `CameraVram.PixelStep` | 395Project_Codes_Quartusii/Image_mod.sv:274-305 | completing a pixel keeps: every address holds the latest pixel sent to it, as two bytes and masked in the right half only, or zero at the last address once the frame has run over, also when the line counter wraps |
| `CameraVram.CapturesFrame` | 395Project_Codes_Quartusii/Image_mod.sv:264-313 | after any clocks of a frame of any length the memory, with the write on its way, holds exactly the pixels completed so far and is otherwise untouched |
| `CameraVram.UsualFrame` | 395Project_Codes_Quartusii/Image_mod.sv:264-313 | up to 640 times 2^20 pixels that means: pixel a at address a, zero at the last address if there were more than a frame, the rest untouched |
| `CameraVram.PixelBits` | 395Project_Codes_Quartusii/Image_mod.sv:274-305 | every bit of a stored pixel is a bit of its first byte, in the high half, or of its second, and combined with that bit of the keystream exactly in the right half of a line |
| `CameraVram.SleepsUntilRun` | 395Project_Codes_Quartusii/Image_mod.sv:215-224 | before the run command nothing moves; with it the circuit waits for a frame |
| `CameraVram.FrameStored` | 395Project_Codes_Quartusii/Image_mod.sv:231-313 | one clock after the sync pulse ends a frame of any length, its last write is in place, whatever comes |
| `CameraVram.BeginsReady` | 395Project_Codes_Quartusii/Image_mod.sv:221-262 | whatever the last frame left, the next begins with clear counters and no write on its way |
| `CameraVram.ShowsFlat` | 395Project_Codes_Quartusii/Image_mod.sv:152-184 | the display shows the flat memory's word of two columns before, except where a bank begins in between, when it shows the word one bank on |
| `CameraVram.ShowsBlack` | 395Project_Codes_Quartusii/Image_mod.sv:152-184 | the picture is black exactly below its last line |
| `CameraVram.ShowsWrongBank` | 395Project_Codes_Quartusii/Image_mod.sv:164-179 | the failing case: exactly four pixels of the picture come from the wrong bank |
| `CameraVram.ShowsLineStart` | 395Project_Codes_Quartusii/Image_mod.sv:152-184 | the first two columns of a line show columns 158 and 159 of it |
| `CameraVram.AnswersLate` | 395Project_Codes_Quartusii/VRAM.v:65-110 | the memory's outputs are the words at the read address of two clocks before |
| `CameraHardware.Capture.Clock` | 395Project_Codes_Quartusii/Image_mod.sv:245-318 | one edge of the capture registers and banks in place is exactly the step the theorems are about |
| `CameraHardware.Capture.CaptureFrame` | 395Project_Codes_Quartusii/Image_mod.sv:231-313 | the registers and banks themselves, clocked through a frame of any length and two edges more, hold exactly its pixels |
| `LogFormat.NumeralReadsBack` | 395Project_Codes_Quartusii/software/IOmodule_bsp/HAL/src/alt_log_printf.c:281-296 | the numeral of every number in base 8, 10 or 16 reads back as that number |
| `LogFormat.NumeralIsShort` | 395Project_Codes_Quartusii/software/IOmodule_bsp/HAL/src/alt_log_printf.c:247-255 | only zero's numeral begins with a zero: no superfluous digit |
| `LogFormat.DigitIs` | 395Project_Codes_Quartusii/software/IOmodule_bsp/HAL/src/alt_log_printf.c:281-296 | digits above nine are letters of the case asked for |
| `LogFormat.LeadingDigit` | 395Project_Codes_Quartusii/software/IOmodule_bsp/HAL/src/alt_log_printf.c:286-295 | the quotient by the place value is the first digit and the remainder holds the rest |
| `LogFormat.CountDigits` | 395Project_Codes_Quartusii/software/IOmodule_bsp/HAL/src/alt_log_printf.c:247-255 | the loop ends with the number of digits of the numeral and the place value of the first, which fits 32 bits |
| `LogFormat.PrintDigits` | 395Project_Codes_Quartusii/software/IOmodule_bsp/HAL/src/alt_log_printf.c:281-296 | the loop prints exactly those digits, most significant first, and ends |
| `LogFormat.PrintInteger` | 395Project_Codes_Quartusii/software/IOmodule_bsp/HAL/src/alt_log_printf.c:206-297 | the text is sign, filling and shortest numeral of the magnitude, zeros after the sign or spaces before it |
| `LogFormat.PrintReadsBack` | 395Project_Codes_Quartusii/software/IOmodule_bsp/HAL/src/alt_log_printf.c:206-297 | what is printed for any 32-bit word, signed or not, reads back as the value it stands for, whatever field and filling |
| `LogFormat.PrintWidth` | 395Project_Codes_Quartusii/software/IOmodule_bsp/HAL/src/alt_log_printf.c:257-279 | the text is as wide as the field, or as digits plus sign if that is wider |
| `LogFormat.PrintLayout` | 395Project_Codes_Quartusii/software/IOmodule_bsp/HAL/src/alt_log_printf.c:257-297 | the numeral ends the text; zeros fill between the sign and it, spaces before the sign, and nothing else |
| `WallClock.Clock.Set` | 395Project_Codes_Quartusii/software/IOmodule_bsp/HAL/src/alt_settod.c:72-96 | what is stored, with the 32-bit product, or the error case without a clock |
| `WallClock.Clock.Get` | 395Project_Codes_Quartusii/software/IOmodule_bsp/HAL/src/alt_gettod.c:71-124 | what is read, with both normalising loops, or the error case without a clock |
| `WallClock.Clock.Normalise` | 395Project_Codes_Quartusii/software/IOmodule_bsp/HAL/src/alt_gettod.c:95-112 | the two loops end in the normal form of the sum, or zero if it lies before zero |
| `WallClock.CutHarmless` | 395Project_Codes_Quartusii/software/IOmodule_bsp/HAL/src/alt_settod.c:83-84 | cutting the product to 32 bits leaves its microseconds right if and only if the part cut off is a multiple of 15,625 words |
| `WallClock.ReadsWhatWasSet` | 395Project_Codes_Quartusii/software/IOmodule_bsp/HAL/src/alt_gettod.c:89-112 | for every rate, set after n ticks and read d later with any number of counter wraps, the clock shows the time set plus d ticks in normal form if and only if lead of the seconds, wraps, rounding and the 32-bit product put it ahead by a multiple of 2^32 seconds (or it was set to zero and read at once) |
| `WallClock.ReadsAtEvenRate` | 395Project_Codes_Quartusii/software/IOmodule_bsp/HAL/src/alt_gettod.c:89-112 | at a rate that divides a million it is right if and only if the counter wrapped a multiple of the rate times in between and the 32-bit product was harmless (or it was set to zero and read at once) |
| `WallClock.OneSecondOn` | 395Project_Codes_Quartusii/software/IOmodule_bsp/HAL/src/alt_gettod.c:89-95 | set at reset and read one second of ticks later, the clock is right if and only if the rate divides a million or is above it |
| `WallClock.SetLateReadsWrong` | 395Project_Codes_Quartusii/software/IOmodule_bsp/HAL/src/alt_settod.c:83-84 | the failing case: a thousand ticks to the second, 4,294,968 ticks after reset, every time set reads back wrong |
| `WallClock.ReadAfterWrapReadsWrong` | 395Project_Codes_Quartusii/software/IOmodule_bsp/HAL/src/alt_gettod.c:89-95 | the other failing case: a hundred ticks to the second, set at the last tick before the counter wraps and read at the next, every time reads back wrong |
| `Heap.SbrkKeeps` | 395Project_Codes_Quartusii/software/IOmodule_bsp/HAL/src/alt_sbrk.c:68-136 | succeeds if and only if the aligned end plus the request is within the limit; the block is word aligned, at the end of the heap and apart from all before, and the end moves by exactly the request, or not at all but for alignment |
| `Heap.FailedRequestIsFree` | 395Project_Codes_Quartusii/software/IOmodule_bsp/HAL/src/alt_sbrk.c:83-92 | a request that fails takes nothing: the next one is answered as if it had not been made |
| `Heap.AllocateKeeps` | 395Project_Codes_Quartusii/software/IOmodule_bsp/HAL/src/alt_gmon.c:133-148 | if there is room, a piece cut from the slab, old or new, is inside the heap, apart from every block and from the rest of the slab, and takes exactly the bytes asked for; a new slab is at the end of the heap |
| `Heap.AllocateExactly` | 395Project_Codes_Quartusii/software/IOmodule_bsp/HAL/src/alt_gmon.c:133-148 | for every request, the piece given lies inside the heap if and only if there was room: longer than a slab or with the heap exhausted, the routine hands out memory it does not have |
| `Heap.SmallHeapGivesNoPiece` | 395Project_Codes_Quartusii/software/IOmodule_bsp/HAL/src/alt_gmon.c:133-148 | the failing case: with a fresh heap smaller than one slab, the first piece of any request is at the last address there is |
| `Heap.RunKeeps` | 395Project_Codes_Quartusii/software/IOmodule_bsp/HAL/src/alt_sbrk.c:68-136 | over every run of both allocators all blocks ever given are inside the heap and pairwise apart |
| `Heap.RecordKeepsFunctions` | 395Project_Codes_Quartusii/software/IOmodule_bsp/HAL/src/alt_gmon.c:182-206 | recording a call leaves every list of functions in memory as it was, but for a new function at the front of its own |
| `Heap.RecordKeepsArcs` | 395Project_Codes_Quartusii/software/IOmodule_bsp/HAL/src/alt_gmon.c:196-204 | and every function's list of arcs, but for the new arc at the front of its own; the new nodes were no node before and are neither each other nor the function |
| `CallGraph.HappensKeeps` | 395Project_Codes_Quartusii/software/IOmodule_bsp/HAL/src/alt_gmon.c:133-206 | recording a call, or giving a block to anyone else, leaves memory holding exactly the call graph so far, with the new arc and function |
| `CallGraph.RunHolds` | 395Project_Codes_Quartusii/software/IOmodule_bsp/HAL/src/alt_gmon.c:133-206 | over every run of calls recorded and blocks given in between, memory holds exactly the functions of each bucket and the arcs of each function, latest first |
| `CallGraph.HoldsOne` | 395Project_Codes_Quartusii/software/IOmodule_bsp/HAL/src/alt_gmon.c:182-206 | memory holds one graph only: no node is at the null pointer, so the links tell every list and its end |
| `CallGraph.BeginsEmpty` | 395Project_Codes_Quartusii/software/IOmodule_bsp/HAL/src/alt_gmon.c:133-206 | cleared buckets hold the empty graph, so every run from reset is covered |
| `CallGraph.NodesDiffer` | 395Project_Codes_Quartusii/software/IOmodule_bsp/HAL/src/alt_gmon.c:182-206 | whenever memory holds a graph, different functions and arcs are at different nodes |
| `HeapProfiler.Profiler.SbrkBlock` | 395Project_Codes_Quartusii/software/IOmodule_bsp/HAL/src/alt_sbrk.c:68-136 | the routine in place is the specified allocator, and keeps all blocks apart |
| `HeapProfiler.Profiler.AllocateBlock` | 395Project_Codes_Quartusii/software/IOmodule_bsp/HAL/src/alt_gmon.c:133-148 | likewise for the slab allocator |
| `HeapProfiler.Profiler.RecordCall` | 395Project_Codes_Quartusii/software/IOmodule_bsp/HAL/src/alt_gmon.c:182-206 | the routine in place is the specified recording of a call |

## Left out

- JtagUart.Uart.Write: polls of the driver are bounded by a `patience` number, and a call that would still be spinning returns `StillWaiting`; that the host eventually answers or falls silent is not modelled, what follows if it does is. The same holds of `Read` and `Close`.
- JtagUart.Uart.Isr: the number of rounds is arbitrary, because the device may keep reporting work; the device answers as it likes except that an invalid read never claims bytes remain.
- JtagUart: interrupts are served to their end between two foreground accesses; an interrupt routine is not itself interrupted. Semaphores, event flags, the operating-system branches, the small driver and the variant that ignores a full FIFO are not modelled. The pending-interrupt bits are whatever the device reports.
- AlarmClock.Clock.Callback: starting an alarm that is listed, which the source leaves to its callers' care, is excluded; callbacks that ask for 2^32 ticks or more do not exist by type.
- AlarmClock.Clock.Tick: the rounds of a walk are given, since it may never end. The callback is called between whole steps of the walk; a nested tick is not modelled, nor is the operating system's time hook. Interrupt masking around list updates is not modelled, since every routine here runs without being interrupted.
- AlarmRuns.RingsExactly: the ticks are those whose callbacks spare the alarm saved as next; a walk that returns to the front of the list may visit an alarm twice.
- FileTable: descriptors at or above 32 and closing or controlling a closed descriptor are outside what the source handles; a driver's own routines answer with a number and do not touch the table. The search for a name in the device lists is a parameter, as are the semaphore, the private pointer of a descriptor and `errno` beyond its value. The two mode bits are newlib's O_APPEND and O_NONBLOCK; its header is not part of this repository.
- KeyHandshake.Link.Session: the hardware is assumed to make at least one clock between two accesses; `TestDecides` says what happens otherwise for a single byte. Terminal input, the seed and the volatile qualifiers are left out: every read of a port is taken to happen.
- SccbMaster: Reset during a run, the LEDs and the bit that each byte's ninth clock leaves to the slave are not modelled; the slave's answer in the read after a write, which the master never releases the wire for, is not either.
- ImageEngine: the key does not change during an operation, and is free while the engine is idle; the switches that select a subkey, the subkeys' values and the generator are left out. One clock stands for the pixel, memory and system clocks. Reset, capture phases and the colour outputs of the same module are left out, the memory's byte lanes are enabled together, and a floating bus reads as an arbitrary word.
- CameraVram.CapturesFrame: Reset and the run command are not modelled beyond the phases they lead to, and the keystream word is an input.
- CameraVram.ShowsFlat: the memory is taken to be the same at both clocks of a read. Colour expansion, sync pulses and blanking are left out.
- LogFormat: parsing the format string, characters and strings, and the port the text goes to are left out; the field width and flags are parameters.
- WallClock.ReadsWhatWasSet: the time set is in normal form and not before zero, and the seconds read fit 31 bits. The time gone by is counted in whole microseconds, rounded down.
- Heap.RunKeeps: the heap does not begin at address zero, which is the null pointer. What a run does after the heap is exhausted is left out, as are negative requests, stack checks and address wrap-around of the heap's end.
- CallGraph.RunHolds: the search for a function in its bucket and the counts raised later are the assembler code's, and are left out with the start of the sampling timer; which function a call was made to is a parameter.
- Boot code, cache and exception handling, the other HAL drivers, stub system calls, DMA and flash wrappers, hex display and project metadata: single-branch facts or foreign code.

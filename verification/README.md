# A verified model of Nachos

This project models the kernel, the disk file system and the machine simulator of
Nachos 3.4, with the course additions built on it, and proves what they promise. State
that the code updates in place is a class whose methods are proved against functions
of the old state; the results about whole runs are lemmas about those functions.

`dafny verify dfyconfig.toml` checks everything.

## What is modelled

- **Disk file system** (`Words`, `BitMap`, `SynchDisk`, `FileHeader`, `OpenFile`,
  `Directory`, `Volume`, `VolumeSteps`, `FileSystem`, `FileSystemRuns`). The bit map and
  the directory are files on the disk they describe. `Volumes.Consistent` says that the map
  on the disk marks exactly the sectors reachable from the directory and that none is used
  twice; `Volumes.Files` is the map from names to bytes that the disk stands for. Sizes passed
  to `Create` must fit the header's table, which the code does not check. `Chain` holds what is
  true of runs of any kind.
- **Lists and interrupts** (`List`, `Interrupt`, `InterruptRuns`). The pending interrupts are linked nodes. What
  handlers ask for is a parameter, restricted as in the code to times in the future.
- **Threads and semaphores** (`Thread`, `ThreadRuns`, `System`, `SystemRuns`, `Kernel`). A step is what happens
  between two points at which the processor can change hands. Semaphores are tested again
  after a wake-up. Initial values are not negative. `Systems` joins threads and interrupts in one
  machine, in which handlers do V's and a machine with no thread to run idles.
- **Console** (`SynchConsole`, `SemaphoreClient`). Any number of threads and the device's
  interrupts, interleaved step by step. A P is possible when the value is positive;
  `SemaphoreClients` shows that threads of the thread model, whose P is a test that may put
  them to sleep, run the console by this rule.
- **Machine** (`Mult`, `Disk`, `Translate`, `Loader`, `AddrSpace`, `AddrSpaceRuns`, `LoaderSpill`,
  `Processor`, `ProcessorEffects`). Arithmetic is on explicit 32-bit words; a byte read from memory is a signed char.
- **User programs and system calls** (`HandOff`, `WaterTaps`, `Numerals`).

## What does not hold

- The three user programs exclude each other exactly if the semaphore "voinuoc" exists and holds
  no token. The result of creating it is compared where it was meant to be assigned, so a
  failure goes unnoticed: Down on a missing semaphore does not wait, and a semaphore of that name
  that was there before may have any value.
- PrintInt and ReadInt are inverse exactly on the numbers other than the most negative one.
- A check that finds nothing due keeps the order of the pending interrupts exactly if the first has
  its time to itself; otherwise the first goes behind the others of its time.
- A thread that sleeps need not run again: a round of idling stops the machine exactly if no
  interrupt but the timer is pending (`Systems.IdledStops`), and with a device that polls it may
  idle without end.
- Programs are not kept apart while one is loaded. The loader adds the virtual address to the start
  of each page's frame, so a segment that does not start at address zero can go into another
  program's frames when its own do not follow one another, or when more of the file is read than
  its space holds. A program sees nothing of it exactly if no byte of it is written
  (`AddrSpaceRuns.RunIsolatedIff`); `LoaderSpill.LoadedOver` is a run in which one is. Its own
  program finds the segment exactly if pages and frames are equally far apart (`Loading.FindsIff`).
- SynchConsole::Read returns the right result in every run exactly if it is asked for at least one
  byte; of no bytes it returns -1 or 0 depending on an uninitialised variable.
- Two names that agree in their first nine characters are one name to the directory.

## Model

| member | source | states |
|---|---|---|
| BitMaps.BitMap.constructor | 21120515_21120578_21120585_21120587_21120600/Source/nachos/nachos-3.4/code/userprog/bitmap.cc:20-27 | a map of the given size with no bit set, whatever the memory held |
| BitMaps.BitMap.Mark | 21120515_21120578_21120585_21120587_21120600/Source/nachos/nachos-3.4/code/userprog/bitmap.cc:46-51 | the set of marked numbers gains the number if it was not in it, and no word but the one that holds its bit changes |
| BitMaps.BitMap.Clear | 21120515_21120578_21120585_21120587_21120600/Source/nachos/nachos-3.4/code/userprog/bitmap.cc:60-65 | the set of marked numbers loses the number if it was in it, and no word but the one that holds its bit changes |
| BitMaps.BitMap.Test | 21120515_21120578_21120585_21120587_21120600/Source/nachos/nachos-3.4/code/userprog/bitmap.cc:74-83 | true exactly for the marked numbers |
| BitMaps.BitMap.Find | 21120515_21120578_21120585_21120587_21120600/Source/nachos/nachos-3.4/code/userprog/bitmap.cc:94-103 | marks and returns the lowest clear number; -1 exactly when none is clear, and then nothing changes |
| BitMaps.BitMap.NumClear | 21120515_21120578_21120585_21120587_21120600/Source/nachos/nachos-3.4/code/userprog/bitmap.cc:111-119 | the number of clear bits |
| BitMaps.MarkedDetermines | 21120515_21120578_21120585_21120587_21120600/Source/nachos/nachos-3.4/code/userprog/bitmap.cc:148-165 | two full maps that mark the same numbers are equal word for word |
| BitMaps.InMarked | 21120515_21120578_21120585_21120587_21120600/Source/nachos/nachos-3.4/code/userprog/bitmap.cc:46-83 | a number is marked exactly if bit (number modulo 32) of word (number / 32) is set |
| Words.BitIs | 21120515_21120578_21120585_21120587_21120600/Source/nachos/nachos-3.4/code/userprog/bitmap.cc:46-83 | bit k of a word is its binary digit k |
| Words.WordIs | 21120515_21120578_21120585_21120587_21120600/Source/nachos/nachos-3.4/code/filesys/filehdr.cc:77-94 | a word in memory or on the disk is the number of its four bytes, the least significant first |
| FileSystems.FetchBitMap | 21120515_21120578_21120585_21120587_21120600/Source/nachos/nachos-3.4/code/userprog/bitmap.cc:148-153 | the words read back from the file are those its bytes encode |
| FileSystems.WriteBackBitMap | 21120515_21120578_21120585_21120587_21120600/Source/nachos/nachos-3.4/code/userprog/bitmap.cc:161-165 | the map file holds exactly the encoded words, and no other sector of the disk changes |
| FileHeaders.SectorsForIsDivRoundUp | 21120515_21120578_21120585_21120587_21120600/Source/nachos/nachos-3.4/code/threads/utility.h:40-40 | the number of sectors of a size is what the macro computes, for every int, negative ones included |
| FileHeaders.SectorsForCovers | 21120515_21120578_21120585_21120587_21120600/Source/nachos/nachos-3.4/code/filesys/filehdr.cc:41-47 | that many sectors hold the bytes and one fewer would not |
| FileHeaders.FileHeader.Allocate | 21120515_21120578_21120585_21120587_21120600/Source/nachos/nachos-3.4/code/filesys/filehdr.cc:41-52 | succeeds exactly if enough sectors are clear; then it takes the lowest clear ones in increasing order, the clear count drops by exactly that many, and every Find succeeded; on failure the map is unchanged |
| FileHeaders.LowestUnique | 21120515_21120578_21120585_21120587_21120600/Source/nachos/nachos-3.4/code/filesys/filehdr.cc:49-50 | the choice of lowest sectors is unique |
| FileHeaders.FileHeader.Deallocate | 21120515_21120578_21120585_21120587_21120600/Source/nachos/nachos-3.4/code/filesys/filehdr.cc:61-68 | the map loses exactly the file's data sectors; the assertion on each of them holds |
| FileHeaders.DecodeEncodeHeader | 21120515_21120578_21120585_21120587_21120600/Source/nachos/nachos-3.4/code/filesys/filehdr.cc:77-94 | a header read back from its sector is the one that was written |
| FileHeaders.HeaderLayout | 21120515_21120578_21120585_21120587_21120600/Source/nachos/nachos-3.4/code/filesys/filehdr.h:60-63 | on the disk the length comes first, then the number of sectors, then the table |
| FileHeaders.FileHeader.FetchFrom | 21120515_21120578_21120585_21120587_21120600/Source/nachos/nachos-3.4/code/filesys/filehdr.cc:77-81 | the header becomes the one its sector encodes |
| FileHeaders.FileHeader.WriteBack | 21120515_21120578_21120585_21120587_21120600/Source/nachos/nachos-3.4/code/filesys/filehdr.cc:90-94 | the sector encodes the header, and no other sector changes |
| OpenFiles.OpenFile.ReadAt | 21120515_21120578_21120585_21120587_21120600/Source/nachos/nachos-3.4/code/filesys/openfile.cc:124-152 | for every position, length and alignment, the most bytes that are both asked for and in the file are delivered, each the byte of the file at its place, and the rest of the buffer is untouched |
| OpenFiles.OpenFile.WriteAt | 21120515_21120578_21120585_21120587_21120600/Source/nachos/nachos-3.4/code/filesys/openfile.cc:154-194 | for every position, length and alignment, the most bytes that are both given and have room in the file are spliced into its contents, and no sector outside the file changes |
| OpenFiles.TransfersMost | 21120515_21120578_21120585_21120587_21120600/Source/nachos/nachos-3.4/code/filesys/openfile.cc:131-134 | a request transfers exactly as many bytes as are asked for and in the file |
| OpenFiles.SpliceOverwrites | 21120515_21120578_21120585_21120587_21120600/Source/nachos/nachos-3.4/code/filesys/openfile.cc:160-191 | after a write each byte of the file is the one given for its place, if one was, and else as before |
| OpenFiles.ByteWhere | 21120515_21120578_21120585_21120587_21120600/Source/nachos/nachos-3.4/code/filesys/filehdr.cc:106-110 | byte k of a file is byte (k modulo 512) of the sector that entry (k / 512) of its header names |
| OpenFiles.WrittenIsSplice | 21120515_21120578_21120585_21120587_21120600/Source/nachos/nachos-3.4/code/filesys/openfile.cc:178-191 | sectors written from a buffer whose partial first and last sectors were read first make up the spliced contents |
| OpenFiles.OpenFile.FillBuffer | 21120515_21120578_21120585_21120587_21120600/Source/nachos/nachos-3.4/code/filesys/openfile.cc:173-186 | the buffer holds the final value of every byte of the file that falls in it |
| OpenFiles.OpenFile.Read | 21120515_21120578_21120585_21120587_21120600/Source/nachos/nachos-3.4/code/filesys/openfile.cc:82-88 | reads at the seek position and advances it by what was read |
| OpenFiles.OpenFile.Write | 21120515_21120578_21120585_21120587_21120600/Source/nachos/nachos-3.4/code/filesys/openfile.cc:90-96 | writes at the seek position and advances it by what was written |
| Directories.SameStringTruncated | 21120515_21120578_21120585_21120587_21120600/Source/nachos/nachos-3.4/code/filesys/directory.cc:90-97 | the comparison of names holds exactly if they agree in their first nine characters |
| Directories.DecodeEncodeTable | 21120515_21120578_21120585_21120587_21120600/Source/nachos/nachos-3.4/code/filesys/directory.cc:63-80 | a directory read back from its file is the one that was written |
| Directories.EntryLayout | 21120515_21120578_21120585_21120587_21120600/Source/nachos/nachos-3.4/code/filesys/directory.h:32-39 | in an entry on the disk the flag is at offset 0, the sector at 4 and the name at 8 |
| Directories.TableLayout | 21120515_21120578_21120585_21120587_21120600/Source/nachos/nachos-3.4/code/filesys/directory.cc:63-80 | entry i of a directory is at offset 20 * i of its file |
| Directories.Directory.FindIndex | 21120515_21120578_21120585_21120587_21120600/Source/nachos/nachos-3.4/code/filesys/directory.cc:90-97 | the index of an entry in use with that name, or -1 exactly if there is none |
| Directories.Directory.Find | 21120515_21120578_21120585_21120587_21120600/Source/nachos/nachos-3.4/code/filesys/directory.cc:108-116 | the sector listed under the name, or -1 exactly if it is not listed |
| Directories.Directory.Add | 21120515_21120578_21120585_21120587_21120600/Source/nachos/nachos-3.4/code/filesys/directory.cc:129-143 | adds one name to the map that the table stands for, in the first free entry, exactly if the name is new and an entry is free; otherwise nothing changes |
| Directories.Directory.Remove | 21120515_21120578_21120585_21120587_21120600/Source/nachos/nachos-3.4/code/filesys/directory.cc:153-162 | takes one name out of that map, exactly if it was listed |
| FileSystems.FileSystem.Format | 21120515_21120578_21120585_21120587_21120600/Source/nachos/nachos-3.4/code/filesys/filesys.cc:83-126 | any disk becomes consistent, with no files and all but four sectors free |
| FileSystems.FileSystem.OnFormatted | 21120515_21120578_21120585_21120587_21120600/Source/nachos/nachos-3.4/code/filesys/filesys.cc:137-142 | a disk that is consistent is ready for use as it is |
| FileSystems.FileSystem.Create | 21120515_21120578_21120585_21120587_21120600/Source/nachos/nachos-3.4/code/filesys/filesys.cc:187-228 | succeeds exactly if the name is new, an entry is free and there is room; then the disk stays consistent with one more file in the lowest free sectors; on failure no byte of the disk changes |
| FileSystems.FileSystem.Open | 21120515_21120578_21120585_21120587_21120600/Source/nachos/nachos-3.4/code/filesys/filesys.cc:240-254 | finds a file exactly if it is listed, and the handle shows its contents |
| FileSystems.FileSystem.Remove | 21120515_21120578_21120585_21120587_21120600/Source/nachos/nachos-3.4/code/filesys/filesys.cc:302-333 | succeeds exactly if the file is listed; then the disk stays consistent without it; otherwise no byte changes |
| VolumeSteps.CreateKeeps | 21120515_21120578_21120585_21120587_21120600/Source/nachos/nachos-3.4/code/filesys/filesys.cc:187-228 | after a creation the map marks exactly the sectors in use, none is used twice, and every other file is as before |
| VolumeSteps.RemoveKeeps | 21120515_21120578_21120585_21120587_21120600/Source/nachos/nachos-3.4/code/filesys/filesys.cc:302-333 | after a removal the map marks exactly the sectors in use, none is used twice, and every other file is as before |
| VolumeSteps.WriteKeeps | 21120515_21120578_21120585_21120587_21120600/Source/nachos/nachos-3.4/code/filesys/openfile.cc:154-194 | a write to one file leaves the map, the directory, every header and every other file as they were |
| FileSystemRuns.StepRefines | 21120515_21120578_21120585_21120587_21120600/Source/nachos/nachos-3.4/code/filesys/filesys.cc:187-333 | each operation on a consistent disk is a step of a finite map from nine-character names to bytes with a count of free sectors, in which a write puts each byte it has room for in its place |
| FileSystemRuns.RunRefines | 21120515_21120578_21120585_21120587_21120600/Source/nachos/nachos-3.4/code/filesys/filesys.cc:83-333 | every run of operations keeps the disk consistent, and what its disks stand for is a run of that map |
| FileSystemRuns.PerformAll | 21120515_21120578_21120585_21120587_21120600/Source/nachos/nachos-3.4/code/filesys/filesys.cc:187-333 | the code itself, run on any sequence of operations, makes a run of that map |
| FileSystemRuns.PerformAcrossRestart | 21120515_21120578_21120585_21120587_21120600/Source/nachos/nachos-3.4/code/filesys/filesys.cc:137-333 | operations, a restart from the disk, and more operations make one run of that map: nothing is kept but on the disk |
| FileSystemRuns.CreateRemoveRestores | 21120515_21120578_21120585_21120587_21120600/Source/nachos/nachos-3.4/code/filesys/filesys.cc:187-333 | creating and then removing a file restores the packed map word for word, and the files |
| FileSystemRuns.HandleSurvives | 21120515_21120578_21120585_21120587_21120600/Source/nachos/nachos-3.4/code/filesys/filesys.cc:187-333 | no operation but its removal moves or changes the header of an open file |
| FileSystemRuns.HandleSurvivesRun | 21120515_21120578_21120585_21120587_21120600/Source/nachos/nachos-3.4/code/filesys/filesys.cc:187-333 | over every run that does not remove the file, a handle opened before the run still has the file's header |
| FileSystemRuns.WriteHeld | 21120515_21120578_21120585_21120587_21120600/Source/nachos/nachos-3.4/code/filesys/openfile.cc:154-194 | the code itself: a file is opened, any operations but its removal follow, and a write through the handle is a write to the file |
| Lists.List.Append | 21120515_21120578_21120585_21120587_21120600/Source/nachos/nachos-3.4/code/threads/list.cc:76-88 | on linked nodes with a reference to the last: the contents gain the item at the end, and the links stay well formed |
| Lists.List.SortedInsert | 21120515_21120578_21120585_21120587_21120600/Source/nachos/nachos-3.4/code/threads/list.cc:178-202 | on linked nodes: the contents are those of inserting the item behind every key that is not larger |
| Lists.List.SortedRemove | 21120515_21120578_21120585_21120587_21120600/Source/nachos/nachos-3.4/code/threads/list.cc:217-237 | on linked nodes: the first item and its key are taken off, or nothing if the list is empty |
| Lists.InsertKeepsSorted | 21120515_21120578_21120585_21120587_21120600/Source/nachos/nachos-3.4/code/threads/list.cc:178-202 | inserting keeps a sorted list sorted |
| Lists.InsertKeepsCells | 21120515_21120578_21120585_21120587_21120600/Source/nachos/nachos-3.4/code/threads/list.cc:178-202 | inserting adds exactly the new item |
| Interrupts.Interrupt.Schedule | 21120515_21120578_21120585_21120587_21120600/Source/nachos/nachos-3.4/code/machine/interrupt.cc:264-275 | the new interrupt is in its place on the sorted list |
| Interrupts.Interrupt.CheckIfDue | 21120515_21120578_21120585_21120587_21120600/Source/nachos/nachos-3.4/code/machine/interrupt.cc:290-336 | the linked list and the clock follow the abstract check, put-back and timer case included |
| Interrupts.CheckedKeeps | 21120515_21120578_21120585_21120587_21120600/Source/nachos/nachos-3.4/code/machine/interrupt.cc:290-336 | a check keeps the invariant, moves the clock at most to the earliest pending interrupt, and fires at most one |
| Interrupts.CheckedDue | 21120515_21120578_21120585_21120587_21120600/Source/nachos/nachos-3.4/code/machine/interrupt.cc:290-336 | a check that fires leaves fewer interrupts due; one that does not leaves none due but the timer of an idle machine |
| Interrupts.PutBackPlace | 21120515_21120578_21120585_21120587_21120600/Source/nachos/nachos-3.4/code/machine/interrupt.cc:309-311 | for every sorted list whose head is not due, a check moves the head behind exactly the others of its time |
| Interrupts.PutBackKeepsIff | 21120515_21120578_21120585_21120587_21120600/Source/nachos/nachos-3.4/code/machine/interrupt.cc:309-311 | the list is as before exactly if every other interrupt of the head's time is equal to it |
| Interrupts.OrderKeptIff | 21120515_21120578_21120585_21120587_21120600/Source/nachos/nachos-3.4/code/machine/interrupt.cc:309-311 | with no interrupt pending twice, the order is kept exactly if the head is alone or the next has a later time |
| Interrupts.PutBackReorders | 21120515_21120578_21120585_21120587_21120600/Source/nachos/nachos-3.4/code/machine/interrupt.cc:309-311 | two interrupts of one time change places |
| Interrupts.Interrupt.Drain | 21120515_21120578_21120585_21120587_21120600/Source/nachos/nachos-3.4/code/machine/interrupt.cc:169-170 | the loop ends, having done what the repeated abstract check does |
| Interrupts.DrainedAll | 21120515_21120578_21120585_21120587_21120600/Source/nachos/nachos-3.4/code/machine/interrupt.cc:169-170 | when the loop ends nothing is overdue but the timer of an idle machine |
| Interrupts.Interrupt.OneTick | 21120515_21120578_21120585_21120587_21120600/Source/nachos/nachos-3.4/code/machine/interrupt.cc:150-179 | the clock, the list and the flags follow the abstract tick, and a requested context switch is reported |
| Interrupts.OneTickSettles | 21120515_21120578_21120585_21120587_21120600/Source/nachos/nachos-3.4/code/machine/interrupt.cc:150-179 | after a tick nothing is overdue |
| Interrupts.Interrupt.Idle | 21120515_21120578_21120585_21120587_21120600/Source/nachos/nachos-3.4/code/machine/interrupt.cc:210-234 | the clock and the list follow the abstract idling, and the machine stops when it says so |
| Interrupts.IdleJump | 21120515_21120578_21120585_21120587_21120600/Source/nachos/nachos-3.4/code/machine/interrupt.cc:210-234 | idling moves the clock exactly to the earliest pending interrupt, if that is in the future, and fires it |
| Interrupts.IdleStops | 21120515_21120578_21120585_21120587_21120600/Source/nachos/nachos-3.4/code/machine/interrupt.cc:210-234 | the machine stops exactly if no interrupt but the timer is pending, and then nothing has fired or gone |
| Interrupts.Interrupt.SetLevel | 21120515_21120578_21120585_21120587_21120600/Source/nachos/nachos-3.4/code/machine/interrupt.cc:114-127 | returns the old level; turning interrupts on lets a tick pass and reports whether a handler asked for a switch, and nothing else does |
| Interrupts.FiredInOrder | 21120515_21120578_21120585_21120587_21120600/Source/nachos/nachos-3.4/code/machine/interrupt.cc:150-336 | over every run interrupts fire in order of time and never early |
| Interrupts.Reachable | 21120515_21120578_21120585_21120587_21120600/Source/nachos/nachos-3.4/code/machine/interrupt.cc:150-336 | in every state reached from power-on each scheduled interrupt is pending or has fired once, the list is sorted, and total = idle + system + user ticks |
| InterruptRuns.YieldsIffAsked | 21120515_21120578_21120585_21120587_21120600/Source/nachos/nachos-3.4/code/machine/interrupt.cc:150-179 | a tick is followed by a context switch exactly if a handler that ran during it asked for one |
| InterruptRuns.SwitchesIffAsked | 21120515_21120578_21120585_21120587_21120600/Source/nachos/nachos-3.4/code/machine/interrupt.cc:150-196 | the same in every state reached from power-on, where no request is left over between events |
| InterruptRuns.ScheduledOnTime | 21120515_21120578_21120585_21120587_21120600/Source/nachos/nachos-3.4/code/machine/interrupt.cc:264-275 | over every run each interrupt is scheduled for the time that the device or handler asked for, counted from when it asked |
| InterruptRuns.TicksCounted | 21120515_21120578_21120585_21120587_21120600/Source/nachos/nachos-3.4/code/machine/interrupt.cc:150-162 | over every run the system ticks are ten times the ticks in system mode, and the user ticks the number of those in user mode |
| InterruptRuns.IdleTakes | 21120515_21120578_21120585_21120587_21120600/Source/nachos/nachos-3.4/code/machine/interrupt.cc:210-234 | idling adds to neither, fires all its interrupts at one time, and ends in system mode unless the machine stops |
| Kernels.Kernel.ReadyToRun | 21120515_21120578_21120585_21120587_21120600/Source/nachos/nachos-3.4/code/threads/scheduler.cc:53-60 | the thread is READY and last on the ready list |
| Kernels.Kernel.FindNextToRun | 21120515_21120578_21120585_21120587_21120600/Source/nachos/nachos-3.4/code/threads/scheduler.cc:70-74 | takes the first thread off the ready list, or none if it is empty |
| Kernels.Kernel.Run | 21120515_21120578_21120585_21120587_21120600/Source/nachos/nachos-3.4/code/threads/scheduler.cc:90-135 | called with interrupts off; the next thread runs where it left off, and a thread it deletes is not itself |
| Kernels.Kernel.NewThread | 21120515_21120578_21120585_21120587_21120600/Source/nachos/nachos-3.4/code/threads/thread.cc:35-44 | a step of the machine that adds a thread that has not started; the invariants are kept |
| Kernels.Kernel.NewSemaphore | 21120515_21120578_21120585_21120587_21120600/Source/nachos/nachos-3.4/code/threads/synch.cc:36-41 | a step of the machine that adds a semaphore with the initial value and nobody waiting; the invariants are kept |
| Kernels.Kernel.Fork | 21120515_21120578_21120585_21120587_21120600/Source/nachos/nachos-3.4/code/threads/thread.cc:87-99 | a step of the machine that makes a new thread ready and keeps the invariants |
| Kernels.Kernel.Finish | 21120515_21120578_21120585_21120587_21120600/Source/nachos/nachos-3.4/code/threads/thread.cc:143-154 | the thread is done and to be deleted; another is dispatched, the machine stops or it is idling still, and the result says which; the invariants are kept |
| Kernels.Kernel.Yield | 21120515_21120578_21120585_21120587_21120600/Source/nachos/nachos-3.4/code/threads/thread.cc:174-190 | the first ready thread runs and the current one is last on the list, or nothing happens if none is ready; the invariants are kept |
| Kernels.Kernel.Sleep | 21120515_21120578_21120585_21120587_21120600/Source/nachos/nachos-3.4/code/threads/thread.cc:211-226 | idles the interrupt hardware round by round until a handler has made a thread ready, and dispatches the first; or stops; or is idling still after the rounds it was watched for |
| Kernels.Kernel.Idle | 21120515_21120578_21120585_21120587_21120600/Source/nachos/nachos-3.4/code/threads/thread.cc:222-223 | a round of idling on the linked list of interrupts, with the V's of the handlers it runs in their order |
| Systems.IdledStops | 21120515_21120578_21120585_21120587_21120600/Source/nachos/nachos-3.4/code/threads/thread.cc:222-223 | a round of idling stops the machine exactly if no interrupt but the timer is pending, and then leaves the kernel as it was |
| Systems.SleepOutcome | 21120515_21120578_21120585_21120587_21120600/Source/nachos/nachos-3.4/code/threads/thread.cc:211-226 | a sleep stops the machine exactly if idling comes to a point with no thread ready and nothing but the timer pending, and goes on with a thread exactly if it comes to a point with one ready |
| Systems.StoppedForGood | 21120515_21120578_21120585_21120587_21120600/Source/nachos/nachos-3.4/code/threads/thread.cc:211-226 | when a sleep stops the machine, no thread is ready and every semaphore with a waiter is at zero |
| Systems.PollsForever | 21120515_21120578_21120585_21120587_21120600/Source/nachos/nachos-3.4/code/machine/console.cc:86-97 | with one kind of device that reschedules itself, whatever else is pending, and no handler that does a V, a sleeping machine neither stops nor goes on, however many rounds it idles |
| SystemRuns.SleptReaches | 21120515_21120578_21120585_21120587_21120600/Source/nachos/nachos-3.4/code/threads/thread.cc:211-226 | a sleep is a run of rounds of idling and at most one dispatch; stopping leaves the kernel as it is |
| Kernels.Kernel.OneTick | 21120515_21120578_21120585_21120587_21120600/Source/nachos/nachos-3.4/code/machine/interrupt.cc:150-179 | a tick with the V's of the handlers it runs, and the yield, in system mode, if one of them asked for it |
| SystemRuns.AfterKeeps | 21120515_21120578_21120585_21120587_21120600/Source/nachos/nachos-3.4/code/machine/interrupt.cc:150-234 | every step of threads, ticks, idling, devices and changes of mode keeps the invariants of kernel and hardware, which agree on the level |
| SystemRuns.KernelRun | 21120515_21120578_21120585_21120587_21120600/Source/nachos/nachos-3.4/code/threads/thread.cc:87-226 | a run of the whole machine is, for the threads and semaphores, a run of their own machine, in which handlers do exactly the V's they ask for, in order |
| SystemRuns.HardwareRun | 21120515_21120578_21120585_21120587_21120600/Source/nachos/nachos-3.4/code/machine/interrupt.cc:150-336 | a run of the whole machine is, for the clock and the interrupts, a run of their own machine |
| SystemRuns.YieldsIffAsked | 21120515_21120578_21120585_21120587_21120600/Source/nachos/nachos-3.4/code/machine/interrupt.cc:150-179 | over every run of the whole machine a tick makes the thread yield exactly if a handler that ran during it asked for that |
| SystemRuns.ModeAfterTick | 21120515_21120578_21120585_21120587_21120600/Source/nachos/nachos-3.4/code/machine/interrupt.cc:172-178 | after a tick the machine is in system mode if the processor has changed hands, and else in the mode it was in |
| Systems.SignalsAppend | 21120515_21120578_21120585_21120587_21120600/Source/nachos/nachos-3.4/code/machine/interrupt.cc:328-332 | a handler's V's are taken in the order in which it asks for them |
| Systems.SignalsLast | 21120515_21120578_21120585_21120587_21120600/Source/nachos/nachos-3.4/code/machine/interrupt.cc:169-170 | the V's of handlers are taken in the order in which they run |
| SystemRuns.Reachable | 21120515_21120578_21120585_21120587_21120600/Source/nachos/nachos-3.4/code/threads/synch.cc:64-98 | in every state the whole machine reaches, in user and in system mode, no wakeup is lost, no value is negative, and a sleeping thread has interrupts off |
| SystemRuns.BootGood | 21120515_21120578_21120585_21120587_21120600/Source/nachos/nachos-3.4/code/threads/system.cc:152-155 | the machine at power-on, with the semaphores that handlers know, has the invariants |
| Kernels.Kernel.P | 21120515_21120578_21120585_21120587_21120600/Source/nachos/nachos-3.4/code/threads/synch.cc:64-77 | takes the semaphore, or queues up and sleeps, with the outcome of the sleep; the invariants are kept |
| Kernels.Kernel.Recheck | 21120515_21120578_21120585_21120587_21120600/Source/nachos/nachos-3.4/code/threads/synch.cc:69-73 | a thread that slept in P tests the value again and takes the semaphore or queues up again; the invariants are kept |
| Kernels.Kernel.V | 21120515_21120578_21120585_21120587_21120600/Source/nachos/nachos-3.4/code/threads/synch.cc:87-98 | wakes the first waiter and increments the value in either case; the invariants are kept |
| Threads.NextKeeps | 21120515_21120578_21120585_21120587_21120600/Source/nachos/nachos-3.4/code/threads/thread.cc:87-226 | every step of threads, semaphores and handlers keeps the invariants |
| Threads.NoLostWakeup | 21120515_21120578_21120585_21120587_21120600/Source/nachos/nachos-3.4/code/threads/synch.cc:64-98 | a positive value with a waiter means that a woken thread is ready or running and has yet to test the value |
| Threads.IdleMeansNothingToTake | 21120515_21120578_21120585_21120587_21120600/Source/nachos/nachos-3.4/code/threads/thread.cc:222-223 | when the machine idles, every semaphore with a waiter is at zero |
| Threads.Reachable | 21120515_21120578_21120585_21120587_21120600/Source/nachos/nachos-3.4/code/threads/synch.cc:64-98 | in every reachable state no value is negative, with a waiter the value is at most the number of threads woken that have yet to test it, and a sleeping thread has interrupts off |
| Threads.Ledger | 21120515_21120578_21120585_21120587_21120600/Source/nachos/nachos-3.4/code/threads/synch.cc:36-98 | over every run since a semaphore was made, its value is the initial value plus the V's less the completed P's, counted from the events, and never negative |
| Threads.Partition | 21120515_21120578_21120585_21120587_21120600/Source/nachos/nachos-3.4/code/threads/thread.cc:87-226 | a thread is in exactly one place: not started, running, finished, once on the ready list, or once on one semaphore's queue |
| Threads.FirstReadyFirstRun | 21120515_21120578_21120585_21120587_21120600/Source/nachos/nachos-3.4/code/threads/scheduler.cc:53-74 | over every run the thread at position k of the ready list is the (k+1)-th to be dispatched |
| Threads.DoneIsNotDispatched | 21120515_21120578_21120585_21120587_21120600/Source/nachos/nachos-3.4/code/threads/thread.cc:143-154 | over every run a finished thread stays finished and is never dispatched |
| Threads.DispatchedKeeps | 21120515_21120578_21120585_21120587_21120600/Source/nachos/nachos-3.4/code/threads/scheduler.cc:90-135 | a dispatch keeps the invariants and never runs a deleted thread |
| ThreadRuns.FirstWaitsFirstWoken | 21120515_21120578_21120585_21120587_21120600/Source/nachos/nachos-3.4/code/threads/synch.cc:64-98 | over every run those who waited on a semaphore and those who came to wait are, in order, those woken and those who wait still |
| ThreadRuns.WaiterIsWoken | 21120515_21120578_21120585_21120587_21120600/Source/nachos/nachos-3.4/code/threads/synch.cc:70-93 | the thread at position i of a semaphore's queue is the (i+1)-th to be woken |
| ThreadRuns.HandedOver | 21120515_21120578_21120585_21120587_21120600/Source/nachos/nachos-3.4/code/threads/scheduler.cc:70-106 | the processor changes hands only to the first ready thread, which then is the current one |
| ThreadRuns.LevelGivenBack | 21120515_21120578_21120585_21120587_21120600/Source/nachos/nachos-3.4/code/threads/synch.cc:64-77 | over every run a thread that calls P or Yield has its interrupt level back when the call is over, unless it waits to the end of the run |
| ThreadRuns.FreshStarts | 21120515_21120578_21120585_21120587_21120600/Source/nachos/nachos-3.4/code/threads/thread.cc:237-280 | a thread that runs for the first time does so with interrupts on |
| ThreadRuns.OthersKeepLevel | 21120515_21120578_21120585_21120587_21120600/Source/nachos/nachos-3.4/code/threads/synch.cc:87-98 | V, Fork and the making of threads and semaphores leave the interrupt level as it was |
| ThreadRuns.FinishDooms | 21120515_21120578_21120585_21120587_21120600/Source/nachos/nachos-3.4/code/threads/thread.cc:143-154 | a thread that finishes is the one to be deleted |
| ThreadRuns.DeletedIff | 21120515_21120578_21120585_21120587_21120600/Source/nachos/nachos-3.4/code/threads/scheduler.cc:121-127 | until another finishes, it is deleted exactly if a thread that has run before is dispatched |
| ConsoleWrites.NextKeeps | 21120515_21120578_21120585_21120587_21120600/Source/nachos/nachos-3.4/code/threads/synchcons.cc:71-87 | every step of any writer or of the device keeps the line with one holder and the device in step with it |
| ConsoleWrites.NeverBusy | 21120515_21120578_21120585_21120587_21120600/Source/nachos/nachos-3.4/code/machine/console.cc:142-150 | over every interleaving the busy assertion of PutChar holds |
| ConsoleWrites.WritesAreContiguous | 21120515_21120578_21120585_21120587_21120600/Source/nachos/nachos-3.4/code/threads/synchcons.cc:71-87 | over every interleaving the output is the bytes of the finished writes, each together and in order, and the first bytes of at most one other |
| ConsoleWrites.CallsReturn | 21120515_21120578_21120585_21120587_21120600/Source/nachos/nachos-3.4/code/threads/synchcons.cc:71-87 | over every interleaving the calls of a thread return one after another, each with the data it was called with |
| ConsoleReads.NextKeeps | 21120515_21120578_21120585_21120587_21120600/Source/nachos/nachos-3.4/code/threads/synchcons.cc:95-136 | every step of any reader or of the keyboard keeps the stream in order |
| ConsoleReads.ReadsAreInOrder | 21120515_21120578_21120585_21120587_21120600/Source/nachos/nachos-3.4/code/threads/synchcons.cc:95-136 | over every interleaving the characters that the device took from the keyboard, less EOF-valued ones, are what the reads took in order and what is buffered; each read took one line, Control-A or a full buffer; a buffered character has a V to come |
| ConsoleReads.TypedIs | 21120515_21120578_21120585_21120587_21120600/Source/nachos/nachos-3.4/code/machine/console.cc:86-104 | what counts as typed is the characters polled while the device's buffer was empty |
| ConsoleReads.CallsReturn | 21120515_21120578_21120585_21120587_21120600/Source/nachos/nachos-3.4/code/threads/synchcons.cc:95-136 | over every interleaving the calls of a thread return one after another, each for the number of bytes it was called with |
| ConsoleReads.ReturnedOneLine | 21120515_21120578_21120585_21120587_21120600/Source/nachos/nachos-3.4/code/threads/synchcons.cc:119-135 | the result of a read is the length of its text, or -1 for Control-A |
| ConsoleReads.RightIff | 21120515_21120578_21120585_21120587_21120600/Source/nachos/nachos-3.4/code/threads/synchcons.cc:95-136 | a Read returns the right result in every run, whatever its uninitialised character, exactly if it is asked for at least one byte |
| ConsoleReads.EmptyRead | 21120515_21120578_21120585_21120587_21120600/Source/nachos/nachos-3.4/code/threads/synchcons.cc:100-135 | a read of no bytes takes nothing and reports the end of the stream exactly if its uninitialised character happens to be Control-A |
| SemaphoreClients.EndsPIff | 21120515_21120578_21120585_21120587_21120600/Source/nachos/nachos-3.4/code/threads/synch.cc:64-77 | a thread at the test of P goes on exactly if the value is positive |
| SemaphoreClients.AfterAgrees | 21120515_21120578_21120585_21120587_21120600/Source/nachos/nachos-3.4/code/threads/synch.cc:64-98 | a P or V that a thread or a handler makes for a piece of code is a step that the code's own rule allows, and keeps its account of the values right |
| SemaphoreClients.RunOfClient | 21120515_21120578_21120585_21120587_21120600/Source/nachos/nachos-3.4/code/threads/synch.cc:64-98 | every run of threads that run a piece of code on semaphores is a run of it by the rule that a P is possible when the value is positive |
| SemaphoreClients.RunOfThreads | 21120515_21120578_21120585_21120587_21120600/Source/nachos/nachos-3.4/code/threads/synch.cc:64-98 | and it is a run of the threads and semaphores |
| ConsoleClients.WritesOnThreads | 21120515_21120578_21120585_21120587_21120600/Source/nachos/nachos-3.4/code/threads/synchcons.cc:71-87 | over every run of threads on the two semaphores, the output is the bytes of the finished writes, each together and in order, and the first bytes of at most one other |
| ConsoleClients.WritesAsCalled | 21120515_21120578_21120585_21120587_21120600/Source/nachos/nachos-3.4/code/threads/synchcons.cc:71-87 | and the writes of each thread are those that it has called for, in order |
| ConsoleClients.ReadsOnThreads | 21120515_21120578_21120585_21120587_21120600/Source/nachos/nachos-3.4/code/threads/synchcons.cc:95-136 | over every run of threads on the two semaphores, the characters that the device took, less EOF-valued ones, are what the reads took in order and what is buffered, and each read took one line |
| ConsoleClients.ReadsAsCalled | 21120515_21120578_21120585_21120587_21120600/Source/nachos/nachos-3.4/code/threads/synchcons.cc:95-136 | and the reads of each thread are those that it has called for, in order |
| Multiplier.Mult | 21120515_21120578_21120585_21120587_21120600/Source/nachos/nachos-3.4/code/machine/mipssim.cc:635-692 | the double word is the exact product of the operands, signed or unsigned, the most negative operand included |
| Multiplier.MultUnsigned | 21120515_21120578_21120585_21120587_21120600/Source/nachos/nachos-3.4/code/machine/mipssim.cc:657-678 | the loop with its sign-copying shift and early exit gives the exact product of the two bit patterns |
| Multiplier.StandsForShifted | 21120515_21120578_21120585_21120587_21120600/Source/nachos/nachos-3.4/code/machine/mipssim.cc:677-677 | the arithmetic shift of the multiplier keeps the bits still to be looked at |
| Multiplier.NegatePair | 21120515_21120578_21120585_21120587_21120600/Source/nachos/nachos-3.4/code/machine/mipssim.cc:680-688 | the two's complement of a double word |
| Disks.TimeToSeek | 21120515_21120578_21120585_21120587_21120600/Source/nachos/nachos-3.4/code/machine/disk.cc:179-194 | seek and rotation lead to the first sector boundary at or after the end of the seek |
| Disks.SeekLeast | 21120515_21120578_21120585_21120587_21120600/Source/nachos/nachos-3.4/code/machine/disk.cc:179-194 | a head that moves one track every 500 ticks is on the track exactly from the end of the seek on |
| Disks.ModuloDiffLeast | 21120515_21120578_21120585_21120587_21120600/Source/nachos/nachos-3.4/code/machine/disk.cc:202-209 | the first sector from a position on that has the rotational index sought |
| Disks.EarliestTransfer | 21120515_21120578_21120585_21120587_21120600/Source/nachos/nachos-3.4/code/machine/disk.cc:232-253 | a request the buffer does not serve starts at the first time at which the head, moving a track every 500 ticks, is on the track and the sector begins to pass |
| Disks.BufferedIffPassed | 21120515_21120578_21120585_21120587_21120600/Source/nachos/nachos-3.4/code/machine/disk.cc:239-247 | the track buffer serves a read, in the time of one sector, exactly if the head is on the track and the whole sector has passed since the buffer was started, by the next sector boundary |
| Disks.MovedKeeps | 21120515_21120578_21120585_21120587_21120600/Source/nachos/nachos-3.4/code/machine/disk.cc:261-271 | the head arrives when it first is on the track, bufferInit is the first boundary after that, has passed when the request is done, and starts over exactly on a change of track; the latency is at least one sector |
| Disks.RunKeeps | 21120515_21120578_21120585_21120587_21120600/Source/nachos/nachos-3.4/code/machine/disk.cc:115-166 | in every sequence of requests each is done at least one transfer after it was made, and none overlaps the one before |
| Disks.Disk.ComputeLatency | 21120515_21120578_21120585_21120587_21120600/Source/nachos/nachos-3.4/code/machine/disk.cc:232-253 | the latency that those results are about |
| Disks.Disk.UpdateLast | 21120515_21120578_21120585_21120587_21120600/Source/nachos/nachos-3.4/code/machine/disk.cc:261-271 | the head is where the request was, and the buffer restarts exactly on a change of track |
| Disks.Disk.StartRequest | 21120515_21120578_21120585_21120587_21120600/Source/nachos/nachos-3.4/code/machine/disk.cc:115-153 | keeps the state valid, and the interrupt comes at least 500 ticks later |
| Disks.Disk.HandleInterrupt | 21120515_21120578_21120585_21120587_21120600/Source/nachos/nachos-3.4/code/machine/disk.cc:161-166 | the disk is idle again, with its buffer started |
| Translation.Machine.Translate | 21120515_21120578_21120585_21120587_21120600/Source/nachos/nachos-3.4/code/machine/translate.cc:186-255 | the exception, the physical address and the use and dirty bits; the final assertion holds, and an exception changes nothing |
| Translation.AccessInside | 21120515_21120578_21120585_21120587_21120600/Source/nachos/nachos-3.4/code/machine/translate.cc:240-254 | an access let through stays inside one frame and inside memory |
| Translation.CheckIff | 21120515_21120578_21120585_21120587_21120600/Source/nachos/nachos-3.4/code/machine/translate.cc:186-255 | each exception, and none, by its condition on the address, the entry and the access |
| Translation.Machine.ReadMem | 21120515_21120578_21120585_21120587_21120600/Source/nachos/nachos-3.4/code/machine/translate.cc:87-122 | the value that the bytes at the translated address encode |
| Translation.Machine.WriteMem | 21120515_21120578_21120585_21120587_21120600/Source/nachos/nachos-3.4/code/machine/translate.cc:137-169 | exactly the addressed bytes change, and none on an exception |
| Translation.StoreSeen | 21120515_21120578_21120585_21120587_21120600/Source/nachos/nachos-3.4/code/machine/translate.cc:137-169 | through a table without shared frames, a store changes exactly the bytes written of the program's memory |
| Translation.StoreNotSeen | 21120515_21120578_21120585_21120587_21120600/Source/nachos/nachos-3.4/code/machine/translate.cc:137-169 | a store changes no byte seen through a table with other frames |
| Translation.LoadStored | 21120515_21120578_21120585_21120587_21120600/Source/nachos/nachos-3.4/code/machine/translate.cc:101-163 | loading what was stored gives the value, its low half, or its sign-extended low byte |
| Translation.ByteOfStored | 21120515_21120578_21120585_21120587_21120600/Source/nachos/nachos-3.4/code/machine/translate.cc:101-163 | a byte loaded at offset j of what was stored is digit j of the value to the base 256, as a signed char |
| Translation.ValueOfBytes | 21120515_21120578_21120585_21120587_21120600/Source/nachos/nachos-3.4/code/machine/translate.cc:101-122 | a half or whole word loaded is the number of its bytes, the least significant first |
| AddrSpaces.AddrSpace.constructor | 21120515_21120578_21120585_21120587_21120600/Source/nachos/nachos-3.4/code/userprog/addrspace.cc:63-131 | takes the lowest clear frames if there are enough, and otherwise no page and no frame; the memory is what the loader's writes make of it |
| AddrSpaces.AddrSpace.Destroy | 21120515_21120578_21120585_21120587_21120600/Source/nachos/nachos-3.4/code/userprog/addrspace.cc:204-209 | gives back exactly the frames of the table |
| AddrSpaces.AddrSpace.RestoreState | 21120515_21120578_21120585_21120587_21120600/Source/nachos/nachos-3.4/code/userprog/addrspace.cc:262-266 | every address that the machine then accepts is translated into a frame of this space |
| Loading.DecodeEncodeNoff | 21120515_21120578_21120585_21120587_21120600/Source/nachos/nachos-3.4/code/bin/noff.h:11-26 | a header read back from an executable is the one that was put there |
| Loading.NoffLayout | 21120515_21120578_21120585_21120587_21120600/Source/nachos/nachos-3.4/code/bin/noff.h:11-26 | which word of the file is which field of the header |
| Loading.PagesHold | 21120515_21120578_21120585_21120587_21120600/Source/nachos/nachos-3.4/code/userprog/addrspace.cc:81-86 | the pages hold code, both kinds of data and the stack, and one fewer would not |
| Loading.LoadProgram | 21120515_21120578_21120585_21120587_21120600/Source/nachos/nachos-3.4/code/userprog/addrspace.cc:119-131 | for each page and segment, 512 bytes of the file, or what there is of them, go to the segment's address plus the start of the page's frame, in the loops' order |
| Loading.LoadedProgram | 21120515_21120578_21120585_21120587_21120600/Source/nachos/nachos-3.4/code/userprog/addrspace.cc:119-131 | a program finds at each of its addresses the byte of its data, else of its code, else what was there, if its segments start at address zero or its frames follow one another |
| Loading.FindsIff | 21120515_21120578_21120585_21120587_21120600/Source/nachos/nachos-3.4/code/userprog/addrspace.cc:126-131 | whatever the file and the memory hold, a program finds the segment that is loaded last at its addresses exactly if the page a byte is read for and the page it belongs to are as far apart as their frames |
| Loading.UnseenIff | 21120515_21120578_21120585_21120587_21120600/Source/nachos/nachos-3.4/code/userprog/addrspace.cc:119-131 | whatever the memory holds, a program sees nothing of what the loader writes exactly if no write covers a byte of it |
| Loading.ContiguousWithinIff | 21120515_21120578_21120585_21120587_21120600/Source/nachos/nachos-3.4/code/userprog/addrspace.cc:119-131 | in frames that follow one another, a segment stays in its program's frames exactly if what is read for it, to the end of the file or of the space, fits behind its virtual address |
| Loading.AnchoredWithin | 21120515_21120578_21120585_21120587_21120600/Source/nachos/nachos-3.4/code/userprog/addrspace.cc:119-131 | a segment at address zero stays in its program's frames, wherever they are |
| AddrSpaceRuns.RunKeeps | 21120515_21120578_21120585_21120587_21120600/Source/nachos/nachos-3.4/code/userprog/addrspace.cc:63-209 | every step of every run keeps live page tables injective and pairwise disjoint, with a frame marked exactly if one of them uses it |
| AddrSpaceRuns.Reachable | 21120515_21120578_21120585_21120587_21120600/Source/nachos/nachos-3.4/code/userprog/addrspace.cc:63-209 | in every state reached from an empty machine live page tables are injective and pairwise disjoint, and a frame is marked exactly if one of them uses it |
| AddrSpaceRuns.Programs.Create | 21120515_21120578_21120585_21120587_21120600/Source/nachos/nachos-3.4/code/userprog/addrspace.cc:63-131 | the constructor on the shared map of 256 bits and the memory, loading included, takes such a step |
| AddrSpaceRuns.Programs.Destroy | 21120515_21120578_21120585_21120587_21120600/Source/nachos/nachos-3.4/code/userprog/addrspace.cc:204-209 | the destructor takes such a step |
| AddrSpaceRuns.Programs.Load | 21120515_21120578_21120585_21120587_21120600/Source/nachos/nachos-3.4/code/machine/translate.cc:87-122 | a load through the program's own table takes such a step, and gives the value of its bytes or the exception |
| AddrSpaceRuns.Programs.Store | 21120515_21120578_21120585_21120587_21120600/Source/nachos/nachos-3.4/code/machine/translate.cc:137-169 | a store through the program's own table takes such a step, or gives the exception |
| AddrSpaceRuns.Programs.PerformAll | 21120515_21120578_21120585_21120587_21120600/Source/nachos/nachos-3.4/code/userprog/addrspace.cc:63-209 | the code itself, run on any sequence of creations, destructions, loads and stores, makes such a run, and a program that takes no part in it sees no change in any state of it if no program made in it is loaded over a byte of it |
| AddrSpaceRuns.RunIsolated | 21120515_21120578_21120585_21120587_21120600/Source/nachos/nachos-3.4/code/userprog/addrspace.cc:63-209 | over every run in which only other programs act, what a program can read does not change, if no program made in the run is loaded over a byte of it |
| AddrSpaceRuns.RunIsolatedIff | 21120515_21120578_21120585_21120587_21120600/Source/nachos/nachos-3.4/code/userprog/addrspace.cc:119-131 | over every such run a program sees no change, whatever the memory held, exactly if no program made in the run is loaded over a byte of it |
| AddrSpaceRuns.TameRunIsolated | 21120515_21120578_21120585_21120587_21120600/Source/nachos/nachos-3.4/code/userprog/addrspace.cc:119-131 | that is so if each segment starts at address zero, or its program's frames follow one another and what is read for it fits |
| LoaderSpill.LoadedOver | 21120515_21120578_21120585_21120587_21120600/Source/nachos/nachos-3.4/code/userprog/addrspace.cc:119-131 | from an empty machine, a run of four steps in which a program with its data inside its own space is loaded over the first byte of another |
| AddrSpaceRuns.CreatedSees | 21120515_21120578_21120585_21120587_21120600/Source/nachos/nachos-3.4/code/userprog/addrspace.cc:63-131 | after a creation the new program finds its segments at their addresses, if they start at zero or its frames follow one another |
| AddrSpaceRuns.StoreIsUpdate | 21120515_21120578_21120585_21120587_21120600/Source/nachos/nachos-3.4/code/machine/translate.cc:137-169 | a program's own store changes exactly the bytes it writes, and nothing on an exception |
| AddrSpaceRuns.MarkedAsTouched | 21120515_21120578_21120585_21120587_21120600/Source/nachos/nachos-3.4/code/machine/translate.cc:246-252 | over every run a page is marked as used, or as written, exactly if it was before or an access that was let through has used, or written, it since |
| Processors.Processor.DelayedLoad | 21120515_21120578_21120585_21120587_21120600/Source/nachos/nachos-3.4/code/machine/mipssim.cc:575-582 | the pending load reaches its register, the next one is noted, and register 0 is zero |
| Processors.Processor.RaiseException | 21120515_21120578_21120585_21120587_21120600/Source/nachos/nachos-3.4/code/machine/machine.cc:100-107 | the bad address is noted and the pending load done before the handler runs |
| Processors.Processor.OneInstruction | 21120515_21120578_21120585_21120587_21120600/Source/nachos/nachos-3.4/code/machine/mipssim.cc:93-565 | the registers, memory and page table follow the abstract cycle, and every way out ends at a boundary |
| Processors.OverflowExact | 21120515_21120578_21120585_21120587_21120600/Source/nachos/nachos-3.4/code/machine/mipssim.cc:125-143 | the sign test of an addition holds exactly if the sum is out of range |
| Processors.UnderflowExact | 21120515_21120578_21120585_21120587_21120600/Source/nachos/nachos-3.4/code/machine/mipssim.cc:457-465 | the sign test of a subtraction holds exactly if the difference is out of range |
| Processors.BoundaryKept | 21120515_21120578_21120585_21120587_21120600/Source/nachos/nachos-3.4/code/machine/mipssim.cc:93-582 | after every instruction register 0 is zero, the pending load has a general register for target, and a completed one has advanced the program counters |
| Processors.TrapIsClean | 21120515_21120578_21120585_21120587_21120600/Source/nachos/nachos-3.4/code/machine/mipssim.cc:93-582 | every exception reaches the handler with memory, program counters and all registers unchanged but for the load that was pending |
| Processors.LoadArrives | 21120515_21120578_21120585_21120587_21120600/Source/nachos/nachos-3.4/code/machine/mipssim.cc:555-582 | whatever the next instruction does, trap included, a pending load has reached its register when it ends |
| Processors.LoadIsDelayed | 21120515_21120578_21120585_21120587_21120600/Source/nachos/nachos-3.4/code/machine/mipssim.cc:231-309 | a load leaves every register as it was but for the load pending before it; its own value is pending |
| Processors.RunKeeps | 21120515_21120578_21120585_21120587_21120600/Source/nachos/nachos-3.4/code/machine/mipssim.cc:93-582 | the same boundary after every sequence of instructions and kernel actions |
| ProcessorEffects.NextButOne | 21120515_21120578_21120585_21120587_21120600/Source/nachos/nachos-3.4/code/machine/mipssim.cc:118-118 | after an instruction that does not jump, the next but one is four bytes behind the next |
| ProcessorEffects.Jumps | 21120515_21120578_21120585_21120587_21120600/Source/nachos/nachos-3.4/code/machine/mipssim.cc:161-229 | a jump goes to its target after one more instruction, and a linking one leaves the address behind that |
| ProcessorEffects.ArithmeticExact | 21120515_21120578_21120585_21120587_21120600/Source/nachos/nachos-3.4/code/machine/mipssim.cc:125-143 | a trapping addition or subtraction leaves the exact result in its register if that fits, and else traps |
| ProcessorEffects.ComputedResult | 21120515_21120578_21120585_21120587_21120600/Source/nachos/nachos-3.4/code/machine/mipssim.cc:145-160 | other results go to the register named, or to Hi and Lo, and to no other |
| ProcessorEffects.LoadReads | 21120515_21120578_21120585_21120587_21120600/Source/nachos/nachos-3.4/code/machine/mipssim.cc:231-309 | what a load leaves pending is made of the bytes that the program has at register plus offset |
| ProcessorEffects.StoreWrites | 21120515_21120578_21120585_21120587_21120600/Source/nachos/nachos-3.4/code/machine/mipssim.cc:383-532 | a store changes exactly the bytes of the program at register plus offset, to those of the register |
| ProcessorEffects.AccessTraps | 21120515_21120578_21120585_21120587_21120600/Source/nachos/nachos-3.4/code/machine/mipssim.cc:231-309 | a load or store traps exactly if its address is not allowed, for that reason and with that address noted |
| ProcessorEffects.FetchTraps | 21120515_21120578_21120585_21120587_21120600/Source/nachos/nachos-3.4/code/machine/mipssim.cc:101-103 | an instruction that cannot be fetched traps for the reason that its address gives |
| ProcessorEffects.OtherTraps | 21120515_21120578_21120585_21120587_21120600/Source/nachos/nachos-3.4/code/machine/mipssim.cc:534-552 | system calls and unknown operations trap as such; jumps and other computations never do |
| HandOff.OneTokenAlways | 21120515_21120578_21120585_21120587_21120600/Source/nachos/nachos-3.4/code/test/sinhvien.c:11-97 | in every interleaving, error exits included, the three semaphores and the programs hold exactly one token, and at most one program works on the files; the taps pour only while the other two wait |
| HandOff.TapTooEarly | 21120515_21120578_21120585_21120587_21120600/Source/nachos/nachos-3.4/code/test/main.c:18-19 | if the third semaphore is missing, or an older one of that name holds a token, two programs work on the files at once |
| HandOff.ExclusiveIff | 21120515_21120578_21120585_21120587_21120600/Source/nachos/nachos-3.4/code/test/main.c:13-19 | no two programs ever work on the files at once exactly if the third semaphore exists and holds no token, as it does when it was created |
| HandOff.NextKeeps | 21120515_21120578_21120585_21120587_21120600/Source/nachos/nachos-3.4/code/test/voinuoc.c:12-77 | every step of any of the programs keeps the token single |
| HandOff.AnsweredFirst | 21120515_21120578_21120585_21120587_21120600/Source/nachos/nachos-3.4/code/test/sinhvien.c:70-75 | while the students' program works every cup it has asked for has been dealt with, and while main works every line it has handed over |
| WaterTaps.Pour | 21120515_21120578_21120585_21120587_21120600/Source/nachos/nachos-3.4/code/test/voinuoc.c:50-64 | for every line of volumes each goes to the tap that has poured less, the loads differ by at most the largest volume, and the larger is within 3/2 of that of any assignment |
| WaterTaps.BoundIsTight | 21120515_21120578_21120585_21120587_21120600/Source/nachos/nachos-3.4/code/test/voinuoc.c:50-64 | a line for which this rule meets the factor 3/2 |
| Numerals.ReadInt | 21120515_21120578_21120585_21120587_21120600/Source/nachos/nachos-3.4/code/userprog/exception.cc:462-528 | the value of the numeral, wrapped around once; 0 for a line that is no numeral, and no answer for an empty line or the end of the stream |
| Numerals.PrintInt | 21120515_21120578_21120585_21120587_21120600/Source/nachos/nachos-3.4/code/userprog/exception.cc:532-571 | sign, digits without leading zeros and a NUL; the lone sign and NUL for the most negative number |
| Numerals.RoundTrip | 21120515_21120578_21120585_21120587_21120600/Source/nachos/nachos-3.4/code/userprog/exception.cc:462-571 | what is printed is a numeral of the number exactly if it is not the most negative one |
| Numerals.PrintThenRead | 21120515_21120578_21120585_21120587_21120600/Source/nachos/nachos-3.4/code/userprog/exception.cc:462-571 | printing and reading back gives the number exactly if it is not the most negative one, which comes back as 0 |
| Numerals.NoOverflow | 21120515_21120578_21120585_21120587_21120600/Source/nachos/nachos-3.4/code/userprog/exception.cc:487-496 | reading back a printed number overflows at no step |

## Left out

- The open-file table and the creation of "stdin" and "stdout" at the end of the FileSystem constructor.
- Concurrent use of SynchDisk, Lock and Condition: the locks have no body, so the disk is a sequential store of sectors.
- SynchList, PostOffice and the network device.
- An executable that cannot be opened or is not in NOFF format, on which the code gives up.
- PTable, PCB and STable, and the rest of the system-call dispatcher.
- Context-switch assembly, stacks, and the eventual deletion of every finished thread.
- Overflow of the tick counters, of file positions and of semaphore values.
- The tables of operation codes and what instructions compute without trapping: the processor model is parametrised by them.
- Liveness: fairness of handlers and devices is not assumed, so nothing says that a waiting thread runs in the end.
- FileHeaders.FileHeader.Allocate: does not model sizes beyond the header's table, for which the code writes past the table's end.
- FileSystems.FileSystem.Create: does not model sizes beyond the header's table, for which the code writes past the table's end.
- ConsoleReads.NextKeeps: works on values; that the caller's buffer is filled in place is not captured.
- ConsoleWrites.NextKeeps: works on values, as the interleaving of threads is the point.
- Interrupts.Interrupt.OneTick: reports that a handler asked for a switch; the yield itself is made by Kernels.Kernel.OneTick.
- Kernels.Kernel.Sleep: is watched for a number of rounds of idling, as idling may have no end; the V's of a round's handlers are done at the end of the round, since they leave the hardware alone.
- AddrSpaces.AddrSpace.constructor: bytes that the loader writes outside the memory are lost, where the code overwrites what lies beside it; the constructor from a file name, which without enough memory frees the file and the lock twice, is not modelled.
- Kernels.Kernel.Idle: the V's of the handlers are done after the round, in their order.
- Kernels.Kernel.OneTick: a thread that has yielded to another restores its mode in a step of its own, when it runs again.
- Kernels.Kernel.Finish: is watched for a number of rounds of idling.
- Kernels.Kernel.P: ends where the processor changes hands, as a method cannot be suspended; Recheck goes on from there. It is watched for a number of rounds of idling.
- Kernels.Kernel.Recheck: is watched for a number of rounds of idling.
- Kernels.Kernel.V: the tick that passes when the old level is restored is a step of its own, Kernels.Kernel.OneTick; the same holds of P, Fork and Yield.
- Translation.Machine.Translate: does not model the translation look-aside buffer, which only the vm build turns on.
- Processors.Processor.OneInstruction: takes decoding and what instructions compute without trapping as parameters.
- Numerals.ReadInt: models signed overflow as wrap-around, and leaves out that at the end of the stream the code writes before the start of its buffer.
- HandOff.OneTokenAlways: does not model the files' contents or what is written to the output.

# Proofs about the database library, the lock protocols and the smaller loops

This project models, in Dafny, the parts of the repository that keep delicate state, and proves what
they keep. Paths below are relative to the repository's root.

* `Decimal`, `CStrings`, `DbRecord`, `Chain`, `DbFiles`, `DbSteps`, `DbBytes`, `Db`: the database library
  `db.c` in three layers. `DbRecord` and `DbBytes` are the bytes: blank-padded decimal fields and the
  index record text. `DbFiles` and `DbSteps` are linked records: 137 hash chains and the free list over
  pointer cells (`Chain`), records that tile the index file, data regions that tile the data file. `Db`
  is the library itself: a class whose methods read and write file bytes and the two buffers in place,
  and whose contracts are stated over the map from key to data.
* `DbProtocol`: any number of processes running fetch, delete and store on the same two files, each
  step reaching from one byte-range lock request to the next. `DbByteRuns` runs them on the bytes of the
  index file, within the limits of its fields.
* `Histories`: events of several processes, and the account that ties the calls each process makes to
  the events of a run and to what it returns; the three concurrent models share it.
* `FooTable`, `FooHistory`, `FooRefs`, `Mutex2`, `Mutex3`: the reference-counted objects of `mutex2.c` and
  `mutex3.c`. One atomic table is the specification of both, and `FooHistory` says what that table holds by
  the calls so far. `Mutex2` steps at the grain of single locks, reads and
  writes of shared memory, with real mutexes, malloc and free; `Mutex3` has the critical sections as
  methods with the list walks, and any number of threads that run them.
* `Semaph`: the three-member System V semaphore set of `semaph.c`, with the kernel's undo values
  (section 2.7 of the System Interfaces volume of POSIX.1-2008, and its semop() page), for any number
  of processes that may die before any step.
* `JobQueue`: the print daemon's doubly linked job list, its clients and its printer thread.
* `TreeWalk`: `myftw` and `dopath` over a finite file system, with the shared growing path buffer.
* `SocketStrings`: `Sputs`, `Swrite`, `Sgets` and `Sreadbytes` over a byte stream cut up in any way.
* `Merge`, `MemStream`, `PingPong`: the k-way merge of `barrier.c`, the stream of `fmemopen.c`, and the two
  threads of `pingpong2.c`.

Conventions. Bytes are Dafny characters, and a plain C `char` is taken to be signed in the hash. The calls
that end a process in `db.c` (`err_dump`, `err_quit`) are assertions and preconditions: keys hold no NUL
and, to be stored, no `:`; data is NUL-free and of 1 to 1023 bytes; the index text is at most 1024 bytes
and offsets are at most 9999999, the last two asked for only when a record must be appended. In a step
system, `Enabled` says when a thread can take its next step, `Next` what it then does, `Inv` what every
reachable state satisfies; a run is a sequence of such steps by anyone in any order. Where a call takes
effect is the step at which `Verdict` becomes known; `Effects` lists the calls of a run in that order,
`Returns` the calls as they return, with what they return. Under `## Model`, "atomic" includes the account
of every process: each call it makes is one event of `Effects` or still open at the end, and each event of
its is returned once, with the event's result, or still due, all in order.

## What was found

* `db_nextrec` skips a record stored under a key of blanks alone; all others are returned once
  (`Db.ScanIsContents`). In a new database a key of one blank is stored and fetched, and the scan is empty
  (`Db.ScanMissesBlankKey`).
* `Sgets` returns what `Sputs` sent exactly when the string is at most maxbuf - 3 long
  (`SocketStrings.RoundTrip`): a string of maxbuf - 2 leaves its NUL in the stream, and with maxbuf 2, which
  the documentation allows, nothing is read.
* `Swrite` is documented to return the negative of the count when the write fails; it returns the count.
  The two agree exactly when no send failed or the very first one did (`SocketStrings.SwriteDocumented`);
  when three bytes of five go and then a send fails, it returns 3 (`SocketStrings.SwriteFailsAfterThree`).
* `Sreadbytes` never ends exactly when the stream ends before the bytes asked for
  (`SocketStrings.ReadingEnds`).
* `sem_close` can remove a set that a `sem_open` has just opened, and exactly then does it remove a set in
  use (`Semaph.OpenCanRace`, `Semaph.RemovedInUse`).
* `sem_create` tries again when the set vanishes before its semop. When the set vanishes while it is asleep
  in that semop it exits with an error, and in runs without `sem_rm` it exits at no other step
  (`Semaph.CreateExitsExactlyAsleep`); such a run exists for any two processes
  (`Semaph.SleepingCreatorExits`). Without `sem_open` no other call exits either
  (`Semaph.OnlySleepersExitInRuns`).
* The merge finds a slice in every round exactly when every number is below LONG_MAX
  (`Merge.EveryRoundFinds`). A round that finds none goes on with the slice used last, so the output can
  still be right: for sorted slices it is, exactly when no number is LONG_MAX or those that are all stand
  directly behind the last of the greatest numbers below it (`Merge.RightExactly`). [1, LONG_MAX] alone
  comes out right (`Merge.OneSentinelIsRight`); [1, LONG_MAX] and [2, LONG_MAX] end in a read of nums[4]
  (`Merge.SentinelsGoWrong`).
* The NUL that ends a write to a write-only memory stream leaves the data alone exactly when the write ends
  at the end of the data and short of the end of the buffer, or where a NUL already was
  (`MemStream.NulIsHarmless`).
* A seek in a memory stream keeps its target in an int: it does what is asked exactly when the target fits
  one, or misses the data even when cut to 32 bits (`MemStream.SeekIsRight`); 4 gigabytes past the start of
  an empty stream is its start (`MemStream.SeekFarLands`).

## Model

| member | source | states |
|---|---|---|
| Decimal.AtolPadded | adv-prog-unix-env3rd-source/db/db.c:323-334 | reading a blank-padded decimal field gives back the number written, for every number and width |
| Decimal.AtolReads | adv-prog-unix-env3rd-source/db/db.c:333-414 | atol takes blanks, a sign and digits, stops at the first other character, and is 0 without digits |
| Decimal.FieldWidth | adv-prog-unix-env3rd-source/db/db.c:618-631 | a number below 10 to the width is written in exactly that many characters |
| DbRecord.ParseText_RoundTrip | adv-prog-unix-env3rd-source/db/db.c:385-418 | parsing the text of any legal record gives back its key, data offset and data length, passing every check |
| DbRecord.ParseAccepts | adv-prog-unix-env3rd-source/db/db.c:390-418 | a text of legal length that ends in a newline and has two separators is accepted exactly when its offset is not negative and its length in 1 to 1024, and gives its three fields |
| DbRecord.ParseRefuses | adv-prog-unix-env3rd-source/db/db.c:380-408 | a text of any other length, end or number of separators is refused |
| DbRecord.RecordOfAb | adv-prog-unix-env3rd-source/db/db.c:306-316 | one record, its fields and two hashes, one of a character above 127, spelled out |
| DbRecord.Fields_RoundTrip | adv-prog-unix-env3rd-source/db/db.c:567-612 | the fixed-width chain pointer and length fields read back, and the length says where the record ends |
| DbRecord.CutField | adv-prog-unix-env3rd-source/db/db.c:399-408 | in any buffer: a NUL over the first separator of a string leaves the field before it and the rest as strings of their own |
| DbRecord.RewriteKeepsLength | adv-prog-unix-env3rd-source/db/db.c:473-478 | a record rewritten with another key keeps its byte length exactly when the keys are equally long |
| Chain.PathVisitsOnce | adv-prog-unix-env3rd-source/db/db.c:289-296 | a list that ends goes through no cell twice: chains and free list are acyclic |
| Chain.PathUnique | adv-prog-unix-env3rd-source/db/db.c:289-296 | the pointers determine what a list holds, so a walk finds all of it |
| Chain.PathMove | adv-prog-unix-env3rd-source/db/db.c:483-512 | the three pointer writes of a deletion take exactly one element off one list and put it first on the other |
| DbFiles.ListsMove | adv-prog-unix-env3rd-source/db/db.c:483-523 | after a deletion all 138 lists are again paths, disjoint, and every cell is where its place says |
| DbFiles.ListsTake | adv-prog-unix-env3rd-source/db/db.c:786-804 | taking a record off the free list leaves it on no list and the others as they were |
| DbSteps.DeleteStep | adv-prog-unix-env3rd-source/db/db.c:463-525 | a deletion keeps the whole file well formed, removes exactly its key and leaves every other chain, record and data region alone |
| DbSteps.ReuseRecordStep | adv-prog-unix-env3rd-source/db/db.c:690-698 | filling and linking a free record stores exactly this key and data |
| DbSteps.AppendRecordStep | adv-prog-unix-env3rd-source/db/db.c:680-688 | appending data and index record and linking it stores exactly this key and data |
| DbSteps.OverwriteStep | adv-prog-unix-env3rd-source/db/db.c:732-738 | overwriting data of the same length changes the data of that key and nothing else |
| DbBytes.WriteIdxBytes | adv-prog-unix-env3rd-source/db/db.c:567-612 | rewriting a record in place with the same length leaves all other fields of the file byte for byte |
| DbBytes.WritePtrBytes | adv-prog-unix-env3rd-source/db/db.c:618-631 | writing one pointer field changes that cell and no other field |
| DbBytes.AppendIdxBytes | adv-prog-unix-env3rd-source/db/db.c:590-611 | an appended record extends the file by itself and touches nothing before it |
| DbBytes.RecordBytes | adv-prog-unix-env3rd-source/db/db.c:343-384 | what _db_readidx reads at a record's offset is that record's pointer, length and text |
| Db.DB.ReadPtr | adv-prog-unix-env3rd-source/db/db.c:323-334 | returns the pointer the cell holds |
| Db.DB.ReadIdx | adv-prog-unix-env3rd-source/db/db.c:343-418 | leaves key, data offset, data length and chain pointer of the record in the handle, or -1 at the end of the file |
| Db.DB.LoadText | adv-prog-unix-env3rd-source/db/db.c:384-417 | for any bytes: accepts them exactly when the parser does, and leaves the key, offset and length it finds |
| Db.DB.CutRecord | adv-prog-unix-env3rd-source/db/db.c:392-417 | the same for the string in the buffer, cut up in place |
| Db.DB.WriteIdx | adv-prog-unix-env3rd-source/db/db.c:567-612 | writes the record at an offset or at the end of the file, and sets the handle to it |
| Db.DB.WriteDat | adv-prog-unix-env3rd-source/db/db.c:531-560 | writes the data and its newline at an offset or at the end of the file |
| Db.DB.ReadDat | adv-prog-unix-env3rd-source/db/db.c:424-435 | returns the data of the record the handle describes |
| Db.DB.DbHash | adv-prog-unix-env3rd-source/db/db.c:306-316 | the loop, wrapping as an unsigned long at every step, gives the sum of characters times their index, modulo the table size |
| Db.DB.FindAndLock | adv-prog-unix-env3rd-source/db/db.c:259-301 | finds the record of the key if the database has the key, knows the cell that points to it, and terminates |
| Db.DB.FindFree | adv-prog-unix-env3rd-source/db/db.c:752-805 | takes off the free list the first record with these key and data lengths, or finds there is none |
| Db.DB.DoDelete | adv-prog-unix-env3rd-source/db/db.c:463-525 | removes exactly this key from the map and puts the blanked record first on the free list |
| Db.DB.BlankBuffers | adv-prog-unix-env3rd-source/db/db.c:469-478 | turns data and key in the two buffers into blanks of the same length |
| Db.DB.AppendRecord | adv-prog-unix-env3rd-source/db/db.c:680-688 | adds the key with its data to the map through new records at the ends of both files |
| Db.DB.ReuseRecord | adv-prog-unix-env3rd-source/db/db.c:690-698 | adds the key with its data to the map through a record from the free list |
| Db.DB.constructor | adv-prog-unix-env3rd-source/db/db.c:146-164 | a new database is well formed and empty |
| Db.DB.Fetch | adv-prog-unix-env3rd-source/db/db.c:233-253 | returns the data the map has for the key, or nothing |
| Db.DB.Delete | adv-prog-unix-env3rd-source/db/db.c:440-456 | removes the key; 0 if it was there and -1 if not |
| Db.DB.Store | adv-prog-unix-env3rd-source/db/db.c:637-746 | return code and new map for any flag, an insert of a key there, a replacement of one not there, and the stores that succeed; the files grow exactly when no record of the key or on the free list has the lengths |
| Db.DB.NextRec | adv-prog-unix-env3rd-source/db/db.c:835-875 | returns the next record whose key is not blank, in file order |
| Db.DB.Scan | adv-prog-unix-env3rd-source/db/db.c:812-875 | rewinding and reading to the end returns the visible records in file order |
| Db.ScanIsContents | adv-prog-unix-env3rd-source/db/db.c:846-867 | the scan returns exactly the pairs of the map whose key has a character that is not a blank, each once, in the order of their records |
| Db.ScanMissesBlankKey | adv-prog-unix-env3rd-source/db/db.c:855-867 | in a new database a key of one blank is stored, its data fetched, and the scan returns nothing |
| DbProtocol.RangesApart | adv-prog-unix-env3rd-source/db/db.c:270-283 | the four kinds of lock range never overlap, two chain locks only on the same chain |
| DbProtocol.StepKeepsInv | adv-prog-unix-env3rd-source/db/db.c:233-805 | every lock-to-lock segment of every process keeps the file well formed and refines the map operation |
| DbProtocol.RunsAreAtomic | adv-prog-unix-env3rd-source/db/db.c:233-805 | in every run of N processes the operations have the results and effects of some one-at-a-time order, and each operation asked for is one event of it and returns that event's result |
| DbProtocol.ReachableIsGood | adv-prog-unix-env3rd-source/db/db.c:134-805 | the same from the empty database on: what a process is returned is, in order, what took effect, and that is what it was asked for |
| DbProtocol.OnePlace | adv-prog-unix-env3rd-source/db/db.c:463-805 | at every step each record is on its own chain, on the free list, or private to one process, and nowhere else |
| DbProtocol.ResultsFollowWrites | adv-prog-unix-env3rd-source/db/db.c:233-746 | in every run from the empty database, what each fetch, delete and store returns, by what was last written under its key and not deleted before it |
| DbProtocol.MapIsLastWrites | adv-prog-unix-env3rd-source/db/db.c:233-746 | and at its end the map holds what was last written under every key |
| DbProtocol.ChangesAreLocked | adv-prog-unix-env3rd-source/db/db.c:259-805 | a segment changes the free list, its hash chain or the end of a file only under the lock for it, and walks a list only under its lock |
| DbProtocol.LocksExclude | adv-prog-unix-env3rd-source/db/db.c:270-283 | no other process then holds a lock that conflicts |
| DbProtocol.StartsExactly | adv-prog-unix-env3rd-source/db/db.c:270-283 | an operation can start exactly when no other is in progress on its chain, fetches beside fetches excepted |
| DbProtocol.BlockerIsAhead | adv-prog-unix-env3rd-source/db/db.c:481-484 | whoever blocks a process has locked further in the order chain, then free list or end of file |
| DbProtocol.SomeoneCanGo | adv-prog-unix-env3rd-source/db/db.c:259-805 | deadlock freedom: while some process is inside an operation, some process can go on |
| DbProtocol.StepsRunOut | adv-prog-unix-env3rd-source/db/db.c:233-746 | every operation ends after finitely many segments and then holds no lock |
| DbByteRuns.StepKeepsBytes | adv-prog-unix-env3rd-source/db/db.c:463-805 | the bytes each segment writes spell out the records it leaves, for any process and within the limits of the fields |
| DbByteRuns.RunsKeepBytes | adv-prog-unix-env3rd-source/db/db.c:463-805 | the same over every run of any number of processes |
| DbByteRuns.MapIsOnDisk | adv-prog-unix-env3rd-source/db/db.c:134-805 | at every moment of every run from an empty file: a key no store is just replacing is in the map exactly when it is on its chain, and there the bytes parse to that key and point to its data |
| FooTable.BucketFirst | adv-prog-unix-env3rd-source/threads/mutex2.c:57-63 | searching the one chain of an id finds the newest of all objects with that id |
| FooTable.LinkFirst | adv-prog-unix-env3rd-source/threads/mutex2.c:32-35 | the two stores of foo_alloc add the object to the table and keep all 29 chains |
| FooTable.Unlink | adv-prog-unix-env3rd-source/threads/mutex2.c:86-95 | pointing the cell before an object past it takes that object and no other out of the table |
| FooTable.SearchOn | adv-prog-unix-env3rd-source/threads/mutex2.c:57-63 | each step of the search is at a live object or at the newest one with the id |
| FooTable.WalkOn | adv-prog-unix-env3rd-source/threads/mutex2.c:88-94 | the walk to the cell before the object stays on its chain and cannot run past it |
| FooHistory.TableIsHistory | adv-prog-unix-env3rd-source/threads/mutex2.c:19-104 | after any calls one after the other the objects in the table are those with references given out and not taken back, as many as counted, the newest first |
| FooHistory.ResultsFitHistory | adv-prog-unix-env3rd-source/threads/mutex2.c:19-104 | each find returns the newest object made under its id that still has references, or NULL exactly when there is none; a new object is at an address nobody refers to |
| FooRefs.Shared | adv-prog-unix-env3rd-source/threads/mutex2.c:74-84 | an object two threads refer to has a count of at least two |
| Mutex2.StepKeepsInv | adv-prog-unix-env3rd-source/threads/mutex2.c:19-104 | every lock, read and write of every thread keeps the invariant, f_count equal to the references outstanding included |
| Mutex2.RunsAreAtomic | adv-prog-unix-env3rd-source/threads/mutex2.c:19-104 | every run of any number of threads, the unlock and relock window included, refines the atomic table; each call made is one event and returns that event's result |
| Mutex2.ReachableIsGood | adv-prog-unix-env3rd-source/threads/mutex2.c:19-104 | the same from the empty table on: what a thread is returned is, in order, what took effect, and that is what it called |
| Mutex2.ResultsFit | adv-prog-unix-env3rd-source/threads/mutex2.c:19-104 | the same of every run from the empty table on |
| Mutex2.CountsFit | adv-prog-unix-env3rd-source/threads/mutex2.c:19-104 | and at its end f_count of every object in the table is the number of references given out and not taken back |
| Mutex2.AllocReturnsMalloc | adv-prog-unix-env3rd-source/threads/mutex2.c:19-42 | in every run the foo_alloc calls of a thread return, in order, what malloc gave them: NULL exactly where it gave NULL |
| Mutex2.NoStepTouchesFreed | adv-prog-unix-env3rd-source/threads/mutex2.c:44-104 | no thread is ever about to touch an object that is not allocated |
| Mutex2.OneOwnerOutside | adv-prog-unix-env3rd-source/threads/mutex2.c:86-99 | an allocated object outside the table belongs to exactly one thread, which links or frees it, and nobody else refers to it |
| Mutex2.StepFree | adv-prog-unix-env3rd-source/threads/mutex2.c:96-99 | an object is freed only after it was unlinked, unlocked, by the one thread that has it |
| Mutex2.OneHolder | adv-prog-unix-env3rd-source/threads/mutex2.c:33-39 | mutual exclusion on hashlock and on each f_lock |
| Mutex2.HolderIsAhead | adv-prog-unix-env3rd-source/threads/mutex2.c:79-80 | locks are taken in the order hashlock, then f_lock |
| Mutex2.SomeoneCanGo | adv-prog-unix-env3rd-source/threads/mutex2.c:44-104 | deadlock freedom: while some thread is inside a call, some thread can go on |
| Mutex2.StepsRunOut | adv-prog-unix-env3rd-source/threads/mutex2.c:44-104 | every call ends after finitely many steps of its own |
| Mutex2.OthersLeaveIt | adv-prog-unix-env3rd-source/threads/mutex2.c:57-95 | no step of another thread changes how much a call has left to do |
| Mutex3.Foos.FooAlloc | adv-prog-unix-env3rd-source/threads/mutex3.c:18-41 | adds a new object with one reference, or returns NULL when malloc fails |
| Mutex3.Foos.FooHold | adv-prog-unix-env3rd-source/threads/mutex3.c:43-49 | adds one reference |
| Mutex3.Foos.FooFind | adv-prog-unix-env3rd-source/threads/mutex3.c:51-65 | returns the newest object with the id and one more reference, or NULL |
| Mutex3.Foos.Release | adv-prog-unix-env3rd-source/threads/mutex3.c:72-85 | takes one reference off and, at zero, the object off its chain |
| Mutex3.Foos.FooRele | adv-prog-unix-env3rd-source/threads/mutex3.c:67-90 | the same, and frees the object when it was the last reference |
| Mutex3.SectionDoes | adv-prog-unix-env3rd-source/threads/mutex3.c:18-90 | every critical section does to the table what the atomic operation does |
| Mutex3.RunsAreAtomic | adv-prog-unix-env3rd-source/threads/mutex3.c:18-90 | every run of any number of threads refines the same atomic table as the two-lock version; each call made is one event and returns that event's result |
| Mutex3.ResultsFit | adv-prog-unix-env3rd-source/threads/mutex3.c:18-90 | the same of every run from the empty table on |
| Mutex3.CountsFit | adv-prog-unix-env3rd-source/threads/mutex3.c:18-90 | and at its end f_count of every object in the table is the number of references given out and not taken back |
| Mutex3.AllocReturnsMalloc | adv-prog-unix-env3rd-source/threads/mutex3.c:18-41 | in every run the foo_alloc calls of a thread return, in order, what malloc gave them: NULL exactly where it gave NULL |
| Mutex3.EveryoneCanGo | adv-prog-unix-env3rd-source/threads/mutex3.c:67-90 | no thread is ever about to touch freed memory, so each can take its next step |
| Semaph.StepKeepsInv | adv-prog-unix-env3rd-source/lib/semaph.c:89-253 | every system call, and death before any of them, keeps the invariant while fewer than BIGCOUNT opens are outstanding |
| Semaph.RunsKeepInv | adv-prog-unix-env3rd-source/lib/semaph.c:89-253 | the same over every run |
| Semaph.CreateReturns | adv-prog-unix-env3rd-source/lib/semaph.c:89-163 | sem_create ends in exit, or returns with an initialised set open once more by its process: counted in [1], the undo value and the handles, and unlocked |
| Semaph.OpenReturns | adv-prog-unix-env3rd-source/lib/semaph.c:174-197 | the same of sem_open, which returns with nothing exactly when there is no set |
| Semaph.CloseReturns | adv-prog-unix-env3rd-source/lib/semaph.c:222-253 | sem_close ends in exit, or returns when it has removed the set or given back the lock |
| Semaph.CloseGivesBack | adv-prog-unix-env3rd-source/lib/semaph.c:222-253 | it gives back one open as it takes the lock, and goes on to remove the set if and only if nobody then has it open |
| Semaph.RemoveRemoves | adv-prog-unix-env3rd-source/lib/semaph.c:207-212 | sem_rm removes the set, whoever uses it, and exits when it is gone |
| Semaph.CallsReturn | adv-prog-unix-env3rd-source/lib/semaph.c:89-253 | the first three at every moment of every run from the start |
| Semaph.OpensAreCounted | adv-prog-unix-env3rd-source/lib/semaph.c:89-253 | in every run from the start a living process between calls has as many opens as sem_create and sem_open gave it, less its sem_close calls |
| Semaph.Conserved | adv-prog-unix-env3rd-source/lib/semaph.c:49-75 | member [1] plus all undo values is BIGCOUNT once initialised; member [2] is 0 or 1, and 1 exactly while one process is inside |
| Semaph.UndoIsExact | adv-prog-unix-env3rd-source/lib/semaph.c:25-31 | undo at exit is never cut off by the kernel's bounds |
| Semaph.CounterIsZero | adv-prog-unix-env3rd-source/lib/semaph.c:129-152 | an initialised counter reads 0 exactly with BIGCOUNT opens, and BIGCOUNT exactly when nobody has the set open |
| Semaph.InitialValue | adv-prog-unix-env3rd-source/lib/semaph.c:134-152 | the step that initialises [1] leaves in [0] the value its process passed to sem_create |
| Semaph.ValueWasPassed | adv-prog-unix-env3rd-source/lib/semaph.c:89-163 | in every run from the start, [0] of an initialised set is a value some sem_create of the run was called with |
| Semaph.ValueIsKept | adv-prog-unix-env3rd-source/lib/semaph.c:137-152 | once [1] is initialised no later sem_create writes [0] of that set |
| Semaph.CloseIsSafe | adv-prog-unix-env3rd-source/lib/semaph.c:222-253 | when all openers use sem_create, a set sem_close is about to remove is open to nobody |
| Semaph.RemovedInUse | adv-prog-unix-env3rd-source/lib/semaph.c:174-197 | a set in use is removed exactly when a live process completed sem_open between GETVAL and IPC_RMID |
| Semaph.OpenCanRace | adv-prog-unix-env3rd-source/lib/semaph.c:174-253 | from the start, any two processes have a run that ends there |
| Semaph.SleepingCreatorExits | adv-prog-unix-env3rd-source/lib/semaph.c:104-127 | any two processes have a run, without sem_open or death, in which sem_create exits because the set was removed while it slept |
| Semaph.CreatorExits | adv-prog-unix-env3rd-source/lib/semaph.c:104-163 | the next step of a sem_create makes its process exit if and only if it is asleep in its first semop and the set is gone |
| Semaph.CreateExitsExactlyAsleep | adv-prog-unix-env3rd-source/lib/semaph.c:89-253 | the same at every moment of every run from the start without sem_rm |
| Semaph.OnlySleepersExitInRuns | adv-prog-unix-env3rd-source/lib/semaph.c:89-253 | in every run from the start without sem_open and sem_rm, no other step of any call exits |
| Semaph.SomeoneCanGo | adv-prog-unix-env3rd-source/lib/semaph.c:89-253 | while some process is inside a call, some process can go on, a sem_open waiting for an uninitialised set excepted |
| JobQueue.Queue.AddJob | adv-prog-unix-env3rd-source/printer/printd.c:275-294 | appends a new job and keeps the doubly linked list |
| JobQueue.Queue.ReplaceJob | adv-prog-unix-env3rd-source/printer/printd.c:301-313 | puts a job at the head and keeps the doubly linked list |
| JobQueue.Queue.RemoveJob | adv-prog-unix-env3rd-source/printer/printd.c:320-331 | takes any one job out, wherever it is, and keeps the doubly linked list |
| JobQueue.OrderIsKept | adv-prog-unix-env3rd-source/printer/printd.c:688-841 | in every interleaving of clients and printer thread: jobs ended, then the one in flight, then the queue, are the jobs added in order |
| JobQueue.EndsInOrder | adv-prog-unix-env3rd-source/printer/printd.c:820-841 | deferral loses, duplicates and reorders no job |
| JobQueue.Daemon.Client | adv-prog-unix-env3rd-source/printer/printd.c:275-294 | a client's job goes to the end of the list, and nothing else changes |
| JobQueue.Daemon.TakeJob | adv-prog-unix-env3rd-source/printer/printd.c:688-700 | the printer thread gets the oldest job, and waits exactly when there is none |
| JobQueue.Daemon.EndJob | adv-prog-unix-env3rd-source/printer/printd.c:825-831 | a job that was printed is the next one ended |
| JobQueue.Daemon.DeferJob | adv-prog-unix-env3rd-source/printer/printd.c:833-840 | a job that failed is the next one again |
| TreeWalk.Walker.MyFtw | adv-prog-unix-env3rd-source/filedir/ftw8.c:56-68 | calls the function for the whole tree in preorder, for a path of any length |
| TreeWalk.Walker.DoPath | adv-prog-unix-env3rd-source/filedir/ftw8.c:76-121 | calls the function for the path and all below it in preorder up to the first nonzero result, leaves the caller's path in front of the buffer, never overruns it |
| TreeWalk.Walker.ReadDir | adv-prog-unix-env3rd-source/filedir/ftw8.c:107-115 | the same for the entries of one directory, dot and dot-dot left out |
| TreeWalk.CallsFor | adv-prog-unix-env3rd-source/filedir/ftw8.c:82-105 | what is called for a path that cannot be examined, a file, and a directory that can or cannot be read, the last with its slash |
| TreeWalk.WalkStaysInside | adv-prog-unix-env3rd-source/filedir/ftw8.c:82-115 | everything the walk reports but its own path is an entry, other than dot and dot-dot, of a directory it has reported before, or that directory if it cannot be read |
| TreeWalk.WalkVisitsAll | adv-prog-unix-env3rd-source/filedir/ftw8.c:107-115 | every entry of every directory reported, dot and dot-dot excepted, is reported after it |
| TreeWalk.NothingTwice | adv-prog-unix-env3rd-source/filedir/ftw8.c:82-115 | nothing is reported twice when the names in each directory differ and have no slash |
| TreeWalk.MadeStopsAtFirst | adv-prog-unix-env3rd-source/filedir/ftw8.c:107-115 | every call made returned 0 but the last, which returned the result of the walk |
| TreeWalk.DoublingSuffices | adv-prog-unix-env3rd-source/filedir/ftw8.c:95-100 | doubling the buffer always makes room for the next name exactly when it began with NAME_MAX + 1 bytes |
| SocketStrings.RoundTrip | ssl/Sgets.c:81-117 | as many gets as puts return the same strings and leave the rest of the stream, if and only if each is at most maxbuf - 3 long |
| SocketStrings.GetsString | ssl/Sgets.c:81-117 | the same for one string |
| SocketStrings.GetsOtherwise | ssl/Sgets.c:81-117 | a longer string comes back cut to maxbuf - 2 with its rest left in the stream; one that ends early is a failure |
| SocketStrings.ReadingEnds | ssl/Sreadbytes.c:51-54 | without errors, the receive loop is over after n rounds exactly when the stream has the n bytes asked for |
| SocketStrings.SwriteDocumented | ssl/Swrite.c:19-60 | the result is the documented one if and only if no send failed or the very first did |
| SocketStrings.SwriteFailsAfterThree | ssl/Swrite.c:23-57 | an input on which it is not |
| SocketStrings.Socket.Swrite | ssl/Swrite.c:53-60 | sends a prefix of the bytes and returns its length, all of them unless send fails |
| SocketStrings.Socket.Sputs | ssl/Sputs.c:36 | the stream grows by the string and its NUL, or by a front part of them after an error |
| SocketStrings.Socket.Sreadbytes | ssl/Sreadbytes.c:45-57 | reads the next bytes in order, however recv cuts them up, and has all n exactly when the stream does |
| SocketStrings.Socket.Sgets | ssl/Sgets.c:60-122 | for any chunking of peeks and receives, returns and consumes what the framing says, or fails when the stream ends first; even after an error the buffer ends in a NUL and at most maxbuf - 2 bytes are gone, in order |
| Merge.MergeSlices | adv-prog-unix-env3rd-source/threads/barrier.c:59-78 | for any numbers, slices and lengths: stays in bounds exactly when the specification of the rounds does, with its output; a sorted permutation when the slices are sorted and below the sentinel |
| Merge.PickHead | adv-prog-unix-env3rd-source/threads/barrier.c:68-74 | the slice with the least next number below the sentinel, or the slice used last when there is none |
| Merge.EveryRoundFinds | adv-prog-unix-env3rd-source/threads/barrier.c:66-77 | every round finds a slice if and only if every number is below the sentinel |
| Merge.RightExactly | adv-prog-unix-env3rd-source/threads/barrier.c:59-78 | the output is a sorted permutation if and only if no number is the sentinel or those that are stand directly behind the last of the greatest others |
| Merge.SentinelsGoWrong | adv-prog-unix-env3rd-source/threads/barrier.c:66-77 | an input on which two rounds find nothing and the second reads out of bounds |
| Merge.OneSentinelIsRight | adv-prog-unix-env3rd-source/threads/barrier.c:66-77 | an input on which a round finds nothing and the output is right |
| Merge.HeadIsLeast | adv-prog-unix-env3rd-source/threads/barrier.c:68-76 | the least of the slices' next numbers is below everything still to come |
| MemStream.TypeToFlags | adv-prog-unix-env3rd-source/exercises/fmemopen.c:96-138 | accepts exactly r, w or a followed by any '+' and 'b', and gives the flags for it |
| MemStream.FindEnd | adv-prog-unix-env3rd-source/exercises/fmemopen.c:140-151 | the first NUL of the buffer or its end |
| MemStream.FMemOpen | adv-prog-unix-env3rd-source/exercises/fmemopen.c:36-94 | exactly when it fails, failures of malloc and funopen included; an r stream shows the whole buffer, a w stream nothing, an a stream the bytes before the first NUL and stands behind them |
| MemStream.MemoryStream.MRead | adv-prog-unix-env3rd-source/exercises/fmemopen.c:153-171 | reads the bytes asked for from the position, or those there are |
| MemStream.MemoryStream.MWrite | adv-prog-unix-env3rd-source/exercises/fmemopen.c:173-204 | writes at the position or, appending, at the end; says every byte of the buffer afterwards, the added NUL included |
| MemStream.MemoryStream.MSeek | adv-prog-unix-env3rd-source/exercises/fmemopen.c:206-229 | moves anywhere within the data and nowhere else, by a target cut to an int |
| MemStream.SeekIsRight | adv-prog-unix-env3rd-source/exercises/fmemopen.c:206-229 | the seek does what is asked if and only if the target fits an int or misses the data even when cut |
| MemStream.WrittenReadsBack | adv-prog-unix-env3rd-source/exercises/fmemopen.c:153-204 | what was written reads back, all else is unchanged, an append goes to the end, and a short write fills the buffer |
| MemStream.NulIsHarmless | adv-prog-unix-env3rd-source/exercises/fmemopen.c:196-202 | exactly when the NUL after a write to a write-only stream leaves the data alone |
| PingPong.StepKeepsInv | examples/example-thrd/pingpong2.c:111-121 | every step keeps one token, in a semaphore or with a thread |
| PingPong.NoPostIsLost | examples/example-thrd/pingpong2.c:119-120 | at most one semaphore is positive, and the resets discard nothing |
| PingPong.EveryRun | examples/example-thrd/pingpong2.c:85-157 | under every interleaving and for every loop count: strict alternation from ping, bounded length, and both threads finish having worked in every round |

## Left out

- `db_open`, `db_close`: permissions, flags, file names and the lock around creation; a new handle stands for an empty database just created.
- `db.c`, the statistics counters and all printing.
- `db.c`, writev errors and crashes between two writes; the files are byte buffers.
- Db.DB: the locks do nothing for one process and are in DbProtocol instead. DbByteRuns has the bytes its segments write, not the reads and writes one at a time, and says nothing of runs that go past a limit.
- Db.DB.DoDelete: `_db_dodelete` passes the record buffer as the key that `_db_writeidx` formats back into the same buffer; the model has the result that is meant, the blanked key written once.
- DbProtocol.ResultsFollowWrites: no process is asked for a store with a flag that is none of the three, which returns before any lock; Db.DB.Store has it.
- `db_nextrec` while other processes write: the code promises nothing there.
- Mutex2: pthread_mutex_init is taken with malloc, as one step that may fail; ids are unbounded integers reduced as an unsigned long.
- Mutex3: alloc's f_lock, which nobody else ever takes, and the mutexes' destruction; each critical section is one step.
- `semaph.c`, sem_op on member [0]: with SEM_UNDO the kernel may cut its undo off, and no law of conservation holds; semget failures and private keys.
- Semaph.StepKeepsInv: asks for fewer than BIGCOUNT opens; CounterIsZero says what happens at BIGCOUNT.
- `printd.c` outside the queue: sockets, HTTP and IPP messages, spool files, signals, the worker list.
- TreeWalk.Walker.DoPath: the stat buffer passed along with each call, closedir errors, and trees that change during the walk.
- SocketStrings.Socket.Sgets: after an error of the connection the text in the buffer is not stated; the one-byte variant without peeking is not modelled.
- `barrier.c`, heapsort and the barrier: slices are assumed sorted when the merge begins.
- MemStream.FMemOpen: buffers of more than INT_MAX bytes, whose write positions int cannot hold; close.
- `pingpong2.c`, the arithmetic each thread does and its result.
- `drchipdbg/`, the PortMaster client, the termios, pty, daemon, signal and fork programs, the menu programs, `rwlock.c`, `readn.c`, `writen.c`, `setops.c`, `rot13a.c` and the solutions: plumbing, or easier forms of what is proved here.

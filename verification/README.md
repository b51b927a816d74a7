# Verification model of the firmware merging and emulation pipeline

This project models the parts of the repository whose correctness is not plain from
reading one function, and proves what they promise:

- **Copying** (`fast_copy.py`): one copy through a chain of transfer methods that may
  move any part of what they are asked for and may fail at any point, and a thread pool
  of such copies under every interleaving.
- **The emulator queue** (`job_queue.py`, `consumer.py`,
  `create_docker_emulator_images.py`): a batch producer, a daemon that leases addresses
  and port blocks, worker threads that give them back or die, other producers, all on
  one job table.
- **The slot scheduler** (`docker_spawn.py`): containers that start and vanish while the
  runner is looking for a free slot.
- **The JSON writer** (`json_writer.py`): a background thread that batches lines per file,
  may stop with batches unwritten, and may be started again.
- **Walks and indexes** (`aosp_post_build_injector.py`): the explicit-stack directory walk,
  the basename index against the plain walk, and the MD5 map over a pruned walk.
- **Text merges** (`aosp_build_property_merger.py`, `aosp_rc_merger.py`) on the characters
  of the files, and **policy merges** (`aosp_vintf_handler.py`,
  `aosp_sepolicy_merger.py`) on parsed documents and statements.

Loops and objects of the source are Dafny methods and classes, proved against functions
of their inputs; the lemmas then prove what the source promises about these functions.
Concurrent parts are state machines whose steps are the points at which another thread
can observe something; a run is a sequence of states, and the results hold for all runs.
System calls, tools and other processes are steps with any outcome.

## Findings

Where the code does not keep a promise on all inputs, the exact condition is proved.

- A copy with buffer size 0 can succeed with an empty destination, exactly if one of the
  two loops that use the buffer is available (`CopyProtocol.CompleteExactly`).
- The four host port ranges overlap from the 556th block on
  (`Leases.PortsDisjointExactly`).
- A worker that dies keeps its lease for good. From any reachable state another job can be
  handed out exactly if fewer workers have died than there are leases
  (`EmulatorRuns.ServedAgainExactly`); for any number of leases there is a run in which all
  of them die while a job is pending (`EmulatorRuns.StarvingRun`).
- A container whose removal fails outlives its lease. With up to 555 leases, there can come
  to be two containers, one of them possibly stopped, that were made with the same address or
  host port exactly if a removal can fail (`EmulatorRuns.SharingExactly`,
  `EmulatorRuns.SharingNeedsOutlived`).
- The JSON writer loses lines exactly if batches may hold more than one line, which its exit
  drops, or a line may be put after the worker that was found alive has left
  (`JsonWriter.LossExactly`).
- The slot scheduler never runs two containers in one slot, but it loses the image it has
  taken when the name of the slot's container is in use. That can happen exactly if a live
  container can fail to `reload` or a stopped one is not removed
  (`SlotAllocator.LossExactly`, `SlotAllocator.CollisionExactly`).
- The index lists symbolic links to directories as files, the plain walk does not. Searches
  with exact names over all of `obj` agree exactly if all such links are under `FAKE` and
  none has a name that no file has, while a file with its extension, not under `FAKE`, lies in
  the directory of the module it names (`FileIndex.IndexAgreesExactly`, `FileIndex.FindableExactly`). On trees without such links, a kind of search agrees
  exactly if names are exact and all of `obj` is walked (`FileIndex.KindAgreesExactly`).
- Adding a flag to services is idempotent exactly for flags the pass recognises in its
  own output (`RcMerger.AddFlagIdempotence`). It commutes with defusing exactly if the flag
  is neither empty nor `critical` and the inserted line, stripped, is not `critical`
  (`RcMerger.PassesCommuteExactly`).
- A HAL that both the primary manifest and the vendor have is removed on both sides. For any
  two stages and any listing, the survivors are as computed exactly if no `manifest.xml` is
  stuck (a root element other than `manifest`, and only HALs that are to be removed) and no
  HAL is only in files that are overwritten (`Vintf.SurvivorsExactly`). They are so for all
  listings exactly if no `manifest.xml` is stuck and every HAL that is left is in a file that
  nothing can be put over, or in two files of which the second is overwritten only after the
  first has moved away (`Vintf.SurvivorsInEveryOrder`). A vendor file whose name is taken
  overwrites whatever has its other name; `Vintf.ClashLoses` is an instance.
- The staged VINTF files are the same for all listings exactly if every vendor file that can
  be pushed from its name, by one that is moved there, would be put where the same file is
  anyway (`Vintf.OrderIndependentExactly`). `Vintf.OrderMatters` is an instance where it is
  not.

## Model

| member | source | states |
|---|---|---|
| FastCopy.TryCopyFileRange | fast_copy.py:40-54 | only the temporary file changes; if it succeeds with a buffer, that holds the whole source, whatever the sizes of the partial transfers |
| FastCopy.TrySendfile | fast_copy.py:57-74 | only the temporary file changes; on success it holds the whole source |
| FastCopy.Stream | fast_copy.py:13-18 | the streaming loop copies the whole source or reports a failure, touching the temporary file only |
| FastCopy.TransferAll | fast_copy.py:44-97 | the methods are tried in order, each only if those before it are missing or raised; the temporary file is filled exactly if one of them did not raise |
| FastCopy.DoCopy | fast_copy.py:21-112 | success with a usable buffer: the destination holds the source, everything else is as before and no temporary file is left; failure: no file that was there, and no named one, has changed; it succeeds exactly if the temporary file can be made, in one of the methods that are there no call raises, and the destination can be replaced |
| CopyProtocol.Confluence | fast_copy.py:115-151 | for copies with usable buffers that do not interfere: at every point of every interleaving the files are those of running the copies that have succeeded one after the other |
| CopyProtocol.Atomicity | fast_copy.py:90-112 | at every point a destination holds its whole old or its whole new content, by whether its copy has succeeded |
| CopyProtocol.WaitAllReturns | fast_copy.py:142-151 | when `wait_all` returns, all copies ever submitted have succeeded and the file system, temporary files included, is that of the sequential run |
| CopyProtocol.RunInv | fast_copy.py:35-112 | in every reachable state each live copy owns a temporary file that holds a prefix of its source as long as its progress |
| CopyProtocol.OneByOneHolds | fast_copy.py:131-140 | the sequential run of non-interfering copies leaves in every path what the start of the run determines |
| CopyProtocol.TruncatingRun | fast_copy.py:13-18 | without a buffer, if a loop that uses it is available, there is a run in which a copy succeeds and its destination is not the source |
| CopyProtocol.CompleteExactly | fast_copy.py:21-112 | no run has a truncated success, exactly if the buffer size is not zero or neither loop that uses it can run |
| CopyProtocol.EachMethodCopies | fast_copy.py:44-107 | for each method that is there, and any files, there is a run in which it copies the source to the destination |
| CopyPool.CopyManager.constructor | fast_copy.py:125-129 | no copies at first |
| CopyPool.CopyManager.Submit | fast_copy.py:131-134 | the copy is appended to the futures and waits |
| CopyPool.CopyManager.SubmitMany | fast_copy.py:136-140 | all pairs are appended in order |
| CopyPool.CopyManager.RunNext | fast_copy.py:131-134 | the pool ends one more copy, which succeeds exactly if what raised in it allows that; with usable buffers the files stay those of the sequential specification, for interfering copies too |
| CopyPool.CopyManager.WaitAll | fast_copy.py:142-151 | it times out exactly if copies are left; else the first failure in order of submission is raised, none exactly if all succeeded; a failed copy had no method left or could not be put in place; earlier results stay |
| JobQueue.Table.PushJob | job_queue.py:46-52 | a pending row with a new id is appended, which is then active |
| JobQueue.Table.FetchNextJob | job_queue.py:83-98 | a pending row with the earliest creation time is set to processing, or there is no pending row and nothing changes |
| JobQueue.Table.MarkJobCompleted | job_queue.py:101-104 | exactly the rows with that id become completed |
| JobQueue.Table.GetActiveJobCount | job_queue.py:55-72 | the number of active ids, or of those among the given ids |
| JobQueue.PushForward | job_queue.py:46-52 | a push keeps the table valid, moves no status back, and adds one active id that was not active |
| JobQueue.FetchForward | job_queue.py:83-98 | a fetch keeps identities and moves statuses forward only; the active ids stay |
| JobQueue.CompleteForward | job_queue.py:101-104 | completion removes exactly that id from the active ones |
| Leases.SetUpPools | consumer.py:17-31 | the pools hold the addresses from 172.31.250.130 on and one block of four ports per emulator, from 8554, 5555, 2222 and 5000 on |
| Leases.LeaseRange | consumer.py:17-31 | under conservation, pools and holders together have exactly these addresses and ports |
| Leases.PortsDisjointExactly | consumer.py:24-31 | all host ports of a pool of n blocks differ exactly if n is at most 555 |
| Leases.NoSharing | consumer.py:174-175 | if leases are conserved, two workers share neither an address nor a host port |
| EmulatorProtocol.NextForward | job_queue.py:46-104 | every step of every thread keeps the table valid and moves statuses forward |
| EmulatorProtocol.RunForward | job_queue.py:46-104 | over a whole run rows keep their identity and statuses never move back |
| EmulatorProtocol.PoolStep | consumer.py:179-195 | no step creates or loses a lease, and what the daemon has seen in the pools stays there until it takes it |
| EmulatorProtocol.JobsStep | job_queue.py:83-98 | no step hands out a job a second time |
| EmulatorProtocol.LeaseSafety | consumer.py:136-205 | in every reachable state, dead workers included, pools and holders together are the initial pools; holders share nothing; the `get` calls find something; each job was handed out at most once |
| EmulatorProtocol.RangeSafety | consumer.py:17-205 | in every reachable state nothing outside these ranges is in a pool or held |
| EmulatorProtocol.FirstComeFirstServed | job_queue.py:83-98 | while the clock does not run back, jobs are handed out in the order of creation over the whole run |
| EmulatorProtocol.DeadWorkersStarveQueue | consumer.py:47-79 | once as many workers are dead as there are leases, no job is handed out ever after |
| EmulatorProtocol.BatchStep | create_docker_emulator_images.py:719-740 | what holds of earlier batches after the wait is kept by every step of every thread |
| EmulatorProtocol.BatchBound | create_docker_emulator_images.py:887-1008 | while batch k (from 0) is in progress, the active jobs this producer queued number at most k times the allowance plus the size of the batch; without an allowance all belong to this batch |
| EmulatorRuns.WorkerMoves | consumer.py:81-176 | every worker that is not over can make a step towards its end, with its container left behind |
| EmulatorRuns.Serve | consumer.py:183-205 | with fewer workers dead than leases the run can be continued until another job is handed out |
| EmulatorRuns.ServedAgainExactly | consumer.py:47-79 | from any reachable state some continuation hands out another job exactly if fewer workers have died than there are leases |
| EmulatorRuns.StarvingRun | consumer.py:47-79 | for any number of leases, a run in which as many workers die in their cleaning while a job is pending |
| EmulatorRuns.SharingNeedsOutlived | consumer.py:136-176 | in every reachable state: if two containers were made with the same address or a common host port, one of them is still there, running or stopped, after its lease was given back |
| EmulatorRuns.CrowdedRun | consumer.py:154-175 | a run that leaves two containers made with the same address, because removals fail |
| EmulatorRuns.SharingExactly | consumer.py:136-176 | no two containers that exist at the same time in a run were made with a common address or host port exactly if containers can always be removed |
| ConsumerLoop.EnqueueBatch | create_docker_emulator_images.py:982-983 | the batch is appended as pending rows with consecutive new ids, which are returned in order |
| ConsumerLoop.Process.constructor | consumer.py:17-31 | the process starts with conserved pools of 20 |
| ConsumerLoop.Process.DaemonTurn | consumer.py:183-205 | an undisturbed turn leases the first address and ports to an oldest pending job, or changes nothing for want of one of them |
| ConsumerLoop.Process.ProcessEmulatorJob | consumer.py:34-176 | a worker dies with its lease and an unchanged table, or completes the job and appends the lease to the pools, whether its container is removed or not |
| JsonWriter.Conservation | json_writer.py:50-135 | in every reachable state: lines put for a file are, in order, those written or lost, the batch and those in flight; an intact file holds what it held and all kept lines; each ended worker lost less than a batch |
| JsonWriter.ExitPrefix | json_writer.py:58-135 | when the first worker ends, an intact file has gained a prefix of its lines that lacks fewer than a batch |
| JsonWriter.FlushedAll | json_writer.py:61-85 | after the flush of an empty poll only the queue is left; before any worker ended all other lines are in the file |
| JsonWriter.LosingRun | json_writer.py:127-135 | with batches of more than one line there is a run that drops a line of an intact file |
| JsonWriter.StrandingRun | json_writer.py:20-24 | with any batch size there is a run that leaves a line in the queue, put after the worker has left |
| JsonWriter.NothingStranded | json_writer.py:138-147 | without such late lines the queue is empty whenever nobody is at work |
| JsonWriter.LossExactly | json_writer.py:20-135 | no run loses or strands a line of an intact file exactly if the batch size is at most 1 and no line is put after the worker has left |
| JsonWriter.Writer.WriteJsonNdOutput | json_writer.py:20-24 | the line is last among those of its file |
| JsonWriter.LinesExactly | json_writer.py:60-102 | the lines of a file are those of all its entries, unchanged and in their order |
| JsonWriter.Writer.AppendTo | json_writer.py:104-119 | a file gains all the lines, or is marked as hit by an error; other files stay |
| JsonWriter.Writer.FlushAll | json_writer.py:64-85 | all batches reach their files and are gone |
| JsonWriter.Writer.Absorb | json_writer.py:98-119 | written and batched lines of each file together gain the entry in order, and batches stay below their size |
| JsonWriter.Writer.Turn | json_writer.py:58-126 | one turn keeps, for every intact file, the sequence of written, batched and queued lines |
| JsonWriter.Writer.Round | json_writer.py:58-126 | lines that arrive before a turn are last among those of their files |
| JsonWriter.Writer.Work | json_writer.py:50-135 | with lines arriving before each test, and the stop flag seen at any later one: all but fewer than a batch of the lines reach an intact file, in order |
| JsonWriter.Writer.Drain | json_writer.py:58-135 | the loop with the stop flag set empties the queue, and forgets fewer than a batch |
| SlotAllocator.GetAvailableResources | docker_spawn.py:25-73 | the lowest slot from 50 to 79 whose address and four ports no container was seen to use, with each of its bindings; nothing exactly if there is none |
| SlotAllocator.PicksKeep | docker_spawn.py:115-121 | the search keeps the invariant and comes back with a slot |
| SlotAllocator.SlotSafety | docker_spawn.py:108-160 | in every reachable state, whatever `reload` and the containers do: live containers are apart and at most 30, the branch without a slot is never taken, and the image queue's `get` finds an image |
| SlotAllocator.CollisionExactly | docker_spawn.py:50-65 | the slot picked is the lowest none of the containers read holds; its name is in use exactly if a stopped container or a live one that was not read has it |
| SlotAllocator.LosingRun | docker_spawn.py:123-136 | a run that loses an image, with a live container missed or a stopped one kept |
| SlotAllocator.LossExactly | docker_spawn.py:108-160 | no run loses an image for a name in use exactly if live containers can be read and stopped ones are removed |
| DirectoryWalk.List | aosp_post_build_injector.py:1514-1528 | one listing, split into directory names, file names and paths to follow |
| DirectoryWalk.ScandirWalk | aosp_post_build_injector.py:1506-1536 | the explicit stack yields the traversal that takes subdirectories from the last to the first, and terminates, on every tree |
| DirectoryWalk.TurnKeeps | aosp_post_build_injector.py:1512-1536 | what was yielded and what the stack will yield stay the same in a turn, and fewer nodes wait |
| DirectoryWalk.WalkPermutes | aosp_post_build_injector.py:1506-1536 | the visits are a permutation of those of the recursive traversal, with the same entries |
| DirectoryWalk.EveryDirectoryOnce | aosp_post_build_injector.py:1506-1536 | no path is yielded twice, and the paths yielded are exactly those of the readable directories that can be reached |
| DirectoryWalk.WalkExactly | aosp_post_build_injector.py:1575-1580 | a walk lists a file exactly if the tree has one at that path, through readable directories |
| DirectoryWalk.ListingsDiffer | aosp_post_build_injector.py:1519-1523 | against `os.walk` the stack lists the links to directories as well, and nothing else |
| DirectoryWalk.PathsJoined | aosp_post_build_injector.py:1531-1560 | paths are their names joined by slashes |
| FileIndex.BuildIndex | aosp_post_build_injector.py:269-291 | the index has exactly the listed files, each under its name |
| FileIndex.GetAllFiles | aosp_post_build_injector.py:1575-1580 | exactly the files a plain walk lists |
| FileIndex.IndexCandidates | aosp_post_build_injector.py:1666-1674 | files of that name, or, for exact searches without any, all files with the extension |
| FileIndex.WalkCandidates | aosp_post_build_injector.py:1675-1693 | the same from a walk; dropping incompatible matches early changes nothing among compatible ones |
| FileIndex.Match | aosp_post_build_injector.py:1701-1763 | the memoised directory names never change a decision |
| FileIndex.SearchOriginalFileInObj | aosp_post_build_injector.py:1615-1794 | through the index and without it, exactly the candidates that meet each rule: partition, vndk, ndk, com.android, module directory, extension, compatibility, FAKE and must_contain |
| FileIndex.RulesExactly | aosp_post_build_injector.py:1693-1787 | the search loop with its filters accepts exactly what meets these rules, told without it |
| Text.ReplaceFirst | aosp_post_build_injector.py:1707-1709 | the first occurrence of a word is replaced, and then those behind it |
| FileIndex.SplitsExactly | aosp_post_build_injector.py:1669-1690 | name and extension are split at the last dot that has something other than dots before it |
| FileIndex.WalkedExactly | aosp_post_build_injector.py:1640-1648 | the files walked are those the tree has below `obj`, or below the folder of the module type unless that is MISC, STATIC_CONFIG or empty |
| FileIndex.AgreeWithoutLinks | aosp_post_build_injector.py:1640-1675 | exact searches of MISC and STATIC_CONFIG get the same files from index and walk on trees without links to directories |
| FileIndex.IndexAgreesExactly | aosp_post_build_injector.py:1640-1794 | on any tree they agree for all such searches exactly if every link to a directory is under FAKE and either some file has its name, or no file with its extension that is not under FAKE lies in the directory of the module it names |
| FileIndex.FindableExactly | aosp_post_build_injector.py:1693-1787 | some search for a name returns a file of that extension exactly if it is not under FAKE and has the name, or its path, less two of its pieces, ends in the module named |
| FileIndex.HiddenByLink | aosp_post_build_injector.py:1669-1671 | when no link can be returned, index and walk differ exactly over one with the name searched for, while no file has it and the fallback finds one |
| FileIndex.OtherModulesDiffer | aosp_post_build_injector.py:1640-1643 | for every other module type, exact or not, some tree shows the difference |
| FileIndex.InexactDiffers | aosp_post_build_injector.py:1666-1675 | for every inexact search over obj some tree shows the difference |
| FileIndex.KindAgreesExactly | aosp_post_build_injector.py:1640-1693 | all searches of a module type and exactness agree on all trees without links to directories exactly if names are exact and all of obj is walked |
| Md5Map.Prune | aosp_post_build_injector.py:995-1003 | removing from `dirs` while going over a copy leaves exactly the directories that are not excluded |
| Md5Map.WalkPruned | aosp_post_build_injector.py:995-1006 | the files of the pruned walk |
| Md5Map.PruneIsFilter | aosp_post_build_injector.py:995-1018 | pruning equals keeping, of a full walk, the files in the root or in a directory whose path has no excluded prefix |
| Md5Map.KeptExactly | aosp_post_build_injector.py:995-1003 | kept are the files in the root and those whose directory path begins with no excluded path |
| Md5Map.Parallel | aosp_post_build_injector.py:993-1035 | for any order of completion only given files are filed, each under its digest, and all that can be hashed unless a failure is reported |
| Md5Map.BuildIntermediateMd5Map | aosp_post_build_injector.py:962-1070 | the map has exactly the kept, readable files of a size other than 0, each under its digest without outer white space and capitals, also when the serial pass had to finish it |
| Md5Map.Combine | aosp_post_build_injector.py:229-253 | the joined map covers exactly the roots whose map arrived, in any order |
| Md5Map.FindIntermediateFile | aosp_post_build_injector.py:868-904 | a lookup returns exactly the covered files of a size other than 0 whose digest is the one asked for, character by character, up to ASCII case and outer white space |
| Md5Map.NormSame | aosp_post_build_injector.py:879-879 | two digests come under one key exactly if they agree in this sense |
| PropertyMerger.ParseProperties | aosp_build_property_merger.py:71-102 | pairs and layout of a file; a missing file has none |
| PropertyMerger.ParsesAsPair | aosp_build_property_merger.py:86-99 | a line with an equals sign that is no comment is read as what is before and behind the first one, both without outer white space |
| PropertyMerger.ParsesAsText | aosp_build_property_merger.py:83-92 | any other line stays as it is, a blank one is emptied |
| PropertyMerger.FinalValues | aosp_build_property_merger.py:136-156 | vendor pairs overridden by AOSP pairs; conflicts are exactly the common keys |
| PropertyMerger.LayOut | aosp_build_property_merger.py:158-170 | the AOSP layout with final values |
| PropertyMerger.MergeProperties | aosp_build_property_merger.py:136-194 | the lines of the merge and the conflicts |
| PropertyMerger.StartPropertyMerge | aosp_build_property_merger.py:238-256 | the text of the merged file |
| PropertyMerger.ShownParses | aosp_build_property_merger.py:90-100 | a rendered pair, also with an empty key or value or further equals signs, parses to itself |
| PropertyMerger.ReadBack | aosp_build_property_merger.py:198-200 | reading the merged text gives exactly the merged lines |
| PropertyMerger.RoundTrip | aosp_build_property_merger.py:71-200 | parsing the rendered merge gives the vendor map overridden by the AOSP map, for any two files |
| PropertyMerger.LayoutKept | aosp_build_property_merger.py:158-170 | the output begins with the AOSP file line for line, property lines carrying final values |
| PropertyMerger.MergedTail | aosp_build_property_merger.py:172-200 | behind the AOSP part come, exactly if the vendor file has anything of its own, an empty line, the header, and a line for each such entry, in the order of the vendor file and each once |
| PropertyMerger.NewExactly | aosp_build_property_merger.py:176-193 | an entry of the vendor file is its own exactly if its line has a key that the AOSP file lacks, or text that is not blank and not in the AOSP part |
| PropertyMerger.VendorHeaderText | aosp_build_property_merger.py:179-188 | the words of the header |
| PropertyMerger.MergeIdempotent | aosp_build_property_merger.py:136-200 | merging the merged file with the same vendor file gives the identical text |
| RcMerger.AddFlagToServices | aosp_rc_merger.py:72-127 | the single pass computes the block-by-block specification |
| RcMerger.AddRunBlocks | aosp_rc_merger.py:81-126 | from any state of the loop the rest of the pass is the specification of the remaining blocks |
| RcMerger.PatchExact | aosp_rc_merger.py:81-126 | exactly the unflagged service blocks get one line at their end, with white space before it; nothing else changes |
| RcMerger.AddFlagEffect | aosp_rc_merger.py:81-126 | after the pass every service is flagged, and dropping the inserted lines gives the original back |
| RcMerger.AddFlagIdempotence | aosp_rc_merger.py:72-127 | the pass is idempotent on all files exactly for flags it recognises in its own output |
| RcMerger.DefuseCriticalServices | aosp_rc_merger.py:31-68 | the single pass computes the specification by blocks |
| RcMerger.DefuseEffect | aosp_rc_merger.py:44-67 | no service is critical afterwards; line count, sections and all other lines are kept |
| RcMerger.DefuseTwice | aosp_rc_merger.py:31-68 | defusing is idempotent |
| RcMerger.RunsSwap | aosp_rc_merger.py:31-127 | from any state of both loops one pass after the other comes to the same, also if the inserted line opens a section |
| RcMerger.PassesCommuteExactly | aosp_rc_merger.py:31-127 | for every flag and suffix the passes commute on all files exactly if the flag is neither empty nor `critical` and the inserted line is not `critical` either |
| RcMerger.PassesClash | aosp_rc_merger.py:31-127 | for an empty flag and for `critical` the order shows in the number of lines |
| RcMerger.InsertedClash | aosp_rc_merger.py:89-126 | an inserted line that is `critical` once stripped is defused in one order only |
| RcMerger.ComposedTwice | aosp_rc_merger.py:156-170 | both passes together are idempotent on lines |
| RcMerger.CommentOutTwice | aosp_rc_merger.py:9-28 | commenting out the self-check is idempotent, with the line ends of text mode |
| RcMerger.RunRcMerger | aosp_rc_merger.py:156-170 | which passes a file gets, by its path, and the text that is written |
| RcMerger.MergerTwice | aosp_rc_merger.py:156-170 | running the merger on its own output changes no character, for any independent recognised flag |
| RcMerger.RunRcMergerTwice | aosp_rc_merger.py:130-170 | the same for the words the source uses |
| RcLines.FlagLines | aosp_rc_merger.py:81-126 | line by line: all lines stay in order, and exactly behind the last line of each service without the flag, which is before a line that begins with "service ", "on " or "import " or at the end, one line is inserted, with the indentation last seen in a service |
| RcLines.ServiceFlagged | aosp_rc_merger.py:81-126 | between the opening line of any service and the next opening line, a line says the flag after the pass, if the appended text does |
| RcLines.DefusedLines | aosp_rc_merger.py:44-67 | line by line: `critical` inside a service becomes the note behind its indentation, no other line changes |
| RcLines.FileLines | aosp_rc_merger.py:130-170 | the text written for a file that is no `init.rc` is that of its lines after these passes, with the words of the source |
| RcLines.SelfCheckText | aosp_rc_merger.py:10-11 | the words that are commented out |
| Text.AsciiTables | aosp_rc_merger.py:42-49 | which characters of ASCII are white space, and at which lines end |
| Staging.OverrideMatrix | aosp_vintf_handler.py:322-343 | a renamed manifest is never taken for a matrix |
| Staging.PutStep | aosp_vintf_handler.py:307-337 | one turn keeps the description of the output by who was moved |
| Staging.ShapeOf | aosp_vintf_handler.py:307-337 | for any order: what was moved is under its other name, the rest under its own unless something was moved there |
| Staging.OrdersDiffer | aosp_vintf_handler.py:322-327 | if a file can be pushed to a place where it matters, shortest and longest names first give different outputs |
| Staging.LeadsStops | aosp_vintf_handler.py:322-327 | while a file stays under its name, nothing is put over any file it leads to |
| Staging.RiskTaken | aosp_vintf_handler.py:307-337 | with chosen files first and the rest by length, every name that can be covered is, unless a chosen file leads to it |
| Staging.OrderFreeExactly | aosp_vintf_handler.py:307-337 | all orders give the same output exactly if whatever can be pushed would be put where the same file is anyway |
| Vintf.ExtractHalNames | aosp_vintf_handler.py:68-77 | the set of names in the document |
| Vintf.RemoveDuplicateHals | aosp_vintf_handler.py:90-120 | what is left in the file, and which of the three results is reported when |
| Vintf.NeverEmpty | aosp_vintf_handler.py:291-300 | what passes the subset check cannot be reported empty |
| Vintf.InjectNames | aosp_vintf_handler.py:42-62 | injecting attributes changes no name |
| Vintf.AddAosp | aosp_vintf_handler.py:280-303 | what becomes of one AOSP file |
| Vintf.AddVendor | aosp_vintf_handler.py:307-337 | what becomes of one vendor file, renaming included |
| Vintf.MergeVintfArtifacts | aosp_vintf_handler.py:257-337 | the staged files for any listing orders, collisions included; each is a file of one side under its own or its other name, with some HALs left out, and each HAL optional in a matrix and overriding elsewhere, its other attribute as it was |
| Vintf.StagedHals | aosp_vintf_handler.py:42-62 | the same about each file of the output: which source file, which HALs, which attributes |
| Vintf.OrderIndependentExactly | aosp_vintf_handler.py:280-337 | for any two stages: the output is the same for all listings exactly if nothing is pushed where something else would be |
| Vintf.NoCollisionsOrderFree | aosp_vintf_handler.py:312-325 | if the names given on a clash are free, the order of listing does not matter |
| Vintf.SurvivorsExactly | aosp_vintf_handler.py:263-337 | for any two stages and any listing: surviving names are those of either side less those of both the primary manifest and the vendor, exactly if no manifest is stuck and no name is only in overwritten files |
| Vintf.SurvivorsSpelled | aosp_vintf_handler.py:263-337 | the same theorem told from the documents: a HAL survives if a file that is no matrix has it, unless both the primary manifest and the vendor have it |
| Vintf.NeverLostExactly | aosp_vintf_handler.py:280-337 | no listing loses a name exactly if each is in a file that nothing can be put over, or in two files of which the second is overwritten only after the first has moved away |
| Vintf.UnsafeLost | aosp_vintf_handler.py:307-337 | any other name is lost in a listing that starts with the vendor files that have it |
| Vintf.SurvivorsInEveryOrder | aosp_vintf_handler.py:263-337 | for any two stages: the surviving names are the expected ones in every listing exactly if no manifest is stuck and every name left is safe in that sense |
| Vintf.NoCollisionsNothingLost | aosp_vintf_handler.py:312-325 | if the names given on a clash are free, no name is lost |
| Vintf.OriginsDisjoint | aosp_vintf_handler.py:263-337 | no name is in files that come from both sides |
| Vintf.OrderMatters | aosp_vintf_handler.py:322-327 | two stages for which the order shows |
| Vintf.ClashLoses | aosp_vintf_handler.py:322-327 | two stages for which a name is lost in every order |
| Vintf.SeparateByType | aosp_vintf_handler.py:161-171 | the two lists partition the files by type |
| Cil.ExtractDeclaredTypes | aosp_sepolicy_merger.py:34-51 | the declared names, those in comments included |
| Cil.CleanVendorCil | aosp_sepolicy_merger.py:54-114 | the scrubbed lines |
| Cil.ScrubbedLine | aosp_sepolicy_merger.py:75-109 | a line stays as it is exactly if it names no duplicate where one is looked for; what is written names none |
| Cil.UntouchedKept | aosp_sepolicy_merger.py:72-109 | lines without a duplicate are in the result unchanged and in order |
| Cil.CleanTwice | aosp_sepolicy_merger.py:54-114 | scrubbing is idempotent |
| Cil.DeclaredExactly | aosp_sepolicy_merger.py:79-90 | the result declares exactly what the vendor did less the duplicates |
| Cil.MembersExactly | aosp_sepolicy_merger.py:92-107 | every other attribute keeps exactly its members less the duplicates |
| Cil.ScrubbedNames | aosp_sepolicy_merger.py:34-114 | the same about the scrubbing, with the declaring and the referring keywords written out |
| Cil.StripNeverallows | aosp_sepolicy_merger.py:122-142 | every `neverallow` and `neverallowx` becomes a comment in its place, with its text behind the mark, nothing else changes |
| Cil.RewrittenSet | aosp_sepolicy_merger.py:92-107 | an attribute set that loses some of its members is written anew with the others |
| Cil.MergeSepolicyPipeline | aosp_sepolicy_merger.py:208-224 | the vendor file declares, refers to in role, attribute and bounds statements, and names in attribute sets, nothing that the platform policy or the mapping declares; every vendor line that mentions no such name is in it unchanged, and attribute sets keep their other members |

## Left out

- FastCopy.DoCopy: the source does not change during a copy, and a transfer of zero bytes happens only at its end or when none were asked for; file modes and aliases of one path are not modelled.
- CopyProtocol.WaitAllReturns: calls of `wait_all` come one after the other; a pool is never shut down with copies waiting.
- CopyPool.CopyManager.WaitAll: a pool of one thread; several threads are the protocol's.
- EmulatorProtocol.LeaseSafety: a restart of the consumer process, which forgets its workers and sets up new pools, is not a step; an exception in the daemon's own loop, which ends the process, is a run that takes no further daemon step.
- EmulatorRuns.SharingExactly: containers that outlive their lease are not removed by somebody else.
- EmulatorProtocol.BatchBound: one producer's batches; waiting for disk space only delays its steps. That a wait ever ends is not claimed, and fails with dead workers.
- JsonWriter.Conservation: after an error in opening or writing a file, or a line appended because the thread could not be started, nothing is claimed about that file; open handles, `fsync` and the clock have no effect in the model.
- JsonWriter.LossExactly: the process ending while the worker is still at work; the shutdown waits for the queue and then at most one second for the worker.
- JsonWriter.Writer.Work: lines arrive between turns of the loop only; the protocol has them arrive at any step.
- SlotAllocator.SlotSafety: only the runner starts containers with its label, and nobody else uses their names.
- SlotAllocator.GetAvailableResources: an address is its last octet; addresses outside the subnet use no slot.
- DirectoryWalk.ScandirWalk: the tree does not change during a walk; a generator is modelled by the list of what it yields.
- FileIndex.SearchOriginalFileInObj: compatibility of a candidate (architecture, module rules) is any predicate of its path; order and number of the results are not claimed; a module type is the name of a folder, which is not a link; letters are folded to lower case in ASCII only.
- Md5Map.BuildIntermediateMd5Map: handing a file to the pool does not fail; sizes and digests do not change between the passes; the paths are absolute and normalised; loading and saving the map as a file is not modelled.
- PropertyMerger.StartPropertyMerge: the property filter, which always answers no, the rendering of the conflict file and the vendor header's text (a parameter; `VendorHeader` gives the one used) are not part of the result.
- RcMerger.RunRcMerger: reading and writing the file does not fail; decoding is left out.
- Vintf.MergeVintfArtifacts: documents are parsed, with their HALs directly under the root; malformed files, which the source edits with regular expressions under other rules, the flattening of directories with equal file names, and the assembling tool with its retry are left out.
- Cil.CleanVendorCil: one flat statement on a line, read as keyword and arguments; the counters that are only logged are left out.
- `write_json_output`, the image scanner, the Docker, ADB, HTTP and signing calls, key generation, the compiler run and its log: foreign calls or plain sequences of them.
- The decision which files are injected where (`aosp_module_type.py`, `search_and_inject`): a long cascade of configuration that would add only case splits.
- `generate_makefile_string`, partition sizes, batch slicing and compose files: easy members, or not used by the merges.

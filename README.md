# Neural-style art project: job store and render worker

The system turns a user's photo into paintings. A coordinator holds a queue of
rendering jobs, one per (photo, style) pair. Render workers poll it over RPC, run
the neural-style renderer on a GPU and report checkpoint images and the final
image back.

This project models two parts of it:

- **The coordinator's in-memory job store** (`memoryserver.dfy`, module
  `MemoryStore`). It is a class with three maps: pending, in progress and
  completed. Each is keyed by (ID, name, completed flag). A fourth map holds the
  loaded styles. Each RPC handler is a method that changes the maps. The
  methods keep one invariant, `StoreInv`:
  - the three maps are disjoint;
  - an ID is used by one key at most;
  - the flag and the presence of a final result agree with the map that holds
    the job;
  - the sizes of the maps add up to the number of jobs submitted.

  The web view's listing is built by a loop and proved against a specification
  function.
- **The render worker** (`worker.dfy`, module `Worker`). Every effect the worker
  has on the outside world is an `Action`: an RPC call, a file write, a file
  move, a sleep or the launch of the renderer. What the outside world answers
  during one pass of the polling loop is an `Environment`. A pass is a function
  from an environment to the list of actions issued, plus whether the worker
  crashed. The loop over passes (`Run`) and the loop over the renderer's output
  lines (`ScanStdout`) are methods proved against fold functions (`Trace`,
  `Scan`).

Supporting modules:

- `jobtypes.dfy` (`JobTypes`): the records of the coordinator and the protocol
  messages.
- `gostrings.dfy` (`GoStrings`): Go's `int32` conversion, integer division,
  `strings.TrimSpace`, `Split`, `Join` and `Contains`, and `strconv.Atoi` and
  `Itoa`.
- `gopath.dfy` (`GoPath`): Go's `path.Split`, `Ext`, `Clean` and `Join`.
- `wrappers.dfy` (`Wrappers`): `Option`.

Outside inputs become parameters:

- the clock is `now`;
- each UUID draw is an `Option<string>`, where `None` means the generator failed;
- the order in which Go visits a map is a sequence the caller chooses;
- the bytes of a style file read from disk are an `Option<Bytes>`;
- each success or failure of a directory creation, file write or process start
  is a boolean in `Environment`.

## Model

| member | source | states |
|---|---|---|
| MemoryStore.MemoryServer.constructor | server/memoryserver.go:28-36 | The new store is empty in all three job maps and the style map, keeps the output directory, and satisfies the store invariant. |
| MemoryStore.MemoryServer.LoadStyle | server/memoryserver.go:38-57 | When the file cannot be read, the result is an I/O error and the styles are unchanged. Otherwise the bytes are filed under the file's style name, and nothing else changes. The store invariant still holds afterwards. |
| MemoryStore.StyleName | server/memoryserver.go:52-54 | The name a style file is filed under: the last element of its path with the extension from the final dot removed. It never holds a slash. |
| MemoryStore.StyleNameStripsDirAndExt | server/memoryserver.go:52-54 | A style file `dir/base.e` is filed under `base`, whatever the directory and however many dots `base` holds. |
| MemoryStore.StyleNameWithoutExt | server/memoryserver.go:52-54 | A file whose last element has no dot is filed under that whole element. |
| MemoryStore.StyleNameOfElement | server/memoryserver.go:52-54 | The style name depends only on what follows the final slash: that element minus its extension. |
| MemoryStore.MemoryServer.CreateOne | server/memoryserver.go:76-101 | A failed UUID draw returns an error and files nothing. A successful one files exactly one new pending job: key (id, name, not completed), no partial results, no result, stamped now. The key was not present before, the invariant holds, and one more job counts as submitted. |
| MemoryStore.InsertPendingKeepsInv | server/memoryserver.go:86-101 | Filing a job under a key with an unused ID keeps the store invariant, with one more submission. |
| MemoryStore.MemoryServer.CreateJob | server/memoryserver.go:59-69 | The method visits every loaded style once, in the given order, and stops at the first failed draw. It succeeds iff every draw succeeded. The pending map becomes the old map plus one new job per visited style, each under its drawn key. On success the map grows by exactly the number of styles. The submission count grows by the number of jobs filed, and the store invariant holds. |
| MemoryStore.MemoryServer.CreateEach | server/memoryserver.go:61-66 | The loop over the styles: after it, the pending map is the old map plus the jobs of the styles visited before the first failed draw, and the submission count has grown by their number. |
| MemoryStore.CreateJobOnePerStyle | server/memoryserver.go:59-69 | When every draw succeeds, each loaded style gets exactly one new pending job under the request's name, with that style's image. Every old pending entry is kept unchanged, every new entry is such a job, and the pending map grows by exactly the number of styles. |
| MemoryStore.MemoryServer.CreateFullJob | server/memoryserver.go:71-74 | It files exactly one pending job for the style the caller supplies, or on a failed draw reports the error and files nothing. |
| MemoryStore.MemoryServer.RequestJob | server/memoryserver.go:133-168 | With nothing pending, the reply is the empty job and nothing changes. Otherwise one pending job moves to in progress under the same key, re-stamped. The reply names that key and carries both images labelled JPG. |
| MemoryStore.JobMessage | server/memoryserver.go:154-167 | The message for a dequeued job is never the empty job, carries both images, and carries the key's ID and name. |
| MemoryStore.DequeueKeepsInv | server/memoryserver.go:150-152 | Moving a pending job to in progress keeps the invariant; the key was not in progress before. |
| MemoryStore.MemoryServer.ProgressReport | server/memoryserver.go:177-195 | For a key not in progress, the result is a not-found error and nothing changes. Otherwise the image is appended to the job's partial results, the job is re-stamped and stays in progress, and nothing else changes. |
| MemoryStore.ProgressKeepsInv | server/memoryserver.go:192-193 | Appending a partial result keeps the invariant. |
| MemoryStore.MemoryServer.CompleteJob | server/memoryserver.go:211-248 | For a key not in progress, the result is a not-found error and nothing changes. Otherwise the job leaves in progress and is filed as completed under the key with the flag set, which was free, with its result set and re-stamped. |
| MemoryStore.CompleteKeepsInv | server/memoryserver.go:226-231 | Completing a job keeps the invariant; the completed key was not yet used. |
| MemoryStore.MemoryServer.FailJob | server/memoryserver.go:250-273 | For a key not in progress, the result is a not-found error and nothing changes. Otherwise the job goes back to pending under the identical key, with its partial results kept. |
| MemoryStore.FailKeepsInv | server/memoryserver.go:265-268 | Requeueing a failed job keeps the invariant; the key was not pending. |
| MemoryStore.FlagTellsMap | server/memoryserver.go:215-231 | Under the invariant, pending and in-progress keys are unflagged and have no result; completed keys are flagged and have a result. |
| MemoryStore.AtMostOnePartition | server/server.go:21-25 | Under the invariant, two stored keys with one ID are the same key, and a key is in one map only. A key with the flag cleared never finds a completed job. |
| MemoryStore.MemoryServer.GetAllJobs | server/memoryserver.go:275-301 | The counters are the live sizes of the three maps and add up to the number of jobs submitted. The job list is the pending listing in the visiting order. |
| MemoryStore.ProgressUrl | server/memoryserver.go:278-281 | The URL of a job's `i`-th partial result: `progress/`, the name, the ID and `i`, separated by slashes. |
| MemoryStore.PendingView | server/memoryserver.go:278-291 | How one pending job is listed: its ID and name, status "Pending", its style, content and result URLs, and one progress URL per partial result. `ProgressUrls` states the progress URLs. |
| MemoryStore.Listing | server/memoryserver.go:277-292 | The pending jobs listed in the order the keys are visited: one entry per key, the view of that key's job. |
| MemoryStore.ListPending | server/memoryserver.go:277-292 | The loop builds exactly the listing: one pending view per visited key, in order. |
| MemoryStore.ProgressUrls | server/memoryserver.go:278-281 | There is one progress address per partial result, in order, the i-th being `progress/name/id/i`. |
| MemoryStore.ListingShowsEachPendingJobOnce | server/memoryserver.go:275-292 | When the visit covers each pending key once, the listing has one entry per pending job. Every entry is the view of a pending job, every pending job appears, and no two entries share an ID and name. |
| Worker.New | worker/worker.go:28-34 | The default worker: no base directory, and 500 iterations, a number that is itself a checkpoint, so a full run can report its completion. |
| Worker.GetDirectory | worker/worker.go:195-197 | A job's directory: the base directory, the job's name and its ID, joined and cleaned as `path.Join` does. `JobDirectoryLayout` and `DefaultJobDirectory` state its shape. |
| Worker.Extension | worker/worker.go:204-210 | The extension for an image format: ".jpg" or ".png" for the two known formats and none for any other. A non-empty extension is a dot and three letters, with no slash. |
| Worker.JobDirectoryLayout | worker/worker.go:195-197 | Under a base of plain elements, a job's directory is base/name/id. |
| Worker.DefaultJobDirectory | worker/worker.go:195-197 | For a worker made by `New`, which sets no base directory, the job's directory is the relative path `name/id`. |
| Worker.PrepareFilename | worker/worker.go:199-203 | The result reports an error iff the directory could not be created, and then its path is `/tmp/dump`. |
| Worker.InputFileLayout | worker/worker.go:199-211 | With the directory in place, an input image is stored directly inside it as title plus `.jpg`, `.png` or nothing. |
| Worker.UnrelatedLineIgnored | worker/worker.go:116-120 | A line that never mentions "Iteration" is ignored. |
| Worker.ParseLine | worker/worker.go:116-121 | What one output line means: a line whose first word does not contain "Iteration" is ignored; one with no second word crashes the worker; otherwise the iteration is what `strconv.Atoi` returns for the second word. Its own contract only bounds the value by the range of `int`; the lemmas below state what a line means. |
| Worker.ProgressLineParses | worker/worker.go:116-125 | The renderer's line "Iteration n / m" reads as iteration n, for every 64-bit n. |
| Worker.BareIterationCrashes | worker/worker.go:119-121 | A line with the single word "Iteration" crashes the worker, because there is no second word to read. |
| Worker.OneWordCrashes | worker/worker.go:119-121 | Any one-word line that starts with "Iteration" crashes the worker. |
| Worker.IsCheckpoint | worker/worker.go:127 | Whether an iteration line starts a checkpoint: the number is above 50 and a multiple of 100. `CheckpointsAreHundreds` states it as the positive multiples of 100. |
| Worker.CheckpointsAreHundreds | worker/worker.go:127 | A reported iteration is a checkpoint iff it is a positive multiple of 100. |
| Worker.OutFile | worker/worker.go:129-133 | The image the renderer writes at a checkpoint: "out.png" at the configured maximum, otherwise "out_", the hundreds of the iteration, and "00.png". It is a file name ending in ".png", with no slash. |
| Worker.CheckpointFileName | worker/worker.go:129-133 | Before the last iteration, the checkpoint image `out_<i/100>00.png` is `out_<i>.png`. |
| Worker.CheckpointFilesDistinct | worker/worker.go:129-133 | Different checkpoints move different image files. |
| Worker.CheckpointActions | worker/worker.go:128-167 | A checkpoint waits 3 s, moves the image, then sends it. It sends CompleteJob iff the iteration, as an `int32`, equals the configured maximum, and ProgressReport otherwise. The report carries the job's ID and name, the iteration and the moved file's destination. |
| Worker.CheckpointImagePath | worker/worker.go:128-138 | For a worker made by `New`, the checkpoint image moves to `name/id/out_<i>.png`, or to `name/id/out.png` at iteration 500. |
| Worker.ScanStdout | worker/worker.go:114-171 | Reading the output line by line gives exactly the fold `Scan` over the parsed lines: the last iteration as `int32`, the checkpoint actions in order, and whether a line crashed the worker. |
| Worker.ReadLine | worker/worker.go:115-166 | Reading one line: an ignored line changes nothing; a crashing line, and only that, marks the worker crashed; an iteration line records its number as `int32` and, at a checkpoint, adds that checkpoint's actions. Actions are only ever appended. |
| Worker.Scan | worker/worker.go:114-171 | Every action issued while reading is a wait, a move, or a report naming the job. |
| Worker.ScanCrashes | worker/worker.go:116-121 | Reading crashes iff some line crashes it. |
| Worker.ScanLastIteration | worker/worker.go:125 | Without a crash, the recorded count is the last iteration line's number converted to `int32`. |
| Worker.ScanWithoutIterations | worker/worker.go:114-127 | Output with no iteration lines leaves the count at 0 and issues nothing. |
| Worker.CheckpointCompletes | worker/worker.go:162-166 | A checkpoint's actions hold CompleteJob iff its iteration, as `int32`, is the configured maximum. |
| Worker.ScanCompletes | worker/worker.go:127-166 | Without a crash, reading sends CompleteJob iff some checkpoint line reads as the configured maximum. |
| Worker.RenderCommand | worker/worker.go:86-93 | The renderer's command line, with the staged style and content files and the worker's number of iterations. `CommandArguments` states its arguments. |
| Worker.CommandArguments | worker/worker.go:86-93 | The renderer gets the staged style and content files, and the iteration count it reads back from the command line is the worker's maximum, unchanged. |
| Worker.RunJob | worker/worker.go:54-189 | Running a job: write the style image, then the content image, start the renderer, read its output and fail the job when the last iteration read is not the maximum. A failure while preparing, writing or starting fails the job at once; a missing content image or a crashing line crashes the worker. The lemmas below state its properties. |
| Worker.RunJobActsFor | worker/worker.go:54-189 | Everything done while running a job belongs to that job: no second RequestJob, and every report or failure names the job. |
| Worker.HandleJob | worker/worker.go:47-189 | The loop body once a job message is in hand: a 10 s wait for the empty job, a crash for a missing style image, otherwise the job's directory and image paths and then `RunJob`. |
| Worker.HandleJobActsFor | worker/worker.go:47-189 | The same holds for the whole body of the loop once a job message is in hand. |
| Worker.SetupFailureFailsOnce | worker/worker.go:57-111 | When preparing or writing the style image fails, whether or not the message carries a content image, or when preparing or writing the content image or starting the renderer fails, the job is failed once, as the last action, after at most the image writes. Nothing is launched or reported, and the worker carries on. |
| Worker.EndOfRunRule | worker/worker.go:185-189 | After the renderer ran with no crashing line, the job is failed iff the last iteration read is not the configured maximum. |
| Worker.CompleteRun | worker/worker.go:127-189 | For a worker made by `New`, if the last iteration line reads 500 and no line crashes, CompleteJob is sent and the job is not failed. |
| Worker.EmptyJobRetries | worker/worker.go:47-52 | An empty job message makes the pass a retry: the request, a 10 s wait, nothing else. |
| Worker.RunIterationAsWritten | worker/worker.go:42-47 | A pass starts with RequestJob. When that call returns an error, the worker crashes. |
| Worker.RequestErrorCrashesAsWritten | worker/worker.go:42-47 | As written, a failed RequestJob call crashes the worker immediately after the request. |
| Worker.RunIteration | worker/worker.go:42-52 | A pass starts with RequestJob and makes no other RequestJob call. |
| Worker.RequestErrorRetries | worker/worker.go:42-52 | With the correction, a failed RequestJob call is a retry like an empty queue, and every other pass is exactly as written. |
| Worker.Trace | worker/worker.go:36-190 | The actions of the loop over a sequence of passes, in the chosen version, up to and including the first crash. They are empty iff there are no passes, and otherwise start with RequestJob. |
| Worker.Pass | worker/worker.go:38-52 | Whichever version runs, a pass starts with RequestJob and makes no other RequestJob call. |
| Worker.Run | worker/worker.go:36-190 | The polling loop, running either the pass as written or the corrected one, issues exactly the fold `Trace` of its passes and stops at the first crash. |
| Worker.OneRequestPerPass | worker/worker.go:38-42 | In either version, up to a crash, the loop calls RequestJob exactly once per pass. |
| Worker.TraceCrashIsFinal | worker/worker.go:36-190 | In either version, once the worker has crashed, no later pass runs. |
| Worker.RequestErrorEndsLoopAsWritten | worker/worker.go:42-47 | As written, the first failed RequestJob call ends the loop: the request is the last action and nothing after it runs. With the correction the same pass waits 10 s and the loop goes on. |
| GoStrings.Atoi | worker/worker.go:121 | `strconv.Atoi` on a 64-bit platform. The value always lies in the range of `int`; an error comes with 0 or one of the bounds; success needs a digit or a sign first. `AtoiItoa`, `AtoiOverflowBeforeText` and `AtoiRejectsText` state the cases. |
| GoStrings.AtoiOverflowBeforeText | worker/worker.go:121 | `strconv.Atoi` reads digits left to right: digits whose value exceeds 64 unsigned bits give the nearest bound of `int` and a range error, even when text follows them. |
| GoStrings.AtoiRejectsText | worker/worker.go:121 | Digits that fit in 64 bits followed by a non-digit give 0 and a syntax error. |

## Left out

- File I/O and logging are not modelled. The store's copies of images under its output directory (`prepareFilename`/`WriteFile` in memoryserver.go, and server/os.go) are not part of this model: the source only logs their errors, so they never change a handler's outcome. The worker's file writes, moves and process start are actions or booleans of the environment, and it does not read the moved image's bytes back.
- The clock, the UUID generator, sleeps and Go's map iteration order are not modelled. Times are a `now` parameter and UUIDs are caller-supplied draws; the caller must keep each successful draw fresh, which stands in for UUID uniqueness. Sleeps are actions. Map order is a caller-chosen sequence that visits each key once. The dashes removed from the UUID text are part of the draw.
- The renderer process, its stderr and `bufio` line splitting are not modelled. The renderer is its command line (an action) plus the lines of output it prints (a parameter); its stderr is only echoed and is left out.
- Concurrency is not modelled. Each checkpoint goroutine runs, as one block of actions, at the point where its line is read, and the stdout reader finishes before the end-of-run check. In the source each checkpoint goroutine first sleeps 3 s and nothing waits for it. So the model's order of actions is the order in which the worker decides on them, not the order in which they happen or reach the coordinator:
  - a line that crashes the worker within 3 s of a checkpoint ends the process before that checkpoint's move and report, which the model still lists before the crash;
  - a checkpoint's report can arrive after the end-of-run `FailJob`, and the final `CompleteJob` after the next pass's `RequestJob`;
  - the unsynchronised read of `iterations` in the end-of-run check is a race.

  `Worker.RunJobActsFor`, `Worker.OneRequestPerPass` and the other lemmas about action order describe that decided order.
- Locks are not modelled, and neither is the absence of one in `GetAllJobs`. Each store method is one atomic step.
- MemoryStore.MemoryServer.CreateJob: the per-style interleaving is not captured. In the source the handler holds no lock of its own. Each `createJob` call takes and releases the lock, so other handlers can run between two styles, and a dequeue, report or listing can see a fan-out that is only partly filed. The model files all the styles in one step.
- `AcknowledgeJob`, `Close` and the `Get*Image` handlers are not modelled: they only return an error or nil.
- `Worker.Run` takes a finite sequence of passes in place of the infinite polling loop and its context.
- MemoryStore.MemoryServer.CreateJob and MemoryStore.MemoryServer.CreateFullJob assume the request carries its images. The source dereferences them without a nil check. A `CreateFullJob` request missing either image panics the server. A `CreateJob` request without a content image does so when at least one style is loaded, because the content image is read only inside the loop over the styles; with no style loaded it returns without error. The model has no such request.
- The boltdb store, the HTTP and RPC servers and the Android client are not part of this model.
- Strings are Dafny strings of Unicode scalar values, not Go's UTF-8 bytes. `TrimSpace`, `Split` and `Contains` are modelled on characters, which agrees with Go on valid UTF-8.
- Worker.PrepareFilename: states the two outcomes, not the cleaned path's shape; `InputFileLayout` states that shape for directories made of plain elements.
- MemoryStore.FlagTellsMap: `result` is `None` until a result has been assigned; it does not model Go's nil slice. An empty image decodes as nil in Go, so a job completed with an empty image has a nil result in the source but `Some([])` here.
- Worker.ParseLine's own contract only bounds an iteration value by the range of `int`. What a line means is stated by the lemmas about it.

## Findings

| source | as written | input that shows it | evidently intended | confidence | as-written member | corrected member |
|---|---|---|---|---|---|---|
| worker/worker.go:42-47 | When `RequestJob` returns an error, the code logs it and then compares `*job` with the empty job; the job pointer is nil, so the comparison dereferences nil and the worker panics | any pass in which the `RequestJob` RPC fails (`env.reply == None`) | treat the failure like an empty queue: wait and poll again | not executed | Worker.RequestErrorCrashesAsWritten | Worker.RequestErrorRetries |

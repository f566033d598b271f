/** The render worker (worker/worker.go): it polls the coordinator for a job,
    stages the job's images on disk, runs the neural-style renderer, turns the
    renderer's progress lines into checkpoint reports and, when the renderer
    stops short of the configured number of iterations, fails the job.

    Everything the worker does to the outside world is an `Action`; one pass
    of the polling loop maps what the outside world answers (an `Environment`)
    to the actions issued, in order. */
module Worker {
  import opened Wrappers
  import opened GoStrings
  import opened GoPath
  import opened JobTypes

  /** The worker's settings. The connection and the client stub are left out. */
  datatype Worker = Worker(basedir: string, maxIterations: int32)

  /** `New`: no base directory and 500 iterations. The number of iterations
      is itself a checkpoint, so a full run can report its completion. */
  function New(): (r: Worker)
    ensures r.basedir == "" && IsCheckpoint(r.maxIterations as int)
  {
    Worker("", 500)
  }

  /** What the worker does to the outside world. */
  datatype Action =
    | RequestJobCall
    | Sleep(seconds: int)
    | WriteFile(path: string, data: Bytes)
    | Launch(argv: seq<string>)
    | MoveFile(source: string, dest: string)
    | ProgressReportCall(id: string, name: string, progressCount: int32, imagePath: string)
    | CompleteJobCall(id: string, name: string, progressCount: int32, imagePath: string)
    | FailJobCall(id: string, name: string)

  // ---------------------------------------------------------------------------
  // Where the worker puts files

  /** `getDirectory`: the job's directory is `basedir/name/id`. */
  function GetDirectory(basedir: string, id: string, name: string): string
  {
    Join([basedir, name, id])
  }

  /** The file extension for an image format; none for a format it does not know. */
  function Extension(format: ImageFormat): (r: string)
    ensures r == "" <==> format.OtherFormat?
    ensures r != "" ==> |r| == 4 && r[0] == '.' && '/' !in r
  {
    match format
    case JPG => ".jpg"
    case PNG => ".png"
    case OtherFormat(_) => ""
  }

  /** The outcome of `prepareFilename`: the path and whether its error is nil. */
  datatype Prepared = Prepared(path: string, ok: bool)

  /** `prepareFilename`: `dirCreated` is whether `os.MkdirAll(dir)` succeeded.
      On failure the path is "/tmp/dump"; otherwise it is the file name with
      the format's extension, joined under `dir`. */
  function PrepareFilename(dir: string, filename: string, format: ImageFormat, dirCreated: bool): (r: Prepared)
    ensures r.ok == dirCreated
    ensures !dirCreated ==> r.path == "/tmp/dump"
  {
    if !dirCreated then Prepared("/tmp/dump", false)
    else Prepared(Join([dir, filename + Extension(format)]), true)
  }

  /** Under a base directory made of plain elements, a job's directory is the
      base, then the job's name, then its ID. */
  lemma JobDirectoryLayout(rooted: bool, bs: seq<string>, id: string, name: string)
    requires AllPlain(bs) && IsPlainElement(name) && IsPlainElement(id)
    ensures GetDirectory(Root(rooted) + JoinWith(bs, '/'), id, name) == Root(rooted) + JoinWith(bs + [name, id], '/')
  {
    assert AllPlain([name, id]);
    JoinUnderPlainPath(rooted, bs, [name, id]);
    assert [Root(rooted) + JoinWith(bs, '/')] + [name, id] == [Root(rooted) + JoinWith(bs, '/'), name, id];
  }

  /** A worker made by `New` keeps each job in the relative directory `name/id`. */
  lemma DefaultJobDirectory(id: string, name: string)
    requires IsPlainElement(name) && IsPlainElement(id)
    ensures GetDirectory(New().basedir, id, name) == name + "/" + id
  {
    JobDirectoryLayout(false, [], id, name);
    assert [] + [name, id] == [name, id];
    assert JoinWith([name, id], '/') == name + ['/'] + JoinWith([id], '/');
  }

  /** With the directory in place, an input image is stored as its title plus
      the format's extension, directly inside a directory made of plain elements. */
  lemma InputFileLayout(rooted: bool, bs: seq<string>, title: string, format: ImageFormat)
    requires AllPlain(bs) && IsPlainElement(title + Extension(format))
    ensures PrepareFilename(Root(rooted) + JoinWith(bs, '/'), title, format, true)
            == Prepared(Root(rooted) + JoinWith(bs + [title + Extension(format)], '/'), true)
  {
    var file := title + Extension(format);
    assert AllPlain([file]);
    JoinUnderPlainPath(rooted, bs, [file]);
  }

  // ---------------------------------------------------------------------------
  // Reading the renderer's output

  /** What one line of the renderer's standard output means to the worker:
      nothing, an iteration number, or a crash (a line whose first word mentions
      "Iteration" but that has no second word makes the worker index past the
      end of its word list). */
  datatype LineResult = Ignored | Iteration(value: int) | Crash

  /** Trims the line, splits it on single spaces and, when the first word
      contains "Iteration", reads the second word as an integer. A word that is
      not a number reads as whatever `strconv.Atoi` returns with its error
      (0, or the nearest bound of `int`), and that value is used anyway. */
  function ParseLine(line: string): (r: LineResult)
    ensures r.Iteration? ==> MinInt64 <= r.value <= MaxInt64
  {
    var tokens := Split(TrimSpace(line), ' ');
    if !Contains(tokens[0], "Iteration") then Ignored
    else if |tokens| < 2 then Crash
    else Iteration(Atoi(tokens[1]).value)
  }

  /** A line that nowhere mentions "Iteration" is ignored. */
  lemma UnrelatedLineIgnored(line: string)
    requires !Contains(line, "Iteration")
    ensures ParseLine(line) == Ignored
  {
    var t := TrimSpace(line);
    var tokens := Split(t, ' ');
    if Contains(tokens[0], "Iteration") {
      ContainsInHead(t, ' ', "Iteration");
      ContainsInTrimmed(line, "Iteration");
      assert false;
    }
  }

  /** The renderer's progress line "Iteration n / m" reads as iteration `n`. */
  lemma ProgressLineParses(n: int, m: int)
    requires MinInt64 <= n <= MaxInt64
    ensures ParseLine("Iteration " + Itoa(n) + " / " + Itoa(m)) == Iteration(n)
  {
    var line := "Iteration " + Itoa(n) + " / " + Itoa(m);
    var words := ["Iteration", Itoa(n), "/", Itoa(m)];
    assert JoinWith(words, ' ') == line by {
      LineWords(Itoa(n), Itoa(m), JoinWith(words, ' '), line);
    }
    SplitJoin(words, ' ');
    TrimSpaceOfTrimmed(line);
    ContainsAt("Iteration", "Iteration", 0);
    AtoiItoa(n);
  }

  /** The words of a progress line, joined by spaces, make the line. */
  lemma LineWords(a: string, b: string, joined: string, line: string)
    requires joined == JoinWith(["Iteration", a, "/", b], ' ')
    requires line == "Iteration " + a + " / " + b
    ensures joined == line
  {
    var ws := ["Iteration", a, "/", b];
    assert ws[1..] == [a, "/", b] && ws[1..][1..] == ["/", b] && ws[1..][1..][1..] == [b];
    var j3 := JoinWith(["/", b], ' ');
    assert ["/", b][1..] == [b];
    assert JoinWith([b], ' ') == b;
    assert j3 == "/" + [' '] + b;
    var j2 := JoinWith([a, "/", b], ' ');
    assert j2 == a + [' '] + j3;
    assert joined == "Iteration" + [' '] + j2;
  }

  /** A line whose only word mentions "Iteration" crashes the worker. */
  lemma BareIterationCrashes()
    ensures ParseLine("Iteration") == Crash
  {
    OneWordCrashes("Iteration");
  }

  /** A line of one word that mentions "Iteration" crashes the worker. */
  lemma OneWordCrashes(word: string)
    requires word != [] && !IsSpace(word[0]) && !IsSpace(word[|word| - 1])
    requires ' ' !in word && "Iteration" <= word
    ensures ParseLine(word) == Crash
  {
    TrimSpaceOfTrimmed(word);
    SplitWithoutSep(word, ' ');
    ContainsAt(word, "Iteration", 0);
  }

  // ---------------------------------------------------------------------------
  // Checkpoints

  /** A reported iteration is a checkpoint when it is past 50 and a multiple of 100. */
  predicate IsCheckpoint(i: int)
  {
    i > 50 && i % 100 == 0
  }

  /** The checkpoints are exactly the positive multiples of 100. */
  lemma CheckpointsAreHundreds(i: int)
    ensures IsCheckpoint(i) <==> exists k :: k >= 1 && i == 100 * k
  {
    if IsCheckpoint(i) {
      var k := i / 100;
      assert i == 100 * k;
    }
    if exists k :: k >= 1 && i == 100 * k {
      var k :| k >= 1 && i == 100 * k;
      assert i % 100 == 0;
    }
  }

  /** The image the renderer writes at checkpoint `i`: "out.png" at the last
      iteration, otherwise "out_" and the hundreds of `i` followed by "00.png". */
  function OutFile(i: int32, maxIterations: int32): (r: string)
    ensures '/' !in r && |r| >= 7 && r[|r| - 4..] == ".png"
  {
    if i != maxIterations then "out_" + Itoa(Quot(i as int, 100)) + "00.png" else "out.png"
  }

  /** Before the last iteration, the checkpoint image is named after the
      iteration itself. */
  lemma CheckpointFileName(i: int32, maxIterations: int32)
    requires IsCheckpoint(i as int) && i != maxIterations
    ensures OutFile(i, maxIterations) == "out_" + Itoa(i as int) + ".png"
  {
    var k := i as int / 100;
    assert i as int == 100 * k;
    assert Quot(i as int, 100) == k;
    ItoaTimes100(k);
    Regroup("out_", Itoa(k), OutFile(i, maxIterations), "out_" + Itoa(i as int) + ".png");
  }

  /** Moving the two zeros from the suffix to the number. */
  lemma Regroup(prefix: string, digits: string, a: string, b: string)
    requires a == prefix + digits + "00.png" && b == prefix + (digits + "00") + ".png"
    ensures a == b
  {
  }

  /** Different checkpoints write different images, so no checkpoint image
      overwrites another. */
  lemma CheckpointFilesDistinct(i: int32, j: int32, maxIterations: int32)
    requires IsCheckpoint(i as int) && IsCheckpoint(j as int) && i != j
    ensures OutFile(i, maxIterations) != OutFile(j, maxIterations)
  {
    if i != maxIterations && j != maxIterations {
      CheckpointFileName(i, maxIterations);
      CheckpointFileName(j, maxIterations);
      var fi := OutFile(i, maxIterations);
      var fj := OutFile(j, maxIterations);
      if fi == fj {
        DigitsBetween(Itoa(i as int), fi);
        DigitsBetween(Itoa(j as int), fj);
        AtoiItoa(i as int);
        AtoiItoa(j as int);
        assert false;
      }
    } else if i != maxIterations {
      CheckpointFileName(i, maxIterations);
      assert OutFile(i, maxIterations)[3] == '_';
    } else {
      CheckpointFileName(j, maxIterations);
      assert OutFile(j, maxIterations)[3] == '_';
    }
  }

  /** The number in a checkpoint file name sits between "out_" and ".png". */
  lemma DigitsBetween(digits: string, file: string)
    requires file == "out_" + digits + ".png"
    ensures file[4..|file| - 4] == digits
  {
  }

  // ---------------------------------------------------------------------------
  // Checkpoint reports

  /** What the worker does at a checkpoint line reading `i`, for job `job` kept
      in `dir`: it waits three seconds for the renderer to write the image,
      moves the image into the job's directory and sends it, as the final
      result when the iteration, as an `int32`, is the last one and as progress
      numbered by that iteration otherwise. */
  function CheckpointActions(w: Worker, job: WireJob, dir: string, i: int): (r: seq<Action>)
    ensures |r| == 3 && r[0] == Sleep(3) && r[1].MoveFile?
    ensures r[2].CompleteJobCall? <==> ToInt32(i) == w.maxIterations
    ensures r[2].ProgressReportCall? <==> ToInt32(i) != w.maxIterations
    ensures r[2].ProgressReportCall? || r[2].CompleteJobCall?
    ensures r[2].id == job.id && r[2].name == job.name && r[2].progressCount == ToInt32(i)
    ensures r[2].imagePath == r[1].dest
  {
    var c := ToInt32(i);
    var file := OutFile(c, w.maxIterations);
    var dest := Join([dir, file]);
    [Sleep(3), MoveFile(file, dest),
     if c != w.maxIterations then ProgressReportCall(job.id, job.name, c, dest)
     else CompleteJobCall(job.id, job.name, c, dest)]
  }

  /** For a worker made by `New` and a job with a plain name and ID, the image
      of a checkpoint before the last iteration is `name/id/out_<i>.png`, and
      the image of the last iteration is `name/id/out.png`. */
  lemma CheckpointImagePath(job: WireJob, i: int)
    requires IsPlainElement(job.name) && IsPlainElement(job.id)
    requires IsCheckpoint(i) && i <= 0x7fff_ffff
    ensures var r := CheckpointActions(New(), job, GetDirectory(New().basedir, job.id, job.name), i);
            && (i != 500 ==> r[1] == MoveFile("out_" + Itoa(i) + ".png", job.name + "/" + job.id + "/out_" + Itoa(i) + ".png"))
            && (i == 500 ==> r[1] == MoveFile("out.png", job.name + "/" + job.id + "/out.png"))
  {
    var c := ToInt32(i);
    assert c as int == i;
    var dir := GetDirectory(New().basedir, job.id, job.name);
    CheckpointMove(New(), job, dir, i);
    if i != 500 {
      IntermediateImagePath(job.id, job.name, c);
    } else {
      DefaultFileInJobDirectory(job.id, job.name, "out.png");
    }
  }

  /** An intermediate checkpoint image lands at `name/id/out_<i>.png`. */
  lemma IntermediateImagePath(id: string, name: string, c: int32)
    requires IsPlainElement(name) && IsPlainElement(id)
    requires IsCheckpoint(c as int) && c != 500
    ensures var file := OutFile(c, 500);
            && file == "out_" + Itoa(c as int) + ".png"
            && Join([GetDirectory(New().basedir, id, name), file]) == name + "/" + id + "/out_" + Itoa(c as int) + ".png"
  {
    var file := OutFile(c, 500);
    CheckpointFileName(c, 500);
    PlainCheckpointFile(Itoa(c as int), file);
    DefaultFileInJobDirectory(id, name, file);
  }

  /** The image a checkpoint moves is the checkpoint's file, into the job's directory. */
  lemma CheckpointMove(w: Worker, job: WireJob, dir: string, i: int)
    ensures var file := OutFile(ToInt32(i), w.maxIterations);
            CheckpointActions(w, job, dir, i)[1] == MoveFile(file, Join([dir, file]))
  {
  }

  /** The name of a checkpoint image before the last iteration is a plain element. */
  lemma PlainCheckpointFile(digits: string, file: string)
    requires '/' !in digits && file == "out_" + digits + ".png"
    ensures IsPlainElement(file)
  {
    assert file[3] == '_';
    assert forall k :: 0 <= k < |file| ==> file[k] == '/' ==> 4 <= k < 4 + |digits| && digits[k - 4] == '/';
  }

  /** For a worker made by `New`, a plain file inside a job's directory is
      `name/id/file`. */
  lemma DefaultFileInJobDirectory(id: string, name: string, file: string)
    requires IsPlainElement(name) && IsPlainElement(id) && IsPlainElement(file)
    ensures Join([GetDirectory(New().basedir, id, name), file]) == name + "/" + id + "/" + file
  {
    DefaultJobDirectory(id, name);
    JoinUnderPlainPath(false, [name, id], [file]);
    ThreeElements(name, id, file, JoinWith([name, id] + [file], '/'));
    TwoElements(name, id, GetDirectory(New().basedir, id, name));
  }

  /** Two elements joined by a slash. */
  lemma TwoElements(a: string, b: string, joined: string)
    requires joined == a + "/" + b
    ensures joined == Root(false) + JoinWith([a, b], '/')
  {
    assert [a, b][1..] == [b];
    assert JoinWith([b], '/') == b;
  }

  /** Three elements joined by slashes. */
  lemma ThreeElements(a: string, b: string, c: string, joined: string)
    requires joined == JoinWith([a, b] + [c], '/')
    ensures joined == a + "/" + b + "/" + c
  {
    var es := [a, b] + [c];
    assert es == [a, b, c] && es[1..] == [b, c] && es[1..][1..] == [c];
    assert JoinWith([c], '/') == c;
    assert JoinWith([b, c], '/') == b + ['/'] + c;
  }

  // ---------------------------------------------------------------------------
  // Reading the renderer's standard output

  /** What each line of the output means to the worker. */
  function ParseAll(lines: seq<string>): (r: seq<LineResult>)
    ensures |r| == |lines|
  {
    seq(|lines|, k requires 0 <= k < |lines| => ParseLine(lines[k]))
  }

  /** Each parsed line is the meaning of the line in the same place. */
  lemma ParseAllAt(lines: seq<string>, i: nat)
    requires i < |lines|
    ensures ParseAll(lines)[i] == ParseLine(lines[i])
  {
  }

  /** What the worker knows after reading part of the renderer's output: the
      last iteration read, as Go's `int32`; the actions issued for checkpoints
      so far, in order; and whether a line crashed the worker. */
  datatype ScanState = ScanState(iterations: int32, actions: seq<Action>, crashed: bool)

  /** Every action is part of a checkpoint of `job`: a wait, a move, or a
      report naming the job. */
  predicate ReportsFor(job: WireJob, actions: seq<Action>)
  {
    forall a | a in actions ::
      || a == Sleep(3)
      || a.MoveFile?
      || ((a.ProgressReportCall? || a.CompleteJobCall?) && a.id == job.id && a.name == job.name)
  }

  /** Reading one more line: an iteration line records its number, as an
      `int32`, and a checkpoint adds its actions. */
  function ReadLine(w: Worker, job: WireJob, dir: string, s: ScanState, line: LineResult): (r: ScanState)
    requires !s.crashed
    ensures r.crashed <==> line.Crash?
    ensures s.actions <= r.actions
    ensures line.Ignored? ==> r == s
  {
    match line
    case Ignored => s
    case Crash => s.(crashed := true)
    case Iteration(i) =>
      ScanState(ToInt32(i), if IsCheckpoint(i) then s.actions + CheckpointActions(w, job, dir, i) else s.actions, false)
  }

  /** Reading the renderer's output line by line, from an iteration count of 0,
      up to the end or the first line that crashes the worker. */
  function Scan(w: Worker, job: WireJob, dir: string, lines: seq<LineResult>): (r: ScanState)
    ensures ReportsFor(job, r.actions)
    decreases |lines|
  {
    if lines == [] then ScanState(0, [], false)
    else
      var prev := Scan(w, job, dir, lines[..|lines| - 1]);
      if prev.crashed then prev
      else
        var r := ReadLine(w, job, dir, prev, lines[|lines| - 1]);
        assert ReportsFor(job, r.actions) by {
          if lines[|lines| - 1].Iteration? && IsCheckpoint(lines[|lines| - 1].value) {
            ReportsForAppend(job, prev.actions, CheckpointActions(w, job, dir, lines[|lines| - 1].value));
          }
        }
        r
  }

  lemma ReportsForAppend(job: WireJob, xs: seq<Action>, ys: seq<Action>)
    requires ReportsFor(job, xs)
    requires |ys| == 3 && ys[0] == Sleep(3) && ys[1].MoveFile?
    requires (ys[2].ProgressReportCall? || ys[2].CompleteJobCall?) && ys[2].id == job.id && ys[2].name == job.name
    ensures ReportsFor(job, xs + ys)
  {
    forall a | a in xs + ys
      ensures || a == Sleep(3)
              || a.MoveFile?
              || ((a.ProgressReportCall? || a.CompleteJobCall?) && a.id == job.id && a.name == job.name)
    {
      if a !in xs {
        assert a == ys[0] || a == ys[1] || a == ys[2];
      }
    }
  }

  /** Once a line has crashed the worker, nothing after it is read. */
  lemma {:induction false} CrashIsFinal(w: Worker, job: WireJob, dir: string, lines: seq<LineResult>, k: nat)
    requires k <= |lines| && Scan(w, job, dir, lines[..k]).crashed
    ensures Scan(w, job, dir, lines) == Scan(w, job, dir, lines[..k])
    decreases |lines|
  {
    if k < |lines| {
      var front := lines[..|lines| - 1];
      assert front[..k] == lines[..k];
      CrashIsFinal(w, job, dir, front, k);
    } else {
      assert lines[..k] == lines;
    }
  }

  /** Reading one more line of output extends the reading of the lines before it. */
  lemma ScanStep(w: Worker, job: WireJob, dir: string, lines: seq<LineResult>, i: nat)
    requires i < |lines| && !Scan(w, job, dir, lines[..i]).crashed
    ensures Scan(w, job, dir, lines[..i + 1]) == ReadLine(w, job, dir, Scan(w, job, dir, lines[..i]), lines[i])
  {
    assert lines[..i + 1][..i] == lines[..i];
  }

  /** Reading a line that reports iteration `n` records it and, at a checkpoint,
      issues the checkpoint's actions. */
  lemma ScanIteration(w: Worker, job: WireJob, dir: string, lines: seq<LineResult>, i: nat, n: int)
    requires i < |lines| && !Scan(w, job, dir, lines[..i]).crashed && lines[i] == Iteration(n)
    ensures var s := Scan(w, job, dir, lines[..i]);
            Scan(w, job, dir, lines[..i + 1])
            == ScanState(ToInt32(n), if n > 50 && n % 100 == 0 then s.actions + CheckpointActions(w, job, dir, n) else s.actions, false)
  {
    ScanStep(w, job, dir, lines, i);
  }

  /** Reading a line that the worker ignores changes nothing. */
  lemma ScanIgnored(w: Worker, job: WireJob, dir: string, lines: seq<LineResult>, i: nat)
    requires i < |lines| && !Scan(w, job, dir, lines[..i]).crashed && lines[i] == Ignored
    ensures Scan(w, job, dir, lines[..i + 1]) == Scan(w, job, dir, lines[..i])
  {
    ScanStep(w, job, dir, lines, i);
  }

  /** The meaning of a line, in terms of the words the reading loop splits it into. */
  lemma ParsedAt(lines: seq<string>, i: nat, tokens: seq<string>)
    requires i < |lines| && tokens == Split(TrimSpace(lines[i]), ' ')
    ensures ParseAll(lines)[i]
            == if !Contains(tokens[0], "Iteration") then Ignored
               else if |tokens| < 2 then Crash
               else Iteration(Atoi(tokens[1]).value)
  {
    ParseAllAt(lines, i);
  }

  /** The stdout-reading goroutine: reads line after line until the output
      ends, recording iterations and issuing checkpoint actions; a line that
      crashes the worker ends the reading. */
  method ScanStdout(w: Worker, job: WireJob, dir: string, lines: seq<string>) returns (r: ScanState)
    ensures r == Scan(w, job, dir, ParseAll(lines))
  {
    ghost var results := ParseAll(lines);
    assert results[..|lines|] == results;
    var iterations: int32 := 0;
    var actions: seq<Action> := [];
    var i := 0;
    while i < |lines|
      invariant i <= |lines|
      invariant Scan(w, job, dir, results[..i]) == ScanState(iterations, actions, false)
    {
      var tokens := Split(TrimSpace(lines[i]), ' ');
      ParsedAt(lines, i, tokens);
      if Contains(tokens[0], "Iteration") {
        if |tokens| < 2 {
          ScanStep(w, job, dir, results, i);
          r := ScanState(iterations, actions, true);
          CrashIsFinal(w, job, dir, results, i + 1);
          return;
        }
        var n := Atoi(tokens[1]).value;
        ScanIteration(w, job, dir, results, i, n);
        iterations := ToInt32(n);
        if n > 50 && n % 100 == 0 {
          actions := actions + CheckpointActions(w, job, dir, n);
        }
      } else {
        ScanIgnored(w, job, dir, results, i);
      }
      i := i + 1;
    }
    r := ScanState(iterations, actions, false);
  }

  /** Reading crashes the worker exactly when some line crashes it. */
  lemma {:induction false} ScanCrashes(w: Worker, job: WireJob, dir: string, lines: seq<LineResult>)
    ensures Scan(w, job, dir, lines).crashed <==> Crash in lines
    decreases |lines|
  {
    if lines != [] {
      var front := lines[..|lines| - 1];
      ScanCrashes(w, job, dir, front);
      InFront(lines, front, Crash);
    }
  }

  /** A value occurs in a non-empty sequence when it occurs before the last
      element or is the last element. */
  lemma InFront<T>(xs: seq<T>, front: seq<T>, x: T)
    requires xs != [] && front == xs[..|xs| - 1]
    ensures x in xs <==> x in front || x == xs[|xs| - 1]
  {
    assert xs == front + [xs[|xs| - 1]];
  }

  /** After reading the whole output without a crash, the recorded iteration is
      the number on the last iteration line, as an `int32`. */
  lemma {:induction false} ScanLastIteration(w: Worker, job: WireJob, dir: string, lines: seq<LineResult>, j: nat)
    requires !Scan(w, job, dir, lines).crashed
    requires j < |lines| && lines[j].Iteration?
    requires forall k :: j < k < |lines| ==> !lines[k].Iteration?
    ensures Scan(w, job, dir, lines).iterations == ToInt32(lines[j].value)
    decreases |lines|
  {
    var front := lines[..|lines| - 1];
    if j < |front| {
      assert front[j] == lines[j];
      ScanLastIteration(w, job, dir, front, j);
    }
  }

  /** Output without iteration lines leaves the iteration count at 0 and issues
      nothing. */
  lemma {:induction false} ScanWithoutIterations(w: Worker, job: WireJob, dir: string, lines: seq<LineResult>)
    requires forall k :: 0 <= k < |lines| ==> lines[k] == Ignored
    ensures Scan(w, job, dir, lines) == ScanState(0, [], false)
    decreases |lines|
  {
    if lines != [] {
      ScanWithoutIterations(w, job, dir, lines[..|lines| - 1]);
    }
  }

  /** Line `j` reads as the last iteration and is a checkpoint. */
  predicate CompletesAt(w: Worker, lines: seq<LineResult>, j: int)
  {
    && 0 <= j < |lines|
    && lines[j].Iteration?
    && IsCheckpoint(lines[j].value)
    && ToInt32(lines[j].value) == w.maxIterations
  }

  /** The actions hold a `CompleteJob` call. */
  predicate HasCompletion(actions: seq<Action>)
  {
    exists a :: a in actions && a.CompleteJobCall?
  }

  lemma HasCompletionAppend(xs: seq<Action>, ys: seq<Action>)
    ensures HasCompletion(xs + ys) <==> HasCompletion(xs) || HasCompletion(ys)
  {
    if HasCompletion(xs + ys) {
      var a :| a in xs + ys && a.CompleteJobCall?;
      assert a in xs || a in ys;
    }
    if HasCompletion(xs) {
      var a :| a in xs && a.CompleteJobCall?;
      assert a in xs + ys;
    }
    if HasCompletion(ys) {
      var a :| a in ys && a.CompleteJobCall?;
      assert a in xs + ys;
    }
  }

  /** The actions of a checkpoint complete the job exactly when the iteration,
      as an `int32`, is the last one. */
  lemma CheckpointCompletes(w: Worker, job: WireJob, dir: string, i: int)
    ensures HasCompletion(CheckpointActions(w, job, dir, i)) <==> ToInt32(i) == w.maxIterations
  {
    var acts := CheckpointActions(w, job, dir, i);
    if HasCompletion(acts) {
      var a :| a in acts && a.CompleteJobCall?;
      assert a == acts[0] || a == acts[1] || a == acts[2];
    }
    assert acts[2] in acts;
  }

  /** A completing line is one before the last line or the last line itself. */
  lemma CompletesAtExtend(w: Worker, lines: seq<LineResult>, front: seq<LineResult>)
    requires lines != [] && front == lines[..|lines| - 1]
    ensures (exists j :: CompletesAt(w, lines, j))
            <==> (exists j :: CompletesAt(w, front, j)) || CompletesAt(w, lines, |lines| - 1)
  {
    if exists j :: CompletesAt(w, lines, j) {
      var j :| CompletesAt(w, lines, j);
      if j < |front| {
        assert front[j] == lines[j];
        assert CompletesAt(w, front, j);
      }
    }
    if exists j :: CompletesAt(w, front, j) {
      var j :| CompletesAt(w, front, j);
      assert front[j] == lines[j];
      assert CompletesAt(w, lines, j);
    }
  }

  /** Reading the whole output without a crash sends `CompleteJob` exactly when
      some checkpoint line reads as the last iteration. */
  lemma {:induction false} ScanCompletes(w: Worker, job: WireJob, dir: string, lines: seq<LineResult>)
    requires !Scan(w, job, dir, lines).crashed
    ensures HasCompletion(Scan(w, job, dir, lines).actions) <==> exists j :: CompletesAt(w, lines, j)
    decreases |lines|
  {
    if lines == [] {
      assert !HasCompletion([]);
    } else {
      var front := lines[..|lines| - 1];
      var line := lines[|lines| - 1];
      var prev := Scan(w, job, dir, front);
      ScanCompletes(w, job, dir, front);
      CompletesAtExtend(w, lines, front);
      if line.Iteration? && IsCheckpoint(line.value) {
        var acts := CheckpointActions(w, job, dir, line.value);
        assert Scan(w, job, dir, lines).actions == prev.actions + acts;
        HasCompletionAppend(prev.actions, acts);
        CheckpointCompletes(w, job, dir, line.value);
      } else {
        assert Scan(w, job, dir, lines).actions == prev.actions;
        assert !CompletesAt(w, lines, |lines| - 1);
      }
    }
  }

  // ---------------------------------------------------------------------------
  // One pass of the polling loop

  /** What the outside world answers during one pass of the loop: the reply to
      `RequestJob` (None when the call returns an error), whether each
      directory creation and file write succeeded, whether the renderer's pipes
      and process could be set up, and the lines it prints before it exits. */
  datatype Environment = Environment(
    reply: Option<WireJob>,
    styleDirCreated: bool,
    styleWritten: bool,
    contentDirCreated: bool,
    contentWritten: bool,
    started: bool,
    stdout: seq<string>)

  /** The actions of a pass, in order, and whether the worker crashed. */
  datatype Step = Step(actions: seq<Action>, crashed: bool)

  /** The renderer's command line. */
  function RenderCommand(styleFile: string, contentFile: string, maxIterations: int32): seq<string>
  {
    ["th", "neural_style.lua",
     "-style_image", styleFile,
     "-content_image", contentFile,
     "-backend", "cudnn", "-cudnn_autotune",
     "-gpu", "0",
     "-print_iter", "1",
     "-num_iterations", Itoa(maxIterations as int)]
  }

  /** The renderer gets the staged style and content images and runs for the
      worker's number of iterations, which it reads back from the command line
      unchanged. */
  lemma CommandArguments(styleFile: string, contentFile: string, maxIterations: int32)
    ensures var argv := RenderCommand(styleFile, contentFile, maxIterations);
            && |argv| == 15
            && argv[2] == "-style_image" && argv[3] == styleFile
            && argv[4] == "-content_image" && argv[5] == contentFile
            && argv[13] == "-num_iterations" && Atoi(argv[14]) == ParsedInt(maxIterations as int, true)
  {
    CommandLayout(styleFile, contentFile, maxIterations);
    AtoiItoa(maxIterations as int);
  }

  /** Where each argument sits on the renderer's command line. */
  lemma CommandLayout(styleFile: string, contentFile: string, maxIterations: int32)
    ensures var argv := RenderCommand(styleFile, contentFile, maxIterations);
            && |argv| == 15
            && argv[2] == "-style_image" && argv[3] == styleFile
            && argv[4] == "-content_image" && argv[5] == contentFile
            && argv[13] == "-num_iterations" && argv[14] == Itoa(maxIterations as int)
  {
  }

  /** Every action issued while handling `job` belongs to it: no further
      `RequestJob`, and every report or failure names the job. */
  predicate ActsFor(job: WireJob, actions: seq<Action>)
  {
    forall a | a in actions ::
      && a != RequestJobCall
      && ((a.FailJobCall? || a.ProgressReportCall? || a.CompleteJobCall?) ==> a.id == job.id && a.name == job.name)
  }

  /** The body of the loop once a job message is in hand: retry after ten
      seconds on the empty job; otherwise work out the job's directory and the
      paths of its two images and run the job. A missing style image crashes
      the worker. */
  function HandleJob(w: Worker, job: WireJob, env: Environment): Step
  {
    if job == EmptyJob then Step([Sleep(10)], false)
    else if job.style.None? then Step([], true)
    else
      var dir := GetDirectory(w.basedir, job.id, job.name);
      var style := PrepareFilename(dir, job.style.value.title, job.style.value.format, env.styleDirCreated);
      var content :=
        if job.content.None? then None
        else Some(PrepareFilename(dir, job.content.value.title, job.content.value.format, env.contentDirCreated));
      RunJob(w, job, env, dir, style, content, ParseAll(env.stdout))
  }

  /** Running a job whose directory is `dir` and whose images go to `style` and
      `content`: write the style image, then the content image, start the
      renderer, read its output and, when the last iteration read is not the
      configured one, fail the job. Any failure while preparing, writing or
      starting fails the job at once. A missing content image crashes the
      worker, as does a crashing output line. */
  function RunJob(w: Worker, job: WireJob, env: Environment, dir: string, style: Prepared, content: Option<Prepared>,
                  lines: seq<LineResult>): Step
    requires job.style.Some? && (job.content.Some? <==> content.Some?)
  {
    var fail := [FailJobCall(job.id, job.name)];
    if !style.ok then Step(fail, false)
    else
      var staged := [WriteFile(style.path, job.style.value.image)];
      if !env.styleWritten then Step(staged + fail, false)
      else if content.None? then Step(staged, true)
      else if !content.value.ok then Step(staged + fail, false)
      else
        var staged2 := staged + [WriteFile(content.value.path, job.content.value.image)];
        if !env.contentWritten || !env.started then Step(staged2 + fail, false)
        else
          var launched := staged2 + [Launch(RenderCommand(style.path, content.value.path, w.maxIterations))];
          var scan := Scan(w, job, dir, lines);
          if scan.crashed then Step(launched + scan.actions, true)
          else if scan.iterations != w.maxIterations then Step(launched + scan.actions + fail, false)
          else Step(launched + scan.actions, false)
  }

  /** The renderer's start: the style and content images were prepared and
      written and the renderer could be started. */
  predicate Started(env: Environment, style: Prepared, content: Option<Prepared>)
  {
    style.ok && env.styleWritten && content.Some? && content.value.ok && env.contentWritten && env.started
  }

  /** Everything `RunJob` does belongs to the job in hand. */
  lemma RunJobActsFor(w: Worker, job: WireJob, env: Environment, dir: string, style: Prepared, content: Option<Prepared>,
                                lines: seq<LineResult>)
    requires job.style.Some? && (job.content.Some? <==> content.Some?)
    ensures ActsFor(job, RunJob(w, job, env, dir, style, content, lines).actions)
  {
    if Started(env, style, content) {
      RenderingActsFor(w, job, env, dir, style, content, lines);
    } else {
      StagingActsFor(w, job, env, dir, style, content, lines);
    }
  }

  lemma StagingActsFor(w: Worker, job: WireJob, env: Environment, dir: string, style: Prepared, content: Option<Prepared>,
                                lines: seq<LineResult>)
    requires job.style.Some? && (job.content.Some? <==> content.Some?)
    requires !Started(env, style, content)
    ensures ActsFor(job, RunJob(w, job, env, dir, style, content, lines).actions)
  {
  }

  lemma RenderingActsFor(w: Worker, job: WireJob, env: Environment, dir: string, style: Prepared, content: Option<Prepared>,
                                lines: seq<LineResult>)
    requires job.style.Some? && (job.content.Some? <==> content.Some?)
    requires Started(env, style, content)
    ensures ActsFor(job, RunJob(w, job, env, dir, style, content, lines).actions)
  {
    var scan := Scan(w, job, dir, lines);
    var launched := [WriteFile(style.path, job.style.value.image)] + [WriteFile(content.value.path, job.content.value.image)]
                    + [Launch(RenderCommand(style.path, content.value.path, w.maxIterations))];
    ActsForReports(job, launched, scan.actions);
    if !scan.crashed && scan.iterations != w.maxIterations {
      ActsForFail(job, launched + scan.actions);
    }
  }

  lemma ActsForFail(job: WireJob, xs: seq<Action>)
    requires ActsFor(job, xs)
    ensures ActsFor(job, xs + [FailJobCall(job.id, job.name)])
  {
  }

  /** Everything `HandleJob` does belongs to the job in hand. */
  lemma HandleJobActsFor(w: Worker, job: WireJob, env: Environment)
    ensures ActsFor(job, HandleJob(w, job, env).actions)
  {
    if job != EmptyJob && job.style.Some? {
      var dir := GetDirectory(w.basedir, job.id, job.name);
      var style := PrepareFilename(dir, job.style.value.title, job.style.value.format, env.styleDirCreated);
      var content :=
        if job.content.None? then None
        else Some(PrepareFilename(dir, job.content.value.title, job.content.value.format, env.contentDirCreated));
      RunJobActsFor(w, job, env, dir, style, content, ParseAll(env.stdout));
    }
  }

  lemma ActsForReports(job: WireJob, xs: seq<Action>, ys: seq<Action>)
    requires ActsFor(job, xs) && ReportsFor(job, ys)
    ensures ActsFor(job, xs + ys)
  {
    forall a | a in xs + ys
      ensures && a != RequestJobCall
              && ((a.FailJobCall? || a.ProgressReportCall? || a.CompleteJobCall?) ==> a.id == job.id && a.name == job.name)
    {
      if a in ys {
        assert a == Sleep(3) || a.MoveFile? || ((a.ProgressReportCall? || a.CompleteJobCall?) && a.id == job.id && a.name == job.name);
      }
    }
  }

  /** One pass of the loop as the code is written: when `RequestJob` returns an
      error the job pointer is nil, and comparing it with the empty job
      dereferences it, which crashes the worker. */
  function RunIterationAsWritten(w: Worker, env: Environment): (r: Step)
    ensures r.actions != [] && r.actions[0] == RequestJobCall && RequestJobCall !in r.actions[1..]
    ensures env.reply.None? ==> r.crashed
  {
    if env.reply.None? then Step([RequestJobCall], true)
    else
      var s := HandleJob(w, env.reply.value, env);
      HandleJobActsFor(w, env.reply.value, env);
      assert ([RequestJobCall] + s.actions)[1..] == s.actions;
      Step([RequestJobCall] + s.actions, s.crashed)
  }

  /** One pass of the loop, with a failed `RequestJob` treated as an empty
      queue: wait ten seconds and poll again. */
  function RunIteration(w: Worker, env: Environment): (r: Step)
    ensures r.actions != [] && r.actions[0] == RequestJobCall && RequestJobCall !in r.actions[1..]
  {
    if env.reply.None? then Step([RequestJobCall, Sleep(10)], false)
    else
      var s := HandleJob(w, env.reply.value, env);
      HandleJobActsFor(w, env.reply.value, env);
      assert ([RequestJobCall] + s.actions)[1..] == s.actions;
      Step([RequestJobCall] + s.actions, s.crashed)
  }

  /** An empty job message makes the pass a retry: nothing but the request
      and a ten-second wait. */
  lemma EmptyJobRetries(w: Worker, env: Environment)
    requires env.reply == Some(EmptyJob)
    ensures RunIteration(w, env) == Step([RequestJobCall, Sleep(10)], false)
  {
  }

  /** As written, a failed `RequestJob` call crashes the worker right after
      the request. */
  lemma RequestErrorCrashesAsWritten(w: Worker, env: Environment)
    requires env.reply.None?
    ensures RunIterationAsWritten(w, env) == Step([RequestJobCall], true)
  {
  }

  /** With the correction, a failed `RequestJob` call is retried like an empty
      queue, and every other pass is exactly as written. */
  lemma RequestErrorRetries(w: Worker, env: Environment)
    ensures env.reply.None? ==> RunIteration(w, env) == Step([RequestJobCall, Sleep(10)], false)
    ensures env.reply.Some? ==> RunIteration(w, env) == RunIterationAsWritten(w, env)
  {
  }

  /** When preparing or writing the style image fails (with or without a
      content image), or preparing or writing the content image or starting the
      renderer does, the job is failed exactly once, as the last action, after
      at most the image writes; nothing is launched or reported and the worker
      carries on. */
  lemma SetupFailureFailsOnce(w: Worker, job: WireJob, env: Environment, dir: string, style: Prepared, content: Option<Prepared>,
                              lines: seq<LineResult>)
    requires job.style.Some? && (job.content.Some? <==> content.Some?)
    requires !style.ok || !env.styleWritten || (content.Some? && !Started(env, style, content))
    ensures var r := RunJob(w, job, env, dir, style, content, lines);
            && !r.crashed
            && r.actions != [] && r.actions[|r.actions| - 1] == FailJobCall(job.id, job.name)
            && forall k :: 0 <= k < |r.actions| - 1 ==> r.actions[k].WriteFile?
  {
  }

  /** When the renderer ran and no output line crashed the worker, the job is
      failed exactly when the last iteration read is not the configured one. */
  lemma EndOfRunRule(w: Worker, job: WireJob, env: Environment, dir: string, style: Prepared, content: Option<Prepared>,
                     lines: seq<LineResult>)
    requires job.style.Some? && job.content.Some? && content.Some?
    requires Started(env, style, content)
    requires Crash !in lines
    ensures var r := RunJob(w, job, env, dir, style, content, lines);
            && !r.crashed
            && (FailJobCall(job.id, job.name) in r.actions <==> Scan(w, job, dir, lines).iterations != w.maxIterations)
  {
    var scan := Scan(w, job, dir, lines);
    ScanCrashes(w, job, dir, lines);
    var launched := [WriteFile(style.path, job.style.value.image)] + [WriteFile(content.value.path, job.content.value.image)]
                    + [Launch(RenderCommand(style.path, content.value.path, w.maxIterations))];
    assert FailJobCall(job.id, job.name) !in scan.actions;
    assert FailJobCall(job.id, job.name) !in launched;
    assert FailJobCall(job.id, job.name) !in launched + scan.actions;
  }

  /** A worker made by `New` whose renderer ran and whose last iteration line
      reads 500, with no crashing line, sends `CompleteJob` and does not fail
      the job. */
  lemma CompleteRun(job: WireJob, env: Environment, dir: string, style: Prepared, content: Option<Prepared>,
                    lines: seq<LineResult>, j: nat)
    requires job.style.Some? && job.content.Some? && content.Some?
    requires Started(env, style, content)
    requires Crash !in lines
    requires j < |lines| && lines[j] == Iteration(500)
    requires forall k :: j < k < |lines| ==> !lines[k].Iteration?
    ensures var r := RunJob(New(), job, env, dir, style, content, lines);
            && !r.crashed
            && HasCompletion(r.actions)
            && FailJobCall(job.id, job.name) !in r.actions
  {
    var w := New();
    var scan := Scan(w, job, dir, lines);
    ScanCrashes(w, job, dir, lines);
    ScanLastIteration(w, job, dir, lines, j);
    assert CompletesAt(w, lines, j);
    ScanCompletes(w, job, dir, lines);
    var launched := [WriteFile(style.path, job.style.value.image)] + [WriteFile(content.value.path, job.content.value.image)]
                    + [Launch(RenderCommand(style.path, content.value.path, w.maxIterations))];
    HasCompletionAppend(launched, scan.actions);
    EndOfRunRule(w, job, env, dir, style, content, lines);
  }

  // ---------------------------------------------------------------------------
  // The polling loop

  /** Which pass the loop runs: the code as written, or with a failed
      `RequestJob` treated as an empty queue. */
  datatype Version = AsWritten | Corrected

  /** One pass of the loop, in the chosen version. */
  function Pass(v: Version, w: Worker, env: Environment): (r: Step)
    ensures r.actions != [] && r.actions[0] == RequestJobCall && RequestJobCall !in r.actions[1..]
  {
    match v
    case AsWritten => RunIterationAsWritten(w, env)
    case Corrected => RunIteration(w, env)
  }

  /** The passes of the loop, one per environment, until the worker crashes. */
  function Trace(v: Version, w: Worker, envs: seq<Environment>): (r: Step)
    ensures envs == [] <==> r.actions == []
    ensures envs != [] ==> r.actions[0] == RequestJobCall
    decreases |envs|
  {
    if envs == [] then Step([], false)
    else
      var prev := Trace(v, w, envs[..|envs| - 1]);
      if prev.crashed then prev
      else
        var s := Pass(v, w, envs[|envs| - 1]);
        Step(prev.actions + s.actions, s.crashed)
  }

  /** The number of `RequestJob` calls among the actions. */
  function Requests(actions: seq<Action>): nat
  {
    if actions == [] then 0
    else (if actions[0] == RequestJobCall then 1 else 0) + Requests(actions[1..])
  }

  lemma {:induction false} RequestsAppend(xs: seq<Action>, ys: seq<Action>)
    ensures Requests(xs + ys) == Requests(xs) + Requests(ys)
    decreases |xs|
  {
    if xs != [] {
      assert (xs + ys)[1..] == xs[1..] + ys;
      RequestsAppend(xs[1..], ys);
    } else {
      assert xs + ys == ys;
    }
  }

  lemma {:induction false} NoRequests(xs: seq<Action>)
    requires RequestJobCall !in xs
    ensures Requests(xs) == 0
    decreases |xs|
  {
    if xs != [] {
      assert forall k :: 0 <= k < |xs[1..]| ==> xs[1..][k] == xs[k + 1];
      NoRequests(xs[1..]);
    }
  }

  /** Every pass of the loop, up to a crash, calls `RequestJob` exactly once. */
  lemma {:induction false} OneRequestPerPass(v: Version, w: Worker, envs: seq<Environment>)
    requires !Trace(v, w, envs).crashed
    ensures Requests(Trace(v, w, envs).actions) == |envs|
    decreases |envs|
  {
    if envs != [] {
      var prev := Trace(v, w, envs[..|envs| - 1]);
      var s := Pass(v, w, envs[|envs| - 1]);
      OneRequestPerPass(v, w, envs[..|envs| - 1]);
      RequestsAppend(prev.actions, s.actions);
      NoRequests(s.actions[1..]);
      assert s.actions == [RequestJobCall] + s.actions[1..];
      RequestsAppend([RequestJobCall], s.actions[1..]);
    }
  }

  lemma TraceStep(v: Version, w: Worker, envs: seq<Environment>, i: nat)
    requires i < |envs| && !Trace(v, w, envs[..i]).crashed
    ensures var s := Pass(v, w, envs[i]);
            Trace(v, w, envs[..i + 1]) == Step(Trace(v, w, envs[..i]).actions + s.actions, s.crashed)
  {
    assert envs[..i + 1][..i] == envs[..i];
  }

  /** Once the worker has crashed, no later pass runs. */
  lemma {:induction false} TraceCrashIsFinal(v: Version, w: Worker, envs: seq<Environment>, k: nat)
    requires k <= |envs| && Trace(v, w, envs[..k]).crashed
    ensures Trace(v, w, envs) == Trace(v, w, envs[..k])
    decreases |envs|
  {
    if k < |envs| {
      var front := envs[..|envs| - 1];
      assert front[..k] == envs[..k];
      TraceCrashIsFinal(v, w, front, k);
    } else {
      assert envs[..k] == envs;
    }
  }

  /** As written, the first pass whose `RequestJob` call fails ends the loop:
      nothing follows that request. With the correction, the same pass only
      waits, and the loop goes on. */
  lemma RequestErrorEndsLoopAsWritten(w: Worker, envs: seq<Environment>, i: nat)
    requires i < |envs| && envs[i].reply.None?
    requires !Trace(AsWritten, w, envs[..i]).crashed && !Trace(Corrected, w, envs[..i]).crashed
    ensures Trace(AsWritten, w, envs) == Step(Trace(AsWritten, w, envs[..i]).actions + [RequestJobCall], true)
    ensures Trace(Corrected, w, envs[..i + 1])
            == Step(Trace(Corrected, w, envs[..i]).actions + [RequestJobCall, Sleep(10)], false)
  {
    TraceStep(AsWritten, w, envs, i);
    TraceStep(Corrected, w, envs, i);
    TraceCrashIsFinal(AsWritten, w, envs, i + 1);
  }

  /** `Run`: the worker's loop over as many passes as there are environments,
      in the chosen version, ending early when the worker crashes. */
  method Run(v: Version, w: Worker, envs: seq<Environment>) returns (r: Step)
    ensures r == Trace(v, w, envs)
  {
    var actions: seq<Action> := [];
    var i := 0;
    while i < |envs|
      invariant i <= |envs|
      invariant Trace(v, w, envs[..i]) == Step(actions, false)
    {
      var s := Pass(v, w, envs[i]);
      TraceStep(v, w, envs, i);
      actions := actions + s.actions;
      if s.crashed {
        r := Step(actions, true);
        TraceCrashIsFinal(v, w, envs, i + 1);
        return;
      }
      i := i + 1;
    }
    assert envs[..i] == envs;
    r := Step(actions, false);
  }
}

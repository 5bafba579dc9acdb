/** Downloading PDFs: one fetch turned into a boolean and at most one file
    write, and a batch whose settled results are folded into the lists of
    successful and failed paper ids. The network is an input: each fetch is
    given as the outcome the request produced. */
module Download {
  import opened Text
  import opened Files
  import Http

  /** What one GET of a locator produced. */
  datatype Fetch =
    | Timeout                                   // no answer in time
    | ConnectError                              // host unreachable, refused, reset
    | Response(status: int, body: seq<Byte>)    // an answer, any status
    | OtherFault                                // any other fault before the body is in hand

  /** The fetch produced a body that `raise_for_status` lets through. */
  predicate Fetched(f: Fetch) {
    f.Response? && Http.IsSuccess(f.status)
  }

  /** The boolean a download returns and the file system after it. */
  datatype Attempt = Attempt(ok: bool, fs: FileSystem)

  /** One download: every fault, a non-2xx status, or a file that cannot be
      opened for writing becomes `false` with nothing written; otherwise the
      whole body is written to `filename` and the result is `true`. */
  function DownloadPdf(fetch: Fetch, filename: string, fs: FileSystem): (r: Attempt)
    ensures r.ok <==> Fetched(fetch) && CanWrite(fs, filename)
    ensures r.ok ==> Read(r.fs, filename) == Some(fetch.body)
    ensures !r.ok ==> r.fs == fs
    ensures r.fs.dirs == fs.dirs
    ensures forall q :: q != filename ==> Read(r.fs, q) == Read(fs, q)
  {
    match fetch
    case Response(status, body) =>
      if !Http.IsSuccess(status) then Attempt(false, fs)
      else if !CanWrite(fs, filename) then Attempt(false, fs)
      else Attempt(true, Write(fs, filename, body))
    case _ => Attempt(false, fs)
  }

  /** Two downloads to different files give the same results and the same
      file system in either order, so running a batch's downloads one after
      another stands for any interleaving of the concurrent tasks. */
  lemma DownloadsCommute(f1: Fetch, p1: string, f2: Fetch, p2: string, fs: FileSystem)
    requires p1 != p2
    ensures
      var a := DownloadPdf(f1, p1, fs);
      var b := DownloadPdf(f2, p2, a.fs);
      var c := DownloadPdf(f2, p2, fs);
      var d := DownloadPdf(f1, p1, c.fs);
      a.ok == d.ok && b.ok == c.ok && b.fs == d.fs
  {
    var a := DownloadPdf(f1, p1, fs);
    var b := DownloadPdf(f2, p2, a.fs);
    var c := DownloadPdf(f2, p2, fs);
    var d := DownloadPdf(f1, p1, c.fs);
    if a.ok && c.ok {
      assert b.fs.files == fs.files[p1 := f1.body][p2 := f2.body];
      assert d.fs.files == fs.files[p2 := f2.body][p1 := f1.body];
      assert b.fs.files == d.fs.files;
    }
  }

  /** `output_dir / f"{paper_id}.pdf"`. */
  function Destination(outputDir: string, id: string): (p: string)
    ensures |p| >= |id| + 4 && p[|p| - |id| - 4..] == id + ".pdf"
  {
    JoinPath(outputDir, id + ".pdf")
  }

  /** Different ids get different destinations. */
  lemma DestinationInjective(outputDir: string, a: string, b: string)
    requires a != b
    ensures Destination(outputDir, a) != Destination(outputDir, b)
  {
    var pre := if outputDir == "." || outputDir == "" then "" else outputDir + "/";
    var da, db := pre + (a + ".pdf"), pre + (b + ".pdf");
    assert Destination(outputDir, a) == da && Destination(outputDir, b) == db;
    if |a| == |b| {
      assert !(forall k :: 0 <= k < |a| ==> a[k] == b[k]);
      var k :| 0 <= k < |a| && a[k] != b[k];
      assert da[|pre| + k] == a[k] && db[|pre| + k] == b[k];
    } else {
      assert |da| != |db|;
    }
  }

  /** An id without `/` is saved directly inside the output directory, which
      the batch has just created, so the file can be opened. */
  lemma FlatDestinationWritable(fs: FileSystem, outputDir: string, id: string)
    requires '/' !in id
    ensures CanWrite(MakeDirs(fs, outputDir), Destination(outputDir, id))
  {
    assert forall j :: 0 <= j < |id + ".pdf"| ==> (id + ".pdf")[j] != '/' by {
      forall j | 0 <= j < |id + ".pdf"|
        ensures (id + ".pdf")[j] != '/'
      {
        if j < |id| {
          assert (id + ".pdf")[j] == id[j];
        }
      }
    }
    if outputDir != "" {
      ParentOfJoin(outputDir, id + ".pdf");
    } else {
      assert Destination(outputDir, id) == id + ".pdf";
    }
  }

  /** How one task settled, as `asyncio.gather(..., return_exceptions=True)`
      reports it: the returned boolean, an `Exception` instance, or a
      `CancelledError`, which is a `BaseException` but not an `Exception`. */
  datatype Settled = Returned(value: bool) | Raised | Cancelled

  /** The two id lists a batch reports, each in input order. */
  datatype Summary = Summary(successful: seq<string>, failed: seq<string>)

  /** Which settled results a fold counts as successful. `Intended`: only a
      returned `true`. `AsWritten`: the source's test, in which a non-`Exception`
      result is judged by truthiness, and a `CancelledError` is truthy. */
  datatype Rule = Intended | AsWritten

  predicate Counts(rule: Rule, s: Settled) {
    match s
    case Returned(b) => b
    case Raised => false
    case Cancelled => rule == AsWritten
  }

  /** The post-gather loop: each id goes to `successful` or `failed`. */
  function Fold(ids: seq<string>, settled: seq<Settled>, rule: Rule): (s: Summary)
    requires |ids| == |settled|
    ensures |s.successful| + |s.failed| == |ids|
    decreases |ids|
  {
    if |ids| == 0 then Summary([], [])
    else
      var rest := Fold(ids[1..], settled[1..], rule);
      if Counts(rule, settled[0]) then Summary([ids[0]] + rest.successful, rest.failed)
      else Summary(rest.successful, [ids[0]] + rest.failed)
  }

  /** The fold loses no id and invents none: the two lists together hold
      the input ids with their multiplicities. */
  lemma {:induction false} FoldPermutes(ids: seq<string>, settled: seq<Settled>, rule: Rule)
    requires |ids| == |settled|
    ensures multiset(Fold(ids, settled, rule).successful) + multiset(Fold(ids, settled, rule).failed)
      == multiset(ids)
    decreases |ids|
  {
    if |ids| > 0 {
      assert ids == [ids[0]] + ids[1..];
      FoldPermutes(ids[1..], settled[1..], rule);
    }
  }

  /** An id is reported successful exactly when some position holding it
      counts under the rule, and failed exactly when some position holding
      it does not. */
  lemma {:induction false} FoldMembers(ids: seq<string>, settled: seq<Settled>, rule: Rule)
    requires |ids| == |settled|
    ensures forall id :: id in Fold(ids, settled, rule).successful <==>
      exists i :: 0 <= i < |ids| && ids[i] == id && Counts(rule, settled[i])
    ensures forall id :: id in Fold(ids, settled, rule).failed <==>
      exists i :: 0 <= i < |ids| && ids[i] == id && !Counts(rule, settled[i])
    decreases |ids|
  {
    if |ids| > 0 {
      FoldMembers(ids[1..], settled[1..], rule);
      var s := Fold(ids, settled, rule);
      var rest := Fold(ids[1..], settled[1..], rule);
      var head := Counts(rule, settled[0]);
      assert s == if head then Summary([ids[0]] + rest.successful, rest.failed)
                  else Summary(rest.successful, [ids[0]] + rest.failed);
      forall id | id in s.successful
        ensures exists i :: 0 <= i < |ids| && ids[i] == id && Counts(rule, settled[i])
      {
        if head && id == ids[0] {
          assert ids[0] == id && Counts(rule, settled[0]);
        } else {
          assert id in rest.successful;
          var j :| 0 <= j < |ids| - 1 && ids[1..][j] == id && Counts(rule, settled[1..][j]);
          assert ids[j + 1] == id && Counts(rule, settled[j + 1]);
        }
      }
      forall id | id in s.failed
        ensures exists i :: 0 <= i < |ids| && ids[i] == id && !Counts(rule, settled[i])
      {
        if !head && id == ids[0] {
          assert ids[0] == id && !Counts(rule, settled[0]);
        } else {
          assert id in rest.failed;
          var j :| 0 <= j < |ids| - 1 && ids[1..][j] == id && !Counts(rule, settled[1..][j]);
          assert ids[j + 1] == id && !Counts(rule, settled[j + 1]);
        }
      }
      forall i | 0 <= i < |ids|
        ensures Counts(rule, settled[i]) ==> ids[i] in s.successful
        ensures !Counts(rule, settled[i]) ==> ids[i] in s.failed
      {
        if i > 0 {
          assert ids[1..][i - 1] == ids[i] && settled[1..][i - 1] == settled[i];
        }
      }
    }
  }

  /** The batch's aggregation of gathered results: an id is successful
      exactly when its task returned `true`; `false`, an exception or a
      cancellation make it failed. Every id lands in one of the two lists. */
  function Aggregate(ids: seq<string>, settled: seq<Settled>): (s: Summary)
    requires |ids| == |settled|
    ensures |s.successful| + |s.failed| == |ids|
    ensures multiset(s.successful) + multiset(s.failed) == multiset(ids)
    ensures forall id :: id in s.successful <==>
      exists i :: 0 <= i < |ids| && ids[i] == id && settled[i] == Returned(true)
    ensures forall id :: id in s.failed <==>
      exists i :: 0 <= i < |ids| && ids[i] == id && settled[i] != Returned(true)
  {
    var s := Fold(ids, settled, Intended);
    FoldPermutes(ids, settled, Intended);
    FoldMembers(ids, settled, Intended);
    assert forall i :: 0 <= i < |ids| ==> (Counts(Intended, settled[i]) <==> settled[i] == Returned(true));
    s
  }

  /** The aggregation exactly as the source writes it. */
  function AggregateAsWritten(ids: seq<string>, settled: seq<Settled>): (s: Summary)
    requires |ids| == |settled|
    ensures multiset(s.successful) + multiset(s.failed) == multiset(ids)
    ensures forall id :: id in s.successful <==>
      exists i :: 0 <= i < |ids| && ids[i] == id && (settled[i] == Returned(true) || settled[i] == Cancelled)
    ensures forall id :: id in s.failed <==>
      exists i :: 0 <= i < |ids| && ids[i] == id && (settled[i] == Returned(false) || settled[i] == Raised)
  {
    var s := Fold(ids, settled, AsWritten);
    FoldPermutes(ids, settled, AsWritten);
    FoldMembers(ids, settled, AsWritten);
    assert forall i :: 0 <= i < |ids| ==>
      (Counts(AsWritten, settled[i]) <==> settled[i] == Returned(true) || settled[i] == Cancelled);
    assert forall i :: 0 <= i < |ids| ==>
      (!Counts(AsWritten, settled[i]) <==> settled[i] == Returned(false) || settled[i] == Raised);
    s
  }

  /** The fold keeps input order: folding two batches back to back gives
      each list of the first followed by the same list of the second. */
  lemma {:induction false} FoldAppend(ids1: seq<string>, st1: seq<Settled>, ids2: seq<string>, st2: seq<Settled>, rule: Rule)
    requires |ids1| == |st1| && |ids2| == |st2|
    ensures
      var a := Fold(ids1, st1, rule);
      var b := Fold(ids2, st2, rule);
      Fold(ids1 + ids2, st1 + st2, rule) == Summary(a.successful + b.successful, a.failed + b.failed)
    decreases |ids1|
  {
    if |ids1| == 0 {
      assert ids1 + ids2 == ids2 && st1 + st2 == st2;
    } else {
      assert (ids1 + ids2)[1..] == ids1[1..] + ids2;
      assert (st1 + st2)[1..] == st1[1..] + st2;
      assert (ids1 + ids2)[0] == ids1[0] && (st1 + st2)[0] == st1[0];
      FoldAppend(ids1[1..], st1[1..], ids2, st2, rule);
      var r := Fold(ids1[1..], st1[1..], rule);
      var b := Fold(ids2, st2, rule);
      if Counts(rule, st1[0]) {
        assert Fold(ids1, st1, rule) == Summary([ids1[0]] + r.successful, r.failed);
        assert [ids1[0]] + (r.successful + b.successful) == ([ids1[0]] + r.successful) + b.successful;
      } else {
        assert Fold(ids1, st1, rule) == Summary(r.successful, [ids1[0]] + r.failed);
        assert [ids1[0]] + (r.failed + b.failed) == ([ids1[0]] + r.failed) + b.failed;
      }
    }
  }

  /** Aggregation of an empty batch reports nothing. */
  lemma AggregateEmpty()
    ensures Aggregate([], []) == Summary([], [])
  {
  }

  /** With distinct ids no id is reported both successful and failed. */
  lemma AggregateDisjoint(ids: seq<string>, settled: seq<Settled>)
    requires |ids| == |settled| && NoDup(ids)
    ensures forall id :: !(id in Aggregate(ids, settled).successful && id in Aggregate(ids, settled).failed)
  {
  }

  /** Without cancellations the source's test and the intended one agree. */
  lemma {:induction false} AsWrittenAgreesWithoutCancellation(ids: seq<string>, settled: seq<Settled>)
    requires |ids| == |settled|
    requires forall i :: 0 <= i < |settled| ==> settled[i] != Cancelled
    ensures AggregateAsWritten(ids, settled) == Aggregate(ids, settled)
    decreases |ids|
  {
    if |ids| > 0 {
      AsWrittenAgreesWithoutCancellation(ids[1..], settled[1..]);
    }
  }

  /** Three tasks of which the second returns `false`: the first and third
      are successful, the second failed, each list in input order. */
  lemma ThreeTaskScenario()
    ensures Aggregate(["paper1", "paper2", "paper3"], [Returned(true), Returned(false), Returned(true)])
      == Summary(["paper1", "paper3"], ["paper2"])
  {
  }

  /** A cancelled task is reported as a successful download by the source. */
  lemma CancelledCountedSuccessful()
    ensures AggregateAsWritten(["paper1"], [Cancelled]) == Summary(["paper1"], [])
    ensures Aggregate(["paper1"], [Cancelled]) == Summary([], ["paper1"])
  {
  }

  /** The paper ids of a batch, in order. */
  function Ids(targets: seq<(string, string)>): (ids: seq<string>)
    ensures |ids| == |targets|
    ensures forall i :: 0 <= i < |targets| ==> ids[i] == targets[i].0
  {
    seq(|targets|, i requires 0 <= i < |targets| => targets[i].0)
  }

  /** The task of one target: download its locator to its destination.
      With `makeParent` the destination's directory is created first. */
  function Task(target: (string, string), outputDir: string, fetch: Fetch, fs: FileSystem, makeParent: bool): Attempt {
    var dest := Destination(outputDir, target.0);
    DownloadPdf(fetch, dest, if makeParent then MakeDirs(fs, Parent(dest)) else fs)
  }

  /** Every task of a batch, run one after another on the shared file system;
      `fetches[i]` is what the request of `targets[i]` produced. */
  function RunAll(targets: seq<(string, string)>, outputDir: string, fetches: seq<Fetch>, fs: FileSystem, makeParents: bool)
    : (r: (seq<bool>, FileSystem))
    requires |fetches| == |targets|
    ensures |r.0| == |targets|
    decreases |targets|
  {
    if |targets| == 0 then ([], fs)
    else
      var a := Task(targets[0], outputDir, fetches[0], fs, makeParents);
      var rest := RunAll(targets[1..], outputDir, fetches[1..], a.fs, makeParents);
      ([a.ok] + rest.0, rest.1)
  }

  /** A task reports success exactly when its fetch produced a 2xx body and
      its destination's directory exists; running the batch only ever adds
      directories, and adds none unless parents are created per task. */
  lemma {:induction false} RunAllOutcomes(targets: seq<(string, string)>, outputDir: string, fetches: seq<Fetch>, fs: FileSystem, makeParents: bool)
    requires |fetches| == |targets|
    ensures forall i :: 0 <= i < |targets| ==>
      (RunAll(targets, outputDir, fetches, fs, makeParents).0[i] <==>
         Fetched(fetches[i]) && (makeParents || CanWrite(fs, Destination(outputDir, targets[i].0))))
    ensures fs.dirs <= RunAll(targets, outputDir, fetches, fs, makeParents).1.dirs
    ensures !makeParents ==> RunAll(targets, outputDir, fetches, fs, makeParents).1.dirs == fs.dirs
    decreases |targets|
  {
    if |targets| > 0 {
      var a := Task(targets[0], outputDir, fetches[0], fs, makeParents);
      RunAllOutcomes(targets[1..], outputDir, fetches[1..], a.fs, makeParents);
      forall i | 0 < i < |targets|
        ensures RunAll(targets, outputDir, fetches, fs, makeParents).0[i] ==
                RunAll(targets[1..], outputDir, fetches[1..], a.fs, makeParents).0[i - 1]
      {
      }
      if makeParents {
        var dest := Destination(outputDir, targets[0].0);
        assert DirExists(MakeDirs(fs, Parent(dest)), Parent(dest));
      }
    }
  }

  /** A path that no successful task wrote keeps its contents. */
  lemma {:induction false} RunAllFrame(targets: seq<(string, string)>, outputDir: string, fetches: seq<Fetch>, fs: FileSystem, makeParents: bool, q: string)
    requires |fetches| == |targets|
    requires forall j :: 0 <= j < |targets| && RunAll(targets, outputDir, fetches, fs, makeParents).0[j] ==>
      Destination(outputDir, targets[j].0) != q
    ensures Read(RunAll(targets, outputDir, fetches, fs, makeParents).1, q) == Read(fs, q)
    decreases |targets|
  {
    if |targets| > 0 {
      var a := Task(targets[0], outputDir, fetches[0], fs, makeParents);
      var r := RunAll(targets, outputDir, fetches, fs, makeParents);
      forall j | 0 <= j < |targets| - 1 && RunAll(targets[1..], outputDir, fetches[1..], a.fs, makeParents).0[j]
        ensures Destination(outputDir, targets[1..][j].0) != q
      {
        assert r.0[j + 1];
      }
      RunAllFrame(targets[1..], outputDir, fetches[1..], a.fs, makeParents, q);
      assert r.0[0] == a.ok;
    }
  }

  /** With distinct ids, each successful task's destination holds exactly
      the body its fetch produced when the batch is over. */
  lemma {:induction false} RunAllWrites(targets: seq<(string, string)>, outputDir: string, fetches: seq<Fetch>, fs: FileSystem, makeParents: bool, i: int)
    requires |fetches| == |targets| && NoDup(Ids(targets))
    requires 0 <= i < |targets| && RunAll(targets, outputDir, fetches, fs, makeParents).0[i]
    ensures fetches[i].Response? &&
      Read(RunAll(targets, outputDir, fetches, fs, makeParents).1, Destination(outputDir, targets[i].0))
      == Some(fetches[i].body)
    decreases |targets|
  {
    var a := Task(targets[0], outputDir, fetches[0], fs, makeParents);
    var tail := targets[1..];
    assert Ids(tail) == Ids(targets)[1..];
    if i == 0 {
      var dest := Destination(outputDir, targets[0].0);
      forall j | 0 <= j < |tail|
        ensures Destination(outputDir, tail[j].0) != dest
      {
        assert Ids(targets)[j + 1] != Ids(targets)[0];
        DestinationInjective(outputDir, tail[j].0, targets[0].0);
      }
      RunAllFrame(tail, outputDir, fetches[1..], a.fs, makeParents, dest);
    } else {
      RunAllWrites(tail, outputDir, fetches[1..], a.fs, makeParents, i - 1);
    }
  }

  /** The result of a whole batch: the two id lists and the file system. */
  datatype BatchRun = BatchRun(summary: Summary, fs: FileSystem)

  /** What the gather hands back when every task returns its boolean. */
  function Settle(results: seq<bool>): (s: seq<Settled>)
    ensures |s| == |results|
    ensures forall i :: 0 <= i < |results| ==> s[i] == Returned(results[i])
  {
    seq(|results|, i requires 0 <= i < |results| => Returned(results[i]))
  }

  /** Create the output directory, run every task, aggregate. */
  function RunBatch(targets: seq<(string, string)>, outputDir: string, fetches: seq<Fetch>, fs: FileSystem, makeParents: bool)
    : (r: BatchRun)
    requires |fetches| == |targets|
    ensures forall a :: a in Ancestors(outputDir) ==> DirExists(r.fs, a)
    ensures fs.dirs <= r.fs.dirs
    ensures multiset(r.summary.successful) + multiset(r.summary.failed) == multiset(Ids(targets))
    ensures forall q :: (forall i :: 0 <= i < |targets| ==> q != Destination(outputDir, targets[i].0)) ==>
      Read(r.fs, q) == Read(fs, q)
  {
    var prepared := MakeDirs(fs, outputDir);
    var run := RunAll(targets, outputDir, fetches, prepared, makeParents);
    RunAllOutcomes(targets, outputDir, fetches, prepared, makeParents);
    forall q | forall i :: 0 <= i < |targets| ==> q != Destination(outputDir, targets[i].0)
      ensures Read(run.1, q) == Read(fs, q)
    {
      RunAllFrame(targets, outputDir, fetches, prepared, makeParents, q);
    }
    BatchRun(Aggregate(Ids(targets), Settle(run.0)), run.1)
  }

  /** With distinct ids, an id is reported successful exactly when its own
      task returned `true`, and otherwise failed. */
  lemma RunBatchMembership(targets: seq<(string, string)>, outputDir: string, fetches: seq<Fetch>, fs: FileSystem, makeParents: bool, i: int)
    requires |fetches| == |targets| && NoDup(Ids(targets)) && 0 <= i < |targets|
    ensures
      var ok := RunAll(targets, outputDir, fetches, MakeDirs(fs, outputDir), makeParents).0[i];
      var s := RunBatch(targets, outputDir, fetches, fs, makeParents).summary;
      (targets[i].0 in s.successful <==> ok) && (targets[i].0 in s.failed <==> !ok)
  {
    var ok := RunAll(targets, outputDir, fetches, MakeDirs(fs, outputDir), makeParents).0;
    var ids := Ids(targets);
    var st := Settle(ok);
    var s := Aggregate(ids, st);
    if ids[i] in s.successful {
      var j :| 0 <= j < |ids| && ids[j] == ids[i] && st[j] == Returned(true);
      assert j == i;
    }
    if ids[i] in s.failed {
      var j :| 0 <= j < |ids| && ids[j] == ids[i] && st[j] != Returned(true);
      assert j == i;
    }
  }

  /** The batch download as the source writes it. The output directory
      exists afterwards; every id is reported exactly once overall; with
      distinct ids an id is successful exactly when its fetch produced a
      2xx body and its destination's directory exists, a successful id's
      file holds exactly that body, and a failed id's destination, like
      every path no task wrote, keeps what it held before. */
  function DownloadBatch(targets: seq<(string, string)>, outputDir: string, fetches: seq<Fetch>, fs: FileSystem)
    : (r: BatchRun)
    requires |fetches| == |targets|
    ensures DirExists(r.fs, outputDir)
    ensures forall a :: a in Ancestors(outputDir) ==> DirExists(r.fs, a)
    ensures forall q :: (forall i :: 0 <= i < |targets| ==> q != Destination(outputDir, targets[i].0)) ==>
      Read(r.fs, q) == Read(fs, q)
    ensures |r.summary.successful| + |r.summary.failed| == |targets|
    ensures multiset(r.summary.successful) + multiset(r.summary.failed) == multiset(Ids(targets))
    ensures NoDup(Ids(targets)) ==> forall i :: 0 <= i < |targets| ==>
      (targets[i].0 in r.summary.successful <==>
         Fetched(fetches[i]) && CanWrite(MakeDirs(fs, outputDir), Destination(outputDir, targets[i].0)))
    ensures NoDup(Ids(targets)) ==> forall i :: 0 <= i < |targets| ==>
      (targets[i].0 in r.summary.successful ==>
         fetches[i].Response? && Read(r.fs, Destination(outputDir, targets[i].0)) == Some(fetches[i].body))
    ensures NoDup(Ids(targets)) ==> forall i :: 0 <= i < |targets| ==>
      (targets[i].0 in r.summary.failed ==>
         Read(r.fs, Destination(outputDir, targets[i].0)) == Read(fs, Destination(outputDir, targets[i].0)))
  {
    var prepared := MakeDirs(fs, outputDir);
    var r := RunBatch(targets, outputDir, fetches, fs, false);
    RunAllOutcomes(targets, outputDir, fetches, prepared, false);
    BatchFacts(targets, outputDir, fetches, fs, false);
    r
  }

  /** The facts about a batch run that hold whichever way directories are prepared. */
  lemma BatchFacts(targets: seq<(string, string)>, outputDir: string, fetches: seq<Fetch>, fs: FileSystem, makeParents: bool)
    requires |fetches| == |targets|
    ensures
      var prepared := MakeDirs(fs, outputDir);
      var ok := RunAll(targets, outputDir, fetches, prepared, makeParents).0;
      var r := RunBatch(targets, outputDir, fetches, fs, makeParents);
      NoDup(Ids(targets)) ==> forall i :: 0 <= i < |targets| ==>
        (targets[i].0 in r.summary.successful <==> ok[i]) &&
        (targets[i].0 in r.summary.successful ==>
           fetches[i].Response? && Read(r.fs, Destination(outputDir, targets[i].0)) == Some(fetches[i].body)) &&
        (targets[i].0 in r.summary.failed ==>
           Read(r.fs, Destination(outputDir, targets[i].0)) == Read(fs, Destination(outputDir, targets[i].0)))
  {
    var prepared := MakeDirs(fs, outputDir);
    var ok := RunAll(targets, outputDir, fetches, prepared, makeParents).0;
    var r := RunBatch(targets, outputDir, fetches, fs, makeParents);
    RunAllOutcomes(targets, outputDir, fetches, prepared, makeParents);
    if NoDup(Ids(targets)) {
      forall i | 0 <= i < |targets|
        ensures targets[i].0 in r.summary.successful <==> ok[i]
        ensures targets[i].0 in r.summary.successful ==>
          fetches[i].Response? && Read(r.fs, Destination(outputDir, targets[i].0)) == Some(fetches[i].body)
        ensures targets[i].0 in r.summary.failed ==>
          Read(r.fs, Destination(outputDir, targets[i].0)) == Read(fs, Destination(outputDir, targets[i].0))
      {
        RunBatchMembership(targets, outputDir, fetches, fs, makeParents, i);
        var dest := Destination(outputDir, targets[i].0);
        if ok[i] {
          RunAllWrites(targets, outputDir, fetches, prepared, makeParents, i);
        } else {
          forall j | 0 <= j < |targets| && ok[j]
            ensures Destination(outputDir, targets[j].0) != dest
          {
            assert j != i;
            assert Ids(targets)[j] != Ids(targets)[i];
            DestinationInjective(outputDir, targets[j].0, targets[i].0);
          }
          RunAllFrame(targets, outputDir, fetches, prepared, makeParents, dest);
        }
      }
    }
  }

  /** The batch with the destination's own directory created before each
      write, so that ids holding `/` are saved too. With distinct ids an id
      is successful exactly when its fetch produced a 2xx body. */
  function DownloadBatchCorrected(targets: seq<(string, string)>, outputDir: string, fetches: seq<Fetch>, fs: FileSystem)
    : (r: BatchRun)
    requires |fetches| == |targets|
    ensures DirExists(r.fs, outputDir)
    ensures forall a :: a in Ancestors(outputDir) ==> DirExists(r.fs, a)
    ensures forall q :: (forall i :: 0 <= i < |targets| ==> q != Destination(outputDir, targets[i].0)) ==>
      Read(r.fs, q) == Read(fs, q)
    ensures |r.summary.successful| + |r.summary.failed| == |targets|
    ensures multiset(r.summary.successful) + multiset(r.summary.failed) == multiset(Ids(targets))
    ensures NoDup(Ids(targets)) ==> forall i :: 0 <= i < |targets| ==>
      (targets[i].0 in r.summary.successful <==> Fetched(fetches[i]))
    ensures NoDup(Ids(targets)) ==> forall i :: 0 <= i < |targets| ==>
      (targets[i].0 in r.summary.successful ==>
         fetches[i].Response? && Read(r.fs, Destination(outputDir, targets[i].0)) == Some(fetches[i].body))
  {
    var r := RunBatch(targets, outputDir, fetches, fs, true);
    RunAllOutcomes(targets, outputDir, fetches, MakeDirs(fs, outputDir), true);
    BatchFacts(targets, outputDir, fetches, fs, true);
    r
  }

  /** With distinct ids, an id without `/` is successful exactly when its
      fetch produced a 2xx body. */
  lemma FlatIdSucceedsIffFetched(targets: seq<(string, string)>, outputDir: string, fetches: seq<Fetch>, fs: FileSystem, i: int)
    requires |fetches| == |targets| && NoDup(Ids(targets)) && 0 <= i < |targets|
    requires '/' !in targets[i].0
    ensures targets[i].0 in DownloadBatch(targets, outputDir, fetches, fs).summary.successful <==> Fetched(fetches[i])
  {
    FlatDestinationWritable(fs, outputDir, targets[i].0);
  }

  /** An id holding `/`, such as the service's `10419/12345`, names a file in
      a sub-directory of the output directory that the batch never creates:
      unless that sub-directory already exists, the id is reported failed
      whatever its fetch produced. This holds for the default output
      directory `.` too; only an id whose file would land in the working
      directory itself or in the root (`./x`, `/x`) escapes it. */
  lemma NestedIdAlwaysFails(targets: seq<(string, string)>, outputDir: string, fetches: seq<Fetch>, fs: FileSystem, i: int)
    requires |fetches| == |targets| && NoDup(Ids(targets)) && 0 <= i < |targets|
    requires '/' in targets[i].0
    requires Parent(Destination(outputDir, targets[i].0)) != "." && Parent(Destination(outputDir, targets[i].0)) != "/"
    requires Parent(Destination(outputDir, targets[i].0)) !in fs.dirs
    ensures targets[i].0 !in DownloadBatch(targets, outputDir, fetches, fs).summary.successful
    ensures targets[i].0 in DownloadBatch(targets, outputDir, fetches, fs).summary.failed
  {
    var id := targets[i].0;
    var k :| 0 <= k < |id| && id[k] == '/';
    assert (id + ".pdf")[k] == '/';
    var dest := Destination(outputDir, id);
    if outputDir != "" && outputDir != "." {
      ParentOfNestedJoin(outputDir, id + ".pdf");
    } else {
      assert Ancestors(outputDir) == {outputDir};
      ParentNonEmpty(dest);
    }
    assert !CanWrite(MakeDirs(fs, outputDir), Destination(outputDir, id));
    var s := DownloadBatch(targets, outputDir, fetches, fs).summary;
    assert Ids(targets)[i] == id;
    assert id in multiset(Ids(targets));
    assert id in multiset(s.successful) + multiset(s.failed);
  }

  /** In the default output directory, the id `10419/12345` names a file
      in the sub-directory `10419`. */
  lemma EconstorIdParent()
    ensures Parent(Destination(".", "10419/12345")) == "10419"
  {
    var p := "10419/12345.pdf";
    assert Destination(".", "10419/12345") == p;
    assert forall j :: 5 < j < |p| ==> p[j] != '/';
    LastSlashAt(p, 5);
    assert p[..5] == "10419";
  }

  /** The service's id `10419/12345` with a 2xx answer, saved into the
      default output directory `.`: the source reports it failed and writes
      nothing; the corrected batch saves it. */
  lemma EconstorIdNotSaved()
    ensures
      var targets := [("10419/12345", "https://www.econstor.eu/bitstream/10419/12345/1/paper.pdf")];
      var fetches := [Response(200, [37, 80, 68, 70])];
      var fs := FileSystem({}, map[]);
      && DownloadBatch(targets, ".", fetches, fs).summary == Summary([], ["10419/12345"])
      && DownloadBatchCorrected(targets, ".", fetches, fs).summary == Summary(["10419/12345"], [])
  {
    var targets := [("10419/12345", "https://www.econstor.eu/bitstream/10419/12345/1/paper.pdf")];
    var fetches := [Response(200, [37, 80, 68, 70])];
    var fs := FileSystem({}, map[]);
    assert "10419/12345"[5] == '/';
    EconstorIdParent();
    NestedIdAlwaysFails(targets, ".", fetches, fs, 0);
    var s := DownloadBatch(targets, ".", fetches, fs).summary;
    assert |s.successful| + |s.failed| == 1;
    assert s.failed == [s.failed[0]];
    assert Fetched(fetches[0]);
    var c := DownloadBatchCorrected(targets, ".", fetches, fs).summary;
    assert "10419/12345" in c.successful;
    assert |c.successful| + |c.failed| == 1;
    assert c.successful == [c.successful[0]];
  }

  /** `client.get(url, stream=True)`: httpx's `get` accepts no `stream`
      argument, so the call raises `TypeError` before any request is sent,
      whatever the server would have answered. */
  function GetAsCalled(server: Fetch): (f: Fetch)
    ensures !Fetched(f)
  {
    OtherFault
  }

  /** As called, no download can succeed and nothing is ever written. */
  lemma StreamArgumentDefeatsDownload(server: Fetch, filename: string, fs: FileSystem)
    ensures DownloadPdf(GetAsCalled(server), filename, fs) == Attempt(false, fs)
  {
  }
}

/**
 * The duplicate index of `main` (main.go): a table from fingerprint to the
 * first file seen with it. A fingerprint already in the table makes the file a
 * duplicate of the stored path and leaves the table as it is; a new
 * fingerprint is inserted with the file's path. Files that cannot be opened or
 * decoded never reach the table.
 */
module Index {
  import opened Wrappers
  import opened Uuid
  import opened Fingerprinting
  import opened Decoding

  /** One file handed to the table: its fingerprint and its path. */
  datatype Submission = Submission(finger: string, file: string)

  /** What the table reports for a file: new, or a duplicate of the stored path. */
  datatype Outcome = Fresh | DuplicateOf(original: string)

  /** The table after recording `s` in `m`: the specification of `DuplicateIndex.Record`, used by `Replay`. */
  function Step(m: map<string, string>, s: Submission): map<string, string> {
    if s.finger in m then m else m[s.finger := s.file]
  }

  /** What recording a file with fingerprint `finger` reports against `m`: the specification of `Record`'s result, used by `Reports`. */
  function Verdict(m: map<string, string>, finger: string): Outcome {
    if finger in m then DuplicateOf(m[finger]) else Fresh
  }

  /** The table after recording the submissions in order. */
  function Replay(m: map<string, string>, subs: seq<Submission>): map<string, string>
    decreases |subs|
  {
    if subs == [] then m else Step(Replay(m, subs[..|subs| - 1]), subs[|subs| - 1])
  }

  /** The reports of recording the submissions in order, one per submission. */
  function Reports(m: map<string, string>, subs: seq<Submission>): (rs: seq<Outcome>)
    ensures |rs| == |subs|
    decreases |subs|
  {
    if subs == [] then []
    else
      var prior := subs[..|subs| - 1];
      Reports(m, prior) + [Verdict(Replay(m, prior), subs[|subs| - 1].finger)]
  }

  ghost predicate Occurs(subs: seq<Submission>, k: string) {
    exists i :: 0 <= i < |subs| && subs[i].finger == k
  }

  /** Submission `i` is the first one with fingerprint `k`. */
  ghost predicate Earliest(subs: seq<Submission>, k: string, i: int) {
    0 <= i < |subs| && subs[i].finger == k && forall j :: 0 <= j < i ==> subs[j].finger != k
  }

  /**
   * First wins: the table only grows, keeps every entry it had, holds exactly the
   * fingerprints submitted, and maps each new one to the first file that produced it.
   */
  lemma {:induction false} ReplayFirstWins(m: map<string, string>, subs: seq<Submission>)
    ensures forall k :: k in Replay(m, subs) <==> k in m || Occurs(subs, k)
    ensures forall k :: k in m ==> Replay(m, subs)[k] == m[k]
    ensures forall k, i :: k !in m && Earliest(subs, k, i) ==>
      k in Replay(m, subs) && Replay(m, subs)[k] == subs[i].file
    decreases |subs|
  {
    if subs != [] {
      var prior, last := subs[..|subs| - 1], subs[|subs| - 1];
      ReplayFirstWins(m, prior);
      forall k ensures Occurs(subs, k) <==> Occurs(prior, k) || last.finger == k {
        if Occurs(subs, k) {
          var i :| 0 <= i < |subs| && subs[i].finger == k;
          if i < |prior| {
            assert prior[i].finger == k;
          }
        }
        if Occurs(prior, k) {
          var i :| 0 <= i < |prior| && prior[i].finger == k;
          assert subs[i].finger == k;
        }
      }
      forall k, i | k !in m && Earliest(subs, k, i)
        ensures k in Replay(m, subs) && Replay(m, subs)[k] == subs[i].file
      {
        if i < |prior| {
          assert Earliest(prior, k, i);
        } else {
          assert !Occurs(prior, k);
        }
      }
    }
  }

  /** Report `i` is the verdict of the table built from the submissions before it. */
  lemma {:induction false} ReportsAt(m: map<string, string>, subs: seq<Submission>, i: nat)
    requires i < |subs|
    ensures Reports(m, subs)[i] == Verdict(Replay(m, subs[..i]), subs[i].finger)
    decreases |subs|
  {
    var prior := subs[..|subs| - 1];
    if i < |prior| {
      ReportsAt(m, prior, i);
      assert prior[..i] == subs[..i];
    } else {
      assert subs[..i] == prior;
    }
  }

  /**
   * Which file a submission is reported against: a fingerprint already in the
   * starting table reports its stored path; otherwise the first submission with
   * a fingerprint is new and every later one is a duplicate of that first file.
   */
  lemma ReportFirstWins(m: map<string, string>, subs: seq<Submission>, j: nat)
    requires j < |subs|
    ensures subs[j].finger in m ==> Reports(m, subs)[j] == DuplicateOf(m[subs[j].finger])
    ensures Reports(m, subs)[j] == Fresh <==> subs[j].finger !in m && Earliest(subs, subs[j].finger, j)
    ensures forall i :: i < j && subs[j].finger !in m && Earliest(subs, subs[j].finger, i) ==>
      Reports(m, subs)[j] == DuplicateOf(subs[i].file)
  {
    var k, prior := subs[j].finger, subs[..j];
    ReportsAt(m, subs, j);
    ReplayFirstWins(m, prior);
    if Earliest(subs, k, j) {
      assert !Occurs(prior, k);
    } else if k !in m {
      var i :| 0 <= i < j && subs[i].finger == k;
      assert prior[i].finger == k;
    }
    forall i | i < j && k !in m && Earliest(subs, k, i) ensures Reports(m, subs)[j] == DuplicateOf(subs[i].file) {
      assert Earliest(prior, k, i);
    }
  }

  // ---- The per-file driver loop ----

  /** What opening a file gives: an error, or a stream on which both decoders have an outcome. */
  datatype Source = OpenFailed(error: Error) | Opened(png: Attempt<Image>, jpeg: Attempt<Image>)

  /** One listed file: its path, what opening it gives, and the draw its fingerprint would use. */
  datatype FileInput = FileInput(path: string, source: Source, draw: Draw)

  /** The decoder list of `decode`: PNG, then JPEG. */
  function Decoders(png: Attempt<Image>, jpeg: Attempt<Image>): seq<Attempt<Image>> {
    [png, jpeg]
  }

  /** The submission a file makes, or none when it fails to open or to decode. */
  function Submitted(f: FileInput, md5: Hash): (s: Option<Submission>)
    ensures s.None? <==> f.source.OpenFailed? || (f.source.png.Failure? && f.source.jpeg.Failure?)
    ensures s.Some? ==> s.value.file == f.path
    ensures s.Some? ==> s.value.finger == FingerprintOf(
      if f.source.png.Success? then f.source.png.image else f.source.jpeg.image, md5, f.draw)
  {
    match f.source
    case OpenFailed(_) => None
    case Opened(png, jpeg) =>
      var decoders := Decoders(png, jpeg);
      var k := FirstSuccess(decoders);
      assert decoders[0] == png && decoders[1] == jpeg;
      if k < |decoders| then Some(Submission(FingerprintOf(decoders[k].image, md5, f.draw), f.path)) else None
  }

  /** The submissions a list of files makes, in order. */
  function Submissions(files: seq<FileInput>, md5: Hash): seq<Submission>
    decreases |files|
  {
    if files == [] then []
    else
      var last := files[|files| - 1];
      Submissions(files[..|files| - 1], md5) + (if Submitted(last, md5).Some? then [Submitted(last, md5).value] else [])
  }

  lemma {:induction false} SubmissionsAppend(a: seq<FileInput>, b: seq<FileInput>, md5: Hash)
    ensures Submissions(a + b, md5) == Submissions(a, md5) + Submissions(b, md5)
    decreases |b|
  {
    if b != [] {
      var prior := b[..|b| - 1];
      SubmissionsAppend(a, prior, md5);
      assert (a + b)[..|a + b| - 1] == a + prior;
    } else {
      assert a + b == a;
    }
  }

  /** A file that fails to open or to decode leaves the table and the reports exactly as if it were absent. */
  lemma UnreadableFileIgnored(a: seq<FileInput>, f: FileInput, b: seq<FileInput>, md5: Hash)
    requires Submitted(f, md5).None?
    ensures Submissions(a + [f] + b, md5) == Submissions(a + b, md5)
  {
    SubmissionsAppend(a + [f], b, md5);
    SubmissionsAppend(a, [f], md5);
    SubmissionsAppend(a, b, md5);
    assert Submissions([f], md5) == [] by {
      assert [f][..0] == [];
    }
  }

  /** What listing a folder gives: an error, or its files in listing order. */
  datatype Listing = Unlistable(error: Error) | Listed(files: seq<FileInput>)

  /** The position of the first folder that cannot be listed, or the number of folders. */
  function FirstUnlistable(folders: seq<Listing>): (n: nat)
    ensures n <= |folders|
    ensures forall j :: 0 <= j < n ==> folders[j].Listed?
    ensures n < |folders| ==> folders[n].Unlistable?
    decreases |folders|
  {
    if folders == [] then 0
    else if folders[0].Unlistable? then 0
    else 1 + FirstUnlistable(folders[1..])
  }

  /** The files of the listed folders, folder after folder. */
  function AllFiles(folders: seq<Listing>): seq<FileInput>
    decreases |folders|
  {
    if folders == [] then []
    else
      var last := folders[|folders| - 1];
      AllFiles(folders[..|folders| - 1]) + (if last.Listed? then last.files else [])
  }

  /** The run-scoped table of `main`: fingerprint to the first file name seen with it. */
  class DuplicateIndex {
    var fingerprints: map<string, string>

    constructor ()
      ensures fingerprints == map[]
    {
      fingerprints := map[];
    }

    /** The check-then-insert step of the loop: a hit reports and never overwrites; a miss inserts. */
    method Record(finger: string, file: string) returns (outcome: Outcome)
      modifies this
      ensures finger in old(fingerprints) ==>
        outcome == DuplicateOf(old(fingerprints)[finger]) && fingerprints == old(fingerprints)
      ensures finger !in old(fingerprints) ==>
        outcome == Fresh && fingerprints == old(fingerprints)[finger := file]
    {
      if finger in fingerprints {
        var matched := fingerprints[finger];
        return DuplicateOf(matched);
      }
      fingerprints := fingerprints[finger := file];
      return Fresh;
    }

    /**
     * The inner loop of `main` over one list of files: open, decode, fingerprint,
     * record. Files that fail to open or decode are skipped.
     */
    method Scan(files: seq<FileInput>, md5: Hash) returns (outcomes: seq<Outcome>)
      modifies this
      ensures fingerprints == Replay(old(fingerprints), Submissions(files, md5))
      ensures outcomes == Reports(old(fingerprints), Submissions(files, md5))
    {
      outcomes := [];
      var i := 0;
      while i < |files|
        invariant 0 <= i <= |files|
        invariant fingerprints == Replay(old(fingerprints), Submissions(files[..i], md5))
        invariant outcomes == Reports(old(fingerprints), Submissions(files[..i], md5))
      {
        var f := files[i];
        ghost var prior := Submissions(files[..i], md5);
        assert files[..i + 1][..i] == files[..i];
        match f.source {
          case OpenFailed(_) =>
            assert Submissions(files[..i + 1], md5) == prior;
          case Opened(png, jpeg) =>
            var im, err := Decode(Decoders(png, jpeg));
            if err.None? {
              var finger := Fingerprint(im.value, md5, f.draw);
              ghost var sub := Submission(finger, f.path);
              assert Submitted(f, md5) == Some(sub);
              assert Submissions(files[..i + 1], md5) == prior + [sub];
              assert (prior + [sub])[..|prior|] == prior;
              var outcome := Record(finger, f.path);
              outcomes := outcomes + [outcome];
            } else {
              assert Submissions(files[..i + 1], md5) == prior;
            }
        }
        i := i + 1;
      }
      assert files[..i] == files;
    }
  }

  /**
   * `main` after the command line is parsed: one table for the whole run, the
   * folders in order, and a panic that ends the run at the first folder that
   * cannot be listed.
   */
  method Run(folders: seq<Listing>, md5: Hash) returns (index: DuplicateIndex, outcomes: seq<Outcome>, panicked: bool)
    ensures fresh(index)
    ensures panicked <==> FirstUnlistable(folders) < |folders|
    ensures var processed := Submissions(AllFiles(folders[..FirstUnlistable(folders)]), md5);
      index.fingerprints == Replay(map[], processed) && outcomes == Reports(map[], processed)
  {
    index := new DuplicateIndex();
    outcomes := [];
    panicked := false;
    var i := 0;
    while i < |folders|
      invariant 0 <= i <= |folders| && i <= FirstUnlistable(folders)
      invariant index.fingerprints == Replay(map[], Submissions(AllFiles(folders[..i]), md5))
      invariant outcomes == Reports(map[], Submissions(AllFiles(folders[..i]), md5))
    {
      match folders[i] {
        case Unlistable(_) =>
          panicked := true;
          return;
        case Listed(found) =>
          ghost var done := Submissions(AllFiles(folders[..i]), md5);
          var more := index.Scan(found, md5);
          assert folders[..i + 1][..i] == folders[..i];
          SubmissionsAppend(AllFiles(folders[..i]), found, md5);
          ReplayConcat(map[], done, Submissions(found, md5));
          ReportsConcat(map[], done, Submissions(found, md5));
          outcomes := outcomes + more;
      }
      i := i + 1;
    }
    assert folders[..i] == folders[..FirstUnlistable(folders)];
  }

  /** Recording two lists in turn is recording their concatenation. */
  lemma {:induction false} ReplayConcat(m: map<string, string>, xs: seq<Submission>, ys: seq<Submission>)
    ensures Replay(m, xs + ys) == Replay(Replay(m, xs), ys)
    decreases |ys|
  {
    if ys == [] {
      assert xs + ys == xs;
    } else {
      ReplayConcat(m, xs, ys[..|ys| - 1]);
      assert (xs + ys)[..|xs + ys| - 1] == xs + ys[..|ys| - 1];
    }
  }

  /** The reports of a concatenation are the reports of the first list, then those of the second against the table it left. */
  lemma {:induction false} ReportsConcat(m: map<string, string>, xs: seq<Submission>, ys: seq<Submission>)
    ensures Reports(m, xs + ys) == Reports(m, xs) + Reports(Replay(m, xs), ys)
    decreases |ys|
  {
    if ys == [] {
      assert xs + ys == xs;
    } else {
      var prior := ys[..|ys| - 1];
      ReportsConcat(m, xs, prior);
      ReplayConcat(m, xs, prior);
      assert (xs + ys)[..|xs + ys| - 1] == xs + prior;
    }
  }

  /** The first submission of a fingerprint wins, whichever order the files come in; distinct fingerprints are both new. */
  method FirstWinsScenario(a: string, b: string, x: string, y: string)
    requires a != b
  {
    var index := new DuplicateIndex();
    var r1 := index.Record(a, x);
    var r2 := index.Record(a, y);
    assert r1 == Fresh && r2 == DuplicateOf(x);

    index := new DuplicateIndex();
    r1 := index.Record(a, y);
    r2 := index.Record(a, x);
    assert r1 == Fresh && r2 == DuplicateOf(y);

    index := new DuplicateIndex();
    r1 := index.Record(a, x);
    r2 := index.Record(b, y);
    assert r1 == Fresh && r2 == Fresh;
  }
}

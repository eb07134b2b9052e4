/** The rotating file sink, and what whole runs of it leave on disk. */
module RotatingSink {
  import opened Filename
  import opened RotatingFiles

  /** Opening in append mode creates a missing base file. A rotation on open leaves the recorded size as
      it was. */
  function Opened(fs: Files<char>, base: string, maxFiles: nat, rotateOnOpen: bool): Sink<char> {
    var f := fs[base := FileAt(fs, base)];
    Sink(if rotateOnOpen && f[base] != [] then Rotated(f, base, maxFiles) else f, |f[base]|)
  }

  class RotatingFileSink {
    const base: string
    const maxSize: nat
    const maxFiles: nat
    var fs: Files<char>
    var currentSize: nat

    ghost function State(): Sink<char>
      reads this
    {
      Sink(fs, currentSize)
    }

    constructor (disk: Files<char>, base: string, maxSize: nat, maxFiles: nat, rotateOnOpen: bool)
      ensures this.base == base && this.maxSize == maxSize && this.maxFiles == maxFiles
      ensures State() == Opened(disk, base, maxFiles, rotateOnOpen)
    {
      this.base, this.maxSize, this.maxFiles := base, maxSize, maxFiles;
      fs := disk[base := FileAt(disk, base)];
      new;
      currentSize := |fs[base]|;
      if rotateOnOpen && currentSize > 0 {
        var failed := Rotate(0);
      }
    }

    /** The system may refuse the rename; the target has been removed all the same. */
    method RenameFile(src: string, target: string, permitted: bool) returns (ok: bool)
      modifies this`fs
      ensures ok <==> permitted && src in old(fs) && src != target
      ensures fs == if ok then Renamed(old(fs), src, target) else old(fs) - {target}
    {
      fs := fs - {target};
      if src !in fs || !permitted { return false; }
      fs := (fs - {src})[target := fs[src]];
      return true;
    }

    /** `stuck` is the index to which the system refuses to rename, 0 if there is none; `failed` stands for
        the exception. */
    method Rotate(stuck: nat) returns (failed: bool)
      modifies this`fs, this`currentSize
      ensures failed <==> Fails(old(fs), base, maxFiles, stuck)
      ensures failed ==> fs == FailedRotation(old(fs), base, maxFiles, stuck) && currentSize == 0
      ensures !failed ==> fs == Rotated(old(fs), base, maxFiles) && currentSize == old(currentSize)
    {
      var i: nat := maxFiles;
      while i > 0
        invariant 0 <= i <= maxFiles && currentSize == old(currentSize)
        invariant ShiftedUntil(fs, base, i, stuck) == ShiftedUntil(old(fs), base, maxFiles, stuck)
        invariant Fails(fs, base, i, stuck) <==> Fails(old(fs), base, maxFiles, stuck)
      {
        ghost var was := fs;
        var src := CalcFilename(base, i - 1);
        if src in fs {
          var target := CalcFilename(base, i);
          NamesDiffer(base, i, i - 1);
          var ok := RenameFile(src, target, i != stuck);
          if !ok {
            ok := RenameFile(src, target, i != stuck);
            assert fs == was - {target};
            fs := fs[base := []];
            currentSize := 0;
            return true;
          }
        }
        assert fs == ShiftOne(was, base, i);
        RoundKeepsFailure(was, base, i, stuck);
        i := i - 1;
      }
      NoFailure(old(fs), base, maxFiles, stuck);
      fs := fs[base := []];
      return false;
    }

    /** A message whose rotation fails is not written. */
    method SinkIt(msg: string, stuck: nat) returns (failed: bool)
      modifies this
      ensures failed <==> Rotates(old(State()), maxSize, |msg|) && Fails(old(fs), base, maxFiles, stuck)
      ensures failed ==> State() == Sink(FailedRotation(old(fs), base, maxFiles, stuck), 0)
      ensures !failed ==> State() == Logged(old(State()), base, maxSize, maxFiles, msg, |msg|)
    {
      currentSize := currentSize + |msg|;
      failed := false;
      if currentSize > maxSize {
        failed := Rotate(stuck);
        if failed { return; }
        currentSize := |msg|;
      }
      fs := Appended(fs, base, msg);
    }
  }

  /** A failed rotation leaves every file within its bound, and the recorded size is the real one. */
  lemma FailureKeepsBounds(s: Sink<string>, base: string, maxSize: nat, maxFiles: nat, stuck: nat)
    requires Bounded(s.fs, base, maxSize, maxFiles) && Fails(s.fs, base, maxFiles, stuck)
    ensures var t := Sink(FailedRotation(s.fs, base, maxFiles, stuck), 0);
            Bounded(t.fs, base, maxSize, maxFiles) && base in t.fs && |Bytes(t.fs[base])| == t.size
  {
    var r := FailedRotation(s.fs, base, maxFiles, stuck);
    FailedRotationAt(s.fs, base, maxFiles, stuck, 0);
    forall k: nat | k <= maxFiles && CalcFilename(base, k) in r ensures FileBounded(r[CalcFilename(base, k)], maxSize) {
      FailedRotationAt(s.fs, base, maxFiles, stuck, k);
      if k == 0 { assert Bytes([]) == []; }
    }
  }

  // ---------------------------------------------------------------- whole runs

  function Run(s: Sink<char>, base: string, maxSize: nat, maxFiles: nat, msgs: seq<string>): Sink<char>
    decreases |msgs|
  {
    if msgs == [] then s
    else Run(Logged(s, base, maxSize, maxFiles, msgs[0], |msgs[0]|), base, maxSize, maxFiles, msgs[1..])
  }

  /** The same run on files kept as whole messages. */
  ghost function RunWhole(s: Sink<string>, base: string, maxSize: nat, maxFiles: nat, msgs: seq<string>): Sink<string>
    decreases |msgs|
  {
    if msgs == [] then s
    else RunWhole(Logged(s, base, maxSize, maxFiles, [msgs[0]], |msgs[0]|), base, maxSize, maxFiles, msgs[1..])
  }

  lemma {:induction false} RunOnDisk(s: Sink<string>, base: string, maxSize: nat, maxFiles: nat, msgs: seq<string>)
    ensures var t := RunWhole(s, base, maxSize, maxFiles, msgs);
            Run(Sink(OnDisk(s.fs), s.size), base, maxSize, maxFiles, msgs) == Sink(OnDisk(t.fs), t.size)
    decreases |msgs|
  {
    if msgs != [] {
      LoggedOnDisk(s, base, maxSize, maxFiles, msgs[0]);
      RunOnDisk(Logged(s, base, maxSize, maxFiles, [msgs[0]], |msgs[0]|), base, maxSize, maxFiles, msgs[1..]);
    }
  }

  lemma {:induction false} RunKeepsMessages(s: Sink<string>, base: string, maxSize: nat, maxFiles: nat,
                                            msgs: seq<string>, all: seq<string>)
    requires Bounded(s.fs, base, maxSize, maxFiles) && SizeCovers(s, base)
    requires IsSuffix(Stream(s.fs, base, maxFiles + 1), all)
    ensures var t := RunWhole(s, base, maxSize, maxFiles, msgs);
            Bounded(t.fs, base, maxSize, maxFiles) && SizeCovers(t, base)
            && IsSuffix(Stream(t.fs, base, maxFiles + 1), all + msgs)
    decreases |msgs|
  {
    if msgs == [] {
      assert all + msgs == all;
    } else {
      LoggedBounded(s, base, maxSize, maxFiles, msgs[0]);
      LoggedIsSuffix(s, base, maxSize, maxFiles, [msgs[0]], |msgs[0]|, all);
      assert all + [msgs[0]] + msgs[1..] == all + msgs;
      RunKeepsMessages(Logged(s, base, maxSize, maxFiles, [msgs[0]], |msgs[0]|), base, maxSize, maxFiles, msgs[1..],
                       all + [msgs[0]]);
    }
  }

  /** What the rotations of a run throw away, in order. */
  function RunLost(s: Sink<char>, base: string, maxSize: nat, maxFiles: nat, msgs: seq<string>): string
    decreases |msgs|
  {
    if msgs == [] then ""
    else
      LostNow(s, base, maxSize, maxFiles, |msgs[0]|)
      + RunLost(Logged(s, base, maxSize, maxFiles, msgs[0], |msgs[0]|), base, maxSize, maxFiles, msgs[1..])
  }

  lemma {:induction false} RunKeepsBytes(s: Sink<char>, base: string, maxSize: nat, maxFiles: nat, msgs: seq<string>)
    ensures Stream(s.fs, base, maxFiles + 1) + Bytes(msgs)
            == RunLost(s, base, maxSize, maxFiles, msgs)
               + Stream(Run(s, base, maxSize, maxFiles, msgs).fs, base, maxFiles + 1)
    decreases |msgs|
  {
    var before := Stream(s.fs, base, maxFiles + 1);
    if msgs == [] {
      assert before + Bytes(msgs) == before == "" + before;
    } else {
      var t := Logged(s, base, maxSize, maxFiles, msgs[0], |msgs[0]|);
      LoggedStream(s, base, maxSize, maxFiles, msgs[0], |msgs[0]|);
      RunKeepsBytes(t, base, maxSize, maxFiles, msgs[1..]);
      Chained(before, msgs[0], Bytes(msgs[1..]), LostNow(s, base, maxSize, maxFiles, |msgs[0]|),
              Stream(t.fs, base, maxFiles + 1), RunLost(t, base, maxSize, maxFiles, msgs[1..]),
              Stream(Run(t, base, maxSize, maxFiles, msgs[1..]).fs, base, maxFiles + 1));
    }
  }

  lemma Chained(a: string, m: string, rest: string, lost: string, b: string, later: string, end: string)
    requires a + m == lost + b && b + rest == later + end
    ensures a + (m + rest) == (lost + later) + end
  {
    assert a + (m + rest) == (a + m) + rest == (lost + b) + rest == lost + (b + rest) == lost + (later + end);
  }

  /** The number of rotations in a run. */
  function Rotations(s: Sink<char>, base: string, maxSize: nat, maxFiles: nat, msgs: seq<string>): nat
    decreases |msgs|
  {
    if msgs == [] then 0
    else
      (if Rotates(s, maxSize, |msgs[0]|) then 1 else 0)
      + Rotations(Logged(s, base, maxSize, maxFiles, msgs[0], |msgs[0]|), base, maxSize, maxFiles, msgs[1..])
  }

  // No file has an index above j.
  ghost predicate NoneAbove(fs: Files<char>, base: string, maxFiles: nat, j: nat) {
    forall k: nat :: j < k <= maxFiles ==> CalcFilename(base, k) !in fs
  }

  lemma RotatedNoneAbove(fs: Files<char>, base: string, maxFiles: nat, j: nat)
    requires NoneAbove(fs, base, maxFiles, j)
    ensures NoneAbove(Rotated(fs, base, maxFiles), base, maxFiles, j + 1)
  {
    forall k: nat | j + 1 < k <= maxFiles ensures CalcFilename(base, k) !in Rotated(fs, base, maxFiles) {
      RotatedAt(fs, base, maxFiles, k);
    }
  }

  lemma AppendedNoneAbove(fs: Files<char>, base: string, maxFiles: nat, j: nat, chunk: string)
    requires NoneAbove(fs, base, maxFiles, j)
    ensures NoneAbove(Appended(fs, base, chunk), base, maxFiles, j)
  {
    forall k: nat | j < k <= maxFiles ensures CalcFilename(base, k) !in Appended(fs, base, chunk) {
      NamesDiffer(base, k, 0);
    }
  }

  /** As long as rotations only fill indices that were free, nothing is lost. */
  lemma {:induction false} FreeIndicesLoseNothing(s: Sink<char>, base: string, maxSize: nat, maxFiles: nat,
                                                  msgs: seq<string>, j: nat)
    requires NoneAbove(s.fs, base, maxFiles, j) && j + Rotations(s, base, maxSize, maxFiles, msgs) <= maxFiles
    ensures RunLost(s, base, maxSize, maxFiles, msgs) == ""
    decreases |msgs|
  {
    if msgs != [] {
      var t := Logged(s, base, maxSize, maxFiles, msgs[0], |msgs[0]|);
      if Rotates(s, maxSize, |msgs[0]|) {
        RotatedNoneAbove(s.fs, base, maxFiles, j);
        AppendedNoneAbove(Rotated(s.fs, base, maxFiles), base, maxFiles, j + 1, msgs[0]);
        FreeIndicesLoseNothing(t, base, maxSize, maxFiles, msgs[1..], j + 1);
      } else {
        AppendedNoneAbove(s.fs, base, maxFiles, j, msgs[0]);
        FreeIndicesLoseNothing(t, base, maxSize, maxFiles, msgs[1..], j);
      }
    }
  }

  /** Each file found at the start counts as one message. */
  function Whole(fs: Files<char>): Files<string> {
    map name | name in fs :: [fs[name]]
  }

  lemma WholeOnDisk(fs: Files<char>)
    ensures OnDisk(Whole(fs)) == fs
  {
    forall name | name in fs ensures OnDisk(Whole(fs))[name] == fs[name] {
      assert Bytes([fs[name]]) == fs[name] + Bytes([]);
    }
  }

  /** What opening throws away: what one rotation does, if it rotates. */
  function OpenLost(fs: Files<char>, base: string, maxFiles: nat, rotateOnOpen: bool): string {
    var f := fs[base := FileAt(fs, base)];
    if rotateOnOpen && f[base] != [] then Lost(f, base, maxFiles) else ""
  }

  lemma OpenedStream(fs: Files<char>, base: string, maxFiles: nat, rotateOnOpen: bool)
    ensures Stream(fs, base, maxFiles + 1)
            == OpenLost(fs, base, maxFiles, rotateOnOpen)
               + Stream(Opened(fs, base, maxFiles, rotateOnOpen).fs, base, maxFiles + 1)
  {
    var f := fs[base := FileAt(fs, base)];
    CreatedStream(fs, base, maxFiles + 1);
    if rotateOnOpen && f[base] != [] {
      RotatedStream(f, base, maxFiles);
    } else {
      NothingBefore(Stream(f, base, maxFiles + 1));
    }
  }

  // Creating a missing base file adds nothing.
  lemma CreatedStream(fs: Files<char>, base: string, n: nat)
    requires n > 0
    ensures Stream(fs[base := FileAt(fs, base)], base, n) == Stream(fs, base, n)
  {
    assert FileAt(fs, base) + [] == FileAt(fs, base);
    assert fs[base := FileAt(fs, base)] == Appended(fs, base, []);
    AppendedStream(fs, base, n, []);
    assert Stream(fs, base, n) + [] == Stream(fs, base, n);
  }

  lemma OpenedCovers(fs: Files<char>, base: string, maxFiles: nat, rotateOnOpen: bool)
    ensures var s := Opened(fs, base, maxFiles, rotateOnOpen);
            base in s.fs && |s.fs[base]| <= s.size
    ensures var s := Opened(fs, base, maxFiles, rotateOnOpen);
            Slack(s, base) == 0 <==> !(rotateOnOpen && FileAt(fs, base) != [])
  {
    RotatedAt(fs[base := FileAt(fs, base)], base, maxFiles, 0);
  }

  /** The bytes left on disk, from the oldest file to the current one, are what was there at the start
      followed by everything logged, less what opening and the rotations threw away at the old end. */
  lemma StreamIsKept(fs: Files<char>, base: string, maxSize: nat, maxFiles: nat, rotateOnOpen: bool, msgs: seq<string>)
    ensures var s := Opened(fs, base, maxFiles, rotateOnOpen);
            Stream(fs, base, maxFiles + 1) + Bytes(msgs)
            == OpenLost(fs, base, maxFiles, rotateOnOpen) + RunLost(s, base, maxSize, maxFiles, msgs)
               + Stream(Run(s, base, maxSize, maxFiles, msgs).fs, base, maxFiles + 1)
  {
    var s := Opened(fs, base, maxFiles, rotateOnOpen);
    OpenedStream(fs, base, maxFiles, rotateOnOpen);
    RunKeepsBytes(s, base, maxSize, maxFiles, msgs);
    var lost, mid := OpenLost(fs, base, maxFiles, rotateOnOpen), Stream(s.fs, base, maxFiles + 1);
    Reassociate(lost, mid, Bytes(msgs));
    Reassociate(lost, RunLost(s, base, maxSize, maxFiles, msgs),
                Stream(Run(s, base, maxSize, maxFiles, msgs).fs, base, maxFiles + 1));
  }

  lemma {:induction false} NothingThere(fs: Files<char>, base: string, n: nat)
    requires forall k: nat :: k < n ==> CalcFilename(base, k) !in fs
    ensures Stream(fs, base, n) == []
  {
    if n > 0 { NothingThere(fs, base, n - 1); }
  }

  /** From a fresh directory the files hold a suffix of everything logged, and all of it as long as there
      are at most max_files rotations. */
  lemma FreshStreamIsKept(fs: Files<char>, base: string, maxSize: nat, maxFiles: nat, rotateOnOpen: bool,
                          msgs: seq<string>)
    requires forall k: nat :: k <= maxFiles ==> CalcFilename(base, k) !in fs
    ensures var s := Opened(fs, base, maxFiles, rotateOnOpen);
            var left := Stream(Run(s, base, maxSize, maxFiles, msgs).fs, base, maxFiles + 1);
            && Bytes(msgs) == RunLost(s, base, maxSize, maxFiles, msgs) + left
            && (Rotations(s, base, maxSize, maxFiles, msgs) <= maxFiles ==> left == Bytes(msgs))
  {
    var s := Opened(fs, base, maxFiles, rotateOnOpen);
    NothingThere(fs, base, maxFiles + 1);
    FreshOpened(fs, base, maxFiles, rotateOnOpen);
    StreamIsKept(fs, base, maxSize, maxFiles, rotateOnOpen, msgs);
    NothingBefore(Bytes(msgs));
    NothingBefore(RunLost(s, base, maxSize, maxFiles, msgs));
    NothingBefore(Stream(Run(s, base, maxSize, maxFiles, msgs).fs, base, maxFiles + 1));
    if Rotations(s, base, maxSize, maxFiles, msgs) <= maxFiles {
      FreeIndicesLoseNothing(s, base, maxSize, maxFiles, msgs, 0);
    }
  }

  lemma FreshOpened(fs: Files<char>, base: string, maxFiles: nat, rotateOnOpen: bool)
    requires forall k: nat :: k <= maxFiles ==> CalcFilename(base, k) !in fs
    ensures OpenLost(fs, base, maxFiles, rotateOnOpen) == ""
    ensures NoneAbove(Opened(fs, base, maxFiles, rotateOnOpen).fs, base, maxFiles, 0)
  {
    assert CalcFilename(base, 0) !in fs;
    AppendedNoneAbove(fs, base, maxFiles, 0, "");
    assert fs[base := FileAt(fs, base)] == Appended(fs, base, "");
  }

  lemma NothingBefore(a: string)
    ensures [] + a == a
  {}

  /** The files are made of whole messages: there is a division of every file into messages such that the
      messages are the last of those found at the start and those logged, and each file has at most
      maxSize bytes or is a single one of them. */
  lemma MessagesAreWhole(fs: Files<char>, base: string, maxSize: nat, maxFiles: nat, rotateOnOpen: bool,
                         msgs: seq<string>)
    ensures var s := Opened(fs, base, maxFiles, rotateOnOpen);
            var log := RunWhole(Sink(Whole(s.fs), s.size), base, maxSize, maxFiles, msgs).fs;
            && Run(s, base, maxSize, maxFiles, msgs).fs == OnDisk(log)
            && IsSuffix(Stream(log, base, maxFiles + 1), Stream(Whole(s.fs), base, maxFiles + 1) + msgs)
            && Bounded(log, base, maxSize, maxFiles)
  {
    var s := Opened(fs, base, maxFiles, rotateOnOpen);
    var w := Sink(Whole(s.fs), s.size);
    OpenedCovers(fs, base, maxFiles, rotateOnOpen);
    WholeOnDisk(s.fs);
    RunOnDisk(w, base, maxSize, maxFiles, msgs);
    assert Bytes(w.fs[base]) == OnDisk(w.fs)[base];
    RunKeepsMessages(w, base, maxSize, maxFiles, msgs, Stream(w.fs, base, maxFiles + 1));
  }

  /** Over a run the recorded size stays ahead of the real one by what it was at the start, until the
      first rotation, which happens exactly when the messages do not all fit. */
  lemma {:induction false} RunSlack(s: Sink<char>, base: string, maxSize: nat, maxFiles: nat, msgs: seq<string>)
    ensures Slack(Run(s, base, maxSize, maxFiles, msgs), base)
            == if s.size + |Bytes(msgs)| > maxSize && msgs != [] then 0 else Slack(s, base)
    decreases |msgs|
  {
    if msgs != [] {
      var t := Logged(s, base, maxSize, maxFiles, msgs[0], |msgs[0]|);
      LoggedSlack(s, base, maxSize, maxFiles, msgs[0]);
      RunSlack(t, base, maxSize, maxFiles, msgs[1..]);
      if msgs[1..] == [] { assert Bytes(msgs) == msgs[0] + Bytes([]); }
    }
  }

  /** Files with other names are never touched. */
  lemma {:induction false} OthersUntouched(s: Sink<char>, base: string, maxSize: nat, maxFiles: nat,
                                           msgs: seq<string>, name: string)
    requires forall k: nat :: k <= maxFiles ==> name != CalcFilename(base, k)
    ensures Same(Run(s, base, maxSize, maxFiles, msgs).fs, name, s.fs, name)
    decreases |msgs|
  {
    assert name != CalcFilename(base, 0);
    if msgs != [] {
      RotatedElsewhere(s.fs, base, maxFiles, name);
      OthersUntouched(Logged(s, base, maxSize, maxFiles, msgs[0], |msgs[0]|), base, maxSize, maxFiles, msgs[1..], name);
    }
  }
}

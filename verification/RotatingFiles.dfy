/** Rotation over a file system, a map from names to contents. Contents are sequences of any kind: bytes
    for what is on disk, whole messages for arguing that none is split. */
module RotatingFiles {
  import opened Filename

  type Files<T> = map<string, seq<T>>

  function FileAt<T>(fs: Files<T>, name: string): seq<T> {
    if name in fs then fs[name] else []
  }

  /** Removing the target, then renaming. */
  function Renamed<T>(fs: Files<T>, src: string, target: string): Files<T>
    requires src in fs
  {
    (fs - {target} - {src})[target := fs[src]]
  }

  function ShiftOne<T>(fs: Files<T>, base: string, i: nat): Files<T>
    requires i > 0
  {
    var src := CalcFilename(base, i - 1);
    if src in fs then Renamed(fs, src, CalcFilename(base, i)) else fs
  }

  /** The loop from index i down to 1. */
  function Shifted<T>(fs: Files<T>, base: string, i: nat): Files<T>
    decreases i
  {
    if i == 0 then fs else Shifted(ShiftOne(fs, base, i), base, i - 1)
  }

  /** A rotation ends with the base file reopened and truncated. */
  function Rotated<T>(fs: Files<T>, base: string, maxFiles: nat): Files<T> {
    Shifted(fs, base, maxFiles)[base := []]
  }

  // ---------------------------------------------------------------- where every file goes

  /** The same presence and content under one name of one file system and one of another. */
  ghost predicate Same<T>(a: Files<T>, x: string, b: Files<T>, y: string) {
    (x in a <==> y in b) && FileAt(a, x) == FileAt(b, y)
  }

  lemma {:induction false} ShiftedElsewhere<T>(fs: Files<T>, base: string, i: nat, name: string)
    requires forall k: nat :: k <= i ==> name != CalcFilename(base, k)
    ensures Same(Shifted(fs, base, i), name, fs, name)
    decreases i
  {
    if i > 0 { ShiftedElsewhere(ShiftOne(fs, base, i), base, i - 1, name); }
  }

  lemma RenamedAt<T>(fs: Files<T>, src: string, target: string, name: string)
    requires src in fs && src != target
    ensures var r := Renamed(fs, src, target);
            if name == target then Same(r, name, fs, src)
            else if name == src then name !in r
            else Same(r, name, fs, name)
  {}

  lemma ShiftOneAt<T>(fs: Files<T>, base: string, i: nat, k: nat)
    requires i > 0
    ensures var n := CalcFilename(base, k);
            if k == i && CalcFilename(base, i - 1) in fs then
              Same(ShiftOne(fs, base, i), n, fs, CalcFilename(base, i - 1))
            else if k == i - 1 then n !in ShiftOne(fs, base, i)
            else Same(ShiftOne(fs, base, i), n, fs, n)
  {
    NamesDiffer(base, i, i - 1);
    NamesDiffer(base, k, i);
    NamesDiffer(base, k, i - 1);
    var src := CalcFilename(base, i - 1);
    if src in fs { RenamedAt(fs, src, CalcFilename(base, i), CalcFilename(base, k)); }
  }

  lemma OtherNames(base: string, i: nat)
    ensures forall k: nat :: k <= i - 1 ==> CalcFilename(base, i) != CalcFilename(base, k)
  {
    forall k: nat | k <= i - 1 ensures CalcFilename(base, i) != CalcFilename(base, k) { NamesDiffer(base, i, k); }
  }

  lemma ShiftedTop<T>(fs: Files<T>, base: string, i: nat)
    requires i > 0
    ensures Same(Shifted(fs, base, i), CalcFilename(base, i), ShiftOne(fs, base, i), CalcFilename(base, i))
  {
    OtherNames(base, i);
    ShiftedElsewhere(ShiftOne(fs, base, i), base, i - 1, CalcFilename(base, i));
  }

  /** After the loop file k is the former file k - 1; only the last one stays when there is nothing to
      replace it, and every other gap moves up with the files around it. */
  lemma {:induction false} ShiftedAt<T>(fs: Files<T>, base: string, i: nat, k: nat)
    requires 0 < k <= i
    ensures var n, m := CalcFilename(base, k), CalcFilename(base, k - 1);
            if k == i && m !in fs then Same(Shifted(fs, base, i), n, fs, n) else Same(Shifted(fs, base, i), n, fs, m)
    decreases i
  {
    var one := ShiftOne(fs, base, i);
    ShiftOneAt(fs, base, i, k);
    ShiftOneAt(fs, base, i, k - 1);
    if k == i {
      ShiftedTop(fs, base, i);
    } else {
      ShiftedAt(one, base, i - 1, k);
      if k == i - 1 { ShiftOneAt(fs, base, i, i - 1); }
    }
  }

  /** What one rotation does to every name. */
  lemma RotatedAt<T>(fs: Files<T>, base: string, maxFiles: nat, k: nat)
    requires k <= maxFiles
    ensures var n := CalcFilename(base, k);
            if k == 0 then n in Rotated(fs, base, maxFiles) && Rotated(fs, base, maxFiles)[n] == []
            else if k == maxFiles && CalcFilename(base, k - 1) !in fs then Same(Rotated(fs, base, maxFiles), n, fs, n)
            else Same(Rotated(fs, base, maxFiles), n, fs, CalcFilename(base, k - 1))
  {
    if k > 0 {
      NamesDiffer(base, k, 0);
      ShiftedAt(fs, base, maxFiles, k);
    }
  }

  /** Names that are not those of indices 0..maxFiles are left alone. */
  lemma RotatedElsewhere<T>(fs: Files<T>, base: string, maxFiles: nat, name: string)
    requires forall k: nat :: k <= maxFiles ==> name != CalcFilename(base, k)
    ensures Same(Rotated(fs, base, maxFiles), name, fs, name)
  {
    assert name != CalcFilename(base, 0);
    ShiftedElsewhere(fs, base, maxFiles, name);
  }

  // ---------------------------------------------------------------- a rename that fails

  /** The loop when the rename to index `stuck` fails, both times: it stops there, the target removed. */
  function ShiftedUntil<T>(fs: Files<T>, base: string, i: nat, stuck: nat): Files<T>
    decreases i
  {
    if i == 0 then fs
    else if i == stuck && CalcFilename(base, i - 1) in fs then fs - {CalcFilename(base, i)}
    else ShiftedUntil(ShiftOne(fs, base, i), base, i - 1, stuck)
  }

  /** The rename is only tried when there is a file to rename. */
  predicate Fails<T>(fs: Files<T>, base: string, maxFiles: nat, stuck: nat) {
    1 <= stuck <= maxFiles && CalcFilename(base, stuck - 1) in fs
  }

  /** A failed rotation still truncates the base file, so that it cannot grow beyond its limit. */
  function FailedRotation<T>(fs: Files<T>, base: string, maxFiles: nat, stuck: nat): Files<T> {
    ShiftedUntil(fs, base, maxFiles, stuck)[base := []]
  }

  lemma {:induction false} NoFailure<T>(fs: Files<T>, base: string, i: nat, stuck: nat)
    requires !Fails(fs, base, i, stuck)
    ensures ShiftedUntil(fs, base, i, stuck) == Shifted(fs, base, i)
    decreases i
  {
    if i > 0 {
      if 1 <= stuck < i { ShiftOneAt(fs, base, i, stuck - 1); }
      NoFailure(ShiftOne(fs, base, i), base, i - 1, stuck);
    }
  }

  /** One round of the loop that does not fail leaves the rest of it to do. */
  lemma RoundKeepsFailure<T>(fs: Files<T>, base: string, i: nat, stuck: nat)
    requires i > 0 && (i == stuck ==> CalcFilename(base, i - 1) !in fs)
    ensures var one := ShiftOne(fs, base, i);
            && ShiftedUntil(one, base, i - 1, stuck) == ShiftedUntil(fs, base, i, stuck)
            && (Fails(one, base, i - 1, stuck) <==> Fails(fs, base, i, stuck))
  {
    if 1 <= stuck < i { ShiftOneAt(fs, base, i, stuck - 1); }
  }

  // The loop leaves the files below its index alone until it gets there.
  lemma {:induction false} ShiftedUntilBelow<T>(fs: Files<T>, base: string, i: nat, stuck: nat, k: nat)
    requires Fails(fs, base, i, stuck) && k < stuck
    ensures Same(ShiftedUntil(fs, base, i, stuck), CalcFilename(base, k), fs, CalcFilename(base, k))
    decreases i
  {
    if i == stuck {
      NamesDiffer(base, k, i);
    } else {
      ShiftOneAt(fs, base, i, stuck - 1);
      ShiftOneAt(fs, base, i, k);
      ShiftedUntilBelow(ShiftOne(fs, base, i), base, i - 1, stuck, k);
    }
  }

  lemma {:induction false} ShiftedUntilElsewhere<T>(fs: Files<T>, base: string, i: nat, stuck: nat, name: string)
    requires forall k: nat :: k <= i ==> name != CalcFilename(base, k)
    ensures Same(ShiftedUntil(fs, base, i, stuck), name, fs, name)
    decreases i
  {
    if i > 0 && !(i == stuck && CalcFilename(base, i - 1) in fs) {
      ShiftedUntilElsewhere(ShiftOne(fs, base, i), base, i - 1, stuck, name);
    }
  }

  lemma {:induction false} ShiftedUntilAt<T>(fs: Files<T>, base: string, i: nat, stuck: nat, k: nat)
    requires Fails(fs, base, i, stuck) && stuck <= k <= i
    ensures var n, m, r := CalcFilename(base, k), CalcFilename(base, k - 1), ShiftedUntil(fs, base, i, stuck);
            if k == stuck then n !in r
            else if k == i && m !in fs then Same(r, n, fs, n)
            else Same(r, n, fs, m)
    decreases i
  {
    if i > stuck {
      ShiftOneAt(fs, base, i, stuck - 1);
      ShiftOneAt(fs, base, i, k);
      ShiftOneAt(fs, base, i, k - 1);
      var one := ShiftOne(fs, base, i);
      if k == i {
        OtherNames(base, i);
        ShiftedUntilElsewhere(one, base, i - 1, stuck, CalcFilename(base, i));
      } else {
        ShiftedUntilAt(one, base, i - 1, stuck, k);
        if k == i - 1 { ShiftOneAt(fs, base, i, i - 1); }
      }
    }
  }

  /** What a failed rotation does to every file: those above the failing index have moved up as usual, the
      index itself is gone, those below are as before, but the base file is empty. */
  lemma FailedRotationAt<T>(fs: Files<T>, base: string, maxFiles: nat, stuck: nat, k: nat)
    requires Fails(fs, base, maxFiles, stuck) && k <= maxFiles
    ensures var n, r := CalcFilename(base, k), FailedRotation(fs, base, maxFiles, stuck);
            if k == 0 then n in r && r[n] == []
            else if k < stuck then Same(r, n, fs, n)
            else if k == stuck then n !in r
            else if k == maxFiles && CalcFilename(base, k - 1) !in fs then Same(r, n, fs, n)
            else Same(r, n, fs, CalcFilename(base, k - 1))
  {
    NamesDiffer(base, k, 0);
    if 0 < k < stuck { ShiftedUntilBelow(fs, base, maxFiles, stuck, k); }
    if k >= stuck { ShiftedUntilAt(fs, base, maxFiles, stuck, k); }
  }

  // ---------------------------------------------------------------- the stream

  /** The files n-1, ..., 1, 0 one after the other: oldest data first. */
  function Stream<T>(fs: Files<T>, base: string, n: nat): seq<T> {
    if n == 0 then [] else FileAt(fs, CalcFilename(base, n - 1)) + Stream(fs, base, n - 1)
  }

  /** What one rotation throws away: the oldest file, if there is one to take its place. */
  function Lost<T>(fs: Files<T>, base: string, maxFiles: nat): seq<T> {
    if maxFiles == 0 || CalcFilename(base, maxFiles - 1) in fs then FileAt(fs, CalcFilename(base, maxFiles)) else []
  }

  lemma {:induction false} RotatedPrefix<T>(fs: Files<T>, base: string, maxFiles: nat, n: nat)
    requires 0 < n <= maxFiles
    ensures Stream(Rotated(fs, base, maxFiles), base, n) == Stream(fs, base, n - 1)
  {
    RotatedAt(fs, base, maxFiles, n - 1);
    if n > 1 { RotatedPrefix(fs, base, maxFiles, n - 1); }
  }

  lemma LastAfterRotation<T>(fs: Files<T>, base: string, maxFiles: nat)
    ensures FileAt(Rotated(fs, base, maxFiles), CalcFilename(base, maxFiles))
            == if maxFiles == 0 then []
               else if CalcFilename(base, maxFiles - 1) in fs then FileAt(fs, CalcFilename(base, maxFiles - 1))
               else FileAt(fs, CalcFilename(base, maxFiles))
  {
    RotatedAt(fs, base, maxFiles, maxFiles);
  }

  lemma RotatedBaseOnly<T>(fs: Files<T>, base: string)
    ensures Stream(fs, base, 1) == Lost(fs, base, 0) + Stream(Rotated(fs, base, 0), base, 1)
  {
    RotatedAt(fs, base, 0, 0);
  }

  lemma RotatedMany<T>(fs: Files<T>, base: string, n: nat)
    requires n > 0
    ensures Stream(fs, base, n + 1) == Lost(fs, base, n) + Stream(Rotated(fs, base, n), base, n + 1)
  {
    var last := FileAt(fs, CalcFilename(base, n));
    var before := FileAt(fs, CalcFilename(base, n - 1));
    LastAfterRotation(fs, base, n);
    StreamStep(fs, base, n);
    StreamStep(fs, base, n - 1);
    StreamStep(Rotated(fs, base, n), base, n);
    RotatedPrefix(fs, base, n, n);
    MovedUp(last, before, Stream(fs, base, n - 1), CalcFilename(base, n - 1) in fs);
  }

  // The last file replaced by the one before it, or kept when there is none.
  lemma MovedUp<T>(last: seq<T>, before: seq<T>, rest: seq<T>, present: bool)
    requires present || before == []
    ensures last + (before + rest) == if present then last + (before + rest) else [] + (last + rest)
  {}

  /** A rotation keeps the stream but for the file thrown away at its old end. */
  lemma RotatedStream<T>(fs: Files<T>, base: string, maxFiles: nat)
    ensures Stream(fs, base, maxFiles + 1)
            == Lost(fs, base, maxFiles) + Stream(Rotated(fs, base, maxFiles), base, maxFiles + 1)
  {
    if maxFiles == 0 { RotatedBaseOnly(fs, base); } else { RotatedMany(fs, base, maxFiles); }
  }

  lemma StreamStep<T>(fs: Files<T>, base: string, n: nat)
    ensures Stream(fs, base, n + 1) == FileAt(fs, CalcFilename(base, n)) + Stream(fs, base, n)
  {}

  function Appended<T>(fs: Files<T>, base: string, chunk: seq<T>): Files<T> {
    fs[base := FileAt(fs, base) + chunk]
  }

  lemma {:induction false} AppendedStream<T>(fs: Files<T>, base: string, n: nat, chunk: seq<T>)
    requires n > 0
    ensures Stream(Appended(fs, base, chunk), base, n) == Stream(fs, base, n) + chunk
  {
    NamesDiffer(base, n - 1, 0);
    StreamStep(fs, base, n - 1);
    StreamStep(Appended(fs, base, chunk), base, n - 1);
    if n > 1 {
      AppendedStream(fs, base, n - 1, chunk);
      Reassociate(FileAt(fs, CalcFilename(base, n - 1)), Stream(fs, base, n - 1), chunk);
    }
    else { assert Stream(fs, base, 0) == [] && Stream(Appended(fs, base, chunk), base, 0) == []; }
  }

  // ---------------------------------------------------------------- the sink

  /** What the sink keeps: the file system and its idea of the current file's size. */
  datatype Sink<T> = Sink(fs: Files<T>, size: nat)

  /** Logging a message of `size` bytes, stored as `chunk`. */
  function Logged<T>(s: Sink<T>, base: string, maxSize: nat, maxFiles: nat, chunk: seq<T>, size: nat): Sink<T> {
    if s.size + size > maxSize then Sink(Appended(Rotated(s.fs, base, maxFiles), base, chunk), size)
    else Sink(Appended(s.fs, base, chunk), s.size + size)
  }

  ghost predicate IsSuffix<T>(a: seq<T>, b: seq<T>) {
    |a| <= |b| && b[|b| - |a|..] == a
  }

  lemma SuffixOfExtension<T>(a: seq<T>, b: seq<T>, c: seq<T>, lost: seq<T>, rest: seq<T>)
    requires IsSuffix(a, b) && a + c == lost + rest
    ensures IsSuffix(rest, b + c)
  {
    var d := b + c;
    assert d[|d| - |a + c|..] == a + c;
    assert (lost + rest)[|lost|..] == rest;
    assert d[|d| - |rest|..] == d[|d| - |a + c|..][|lost|..];
  }

  predicate Rotates<T>(s: Sink<T>, maxSize: nat, size: nat) {
    s.size + size > maxSize
  }

  /** What logging a message throws away. */
  function LostNow<T>(s: Sink<T>, base: string, maxSize: nat, maxFiles: nat, size: nat): seq<T> {
    if Rotates(s, maxSize, size) then Lost(s.fs, base, maxFiles) else []
  }

  lemma RotatedAndAppended<T>(fs: Files<T>, base: string, maxFiles: nat, chunk: seq<T>)
    ensures Stream(fs, base, maxFiles + 1) + chunk
            == Lost(fs, base, maxFiles) + Stream(Appended(Rotated(fs, base, maxFiles), base, chunk), base, maxFiles + 1)
  {
    var r := Rotated(fs, base, maxFiles);
    RotatedStream(fs, base, maxFiles);
    AppendedStream(r, base, maxFiles + 1, chunk);
    Reassociate(Lost(fs, base, maxFiles), Stream(r, base, maxFiles + 1), chunk);
  }

  lemma OnlyAppended<T>(fs: Files<T>, base: string, maxFiles: nat, chunk: seq<T>)
    ensures Stream(fs, base, maxFiles + 1) + chunk == [] + Stream(Appended(fs, base, chunk), base, maxFiles + 1)
  {
    AppendedStream(fs, base, maxFiles + 1, chunk);
    EmptyFront(Stream(Appended(fs, base, chunk), base, maxFiles + 1));
  }

  lemma EmptyFront<T>(a: seq<T>)
    ensures [] + a == a
  {}

  /** The stream grows by the message, and loses at its old end exactly what the rotation threw away. */
  lemma LoggedStream<T>(s: Sink<T>, base: string, maxSize: nat, maxFiles: nat, chunk: seq<T>, size: nat)
    ensures Stream(s.fs, base, maxFiles + 1) + chunk
            == LostNow(s, base, maxSize, maxFiles, size)
               + Stream(Logged(s, base, maxSize, maxFiles, chunk, size).fs, base, maxFiles + 1)
  {
    if Rotates(s, maxSize, size) {
      RotatedAndAppended(s.fs, base, maxFiles, chunk);
    } else {
      OnlyAppended(s.fs, base, maxFiles, chunk);
    }
  }

  lemma Reassociate<T>(a: seq<T>, b: seq<T>, c: seq<T>)
    ensures (a + b) + c == a + (b + c)
  {}

  lemma LoggedIsSuffix<T>(s: Sink<T>, base: string, maxSize: nat, maxFiles: nat, chunk: seq<T>, size: nat, all: seq<T>)
    requires IsSuffix(Stream(s.fs, base, maxFiles + 1), all)
    ensures IsSuffix(Stream(Logged(s, base, maxSize, maxFiles, chunk, size).fs, base, maxFiles + 1), all + chunk)
  {
    LoggedStream(s, base, maxSize, maxFiles, chunk, size);
    SuffixOfExtension(Stream(s.fs, base, maxFiles + 1), all, chunk, LostNow(s, base, maxSize, maxFiles, size),
                      Stream(Logged(s, base, maxSize, maxFiles, chunk, size).fs, base, maxFiles + 1));
  }

  // ---------------------------------------------------------------- bytes and whole messages

  function Bytes(chunks: seq<string>): string {
    if chunks == [] then [] else chunks[0] + Bytes(chunks[1..])
  }

  lemma {:induction false} BytesAppend(a: seq<string>, b: seq<string>)
    ensures Bytes(a + b) == Bytes(a) + Bytes(b)
  {
    if a == [] {
      assert a + b == b;
    } else {
      assert (a + b)[1..] == a[1..] + b;
      BytesAppend(a[1..], b);
    }
  }

  /** The bytes on disk of files kept as whole messages. */
  function OnDisk(log: Files<string>): Files<char> {
    map name | name in log :: Bytes(log[name])
  }

  lemma {:induction false} ShiftedOnDisk(log: Files<string>, base: string, i: nat)
    ensures OnDisk(Shifted(log, base, i)) == Shifted(OnDisk(log), base, i)
    decreases i
  {
    if i > 0 {
      assert OnDisk(ShiftOne(log, base, i)) == ShiftOne(OnDisk(log), base, i);
      ShiftedOnDisk(ShiftOne(log, base, i), base, i - 1);
    }
  }

  lemma RotatedOnDisk(log: Files<string>, base: string, maxFiles: nat)
    ensures OnDisk(Rotated(log, base, maxFiles)) == Rotated(OnDisk(log), base, maxFiles)
  {
    ShiftedOnDisk(log, base, maxFiles);
  }

  lemma AppendedOnDisk(log: Files<string>, base: string, msg: string)
    ensures OnDisk(Appended(log, base, [msg])) == Appended(OnDisk(log), base, msg)
  {
    BytesAppend(FileAt(log, base), [msg]);
    assert Bytes([msg]) == msg;
    assert Bytes([]) == [];
  }

  lemma LoggedOnDisk(s: Sink<string>, base: string, maxSize: nat, maxFiles: nat, msg: string)
    ensures var t := Logged(s, base, maxSize, maxFiles, [msg], |msg|);
            Sink(OnDisk(t.fs), t.size) == Logged(Sink(OnDisk(s.fs), s.size), base, maxSize, maxFiles, msg, |msg|)
  {
    RotatedOnDisk(s.fs, base, maxFiles);
    AppendedOnDisk(Rotated(s.fs, base, maxFiles), base, msg);
    AppendedOnDisk(s.fs, base, msg);
  }

  /** Each file holds at most maxSize bytes, or one single message (or what one file held at the start). */
  ghost predicate Bounded(log: Files<string>, base: string, maxSize: nat, maxFiles: nat) {
    forall k: nat :: k <= maxFiles && CalcFilename(base, k) in log ==> FileBounded(log[CalcFilename(base, k)], maxSize)
  }

  predicate FileBounded(chunks: seq<string>, maxSize: nat) {
    |Bytes(chunks)| <= maxSize || |chunks| == 1
  }

  lemma RotatedBounded(log: Files<string>, base: string, maxSize: nat, maxFiles: nat)
    requires Bounded(log, base, maxSize, maxFiles)
    ensures Bounded(Rotated(log, base, maxFiles), base, maxSize, maxFiles)
  {
    var r := Rotated(log, base, maxFiles);
    forall k: nat | k <= maxFiles && CalcFilename(base, k) in r ensures FileBounded(r[CalcFilename(base, k)], maxSize) {
      RotatedAt(log, base, maxFiles, k);
      if k == maxFiles && k > 0 && CalcFilename(base, k - 1) !in log {
        assert FileAt(r, CalcFilename(base, k)) == FileAt(log, CalcFilename(base, k));
      }
    }
  }

  lemma AppendedBounded(log: Files<string>, base: string, maxSize: nat, maxFiles: nat, msg: string)
    requires Bounded(log, base, maxSize, maxFiles)
    requires |Bytes(FileAt(log, base))| + |msg| <= maxSize || FileAt(log, base) == []
    ensures Bounded(Appended(log, base, [msg]), base, maxSize, maxFiles)
  {
    var a := Appended(log, base, [msg]);
    BytesAppend(FileAt(log, base), [msg]);
    assert Bytes([msg]) == msg;
    forall k: nat | k <= maxFiles && CalcFilename(base, k) in a ensures FileBounded(a[CalcFilename(base, k)], maxSize) {
      NamesDiffer(base, k, 0);
    }
  }

  /** The sink never thinks the current file smaller than it is. */
  ghost predicate SizeCovers(s: Sink<string>, base: string) {
    base in s.fs && |Bytes(s.fs[base])| <= s.size
  }

  /** How far the sink's idea of the size is from the real one: lasting until the next rotation. */
  function Slack(s: Sink<char>, base: string): int {
    s.size - |FileAt(s.fs, base)|
  }

  lemma LoggedSlack(s: Sink<char>, base: string, maxSize: nat, maxFiles: nat, msg: string)
    ensures Slack(Logged(s, base, maxSize, maxFiles, msg, |msg|), base)
            == if s.size + |msg| > maxSize then 0 else Slack(s, base)
  {
    RotatedAt(s.fs, base, maxFiles, 0);
  }

  lemma LoggedBounded(s: Sink<string>, base: string, maxSize: nat, maxFiles: nat, msg: string)
    requires Bounded(s.fs, base, maxSize, maxFiles) && SizeCovers(s, base)
    ensures var t := Logged(s, base, maxSize, maxFiles, [msg], |msg|);
            Bounded(t.fs, base, maxSize, maxFiles) && SizeCovers(t, base)
  {
    if s.size + |msg| > maxSize {
      RotatedBounded(s.fs, base, maxSize, maxFiles);
      RotatedAt(s.fs, base, maxFiles, 0);
      AppendedBounded(Rotated(s.fs, base, maxFiles), base, maxSize, maxFiles, msg);
    } else {
      AppendedBounded(s.fs, base, maxSize, maxFiles, msg);
      BytesAppend(s.fs[base], [msg]);
    }
    assert Bytes([msg]) == msg;
  }
}
